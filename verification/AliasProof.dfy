/** Which alias records are rewritten, and to what, told from the record's own
    fields (provisioning/build.py:247-279). */
module AliasProof {
  import opened Bytes
  import opened Numbers
  import opened Layout
  import opened ResourceFork
  import opened Alias

  /** The volume's name in a record's head, as far as there is one. */
  function Volume(rec: seq<byte>): seq<byte>
    requires |rec| > 10
  {
    var n: nat := rec[10];
    rec[11..Min(11 + n, |rec|)]
  }

  /** PATH is what the last tag of kind 2 holds. */
  ghost predicate IsPath(tags: seq<Tag>, path: seq<byte>) {
    exists i :: 0 <= i < |tags| && tags[i] == Tag(2, path) && forall j :: i < j < |tags| ==> tags[j].kind != 2
  }

  /** PATH is a first segment and SEGS, with colons between. */
  ghost predicate GoesOn(path: seq<byte>, segs: seq<seq<byte>>) {
    && (forall x :: x in segs ==> 58 !in x)
    && exists first :: 58 !in first && path == Join([first] + segs)
  }

  /** REC points into the volume TARGET, by a path of SEGS there. */
  ghost predicate PointsInto(rec: seq<byte>, target: seq<byte>, path: seq<byte>, segs: seq<seq<byte>>) {
    && |rec| > 10 && Volume(rec) == target
    && path != [] && IsPath(TagsFrom(rec, 150), path) && GoesOn(path, segs)
  }

  /** What the tags take up with a path of N bytes: those of kind 1 are left out,
      the others have 4 bytes in front and are filled up to an even length. */
  function Room(tags: seq<Tag>, n: nat): nat {
    if tags == [] then 0
    else
      var size := if tags[0].kind == 2 then n else |tags[0].data|;
      (if tags[0].kind == 1 then 0 else 4 + size + size % 2) + Room(tags[1..], n)
  }

  /** A record of those tags to the new path is not too long. */
  predicate HasRoom(rec: seq<byte>, new_: seq<seq<byte>>) {
    154 + Room(TagsFrom(rec, 150), |Join(new_)|) <= 65535
  }

  /** What the parser takes from a record, byte by byte: the path of the last tag of
      kind 2, or the volume, a colon and the name. */
  lemma ParsedFields(rec: seq<byte>)
    requires |rec| >= 150
    ensures ParseAlias(rec).Some?
    ensures var t := ParseAlias(rec).value;
            var n: nat, m: nat := rec[10], rec[50];
            && t.volume == rec[11..11 + Min(n, 27)]
            && Be(t.date, 4) == rec[38..42] && Be(t.id, 4) == rec[114..118]
            && (t.folder <==> rec[8..10] == [0, 1])
            && (forall path :: IsPath(TagsFrom(rec, 150), path) ==> t.path == path)
            && ((forall i :: 0 <= i < |TagsFrom(rec, 150)| ==> TagsFrom(rec, 150)[i].kind != 2) ==>
                  t.path == t.volume + [58] + rec[51..51 + Min(m, 63)])
  {
    hide TagsFrom, Get16, Get32, Last, IsPath, Be;
    var tags := TagsFrom(rec, 150);
    LastIsNone(tags);
    forall path
      ensures IsPath(tags, path) <==> Last(tags, 2) == Some(path)
    {
      LastIsPath(tags, path);
    }
    Get32Back(rec, 38, Get32(rec, 38));
    Get32Back(rec, 114, Get32(rec, 114));
    Get16Back(rec, 8, 1);
    ByteOrder(1, 0, 0, 0);
    OneHalf();
  }

  lemma OneHalf()
    ensures Be16(1) == [0, 1] && forall x: u32 :: Be32(x) == Be(x, 4)
  {
    hide Be;
    ByteOrder(1, 0, 0, 0);
  }

  lemma {:induction false} LastIsPath(tags: seq<Tag>, path: seq<byte>)
    ensures Last(tags, 2) == Some(path) <==> IsPath(tags, path)
  {
    if tags != [] {
      var rest := tags[1..];
      LastIsPath(rest, path);
      LastIsNone(rest);
      if IsPath(rest, path) {
        var i :| 0 <= i < |rest| && rest[i] == Tag(2, path) && forall j :: i < j < |rest| ==> rest[j].kind != 2;
        assert tags[i + 1] == Tag(2, path) && forall j :: i + 1 < j < |tags| ==> tags[j] == rest[j - 1];
      }
      if IsPath(tags, path) {
        var i :| 0 <= i < |tags| && tags[i] == Tag(2, path) && forall j :: i < j < |tags| ==> tags[j].kind != 2;
        assert forall j :: i <= j < |rest| ==> rest[j] == tags[j + 1];
        if i > 0 {
          assert rest[i - 1] == Tag(2, path);
        }
      }
    }
  }

  lemma {:induction false} LastIsNone(tags: seq<Tag>)
    ensures Last(tags, 2) == None <==> forall i :: 0 <= i < |tags| ==> tags[i].kind != 2
  {
    if tags != [] {
      LastIsNone(tags[1..]);
      assert tags == [tags[0]] + tags[1..];
    }
  }

  /** The segments after the first colon are those that joined make the path. */
  lemma GoesOnSplit(path: seq<byte>, segs: seq<seq<byte>>)
    ensures GoesOn(path, segs) <==> Split(path)[1..] == segs
  {
    hide Split, Join;
    JoinSplit(path);
    SplitJoinIff(Split(path));
    var all := Split(path);
    assert all == [all[0]] + all[1..];
    if GoesOn(path, segs) {
      var first :| 58 !in first && path == Join([first] + segs);
      SplitJoinIff([first] + segs);
    }
  }

  lemma {:induction false} TagsShort(rec: seq<byte>, o: nat)
    ensures forall t :: t in TagsFrom(rec, o) ==> |t.data| <= 0xFFFF
    ensures TagsFrom(rec, o) != [] ==> o + 4 <= |rec|
    decreases if o <= |rec| then |rec| - o else 0
  {
    hide Get16, Signed16;
    if o + 4 <= |rec| && Signed16(Get16(rec, o)) != -1 {
      var n: nat := Get16(rec, o + 2);
      TagsShort(rec, o + 4 + n + n % 2);
    }
  }

  lemma {:induction false} RoomOfTags(tags: seq<Tag>, path: seq<byte>)
    requires forall t :: t in tags ==> |t.data| <= 0xFFFF
    ensures |EncodeTags(NewTags(tags, path))| == Room(tags, |path|)
    ensures Room(tags, |path|) <= 0xFFFF ==> TagsPack(NewTags(tags, path))
  {
    hide TagsPack;
    if tags == [] {
      PacksNone();
    } else {
      RoomOfTags(tags[1..], path);
      if tags[0].kind != 1 {
        var t := if tags[0].kind == 2 then Tag(2, path) else tags[0];
        PacksNext(t, NewTags(tags[1..], path));
        TagWidth(t);
        assert ([t] + NewTags(tags[1..], path))[1..] == NewTags(tags[1..], path);
      }
    }
  }

  lemma RewroteIff(rec: seq<byte>, new_: seq<seq<byte>>, date: u32)
    requires |rec| >= 150 && new_ != []
    ensures var r := Rewrote(rec, TagsFrom(rec, 150), new_, date);
            if HasRoom(rec, new_) then r.Rewritten? && r.path == new_ else r.Raised?
  {
    hide TagsFrom, NewTags, EncodeTags, Join, Room, TagsPack, NewHead;
    TagsShort(rec, 150);
    RoomOfTags(TagsFrom(rec, 150), Join(new_));
  }

  /** The record is rewritten, to what WHERE makes of the segments after the
      first, exactly if its head names the volume, it has a path, WHERE gives
      something and the new record is not too long. It raises where there is no
      name's length or the new record is too long, and is left alone elsewhere. */
  lemma RewritesIff(rec: seq<byte>, target: seq<byte>, where: seq<seq<byte>> -> seq<seq<byte>>, date: u32)
    ensures var r := RewriteAlias(rec, target, where, date);
            && (r.Rewritten? <==>
                  exists path, segs ::
                    PointsInto(rec, target, path, segs) && where(segs) != [] && HasRoom(rec, where(segs)))
            && (r.Raised? <==>
                  || |rec| <= 10
                  || exists path, segs ::
                       PointsInto(rec, target, path, segs) && where(segs) != [] && !HasRoom(rec, where(segs)))
            && (r.Elsewhere? <==>
                  |rec| > 10 && !exists path, segs :: PointsInto(rec, target, path, segs) && where(segs) != [])
            && (forall path, segs ::
                  r.Rewritten? && PointsInto(rec, target, path, segs) ==> r.path == where(segs))
  {
    hide Split, Join, Last, IsPath, GoesOn, TagsFrom, HasRoom, Rewrote;
    if |rec| > 10 {
      var tags := TagsFrom(rec, 150);
      var n: nat := rec[10];
      assert Slice(rec, 11, 11 + n) == Volume(rec);
      forall path, segs
        ensures PointsInto(rec, target, path, segs) <==>
                Volume(rec) == target && path != [] && Last(tags, 2) == Some(path) && segs == Split(path)[1..]
      {
        LastIsPath(tags, path);
        GoesOnSplit(path, segs);
      }
      if Volume(rec) == target && Last(tags, 2).Some? && Last(tags, 2).value != [] {
        var path := Last(tags, 2).value;
        var segs := Split(path)[1..];
        assert PointsInto(rec, target, path, segs);
        PathNeedsRecord(rec, path);
        if where(segs) != [] {
          RewroteIff(rec, where(segs), date);
        }
      }
    }
  }

  lemma PathNeedsRecord(rec: seq<byte>, path: seq<byte>)
    requires Last(TagsFrom(rec, 150), 2) == Some(path)
    ensures |rec| >= 150
  {
    TagsShort(rec, 150);
  }
}
