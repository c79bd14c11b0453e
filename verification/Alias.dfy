/** 'alis' records rewritten to point where their targets landed
    (provisioning/build.py:247-279, 311-318), read by an independent parser
    (provisioning/aliases.py:150-169). Text is MacRoman bytes. */
module Alias {
  import opened Bytes
  import opened Layout
  import opened ResourceFork

  const COLON: byte := 58
  const FIXED: nat := 150

  // ------------------------------------------------------------------- paths

  /** s.split(":"). */
  function Split(s: seq<byte>): (r: seq<seq<byte>>)
    ensures r != []
  {
    if s == [] then [[]]
    else
      var rest := Split(s[1..]);
      if s[0] == COLON then [[]] + rest else [[s[0]] + rest[0]] + rest[1..]
  }

  /** ":".join(segs). */
  function Join(segs: seq<seq<byte>>): seq<byte> {
    if segs == [] then []
    else if |segs| == 1 then segs[0]
    else segs[0] + [COLON] + Join(segs[1..])
  }

  // -------------------------------------------------------------------- tags

  datatype Tag = Tag(kind: i16, data: seq<byte>)

  /** The tags from O on, up to the end mark or where the record ends. */
  function TagsFrom(rec: seq<byte>, o: nat): seq<Tag>
    decreases if o <= |rec| then |rec| - o else 0
  {
    if o + 4 > |rec| then []
    else
      var kind, n: nat := Signed16(Get16(rec, o)), Get16(rec, o + 2);
      if kind == -1 then []
      else [Tag(kind, Slice(rec, o + 4, o + 4 + n))] + TagsFrom(rec, o + 4 + n + n % 2)
  }

  /** dict(tags).get(kind). */
  function Last(tags: seq<Tag>, kind: i16): Option<seq<byte>> {
    if tags == [] then None
    else
      var later := Last(tags[1..], kind);
      if later.Some? then later else if tags[0].kind == kind then Some(tags[0].data) else None
  }

  function TagBytes(t: Tag): seq<byte> {
    Be16(t.kind) + Be16(|t.data|) + t.data + Zeros(|t.data| % 2)
  }

  function EncodeTags(tags: seq<Tag>): seq<byte> {
    if tags == [] then [] else TagBytes(tags[0]) + EncodeTags(tags[1..])
  }

  const END_MARK: seq<byte> := [0xFF, 0xFF, 0, 0]

  // ------------------------------------------------------------------ rewriting

  datatype Rewrite = Elsewhere | Rewritten(rec: seq<byte>, path: seq<seq<byte>>) | Raised

  /** The tags of a rewritten record: no folder IDs, the new path. */
  function NewTags(tags: seq<Tag>, path: seq<byte>): seq<Tag> {
    if tags == [] then []
    else if tags[0].kind == 1 then NewTags(tags[1..], path)
    else [if tags[0].kind == 2 then Tag(2, path) else tags[0]] + NewTags(tags[1..], path)
  }

  function Prefix(s: seq<byte>, n: nat): (r: seq<byte>)
    ensures |r| == (if |s| < n then |s| else n) && r <= s
  {
    if |s| <= n then s else s[..n]
  }

  /** The 150 bytes before the tags, for a volume NAME created at DATE. */
  function NewHead(head: seq<byte>, name: seq<byte>, date: u32): (r: seq<byte>)
    requires |head| == FIXED && |name| <= 27
    ensures |r| == FIXED
  {
    var vol := [|name| as byte] + name + Zeros(27 - |name|);
    head[..10] + vol + Be32(date) + head[42..46] + Be32(0) + head[50..114] + Be32(0) + head[118..]
  }

  predicate TagsPack(tags: seq<Tag>) {
    forall k :: 0 <= k < |tags| ==> |tags[k].data| <= 0xFFFF
  }

  /** rewrite_alias. WHERE takes the target's segments, volume left out. */
  function RewriteAlias(
      rec: seq<byte>, target: seq<byte>, where: seq<seq<byte>> -> seq<seq<byte>>, date: u32): Rewrite {
    if |rec| <= 10 then Raised
    else
      var n: nat := rec[10];
      var vol := Slice(rec, 11, 11 + n);
      var tags := TagsFrom(rec, FIXED);
      var path := Last(tags, 2);
      if vol != target || path.None? || path.value == [] then Elsewhere
      else
        var new_ := where(Split(path.value)[1..]);
        if new_ == [] then Elsewhere
        else Rewrote(rec, tags, new_, date)
  }

  function Rewrote(rec: seq<byte>, tags: seq<Tag>, new_: seq<seq<byte>>, date: u32): Rewrite
    requires new_ != []
  {
    var later := NewTags(tags, Join(new_));
    if |rec| < FIXED || !TagsPack(later) then Raised
    else
      var all := NewHead(rec[..FIXED], Prefix(new_[0], 27), date) + EncodeTags(later) + END_MARK;
      if |all| > 0xFFFF then Raised
      else Rewritten(all[..4] + Be16(|all|) + all[6..], new_)
  }

  // ------------------------------------------------------------------- the parser

  datatype Target = Target(volume: seq<byte>, date: u32, folder: bool, id: u32, path: seq<byte>)

  /** The volume and the name in the head. */
  function HeadText(rec: seq<byte>): (seq<byte>, seq<byte>)
    requires |rec| >= FIXED
  {
    var n: nat := if rec[10] < 27 then rec[10] else 27;
    var m: nat := if rec[50] < 63 then rec[50] else 63;
    (rec[11..11 + n], rec[51..51 + m])
  }

  function ParseAlias(rec: seq<byte>): Option<Target> {
    if |rec| < FIXED then None
    else
      var (vol, name) := HeadText(rec);
      var path := Last(TagsFrom(rec, FIXED), 2);
      Some(Target(vol, Get32(rec, 38), Get16(rec, 8) == 1, Get32(rec, 114),
                  if path.Some? then path.value else vol + [COLON] + name))
  }

  /** set_alias_ids: both IDs of a target put in, the folder's and the item's. */
  function SetIds(rec: seq<byte>, parent: u32, id: u32): Option<seq<byte>> {
    if |rec| < 118 then None
    else Some(Splice(Splice(rec, 46, Be32(parent)), 114, Be32(id)))
  }

  // ------------------------------------------------------- what rewriting keeps

  lemma TagFields(t: Tag, rec: seq<byte>, o: nat)
    requires |t.data| <= 0xFFFF && o + |TagBytes(t)| <= |rec| && rec[o..o + |TagBytes(t)|] == TagBytes(t)
    ensures Signed16(Get16(rec, o)) == t.kind && Get16(rec, o + 2) == |t.data|
    ensures rec[o + 4..o + 4 + |t.data|] == t.data
  {
    hide Be16, Get16;
    var n := |t.data|;
    TakeApart(rec, o, Be16(t.kind) + Be16(n) + t.data, Zeros(n % 2));
    TakeApart(rec, o, Be16(t.kind) + Be16(n), t.data);
    TakeApart(rec, o, Be16(t.kind), Be16(n));
    SignedBack(rec, o, t.kind);
    Get16Back(rec, o + 2, n);
  }

  lemma SignedBack(s: seq<byte>, at: nat, x: i16)
    requires at + 2 <= |s| && s[at..at + 2] == Be16(x)
    ensures Signed16(Get16(s, at)) == x
  {
    hide Be, Get16;
    var low: u16 := if x < 0 then x + 0x1_0000 else x;
    assert Be16(x) == Be16(low);
    Get16Back(s, at, low);
  }

  /** One turn of the tag loop. */
  lemma TagsStep(rec: seq<byte>, o: nat)
    requires o + 4 <= |rec|
    ensures var kind, n: nat := Signed16(Get16(rec, o)), Get16(rec, o + 2);
            TagsFrom(rec, o) ==
            if kind == -1 then []
            else [Tag(kind, Slice(rec, o + 4, o + 4 + n))] + TagsFrom(rec, o + 4 + n + n % 2)
  {
    hide Get16, Slice, Signed16;
  }

  /** Tags that are written are read back, in order, byte for byte, up to the end
      mark or to less than four bytes. */
  lemma {:induction false} TagsBack(tags: seq<Tag>, rec: seq<byte>, o: nat, rest: seq<byte>)
    requires TagsPack(tags) && (forall k :: 0 <= k < |tags| ==> tags[k].kind != -1)
    requires o <= |rec| && rec[o..] == EncodeTags(tags) + rest
    requires |rest| < 4 || rest[..2] == [0xFF, 0xFF]
    ensures TagsFrom(rec, o) == tags
    decreases |tags|
  {
    hide Get16, TagBytes, TagsFrom, Signed16, Slice;
    TagsDone(rec, o);
    if o + 4 <= |rec| {
      TagsStep(rec, o);
    }
    if tags == [] {
      if |rest| >= 4 {
        Leads(rec, o, rest[..2], rest[2..]);
        EndMark(rec, o);
      }
    } else {
      var t := tags[0];
      var n := |TagBytes(t)|;
      Associates(TagBytes(t), EncodeTags(tags[1..]), rest);
      Leads(rec, o, TagBytes(t), EncodeTags(tags[1..]) + rest);
      TagFields(t, rec, o);
      TagWidth(t);
      TagsBack(tags[1..], rec, o + n, rest);
    }
  }

  lemma TagWidth(t: Tag)
    ensures |TagBytes(t)| == 4 + |t.data| + |t.data| % 2
  {
  }

  lemma EndMark(rec: seq<byte>, o: nat)
    requires o + 2 <= |rec| && rec[o..o + 2] == [0xFF, 0xFF]
    ensures Signed16(Get16(rec, o)) == -1
  {
    assert [0xFF, 0xFF] == Be16(-1) by {
      assert Be(0xFFFF, 2) == Be(0xFF, 1) + [0xFF];
    }
    SignedBack(rec, o, -1);
  }

  /** The tags rewriting leaves alone. */
  function Others(tags: seq<Tag>): seq<Tag> {
    if tags == [] then []
    else if tags[0].kind == 1 || tags[0].kind == 2 then Others(tags[1..])
    else [tags[0]] + Others(tags[1..])
  }

  /** Rewriting keeps the other tags as they are and in order, drops the folder
      IDs, and the path it looks up is the new one. */
  lemma {:induction false} NewTagsKeep(tags: seq<Tag>, path: seq<byte>)
    ensures Others(NewTags(tags, path)) == Others(tags)
    ensures forall t :: t in NewTags(tags, path) ==> t.kind != 1 && (t.kind == 2 ==> t.data == path)
    ensures Last(NewTags(tags, path), 2) == if Last(tags, 2).Some? then Some(path) else None
    ensures (forall t :: t in tags ==> t.kind != -1) ==> forall t :: t in NewTags(tags, path) ==> t.kind != -1
  {
    if tags != [] {
      NewTagsKeep(tags[1..], path);
    }
  }

  lemma {:induction false} NoEndMark(rec: seq<byte>, o: nat)
    ensures forall t :: t in TagsFrom(rec, o) ==> t.kind != -1
    decreases if o <= |rec| then |rec| - o else 0
  {
    hide Get16, Signed16;
    if o + 4 <= |rec| && Signed16(Get16(rec, o)) != -1 {
      var n: nat := Get16(rec, o + 2);
      NoEndMark(rec, o + 4 + n + n % 2);
    }
  }

  /** A record of a head and tags, its length filled in. */
  function Sized(head: seq<byte>, tags: seq<Tag>): seq<byte>
    requires |head| == FIXED
  {
    var all := head + EncodeTags(tags) + END_MARK;
    all[..4] + Be16(|all|) + all[6..]
  }

  lemma SizedReads(head: seq<byte>, tags: seq<Tag>)
    requires |head| == FIXED && TagsPack(tags) && forall t :: t in tags ==> t.kind != -1
    requires |Sized(head, tags)| <= 0xFFFF
    ensures var rec := Sized(head, tags);
            && |rec| >= FIXED && TagsFrom(rec, FIXED) == tags && Get16(rec, 4) == |rec|
            && rec[..4] == head[..4] && rec[6..FIXED] == head[6..]
  {
    hide TagsFrom, Get16, Be16;
    var all, rec := head + EncodeTags(tags) + END_MARK, Sized(head, tags);
    Patched(all, Be16(|all|));
    Get16Back(rec, 4, |all|);
    assert all[FIXED..] == EncodeTags(tags) + END_MARK && all[..4] == head[..4] && all[6..FIXED] == head[6..];
    TagsBack(tags, rec, FIXED, END_MARK);
  }

  lemma Patched(s: seq<byte>, two: seq<byte>)
    requires |s| >= FIXED && |two| == 2
    ensures var r := s[..4] + two + s[6..];
            && |r| == |s| && r[..4] == s[..4] && r[4..6] == two
            && r[6..FIXED] == s[6..FIXED] && r[FIXED..] == s[FIXED..]
  {
  }

  lemma HeadReads(head: seq<byte>, name: seq<byte>, date: u32, rec: seq<byte>)
    requires |head| == FIXED && |name| <= 27 && |rec| >= FIXED
    requires rec[..4] == head[..4] && rec[6..FIXED] == NewHead(head, name, date)[6..]
    ensures rec[10] as nat == |name| && rec[11..11 + |name|] == name
    ensures Get32(rec, 38) == date && Get32(rec, 46) == 0 && Get32(rec, 114) == 0
    ensures rec[6..10] == head[6..10] && rec[42..46] == head[42..46]
    ensures rec[50..114] == head[50..114] && rec[118..FIXED] == head[118..]
  {
    hide Be32, Get32;
    var h := NewHead(head, name, date);
    assert forall k {:trigger rec[k]} :: 6 <= k < FIXED ==> rec[k] == rec[6..FIXED][k - 6] == h[k];
    assert h[10..38] == [|name| as byte] + name + Zeros(27 - |name|);
    assert h[38..42] == Be32(date) && h[46..50] == Be32(0) && h[114..118] == Be32(0);
    assert rec[38..42] == h[38..42] && rec[46..50] == h[46..50] && rec[114..118] == h[114..118];
    Get32Back(rec, 38, date);
    Get32Back(rec, 46, 0);
    Get32Back(rec, 114, 0);
    assert rec[10..38] == h[10..38];
    assert rec[11..11 + |name|] == rec[10..38][1..1 + |name|] == name;
  }

  /** A rewritten alias parses as the new volume (27 bytes at most), the new date,
      ID 0 and the new path; other tags and the rest of the head are kept, and
      the record gives its own length. */
  lemma RewrittenParses(
      rec: seq<byte>, target: seq<byte>, where: seq<seq<byte>> -> seq<seq<byte>>, date: u32)
    requires RewriteAlias(rec, target, where, date).Rewritten?
    ensures var r := RewriteAlias(rec, target, where, date);
            && |rec| >= FIXED && |r.rec| >= FIXED && r.path != []
            && ParseAlias(r.rec) == Some(Target(Prefix(r.path[0], 27), date, Get16(rec, 8) == 1, 0, Join(r.path)))
            && TagsFrom(r.rec, FIXED) == NewTags(TagsFrom(rec, FIXED), Join(r.path))
            && Others(TagsFrom(r.rec, FIXED)) == Others(TagsFrom(rec, FIXED))
            && Get16(r.rec, 4) == |r.rec| && Get32(r.rec, 46) == 0
            && r.rec[..4] == rec[..4] && r.rec[6..10] == rec[6..10] && r.rec[42..46] == rec[42..46]
            && r.rec[50..114] == rec[50..114] && r.rec[118..FIXED] == rec[118..FIXED]
  {
    hide TagsFrom, Get16, Get32, Be16, NewHead, NewTags, Others, EncodeTags, Last, Split, Join, TagsPack;
    var r, tags := RewriteAlias(rec, target, where, date), TagsFrom(rec, FIXED);
    var head, later := rec[..FIXED], NewTags(tags, Join(r.path));
    var name := Prefix(r.path[0], 27);
    NewTagsKeep(tags, Join(r.path));
    NoEndMark(rec, FIXED);
    SizedReads(NewHead(head, name, date), later);
    NewHeadStart(head, name, date);
    HeadReads(head, name, date, r.rec);
    assert head[6..10] == rec[6..10] && head[42..46] == rec[42..46] && head[50..114] == rec[50..114];
    assert head[118..] == rec[118..FIXED] && head[..4] == rec[..4];
    assert forall k :: 0 <= k < 4 ==> r.rec[6 + k] == r.rec[6..10][k] == rec[6..10][k] == rec[6 + k];
    assert r.rec[8] == rec[8] && r.rec[9] == rec[9];
    SameHalves(r.rec, rec, 8);
  }

  lemma NewHeadStart(head: seq<byte>, name: seq<byte>, date: u32)
    requires |head| == FIXED && |name| <= 27
    ensures NewHead(head, name, date)[..4] == head[..4]
  {
  }

  lemma SameHalves(s: seq<byte>, t: seq<byte>, at: nat)
    requires at + 2 <= |s| && at + 2 <= |t| && forall k :: at <= k < at + 2 ==> s[k] == t[k]
    ensures Get16(s, at) == Get16(t, at)
  {
    assert s[at..at + 2] == t[at..at + 2];
  }

  lemma IdsWritten(rec: seq<byte>, parent: u32, id: u32)
    requires |rec| >= 118
    ensures var r := SetIds(rec, parent, id).value;
            && |r| == |rec| && r[46..50] == Be32(parent) && r[114..118] == Be32(id)
            && forall k :: 0 <= k < |rec| && !(46 <= k < 50) && !(114 <= k < 118) ==> r[k] == rec[k]
  {
    hide Be32;
  }

  /** Setting the IDs changes what parses in the ID alone. */
  lemma SetIdsParses(rec: seq<byte>, parent: u32, id: u32)
    requires |rec| >= FIXED
    ensures var r := SetIds(rec, parent, id);
            && r.Some? && |r.value| == |rec| && ParseAlias(r.value) == Some(ParseAlias(rec).value.(id := id))
            && Get32(r.value, 46) == parent && TagsFrom(r.value, FIXED) == TagsFrom(rec, FIXED)
  {
    hide Get16, Get32, Be32, Splice, TagsFrom, HeadText;
    var r := SetIds(rec, parent, id).value;
    IdsWritten(rec, parent, id);
    Get32Back(r, 46, parent);
    Get32Back(r, 114, id);
    SameWords(r, rec, 38);
    SameHalves(r, rec, 8);
    SameTags(r, rec, FIXED);
    SameText(r, rec);
  }

  lemma SameText(s: seq<byte>, t: seq<byte>)
    requires |s| >= FIXED && |t| >= FIXED
    requires forall k :: 10 <= k < 38 || 50 <= k < 114 ==> s[k] == t[k]
    ensures HeadText(s) == HeadText(t)
  {
    var n: nat := if s[10] < 27 then s[10] else 27;
    var m: nat := if s[50] < 63 then s[50] else 63;
    assert s[11..11 + n] == t[11..11 + n] && s[51..51 + m] == t[51..51 + m];
  }

  lemma SameWords(s: seq<byte>, t: seq<byte>, at: nat)
    requires at + 4 <= |s| && at + 4 <= |t| && forall k :: at <= k < at + 4 ==> s[k] == t[k]
    ensures Get32(s, at) == Get32(t, at)
  {
    assert s[at..at + 4] == t[at..at + 4];
  }

  lemma {:induction false} SameTags(s: seq<byte>, t: seq<byte>, o: nat)
    requires |s| == |t| && forall k :: o <= k < |s| ==> s[k] == t[k]
    ensures TagsFrom(s, o) == TagsFrom(t, o)
    decreases if o <= |s| then |s| - o else 0
  {
    hide Get16, Signed16, TagsFrom;
    TagsDone(s, o);
    TagsDone(t, o);
    if o + 4 <= |s| {
      TagsStep(s, o);
      TagsStep(t, o);
      SameHalves(s, t, o);
      SameHalves(s, t, o + 2);
      var n: nat := Get16(s, o + 2);
      assert Slice(s, o + 4, o + 4 + n) == Slice(t, o + 4, o + 4 + n);
      SameTags(s, t, o + 4 + n + n % 2);
    }
  }

  // ------------------------------------------------------------- paths and back

  lemma {:induction false} SplitPlain(s: seq<byte>)
    ensures forall x :: x in Split(s) ==> COLON !in x
  {
    if s != [] {
      SplitPlain(s[1..]);
      var rest := Split(s[1..]);
      forall x | x in Split(s)
        ensures COLON !in x
      {
        assert x in rest || x == [] || x == [s[0]] + rest[0];
      }
    }
  }

  /** Splitting and joining a path changes nothing. */
  lemma {:induction false} JoinSplit(s: seq<byte>)
    ensures Join(Split(s)) == s
  {
    hide Join;
    if s == [] {
      assert Join([[]]) == [] by { JoinOne([]); }
    } else {
      JoinSplit(s[1..]);
      assert s == [s[0]] + s[1..];
      JoinGrows(s[0], Split(s[1..]));
    }
  }

  lemma JoinOne(seg: seq<byte>)
    ensures Join([seg]) == seg
  {
  }

  lemma JoinTwo(seg: seq<byte>, rest: seq<seq<byte>>)
    requires rest != []
    ensures Join([seg] + rest) == seg + [COLON] + Join(rest)
  {
    assert ([seg] + rest)[1..] == rest;
  }

  /** A byte, or a colon, put in front. */
  lemma JoinGrows(c: byte, segs: seq<seq<byte>>)
    requires segs != []
    ensures Join([[c] + segs[0]] + segs[1..]) == [c] + Join(segs)
    ensures Join([[]] + segs) == [COLON] + Join(segs)
  {
    hide Join;
    JoinTwo([], segs);
    var first, rest := segs[0], segs[1..];
    assert segs == [first] + rest;
    if rest == [] {
      assert [[c] + first] + rest == [[c] + first] && segs == [first];
      JoinOne(first);
      JoinOne([c] + first);
    } else {
      JoinTwo(first, rest);
      JoinTwo([c] + first, rest);
      Associates([c], first, [COLON]);
      Associates([c], first + [COLON], Join(rest));
    }
  }

  /** A path splits into the segments it was joined of exactly when there are some
      and none has a colon. */
  lemma SplitJoinIff(segs: seq<seq<byte>>)
    ensures Split(Join(segs)) == segs <==> segs != [] && forall x :: x in segs ==> COLON !in x
  {
    SplitPlain(Join(segs));
    if segs != [] && forall x :: x in segs ==> COLON !in x {
      SplitJoined(segs);
    }
  }

  lemma {:induction false} SplitJoined(segs: seq<seq<byte>>)
    requires segs != [] && forall x :: x in segs ==> COLON !in x
    ensures Split(Join(segs)) == segs
  {
    if |segs| == 1 {
      SplitSegment(segs[0], []);
      assert segs[0] + [] == segs[0];
    } else {
      SplitJoined(segs[1..]);
      var rest := [COLON] + Join(segs[1..]);
      SplitSegment(segs[0], rest);
      assert segs[0] + [COLON] + Join(segs[1..]) == segs[0] + rest;
      assert rest[1..] == Join(segs[1..]);
      assert Split(rest) == [[]] + segs[1..];
      assert segs[0] + [] == segs[0] && ([[]] + segs[1..])[1..] == segs[1..];
      assert segs == [segs[0]] + segs[1..];
    }
  }

  lemma {:induction false} SplitSegment(x: seq<byte>, rest: seq<byte>)
    requires COLON !in x
    ensures Split(x + rest) == [x + Split(rest)[0]] + Split(rest)[1..]
  {
    var after := Split(rest);
    if x == [] {
      assert x + rest == rest && x + after[0] == after[0];
      assert after == [after[0]] + after[1..];
    } else {
      SplitSegment(x[1..], rest);
      assert (x + rest)[1..] == x[1..] + rest && x[0] in x;
      assert x + after[0] == [x[0]] + (x[1..] + after[0]);
      assert ([x[1..] + after[0]] + after[1..])[1..] == after[1..];
    }
  }

  // ------------------------------------------------------------------ the loops

  method ReadTags(rec: seq<byte>) returns (tags: seq<Tag>)
    ensures tags == TagsFrom(rec, FIXED)
  {
    hide Get16, Slice, TagsFrom, Signed16;
    tags := [];
    var o := FIXED;
    while o + 4 <= |rec|
      invariant tags + TagsFrom(rec, o) == TagsFrom(rec, FIXED)
      decreases |rec| - o
    {
      var kind, n: nat := Signed16(Get16(rec, o)), Get16(rec, o + 2);
      TagsNext(rec, o, tags);
      if kind == -1 {
        break;
      }
      tags := tags + [Tag(kind, Slice(rec, o + 4, o + 4 + n))];
      o := o + 4 + n + n % 2;
    }
    TagsDone(rec, o);
  }

  lemma TagsNext(rec: seq<byte>, o: nat, tags: seq<Tag>)
    requires o + 4 <= |rec|
    ensures var kind, n: nat := Signed16(Get16(rec, o)), Get16(rec, o + 2);
            tags + TagsFrom(rec, o) ==
            if kind == -1 then tags
            else tags + [Tag(kind, Slice(rec, o + 4, o + 4 + n))] + TagsFrom(rec, o + 4 + n + n % 2)
  {
    hide Get16, Slice, Signed16;
  }

  lemma TagsDone(rec: seq<byte>, o: nat)
    ensures o + 4 > |rec| ==> TagsFrom(rec, o) == []
  {
  }

  method RewriteRecord(
      rec: seq<byte>, target: seq<byte>, where: seq<seq<byte>> -> seq<seq<byte>>, date: u32) returns (out: Rewrite)
    ensures out == RewriteAlias(rec, target, where, date)
  {
    hide TagsFrom, Get16, Be16, Be32, NewHead, Split, Join, Last, TagBytes, TagsPack;
    if |rec| <= 10 {
      return Raised;
    }
    var n: nat := rec[10];
    var vol := Slice(rec, 11, 11 + n);
    var tags := ReadTags(rec);
    var path := Last(tags, 2);
    if vol != target || path.None? || path.value == [] {
      return Elsewhere;
    }
    var new_ := where(Split(path.value)[1..]);
    if new_ == [] {
      return Elsewhere;
    }
    if |rec| < FIXED {
      return Raised;
    }
    var head := NewHead(rec[..FIXED], Prefix(new_[0], 27), date);
    var body: Option<seq<byte>> := WriteTags(tags, Join(new_));
    if body.None? || |head + body.value| > 0xFFFF {
      return Raised;
    }
    var all := head + body.value;
    assert all == head + EncodeTags(NewTags(tags, Join(new_))) + END_MARK;
    out := Rewritten(all[..4] + Be16(|all|) + all[6..], new_);
  }

  /** The tags of a rewritten record and the end mark; None where one is too long. */
  method WriteTags(tags: seq<Tag>, path: seq<byte>) returns (body: Option<seq<byte>>)
    ensures var later := NewTags(tags, path);
            body == if TagsPack(later) then Some(EncodeTags(later) + END_MARK) else None
  {
    hide TagsPack, Be16;
    var written: seq<byte> := [];
    var k := 0;
    assert tags[0..] == tags;
    while k < |tags|
      invariant 0 <= k <= |tags|
      invariant written + EncodeTags(NewTags(tags[k..], path)) == EncodeTags(NewTags(tags, path))
      invariant TagsPack(NewTags(tags, path)) <==> TagsPack(NewTags(tags[k..], path))
    {
      ghost var rest := NewTags(tags[k..][1..], path);
      assert tags[k..][1..] == tags[k + 1..];
      if tags[k].kind != 1 {
        var data := if tags[k].kind == 2 then path else tags[k].data;
        PacksNext(Tag(tags[k].kind, data), rest);
        assert ([Tag(tags[k].kind, data)] + rest)[1..] == rest;
        if |data| > 0xFFFF {
          return None;
        }
        written := written + (Be16(tags[k].kind) + Be16(|data|) + data + Zeros(|data| % 2));
      }
      k := k + 1;
    }
    PacksNone();
    assert tags[k..] == [] && written + [] == written;
    body := Some(written + END_MARK);
  }

  lemma PacksNext(t: Tag, rest: seq<Tag>)
    ensures TagsPack([t] + rest) <==> |t.data| <= 0xFFFF && TagsPack(rest)
  {
    var all := [t] + rest;
    assert all[0] == t && forall k :: 0 <= k < |rest| ==> rest[k] == all[k + 1];
  }

  lemma PacksNone()
    ensures TagsPack([])
  {
  }

  method Parse(rec: seq<byte>) returns (out: Option<Target>)
    ensures out == ParseAlias(rec)
  {
    hide Get16, Get32, Slice, Signed16, Last, TagsFrom;
    if |rec| < FIXED {
      return None;
    }
    var n: nat := if rec[10] < 27 then rec[10] else 27;
    var vol := rec[11..11 + n];
    var tags: map<i16, seq<byte>> := map[];
    var o := FIXED;
    while o + 4 <= |rec|
      invariant Last(TagsFrom(rec, FIXED), 2) == Later(tags, Last(TagsFrom(rec, o), 2))
      decreases |rec| - o
    {
      var kind, len: nat := Signed16(Get16(rec, o)), Get16(rec, o + 2);
      LastNext(rec, o);
      if kind == -1 {
        break;
      }
      var data := Slice(rec, o + 4, o + 4 + len);
      tags := tags[kind := data];
      o := o + 4 + len + len % 2;
    }
    LastDone(rec, o);
    var m: nat := if rec[50] < 63 then rec[50] else 63;
    var path := if 2 in tags then tags[2] else vol + [COLON] + rec[51..51 + m];
    out := Some(Target(vol, Get32(rec, 38), Get16(rec, 8) == 1, Get32(rec, 114), path));
  }

  lemma LastNext(rec: seq<byte>, o: nat)
    requires o + 4 <= |rec|
    ensures var kind, n: nat := Signed16(Get16(rec, o)), Get16(rec, o + 2);
            var later := Last(TagsFrom(rec, o + 4 + n + n % 2), 2);
            Last(TagsFrom(rec, o), 2) ==
            if kind == -1 then None
            else if later.Some? then later
            else if kind == 2 then Some(Slice(rec, o + 4, o + 4 + n))
            else None
  {
    hide Get16, Slice, Signed16;
    var kind, n: nat := Signed16(Get16(rec, o)), Get16(rec, o + 2);
    var rest := TagsFrom(rec, o + 4 + n + n % 2);
    assert ([Tag(kind, Slice(rec, o + 4, o + 4 + n))] + rest)[1..] == rest;
  }

  lemma LastDone(rec: seq<byte>, o: nat)
    ensures o + 4 > |rec| ==> Last(TagsFrom(rec, o), 2) == None
  {
  }

  /** The path tag after the rest of the loop. */
  function Later(tags: map<i16, seq<byte>>, rest: Option<seq<byte>>): Option<seq<byte>> {
    if rest.Some? then rest else if 2 in tags then Some(tags[2]) else None
  }
}
