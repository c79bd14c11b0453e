/** What becomes of fragments in a merge: which are read back, and the bytes each
    one selects (provisioning/fat_cfm.py:84-154). */
module FatMergeProof {
  import opened Bytes
  import opened Layout
  import opened Grouping
  import opened ResourceFork
  import opened ForkRoundTrip
  import opened FatMerge

  // ------------------------------------------------------------------ the members

  /** The size that is read for member K where the members follow one another: its
      own, if it has 42 bytes. */
  predicate SizeReads(ms: seq<Member>, k: nat)
    requires k < |ms|
  {
    var tail := Flat<byte>(ms[k..]);
    |tail| >= 42 && if k < |ms| - 1 then Get16(tail, 40) == |ms[k]| else Get16(tail, 40) >= |ms[k]|
  }

  /** For every member from K on it is its length; for the last it may be more. */
  predicate SizesRead(ms: seq<Member>, k: nat) {
    forall i :: k <= i < |ms| ==> SizeReads(ms, i)
  }

  lemma MemberAt(cfrg: seq<byte>, ms: seq<Member>, k: nat)
    requires |cfrg| >= 32 && k < |ms|
    ensures 32 + Start<byte>(ms, k) <= |NewCfrg(cfrg, ms)|
    ensures NewCfrg(cfrg, ms)[32 + Start<byte>(ms, k)..] == Flat<byte>(ms[k..])
    ensures var new_, at := NewCfrg(cfrg, ms), 32 + Start<byte>(ms, k);
            && at + |ms[k]| <= |new_| && new_[at..at + |ms[k]|] == ms[k]
            && at + |ms[k]| == 32 + Start<byte>(ms, k + 1)
  {
    hide Flat;
    var at, before := Start<byte>(ms, k), cfrg[..30] + Be16(|ms|);
    FlatPart<byte>(ms, k);
    FlatNext<byte>(ms, k);
    FlatTail<byte>(ms, k);
    Inside(before, Flat<byte>(ms), [], at, at + |ms[k]|);
    assert before + Flat<byte>(ms) + [] == NewCfrg(cfrg, ms);
    assert NewCfrg(cfrg, ms)[32 + at..] == Flat<byte>(ms)[at..];
  }

  lemma SizeAt(s: seq<byte>, at: nat, tail: seq<byte>)
    requires at <= |s| && s[at..] == tail && |tail| >= 42
    ensures Get16(s, at + 40) == Get16(tail, 40)
  {
    assert s[at + 40..at + 42] == tail[40..42];
  }

  lemma {:induction false} TakenBackIff(cfrg: seq<byte>, ms: seq<Member>, k: nat)
    requires |cfrg| >= 32 && k <= |ms| && forall i :: 0 <= i < |ms| ==> |ms[i]| >= 32
    ensures TakeMembers(NewCfrg(cfrg, ms), 32 + Start<byte>(ms, k), |ms| - k) == Some(ms[k..]) <==> SizesRead(ms, k)
    decreases |ms| - k
  {
    hide Flat, NewCfrg, Get16, SizeReads, TakeMembers;
    if k < |ms| {
      TakenBackIff(cfrg, ms, k + 1);
      assert SizesRead(ms, k) <==> SizeReads(ms, k) && SizesRead(ms, k + 1);
      TakenNextIff(cfrg, ms, k);
    } else {
      assert ms[k..] == [];
      TakeNone(NewCfrg(cfrg, ms), 32 + Start<byte>(ms, k));
    }
  }

  lemma TakeNone(cfrg: seq<byte>, pos: nat)
    ensures TakeMembers(cfrg, pos, 0) == Some([])
  {
  }

  lemma TakeOne(cfrg: seq<byte>, pos: nat, n: nat)
    requires n > 0
    ensures TakeMembers(cfrg, pos, n) ==
            if pos + 42 > |cfrg| then None
            else
              var size: nat := Get16(cfrg, pos + 40);
              var rest := TakeMembers(cfrg, pos + size, n - 1);
              if rest.None? then None else Some([Slice(cfrg, pos, pos + size)] + rest.value)
  {
    hide Get16, Slice;
  }

  lemma TakenNextIff(cfrg: seq<byte>, ms: seq<Member>, k: nat)
    requires |cfrg| >= 32 && k < |ms| && forall i :: 0 <= i < |ms| ==> |ms[i]| >= 32
    ensures TakeMembers(NewCfrg(cfrg, ms), 32 + Start<byte>(ms, k), |ms| - k) == Some(ms[k..]) <==>
            && SizeReads(ms, k)
            && TakeMembers(NewCfrg(cfrg, ms), 32 + Start<byte>(ms, k + 1), |ms| - k - 1) == Some(ms[k + 1..])
  {
    hide Flat, NewCfrg, Get16, TakeMembers;
    var new_, at, m, tail := NewCfrg(cfrg, ms), 32 + Start<byte>(ms, k), ms[k], Flat<byte>(ms[k..]);
    MemberAt(cfrg, ms, k);
    TakeOne(new_, at, |ms| - k);
    assert ms[k..] == [m] + ms[k + 1..];
    if |tail| >= 42 {
      SizeAt(new_, at, tail);
      var size: nat := Get16(tail, 40);
      var first, rest := Slice(new_, at, at + size), TakeMembers(new_, at + size, |ms| - k - 1);
      if k < |ms| - 1 {
        MemberAt(cfrg, ms, k + 1);
        if size == |m| {
          assert first == m;
          SameRest(m, rest, ms[k + 1..]);
        } else {
          FirstDiffers(first, rest, ms[k..]);
        }
      } else {
        TakeNone(new_, at + size);
        TakeNone(new_, at + |m|);
        LastIsTail(ms);
        var none := ms[k + 1..];
        assert none == [] && [first] + none == [first] && [m] + none == [m];
        assert size >= |m| ==> first == m;
        if size < |m| {
          FirstDiffers(first, rest, ms[k..]);
        }
      }
    }
  }

  lemma LastIsTail(ms: seq<Member>)
    requires ms != []
    ensures Flat<byte>(ms[|ms| - 1..]) == ms[|ms| - 1]
  {
    var last := ms[|ms| - 1..];
    assert last == [ms[|ms| - 1]] && last[..0] == [];
  }

  lemma SameRest(m: Member, rest: Option<seq<Member>>, ms: seq<Member>)
    ensures (rest.Some? && [m] + rest.value == [m] + ms) <==> rest == Some(ms)
  {
    if rest.Some? {
      assert ([m] + rest.value)[1..] == rest.value && ([m] + ms)[1..] == ms;
    }
  }

  lemma FirstDiffers(first: Member, rest: Option<seq<Member>>, ms: seq<Member>)
    requires ms != [] && |first| != |ms[0]|
    ensures rest.Some? ==> [first] + rest.value != ms
  {
    if rest.Some? {
      assert ([first] + rest.value)[0] == first;
    }
  }

  /** A 'cfrg' made of members lists those members exactly when their sizes read
      as their lengths. */
  lemma MembersBackIff(cfrg: seq<byte>, ms: seq<Member>)
    requires |cfrg| >= 32 && |ms| <= 0xFFFF && forall i :: 0 <= i < |ms| ==> |ms[i]| >= 32
    ensures Members(NewCfrg(cfrg, ms)) == Some(ms) <==> SizesRead(ms, 0)
  {
    hide Flat, TakeMembers, SizeReads, Get16, Be16;
    var new_ := NewCfrg(cfrg, ms);
    assert new_[30..32] == Be16(|ms|);
    Get16Back(new_, 30, |ms|);
    TakenBackIff(cfrg, ms, 0);
    assert ms[..0] == [] && ms[0..] == ms;
    assert Start<byte>(ms, 0) == 0 by {
      NoStart(ms);
    }
  }

  lemma NoStart(ms: seq<Member>)
    ensures Start<byte>(ms, 0) == 0
  {
  }

  // ---------------------------------------------------------- what a member selects

  /** The code a member stands for: 0 is to the end of the fork. */
  function Selected(fork: seq<byte>, m: Member): seq<byte>
    requires |m| >= 32
  {
    Slice(fork, Offset(m), if Length(m) == 0 then |fork| else Offset(m) + Length(m))
  }

  /** Moving a member changes its offset and its length, and nothing else. */
  lemma MovedFields(m: Member, base: nat, n: nat)
    requires Moved(m, base, n).Done?
    ensures var t := Moved(m, base, n).value;
            && |t| == |m| >= 32 && t[..24] == m[..24] && t[32..] == m[32..]
            && Offset(t) == base + Offset(m)
            && Length(t) == if Length(m) != 0 then Length(m) else n - Offset(m)
  {
    hide Get32, Be32;
    var t := Moved(m, base, n).value;
    var off, length := base + Offset(m), if Length(m) != 0 then Length(m) else n - Offset(m);
    assert t[24..28] == Be32(off) && t[28..32] == Be32(length);
    Get32Back(t, 24, off);
    Get32Back(t, 28, length);
  }

  /** A member of the second file selects the bytes it selected there. */
  lemma SecondSelectsTheSame(m: Member, da: seq<byte>, db: seq<byte>)
    requires Moved(m, BaseB(da), |db|).Done?
    ensures Selected(Joined(da, db), Moved(m, BaseB(da), |db|).value) == Selected(db, m)
  {
    hide Moved, Get32, Offset, Length;
    MovedFields(m, BaseB(da), |db|);
    var base, off := BaseB(da), Offset(m);
    var before := da + Zeros(base - |da|);
    SuffixSlice(before, db, off, if Length(m) == 0 then |db| else off + Length(m));
  }

  lemma SuffixSlice(before: seq<byte>, s: seq<byte>, lo: nat, hi: nat)
    ensures Slice(before + s, |before| + lo, |before| + hi) == Slice(s, lo, hi)
  {
  }

  /** A member of the first file stays within its own fork, or starts past the
      merged one, or nothing follows its own fork. */
  predicate Stays(m: Member, da: seq<byte>, db: seq<byte>)
    requires |m| >= 32
  {
    || (if Length(m) == 0 then Offset(m) < |da| else Offset(m) + Length(m) <= |da|)
    || Offset(m) >= |Joined(da, db)|
    || |Joined(da, db)| == |da|
  }

  /** It then, and only then, selects the bytes it selected there. */
  lemma FirstSelectsTheSameIff(m: Member, da: seq<byte>, db: seq<byte>)
    requires Moved(m, 0, |da|).Done?
    ensures Selected(Joined(da, db), Moved(m, 0, |da|).value) == Selected(da, m) <==> Stays(m, da, db)
  {
    hide Moved, Get32, Offset, Length;
    MovedFields(m, 0, |da|);
    var more := Zeros(BaseB(da) - |da|) + db;
    assert Joined(da, db) == da + more;
    var own := Selected(da, m);
    var now := Selected(da + more, Moved(m, 0, |da|).value);
    if Offset(m) + Length(m) > |da| || Length(m) == 0 {
      if |more| == 0 {
        assert da + more == da;
      }
    }
  }

  // -------------------------------------------------------------- the merged file

  /** A header with the lengths and the CRC of what follows it. */
  function Stamped(header: seq<byte>, data: seq<byte>, rsrc: seq<byte>): (s: seq<byte>)
    requires |header| == 128
    ensures |s| == 128
  {
    var h := header[..83] + Be32(|data|) + Be32(|rsrc|) + header[91..];
    h[..124] + Be16(Crc(h[..124])) + h[126..]
  }

  lemma RoundedUp(n: nat)
    ensures n <= Rounded(n) < n + 128 && Rounded(n) % 128 == 0
  {
  }

  /** The forks put under a header are the forks that are read. */
  lemma ForksBack(header: seq<byte>, data: seq<byte>, rsrc: seq<byte>)
    requires |header| == 128 && |data| < 0x1_0000_0000 && |rsrc| < 0x1_0000_0000
    ensures var out := WithForks(header, data, rsrc);
            out.Some? && ReadMacBinary(out.value) == Some(MacBinary(Stamped(header, data, rsrc), data, rsrc))
  {
    hide Crc, Rounded, Be16, Be32, Get32;
    var h := Stamped(header, data, rsrc);
    var out := WithForks(header, data, rsrc).value;
    RoundedUp(|data|);
    RoundedUp(|rsrc|);
    var g := header[..83] + Be32(|data|) + Be32(|rsrc|) + header[91..];
    assert Slice(g, 0, 124) == g[..124] && Slice(g, 126, |g|) == g[126..];
    assert out == h + Padded(data) + Padded(rsrc);
    assert out[83..87] == g[83..87] && out[87..91] == g[87..91];
    assert out[83..87] == Be32(|data|) && out[87..91] == Be32(|rsrc|);
    Get32Back(out, 83, |data|);
    Get32Back(out, 87, |rsrc|);
    var rstart := 128 + Rounded(|data|);
    assert out[..128] == h && out[128..128 + |data|] == data;
    assert out[rstart..rstart + |rsrc|] == rsrc;
  }

  /** Only the data of its 'cfrg' 0 sets the merged resources apart. */
  lemma WithCfrgByType(rs: seq<Resource>, cfrg: seq<byte>)
    ensures ByType(WithCfrg(rs, cfrg)) == WithCfrg(ByType(rs), cfrg)
  {
    hide Order;
    assert Keys(WithCfrg(rs, cfrg)) == Keys(rs);
  }

  lemma ByTypeHas(rs: seq<Resource>, i: nat)
    requires i < |rs|
    ensures rs[i] in ByType(rs)
  {
    hide Order;
    OrderComplete(Keys(rs), i);
    var k :| 0 <= k < |Order(Keys(rs))| && Order(Keys(rs))[k] == i;
    assert ByType(rs)[k] == rs[i];
  }

  /** Where there is anything to read in the resource fork, the header is whole. */
  lemma HeaderIsWhole(blob: seq<byte>)
    requires ReadMacBinary(blob).Some? && ReadFork(ReadMacBinary(blob).value.rsrc) != Some([])
    ensures |ReadMacBinary(blob).value.header| == 128
  {
    hide Get32, Rounded;
    assert |ReadMacBinary(blob).value.rsrc| >= 16;
  }

  /** The files a merge of two CFM files starts from. */
  datatype Input = Input(file: MacBinary, rs: seq<Resource>, cfrg: seq<byte>, members: seq<Member>)

  predicate Reads(blob: seq<byte>, x: Input) {
    && ReadMacBinary(blob) == Some(x.file) && ReadFork(x.file.rsrc) == Some(x.rs)
    && !IsClassic(x.rs, x.file.data)
    && FindCfrg(x.rs) == Some(x.cfrg) && Members(x.cfrg) == Some(x.members)
  }

  lemma MergedCfm(a: seq<byte>, b: seq<byte>, x: Input, y: Input)
    requires Reads(a, x) && Reads(b, y)
    ensures Merge(a, b) == MergeCfm(x.file, x.rs, y.file, y.rs)
  {
    hide ReadMacBinary, ReadFork, IsClassic, MergeCfm, FindCfrg, Members;
  }

  lemma LengthsFit(header: seq<byte>, data: seq<byte>, rsrc: seq<byte>)
    requires WithForks(header, data, rsrc).Some?
    ensures |data| < 0x1_0000_0000 && |rsrc| < 0x1_0000_0000
  {
  }

  lemma {:induction false} MovedAt(ms: seq<Member>, base: nat, n: nat, k: nat)
    requires MovedAll(ms, base, n).Done? && k <= |ms|
    ensures |MovedAll(ms, base, n).value| == |ms|
    ensures k < |ms| ==> Moved(ms[k], base, n) == Done(MovedAll(ms, base, n).value[k])
  {
    hide Moved;
    if ms != [] {
      MovedAt(ms[..|ms| - 1], base, n, if k < |ms| - 1 then k else 0);
    }
  }

  /** The member that input member K has become. */
  lemma MergedAt(ma: seq<Member>, da: seq<byte>, mb: seq<Member>, db: seq<byte>, k: nat)
    requires MergedMembers(ma, da, mb, db).Done? && k <= |ma| + |mb|
    ensures var ms := MergedMembers(ma, da, mb, db).value;
            && |ms| == |ma| + |mb| <= 0xFFFF
            && (k < |ma| ==> Moved(ma[k], 0, |da|) == Done(ms[k]))
            && (|ma| <= k < |ms| ==> Moved(mb[k - |ma|], BaseB(da), |db|) == Done(ms[k]))
  {
    hide Moved, MovedAll;
    MovedAt(ma, 0, |da|, if k < |ma| then k else 0);
    MovedAt(mb, BaseB(da), |db|, if k < |ma| then 0 else k - |ma|);
  }

  /** Moving keeps a member's length and all of it but eight bytes. */
  lemma MergedBytes(ma: seq<Member>, da: seq<byte>, mb: seq<Member>, db: seq<byte>, k: nat)
    requires MergedMembers(ma, da, mb, db).Done? && k < |ma| + |mb|
    ensures var ms, m := MergedMembers(ma, da, mb, db).value, (ma + mb)[k];
            && |ms| == |ma| + |mb| && |ms[k]| == |m| >= 32
            && forall p :: 0 <= p < 24 || 32 <= p < |m| ==> ms[k][p] == m[p]
  {
    hide Moved, MergedMembers;
    MergedAt(ma, da, mb, db, k);
    var m, t := (ma + mb)[k], MergedMembers(ma, da, mb, db).value[k];
    if k < |ma| {
      MovedFields(ma[k], 0, |da|);
    } else {
      MovedFields(mb[k - |ma|], BaseB(da), |db|);
    }
    forall p | 0 <= p < 24 || 32 <= p < |m|
      ensures t[p] == m[p]
    {
      assert p < 24 ==> t[p] == t[..24][p] && m[p] == m[..24][p];
      assert p >= 32 ==> t[p] == t[32..][p - 32] && m[p] == m[32..][p - 32];
    }
  }

  lemma TailStep(ms: seq<Member>, k: nat)
    requires k < |ms|
    ensures Flat<byte>(ms[k..]) == ms[k] + Flat<byte>(ms[k + 1..])
  {
    hide Flat;
    FlatNext<byte>(ms[k..], 0);
    FlatTail<byte>(ms[k..], 1);
    assert ms[k..][1..] == ms[k + 1..] && ms[k..][..0] == [] && ms[k..][..1] == [ms[k]];
    NoStart(ms[k..]);
    assert Flat<byte>(ms[k..]) == Flat<byte>(ms[k..])[..|ms[k]|] + Flat<byte>(ms[k..])[|ms[k]|..];
    FlatPart<byte>(ms[k..], 0);
  }

  /** Members of the same lengths that differ in bytes 24 to 31 only. */
  ghost predicate Alike(ms: seq<Member>, ns: seq<Member>) {
    && |ms| == |ns|
    && (forall k :: 0 <= k < |ms| ==> |ms[k]| == |ns[k]| >= 32)
    && (forall k, p :: 0 <= k < |ms| && (0 <= p < 24 || 32 <= p < |ms[k]|) ==> ms[k][p] == ns[k][p])
  }

  lemma {:induction false} AlikeTails(ms: seq<Member>, ns: seq<Member>, k: nat)
    requires Alike(ms, ns) && k <= |ms|
    ensures |Flat<byte>(ms[k..])| == |Flat<byte>(ns[k..])|
    decreases |ms| - k
  {
    hide Flat;
    if k < |ms| {
      TailStep(ms, k);
      TailStep(ns, k);
      AlikeTails(ms, ns, k + 1);
    } else {
      assert ms[k..] == [] && ns[k..] == [];
    }
  }

  /** Bytes 40 and 41 from a member's start are its own or among the first of the
      next. */
  lemma AlikeSize(ms: seq<Member>, ns: seq<Member>, k: nat, p: nat)
    requires Alike(ms, ns) && k < |ms| && 40 <= p <= 41 && p < |Flat<byte>(ms[k..])|
    ensures p < |Flat<byte>(ns[k..])| && Flat<byte>(ms[k..])[p] == Flat<byte>(ns[k..])[p]
  {
    hide Flat;
    AlikeTails(ms, ns, k);
    TailStep(ms, k);
    TailStep(ns, k);
    if p >= |ms[k]| {
      if k + 1 == |ms| {
        assert ms[k + 1..] == [];
        NothingFlat();
      } else {
        TailStep(ms, k + 1);
        TailStep(ns, k + 1);
      }
    }
  }

  lemma NothingFlat()
    ensures Flat<byte>([]) == []
  {
  }

  lemma AlikeReads(ms: seq<Member>, ns: seq<Member>, k: nat)
    requires Alike(ms, ns) && k < |ms|
    ensures SizeReads(ms, k) <==> SizeReads(ns, k)
  {
    hide Flat, Get16;
    AlikeTails(ms, ns, k);
    var s, t := Flat<byte>(ms[k..]), Flat<byte>(ns[k..]);
    if |s| >= 42 {
      AlikeSize(ms, ns, k, 40);
      AlikeSize(ms, ns, k, 41);
      SameHalf16(s, t);
    }
  }

  lemma SameHalf16(s: seq<byte>, t: seq<byte>)
    requires |s| >= 42 && |t| >= 42 && s[40] == t[40] && s[41] == t[41]
    ensures Get16(s, 40) == Get16(t, 40)
  {
    assert s[40..42] == t[40..42];
  }

  /** The merged 'cfrg' lists both files' members in order, each where its code
      now is, exactly when their sizes, laid end to end before the merge, read as
      their lengths. */
  lemma FragmentsKeptIff(ma: seq<Member>, da: seq<byte>, mb: seq<Member>, db: seq<byte>, cfrg: seq<byte>)
    requires MergedMembers(ma, da, mb, db).Done? && |cfrg| >= 32
    ensures var ms := MergedMembers(ma, da, mb, db).value;
            Members(NewCfrg(cfrg, ms)) == Some(ms) <==> SizesRead(ma + mb, 0)
  {
    hide MergedMembers, Members, SizeReads, Flat;
    var ms := MergedMembers(ma, da, mb, db).value;
    MergedAt(ma, da, mb, db, 0);
    forall k | 0 <= k < |ms|
      ensures |ms[k]| == |(ma + mb)[k]| >= 32
      ensures forall p :: 0 <= p < 24 || 32 <= p < |ms[k]| ==> ms[k][p] == (ma + mb)[k][p]
    {
      MergedBytes(ma, da, mb, db, k);
    }
    forall k | 0 <= k < |ms|
      ensures SizeReads(ms, k) <==> SizeReads(ma + mb, k)
    {
      AlikeReads(ms, ma + mb, k);
    }
    MembersBackIff(cfrg, ms);
  }

  /** Members of 42 bytes or more hold their sizes themselves. */
  lemma SizesReadIff(ms: seq<Member>)
    requires forall m :: m in ms ==> |m| >= 42
    ensures SizesRead(ms, 0) <==>
            forall k :: 0 <= k < |ms| ==>
              if k < |ms| - 1 then Get16(ms[k], 40) == |ms[k]| else Get16(ms[k], 40) >= |ms[k]|
  {
    hide Flat, Get16;
    forall k | 0 <= k < |ms|
      ensures SizeReads(ms, k) <==>
              if k < |ms| - 1 then Get16(ms[k], 40) == |ms[k]| else Get16(ms[k], 40) >= |ms[k]|
    {
      assert ms[k] in ms;
      TailStep(ms, k);
      SameHalf16(Flat<byte>(ms[k..]), ms[k]);
    }
  }

  /** A member of 42 bytes or more that is taken from a 'cfrg' gives its length; the
      last may give more, where the resource ends too soon. */
  lemma {:induction false} TakenSizes(cfrg: seq<byte>, pos: nat, n: nat, k: nat)
    requires TakeMembers(cfrg, pos, n).Some? && k < |TakeMembers(cfrg, pos, n).value|
    requires |TakeMembers(cfrg, pos, n).value[k]| >= 42
    ensures Get16(TakeMembers(cfrg, pos, n).value[k], 40) >= |TakeMembers(cfrg, pos, n).value[k]|
    ensures k < n - 1 ==> Get16(TakeMembers(cfrg, pos, n).value[k], 40) == |TakeMembers(cfrg, pos, n).value[k]|
    decreases n
  {
    hide Get16, TakeMembers;
    if n == 0 {
      TakeNone(cfrg, pos);
    } else {
      TakeOne(cfrg, pos, n);
      var size: nat := Get16(cfrg, pos + 40);
      var rest := TakeMembers(cfrg, pos + size, n - 1);
      if k > 0 {
        assert TakeMembers(cfrg, pos, n).value[k] == rest.value[k - 1];
        TakenSizes(cfrg, pos + size, n - 1, k - 1);
      } else {
        var m := Slice(cfrg, pos, pos + size);
        OwnBytes(cfrg, pos, size);
        if n > 1 {
          TakeOne(cfrg, pos + size, n - 1);
        }
      }
    }
  }

  lemma OwnBytes(cfrg: seq<byte>, pos: nat, size: nat)
    requires pos + 42 <= |cfrg| && size >= 42
    ensures var m := Slice(cfrg, pos, pos + size);
            && 42 <= |m| <= size && Get16(m, 40) == Get16(cfrg, pos + 40)
            && (pos + size <= |cfrg| ==> |m| == size)
  {
    var m := Slice(cfrg, pos, pos + size);
    var end: nat := pos + |m|;
    assert m == cfrg[pos..end];
    SliceOfSlice(cfrg, pos, end, 40, 42);
  }

  /** So two files whose entries have 42 bytes at least keep all their fragments
      exactly when the first one's last entry is whole, or the second has none. */
  lemma FragmentsKeptByFirst(x: seq<byte>, y: seq<byte>, ma: seq<Member>, mb: seq<Member>)
    requires Members(x) == Some(ma) && Members(y) == Some(mb)
    requires forall m :: m in ma + mb ==> |m| >= 42
    ensures SizesRead(ma + mb, 0) <==>
            ma == [] || mb == [] || Get16(ma[|ma| - 1], 40) == |ma[|ma| - 1]|
  {
    hide Get16, TakeMembers, SizesRead;
    assert forall m :: m in ma || m in mb ==> m in ma + mb;
    SizesReadIff(ma + mb);
    TakenCount(x, 32, Get16(x, 30));
    TakenCount(y, 32, Get16(y, 30));
    forall k | 0 <= k < |ma|
      ensures Get16(ma[k], 40) >= |ma[k]| && (k < |ma| - 1 ==> Get16(ma[k], 40) == |ma[k]|)
    {
      assert (ma + mb)[k] == ma[k];
      TakenSizes(x, 32, Get16(x, 30), k);
    }
    forall k | 0 <= k < |mb|
      ensures Get16(mb[k], 40) >= |mb[k]| && (k < |mb| - 1 ==> Get16(mb[k], 40) == |mb[k]|)
    {
      assert (ma + mb)[|ma| + k] == mb[k];
      TakenSizes(y, 32, Get16(y, 30), k);
    }
    forall k | 0 <= k < |ma + mb|
      ensures (ma + mb)[k] == if k < |ma| then ma[k] else mb[k - |ma|]
    {
    }
    if ma != [] {
      assert (ma + mb)[|ma| - 1] == ma[|ma| - 1];
    }
  }

  lemma {:induction false} TakenCount(cfrg: seq<byte>, pos: nat, n: nat)
    ensures TakeMembers(cfrg, pos, n).Some? ==> |TakeMembers(cfrg, pos, n).value| == n
    decreases n
  {
    hide Get16, Slice;
    if n > 0 && pos + 42 <= |cfrg| {
      var size: nat := Get16(cfrg, pos + 40);
      TakenCount(cfrg, pos + size, n - 1);
    }
  }
}
