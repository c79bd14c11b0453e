/** What merge decides, told from the bytes of the two files: which kind of fat
    file it makes, when it makes none and why, and where it puts things
    (provisioning/fat_cfm.py:84-154). */
module FatDecides {
  import opened Bytes
  import opened Layout
  import opened ResourceFork
  import opened FatMerge
  import opened FatMergeProof
  import opened FatResources

  // ------------------------------------------------------------- what a file is

  /** No data fork, some 'CODE', no 'cfrg'. */
  lemma ClassicIff(rs: seq<Resource>, data: seq<byte>)
    ensures IsClassic(rs, data) <==>
            && data == []
            && (exists i :: 0 <= i < |rs| && rs[i].kind == [67, 79, 68, 69])
            && (forall i :: 0 <= i < |rs| ==> rs[i].kind != [99, 102, 114, 103])
  {
    assert forall i :: 0 <= i < |rs| ==> rs[i] in rs;
    if exists r :: r in rs && r.kind == CODE {
      var r :| r in rs && r.kind == CODE;
      var i :| 0 <= i < |rs| && rs[i] == r;
      assert rs[i].kind == [67, 79, 68, 69];
    }
  }

  /** The 'cfrg' 0 that is used is the first there is. */
  lemma FoundIff(rs: seq<Resource>, cfrg: seq<byte>)
    ensures FindCfrg(rs) == Some(cfrg) <==>
            exists i :: 0 <= i < |rs| && FirstCfrg(rs, i) && rs[i].data == cfrg
  {
    if FindCfrg(rs).Some? {
      var i := CfrgAt(rs);
      assert FirstCfrg(rs, i);
    }
    if i :| 0 <= i < |rs| && FirstCfrg(rs, i) && rs[i].data == cfrg {
      FirstIsFound(rs, i);
    }
  }

  predicate FirstCfrg(rs: seq<Resource>, i: nat)
    requires i < |rs|
  {
    && rs[i].kind == [99, 102, 114, 103] && rs[i].id == 0
    && forall j :: 0 <= j < i ==> rs[j].kind != [99, 102, 114, 103] || rs[j].id != 0
  }

  // ---------------------------------------------------------- when there is no merge

  /** The machine a member is for, as far as it has the bytes. */
  function Machine(m: Member): seq<byte> {
    if |m| < 4 then m else m[..4]
  }

  predicate SharesMachine(ma: seq<Member>, mb: seq<Member>) {
    exists i, j :: 0 <= i < |ma| && 0 <= j < |mb| && Machine(ma[i]) == Machine(mb[j])
  }

  /** A member of a data fork of N bytes can be moved to BASE: it is 32 bytes at
      least, its code is in the data fork, and the numbers fit. */
  predicate CanMove(m: Member, base: nat, n: nat) {
    && |m| >= 32 && m[23] == 1 && base + Get32(m, 24) < 0x1_0000_0000
    && (Get32(m, 28) == 0 ==> Get32(m, 24) <= n < Get32(m, 24) + 0x1_0000_0000)
  }

  /** Its code is somewhere else. */
  predicate Elsewhere(m: Member) {
    |m| >= 24 && m[23] != 1
  }

  lemma MovedIff(m: Member, base: nat, n: nat)
    ensures Moved(m, base, n).Done? <==> CanMove(m, base, n)
    ensures Moved(m, base, n) == Failed(NotDataFork) <==> Elsewhere(m)
    ensures Moved(m, base, n) != Failed(SameArchitecture)
  {
    hide Be32, Get32;
  }

  /** The first of MS that cannot be moved has its code elsewhere. */
  predicate StopsElsewhere(ms: seq<Member>, base: nat, n: nat) {
    exists k :: 0 <= k < |ms| && Elsewhere(ms[k]) && forall j :: 0 <= j < k ==> CanMove(ms[j], base, n)
  }

  predicate AllMove(ms: seq<Member>, base: nat, n: nat) {
    forall k :: 0 <= k < |ms| ==> CanMove(ms[k], base, n)
  }

  lemma {:induction false} MovedAllIff(ms: seq<Member>, base: nat, n: nat)
    ensures MovedAll(ms, base, n).Done? <==> AllMove(ms, base, n)
    ensures MovedAll(ms, base, n) == Failed(NotDataFork) <==> StopsElsewhere(ms, base, n)
    ensures MovedAll(ms, base, n) != Failed(SameArchitecture)
  {
    hide Moved, CanMove, Elsewhere;
    if ms != [] {
      var last := |ms| - 1;
      MovedAllIff(ms[..last], base, n);
      MovedIff(ms[last], base, n);
      ElsewhereStays(ms[last], base, n);
      assert AllMove(ms, base, n) <==> AllMove(ms[..last], base, n) && CanMove(ms[last], base, n);
      StopsNext(ms, base, n);
    }
  }

  lemma ElsewhereStays(m: Member, base: nat, n: nat)
    ensures Elsewhere(m) ==> !CanMove(m, base, n)
  {
  }

  lemma StopsNext(ms: seq<Member>, base: nat, n: nat)
    requires ms != []
    ensures var last := |ms| - 1;
            StopsElsewhere(ms, base, n) <==>
            StopsElsewhere(ms[..last], base, n) || (AllMove(ms[..last], base, n) && Elsewhere(ms[last]))
  {
    hide CanMove, Elsewhere;
    var last := |ms| - 1;
    if k :| 0 <= k < |ms| && Elsewhere(ms[k]) && forall j :: 0 <= j < k ==> CanMove(ms[j], base, n) {
      assert k < last ==> ms[..last][k] == ms[k];
    }
    if k :| 0 <= k < last && Elsewhere(ms[..last][k]) && forall j :: 0 <= j < k ==> CanMove(ms[..last][j], base, n) {
      assert ms[k] == ms[..last][k] && forall j :: 0 <= j < k ==> ms[j] == ms[..last][j];
    }
    if AllMove(ms[..last], base, n) {
      assert forall j :: 0 <= j < last ==> ms[j] == ms[..last][j];
    }
  }

  lemma SharesIff(ma: seq<Member>, mb: seq<Member>)
    ensures ShareArchitecture(ma, mb) <==> SharesMachine(ma, mb)
  {
    forall m: Member
      ensures Slice(m, 0, 4) == Machine(m)
    {
    }
  }

  /** The members, the resources and the forks of the merged file fit their fields. */
  predicate Writable(x: Input, y: Input) {
    && |x.cfrg| >= 32 && MergedMembers(x.members, x.file.data, y.members, y.file.data).Done?
    && var rs := WithCfrg(x.rs, MergedCfrg(x, y));
       && Packs(rs) && |Fork(rs)| < 0x1_0000_0000
       && |Joined(x.file.data, y.file.data)| < 0x1_0000_0000
  }

  /** Two files with fragments, neither of the classic kind. They are refused
      exactly if both have one for the same machine; else exactly if a member of
      the first, or failing that of the second, whose code is not in the data
      fork comes before all that cannot be moved for another reason. A file is
      made exactly if none of that is so, every member can be moved, and the
      resources and lengths fit their fields. */
  lemma MergeOutcomes(a: seq<byte>, b: seq<byte>, x: Input, y: Input)
    requires Reads(a, x) && Reads(b, y)
    ensures var (ma, mb, da, db) := (x.members, y.members, x.file.data, y.file.data);
            && (Merge(a, b) == Failed(SameArchitecture) <==> SharesMachine(ma, mb))
            && (Merge(a, b) == Failed(NotDataFork) <==>
                  && !SharesMachine(ma, mb)
                  && (StopsElsewhere(ma, 0, |da|)
                      || (AllMove(ma, 0, |da|) && StopsElsewhere(mb, BaseB(da), |db|))))
            && (Merge(a, b).Done? <==>
                  && !SharesMachine(ma, mb) && AllMove(ma, 0, |da|) && AllMove(mb, BaseB(da), |db|)
                  && |ma| + |mb| <= 65535 && Writable(x, y))
  {
    hide Merge, ReadMacBinary, ReadFork, Members, IsClassic, FindCfrg, Finish, Joined, WithCfrg, NewCfrg, Packs, Fork;
    hide MovedAll, ShareArchitecture, SharesMachine, AllMove, StopsElsewhere, BaseB;
    MergedCfm(a, b, x, y);
    FoundHasOne(x.rs);
    HeaderIsWhole(a);
    MembersHead(x.cfrg);
    SharesIff(x.members, y.members);
    MovedAllIff(x.members, 0, |x.file.data|);
    MovedAllIff(y.members, BaseB(x.file.data), |y.file.data|);
    FinishFails(x, y);
  }

  lemma MembersHead(cfrg: seq<byte>)
    ensures Members(cfrg).Some? ==> |cfrg| >= 32
  {
  }

  lemma FinishFails(x: Input, y: Input)
    requires |x.file.header| == 128
    ensures |x.cfrg| >= 32 && MergedMembers(x.members, x.file.data, y.members, y.file.data).Done? ==>
              var out := Finish(x.file.header, Joined(x.file.data, y.file.data), WithCfrg(x.rs, MergedCfrg(x, y)));
              if Writable(x, y) then out.Done? else out == Failed(Malformed)
  {
    hide Packs, Joined, WithCfrg, MergedMembers, NewCfrg, Fork, Crc, Rounded;
  }

  // ------------------------------------------------------------------ where things go

  /** The second data fork starts at the next multiple of 16, after zeros. */
  lemma JoinedFork(da: seq<byte>, db: seq<byte>)
    ensures |da| <= BaseB(da) < |da| + 16 && BaseB(da) % 16 == 0
    ensures var gap: nat := BaseB(da) - |da|;
            Joined(da, db) == da + Zeros(gap) + db
  {
  }

  /** The new 'cfrg': the first one's head but for the count, then the members. */
  lemma NewCfrgHead(cfrg: seq<byte>, ms: seq<Member>)
    requires |cfrg| >= 32 && |ms| <= 0xFFFF
    ensures var s := NewCfrg(cfrg, ms);
            |s| >= 32 && s[..30] == cfrg[..30] && Get16(s, 30) == |ms| && s[32..] == Flat<byte>(ms)
  {
    hide Be16, Get16, Flat;
    Get16Back(NewCfrg(cfrg, ms), 30, |ms|);
  }

  /** What a classic build takes over: of each resource in turn, it or nothing. */
  lemma {:induction false} MissingJoins(a: seq<Resource>, b: seq<Resource>, c: seq<Resource>)
    ensures Missing(a, b + c) == Missing(a, b) + Missing(a, c)
  {
    hide Has;
    if c == [] {
      assert b + c == b && Missing(a, b) + [] == Missing(a, b);
    } else {
      var n := |c| - 1;
      MissingJoins(a, b, c[..n]);
      assert (b + c)[..|b + c| - 1] == b + c[..n];
      var last := if Has(a, c[n].kind, c[n].id) then [] else [c[n]];
      assert Missing(a, c) == Missing(a, c[..n]) + last;
      assert Missing(a, b + c) == Missing(a, b + c[..n]) + last;
    }
  }

  lemma MissingOne(a: seq<Resource>, r: Resource)
    ensures Missing(a, [r]) ==
            if exists i :: 0 <= i < |a| && a[i].kind == r.kind && a[i].id == r.id then [] else [r]
  {
    HasIff(a, r.kind, r.id);
    assert [r][..0] == [];
    assert Missing(a, []) == [];
  }

  lemma HasIff(rs: seq<Resource>, kind: Kind, id: i16)
    ensures Has(rs, kind, id) <==> exists i :: 0 <= i < |rs| && rs[i].kind == kind && rs[i].id == id
  {
    assert forall i :: 0 <= i < |rs| ==> rs[i] in rs;
  }
}
