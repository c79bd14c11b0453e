/** The resources of a merged file as they are read back, told from the two files
    it was made of (provisioning/fat_cfm.py:31-81, 100-154). */
module FatResources {
  import opened Bytes
  import opened Numbers
  import opened Layout
  import opened Grouping
  import opened ResourceFork
  import opened ForkRoundTrip
  import opened ForkAgain
  import opened FatMerge
  import opened FatMergeProof

  // ------------------------------------------------------------- where data starts

  /** What the resources take up once 'cfrg' 0 has N bytes. */
  function SizesWith(rs: seq<Resource>, n: nat): (sizes: seq<nat>)
    ensures |sizes| == |rs|
    ensures forall i :: 0 <= i < |rs| ==> sizes[i] == 4 + if IsCfrg(rs[i]) then n else |rs[i].data|
  {
    seq(|rs|, i requires 0 <= i < |rs| => 4 + if IsCfrg(rs[i]) then n else |rs[i].data|)
  }

  lemma SizesMerged(rs: seq<Resource>, cfrg: seq<byte>)
    ensures Sizes(WithCfrg(rs, cfrg)) == SizesWith(rs, |cfrg|)
  {
  }

  /** Data starts after all data before it. */
  lemma OffsetIs(rs: seq<Resource>, i: nat)
    requires i < |rs|
    ensures Entries(rs)[i].off == Sum(Sizes(rs)[..i])
  {
    hide Flat, DataPart, Sum;
    FlatSum<byte>(DataParts(rs)[..i], Sizes(rs)[..i]);
  }

  /** Resources of these SIZES all start within 24 bits of the data section: the
      last one does. */
  predicate Within(sizes: seq<nat>) {
    sizes != [] ==> Sum(sizes[..|sizes| - 1]) < 0x100_0000
  }

  lemma WithinIff(rs: seq<Resource>)
    ensures Reaches(rs) <==> Within(Sizes(rs))
  {
    hide Flat, DataPart, Sum, Data, Entries;
    if rs != [] {
      var n := |rs| - 1;
      ReachesIff(rs);
      OffsetIs(rs, n);
      LastStarts(rs);
    }
  }

  lemma LastStarts(rs: seq<Resource>)
    requires rs != []
    ensures Entries(rs)[|rs| - 1].off == |Data(rs)| - |DataPart(rs[|rs| - 1])|
  {
    hide Flat, DataPart;
    FlatNext<byte>(DataParts(rs), |rs| - 1);
    FlatAll<byte>(DataParts(rs));
  }

  /** The names are not touched by what is in 'cfrg' 0. */
  lemma SameNamesClear(rs: seq<Resource>, cfrg: seq<byte>)
    ensures NamesClear(WithCfrg(rs, cfrg)) <==> NamesClear(rs)
  {
    hide Order, Entries, NameAt;
    var more := WithCfrg(rs, cfrg);
    assert Keys(more) == Keys(rs);
    forall k | 0 <= k < |References(rs)|
      ensures References(more)[k].res.name == References(rs)[k].res.name
    {
    }
    SameNameAts(References(more), References(rs));
  }

  lemma SameNameAts(es: seq<Entry>, fs: seq<Entry>)
    requires |es| == |fs| && forall k :: 0 <= k < |es| ==> es[k].res.name == fs[k].res.name
    ensures forall k :: 0 <= k < |es| ==> NameAt(es, k) == NameAt(fs, k)
  {
    hide Start;
    assert NameParts(es) == NameParts(fs);
  }

  // -------------------------------------------------------------------- the 'cfrg'

  /** Which resource is 'cfrg' 0: the first of them. */
  function CfrgAt(rs: seq<Resource>): (i: nat)
    requires FindCfrg(rs).Some?
    ensures i < |rs| && IsCfrg(rs[i]) && FindCfrg(rs) == Some(rs[i].data)
    ensures forall j :: 0 <= j < i ==> !IsCfrg(rs[j])
  {
    if IsCfrg(rs[0]) then 0 else 1 + CfrgAt(rs[1..])
  }

  lemma {:induction false} FirstIsFound(rs: seq<Resource>, i: nat)
    requires i < |rs| && IsCfrg(rs[i]) && forall j :: 0 <= j < i ==> !IsCfrg(rs[j])
    ensures FindCfrg(rs) == Some(rs[i].data)
  {
    if i > 0 {
      FirstIsFound(rs[1..], i - 1);
    }
  }

  /** Where its data starts, from the start of the data section. */
  function CfrgOffset(rs: seq<Resource>): nat
    requires FindCfrg(rs).Some?
  {
    Sum(Sizes(rs)[..CfrgAt(rs)])
  }

  /** What is read at OFF in the data section with no more than 24 bits of it. */
  function DataSeen(fork: seq<byte>, off: nat): seq<byte> {
    var at := DATA_AT + off % 0x100_0000;
    if at + 4 <= |fork| then Slice(fork, at + 4, at + 4 + Get32(fork, at)) else []
  }

  /** Grouping leaves the first 'cfrg' 0 the first. */
  lemma FirstGrouped(rs: seq<Resource>) returns (k: nat)
    requires FindCfrg(rs).Some?
    ensures k < |References(rs)| && References(rs)[k] == Entries(rs)[CfrgAt(rs)]
    ensures forall l :: 0 <= l < k ==> !IsCfrg(References(rs)[l].res)
  {
    hide Order, CfrgAt, IsCfrg, Entries, Before;
    var i, keys := CfrgAt(rs), Keys(rs);
    OrderComplete(keys, i);
    k :| 0 <= k < |Order(keys)| && Order(keys)[k] == i;
    forall l | 0 <= l < k
      ensures !IsCfrg(References(rs)[l].res)
    {
      var j := Order(keys)[l];
      OrderSorted(keys, l, k);
      assert References(rs)[l].res == rs[j];
      if IsCfrg(rs[j]) {
        SameKindBefore(rs, j, i);
      }
    }
  }

  lemma SameKindBefore(rs: seq<Resource>, j: nat, i: nat)
    requires i < |rs| && j < |rs| && IsCfrg(rs[i]) && IsCfrg(rs[j]) && Before(Keys(rs), j, i)
    ensures j < i
  {
    hide First;
  }

  /** What is found as 'cfrg' 0 in a fork once written: its own data if that starts
      within 24 bits, and otherwise what is where the lower 24 lead. */
  lemma CfrgBack(rs: seq<Resource>)
    requires Packs(rs) && FindCfrg(rs).Some?
    ensures ReadFork(Fork(rs)).Some?
    ensures FindCfrg(ReadFork(Fork(rs)).value) ==
            if CfrgOffset(rs) < 0x100_0000 then FindCfrg(rs) else Some(DataSeen(Fork(rs), CfrgOffset(rs)))
  {
    hide Packs, Fork, ReadFork, References, Entries, CfrgAt, Sum, DataSeen, IsCfrg, Seen, Sizes;
    ReadsBack(rs);
    var k := FirstGrouped(rs);
    OffsetIs(rs, CfrgAt(rs));
    KindsSeen(rs);
    FirstIsFound(SeenAll(rs), k);
    EntryIs(rs, CfrgAt(rs));
    DataOfSeen(rs, k);
  }

  lemma DataOfSeen(rs: seq<Resource>, k: nat)
    requires k < |References(rs)| && Packs(rs)
    ensures var e := References(rs)[k];
            Seen(rs, k).data == if e.off < 0x100_0000 then e.res.data else DataSeen(Fork(rs), e.off)
  {
    hide Packs, Fork, References, Slice, Get32, Word, NameAt;
    var e := References(rs)[k];
    DataWithin(rs, k);
    WordBackIff(e);
    if e.off < 0x100_0000 {
      SeenWithin(rs, k);
    }
  }

  lemma EntryIs(rs: seq<Resource>, i: nat)
    requires i < |rs|
    ensures Entries(rs)[i].res == rs[i]
  {
  }

  lemma KindsSeen(rs: seq<Resource>)
    ensures forall k :: 0 <= k < |References(rs)| ==> (IsCfrg(SeenAll(rs)[k]) <==> IsCfrg(References(rs)[k].res))
  {
    hide Fork, References, Slice, Get32, Word, NameAt;
  }

  // -------------------------------------------------------------- 'cfrg' 0 replaced

  lemma {:induction false} WithCfrgAt(rs: seq<Resource>, cfrg: seq<byte>)
    requires FindCfrg(rs).Some?
    ensures FindCfrg(WithCfrg(rs, cfrg)) == Some(cfrg)
    ensures CfrgAt(WithCfrg(rs, cfrg)) == CfrgAt(rs)
  {
    if !IsCfrg(rs[0]) {
      assert WithCfrg(rs, cfrg)[1..] == WithCfrg(rs[1..], cfrg);
      WithCfrgAt(rs[1..], cfrg);
    }
  }

  /** It starts where it did: nothing before it has changed. */
  lemma SameCfrgOffset(rs: seq<Resource>, cfrg: seq<byte>)
    requires FindCfrg(rs).Some?
    ensures FindCfrg(WithCfrg(rs, cfrg)).Some? && CfrgOffset(WithCfrg(rs, cfrg)) == CfrgOffset(rs)
  {
    hide Sum;
    WithCfrgAt(rs, cfrg);
    var i := CfrgAt(rs);
    assert Sizes(WithCfrg(rs, cfrg))[..i] == Sizes(rs)[..i];
  }

  /** An offset past 24 bits shows among the attributes, wherever SIZES have one. */
  predicate ShowAll(rs: seq<Resource>, sizes: seq<nat>)
    requires |sizes| == |rs|
  {
    forall i :: 0 <= i < |rs| ==> Shows(Entry(rs[i], Sum(sizes[..i])))
  }

  lemma ShowsReferences(rs: seq<Resource>)
    requires ShowAll(rs, Sizes(rs))
    ensures forall k :: 0 <= k < |References(rs)| ==> Shows(References(rs)[k])
  {
    hide Order, Shows, Sum, Sizes;
    forall k | 0 <= k < |References(rs)|
      ensures Shows(References(rs)[k])
    {
      var i := Order(Keys(rs))[k];
      OffsetIs(rs, i);
      assert References(rs)[k] == Entry(rs[i], Sum(Sizes(rs)[..i]));
    }
  }

  /** RS, with another 'cfrg' 0 put in, are written and read back by type if the names
      are clear and all data starts within 24 bits at its new length, and, where
      offsets past them show, only if. */
  lemma OthersIff(rs: seq<Resource>, cfrg: seq<byte>)
    requires Packs(WithCfrg(rs, cfrg))
    ensures Within(SizesWith(rs, |cfrg|)) ==>
              (ReadFork(Fork(WithCfrg(rs, cfrg))) == Some(WithCfrg(ByType(rs), cfrg)) <==> NamesClear(rs))
    ensures ShowAll(rs, SizesWith(rs, |cfrg|)) ==>
              (ReadFork(Fork(WithCfrg(rs, cfrg))) == Some(WithCfrg(ByType(rs), cfrg)) <==>
               Within(SizesWith(rs, |cfrg|)) && NamesClear(rs))
  {
    hide Packs, Fork, ReadFork, References, NamesClear, Reaches, Within, Shows, ByType;
    var merged := WithCfrg(rs, cfrg);
    SizesMerged(rs, cfrg);
    WithinIff(merged);
    SameNamesClear(rs, cfrg);
    WithCfrgByType(rs, cfrg);
    if Within(Sizes(merged)) {
      RoundTripIffNamesClear(merged);
    }
    if ShowAll(rs, Sizes(merged)) {
      SameShows(rs, cfrg);
      ShowsReferences(merged);
      RoundTripIff(merged);
    }
  }

  lemma SameShows(rs: seq<Resource>, cfrg: seq<byte>)
    requires ShowAll(rs, Sizes(WithCfrg(rs, cfrg)))
    ensures ShowAll(WithCfrg(rs, cfrg), Sizes(WithCfrg(rs, cfrg)))
  {
    hide Sum, Sizes, Or;
    var sizes := Sizes(WithCfrg(rs, cfrg));
    forall i | 0 <= i < |rs|
      ensures Shows(Entry(WithCfrg(rs, cfrg)[i], Sum(sizes[..i])))
    {
      assert Shows(Entry(rs[i], Sum(sizes[..i])));
    }
  }

  // -------------------------------------------------------------- the merged file

  /** How long the merged 'cfrg' is: a head, and every member as long as it was. */
  function CfrgSize(x: Input, y: Input): nat {
    32 + |Flat<byte>(x.members + y.members)|
  }

  lemma CfrgSizeIs(x: Input, y: Input)
    requires MergedMembers(x.members, x.file.data, y.members, y.file.data).Done? && |x.cfrg| >= 32
    ensures |NewCfrg(x.cfrg, MergedMembers(x.members, x.file.data, y.members, y.file.data).value)| == CfrgSize(x, y)
  {
    hide MergedMembers, Flat;
    var ma, mb, da, db := x.members, y.members, x.file.data, y.file.data;
    var ms := MergedMembers(ma, da, mb, db).value;
    MergedAt(ma, da, mb, db, 0);
    forall k | 0 <= k < |ms|
      ensures |ms[k]| == |(ma + mb)[k]| >= 32
      ensures forall p :: 0 <= p < 24 || 32 <= p < |ms[k]| ==> ms[k][p] == (ma + mb)[k][p]
    {
      MergedBytes(ma, da, mb, db, k);
    }
    AlikeTails(ms, ma + mb, 0);
    assert ms[0..] == ms && (ma + mb)[0..] == ma + mb;
  }

  /** The 'cfrg' of the merged file. */
  function MergedCfrg(x: Input, y: Input): seq<byte>
    requires |x.cfrg| >= 32 && MergedMembers(x.members, x.file.data, y.members, y.file.data).Done?
  {
    NewCfrg(x.cfrg, MergedMembers(x.members, x.file.data, y.members, y.file.data).value)
  }

  lemma MergeHasMembers(a: seq<byte>, b: seq<byte>, x: Input, y: Input, out: seq<byte>)
    requires Reads(a, x) && Reads(b, y) && Merge(a, b) == Done(out)
    ensures |x.cfrg| >= 32 && MergedMembers(x.members, x.file.data, y.members, y.file.data).Done?
    ensures Finish(x.file.header, Joined(x.file.data, y.file.data), WithCfrg(x.rs, MergedCfrg(x, y))) == Done(out)
  {
    hide Merge, ReadMacBinary, ReadFork, IsClassic, TakeMembers, ShareArchitecture, MergedMembers, Finish, FindCfrg;
    MergedCfm(a, b, x, y);
  }

  /** The merged file reads as the two data forks end to end, under the first one's
      header, with a fork written of its resources and the new 'cfrg' 0. */
  lemma MergedFile(a: seq<byte>, b: seq<byte>, x: Input, y: Input, out: seq<byte>)
    requires Reads(a, x) && Reads(b, y) && Merge(a, b) == Done(out)
    ensures |x.cfrg| >= 32 && MergedMembers(x.members, x.file.data, y.members, y.file.data).Done?
    ensures |x.file.header| == 128 && |MergedCfrg(x, y)| == CfrgSize(x, y)
    ensures var merged, data := WithCfrg(x.rs, MergedCfrg(x, y)), Joined(x.file.data, y.file.data);
            && Packs(merged)
            && ReadMacBinary(out) == Some(MacBinary(Stamped(x.file.header, data, Fork(merged)), data, Fork(merged)))
  {
    hide Merge, ReadMacBinary, ReadFork, IsClassic, TakeMembers, MergedMembers, Packs, Fork, FindCfrg;
    hide WithForks, NewCfrg, Stamped, Joined, Flat;
    MergeHasMembers(a, b, x, y, out);
    CfrgSizeIs(x, y);
    FoundHasOne(x.rs);
    HeaderIsWhole(a);
    FinishReads(x.file.header, Joined(x.file.data, y.file.data), WithCfrg(x.rs, MergedCfrg(x, y)), out);
  }

  lemma FoundHasOne(rs: seq<Resource>)
    ensures FindCfrg(rs).Some? ==> rs != []
  {
  }

  lemma FinishReads(header: seq<byte>, data: seq<byte>, rs: seq<Resource>, out: seq<byte>)
    requires |header| == 128 && Finish(header, data, rs) == Done(out)
    ensures Packs(rs)
    ensures ReadMacBinary(out) == Some(MacBinary(Stamped(header, data, Fork(rs)), data, Fork(rs)))
  {
    hide Packs, Fork, WithForks, ReadMacBinary, Stamped;
    LengthsFit(header, data, Fork(rs));
    ForksBack(header, data, Fork(rs));
  }

  /** What is read of the merged file: its new 'cfrg', whenever that of the first
      file starts within 24 bits of the resources it lists; all its other
      resources, by type and as they were, if their names are clear and they
      start within 24 bits at the new length, and only if where offsets past
      them show. */
  lemma MergedResources(a: seq<byte>, b: seq<byte>, x: Input, y: Input, out: seq<byte>)
    requires Reads(a, x) && Reads(b, y) && Merge(a, b) == Done(out)
    ensures |x.cfrg| >= 32 && MergedMembers(x.members, x.file.data, y.members, y.file.data).Done?
    ensures ReadMacBinary(out).Some? && ReadFork(ReadMacBinary(out).value.rsrc).Some?
    ensures var fork := ReadMacBinary(out).value.rsrc;
            FindCfrg(ReadFork(fork).value) ==
            Some(if CfrgOffset(x.rs) < 0x100_0000 then MergedCfrg(x, y) else DataSeen(fork, CfrgOffset(x.rs)))
    ensures var rs, sizes := ReadFork(ReadMacBinary(out).value.rsrc).value, SizesWith(x.rs, CfrgSize(x, y));
            && (Within(sizes) ==> (rs == WithCfrg(ByType(x.rs), MergedCfrg(x, y)) <==> NamesClear(x.rs)))
            && (ShowAll(x.rs, sizes) ==>
                  (rs == WithCfrg(ByType(x.rs), MergedCfrg(x, y)) <==> Within(sizes) && NamesClear(x.rs)))
  {
    hide Merge, ReadMacBinary, ReadFork, IsClassic, TakeMembers, MergedMembers, Packs, Fork, FindCfrg, CfrgOffset;
    hide Stamped, Joined, Within, ShowAll, NamesClear, ByType, DataSeen, CfrgSize, Members, MergedCfrg, SizesWith;
    MergedFile(a, b, x, y, out);
    var cfrg := MergedCfrg(x, y);
    SameCfrgOffset(x.rs, cfrg);
    WithCfrgAt(x.rs, cfrg);
    CfrgBack(WithCfrg(x.rs, cfrg));
    OthersIff(x.rs, cfrg);
  }

  // --------------------------------------------------------------- classic and CFM

  lemma {:induction false} MissingMeans(a: seq<Resource>, b: seq<Resource>, r: Resource)
    ensures r in Missing(a, b) <==> r in b && !Has(a, r.kind, r.id)
  {
    if b != [] {
      var n := |b| - 1;
      MissingMeans(a, b[..n], r);
      assert b == b[..n] + [b[n]];
    }
  }

  lemma ByTypeOnly(rs: seq<Resource>, r: Resource)
    ensures r in ByType(rs) <==> r in rs
  {
    hide Order;
    if r in rs {
      var i :| 0 <= i < |rs| && rs[i] == r;
      ByTypeHas(rs, i);
    }
    if r in ByType(rs) {
      var k :| 0 <= k < |ByType(rs)| && ByType(rs)[k] == r;
      assert rs[Order(Keys(rs))[k]] == r;
    }
  }

  /** A file and what its resource fork lists. */
  datatype Build = Build(file: MacBinary, rs: seq<Resource>)

  predicate ReadsBuild(blob: seq<byte>, x: Build) {
    ReadMacBinary(blob) == Some(x.file) && ReadFork(x.file.rsrc) == Some(x.rs)
  }

  predicate Classic(x: Build) {
    IsClassic(x.rs, x.file.data)
  }

  /** The classic one of two files, the first if both are, and the other. */
  function Sides(x: Build, y: Build): (Build, Build)
    requires Classic(x) || Classic(y)
  {
    if Classic(x) then (x, y) else (y, x)
  }

  /** A classic 68k build merged with a PowerPC one, given in either order: the
      classic one's header and resources, those of the other it has none of, and
      the other's data fork. The resources are read back by type if the names
      are clear and all data starts within 24 bits, and only if where offsets
      past them show. */
  lemma ClassicMerge(a: seq<byte>, b: seq<byte>, x: Build, y: Build, out: seq<byte>, r: Resource)
    requires ReadsBuild(a, x) && ReadsBuild(b, y) && (Classic(x) || Classic(y)) && Merge(a, b) == Done(out)
    ensures var (c, d) := Sides(x, y);
            var all := c.rs + Missing(c.rs, d.rs);
            && |c.file.header| == 128
            && ReadMacBinary(out) ==
               Some(MacBinary(Stamped(c.file.header, d.file.data, Fork(all)), d.file.data, Fork(all)))
            && (Within(Sizes(all)) ==> (ReadFork(Fork(all)) == Some(ByType(all)) <==> NamesClear(all)))
            && (ShowAll(all, Sizes(all)) ==>
                  (ReadFork(Fork(all)) == Some(ByType(all)) <==> Within(Sizes(all)) && NamesClear(all)))
            && (r in ByType(all) <==> r in c.rs || (r in d.rs && !Has(c.rs, r.kind, r.id)))
  {
    hide ReadMacBinary, ReadFork, Packs, Fork, NamesClear, Stamped, ByType, Missing, Has, Within, ShowAll, Finish;
    hide Reaches, Shows, References;
    var (c, d) := Sides(x, y);
    var all := c.rs + Missing(c.rs, d.rs);
    MergedClassic(a, b, x, y);
    HeaderIsWhole(if Classic(x) then a else b);
    FinishReads(c.file.header, d.file.data, all, out);
    WithinIff(all);
    if Within(Sizes(all)) {
      RoundTripIffNamesClear(all);
    }
    if ShowAll(all, Sizes(all)) {
      ShowsReferences(all);
      RoundTripIff(all);
    }
    ByTypeOnly(all, r);
    MissingMeans(c.rs, d.rs, r);
  }

  lemma MergedClassic(a: seq<byte>, b: seq<byte>, x: Build, y: Build)
    requires ReadsBuild(a, x) && ReadsBuild(b, y) && (Classic(x) || Classic(y))
    ensures var (c, d) := Sides(x, y);
            Merge(a, b) == Finish(c.file.header, d.file.data, c.rs + Missing(c.rs, d.rs)) && c.rs != []
  {
    hide ReadMacBinary, ReadFork, Finish, Missing, MergeCfm;
  }
}
