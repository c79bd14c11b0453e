/** Pairs of whole files that merge accepts, and what of them it does not keep
    (provisioning/fat_cfm.py:84-154). */
module FatExamples {
  import opened Bytes
  import opened Numbers
  import opened Layout
  import opened Grouping
  import opened ResourceFork
  import opened ForkRoundTrip
  import opened ForkAgain
  import opened FatMerge
  import opened FatMergeProof
  import opened FatResources

  // ------------------------------------------------------------------ whole files

  const M68K: Kind := [109, 54, 56, 107]
  const PWPC: Kind := [112, 119, 112, 99]

  /** A member of 42 bytes that gives its size as OWN, with its code at OFFSET. */
  function Plain(arch: Kind, own: u16, offset: u32, length: u32): (m: Member)
    ensures |m| == 42 && Get16(m, 40) == own && m[..4] == arch
    ensures m[23] == 1 && Offset(m) == offset && Length(m) == length
  {
    PlainFields(arch, own, offset, length);
    arch + Zeros(19) + [1] + Be32(offset) + Be32(length) + Zeros(8) + Be16(own)
  }

  lemma PlainFields(arch: Kind, own: u16, offset: u32, length: u32)
    ensures var m := arch + Zeros(19) + [1] + Be32(offset) + Be32(length) + Zeros(8) + Be16(own);
            && |m| == 42 && m[..4] == arch && m[23] == 1
            && Get16(m, 40) == own && Get32(m, 24) == offset && Get32(m, 28) == length
  {
    hide Be16, Be32, Get16, Get32;
    var m := arch + Zeros(19) + [1] + Be32(offset) + Be32(length) + Zeros(8) + Be16(own);
    assert m[40..42] == Be16(own) && m[24..28] == Be32(offset) && m[28..32] == Be32(length);
    Get16Back(m, 40, own);
    Get32Back(m, 24, offset);
    Get32Back(m, 28, length);
  }

  function Cfrg(m: Member): seq<byte> {
    NewCfrg(Zeros(32), [m])
  }

  function CfrgResource(m: Member): Resource {
    Resource(CFRG, 0, 0, None, Cfrg(m))
  }

  function Plainly(kind: Kind, id: i16, n: nat): Resource {
    Resource(kind, id, 0, None, Zeros(n))
  }

  /** A MacBinary file of these forks. */
  function Blob(data: seq<byte>, rs: seq<Resource>): seq<byte> {
    var out := WithForks(Zeros(128), data, Fork(rs));
    if out.Some? then out.value else []
  }

  function FileOf(data: seq<byte>, rs: seq<Resource>): MacBinary {
    MacBinary(Stamped(Zeros(128), data, Fork(rs)), data, Fork(rs))
  }

  /** A few resources without names or attributes, 32 MB at most. */
  predicate Few(rs: seq<Resource>) {
    && 0 < |rs| <= 100 && Sum(Sizes(rs)) < 0x200_0000
    && (forall i :: 0 <= i < |rs| ==> rs[i].name.None? && rs[i].attrs == 0)
  }

  lemma {:induction false} KindsFew<K(!new)>(keys: seq<K>)
    ensures |Kinds(keys)| <= |keys|
  {
    if keys != [] {
      KindsFew(keys[..|keys| - 1]);
    }
  }

  lemma FewPack(rs: seq<Resource>)
    requires Few(rs)
    ensures Packs(rs) && NamesClear(rs) && |Fork(rs)| < 0x1_0000_0000
  {
    hide Order, Kinds, Flat, MapBody, DataPart, Sum, NameAt;
    KindsFew(Keys(rs));
    AsMany(rs);
    Wide(rs, 0, 0);
    NoNames(References(rs));
    FlatSum<byte>(DataParts(rs), Sizes(rs));
  }

  lemma BlobReads(data: seq<byte>, rs: seq<Resource>)
    requires Few(rs) && Within(Sizes(rs)) && |data| < 0x1_0000_0000
    ensures ReadMacBinary(Blob(data, rs)) == Some(FileOf(data, rs)) && ReadFork(Fork(rs)) == Some(ByType(rs))
  {
    hide Packs, NamesClear, ReadFork, ReadMacBinary, Fork, Reaches, Within, Stamped, WithForks, ByType;
    FewPack(rs);
    WithinIff(rs);
    RoundTripIffNamesClear(rs);
    ForksBack(Zeros(128), data, Fork(rs));
  }

  lemma FewByType(rs: seq<Resource>)
    requires Few(rs)
    ensures Few(ByType(rs))
  {
    hide Order, Sum;
    AsMany(rs);
    SameSum(rs);
  }

  // ------------------------------------------------------------- merged with another

  /** The other file: one PowerPC fragment of one byte. */
  function Other(): Member {
    Plain(PWPC, 42, 0, 1)
  }

  function Listed(m: Member, data: seq<byte>, rs: seq<Resource>): Input {
    Input(FileOf(data, rs), ByType(rs), Cfrg(m), [m])
  }

  lemma CfrgLists(m: Member)
    requires |m| == 42 && Get16(m, 40) >= 42
    ensures |Cfrg(m)| == 74 && Members(Cfrg(m)) == Some([m])
  {
    hide TakeMembers, Get16, SizesRead, Flat;
    SizesReadIff([m]);
    MembersBackIff(Zeros(32), [m]);
    TailStep([m], 0);
    assert [m][1..] == [] && [m][0..] == [m];
    NothingFlat();
  }

  lemma ListedReads(m: Member, data: seq<byte>, rs: seq<Resource>)
    requires |m| == 42 && Get16(m, 40) >= 42 && 0 < |data| <= 100 && Few(rs) && Within(Sizes(rs))
    requires FindCfrg(ByType(rs)) == Some(Cfrg(m))
    ensures Reads(Blob(data, rs), Listed(m, data, rs))
  {
    hide ReadMacBinary, ReadFork, Fork, Within, Stamped, ByType, Few, FindCfrg, Cfrg, Members;
    BlobReads(data, rs);
    CfrgLists(m);
  }

  lemma OneByType(r: Resource)
    ensures ByType([r]) == [r]
  {
    hide Order, Kinds;
    OneKind(Keys([r]));
  }

  lemma OneIsFew(r: Resource)
    requires |r.data| <= 100 && r.name.None? && r.attrs == 0
    ensures Few([r]) && Within(Sizes([r])) && Sum(Sizes([r])) == 4 + |r.data|
  {
    assert Sizes([r]) == [4 + |r.data|] && Sizes([r])[..0] == [];
  }

  lemma AloneReads(m: Member, data: seq<byte>)
    requires |m| == 42 && Get16(m, 40) >= 42 && 0 < |data| <= 100
    ensures Few([CfrgResource(m)]) && Within(Sizes([CfrgResource(m)]))
    ensures FindCfrg(ByType([CfrgResource(m)])) == Some(Cfrg(m))
    ensures Reads(Blob(data, [CfrgResource(m)]), Listed(m, data, [CfrgResource(m)]))
  {
    hide ReadMacBinary, ReadFork, Fork, Cfrg, Reads, ByType;
    var r := CfrgResource(m);
    CfrgLists(m);
    OneByType(r);
    OneIsFew(r);
    assert FindCfrg([r]) == Some(r.data);
    ListedReads(m, data, [r]);
  }

  lemma OnceMore(k: nat, n: nat)
    ensures (k + 1) * n == k * n + n
  {
  }

  lemma SizesLast(rs: seq<Resource>, n: nat)
    requires rs != []
    ensures var k := |rs| - 1;
            && SizesWith(rs, n)[..k] == SizesWith(rs[..k], n) && Sizes(rs)[..k] == Sizes(rs[..k])
            && SizesWith(rs, n)[k] <= Sizes(rs)[k] + n
  {
    hide IsCfrg;
  }

  lemma {:induction false} SizesGrow(rs: seq<Resource>, n: nat)
    ensures Sum(SizesWith(rs, n)) <= Sum(Sizes(rs)) + |rs| * n
  {
    if rs == [] {
      assert SizesWith(rs, n) == [] && Sizes(rs) == [];
    } else {
      var k := |rs| - 1;
      SizesGrow(rs[..k], n);
      SizesLast(rs, n);
      OnceMore(k, n);
    }
  }

  /** A file with this one's fragment M in it, merged with the other. */
  function X(m: Member, rs: seq<Resource>): Input {
    Listed(m, [7], rs)
  }

  function Y(): Input {
    Listed(Other(), [9], [CfrgResource(Other())])
  }

  function Merged(m: Member, rs: seq<Resource>): Outcome<seq<byte>> {
    Merge(Blob([7], rs), Blob([9], [CfrgResource(Other())]))
  }

  predicate Fragment(m: Member) {
    |m| == 42 && m[..4] == M68K && m[23] == 1 && Get16(m, 40) >= 42 && Offset(m) <= 1
  }

  lemma FragmentsMove(m: Member)
    requires Fragment(m)
    ensures MergedMembers([m], [7], [Other()], [9]) ==
            Done([Moved(m, 0, 1).value, Moved(Other(), 16, 1).value])
    ensures Moved(m, 0, 1).Done? && Moved(Other(), 16, 1).Done?
    ensures !ShareArchitecture([m], [Other()])
  {
    hide Plain, Get32, Be32;
    CanMove(m, 0);
    CanMove(Other(), 16);
    OneMoved(m, 0, 1);
    OneMoved(Other(), 16, 1);
    assert BaseB([7]) == 16;
    var first, second := Moved(m, 0, 1).value, Moved(Other(), 16, 1).value;
    assert [first] + [second] == [first, second];
    assert Slice(m, 0, 4)[0] != Slice(Other(), 0, 4)[0];
  }

  lemma CanMove(m: Member, base: nat)
    requires |m| == 42 && m[23] == 1 && Offset(m) <= 1 && base <= 16
    ensures Moved(m, base, 1).Done?
  {
    hide Get32;
  }

  lemma OneMoved(m: Member, base: nat, n: nat)
    requires Moved(m, base, n).Done?
    ensures MovedAll([m], base, n) == Done([Moved(m, base, n).value])
  {
    hide Moved;
    var one := [m];
    assert one[..0] == [] && MovedAll(one[..0], base, n) == Done([]);
    assert one[0] == m && [] + [Moved(m, base, n).value] == [Moved(m, base, n).value];
  }

  /** Merge takes them. */
  lemma Merges(m: Member, rs: seq<Resource>)
    requires Fragment(m) && Few(rs) && Within(Sizes(rs)) && Sum(Sizes(rs)) < 0x180_0000
    requires FindCfrg(ByType(rs)) == Some(Cfrg(m))
    ensures Reads(Blob([7], rs), X(m, rs)) && Reads(Blob([9], [CfrgResource(Other())]), Y())
    ensures Merged(m, rs).Done? && CfrgSize(X(m, rs), Y()) == 116
  {
    hide ReadMacBinary, ReadFork, Fork, Within, Stamped, ByType, Few, Cfrg, Members, Moved, Plain, FindCfrg, Get16;
    hide Reads, Merge, Get32, SizesWith, Sum, Finish;
    var x, y := X(m, rs), Y();
    ListedReads(m, [7], rs);
    AloneReads(Other(), [9]);
    FragmentsMove(m);
    CfrgLists(m);
    CfrgLists(Other());
    CfrgSizeIs(x, y);
    TwoMembers(m, Other());
    MergesTo(Blob([7], rs), Blob([9], [CfrgResource(Other())]), x, y);
    MergedIsFew(rs, MergedCfrg(x, y));
    Finishes(x.file.header, Joined([7], [9]), WithCfrg(x.rs, MergedCfrg(x, y)));
  }

  lemma TwoMembers(m: Member, n: Member)
    requires |m| == |n| == 42
    ensures |Flat<byte>([m] + [n])| == 84
  {
    assert [m] + [n] == [m, n];
    TwoParts<byte>(m, n);
  }

  lemma MergesTo(a: seq<byte>, b: seq<byte>, x: Input, y: Input)
    requires Reads(a, x) && Reads(b, y) && |x.cfrg| >= 32 && !ShareArchitecture(x.members, y.members)
    requires MergedMembers(x.members, x.file.data, y.members, y.file.data).Done?
    ensures Merge(a, b) ==
            Finish(x.file.header, Joined(x.file.data, y.file.data), WithCfrg(x.rs, MergedCfrg(x, y)))
  {
    hide ReadMacBinary, ReadFork, IsClassic, FindCfrg, Members, ShareArchitecture, MergedMembers, Finish, NewCfrg;
    hide Merge;
    MergedCfm(a, b, x, y);
  }

  lemma MergedIsFew(rs: seq<Resource>, cfrg: seq<byte>)
    requires Few(rs) && Sum(Sizes(rs)) < 0x180_0000 && |cfrg| == 116
    ensures Few(WithCfrg(ByType(rs), cfrg))
  {
    hide Sum, ByType;
    FewByType(rs);
    SameSum(rs);
    SizesGrow(ByType(rs), 116);
    SizesMerged(ByType(rs), cfrg);
  }

  lemma SameSum(rs: seq<Resource>)
    ensures Sum(Sizes(ByType(rs))) == Sum(Sizes(rs))
  {
    hide Order, Sum, DataPart, Flat;
    SameData(rs);
    FlatSum<byte>(DataParts(rs), Sizes(rs));
    FlatSum<byte>(DataParts(ByType(rs)), Sizes(ByType(rs)));
  }

  lemma Finishes(header: seq<byte>, data: seq<byte>, rs: seq<Resource>)
    requires |header| == 128 && |data| < 0x1_0000_0000 && Few(rs)
    ensures Finish(header, data, rs).Done?
  {
    hide Packs, Fork, WithForks, Few;
    FewPack(rs);
    ForksBack(header, data, Fork(rs));
  }

  /** The two fragments as the merged file lists them, and its 'cfrg'. */
  function Both(m: Member): (ms: seq<Member>)
    requires Fragment(m)
    ensures |ms| == 2 && |ms[0]| == |ms[1]| == 42
  {
    FragmentsMove(m);
    MovedSize(m);
    MergedMembers([m], [7], [Other()], [9]).value
  }

  function BothCfrg(m: Member): seq<byte>
    requires Fragment(m)
  {
    NewCfrg(Cfrg(m), Both(m))
  }

  lemma BothIs(m: Member, rs: seq<Resource>)
    requires Fragment(m)
    ensures MergedMembers([m], [7], [Other()], [9]) == Done(Both(m)) && |X(m, rs).cfrg| >= 32
    ensures MergedCfrg(X(m, rs), Y()) == BothCfrg(m)
  {
    hide ReadMacBinary, ReadFork, Fork, ByType, Stamped, Plain, Get32, Get16, Moved, Flat;
    FragmentsMove(m);
  }

  /** What is found in the merged file. */
  predicate Finds(out: seq<byte>, data: seq<byte>, cfrg: seq<byte>) {
    var file := ReadMacBinary(out);
    && file.Some? && file.value.data == data
    && var rs := ReadFork(file.value.rsrc); rs.Some? && FindCfrg(rs.value) == Some(cfrg)
  }

  lemma MergedFinds(m: Member, rs: seq<Resource>)
    requires Fragment(m) && Few(rs) && Within(Sizes(rs)) && Sum(Sizes(rs)) < 0x180_0000
    requires FindCfrg(ByType(rs)) == Some(Cfrg(m))
    ensures Merged(m, rs).Done?
    ensures CfrgOffset(ByType(rs)) < 0x100_0000 ==> Finds(Merged(m, rs).value, Joined([7], [9]), BothCfrg(m))
  {
    hide ReadMacBinary, ReadFork, Fork, Within, Stamped, ByType, Few, Cfrg, Members, Moved, Plain, FindCfrg, Get16;
    hide Reads, Merge, Get32, SizesWith, Sum, ShowAll, NamesClear, CfrgOffset, DataSeen, Joined;
    Merges(m, rs);
    BothIs(m, rs);
    MergedFile(Blob([7], rs), Blob([9], [CfrgResource(Other())]), X(m, rs), Y(), Merged(m, rs).value);
    MergedResources(Blob([7], rs), Blob([9], [CfrgResource(Other())]), X(m, rs), Y(), Merged(m, rs).value);
  }

  lemma AloneFinds(m: Member)
    requires Fragment(m)
    ensures Reads(Blob([7], [CfrgResource(m)]), X(m, [CfrgResource(m)]))
    ensures Merged(m, [CfrgResource(m)]).Done?
    ensures Finds(Merged(m, [CfrgResource(m)]).value, Joined([7], [9]), BothCfrg(m))
  {
    hide ReadMacBinary, ReadFork, Fork, Stamped, ByType, Cfrg, Members, Moved, Plain, FindCfrg, Get16, Reads, Finds;
    hide Merge, Get32, Joined, Few, Within;
    AloneReads(m, [7]);
    CfrgLists(m);
    OneByType(CfrgResource(m));
    OneIsFew(CfrgResource(m));
    OneStarts(CfrgResource(m));
    MergedFinds(m, [CfrgResource(m)]);
  }

  lemma OneStarts(r: Resource)
    requires IsCfrg(r)
    ensures FindCfrg([r]).Some? && CfrgOffset([r]) == 0
  {
    assert Sizes([r])[..0] == [];
  }

  // ------------------------------------------------------------- fragments not kept

  /** A fragment of the first file that is empty, at its end: merged, it selects what
      follows. */
  lemma EmptyAtEndGrows()
    ensures var m := Plain(M68K, 42, 1, 0);
            && Reads(Blob([7], [CfrgResource(m)]), X(m, [CfrgResource(m)])) && Selected([7], m) == []
            && Merged(m, [CfrgResource(m)]).Done?
            && Finds(Merged(m, [CfrgResource(m)]).value, Joined([7], [9]), BothCfrg(m))
            && Members(BothCfrg(m)) == Some(Both(m)) && Selected(Joined([7], [9]), Both(m)[0]) != []
  {
    hide Plain, Cfrg, Finds, Merge, Reads, Members, Get32, Get16, SizesRead, ByType, Joined, Moved, NewCfrg, Both;
    var m := Plain(M68K, 42, 1, 0);
    AloneFinds(m);
    FragmentsMove(m);
    BothIs(m, [CfrgResource(m)]);
    BothRead(m);
    CfrgLists(m);
    FragmentsKeptIff([m], [7], [Other()], [9], Cfrg(m));
    GrowsInto(m);
  }

  lemma GrowsInto(m: Member)
    requires |m| == 42 && m[23] == 1 && Offset(m) == 1 && Length(m) == 0 && Moved(m, 0, 1).Done?
    ensures |Moved(m, 0, 1).value| >= 32 && Selected([7], m) == []
    ensures Selected(Joined([7], [9]), Moved(m, 0, 1).value) != []
  {
    hide Moved, Get32, Offset, Length;
    MovedFields(m, 0, 1);
    FirstSelectsTheSameIff(m, [7], [9]);
  }

  lemma BothRead(m: Member)
    requires |m| == 42 && Get16(m, 40) == 42
    ensures SizesRead([m] + [Other()], 0)
  {
    hide Plain, Get16, Flat;
    SizesReadIff([m] + [Other()]);
  }

  /** A first file whose last entry is cut short by the end of its 'cfrg': the merged
      one cannot be read at all. */
  lemma CutShortIsLost()
    ensures var m := Plain(M68K, 50, 0, 1);
            && Reads(Blob([7], [CfrgResource(m)]), X(m, [CfrgResource(m)])) && Merged(m, [CfrgResource(m)]).Done?
            && Finds(Merged(m, [CfrgResource(m)]).value, Joined([7], [9]), BothCfrg(m))
            && Members(BothCfrg(m)).None?
  {
    hide Plain, Cfrg, Finds, Merge, Reads, Members, Get32, Get16, ByType, Joined, Moved, NewCfrg, Both;
    var m := Plain(M68K, 50, 0, 1);
    AloneFinds(m);
    FragmentsMove(m);
    BothIs(m, [CfrgResource(m)]);
    MovedSize(m);
    CfrgLists(m);
    CutsShort(Cfrg(m), Moved(m, 0, 1).value, Moved(Other(), 16, 1).value);
  }

  lemma MovedSize(m: Member)
    requires Moved(m, 0, 1).Done? && |m| == 42 && Moved(Other(), 16, 1).Done?
    ensures |Moved(m, 0, 1).value| == 42 && Get16(Moved(m, 0, 1).value, 40) == Get16(m, 40)
    ensures |Moved(Other(), 16, 1).value| == 42
  {
    hide Get16, Moved, Plain, Be32, Get32;
    MovedFields(m, 0, 1);
    MovedFields(Other(), 16, 1);
    var t := Moved(m, 0, 1).value;
    assert t[40] == t[32..][8] == m[32..][8] == m[40] && t[41] == t[32..][9] == m[32..][9] == m[41];
    SameHalf16(t, m);
  }

  lemma CutsShort(cfrg: seq<byte>, m: Member, n: Member)
    requires |cfrg| >= 32 && |m| == |n| == 42 && Get16(m, 40) == 50
    ensures Members(NewCfrg(cfrg, [m, n])).None?
  {
    hide TakeMembers, Get16, Flat, Be16;
    var new_ := NewCfrg(cfrg, [m, n]);
    TwoParts<byte>(m, n);
    assert new_[30..32] == Be16(2);
    Get16Back(new_, 30, 2);
    assert new_[32..] == m + n;
    SizeAt(new_, 32, m + n);
    SameHalf16(m + n, m);
    TakeOne(new_, 32, 2);
    TakeOne(new_, 82, 1);
  }

  // ------------------------------------------------------------ resources not kept

  const OTHR: Kind := [79, 84, 72, 82]

  lemma InOrder<K(!new)>(keys: seq<K>, a: K, b: K)
    requires a != b && keys == [a, b, b]
    ensures Order(keys) == [0, 1, 2]
  {
    hide Order, Kinds;
    assert keys == [a, b] + [b] && [a, b] == [a] + [b] && [a] == [] + [a];
    OrderNone<K>([]);
    KindsNone<K>([]);
    OrderGrows([], a);
    KindsGrow([], a);
    OrderGrows([a], b);
    KindsGrow([a], b);
    OrderGrows([a, b], b);
  }

  lemma PlainShows(rs: seq<Resource>, sizes: seq<nat>)
    requires |sizes| == |rs| && forall i :: 0 <= i < |rs| ==> rs[i].attrs == 0
    ensures ShowAll(rs, sizes)
  {
    hide Sum;
    forall i | 0 <= i < |rs|
      ensures Shows(Entry(rs[i], Sum(sizes[..i])))
    {
      assert Or(0, Sum(sizes[..i]) / 0x100_0000) == Sum(sizes[..i]) / 0x100_0000;
    }
  }

  lemma SumThree(a: nat, b: nat, c: nat)
    ensures Sum([a, b, c][..0]) == 0 && Sum([a, b, c][..1]) == a && Sum([a, b, c][..2]) == a + b
    ensures Sum([a, b, c]) == a + b + c
  {
    assert [a, b, c][..2] == [a, b] && [a, b][..1] == [a] && [a][..0] == [] && [a, b, c][..1] == [a];
    assert Sum([a]) == a && Sum([a, b]) == a + b;
  }

  /** A 'cfrg', a resource of almost 16 MB and an empty one. */
  function Tight(m: Member): (rs: seq<Resource>)
    ensures |rs| == 3
  {
    [CfrgResource(m), Plainly(OTHR, 0, 0xFF_FFAD), Plainly(OTHR, 1, 0)]
  }

  lemma TightOrder(m: Member)
    ensures ByType(Tight(m)) == Tight(m)
  {
    hide Order, Zeros, Cfrg;
    var keys := Keys(Tight(m));
    assert CFRG[0] != OTHR[0];
    assert keys == [CFRG, OTHR, OTHR];
    InOrder(keys, CFRG, OTHR);
  }

  lemma TightSizes(m: Member)
    requires Fragment(m)
    ensures Few(Tight(m)) && Within(Sizes(Tight(m))) && Sum(Sizes(Tight(m))) < 0x180_0000
    ensures !Within(SizesWith(Tight(m), 116))
    ensures FindCfrg(Tight(m)) == Some(Cfrg(m)) && CfrgOffset(Tight(m)) == 0
  {
    hide Sum, Cfrg, Zeros, Get32, Get16;
    CfrgLists(m);
    assert CFRG[0] != OTHR[0];
    SumThree(78, 0xFF_FFB1, 4);
    SumThree(120, 0xFF_FFB1, 4);
    assert Sizes(Tight(m)) == [78, 0xFF_FFB1, 4];
    assert SizesWith(Tight(m), 116) == [120, 0xFF_FFB1, 4];
  }

  /** All of these start within 24 bits and read back as they are; the longer 'cfrg'
      of the merged file pushes the last one out, and what is read of that file is
      not the resources it was given. */
  lemma LongerCfrgPushesOut()
    ensures var m := Plain(M68K, 42, 0, 1);
            var x := X(m, Tight(m));
            && Reads(Blob([7], Tight(m)), x) && x.rs == Tight(m)
            && NamesClear(x.rs) && Merged(m, Tight(m)).Done?
            && Finds(Merged(m, Tight(m)).value, Joined([7], [9]), BothCfrg(m))
            && ReadFork(ReadMacBinary(Merged(m, Tight(m)).value).value.rsrc).value != WithCfrg(x.rs, BothCfrg(m))
  {
    hide ReadMacBinary, ReadFork, Fork, Within, ByType, Few, Cfrg, Members, Moved, Plain, FindCfrg, Get16, Tight;
    hide Reads, Merge, Get32, SizesWith, Sum, ShowAll, NamesClear, CfrgOffset, DataSeen, Joined, Packs, Finds;
    hide MergedMembers, CfrgSize, BothCfrg;
    var m := Plain(M68K, 42, 0, 1);
    BothIs(m, Tight(m));
    TightOrder(m);
    TightSizes(m);
    FewPack(Tight(m));
    Merges(m, Tight(m));
    MergedFinds(m, Tight(m));
    NoneHasAttrs(m);
    PlainShows(Tight(m), SizesWith(Tight(m), 116));
    MergedResources(Blob([7], Tight(m)), Blob([9], [CfrgResource(Other())]), X(m, Tight(m)), Y(),
                    Merged(m, Tight(m)).value);
  }

  lemma NoneHasAttrs(m: Member)
    ensures forall i :: 0 <= i < 3 ==> Tight(m)[i].attrs == 0
  {
  }

  /** An empty resource, a 'cfrg', and one of 16 MB of the first one's type: by type,
      the 'cfrg' comes last. */
  function Late(m: Member): (rs: seq<Resource>)
    ensures |rs| == 3
  {
    [Plainly(OTHR, 0, 0), CfrgResource(m), Plainly(OTHR, 1, 0x100_0000)]
  }

  function LateByType(m: Member): (rs: seq<Resource>)
    ensures |rs| == 3
  {
    [Plainly(OTHR, 0, 0), Plainly(OTHR, 1, 0x100_0000), CfrgResource(m)]
  }

  lemma LateOrder(m: Member)
    ensures ByType(Late(m)) == LateByType(m)
  {
    hide Order, Zeros, Cfrg;
    var keys := Keys(Late(m));
    assert CFRG[0] != OTHR[0];
    assert keys == [OTHR, CFRG, OTHR];
    TurnsOrder(keys, OTHR, CFRG);
  }

  lemma LateSizes(m: Member)
    requires Fragment(m)
    ensures Few(Late(m)) && Within(Sizes(Late(m))) && Sum(Sizes(Late(m))) < 0x180_0000
    ensures FindCfrg(LateByType(m)) == Some(Cfrg(m)) && CfrgOffset(LateByType(m)) == 0x100_0008
  {
    hide Sum, Cfrg, Zeros, Get32, Get16;
    CfrgLists(m);
    assert CFRG[0] != OTHR[0];
    SumThree(4, 78, 0x100_0004);
    SumThree(4, 0x100_0004, 78);
    assert Sizes(Late(m)) == [4, 78, 0x100_0004];
    assert Sizes(LateByType(m)) == [4, 0x100_0004, 78];
    LateAt(m);
  }

  lemma LateAt(m: Member)
    ensures FindCfrg(LateByType(m)) == Some(Cfrg(m)) && CfrgAt(LateByType(m)) == 2
  {
    hide Cfrg, Zeros;
    assert CFRG[0] != OTHR[0];
    FirstIsFound(LateByType(m), 2);
  }

  /** The data at offset 8 of such a fork is zeros. */
  lemma ZerosThere(rs: seq<Resource>)
    requires |rs| == 3 && rs[0].data == [] && rs[1].data == Zeros(0x100_0000)
    ensures DataSeen(Fork(rs), 0x100_0008) == []
  {
    hide Fork, Zeros, Get32, Be32, Sum, Entries;
    DataField(rs, 1);
    OffsetIs(rs, 1);
    SumThree(4, 0x100_0004, |rs[2].data| + 4);
    assert Sizes(rs) == [4, 0x100_0004, |rs[2].data| + 4];
    var f, part := Fork(rs), DataPart(rs[1]);
    SliceOfSlice(f, 260, 260 + |part|, 4, 8);
    assert part[4..8] == [0, 0, 0, 0] by {
      ZerosPart(0x100_0000);
    }
    ZeroWord();
    Get32Back(f, 264, 0);
  }

  lemma ZerosPart(n: nat)
    requires n >= 4
    ensures (Be32(n) + Zeros(n))[4..8] == [0, 0, 0, 0]
  {
    hide Be32;
  }

  lemma ZeroWord()
    ensures Be32(0) == [0, 0, 0, 0]
  {
    assert Be(0, 1) == [0] && Be(0, 2) == [0, 0] && Be(0, 3) == [0, 0, 0];
  }

  /** Where the first file's 'cfrg' is in range as it was written and not as it is
      listed, the merged file has none that can be read. */
  lemma LateCfrgIsLost()
    ensures var m := Plain(M68K, 42, 0, 1);
            && Reads(Blob([7], Late(m)), X(m, Late(m))) && Merged(m, Late(m)).Done?
            && Finds(Merged(m, Late(m)).value, Joined([7], [9]), []) && Members([]).None?
  {
    hide ReadMacBinary, ReadFork, Fork, Within, ByType, Few, Cfrg, Moved, Plain, FindCfrg, Get16, Late, LateByType;
    hide Reads, Merge, Get32, SizesWith, Sum, ShowAll, NamesClear, CfrgOffset, DataSeen, Joined, Packs, Stamped;
    hide MergedMembers, CfrgSize, IsCfrg;
    var m := Plain(M68K, 42, 0, 1);
    var a, b := Blob([7], Late(m)), Blob([9], [CfrgResource(Other())]);
    LateOrder(m);
    LateSizes(m);
    Merges(m, Late(m));
    MergedFile(a, b, X(m, Late(m)), Y(), Merged(m, Late(m)).value);
    MergedResources(a, b, X(m, Late(m)), Y(), Merged(m, Late(m)).value);
    LateStarts(m, MergedCfrg(X(m, Late(m)), Y()));
    ZerosThere(WithCfrg(LateByType(m), MergedCfrg(X(m, Late(m)), Y())));
  }

  lemma LateStarts(m: Member, cfrg: seq<byte>)
    ensures var rs := WithCfrg(LateByType(m), cfrg); rs[0].data == [] && rs[1].data == Zeros(0x100_0000)
  {
    hide Zeros, Cfrg;
    assert CFRG[0] != OTHR[0];
    NothingZero();
  }

  lemma NothingZero()
    ensures Zeros(0) == []
  {
  }

  // ------------------------------------------------------------------ classic files

  /** A classic build of one 'CODE' of 16 MB. */
  function Code(): Resource {
    Plainly(CODE, 0, 0x100_0000)
  }

  function CodeFile(): seq<byte> {
    Blob([], [Code()])
  }

  lemma CodeReads()
    ensures ReadsBuild(CodeFile(), Build(FileOf([], [Code()]), [Code()]))
    ensures Classic(Build(FileOf([], [Code()]), [Code()]))
  {
    hide ReadMacBinary, ReadFork, Fork, ByType, Stamped, Blob, Zeros;
    assert CFRG[1] != CODE[1];
    CodeIsFew();
    BlobReads([], [Code()]);
    OneByType(Code());
    assert Code() in [Code()];
  }

  lemma CodeIsFew()
    ensures Few([Code()]) && Within(Sizes([Code()]))
  {
    hide Zeros;
    assert Sizes([Code()]) == [0x100_0004] && Sizes([Code()])[..0] == [];
  }

  function CodeAndCfrg(): (rs: seq<Resource>)
    ensures |rs| == 2
  {
    [Code(), CfrgResource(Other())]
  }

  lemma JoinedIs()
    ensures [Code()] + Missing([Code()], [CfrgResource(Other())]) == CodeAndCfrg()
  {
    hide Zeros, Cfrg, Plain;
    var b := [CfrgResource(Other())];
    assert CFRG[1] != CODE[1];
    assert b[..0] == [];
    assert !Has([Code()], CFRG, 0);
    assert Missing([Code()], b) == Missing([Code()], []) + b;
  }

  lemma CodeSizes()
    ensures Few(CodeAndCfrg()) && !Within(Sizes(CodeAndCfrg()))
  {
    hide Zeros, Cfrg, Plain;
    CfrgLists(Other());
    var sizes := [0x100_0004, 78];
    assert Sizes(CodeAndCfrg()) == sizes;
    assert sizes[..1] == [0x100_0004] && [0x100_0004][..0] == [];
    assert Sum([0x100_0004]) == 0x100_0004;
  }

  /** Each of these files reads back as it is; of the two merged the 'cfrg' is past 24
      bits, and what is read is not what was written. */
  lemma ClassicPushesOut()
    ensures ReadsBuild(CodeFile(), Build(FileOf([], [Code()]), [Code()]))
    ensures Reads(Blob([9], [CfrgResource(Other())]), Y())
    ensures var out := Merge(CodeFile(), Blob([9], [CfrgResource(Other())]));
            && out.Done? && ReadMacBinary(out.value).Some?
            && ReadFork(ReadMacBinary(out.value).value.rsrc) != Some(ByType(CodeAndCfrg()))
  {
    hide ReadMacBinary, ReadFork, Fork, Within, ByType, Few, Cfrg, Plain, Reads, Merge, ShowAll, NamesClear, Stamped;
    hide Classic, Blob, CodeAndCfrg, Missing, Finish, FindCfrg, Members, IsClassic;
    var x := Build(FileOf([], [Code()]), [Code()]);
    var y := Build(FileOf([9], [CfrgResource(Other())]), [CfrgResource(Other())]);
    var b := Blob([9], [CfrgResource(Other())]);
    CodeReads();
    AloneReads(Other(), [9]);
    OneByType(CfrgResource(Other()));
    ReadsAsBuild(b);
    JoinedIs();
    CodeSizes();
    MergedClassic(CodeFile(), b, x, y);
    Finishes(x.file.header, [9], CodeAndCfrg());
    ClassicMerge(CodeFile(), b, x, y, Merge(CodeFile(), b).value, Code());
    CodePlain();
    PlainShows(CodeAndCfrg(), Sizes(CodeAndCfrg()));
  }

  lemma ReadsAsBuild(b: seq<byte>)
    requires Reads(b, Y()) && ByType([CfrgResource(Other())]) == [CfrgResource(Other())]
    ensures ReadsBuild(b, Build(FileOf([9], [CfrgResource(Other())]), [CfrgResource(Other())]))
  {
    hide ReadMacBinary, ReadFork, Fork, ByType, Cfrg, Plain, Stamped, FindCfrg, Members, IsClassic;
  }

  lemma CodePlain()
    ensures forall i :: 0 <= i < 2 ==> CodeAndCfrg()[i].attrs == 0
  {
    hide Zeros, Cfrg, Plain;
  }
}
