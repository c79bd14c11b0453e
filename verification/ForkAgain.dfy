/** Writing and reading once more what was read: whether that changes nothing, told
    from the resources first written (provisioning/fat_cfm.py:31-81). */
module ForkAgain {
  import opened Bytes
  import opened Layout
  import opened Grouping
  import opened Numbers
  import opened ResourceFork
  import opened ForkRoundTrip

  // --------------------------------------------- the same names, types and lengths

  lemma KeysGrouped(rs: seq<Resource>)
    ensures Keys(ByType(rs)) == Grouped(Keys(rs), Keys(rs))
    ensures |ByType(rs)| == |Order(Keys(rs))|
  {
    hide Order;
  }

  /** Grouped resources are listed in the order they are in. */
  lemma SameReferences(rs: seq<Resource>, k: nat)
    requires k < |References(rs)|
    ensures |References(ByType(rs))| == |References(rs)|
    ensures References(ByType(rs))[k].res == References(rs)[k].res
  {
    hide Order, Entries;
    KeysGrouped(rs);
    GroupedTwice(Keys(rs), rs);
    assert ByType(ByType(rs)) == ByType(rs);
    assert ByType(ByType(rs))[k] == References(ByType(rs))[k].res;
  }

  lemma SameLengths(rs: seq<Resource>)
    ensures |References(ByType(rs))| == |References(rs)| == |rs|
    ensures NameParts(References(ByType(rs))) == NameParts(References(rs))
    ensures |Kinds(Keys(ByType(rs)))| == |Kinds(Keys(rs))|
  {
    hide References, Order, Kinds;
    KeysGrouped(rs);
    KindsOfGrouped(Keys(rs));
    AsMany(rs);
    SameCounts(rs);
    forall k | 0 <= k < |References(rs)|
      ensures References(ByType(rs))[k].res == References(rs)[k].res
    {
      SameReferences(rs, k);
    }
  }

  lemma AsMany(rs: seq<Resource>)
    ensures |References(rs)| == |rs|
  {
    hide Order;
    OrderPermutes(Keys(rs));
    SumPermuted(UpTo(|rs|), Order(Keys(rs)));
  }

  lemma SameCounts(rs: seq<Resource>)
    ensures |References(ByType(rs))| == |References(rs)|
  {
    hide References;
    AsMany(rs);
    AsMany(ByType(rs));
  }

  /** How much of the data section each resource takes. */
  function Sizes(rs: seq<Resource>): (sizes: seq<nat>)
    ensures |sizes| == |rs| && forall i :: 0 <= i < |rs| ==> sizes[i] == |DataPart(rs[i])|
  {
    seq(|rs|, i requires 0 <= i < |rs| => |DataPart(rs[i])|)
  }

  lemma SameData(rs: seq<Resource>)
    ensures |Data(ByType(rs))| == |Data(rs)|
  {
    hide Order, DataPart;
    OrderPermutes(Keys(rs));
    SumPermuted(Sizes(rs), Order(Keys(rs)));
    assert Sizes(ByType(rs)) == Pick(Sizes(rs), Order(Keys(rs)));
    FlatSum<byte>(DataParts(rs), Sizes(rs));
    FlatSum<byte>(DataParts(ByType(rs)), Sizes(ByType(rs)));
  }

  /** What packs once packs again, with the same names at the same places. */
  lemma PacksAgain(rs: seq<Resource>)
    requires Packs(rs)
    ensures Packs(ByType(rs)) && (NamesClear(ByType(rs)) <==> NamesClear(rs))
  {
    hide NamePacks, NamesClear, Packs;
    SameNames(rs);
    FieldsPack(rs);
    ClearAlike(rs);
  }

  lemma SameNames(rs: seq<Resource>)
    requires Packs(rs)
    ensures |References(ByType(rs))| == |References(rs)|
    ensures forall k :: 0 <= k < |References(rs)| ==> NamePacks(References(ByType(rs)), k)
    ensures forall k :: 0 <= k < |References(rs)| ==>
              NameAt(References(ByType(rs)), k) == NameAt(References(rs), k)
    ensures forall k :: 0 <= k < |References(rs)| ==>
              References(ByType(rs))[k].res == References(rs)[k].res
  {
    hide References, NamePacks, NameAt, Packs, ByType;
    SameLengths(rs);
    forall k | 0 <= k < |References(rs)|
      ensures NamePacks(References(ByType(rs)), k) && NameAt(References(ByType(rs)), k) == NameAt(References(rs), k)
      ensures References(ByType(rs))[k].res == References(rs)[k].res
    {
      SameName(rs, k);
    }
  }

  lemma FieldsPack(rs: seq<Resource>)
    requires Packs(rs)
    requires forall k :: 0 <= k < |References(ByType(rs))| ==> NamePacks(References(ByType(rs)), k)
    ensures Packs(ByType(rs))
  {
    hide References, MapBody, Kinds, Data, NamePart, NamePacks, ByType;
    SameLengths(rs);
    SameData(rs);
    Wide(rs, 0, 0);
    Wide(ByType(rs), 0, 0);
  }

  lemma ClearAlike(rs: seq<Resource>)
    requires |References(ByType(rs))| == |References(rs)|
    requires forall k :: 0 <= k < |References(rs)| ==>
               NameAt(References(ByType(rs)), k) == NameAt(References(rs), k)
    requires forall k :: 0 <= k < |References(rs)| ==>
               References(ByType(rs))[k].res == References(rs)[k].res
    ensures NamesClear(ByType(rs)) <==> NamesClear(rs)
  {
    hide References, NameAt, ByType;
  }

  lemma SameName(rs: seq<Resource>, k: nat)
    requires k < |References(rs)| && Packs(rs)
    ensures k < |References(ByType(rs))| && References(ByType(rs))[k].res == References(rs)[k].res
    ensures NameAt(References(ByType(rs)), k) == NameAt(References(rs), k)
    ensures NamePacks(References(ByType(rs)), k)
  {
    hide References, Packs, NamePart, Start;
    SameLengths(rs);
    SameReferences(rs, k);
    NameAtPacks(rs, k);
  }

  // ----------------------------------------------------------- offsets and 24 bits

  /** The data before the last of the resources by type is no more than 24 bits can
      point past. */
  predicate Room(rs: seq<Resource>)
    requires rs != []
  {
    AsMany(rs);
    |Data(rs)| - |DataPart(ByType(rs)[|rs| - 1])| < 0x100_0000
  }

  /** Only the last offset matters. */
  lemma ReachesIff(rs: seq<Resource>)
    requires rs != []
    ensures Reaches(rs) <==> |Data(rs)| - |DataPart(rs[|rs| - 1])| < 0x100_0000
  {
    hide DataPart, Flat;
    var parts, n := DataParts(rs), |rs| - 1;
    FlatNext<byte>(parts, n);
    FlatAll<byte>(parts);
    assert Entries(rs)[n].off == |Data(rs)| - |DataPart(rs[n])|;
    forall i | 0 <= i < |rs|
      ensures Entries(rs)[i].off <= Entries(rs)[n].off
    {
      StartsOrdered<byte>(parts, i, n);
    }
  }

  lemma ReachesAgainIff(rs: seq<Resource>)
    requires rs != []
    ensures Reaches(ByType(rs)) <==> Room(rs)
  {
    hide Data, DataPart, Reaches;
    AsMany(rs);
    SameData(rs);
    ReachesIff(ByType(rs));
  }

  /** Writing and reading once more what was read changes nothing, where the
      regrouped data has room. */
  lemma SecondRoundTrip(rs: seq<Resource>)
    requires Packs(rs) && NamesClear(rs) && Room(rs)
    ensures ReadFork(Fork(ByType(rs))) == Some(ByType(rs))
  {
    hide Packs, Reaches, NamesClear, ReadFork, Fork, References, Room, Data;
    SecondByType(rs);
    PacksAgain(rs);
    ReachesAgainIff(rs);
    RoundTripIffNamesClear(ByType(rs));
  }

  /** And only there, if the bits past the 24th show among the attributes. */
  lemma SecondRoundTripIff(rs: seq<Resource>)
    requires Packs(rs) && NamesClear(rs)
    requires forall k :: 0 <= k < |References(ByType(rs))| ==> Shows(References(ByType(rs))[k])
    ensures ReadFork(Fork(ByType(rs))) == Some(ByType(rs)) <==> Room(rs)
  {
    hide Packs, Reaches, NamesClear, ReadFork, Fork, References, Room, Data, Shows;
    SecondByType(rs);
    PacksAgain(rs);
    ReachesAgainIff(rs);
    RoundTripIff(ByType(rs));
  }

  lemma SecondByType(rs: seq<Resource>)
    requires Packs(rs)
    ensures rs != [] && ByType(ByType(rs)) == ByType(rs)
  {
    hide Order;
    KeysGrouped(rs);
    GroupedTwice(Keys(rs), rs);
  }

  // --------------------------------------------------------- a regrouped overflow

  /** Two types in turns, 16 MB in the last resource: grouped, it comes second. */
  function Heavy(): (rs: seq<Resource>)
    ensures |rs| == 3
  {
    [Small(0, 0), Small(1, 0), Resource([0, 0, 0, 0], 1, 0, None, Zeros(0x100_0000))]
  }

  function Small(kind: byte, id: i16): Resource {
    Resource([0, 0, 0, kind], id, 0, None, [])
  }

  /** Two keys in turns. */
  lemma TurnsOrder<K(!new)>(keys: seq<K>, a: K, b: K)
    requires a != b && keys == [a, b, a]
    ensures Order(keys) == [0, 2, 1] && Kinds(keys) == [a, b]
  {
    hide Kinds, Of, Flat;
    TurnsKinds(keys, a, b);
    TurnsOf(keys, a, b);
    assert Groups(keys) == [[0, 2], [1]];
    TwoParts<nat>([0, 2], [1]);
  }

  lemma TurnsKinds<K(!new)>(keys: seq<K>, a: K, b: K)
    requires a != b && keys == [a, b, a]
    ensures Kinds(keys) == [a, b]
  {
    hide Kinds;
    assert keys == [a, b] + [a] && [a, b] == [a] + [b] && [a] == [] + [a];
    KindsNone<K>([]);
    KindsGrow([], a);
    KindsGrow([a], b);
    KindsGrow([a, b], a);
  }

  lemma TurnsOf<K(!new)>(keys: seq<K>, a: K, b: K)
    requires a != b && keys == [a, b, a]
    ensures Of(keys, a) == [0, 2] && Of(keys, b) == [1]
  {
    hide Of;
    assert keys == [a, b] + [a] && [a, b] == [a] + [b] && [a] == [] + [a];
    OfNone([], a);
    OfNone([], b);
    OfSame([], a);
    OfOther([], a, b);
    OfOther([a], b, a);
    OfSame([a], b);
    OfSame([a, b], a);
    OfOther([a, b], a, b);
  }

  lemma HeavyOrder()
    ensures Order(Keys(Heavy())) == [0, 2, 1] && |Kinds(Keys(Heavy()))| == 2
  {
    hide Order, Kinds, Zeros;
    var keys := Keys(Heavy());
    assert keys[0] != keys[1] by {
      assert keys[0][3] != keys[1][3];
    }
    TurnsOrder(keys, keys[0], keys[1]);
  }

  lemma TwoParts<T>(a: seq<T>, b: seq<T>)
    ensures Flat([a, b]) == a + b
  {
    assert [a, b][..1] == [a] && [a][..0] == [];
    assert Flat([a]) == [] + a;
  }

  lemma HeavySizes()
    ensures |Data(Heavy())| == 0x100_0000 + 12 && Packs(Heavy()) && NamesClear(Heavy()) && Reaches(Heavy())
    ensures !Room(Heavy())
  {
    hide Order, Kinds, Flat, MapBody, Zeros;
    HeavyOrder();
    HeavyData();
    AsMany(Heavy());
    Wide(Heavy(), 0, 0);
    NoNames(References(Heavy()));
    ReachesIff(Heavy());
  }

  lemma NoNames(es: seq<Entry>)
    requires forall k :: 0 <= k < |es| ==> es[k].res.name.None?
    ensures Flat<byte>(NameParts(es)) == []
  {
    FlatWide<byte>(NameParts(es), 0);
  }

  lemma HeavyData()
    ensures |Data(Heavy())| == 0x100_0000 + 12
  {
    hide Flat, Zeros, Be32;
    FlatSum<byte>(DataParts(Heavy()), [4, 4, 0x100_0004]);
    assert [4, 4, 0x100_0004][..2] == [4, 4] && [4, 4][..1] == [4] && [4][..0] == [];
    assert Sum([4]) == 4 && Sum([4, 4]) == 8;
  }

  /** These resources are written and read back by type; what was read does not
      survive being written and read again. */
  lemma HeavyFailsTheSecondTime()
    ensures ReadFork(Fork(Heavy())) == Some(ByType(Heavy()))
    ensures ReadFork(Fork(ByType(Heavy()))) != Some(ByType(Heavy()))
  {
    hide ReadFork, Fork, Packs, NamesClear, Reaches, Room, References, Heavy, Or;
    HeavySizes();
    RoundTripIffNamesClear(Heavy());
    PacksAgain(Heavy());
    forall k | 0 <= k < |References(ByType(Heavy()))|
      ensures Shows(References(ByType(Heavy()))[k])
    {
      HeavyShows(k);
    }
    SecondRoundTripIff(Heavy());
  }

  lemma HeavyShows(k: nat)
    requires Packs(ByType(Heavy())) && k < |References(ByType(Heavy()))|
    ensures Shows(References(ByType(Heavy()))[k])
  {
    hide References, Heavy, Packs;
    SameLengths(Heavy());
    SameReferences(Heavy(), k);
    NoAttributes(k);
  }

  lemma NoAttributes(k: nat)
    requires k < |References(Heavy())|
    ensures References(Heavy())[k].res.attrs == 0
  {
    hide Order, Zeros;
    var i := Order(Keys(Heavy()))[k];
    assert References(Heavy())[k].res == Heavy()[i];
    assert i == 0 || i == 1 || i == 2;
  }
}
