/** What write_rsrc writes, read_rsrc reads back: the same resources, brought
    together by type (provisioning/fat_cfm.py:31-81). */
module ForkRoundTrip {
  import opened Bytes
  import opened Numbers
  import opened Layout
  import opened Grouping
  import opened ResourceFork

  // ----------------------------------------------------------- where things are

  lemma Inside<T>(a: seq<T>, b: seq<T>, c: seq<T>, i: nat, j: nat)
    requires i <= j <= |b|
    ensures (a + b + c)[|a| + i..|a| + j] == b[i..j]
  {
  }

  lemma Wide(rs: seq<Resource>, j: nat, k: nat)
    requires j <= |Kinds(Keys(rs))| && k <= |References(rs)|
    ensures Start<byte>(KindParts(Keys(rs)), j) == 8 * j && Start<byte>(RefParts(References(rs)), k) == 12 * k
    ensures |Flat<byte>(KindParts(Keys(rs)))| == 8 * |Kinds(Keys(rs))|
    ensures |Flat<byte>(RefParts(References(rs)))| == 12 * |References(rs)|
    ensures |MapBody(rs)| == 2 + 8 * |Kinds(Keys(rs))| + 12 * |References(rs)|
  {
    hide Kinds, References, KindPart, RefPart, Flat;
    FlatWide<byte>(KindParts(Keys(rs)), 8);
    FlatWide<byte>(KindParts(Keys(rs))[..j], 8);
    FlatWide<byte>(RefParts(References(rs)), 12);
    FlatWide<byte>(RefParts(References(rs))[..k], 12);
  }

  lemma KindField(rs: seq<Resource>, j: nat)
    requires j < |Kinds(Keys(rs))|
    ensures var at := 30 + 8 * j; at + 8 <= |Map(rs)| && Map(rs)[at..at + 8] == KindPart(Keys(rs), j)
  {
    hide Kinds, References, KindPart, RefParts, Flat, MapHead, Names, KindParts;
    var parts := KindParts(Keys(rs));
    var kinds, refs := Flat<byte>(parts), Flat<byte>(RefParts(References(rs)));
    Wide(rs, j, 0);
    FlatPart<byte>(parts, j);
    Inside(Be16(|Kinds(Keys(rs))| - 1), kinds, refs, 8 * j, 8 * j + 8);
    Inside(MapHead(rs), MapBody(rs), Names(rs), 2 + 8 * j, 2 + 8 * j + 8);
  }

  lemma RefField(rs: seq<Resource>, k: nat)
    requires k < |References(rs)|
    ensures var at := 30 + 8 * |Kinds(Keys(rs))| + 12 * k;
            at + 12 <= |Map(rs)| && Map(rs)[at..at + 12] == RefPart(References(rs), k)
  {
    hide Kinds, References, RefPart, KindParts, Flat, MapHead, Names, RefParts;
    var n, parts := |Kinds(Keys(rs))|, RefParts(References(rs));
    var kinds, refs := Flat<byte>(KindParts(Keys(rs))), Flat<byte>(parts);
    Wide(rs, 0, k);
    FlatPart<byte>(parts, k);
    Inside(Be16(n - 1) + kinds, refs, [], 12 * k, 12 * k + 12);
    assert Be16(n - 1) + kinds + refs + [] == MapBody(rs);
    Inside(MapHead(rs), MapBody(rs), Names(rs), 2 + 8 * n + 12 * k, 2 + 8 * n + 12 * k + 12);
  }

  lemma NameField(rs: seq<Resource>, k: nat)
    requires k < |References(rs)|
    ensures var part := NamePart(References(rs)[k]);
            var at := NamesAt(rs) + Start<byte>(NameParts(References(rs)), k);
            at + |part| <= |Map(rs)| && Map(rs)[at..at + |part|] == part
  {
    hide References, Flat, MapHead, MapBody, NamePart;
    var parts := NameParts(References(rs));
    var at := Start<byte>(parts, k);
    FlatPart<byte>(parts, k);
    Inside(MapHead(rs) + MapBody(rs), Names(rs), [], at, at + |parts[k]|);
    assert MapHead(rs) + MapBody(rs) + Names(rs) + [] == Map(rs);
  }

  lemma DataField(rs: seq<Resource>, i: nat)
    requires i < |rs|
    ensures var part := DataPart(rs[i]);
            var at := DATA_AT + Entries(rs)[i].off;
            at + |part| <= |Fork(rs)| && Fork(rs)[at..at + |part|] == part
  {
    hide Flat, Map, Head, DataPart;
    var at := Entries(rs)[i].off;
    FlatPart<byte>(DataParts(rs), i);
    Inside(Head(rs) + Zeros(240), Data(rs), Map(rs), at, at + |DataPart(rs[i])|);
  }

  // --------------------------------------------------------------- one reference

  /** The data offset fits its 24 bits. */
  predicate Reaches(rs: seq<Resource>) {
    forall i :: 0 <= i < |rs| ==> Entries(rs)[i].off < 0x100_0000
  }

  /** The reader's view of what is written. */
  function Written(rs: seq<Resource>): View {
    View(Fork(rs), Map(rs), DATA_AT, 28, NamesAt(rs))
  }

  /** The attributes and the offset as they are written. */
  function Word(e: Entry): u32 {
    AttrsAndOffset(e.res.attrs, e.off) % 0x1_0000_0000
  }

  /** What the reader sees: no name where its offset is the mark for no name; past
      24 bits an offset's upper bits among the attributes, and the data that its
      lower ones lead to. */
  function Seen(rs: seq<Resource>, k: nat): Resource
    requires k < |References(rs)|
  {
    var e := References(rs)[k];
    var at := DATA_AT + Word(e) % 0x100_0000;
    Resource(e.res.kind, e.res.id, Word(e) / 0x100_0000,
             if NameAt(References(rs), k) == NO_NAME then None else e.res.name,
             if at + 4 <= |Fork(rs)| then Slice(Fork(rs), at + 4, at + 4 + Get32(Fork(rs), at)) else [])
  }

  /** Where reference K is in the map. */
  function RefAt(rs: seq<Resource>, k: nat): nat {
    30 + 8 * |Kinds(Keys(rs))| + 12 * k
  }

  lemma RefFields(rs: seq<Resource>, k: nat)
    requires k < |References(rs)| && Packs(rs)
    ensures var e, at := References(rs)[k], RefAt(rs, k);
            && at + 12 <= |Map(rs)|
            && Signed16(Get16(Map(rs), at)) == e.res.id
            && Get16(Map(rs), at + 2) == NameAt(References(rs), k)
            && Get32(Map(rs), at + 4) == Word(e)
  {
    hide References, Map, Kinds, NameAt, Be16, Get16, Get32, Signed16, AttrsAndOffset, Packs, Be;
    var e := References(rs)[k];
    RefField(rs, k);
    NameAtPacks(rs, k);
    assert Be32(AttrsAndOffset(e.res.attrs, e.off)) == Be32(Word(e));
    FourFields(Map(rs), 30 + 8 * |Kinds(Keys(rs))| + 12 * k, e.res.id, NameAt(References(rs), k), Word(e));
  }

  lemma {:induction false} OrBound(a: nat, b: nat, limit: nat, n: nat)
    requires a < limit && b < limit && limit == Power(n)
    ensures Or(a, b) < limit
    decreases n
  {
    if a != 0 {
      OrBound(a / 2, b / 2, Power(n - 1), n - 1);
    }
  }

  /** The word of an offset that fits the fork gives back attributes and offset
      exactly when the offset has no more than 24 bits. */
  lemma WordBackIff(e: Entry)
    requires e.off < 0x1_0000_0000
    ensures Word(e) / 0x100_0000 == e.res.attrs && Word(e) % 0x100_0000 == e.off <==> e.off < 0x100_0000
    ensures Word(e) / 0x100_0000 == Or(e.res.attrs, e.off / 0x100_0000)
    ensures Word(e) % 0x100_0000 == e.off % 0x100_0000
  {
    hide Or;
    var attrs: nat, high := e.res.attrs, e.off / 0x100_0000;
    assert Power(8) == 0x100 by {
      assert Power(4) == 16;
    }
    OrBound(attrs, high, 0x100, 8);
    WordParts(Or(attrs, high), e.off % 0x100_0000);
    if high == 0 {
      OrZero(attrs);
    }
  }

  lemma WordParts(high: nat, low: nat)
    requires high < 0x100 && low < 0x100_0000
    ensures var w := (high * 0x100_0000 + low) % 0x1_0000_0000; w / 0x100_0000 == high && w % 0x100_0000 == low
  {
  }

  lemma FourFields(s: seq<byte>, at: nat, id: i16, name: u16, word: u32)
    requires at + 12 <= |s| && s[at..at + 12] == Be16(id) + Be16(name) + Be32(word) + Be32(0)
    ensures Signed16(Get16(s, at)) == id && Get16(s, at + 2) == name && Get32(s, at + 4) == word
  {
    hide Be16, Be32, Get16, Get32;
    var low: u16 := if id < 0 then id + 0x1_0000 else id;
    TakeApart(s, at, Be16(id) + Be16(name) + Be32(word), Be32(0));
    TakeApart(s, at, Be16(id) + Be16(name), Be32(word));
    TakeApart(s, at, Be16(id), Be16(name));
    SameHalf(id, low);
    Get16Back(s, at, low);
    Get16Back(s, at + 2, name);
    Get32Back(s, at + 4, word);
  }

  lemma SameHalf(x: int, y: int)
    requires x == y || x + 0x1_0000 == y
    ensures Be16(x) == Be16(y)
  {
    hide Be;
  }

  lemma NameAtPacks(rs: seq<Resource>, k: nat)
    requires k < |References(rs)| && Packs(rs)
    ensures NamePacks(References(rs), k) && NameAt(References(rs), k) <= 0xFFFF
  {
    hide References;
    assert NamePacks(References(rs), k);
  }

  lemma NameBack(rs: seq<Resource>, k: nat)
    requires k < |References(rs)| && Packs(rs)
    ensures ReadName(Written(rs), NameAt(References(rs), k)) == Some(Seen(rs, k).name)
  {
    hide References, Map, Fork, Packs, Flat, MapBody, Word, Get32;
    var refs := References(rs);
    NameAtPacks(rs, k);
    NameField(rs, k);
    if NameAt(refs, k) != NO_NAME {
      var p := NamesAt(rs) + NameAt(refs, k);
      var part := NamePart(refs[k]);
      assert Map(rs)[p] == Map(rs)[p..p + |part|][0] == |refs[k].res.name.value|;
      assert Map(rs)[p + 1..p + |part|] == Map(rs)[p..p + |part|][1..] == refs[k].res.name.value;
    }
  }

  lemma DataBack(rs: seq<Resource>, i: nat)
    requires i < |rs| && Packs(rs)
    ensures var at := DATA_AT + Entries(rs)[i].off;
            && at + 4 <= |Fork(rs)| && Get32(Fork(rs), at) == |rs[i].data|
            && Slice(Fork(rs), at + 4, at + 4 + Get32(Fork(rs), at)) == rs[i].data
  {
    hide Flat, Fork, MapBody, NameAt, Entries, Get32, Be32;
    var at, f := DATA_AT + Entries(rs)[i].off, Fork(rs);
    DataField(rs, i);
    TakeApart(f, at, Be32(|rs[i].data|), rs[i].data);
    DataFits(rs, i);
    Get32Back(f, at, |rs[i].data|);
  }

  lemma DataFits(rs: seq<Resource>, i: nat)
    requires i < |rs| && Packs(rs)
    ensures |rs[i].data| < 0x1_0000_0000
  {
    hide Flat;
    FlatPart<byte>(DataParts(rs), i);
  }

  /** A reference read from its parts. */
  lemma ReadRefParts(v: View, kind: Kind, e: nat, word: u32, name: Option<seq<byte>>)
    requires e + 8 <= |v.rmap| && Get32(v.rmap, e + 4) == word && v.dataAt + word % 0x100_0000 + 4 <= |v.fork|
    requires ReadName(v, Get16(v.rmap, e + 2)) == Some(name)
    ensures var at := v.dataAt + word % 0x100_0000;
            ReadRef(v, kind, e) ==
            Some(Resource(kind, Signed16(Get16(v.rmap, e)), word / 0x100_0000, name,
                          Slice(v.fork, at + 4, at + 4 + Get32(v.fork, at))))
  {
    hide ReadName, Get16, Get32, Signed16, Slice;
  }

  lemma ReadRefBack(rs: seq<Resource>, k: nat)
    requires k < |References(rs)| && Packs(rs)
    ensures ReadRef(Written(rs), References(rs)[k].res.kind, RefAt(rs, k)) == Some(Seen(rs, k))
  {
    hide Map, Fork, Packs, Data, MapBody, NameAt, ReadName, NamesAt, Kinds, References, Get16, Get32, Signed16, Slice;
    hide Word, Keys, RefAt, ReadRef;
    RefFields(rs, k);
    NameBack(rs, k);
    DataWithin(rs, k);
    WordBackIff(References(rs)[k]);
    ReadRefParts(Written(rs), References(rs)[k].res.kind, RefAt(rs, k), Word(References(rs)[k]), Seen(rs, k).name);
  }

  /** Every entry's data starts within the data section. */
  lemma DataWithin(rs: seq<Resource>, k: nat)
    requires k < |References(rs)| && Packs(rs)
    ensures var off := References(rs)[k].off; off + 4 <= |Data(rs)| < 0x1_0000_0000 && DATA_AT + off + 4 <= |Fork(rs)|
  {
    hide Flat, Fork, Order, MapBody, NamesAt, NamePacks;
    var i := Order(Keys(rs))[k];
    FlatPart<byte>(DataParts(rs), i);
    DataField(rs, i);
  }

  /** An entry within 24 bits is seen as it is, but for a name at the mark. */
  lemma SeenWithin(rs: seq<Resource>, k: nat)
    requires k < |References(rs)| && Packs(rs) && References(rs)[k].off < 0x100_0000
    ensures var e := References(rs)[k];
            Seen(rs, k) == if NameAt(References(rs), k) == NO_NAME then e.res.(name := None) else e.res
  {
    hide Fork, Packs, Flat, NameAt, Order, Get32, Slice, Word;
    DataWithin(rs, k);
    WordBackIff(References(rs)[k]);
    DataBack(rs, Order(Keys(rs))[k]);
  }

  // -------------------------------------------------------------------- the whole

  function SeenAll(rs: seq<Resource>): (r: seq<Resource>)
    ensures |r| == |References(rs)| && forall k :: 0 <= k < |r| ==> r[k] == Seen(rs, k)
  {
    seq(|References(rs)|, k requires 0 <= k < |References(rs)| => Seen(rs, k))
  }

  lemma GroupKind(rs: seq<Resource>, j: nat, i: nat)
    requires j < |Kinds(Keys(rs))| && i < |Of(Keys(rs), Kinds(Keys(rs))[j])|
    ensures var k := Start<nat>(Groups(Keys(rs)), j) + i;
            k < |References(rs)| && References(rs)[k].res.kind == Kinds(Keys(rs))[j]
  {
    hide Kinds, Of, Flat;
    var groups := Groups(Keys(rs));
    FlatPart<nat>(groups, j);
    var at := Start<nat>(groups, j);
    assert Order(Keys(rs))[at + i] == Order(Keys(rs))[at..at + |groups[j]|][i] == groups[j][i];
  }

  lemma {:induction false} ReadRefsBack(rs: seq<Resource>, j: nat, n: nat)
    requires j < |Kinds(Keys(rs))| && n <= |Of(Keys(rs), Kinds(Keys(rs))[j])| && Packs(rs)
    ensures var first := Start<nat>(Groups(Keys(rs)), j);
            && first + n <= |References(rs)|
            && ReadRefs(Written(rs), Kinds(Keys(rs))[j], 30 + 8 * |Kinds(Keys(rs))| + 12 * first, n) ==
               Some(SeenAll(rs)[first..first + n])
  {
    hide Kinds, Of, Flat, Packs, Written, References, ReadRef, Seen;
    var first := Start<nat>(Groups(Keys(rs)), j);
    if n == 0 {
      FlatPart<nat>(Groups(Keys(rs)), j);
      SameLength(rs);
      assert SeenAll(rs)[first..first] == [];
    } else {
      ReadRefsBack(rs, j, n - 1);
      GroupKind(rs, j, n - 1);
      ReadRefBack(rs, first + n - 1);
      assert SeenAll(rs)[first + n - 1] == Seen(rs, first + n - 1);
      assert SeenAll(rs)[first..first + n] == SeenAll(rs)[first..first + n - 1] + [SeenAll(rs)[first + n - 1]];
    }
  }

  lemma SameLength(rs: seq<Resource>)
    ensures |References(rs)| == |Flat<nat>(Groups(Keys(rs)))|
  {
  }

  /** A type's entry in the map as the reader takes it. */
  lemma KindBack(rs: seq<Resource>, j: nat)
    requires j < |Kinds(Keys(rs))| && Packs(rs)
    ensures var at, keys := 30 + 8 * j, Keys(rs);
            && at + 8 <= |Map(rs)| && Map(rs)[at..at + 4] == Kinds(keys)[j]
            && Get16(Map(rs), at + 4) + 1 == |Of(keys, Kinds(keys)[j])|
            && Get16(Map(rs), at + 6) == 2 + 8 * |Kinds(keys)| + 12 * Start<nat>(Groups(keys), j)
  {
    hide Kinds, Of, Flat, Map, References, MapBody, Be16, Get16;
    var at, keys, m := 30 + 8 * j, Keys(rs), Map(rs);
    var count, refs := |Of(keys, Kinds(keys)[j])| - 1, 2 + 8 * |Kinds(keys)| + 12 * Start<nat>(Groups(keys), j);
    KindField(rs, j);
    TakeApart(m, at, Kinds(keys)[j] + Be16(count), Be16(refs));
    TakeApart(m, at, Kinds(keys)[j], Be16(count));
    KindFits(rs, j);
    Get16Back(m, at + 4, count);
    Get16Back(m, at + 6, refs);
  }

  lemma KindFits(rs: seq<Resource>, j: nat)
    requires j < |Kinds(Keys(rs))| && Packs(rs)
    ensures 1 <= |Of(Keys(rs), Kinds(Keys(rs))[j])| <= 0x1_0000
    ensures 2 + 8 * |Kinds(Keys(rs))| + 12 * Start<nat>(Groups(Keys(rs)), j) <= 0xFFFF
  {
    hide Kinds, Of, Flat, References, MapBody;
    var keys := Keys(rs);
    Wide(rs, 0, 0);
    FlatPart<nat>(Groups(keys), j);
    SameLength(rs);
    assert Kinds(keys)[j] in keys;
    var i :| 0 <= i < |keys| && keys[i] == Kinds(keys)[j];
    OfAll(keys, keys[i], i);
  }

  lemma {:induction false} ReadKindsBack(rs: seq<Resource>, n: nat)
    requires n <= |Kinds(Keys(rs))| && Packs(rs)
    ensures var last := Start<nat>(Groups(Keys(rs)), n);
            last <= |References(rs)| && ReadKinds(Written(rs), n) == Some(SeenAll(rs)[..last])
  {
    hide Kinds, Of, Flat, Packs, References, ReadRefs, Seen, Map, Fork, NamesAt, Get16, Start, Keys;
    var groups := Groups(Keys(rs));
    if n == 0 {
      StartZero(groups);
    } else {
      ReadKindsBack(rs, n - 1);
      KindBack(rs, n - 1);
      ReadRefsBack(rs, n - 1, |groups[n - 1]|);
      FlatNext<nat>(groups, n - 1);
      var first := Start<nat>(groups, n - 1);
      assert SeenAll(rs)[..first] + SeenAll(rs)[first..first + |groups[n - 1]|] ==
             SeenAll(rs)[..first + |groups[n - 1]|];
    }
  }

  lemma StartZero(groups: seq<seq<nat>>)
    ensures Start<nat>(groups, 0) == 0
  {
  }

  lemma HeadFields(rs: seq<Resource>)
    requires Packs(rs)
    ensures 16 <= |Fork(rs)| && 28 <= |Map(rs)|
    ensures Get32(Fork(rs), 0) == DATA_AT && Get32(Fork(rs), 4) == DATA_AT + |Data(rs)|
    ensures Get32(Fork(rs), 8) == |Data(rs)| && Get32(Fork(rs), 12) == |Map(rs)|
    ensures Get16(Map(rs), 24) == 28 && Get16(Map(rs), 26) == NamesAt(rs)
  {
    hide Data, Names, MapBody, Be16, Be32, Get16, Get32;
    var f, m := Fork(rs), Map(rs);
    var d, t := |Data(rs)|, NamesAt(rs) + |Names(rs)|;
    assert f[0..16] == Head(rs) && m[24..28] == Be16(28) + Be16(NamesAt(rs));
    TakeApart(f, 0, Be32(DATA_AT) + Be32(DATA_AT + d) + Be32(d), Be32(t));
    TakeApart(f, 0, Be32(DATA_AT) + Be32(DATA_AT + d), Be32(d));
    TakeApart(f, 0, Be32(DATA_AT), Be32(DATA_AT + d));
    TakeApart(m, 24, Be16(28), Be16(NamesAt(rs)));
    Get32Back(f, 0, DATA_AT);
    Get32Back(f, 4, DATA_AT + d);
    Get32Back(f, 8, d);
    Get32Back(f, 12, t);
    Get16Back(m, 24, 28);
    Get16Back(m, 26, NamesAt(rs));
  }

  /** The numbers in a fork: at its start where the data and the map are and how
      long, and the same again in the map; in the map where the types and the names
      start. The data follows 240 zeros, and what is not used is zero, in every
      reference too. */
  lemma ForkWords(rs: seq<Resource>)
    requires Packs(rs)
    ensures var fork, data, rmap := Fork(rs), Data(rs), Map(rs);
            && |fork| == 256 + |data| + |rmap| && |rmap| >= 28
            && Get32(fork, 0) == 256 && Get32(fork, 4) == 256 + |data|
            && Get32(fork, 8) == |data| && Get32(fork, 12) == |rmap|
            && fork[16..256] == Zeros(240) && fork[256..256 + |data|] == data && fork[256 + |data|..] == rmap
            && rmap[..16] == fork[..16] && rmap[16..24] == Zeros(8)
            && Get16(rmap, 24) == 28 && Get16(rmap, 26) as nat + |Names(rs)| == |rmap|
  {
    hide Data, Names, MapBody, Be16, Be32, Get16, Get32, Packs;
    HeadFields(rs);
    ZeroWords();
    assert Map(rs)[16..24] == Zeros(6) + Be16(0) == Zeros(8);
  }

  lemma ZeroWords()
    ensures Be16(0) == [0, 0] && Be32(0) == [0, 0, 0, 0]
  {
    hide Be;
    ByteOrder(0, 0, 0, 0);
  }

  lemma UnusedIsZero(rs: seq<Resource>, k: nat)
    requires k < |References(rs)|
    ensures RefAt(rs, k) + 12 <= |Map(rs)| && Map(rs)[RefAt(rs, k) + 8..RefAt(rs, k) + 12] == Zeros(4)
  {
    hide References, Map, Kinds, NameAt, Be16, Be32;
    var at := RefAt(rs, k);
    RefField(rs, k);
    ZeroWords();
    assert Be32(0) == Zeros(4);
    assert Map(rs)[at + 8..at + 12] == Map(rs)[at..at + 12][8..] == Be32(0);
  }

  lemma MapFields(rs: seq<Resource>)
    requires Packs(rs)
    ensures Slice(Fork(rs), DATA_AT + |Data(rs)|, DATA_AT + |Data(rs)| + |Map(rs)|) == Map(rs)
    ensures 30 <= |Map(rs)| && Get16(Map(rs), 28) + 1 == |Kinds(Keys(rs))|
  {
    hide Data, Names, MapHead, Be16, Get16, Kinds, References, Flat, KindParts, RefParts;
    var n := |Kinds(Keys(rs))|;
    var before := Head(rs) + Zeros(240) + Data(rs);
    assert |before| == DATA_AT + |Data(rs)| && Fork(rs)[|before|..] == Map(rs);
    Wide(rs, 0, 0);
    assert Keys(rs)[0] in Kinds(Keys(rs));
    assert Map(rs)[28..30] == Be16(n - 1);
    Get16Back(Map(rs), 28, n - 1);
  }

  /** What read_rsrc makes of what write_rsrc writes, whatever that is. */
  lemma ReadsBack(rs: seq<Resource>)
    requires Packs(rs)
    ensures ReadFork(Fork(rs)) == Some(SeenAll(rs))
  {
    hide Packs, Data, Map, Fork, Kinds, Of, Flat, References, Seen, ReadKinds, NamesAt, Get16, Get32;
    HeadFields(rs);
    MapFields(rs);
    ReadKindsBack(rs, |Kinds(Keys(rs))|);
    FlatAll<nat>(Groups(Keys(rs)));
    SameLength(rs);
    assert SeenAll(rs)[..|SeenAll(rs)|] == SeenAll(rs);
  }

  /** The resources brought together by type: types as they are first met, those
      of a type as they came (GroupedTwice, OrderSorted and OrderComplete). */
  function ByType(rs: seq<Resource>): (r: seq<Resource>)
    ensures |r| == |References(rs)| && forall k :: 0 <= k < |r| ==> r[k] == References(rs)[k].res
  {
    Grouped(Keys(rs), rs)
  }

  /** No name starts at 0xFFFF in the name list, where its offset would read as
      the mark for no name. */
  predicate NamesClear(rs: seq<Resource>) {
    forall k :: 0 <= k < |References(rs)| && References(rs)[k].res.name.Some? ==> NameAt(References(rs), k) != NO_NAME
  }

  lemma ReachesReferences(rs: seq<Resource>)
    ensures Reaches(rs) <==> forall k :: 0 <= k < |References(rs)| ==> References(rs)[k].off < 0x100_0000
  {
    hide Order, Entries;
    if forall k :: 0 <= k < |References(rs)| ==> References(rs)[k].off < 0x100_0000 {
      forall i | 0 <= i < |rs|
        ensures Entries(rs)[i].off < 0x100_0000
      {
        OrderComplete(Keys(rs), i);
        var k :| 0 <= k < |Order(Keys(rs))| && Order(Keys(rs))[k] == i;
        assert References(rs)[k] == Entries(rs)[i];
      }
    }
  }

  /** Round trip: reading what is written gives back the resources by type, with
      ids, attributes, names and data, exactly when no name starts where
      its offset reads as none. */
  lemma RoundTripIffNamesClear(rs: seq<Resource>)
    requires Packs(rs) && Reaches(rs)
    ensures ReadFork(Fork(rs)) == Some(ByType(rs)) <==> NamesClear(rs)
  {
    hide Packs, Reaches, ReadFork, Fork, References, Start, Seen;
    ReadsBack(rs);
    ReachesReferences(rs);
    var refs := References(rs);
    forall k | 0 <= k < |refs|
      ensures SeenAll(rs)[k] == if NameAt(refs, k) == NO_NAME then refs[k].res.(name := None) else refs[k].res
    {
      SeenWithin(rs, k);
    }
    if k :| 0 <= k < |refs| && refs[k].res.name.Some? && NameAt(refs, k) == NO_NAME {
      assert SeenAll(rs)[k].name != ByType(rs)[k].name;
    } else {
      forall k | 0 <= k < |refs|
        ensures SeenAll(rs)[k] == ByType(rs)[k]
      {
        assert refs[k].res.name.None? || NameAt(refs, k) != NO_NAME;
      }
      assert SeenAll(rs) == ByType(rs);
    }
  }

  /** An offset past 24 bits puts a bit among the attributes that was not there. */
  predicate Shows(e: Entry) {
    e.off >= 0x100_0000 ==> Or(e.res.attrs, e.off / 0x100_0000) != e.res.attrs
  }

  /** With data offsets of any size, as long as the bits past the 24th show: what
      is read is the resources by type exactly when there are no such bits and
      the names are clear. */
  lemma RoundTripIff(rs: seq<Resource>)
    requires Packs(rs) && forall k :: 0 <= k < |References(rs)| ==> Shows(References(rs)[k])
    ensures ReadFork(Fork(rs)) == Some(ByType(rs)) <==> Reaches(rs) && NamesClear(rs)
  {
    hide Packs, Reaches, NamesClear, ReadFork, Fork, References, Slice, Word, Or, Get32;
    if Reaches(rs) {
      RoundTripIffNamesClear(rs);
    } else {
      ReadsBack(rs);
      ReachesReferences(rs);
      var k :| 0 <= k < |References(rs)| && References(rs)[k].off >= 0x100_0000;
      DataWithin(rs, k);
      WordBackIff(References(rs)[k]);
      assert SeenAll(rs)[k].attrs != ByType(rs)[k].attrs;
    }
  }

  // ------------------------------------------------------- a name that is lost

  /** 257 resources with names of 255 bytes, but one of 254: the last one's name
      starts at 0xFFFF. */
  function Crowded(): (rs: seq<Resource>)
    ensures |rs| == 257
    ensures forall i :: 0 <= i < 257 ==>
              rs[i] == Resource(Zeros(4), i, 0, Some(Zeros(if i == 255 then 254 else 255)), [])
  {
    seq(257, i requires 0 <= i < 257 => Resource(Zeros(4), i, 0, Some(Zeros(if i == 255 then 254 else 255)), []))
  }

  lemma {:induction false} OneKind<K(!new)>(keys: seq<K>)
    requires keys != [] && forall i :: 0 <= i < |keys| ==> keys[i] == keys[0]
    ensures Order(keys) == UpTo(|keys|) && Kinds(keys) == [keys[0]]
  {
    hide Order, Kinds;
    var n := |keys| - 1;
    assert keys == keys[..n] + [keys[n]];
    KindsGrow(keys[..n], keys[n]);
    if n > 0 {
      OneKind(keys[..n]);
    } else {
      OrderNone(keys[..n]);
      KindsNone(keys[..n]);
    }
    OrderGrows(keys[..n], keys[n]);
  }

  lemma KindsNone<K(!new)>(keys: seq<K>)
    requires keys == []
    ensures Kinds(keys) == []
  {
  }

  lemma CrowdedReferences()
    ensures var es := References(Crowded());
            && |es| == 257 && |Kinds(Keys(Crowded()))| == 1
            && (forall k :: 0 <= k < 257 ==> es[k].res == Crowded()[k])
  {
    hide Order, Kinds, Flat, Start, DataParts;
    OneKind(Keys(Crowded()));
  }

  lemma CrowdedNames(es: seq<Entry>)
    requires |es| == 257 && forall k :: 0 <= k < 257 ==> es[k].res == Crowded()[k]
    ensures Start<byte>(NameParts(es), 256) == NO_NAME && |Flat<byte>(NameParts(es))| == 0xFFFF + 256
  {
    hide Flat, Crowded, NamePart;
    var parts := NameParts(es);
    CrowdedWidths(es);
    FlatWide<byte>(parts[..255], 256);
    FlatNext<byte>(parts, 255);
    FlatNext<byte>(parts, 256);
    FlatAll<byte>(parts);
  }

  lemma CrowdedWidths(es: seq<Entry>)
    requires |es| == 257 && forall k :: 0 <= k < 257 ==> es[k].res == Crowded()[k]
    ensures forall k :: 0 <= k < 257 ==> |NameParts(es)[k]| == if k == 255 then 255 else 256
  {
  }

  lemma CrowdedPacks()
    ensures Packs(Crowded()) && Reaches(Crowded())
  {
    hide Order, Kinds, Flat, References, MapBody, KindParts, RefParts;
    var rs := Crowded();
    var es := References(rs);
    CrowdedReferences();
    CrowdedNames(References(Crowded()));
    Wide(rs, 0, 0);
    FlatWide<byte>(DataParts(rs), 4);
    forall k | 0 <= k < |es|
      ensures NamePacks(es, k)
    {
      StartsOrdered<byte>(NameParts(es), k, 256);
    }
    forall i | 0 <= i < |rs|
      ensures Entries(rs)[i].off < 0x100_0000
    {
      StartsOrdered<byte>(DataParts(rs), i, |rs|);
    }
  }

  /** There are resources that are written without a complaint and do not read
      back. */
  lemma CrowdedNameIsLost()
    ensures Packs(Crowded()) && Reaches(Crowded()) && ReadFork(Fork(Crowded())) != Some(ByType(Crowded()))
  {
    hide Packs, Reaches, ReadFork, Fork, References, Start, Crowded;
    CrowdedPacks();
    CrowdedReferences();
    CrowdedNames(References(Crowded()));
    assert Crowded()[256].name.Some? by {
      CrowdedLast();
    }
    RoundTripIffNamesClear(Crowded());
  }

  lemma CrowdedLast()
    ensures Crowded()[256].name.Some?
  {
  }
}
