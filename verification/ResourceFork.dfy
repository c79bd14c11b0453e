/** Mac resource forks as provisioning writes and reads them
    (provisioning/fat_cfm.py:31-81). Fork is the layout written; ReadFork is
    what the reader makes of any bytes, None where Python raises. */
module ResourceFork {
  import opened Bytes
  import opened Layout
  import opened Grouping

  type Kind = k: seq<byte> | |k| == 4 witness Zeros(4)
  type i16 = x: int | -0x8000 <= x < 0x8000

  datatype Resource = Resource(kind: Kind, id: i16, attrs: byte, name: Option<seq<byte>>, data: seq<byte>)

  // ------------------------------------------------------------------- the layout

  /** A resource and where its data starts in the data section. */
  datatype Entry = Entry(res: Resource, off: nat)

  function DataPart(r: Resource): seq<byte> {
    Be32(|r.data|) + r.data
  }

  function DataParts(rs: seq<Resource>): (parts: seq<seq<byte>>)
    ensures |parts| == |rs| && forall i :: 0 <= i < |rs| ==> parts[i] == DataPart(rs[i])
  {
    seq(|rs|, i requires 0 <= i < |rs| => DataPart(rs[i]))
  }

  function Entries(rs: seq<Resource>): (es: seq<Entry>)
    ensures |es| == |rs|
    ensures forall i :: 0 <= i < |rs| ==> es[i] == Entry(rs[i], Start<byte>(DataParts(rs), i))
  {
    seq(|rs|, i requires 0 <= i < |rs| => Entry(rs[i], Start<byte>(DataParts(rs), i)))
  }

  function Keys(rs: seq<Resource>): (keys: seq<Kind>)
    ensures |keys| == |rs| && forall i :: 0 <= i < |rs| ==> keys[i] == rs[i].kind
  {
    seq(|rs|, i requires 0 <= i < |rs| => rs[i].kind)
  }

  /** The references in the order the map lists them. */
  function References(rs: seq<Resource>): (es: seq<Entry>)
    ensures |es| == |Order(Keys(rs))|
  {
    Grouped(Keys(rs), Entries(rs))
  }

  function NamePart(e: Entry): seq<byte> {
    if e.res.name.None? then [] else [|e.res.name.value| % 0x100] + e.res.name.value
  }

  function NameParts(es: seq<Entry>): (parts: seq<seq<byte>>)
    ensures |parts| == |es| && forall k :: 0 <= k < |es| ==> parts[k] == NamePart(es[k])
  {
    seq(|es|, k requires 0 <= k < |es| => NamePart(es[k]))
  }

  const NO_NAME: int := 0xFFFF

  function NameAt(es: seq<Entry>, k: nat): nat
    requires k < |es|
  {
    if es[k].res.name.None? then NO_NAME else Start<byte>(NameParts(es), k)
  }

  /** a | b. */
  function Or(a: nat, b: nat): nat
    decreases a
  {
    if a == 0 then b else 2 * Or(a / 2, b / 2) + (if a % 2 == 1 || b % 2 == 1 then 1 else 0)
  }

  lemma {:induction false} OrZero(a: nat)
    ensures Or(a, 0) == a
    decreases a
  {
    if a != 0 {
      OrZero(a / 2);
    }
  }

  /** attrs << 24 | off. */
  function AttrsAndOffset(attrs: byte, off: nat): nat {
    Or(attrs, off / 0x100_0000) * 0x100_0000 + off % 0x100_0000
  }

  function RefPart(es: seq<Entry>, k: nat): (s: seq<byte>)
    requires k < |es|
    ensures |s| == 12
  {
    Be16(es[k].res.id) + Be16(NameAt(es, k)) + Be32(AttrsAndOffset(es[k].res.attrs, es[k].off)) + Be32(0)
  }

  function RefParts(es: seq<Entry>): (parts: seq<seq<byte>>)
    ensures |parts| == |es| && forall k :: 0 <= k < |es| ==> parts[k] == RefPart(es, k)
  {
    seq(|es|, k requires 0 <= k < |es| => RefPart(es, k))
  }

  /** A type, how many it has, where its references start. */
  function KindPart(keys: seq<Kind>, j: nat): (s: seq<byte>)
    requires j < |Kinds(keys)|
    ensures |s| == 8
  {
    Kinds(keys)[j] + Be16(|Of(keys, Kinds(keys)[j])| - 1) +
    Be16(2 + 8 * |Kinds(keys)| + 12 * Start<nat>(Groups(keys), j))
  }

  function KindParts(keys: seq<Kind>): (parts: seq<seq<byte>>)
    ensures |parts| == |Kinds(keys)| && forall j :: 0 <= j < |parts| ==> parts[j] == KindPart(keys, j)
  {
    seq(|Kinds(keys)|, j requires 0 <= j < |Kinds(keys)| => KindPart(keys, j))
  }

  function MapBody(rs: seq<Resource>): seq<byte> {
    Be16(|Kinds(Keys(rs))| - 1) + Flat<byte>(KindParts(Keys(rs))) + Flat<byte>(RefParts(References(rs)))
  }

  function Data(rs: seq<Resource>): seq<byte> {
    Flat<byte>(DataParts(rs))
  }

  function Names(rs: seq<Resource>): seq<byte> {
    Flat<byte>(NameParts(References(rs)))
  }

  /** Where the names start in the map. */
  function NamesAt(rs: seq<Resource>): nat {
    28 + |MapBody(rs)|
  }

  const DATA_AT: nat := 256

  function Head(rs: seq<Resource>): (s: seq<byte>)
    ensures |s| == 16
  {
    Be32(DATA_AT) + Be32(DATA_AT + |Data(rs)|) + Be32(|Data(rs)|) + Be32(NamesAt(rs) + |Names(rs)|)
  }

  function MapHead(rs: seq<Resource>): (s: seq<byte>)
    ensures |s| == 28
  {
    Head(rs) + Zeros(6) + Be16(0) + Be16(28) + Be16(NamesAt(rs))
  }

  function Map(rs: seq<Resource>): seq<byte> {
    MapHead(rs) + MapBody(rs) + Names(rs)
  }

  function Fork(rs: seq<Resource>): seq<byte> {
    Head(rs) + Zeros(240) + Data(rs) + Map(rs)
  }

  /** Every number fits its field, so write_rsrc does not raise. */
  predicate Packs(rs: seq<Resource>) {
    && rs != []
    && NamesAt(rs) <= 0xFFFF
    && DATA_AT + |Data(rs)| < 0x1_0000_0000
    && NamesAt(rs) + |Names(rs)| < 0x1_0000_0000
    && (forall k :: 0 <= k < |References(rs)| ==> NamePacks(References(rs), k))
  }

  predicate NamePacks(es: seq<Entry>, k: nat)
    requires k < |es|
  {
    es[k].res.name.Some? ==> |es[k].res.name.value| < 0x100 && NameAt(es, k) <= 0xFFFF
  }

  // ------------------------------------------------------------------- the reader

  /** What read_rsrc has at hand past the header. */
  datatype View = View(fork: seq<byte>, rmap: seq<byte>, dataAt: nat, typesAt: nat, namesAt: nat)

  function Signed16(x: u16): i16 {
    if x < 0x8000 then x else x - 0x1_0000
  }

  function ReadName(v: View, nameOff: nat): Option<Option<seq<byte>>> {
    if nameOff == NO_NAME then Some(None)
    else
      var p := v.namesAt + nameOff;
      if p >= |v.rmap| then None else Some(Some(Slice(v.rmap, p + 1, p + 1 + v.rmap[p])))
  }

  function ReadRef(v: View, kind: Kind, e: nat): Option<Resource> {
    if e + 8 > |v.rmap| then None
    else
      var word := Get32(v.rmap, e + 4);
      var off := v.dataAt + word % 0x100_0000;
      if off + 4 > |v.fork| then None
      else
        var name := ReadName(v, Get16(v.rmap, e + 2));
        if name.None? then None
        else Some(Resource(kind, Signed16(Get16(v.rmap, e)), word / 0x100_0000, name.value,
                           Slice(v.fork, off + 4, off + 4 + Get32(v.fork, off))))
  }

  function ReadRefs(v: View, kind: Kind, at: nat, n: nat): (r: Option<seq<Resource>>)
    ensures r.Some? ==> |r.value| == n
  {
    if n == 0 then Some([])
    else
      var before := ReadRefs(v, kind, at, n - 1);
      if before.None? then None
      else
        var last := ReadRef(v, kind, at + 12 * (n - 1));
        if last.None? then None else Some(before.value + [last.value])
  }

  function ReadKinds(v: View, n: nat): Option<seq<Resource>> {
    if n == 0 then Some([])
    else
      var before := ReadKinds(v, n - 1);
      var at := v.typesAt + 2 + 8 * (n - 1);
      if before.None? || at + 8 > |v.rmap| then None
      else
        var group := ReadRefs(v, v.rmap[at..at + 4], v.typesAt + Get16(v.rmap, at + 6), Get16(v.rmap, at + 4) + 1);
        if group.None? then None else Some(before.value + group.value)
  }

  function ReadFork(fork: seq<byte>): Option<seq<Resource>> {
    if |fork| < 16 then Some([])
    else
      var dataAt, mapAt, size := Get32(fork, 0), Get32(fork, 4), Get32(fork, 12);
      var rmap := Slice(fork, mapAt, mapAt + size);
      if |rmap| < 28 then None
      else
        var v := View(fork, rmap, dataAt, Get16(rmap, 24), Get16(rmap, 26));
        if v.typesAt + 2 > |rmap| then None else ReadKinds(v, Get16(rmap, v.typesAt) + 1)
  }
}
