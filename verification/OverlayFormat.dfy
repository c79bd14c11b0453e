/** The overlay file: a header, then block, meta and commit records. Log is what
    a load makes of it; Record lists are the meaning it is compared with
    (executor/host/overlay.h:3-20, executor/host/overlay.cpp:178-273). */
module OverlayFormat {
  import opened Bytes
  import opened OverlayMeta

  const BLOCK: nat := 4096
  const HEAD: nat := 12
  const META_MAX: nat := 0x1_0000
  const HEADER: seq<byte> := [88, 79, 86, 76, 1, 0, 0, 0]  // XOVL, format 1

  type Page = p: seq<byte> | |p| == BLOCK witness Zeros(BLOCK)

  datatype Record =
    | Block(number: u32, version: u32, data: Page)
    | Meta(json: seq<byte>, unused: u32)
    | Commit(version: u32, reset: u32)

  function Head(kind: u32, a: u32, b: u32): (s: seq<byte>)
    ensures |s| == HEAD
  {
    Le32(kind) + Le32(a) + Le32(b)
  }

  function Kind(r: Record): u32 {
    match r
    case Block(_, _, _) => 1
    case Meta(_, _) => 2
    case Commit(_, _) => 3
  }

  function FieldA(r: Record): u32 {
    match r
    case Block(number, _, _) => number
    case Meta(json, _) => |json| % 0x1_0000_0000
    case Commit(version, _) => version
  }

  function FieldB(r: Record): u32 {
    match r
    case Block(_, version, _) => version
    case Meta(_, unused) => unused
    case Commit(_, reset) => reset
  }

  function RecordBody(r: Record): seq<byte> {
    match r
    case Block(_, _, data) => data
    case Meta(json, _) => json
    case Commit(_, _) => []
  }

  function RecordBytes(r: Record): (s: seq<byte>)
    ensures |s| == HEAD + |RecordBody(r)|
  {
    Head(Kind(r), FieldA(r), FieldB(r)) + RecordBody(r)
  }

  datatype Records = Nil | Cons(head: Record, tail: Records)

  function Encode(records: Records): seq<byte> {
    if records.Nil? then [] else RecordBytes(records.head) + Encode(records.tail)
  }

  /** The record at AT; None where load stops: too short, unknown or a meta
      record over 64 KB. */
  function Parse(file: seq<byte>, at: nat): (r: Option<Record>)
    ensures r.Some? ==> Fits(r.value) && at + |RecordBytes(r.value)| <= |file|
  {
    if at + HEAD > |file| then None
    else ParseBody(file, at + HEAD, GetLe32(file, at), GetLe32(file, at + 4), GetLe32(file, at + 8))
  }

  function ParseBody(file: seq<byte>, body: nat, kind: u32, a: u32, b: u32): (r: Option<Record>)
    requires body <= |file|
    ensures r.Some? ==> Fits(r.value) && body + |RecordBody(r.value)| <= |file|
    ensures r.Some? ==> Kind(r.value) == kind && FieldA(r.value) == a && FieldB(r.value) == b
  {
    if kind == 1 then
      if body + BLOCK > |file| then None else Some(Block(a, b, file[body..body + BLOCK]))
    else if kind == 2 then
      if body + a > |file| || a > META_MAX then None else Some(Meta(file[body..body + a], b))
    else if kind == 3 then Some(Commit(a, b))
    else None
  }

  predicate Fits(r: Record) {
    r.Meta? ==> |r.json| <= META_MAX
  }

  predicate AllFit(records: Records) {
    records.Nil? || (Fits(records.head) && AllFit(records.tail))
  }

  // ------------------------------------------------------------ what a load does

  datatype At = At(version: u32, offset: nat)
  datatype Pending = Pending(number: u32, at: At)

  /** What the commits so far vouch for: METAS are the meta records that
      counted, LENGTH is the file up to the last commit. */
  datatype Log = Log(
    index: map<u32, At>, version: u32, reset: u32, dead: nat, metas: seq<seq<byte>>, length: nat)

  /** A load in progress: PENDING and META wait for a commit. */
  datatype Cursor = Cursor(log: Log, at: nat, pending: seq<Pending>, meta: Option<seq<byte>>)

  const START: Cursor := Cursor(Log(map[], 0, 0, 0, [], 8), 8, [], None)

  /** PENDING put into INDEX, a later block of a number over an earlier. */
  function Settle(index: map<u32, At>, pending: seq<Pending>): map<u32, At>
    decreases |pending|
  {
    if pending == [] then index else Settle(index[pending[0].number := pending[0].at], pending[1..])
  }

  /** How many blocks of the file that supersedes. */
  function Superseded(index: map<u32, At>, pending: seq<Pending>): nat
    decreases |pending|
  {
    if pending == [] then 0
    else
      (if pending[0].number in index then 1 else 0) +
      Superseded(index[pending[0].number := pending[0].at], pending[1..])
  }

  /** The log after a commit; with a new reset version the index starts over. */
  function Committed(c: Cursor, version: u32, reset: u32): Log {
    var log := c.log;
    var drop := reset != log.reset;
    var kept := if drop then map[] else log.index;
    Log(Settle(kept, c.pending), version, reset,
        log.dead + (if drop then |log.index| else 0) + Superseded(kept, c.pending),
        if c.meta.Some? then log.metas + [c.meta.value] else log.metas, c.at + HEAD)
  }

  function Step(c: Cursor, r: Record): (d: Cursor)
    ensures d.at == c.at + |RecordBytes(r)|
    ensures !r.Commit? ==> d.log == c.log
  {
    match r
    case Block(number, version, data) =>
      c.(at := c.at + HEAD + BLOCK, pending := c.pending + [Pending(number, At(version, c.at + HEAD))])
    case Meta(json, _) => c.(at := c.at + HEAD + |json|, meta := Some(json))
    case Commit(version, reset) => Cursor(Committed(c, version, reset), c.at + HEAD, [], None)
  }

  function Fold(c: Cursor, records: Records): Cursor
    decreases records
  {
    if records.Nil? then c else Fold(Step(c, records.head), records.tail)
  }

  function Scan(file: seq<byte>, c: Cursor): Cursor
    decreases |file| - c.at
  {
    var r := Parse(file, c.at);
    if r.None? then c else Scan(file, Step(c, r.value))
  }

  predicate HasHeader(file: seq<byte>) {
    |file| >= |HEADER| && file[..|HEADER|] == HEADER
  }

  /** What a load of FILE finds committed in it. */
  function Load(file: seq<byte>): Log {
    Scan(file, START).log
  }

  /** The image's name as the meta records leave it, NAME without one. */
  function NameOf(metas: seq<seq<byte>>, name: seq<byte>): seq<byte> {
    if metas == [] then name else ParseName(metas[|metas| - 1], NameOf(metas[..|metas| - 1], name))
  }

  function SizeOf(metas: seq<seq<byte>>): nat {
    if metas == [] then 0 else ParseSize(metas[|metas| - 1], SizeOf(metas[..|metas| - 1]))
  }

  // ------------------------------------------- one record: printer against parser

  /** The records as they lie in the file, their numbers lowest byte first. */
  lemma RecordOnDisk(r: Record)
    ensures HEADER == [88, 79, 86, 76, 1, 0, 0, 0]
    ensures RecordBytes(r) ==
            match r
            case Block(number, version, data) => [1, 0, 0, 0] + Le(number, 4) + Le(version, 4) + data
            case Meta(json, unused) => [2, 0, 0, 0] + Le(|json| % 0x1_0000_0000, 4) + Le(unused, 4) + json
            case Commit(version, reset) => [3, 0, 0, 0] + Le(version, 4) + Le(reset, 4)
  {
    hide Le;
    ByteOrder(Kind(r), 0, 0, 0);
    Associates([Kind(r), 0, 0, 0], Le(FieldA(r), 4), Le(FieldB(r), 4));
  }

  lemma HeadAt(file: seq<byte>, at: nat, kind: u32, a: u32, b: u32)
    requires at + HEAD <= |file|
    ensures file[at..at + HEAD] == Head(kind, a, b)
       <==> GetLe32(file, at) == kind && GetLe32(file, at + 4) == a && GetLe32(file, at + 8) == b
  {
    hide Le32, GetLe32;
    TakeApart(file, at, Le32(kind) + Le32(a), Le32(b));
    TakeApart(file, at, Le32(kind), Le32(a));
    Le32RoundTrip(kind, file, at);
    Le32RoundTrip(a, file, at + 4);
    Le32RoundTrip(b, file, at + 8);
  }

  predicate HeadMatches(file: seq<byte>, at: nat, r: Record) {
    at + HEAD <= |file| && file[at..at + HEAD] == Head(Kind(r), FieldA(r), FieldB(r))
  }

  lemma SplitRecord(file: seq<byte>, at: nat, r: Record)
    requires at + |RecordBytes(r)| <= |file|
    ensures file[at..at + |RecordBytes(r)|] == RecordBytes(r)
       <==> HeadMatches(file, at, r) && file[at + HEAD..at + |RecordBytes(r)|] == RecordBody(r)
  {
    hide Head, RecordBody, Kind, FieldA, FieldB;
    var s, head := file[at..at + |RecordBytes(r)|], Head(Kind(r), FieldA(r), FieldB(r));
    assert s[..HEAD] == file[at..at + HEAD] && s[HEAD..] == file[at + HEAD..at + |RecordBytes(r)|];
    assert s == s[..HEAD] + s[HEAD..];
    assert RecordBytes(r)[..HEAD] == head && RecordBytes(r)[HEAD..] == RecordBody(r);
  }

  lemma ParseHead(file: seq<byte>, at: nat, r: Record)
    requires HeadMatches(file, at, r)
    ensures Parse(file, at) == ParseBody(file, at + HEAD, Kind(r), FieldA(r), FieldB(r))
  {
    HeadAt(file, at, Kind(r), FieldA(r), FieldB(r));
  }

  lemma HeadOfParse(file: seq<byte>, at: nat, r: Record)
    requires Parse(file, at) == Some(r)
    ensures HeadMatches(file, at, r)
  {
    HeadAt(file, at, Kind(r), FieldA(r), FieldB(r));
  }

  /** Parse finds exactly the record whose bytes are there. */
  lemma ParseIffBytes(file: seq<byte>, at: nat, r: Record)
    requires Fits(r)
    ensures Parse(file, at) == Some(r)
       <==> at + |RecordBytes(r)| <= |file| && file[at..at + |RecordBytes(r)|] == RecordBytes(r)
  {
    hide Parse, Head;
    if at + |RecordBytes(r)| <= |file| {
      SplitRecord(file, at, r);
      if HeadMatches(file, at, r) {
        ParseHead(file, at, r);
      } else if Parse(file, at) == Some(r) {
        HeadOfParse(file, at, r);
      }
    }
  }

  /** A record cut short is no record. */
  lemma ParseCutShort(file: seq<byte>, at: nat, r: Record)
    requires at <= |file| < at + |RecordBytes(r)|
    requires r.Meta? ==> |r.json| < U32_LIMIT
    requires file[at..] == RecordBytes(r)[..|file| - at]
    ensures Parse(file, at).None?
  {
    hide Parse, Head;
    if at + HEAD <= |file| {
      var head := Head(Kind(r), FieldA(r), FieldB(r));
      assert file[at..at + HEAD] == file[at..][..HEAD] == RecordBytes(r)[..HEAD] == head;
      ParseHead(file, at, r);
    }
  }

  lemma ParsePrefix(file: seq<byte>, more: seq<byte>, at: nat)
    requires Parse(file, at).Some?
    ensures Parse(file + more, at) == Parse(file, at)
  {
    var r := Parse(file, at).value;
    ParseIffBytes(file, at, r);
    assert (file + more)[at..at + |RecordBytes(r)|] == file[at..at + |RecordBytes(r)|];
    ParseIffBytes(file + more, at, r);
  }
}
