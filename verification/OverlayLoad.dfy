/** What load makes of a file, proved about Scan: it reads back any list of
    records, ignores a last write cut short, and accounts for every block record
    (executor/host/overlay.cpp:206-272). */
module OverlayLoad {
  import opened Bytes
  import opened OverlayFormat

  /** Everything in FILE is committed. */
  predicate Whole(file: seq<byte>) {
    HasHeader(file) && Scan(file, START) == Cursor(Load(file), |file|, [], None) &&
    Load(file).length == |file|
  }

  // ------------------------------------------------ records appended to a file

  lemma {:induction false} ScanPrefix(file: seq<byte>, more: seq<byte>, c: Cursor)
    ensures Scan(file + more, c) == Scan(file + more, Scan(file, c))
    decreases |file| - c.at
  {
    hide Parse, Step;
    var r := Parse(file, c.at);
    if r.Some? {
      ParsePrefix(file, more, c.at);
      ScanPrefix(file, more, Step(c, r.value));
    }
  }

  lemma {:induction false} ScanEncoded(file: seq<byte>, c: Cursor, records: Records)
    requires AllFit(records) && c.at + |Encode(records)| <= |file|
    requires file[c.at..c.at + |Encode(records)|] == Encode(records)
    ensures Scan(file, c) == Scan(file, Fold(c, records))
    ensures Fold(c, records).at == c.at + |Encode(records)|
    decreases records
  {
    hide Parse, RecordBytes, Step;
    if records.Cons? {
      var r, rest := records.head, records.tail;
      TakeApart(file, c.at, RecordBytes(r), Encode(rest));
      ParseIffBytes(file, c.at, r);
      ScanEncoded(file, Step(c, r), rest);
    }
  }

  lemma ScanAtEnd(file: seq<byte>, c: Cursor)
    requires c.at == |file|
    ensures Scan(file, c) == c
  {
  }

  /** A file with records appended loads to what it held with them applied. */
  lemma LoadAppended(file: seq<byte>, records: Records)
    requires Whole(file) && AllFit(records)
    ensures Scan(file + Encode(records), START) == Fold(Scan(file, START), records)
    ensures Fold(Scan(file, START), records).at == |file + Encode(records)|
  {
    hide Scan, Encode, Fold, HasHeader;
    var all := file + Encode(records);
    ScanPrefix(file, Encode(records), START);
    assert Scan(file, START).at == |file|;
    assert all[|file|..|file| + |Encode(records)|] == Encode(records);
    ScanEncoded(all, Scan(file, START), records);
    ScanAtEnd(all, Fold(Scan(file, START), records));
  }

  /** The header with nothing after it: a new overlay. */
  lemma HeaderWhole()
    ensures Whole(HEADER) && Scan(HEADER, START) == START
  {
  }

  // --------------------------------------------------------- a write cut short

  /** A write as sync makes it: its commit, if any, comes last. */
  predicate CommitLast(records: Records) {
    match records
    case Nil => true
    case Cons(r, rest) =>
      (r.Commit? ==> rest.Nil?) && (r.Meta? ==> |r.json| < U32_LIMIT) && CommitLast(rest)
  }

  lemma CutAfter(file: seq<byte>, at: nat, a: seq<byte>, b: seq<byte>)
    requires at + |a| <= |file| <= at + |a| + |b|
    requires file[at..] == (a + b)[..|file| - at]
    ensures file[at..at + |a|] == a && file[at + |a|..] == b[..|file| - at - |a|]
  {
    var cut := b[..|file| - at - |a|];
    assert (a + b)[..|file| - at] == a + cut;
    TakeApart(file, at, a, cut);
  }

  lemma {:induction false} ScanCut(file: seq<byte>, c: Cursor, records: Records)
    requires CommitLast(records) && c.at <= |file| < c.at + |Encode(records)|
    requires file[c.at..] == Encode(records)[..|file| - c.at]
    ensures Scan(file, c).log == c.log
    decreases records
  {
    hide Parse, RecordBytes, Step;
    var r, rest := records.head, records.tail;
    var n := |RecordBytes(r)|;
    if |file| < c.at + n {
      assert file[c.at..] == RecordBytes(r)[..|file| - c.at];
      ParseCutShort(file, c.at, r);
    } else {
      CutAfter(file, c.at, RecordBytes(r), Encode(rest));
      if Fits(r) {
        ParseIffBytes(file, c.at, r);
        ScanCut(file, Step(c, r), rest);
      } else {
        LongMetaStops(file, c.at, r);
      }
    }
  }

  lemma LongMetaStops(file: seq<byte>, at: nat, r: Record)
    requires r.Meta? && META_MAX < |r.json| < U32_LIMIT
    requires at + |RecordBytes(r)| <= |file| && file[at..at + |RecordBytes(r)|] == RecordBytes(r)
    ensures Parse(file, at).None?
  {
    SplitRecord(file, at, r);
    ParseHead(file, at, r);
  }

  /** Atomicity: whatever strict part of a write reached the file, a load finds
      what was there before it and cuts the file back to its length then. */
  lemma LoadCutShort(file: seq<byte>, records: Records, k: nat)
    requires Whole(file) && CommitLast(records) && k < |Encode(records)|
    ensures Load(file + Encode(records)[..k]) == Load(file)
    ensures (file + Encode(records)[..k])[..Load(file).length] == file
  {
    var part := Encode(records)[..k];
    ScanPrefix(file, part, START);
    assert (file + part)[|file|..] == part;
    ScanCut(file + part, Scan(file, START), records);
  }

  /** A meta record over 64 KB stops every load: what was written with it and
      after it is lost. */
  lemma LoadStopsAtLongMeta(file: seq<byte>, json: seq<byte>, more: seq<byte>)
    requires Whole(file) && META_MAX < |json| < U32_LIMIT
    ensures Load(file + RecordBytes(Meta(json, 0)) + more) == Load(file)
  {
    var r := Meta(json, 0);
    var all := file + (RecordBytes(r) + more);
    assert file + RecordBytes(r) + more == all;
    ScanPrefix(file, RecordBytes(r) + more, START);
    assert all[|file|..|file| + |RecordBytes(r)|] == RecordBytes(r);
    LongMetaStops(all, |file|, r);
  }

  // -------------------------------------------- every file is a list of records

  function ReadRecords(file: seq<byte>, at: nat): Records
    decreases |file| - at
  {
    var r := Parse(file, at);
    if r.None? then Nil else Cons(r.value, ReadRecords(file, at + |RecordBytes(r.value)|))
  }

  lemma {:induction false} ScanIsFold(file: seq<byte>, c: Cursor)
    ensures Scan(file, c) == Fold(c, ReadRecords(file, c.at))
    decreases |file| - c.at
  {
    hide Parse, RecordBytes, Step;
    var p := Parse(file, c.at);
    if p.Some? {
      ScanIsFold(file, Step(c, p.value));
    }
  }

  lemma {:induction false} ReadRecordsBytes(file: seq<byte>, at: nat)
    requires at <= |file|
    ensures var encoded := Encode(ReadRecords(file, at));
            at + |encoded| <= |file| && file[at..at + |encoded|] == encoded
    decreases |file| - at
  {
    hide Parse, RecordBytes;
    var p := Parse(file, at);
    if p.Some? {
      var r := p.value;
      var next := at + |RecordBytes(r)|;
      ReadRecordsBytes(file, next);
      ParseIffBytes(file, at, r);
      TakeApart(file, at, RecordBytes(r), Encode(ReadRecords(file, next)));
    }
  }

  lemma {:induction false} ReadRecordsFit(file: seq<byte>, at: nat)
    ensures AllFit(ReadRecords(file, at))
    decreases |file| - at
  {
    hide Parse, RecordBytes;
    var p := Parse(file, at);
    if p.Some? {
      ReadRecordsFit(file, at + |RecordBytes(p.value)|);
    }
  }

  lemma {:induction false} ReadRecordsStop(file: seq<byte>, at: nat)
    ensures Parse(file, at + |Encode(ReadRecords(file, at))|).None?
    decreases |file| - at
  {
    hide Parse, RecordBytes;
    var p := Parse(file, at);
    if p.Some? {
      ReadRecordsStop(file, at + |RecordBytes(p.value)|);
    }
  }

  /** Any file with a header starts with the encoding of a list of records, after
      which no record can be read; what a load finds is those records applied in
      turn. A committed file is nothing more. */
  lemma LoadIsFold(file: seq<byte>)
    requires HasHeader(file)
    ensures var records := ReadRecords(file, 8);
            var n := 8 + |Encode(records)|;
            && n <= |file| && file[..n] == HEADER + Encode(records)
            && AllFit(records) && Parse(file, n).None?
            && Load(file) == Fold(START, records).log
            && (Whole(file) ==> n == |file|)
  {
    hide Encode, Fold, ReadRecords, Parse, Scan;
    var records := ReadRecords(file, 8);
    ScanIsFold(file, START);
    ReadRecordsBytes(file, 8);
    ReadRecordsFit(file, 8);
    ReadRecordsStop(file, 8);
    assert file[..8 + |Encode(records)|] == file[..8] + file[8..8 + |Encode(records)|];
    if Whole(file) {
      FoldEnds(START, records);
    }
  }

  lemma {:induction false} FoldEnds(c: Cursor, records: Records)
    ensures Fold(c, records).at == c.at + |Encode(records)|
    decreases records
  {
    hide RecordBytes;
    if records.Cons? {
      FoldEnds(Step(c, records.head), records.tail);
    }
  }

  // ------------------------------------------------------- the committed prefix

  /** C is where a scan of FILE's first bytes alone ends. */
  predicate Reached(file: seq<byte>, c: Cursor) {
    && 8 <= c.log.length <= c.at <= |file|
    && Scan(file[..c.at], START) == c
    && Scan(file[..c.log.length], START) == Cursor(c.log, c.log.length, [], None)
  }

  lemma StepReached(file: seq<byte>, c: Cursor, r: Record)
    requires Reached(file, c) && Parse(file, c.at) == Some(r)
    ensures Reached(file, Step(c, r))
  {
    hide Parse, Scan, RecordBytes;
    var d := Step(c, r);
    var front, more := file[..c.at], file[c.at..d.at];
    assert file[..d.at] == front + more;
    ScanPrefix(front, more, START);
    ParseIffBytes(file, c.at, r);
    assert (front + more)[c.at..c.at + |RecordBytes(r)|] == file[c.at..c.at + |RecordBytes(r)|];
    ParseIffBytes(front + more, c.at, r);
    ScanStep(front + more, c, r);
    ScanAtEnd(file[..d.at], d);
  }

  lemma ScanStep(file: seq<byte>, c: Cursor, r: Record)
    requires Parse(file, c.at) == Some(r)
    ensures Scan(file, c) == Scan(file, Step(c, r))
  {
    hide Parse, Step;
  }

  lemma {:induction false} ScanReached(file: seq<byte>, c: Cursor)
    requires Reached(file, c)
    ensures Reached(file, Scan(file, c))
    decreases |file| - c.at
  {
    hide Parse, Step, Reached;
    var p := Parse(file, c.at);
    if p.Some? {
      StepReached(file, c, p.value);
      ScanReached(file, Step(c, p.value));
    }
  }

  /** Cutting a file back to its last commit leaves a file that is all
      committed and loads to the same. */
  lemma CutBackIsWhole(file: seq<byte>)
    requires HasHeader(file)
    ensures 8 <= Load(file).length <= |file|
    ensures var kept := file[..Load(file).length]; Whole(kept) && Load(kept) == Load(file)
  {
    assert file[..8] == HEADER;
    HeaderWhole();
    ScanReached(file, START);
    var n := Load(file).length;
    assert file[..n][..8] == file[..8];
  }

  // ------------------------------------------------------ counting block records

  function Blocks(records: Records): nat {
    if records.Nil? then 0 else (if records.head.Block? then 1 else 0) + Blocks(records.tail)
  }

  lemma {:induction false} SettleCounts(index: map<u32, At>, pending: seq<Pending>)
    ensures |Settle(index, pending)| + Superseded(index, pending) == |index| + |pending|
    decreases |pending|
  {
    if pending != [] {
      var p := pending[0];
      var index' := index[p.number := p.at];
      assert index'.Keys == index.Keys + {p.number};
      assert |index'| == |index'.Keys| && |index| == |index.Keys|;
      SettleCounts(index', pending[1..]);
    }
  }

  lemma {:induction false} FoldCounts(c: Cursor, records: Records)
    ensures var d := Fold(c, records);
            |d.log.index| + d.log.dead + |d.pending| ==
            |c.log.index| + c.log.dead + |c.pending| + Blocks(records)
    decreases records
  {
    if records.Cons? {
      var r := records.head;
      if r.Commit? {
        SettleCounts(if r.reset == c.log.reset then c.log.index else map[], c.pending);
      }
      FoldCounts(Step(c, r), records.tail);
    }
  }

  /** Space accounting: the block records of a committed file are its live ones
      and its dead ones. */
  lemma BlocksAreLiveOrDead(file: seq<byte>)
    requires Whole(file)
    ensures Blocks(ReadRecords(file, 8)) == |Load(file).index| + Load(file).dead
  {
    ScanIsFold(file, START);
    FoldCounts(START, ReadRecords(file, 8));
  }

  // ------------------------------------------------------ where the index points

  /** AT is where FILE has block NUMBER's data, in a block record of it. */
  predicate Points(file: seq<byte>, number: u32, at: At) {
    && HEAD <= at.offset && at.offset + BLOCK <= |file|
    && Parse(file, at.offset - HEAD) == Some(Block(number, at.version, file[at.offset..at.offset + BLOCK]))
  }

  ghost predicate AllPoint(file: seq<byte>, c: Cursor) {
    && (forall b :: b in c.log.index ==> Points(file, b, c.log.index[b]))
    && (forall p :: p in c.pending ==> Points(file, p.number, p.at))
  }

  lemma {:induction false} SettlePoints(file: seq<byte>, index: map<u32, At>, pending: seq<Pending>)
    requires forall b :: b in index ==> Points(file, b, index[b])
    requires forall p :: p in pending ==> Points(file, p.number, p.at)
    ensures forall b :: b in Settle(index, pending) ==> Points(file, b, Settle(index, pending)[b])
    decreases |pending|
  {
    if pending != [] {
      var p := pending[0];
      assert Points(file, p.number, p.at);
      SettlePoints(file, index[p.number := p.at], pending[1..]);
    }
  }

  lemma StepPoints(file: seq<byte>, c: Cursor, r: Record)
    requires Parse(file, c.at) == Some(r) && AllPoint(file, c)
    ensures AllPoint(file, Step(c, r))
  {
    match r
    case Block(number, version, data) => BlockPoints(file, c.at, r);
    case Meta(_, _) =>
    case Commit(version, reset) => CommitPoints(file, c, version, reset);
  }

  lemma CommitPoints(file: seq<byte>, c: Cursor, version: u32, reset: u32)
    requires AllPoint(file, c)
    ensures var index := Committed(c, version, reset).index;
            forall b :: b in index ==> Points(file, b, index[b])
  {
    SettlePoints(file, if reset == c.log.reset then c.log.index else map[], c.pending);
  }

  lemma BlockPoints(file: seq<byte>, at: nat, r: Record)
    requires Parse(file, at) == Some(r) && r.Block?
    ensures Points(file, r.number, At(r.version, at + HEAD))
  {
    ParseIffBytes(file, at, r);
    SplitRecord(file, at, r);
  }

  lemma {:induction false} ScanPoints(file: seq<byte>, c: Cursor)
    requires c.at <= |file| && AllPoint(file, c)
    ensures AllPoint(file, Scan(file, c))
    decreases |file| - c.at
  {
    hide Parse, Step, AllPoint;
    var p := Parse(file, c.at);
    if p.Some? {
      StepPoints(file, c, p.value);
      ScanPoints(file, Step(c, p.value));
    }
  }

  /** Every entry of a loaded index is a block record of that number and version. */
  lemma LoadPoints(file: seq<byte>)
    requires HasHeader(file)
    ensures var index := Load(file).index;
            forall b :: b in index ==> Points(file, b, index[b])
  {
    ScanPoints(file, START);
  }

  // ------------------------------------------------------- lists of block records

  function Append(a: Records, b: Records): Records {
    if a.Nil? then b else Cons(a.head, Append(a.tail, b))
  }

  lemma {:induction false} EncodeAppend(a: Records, b: Records)
    ensures Encode(Append(a, b)) == Encode(a) + Encode(b)
  {
    if a.Cons? {
      EncodeAppend(a.tail, b);
    }
  }

  lemma {:induction false} FoldAppend(c: Cursor, a: Records, b: Records)
    ensures Fold(c, Append(a, b)) == Fold(Fold(c, a), b)
    decreases a
  {
    if a.Cons? {
      FoldAppend(Step(c, a.head), a.tail, b);
    }
  }

  lemma {:induction false} FitAppend(a: Records, b: Records)
    ensures AllFit(Append(a, b)) <==> AllFit(a) && AllFit(b)
  {
    if a.Cons? {
      FitAppend(a.tail, b);
    }
  }

  const BLOCK_RECORD: nat := 4108  // HEAD + BLOCK

  function Least(keys: set<u32>): (r: u32)
    requires keys != {}
    ensures r in keys && forall b :: b in keys ==> r <= b
  {
    LeastExists(keys);
    var r :| r in keys && forall b :: b in keys ==> r <= b;
    r
  }

  lemma LeastExists(keys: set<u32>)
    requires keys != {}
    ensures exists r :: r in keys && forall b :: b in keys ==> r <= b
  {
    var r := FindLeast(keys);
  }

  lemma {:induction false} FindLeast(keys: set<u32>) returns (r: u32)
    requires keys != {}
    ensures r in keys && forall b :: b in keys ==> r <= b
  {
    var x :| x in keys;
    var rest := keys - {x};
    assert forall b :: b in keys ==> b == x || b in rest;
    r := x;
    if rest != {} {
      var y := FindLeast(rest);
      r := if x < y then x else y;
    }
  }

  /** A block record for each of KEYS, in ascending order. */
  function BlockRecords(keys: set<u32>, pages: map<u32, Page>, versions: map<u32, u32>): (r: Records)
    requires keys <= pages.Keys && keys <= versions.Keys
    ensures AllFit(r) && CommitLast(r)
  {
    if keys == {} then Nil
    else
      var b := Least(keys);
      Cons(Block(b, versions[b], pages[b]), BlockRecords(keys - {b}, pages, versions))
  }

  /** Where those records have their data, the first record being at START. */
  function Placed(keys: set<u32>, versions: map<u32, u32>, start: nat): (m: map<u32, At>)
    requires keys <= versions.Keys
    ensures m.Keys == keys
  {
    if keys == {} then map[]
    else
      var b := Least(keys);
      Placed(keys - {b}, versions, start + BLOCK_RECORD)[b := At(versions[b], start + HEAD)]
  }

  function PendingOf(keys: set<u32>, versions: map<u32, u32>, start: nat): seq<Pending>
    requires keys <= versions.Keys
  {
    if keys == {} then []
    else
      var b := Least(keys);
      [Pending(b, At(versions[b], start + HEAD))] + PendingOf(keys - {b}, versions, start + BLOCK_RECORD)
  }

  lemma AppendTwice<T>(a: seq<T>, x: T, b: seq<T>)
    ensures (a + [x]) + b == a + ([x] + b)
  {
  }

  lemma {:induction false} FoldBlocks(c: Cursor, keys: set<u32>, pages: map<u32, Page>, versions: map<u32, u32>)
    requires keys <= pages.Keys && keys <= versions.Keys
    ensures Fold(c, BlockRecords(keys, pages, versions)) ==
            c.(at := c.at + |Encode(BlockRecords(keys, pages, versions))|,
               pending := c.pending + PendingOf(keys, versions, c.at))
    decreases keys
  {
    if keys != {} {
      var b := Least(keys);
      var r := Block(b, versions[b], pages[b]);
      assert |RecordBytes(r)| == BLOCK_RECORD;
      FoldBlocks(Step(c, r), keys - {b}, pages, versions);
      var p := Pending(b, At(versions[b], c.at + HEAD));
      AppendTwice(c.pending, p, PendingOf(keys - {b}, versions, c.at + BLOCK_RECORD));
    } else {
      assert c.pending + [] == c.pending;
    }
  }

  lemma {:induction false} SettlePlaced(index: map<u32, At>, keys: set<u32>, versions: map<u32, u32>, start: nat)
    requires keys <= versions.Keys
    ensures Settle(index, PendingOf(keys, versions, start)) == index + Placed(keys, versions, start)
    decreases keys
  {
    if keys != {} {
      var b := Least(keys);
      var rest := Placed(keys - {b}, versions, start + BLOCK_RECORD);
      var at := At(versions[b], start + HEAD);
      SettlePlaced(index[b := at], keys - {b}, versions, start + BLOCK_RECORD);
      assert index[b := at] + rest == index + rest[b := at];
    }
  }

  /** How many of KEYS the index has: blocks written again. */
  function Shared(keys: set<u32>, index: map<u32, At>): nat {
    |keys * index.Keys|
  }

  lemma SharedNone(keys: set<u32>, index: map<u32, At>)
    requires keys == {} || index == map[]
    ensures Shared(keys, index) == 0
  {
    assert keys * index.Keys == {};
  }

  lemma CountOne(keys: set<u32>, index: map<u32, At>, b: u32, at: At)
    requires b in keys
    ensures Shared(keys, index) == Shared(keys - {b}, index[b := at]) + if b in index then 1 else 0
  {
    var rest := (keys - {b}) * index[b := at].Keys;
    if b in index {
      assert keys * index.Keys == rest + {b};
    } else {
      assert keys * index.Keys == rest;
    }
  }

  lemma {:induction false} SupersededPlaced(index: map<u32, At>, keys: set<u32>, versions: map<u32, u32>, start: nat)
    requires keys <= versions.Keys
    ensures Superseded(index, PendingOf(keys, versions, start)) == Shared(keys, index)
    decreases keys
  {
    hide Least, Shared;
    if keys == {} {
      SharedNone(keys, index);
    } else {
      var b := Least(keys);
      var at := At(versions[b], start + HEAD);
      SupersededPlaced(index[b := at], keys - {b}, versions, start + BLOCK_RECORD);
      CountOne(keys, index, b, at);
    }
  }

  lemma BlockDataAt(file: seq<byte>, at: nat, r: Record)
    requires r.Block? && at + |RecordBytes(r)| <= |file| && file[at..at + |RecordBytes(r)|] == RecordBytes(r)
    ensures |RecordBytes(r)| == BLOCK_RECORD && file[at + HEAD..at + HEAD + BLOCK] == r.data
  {
    SplitRecord(file, at, r);
  }

  /** The records' data is where Placed has it. */
  lemma {:induction false} PlacedData(
      file: seq<byte>, start: nat, keys: set<u32>, pages: map<u32, Page>, versions: map<u32, u32>, b: u32)
    requires b in keys && keys <= pages.Keys && keys <= versions.Keys
    requires var encoded := Encode(BlockRecords(keys, pages, versions));
             start + |encoded| <= |file| && file[start..start + |encoded|] == encoded
    ensures var at := Placed(keys, versions, start)[b];
            at.version == versions[b] && start + HEAD <= at.offset <= at.offset + BLOCK <= |file| &&
            file[at.offset..at.offset + BLOCK] == pages[b]
    decreases keys
  {
    hide RecordBytes, Least;
    var k := Least(keys);
    var r := Block(k, versions[k], pages[k]);
    var rest := BlockRecords(keys - {k}, pages, versions);
    TakeApart(file, start, RecordBytes(r), Encode(rest));
    if b == k {
      BlockDataAt(file, start, r);
    } else {
      PlacedData(file, start + BLOCK_RECORD, keys - {k}, pages, versions, b);
    }
  }
}
