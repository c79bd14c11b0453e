/** Sync, compaction and reopening as transformations of the file: each keeps
    what the disk reads as, and the file always loads to what is in memory
    (executor/host/overlay.cpp:178-273, 387-498). */
module OverlayCommit {
  import opened Bytes
  import opened OverlayMeta
  import opened OverlayFormat
  import opened OverlayLoad
  import opened OverlayStore

  // ---------------------------------------------------------------- shared steps

  lemma SameView(s: Store, t: Store)
    requires Valid(s) && Valid(t) && Size(s) == Size(t)
    requires forall b: u32 :: PageAt(s, b) == PageAt(t, b)
    ensures View(s) == View(t)
  {
    hide PageAt;
    forall i | 0 <= i < Size(s)
      ensures View(s)[i] == View(t)[i]
    {
      var b: u32 := i / 4096;
      assert PageAt(s, b) == PageAt(t, b);
    }
  }

  /** Blocks of KEYS and a commit, as sync and compaction both end. */
  function BlocksAndCommit(
      keys: set<u32>, pages: map<u32, Page>, versions: map<u32, u32>, version: u32, reset: u32): Records
    requires keys <= pages.Keys && keys <= versions.Keys
  {
    Append(BlockRecords(keys, pages, versions), Cons(Commit(version, reset), Nil))
  }

  lemma BlocksAndCommitBytes(
      keys: set<u32>, pages: map<u32, Page>, versions: map<u32, u32>, version: u32, reset: u32)
    requires keys <= pages.Keys && keys <= versions.Keys
    ensures var all := BlocksAndCommit(keys, pages, versions, version, reset);
            && Encode(all) == Encode(BlockRecords(keys, pages, versions)) + RecordBytes(Commit(version, reset))
            && AllFit(all) && CommitLast(all)
  {
    hide RecordBytes;
    var blocks, end := BlockRecords(keys, pages, versions), Cons(Commit(version, reset), Nil);
    EncodeAppend(blocks, end);
    FitAppend(blocks, end);
    BlocksThenCommit(keys, pages, versions, end);
    assert Encode(end) == RecordBytes(end.head) + [];
  }

  lemma {:induction false} BlocksThenCommit(
      keys: set<u32>, pages: map<u32, Page>, versions: map<u32, u32>, end: Records)
    requires keys <= pages.Keys && keys <= versions.Keys && CommitLast(end)
    ensures CommitLast(Append(BlockRecords(keys, pages, versions), end))
    decreases keys
  {
    if keys != {} {
      BlocksThenCommit(keys - {Least(keys)}, pages, versions, end);
    }
  }

  lemma FoldOne(c: Cursor, r: Record)
    ensures Fold(c, Cons(r, Nil)) == Step(c, r)
  {
    hide Step;
  }

  /** The log after a commit of blocks placed from START on. */
  function LogAfter(
      c: Cursor, keys: set<u32>, versions: map<u32, u32>, start: nat, version: u32, reset: u32, length: nat): Log
    requires keys <= versions.Keys
  {
    var kept := if reset != c.log.reset then map[] else c.log.index;
    Log(kept + Placed(keys, versions, start), version, reset,
        c.log.dead + (if reset != c.log.reset then |c.log.index| else 0) + Shared(keys, kept),
        if c.meta.Some? then c.log.metas + [c.meta.value] else c.log.metas, length)
  }

  lemma CommitPlaced(
      c: Cursor, keys: set<u32>, versions: map<u32, u32>, start: nat, version: u32, reset: u32)
    requires keys <= versions.Keys && c.pending == PendingOf(keys, versions, start)
    ensures Committed(c, version, reset) == LogAfter(c, keys, versions, start, version, reset, c.at + HEAD)
  {
    hide Placed, PendingOf, Settle, Superseded, Shared;
    var kept := if reset != c.log.reset then map[] else c.log.index;
    SettlePlaced(kept, keys, versions, start);
    SupersededPlaced(kept, keys, versions, start);
  }

  lemma SameLogAfter(
      c: Cursor, d: Cursor, keys: set<u32>, versions: map<u32, u32>, start: nat, version: u32, reset: u32, length: nat)
    requires keys <= versions.Keys && c.log == d.log && c.meta == d.meta
    ensures LogAfter(c, keys, versions, start, version, reset, length) ==
            LogAfter(d, keys, versions, start, version, reset, length)
  {
    hide Placed, Shared;
  }

  lemma FoldBlocksAndCommit(
      c: Cursor, keys: set<u32>, pages: map<u32, Page>, versions: map<u32, u32>, version: u32, reset: u32)
    requires keys <= pages.Keys && keys <= versions.Keys && c.pending == []
    ensures var at := c.at + |Encode(BlocksAndCommit(keys, pages, versions, version, reset))|;
            Fold(c, BlocksAndCommit(keys, pages, versions, version, reset)) ==
            Cursor(LogAfter(c, keys, versions, c.at, version, reset, at), at, [], None)
  {
    hide BlockRecords, PendingOf, Committed, Fold, Append, LogAfter, Encode;
    var blocks, end := BlockRecords(keys, pages, versions), Cons(Commit(version, reset), Nil);
    FoldAppend(c, blocks, end);
    FoldBlocks(c, keys, pages, versions);
    var pending := PendingOf(keys, versions, c.at);
    assert [] + pending == pending;
    var d := c.(at := c.at + |Encode(blocks)|, pending := pending);
    FoldOne(d, Commit(version, reset));
    CommitPlaced(d, keys, versions, c.at, version, reset);
    SameLogAfter(c, d, keys, versions, c.at, version, reset, d.at + HEAD);
    BlocksAndCommitBytes(keys, pages, versions, version, reset);
  }

  /** The meta record's part in the name and size. */
  lemma MetaReads(metas: seq<seq<byte>>, s: Store, image: seq<byte>)
    requires Size(s) <= DISK_MAX
    ensures var metas' := metas + [Json(s.name, Size(s))];
            SizeOf(metas') == Size(s) && NameOf(metas', image) == Printable(s.name)
  {
    hide Json, ParseName, ParseSize, Printable;
    var json := Json(s.name, Size(s));
    var metas' := metas + [json];
    assert metas'[..|metas'| - 1] == metas;
    JsonRoundTrip(s.name, Size(s), NameOf(metas, image), SizeOf(metas));
  }

  // ------------------------------------------------------------------------ sync

  lemma BatchParts(s: Store)
    ensures Batch(s) == Append(Preamble(s),
              BlocksAndCommit(s.dirty.Keys, s.dirty, DirtyVersions(s), NextVersion(s), s.reset))
    ensures Encode(Batch(s)) == Encode(Preamble(s)) +
              Encode(BlocksAndCommit(s.dirty.Keys, s.dirty, DirtyVersions(s), NextVersion(s), s.reset))
    ensures |Json(s.name, Size(s))| < U32_LIMIT ==> CommitLast(Batch(s))
    ensures s.end != 8 || MetaFits(s) ==> AllFit(Batch(s))
  {
    hide BlockRecords, RecordBytes, Json;
    var rest := BlocksAndCommit(s.dirty.Keys, s.dirty, DirtyVersions(s), NextVersion(s), s.reset);
    BlocksAndCommitBytes(s.dirty.Keys, s.dirty, DirtyVersions(s), NextVersion(s), s.reset);
    EncodeAppend(Preamble(s), rest);
    FitAppend(Preamble(s), rest);
    if s.end == 8 {
      assert Batch(s) == Cons(MetaOf(s), rest);
    } else {
      assert Batch(s) == rest;
    }
  }

  /** A load that has read the records before the first block of a sync. */
  function AfterPreamble(s: Store, c: Cursor): Cursor {
    c.(at := c.at + |Encode(Preamble(s))|, meta := if s.end == 8 then Some(Json(s.name, Size(s))) else c.meta)
  }

  lemma PreambleFold(s: Store, c: Cursor)
    ensures Fold(c, Preamble(s)) == AfterPreamble(s, c)
  {
    hide Json, RecordBytes;
    if s.end == 8 {
      var d := Step(c, MetaOf(s));
      assert Fold(c, Preamble(s)) == d;
      assert Encode(Preamble(s)) == RecordBytes(MetaOf(s)) + [];
    }
  }

  /** What a sync's records do to a load that found what is in memory. */
  lemma BatchFold(s: Store, c: Cursor)
    requires c == Cursor(c.log, s.end, [], None) && c.log.index == s.index && c.log.reset == s.reset && s.file.Some?
    ensures var t := Synced(s);
            Fold(c, Batch(s)) ==
            Cursor(Log(t.index, t.version, s.reset, c.log.dead + Shared(s.dirty.Keys, s.index),
                       if s.end == 8 then c.log.metas + [Json(s.name, Size(s))] else c.log.metas, t.end),
                   t.end, [], None)
  {
    hide Json, BlockRecords, BlocksAndCommit, Placed, Encode, Batch, Preamble, Fold, Append, NextVersion, Size, Step;
    hide LogAfter, Shared;
    var d := AfterPreamble(s, c);
    BatchSplit(s, c);
    FoldBlocksAndCommit(d, s.dirty.Keys, s.dirty, DirtyVersions(s), NextVersion(s), s.reset);
    LogAfterSync(s, d, Synced(s).end);
  }

  lemma BatchSplit(s: Store, c: Cursor)
    ensures var rest := BlocksAndCommit(s.dirty.Keys, s.dirty, DirtyVersions(s), NextVersion(s), s.reset);
            && Fold(c, Batch(s)) == Fold(AfterPreamble(s, c), rest)
            && |Encode(Batch(s))| == |Encode(Preamble(s))| + |Encode(rest)|
  {
    hide Json, BlocksAndCommit, Encode, Batch, Preamble, Fold, Append, NextVersion, Size, AfterPreamble;
    BatchParts(s);
    PreambleFold(s, c);
    FoldAppend(c, Preamble(s), BlocksAndCommit(s.dirty.Keys, s.dirty, DirtyVersions(s), NextVersion(s), s.reset));
  }

  lemma LogAfterSync(s: Store, d: Cursor, length: nat)
    requires d.log.index == s.index && d.log.reset == s.reset && s.file.Some?
    requires d.at == s.end + |Encode(Preamble(s))|
    ensures LogAfter(d, s.dirty.Keys, DirtyVersions(s), d.at, NextVersion(s), s.reset, length) ==
            Log(Synced(s).index, NextVersion(s), s.reset, d.log.dead + Shared(s.dirty.Keys, s.index),
                if d.meta.Some? then d.log.metas + [d.meta.value] else d.log.metas, length)
  {
    hide Placed, Encode, Preamble, NextVersion, Batch, Shared;
  }

  lemma SyncedScan(s: Store)
    requires Valid(s) && s.file.Some? && Whole(s.file.value)
    requires Load(s.file.value).index == s.index && Load(s.file.value).reset == s.reset
    requires s.end == 8 ==> MetaFits(s)
    ensures Scan(Synced(s).file.value, START) == Fold(Scan(s.file.value, START), Batch(s))
  {
    hide Scan, Preamble, Fold, Batch, Encode, MetaFits, HasHeader, Valid, Shared;
    BatchParts(s);
    LoadAppended(s.file.value, Batch(s));
  }

  lemma SyncedOffsets(s: Store, b: u32)
    requires Valid(s) && s.file.Some? && b in Synced(s).index
    ensures Synced(s).index[b].offset + BLOCK <= Synced(s).end
  {
    hide Json, BlockRecords, Placed, RecordBytes, Encode, Preamble, Batch, Shared;
    BatchParts(s);
    BlocksAndCommitBytes(s.dirty.Keys, s.dirty, DirtyVersions(s), NextVersion(s), s.reset);
    PlacedBounds(s.dirty.Keys, s.dirty, DirtyVersions(s), s.end + |Encode(Preamble(s))|);
  }

  lemma SyncedValid(s: Store)
    requires Valid(s) && s.file.Some?
    ensures Valid(Synced(s))
  {
    hide Json, Placed, Encode, Preamble, Batch, Shared;
    forall b | b in Synced(s).index
      ensures Synced(s).index[b].offset + BLOCK <= Synced(s).end
    {
      SyncedOffsets(s, b);
    }
  }

  /** A load of the file after a sync finds what the sync left in memory. */
  lemma SyncedAgrees(s: Store, image: seq<byte>)
    requires Valid(s) && Agrees(s, image) && s.file.Some? && MetaFits(s)
    ensures Agrees(Synced(s), image) && Load(Synced(s).file.value).version == NextVersion(s)
  {
    hide Json, Placed, NameOf, SizeOf, Printable, Encode, Scan, Batch, Preamble, HasHeader, Shared;
    SyncedScan(s);
    BatchFold(s, Scan(s.file.value, START));
    MetaReads(Load(s.file.value).metas, s, image);
    HeaderKept(s.file.value, Encode(Batch(s)));
    EscapePrintable(s.name);
  }

  lemma HeaderKept(file: seq<byte>, more: seq<byte>)
    requires HasHeader(file)
    ensures HasHeader(file + more)
  {
    assert (file + more)[..8] == file[..8];
  }

  lemma {:induction false} PlacedBounds(keys: set<u32>, pages: map<u32, Page>, versions: map<u32, u32>, start: nat)
    requires keys <= pages.Keys && keys <= versions.Keys
    ensures var m := Placed(keys, versions, start);
            forall b :: b in keys ==> m[b].offset + BLOCK <= start + |Encode(BlockRecords(keys, pages, versions))|
    decreases keys
  {
    if keys != {} {
      var b := Least(keys);
      assert |RecordBytes(Block(b, versions[b], pages[b]))| == BLOCK_RECORD;
      PlacedBounds(keys - {b}, pages, versions, start + BLOCK_RECORD);
    }
  }

  /** A sync changes nothing the Mac can see, and makes it durable. */
  lemma SyncedView(s: Store)
    requires Valid(s) && s.file.Some? && Valid(Synced(s))
    ensures View(Synced(s)) == View(s) && Durable(Synced(s)) == View(s)
  {
    hide Json, BlockRecords, Placed, RecordBytes, Encode, BasePage, View, Shared;
    var t := Synced(s);
    forall b: u32
      ensures PageAt(t, b) == PageAt(s, b)
    {
      if b in s.dirty {
        SyncedPage(s, b);
      } else if b in s.index {
        var o := s.index[b].offset;
        assert t.file.value[o..o + BLOCK] == s.file.value[o..o + BLOCK];
      }
    }
    SameView(s, t);
    assert t.(dirty := map[]) == t;
  }

  /** Where the blocks are in what a sync leaves. */
  lemma SyncedBytes(s: Store)
    requires s.file.Some?
    ensures var start := |s.file.value| + |Encode(Preamble(s))|;
            var blocks := Encode(BlockRecords(s.dirty.Keys, s.dirty, DirtyVersions(s)));
            var all := Synced(s).file.value;
            start + |blocks| <= |all| && all[start..start + |blocks|] == blocks
  {
    hide Json, BlockRecords, RecordBytes, Encode, Preamble, Batch, Shared;
    var file, pre := s.file.value, Encode(Preamble(s));
    var blocks := Encode(BlockRecords(s.dirty.Keys, s.dirty, DirtyVersions(s)));
    BatchParts(s);
    BlocksAndCommitBytes(s.dirty.Keys, s.dirty, DirtyVersions(s), NextVersion(s), s.reset);
    var commit := RecordBytes(Commit(NextVersion(s), s.reset));
    Associates(file, pre, blocks + commit);
    MiddlePart(file + pre, blocks, commit);
  }

  lemma SyncedPage(s: Store, b: u32)
    requires Valid(s) && s.file.Some? && Valid(Synced(s)) && b in s.dirty
    ensures var t := Synced(s);
            t.file.value[t.index[b].offset..t.index[b].offset + BLOCK] == s.dirty[b]
  {
    hide Json, BlockRecords, Placed, RecordBytes, Encode, Preamble, Batch, Shared;
    SyncedBytes(s);
    PlacedData(Synced(s).file.value, s.end + |Encode(Preamble(s))|, s.dirty.Keys, s.dirty, DirtyVersions(s), b);
  }

  // ------------------------------------------------------------------- reopening

  lemma OpenAgrees(base: seq<byte>, image: seq<byte>, writable: bool, file: Option<seq<byte>>)
    requires Open(base, image, writable, file).Some?
    ensures var s := Open(base, image, writable, file).value;
            Agrees(s, image) && (Size(s) <= DISK_MAX ==> Valid(s)) && s.dirty == map[]
  {
    hide Scan, Parse, NameOf, SizeOf, Printable, HasHeader;
    if file.Some? {
      CutBackIsWhole(file.value);
      var kept := file.value[..Load(file.value).length];
      LoadPoints(kept);
    }
  }

  /** Closing and opening again gives back what was durable. */
  lemma ReopenView(s: Store, image: seq<byte>, writable: bool)
    requires Valid(s) && Agrees(s, image)
    ensures var o := Open(s.base, image, writable, s.file);
            && o.Some? && Valid(o.value) && View(o.value) == Durable(s)
            && Size(o.value) == Size(s)
            && o.value.index == s.index && o.value.version == s.version && o.value.reset == s.reset
            && o.value.dead == s.dead && o.value.file == s.file
            && Printable(o.value.name) == Printable(s.name)
  {
    hide Scan, NameOf, SizeOf, Printable, BasePage, View;
    var o := Open(s.base, image, writable, s.file).value;
    if s.file.Some? {
      var file := s.file.value;
      assert file[..Load(file).length] == file;
    }
    OpenAgrees(s.base, image, writable, s.file);
    SameView(o, s.(dirty := map[]));
  }

  /** Names that print the same and the same size make the same meta record. */
  lemma SameMeta(s: Store, t: Store)
    requires Printable(s.name) == Printable(t.name) && Size(s) == Size(t)
    ensures MetaFits(s) <==> MetaFits(t)
  {
    EscapePrintable(s.name);
    EscapePrintable(t.name);
  }

  // -------------------------------------------------------------- a crash in sync

  /** The file when K bytes of a sync's write have reached it. */
  function Torn(s: Store, k: nat): seq<byte>
    requires s.file.Some? && k <= |Encode(Batch(s))|
  {
    s.file.value + Encode(Batch(s))[..k]
  }

  /** Atomicity: opened after a crash with part of a sync's write in the file,
      the disk is as before the sync, the file cut back to its length then. */
  lemma CrashBeforeCommit(s: Store, image: seq<byte>, k: nat, writable: bool)
    requires Valid(s) && Agrees(s, image) && s.file.Some?
    requires |Json(s.name, Size(s))| < U32_LIMIT && k < |Encode(Batch(s))|
    ensures var o := Open(s.base, image, writable, Some(Torn(s, k)));
            o == Open(s.base, image, writable, s.file) && o.Some? && o.value.file == s.file
  {
    hide Scan, NameOf, SizeOf, Printable, Json, Batch, Encode, Valid;
    BatchParts(s);
    LoadCutShort(s.file.value, Batch(s), k);
    HeaderKept(s.file.value, Encode(Batch(s))[..k]);
    assert s.file.value[..Load(s.file.value).length] == s.file.value;
  }

  /** With every byte in the file it is the sync's result, acknowledged or not. */
  lemma CrashAfterCommit(s: Store, image: seq<byte>)
    requires Valid(s) && Agrees(s, image) && s.file.Some? && MetaFits(s)
    ensures var o := Open(s.base, image, s.writable, Some(Torn(s, |Encode(Batch(s))|)));
            o.Some? && Valid(o.value) && View(o.value) == View(s) && o.value.version == NextVersion(s)
  {
    hide Batch, Encode, NextVersion, MetaFits, Json, View, Agrees;
    var e := Encode(Batch(s));
    assert e[..|e|] == e;
    SyncedValid(s);
    SyncedAgrees(s, image);
    SyncedView(s);
    ReopenView(Synced(s), image, s.writable);
  }

  // ------------------------------------------------------------------- compaction

  lemma LiveParts(s: Store)
    requires Valid(s)
    ensures var rest := BlocksAndCommit(s.index.Keys, IndexPages(s), IndexVersions(s), s.version, s.reset);
            && Encode(LiveRecords(s)) == RecordBytes(MetaOf(s)) + Encode(rest)
            && (MetaFits(s) ==> AllFit(LiveRecords(s)))
  {
    hide BlockRecords, RecordBytes, Json;
    BlocksAndCommitBytes(s.index.Keys, IndexPages(s), IndexVersions(s), s.version, s.reset);
  }

  lemma LiveFold(s: Store)
    requires Valid(s)
    ensures var t := Rewritten(s);
            Fold(START, LiveRecords(s)) ==
            Cursor(Log(t.index, s.version, s.reset, 0, [Json(s.name, Size(s))], t.end), t.end, [], None)
  {
    hide Json, BlockRecords, Placed, Encode, Fold, Append, Size, Shared, Step, LogAfter;
    var rest := BlocksAndCommit(s.index.Keys, IndexPages(s), IndexVersions(s), s.version, s.reset);
    var c := Step(START, MetaOf(s));
    FoldMeta(MetaOf(s), rest);
    StartMeta(MetaOf(s).json);
    FoldBlocksAndCommit(c, s.index.Keys, IndexPages(s), IndexVersions(s), s.version, s.reset);
    LiveParts(s);
    LogAfterMeta(c, s.index.Keys, IndexVersions(s), s.version, s.reset, Rewritten(s).end);
  }

  lemma StartMeta(json: seq<byte>)
    ensures Step(START, Meta(json, 0)) == START.(at := 8 + |RecordBytes(Meta(json, 0))|, meta := Some(json))
  {
  }

  /** The log after the first commit of a new file. */
  lemma LogAfterMeta(
      c: Cursor, keys: set<u32>, versions: map<u32, u32>, version: u32, reset: u32, length: nat)
    requires keys <= versions.Keys && c.log == START.log && c.meta.Some?
    ensures LogAfter(c, keys, versions, c.at, version, reset, length) ==
            Log(Placed(keys, versions, c.at), version, reset, 0, [c.meta.value], length)
  {
    hide Placed, Shared;
    var none: map<u32, At> := map[];
    assert none + Placed(keys, versions, c.at) == Placed(keys, versions, c.at);
    SharedNone(keys, none);
  }

  lemma FoldMeta(r: Record, rest: Records)
    ensures Fold(START, Cons(r, rest)) == Fold(Step(START, r), rest)
  {
    hide Step;
  }

  lemma RewrittenOffsets(s: Store, b: u32)
    requires Valid(s) && b in Rewritten(s).index
    ensures Rewritten(s).index[b].offset + BLOCK <= Rewritten(s).end
  {
    hide Json, BlockRecords, Placed, RecordBytes, Encode, LiveRecords;
    LiveParts(s);
    BlocksAndCommitBytes(s.index.Keys, IndexPages(s), IndexVersions(s), s.version, s.reset);
    PlacedBounds(s.index.Keys, IndexPages(s), IndexVersions(s), 8 + |RecordBytes(MetaOf(s))|);
  }

  lemma RewrittenValid(s: Store)
    requires Valid(s) && s.file.Some?
    ensures Valid(Rewritten(s))
  {
    hide Json, Placed, Encode, LiveRecords;
    forall b | b in Rewritten(s).index
      ensures Rewritten(s).index[b].offset + BLOCK <= Rewritten(s).end
    {
      RewrittenOffsets(s, b);
    }
  }

  /** The compacted file loads to the same version, reset version, name and
      size, with nothing dead. */
  lemma RewrittenAgrees(s: Store, image: seq<byte>)
    requires Valid(s) && s.file.Some? && MetaFits(s)
    ensures Agrees(Rewritten(s), image)
  {
    hide Json, Placed, NameOf, SizeOf, Printable, Encode, Scan, LiveRecords, HasHeader, Fold;
    HeaderWhole();
    LiveParts(s);
    LoadAppended(HEADER, LiveRecords(s));
    LiveFold(s);
    MetaReads([], s, image);
    assert [] + [Json(s.name, Size(s))] == [Json(s.name, Size(s))];
    HeaderKept(HEADER, Encode(LiveRecords(s)));
    EscapePrintable(s.name);
  }

  lemma RewrittenBytes(s: Store)
    requires Valid(s)
    ensures var start := 8 + |RecordBytes(MetaOf(s))|;
            var blocks := Encode(BlockRecords(s.index.Keys, IndexPages(s), IndexVersions(s)));
            var all := Rewritten(s).file.value;
            start + |blocks| <= |all| && all[start..start + |blocks|] == blocks
  {
    hide Json, BlockRecords, RecordBytes, Encode, LiveRecords;
    var pre := RecordBytes(MetaOf(s));
    var blocks := Encode(BlockRecords(s.index.Keys, IndexPages(s), IndexVersions(s)));
    LiveParts(s);
    BlocksAndCommitBytes(s.index.Keys, IndexPages(s), IndexVersions(s), s.version, s.reset);
    var commit := RecordBytes(Commit(s.version, s.reset));
    Associates(HEADER, pre, blocks + commit);
    MiddlePart(HEADER + pre, blocks, commit);
  }

  lemma RewrittenPage(s: Store, b: u32)
    requires Valid(s) && s.file.Some? && Valid(Rewritten(s)) && b in s.index
    ensures var t := Rewritten(s);
            t.file.value[t.index[b].offset..t.index[b].offset + BLOCK] ==
            s.file.value[s.index[b].offset..s.index[b].offset + BLOCK]
    ensures Rewritten(s).index[b].version == s.index[b].version
  {
    hide Json, BlockRecords, Placed, RecordBytes, Encode, LiveRecords;
    RewrittenBytes(s);
    PlacedData(Rewritten(s).file.value, 8 + |RecordBytes(MetaOf(s))|, s.index.Keys, IndexPages(s), IndexVersions(s), b);
  }

  /** Compaction changes nothing that can be read, durable or not. */
  lemma RewrittenView(s: Store)
    requires Valid(s) && s.file.Some?
    ensures Valid(Rewritten(s)) && View(Rewritten(s)) == View(s) && Durable(Rewritten(s)) == Durable(s)
  {
    hide BasePage, View, LiveRecords, Encode, Placed;
    RewrittenValid(s);
    var t := Rewritten(s);
    forall b: u32
      ensures PageAt(t, b) == PageAt(s, b)
      ensures PageAt(t.(dirty := map[]), b) == PageAt(s.(dirty := map[]), b)
    {
      if b in s.index {
        RewrittenPage(s, b);
      }
    }
    SameView(t, s);
    SameView(t.(dirty := map[]), s.(dirty := map[]));
  }

  // ------------------------------------------- when the meta record does not fit

  lemma EncodeCons(r: Record, rest: Records)
    ensures Encode(Cons(r, rest)) == RecordBytes(r) + Encode(rest)
  {
    hide RecordBytes;
  }

  /** The first sync of an overlay is worth something exactly when its meta
      record fits in 64 KB: a longer one makes every later load stop at it. */
  lemma FirstSyncCountsIffMetaFits(s: Store, image: seq<byte>)
    requires Valid(s) && Agrees(s, image) && s.file == Some(HEADER) && |Json(s.name, Size(s))| < U32_LIMIT
    ensures Load(Synced(s).file.value).version == NextVersion(s) <==> MetaFits(s)
    ensures !MetaFits(s) ==> Load(Synced(s).file.value) == Load(HEADER)
  {
    hide Json, BlockRecords, RecordBytes, Scan, Agrees, Printable, Shared, Placed;
    HeaderWhole();
    if MetaFits(s) {
      SyncedAgrees(s, image);
    } else {
      var rest := BlocksAndCommit(s.dirty.Keys, s.dirty, DirtyVersions(s), NextVersion(s), s.reset);
      var meta := RecordBytes(MetaOf(s));
      assert s.end == |HEADER| == 8;
      assert Append(Preamble(s), rest) == Cons(MetaOf(s), rest);
      EncodeCons(MetaOf(s), rest);
      assert Synced(s).file.value == HEADER + (meta + Encode(rest));
      Associates(HEADER, meta, Encode(rest));
      LoadStopsAtLongMeta(HEADER, Json(s.name, Size(s)), Encode(rest));
      VersionOf(s, image);
    }
  }

  lemma VersionOf(s: Store, image: seq<byte>)
    requires Agrees(s, image) && s.file.Some?
    ensures Load(s.file.value).version == s.version && Load(s.file.value).index == s.index
  {
    hide Scan, NameOf, SizeOf, Printable;
  }

  /** Compaction of a file with live blocks keeps them exactly when the meta
      record it writes first fits; otherwise a load finds an empty overlay. */
  lemma CompactionKeepsIffMetaFits(s: Store, image: seq<byte>)
    requires Valid(s) && s.file.Some? && |Json(s.name, Size(s))| < U32_LIMIT && s.index != map[]
    ensures Load(Rewritten(s).file.value).index.Keys == s.index.Keys <==> MetaFits(s)
    ensures !MetaFits(s) ==> Load(Rewritten(s).file.value) == Load(HEADER)
  {
    hide Json, BlockRecords, RecordBytes, Scan, Printable, NameOf, SizeOf, Placed;
    HeaderWhole();
    if MetaFits(s) {
      RewrittenAgrees(s, image);
    } else {
      var rest := BlocksAndCommit(s.index.Keys, IndexPages(s), IndexVersions(s), s.version, s.reset);
      LiveParts(s);
      Associates(HEADER, RecordBytes(MetaOf(s)), Encode(rest));
      LoadStopsAtLongMeta(HEADER, Json(s.name, Size(s)), Encode(rest));
      assert Load(HEADER).index == map[];
    }
  }

  // ------------------------------------------------------------------------ space

  /** Space: the block records in the file are the live ones and the dead ones. */
  lemma SpaceAccounted(s: Store, image: seq<byte>)
    requires Agrees(s, image) && s.file.Some?
    ensures Blocks(ReadRecords(s.file.value, 8)) == |s.index| + s.dead
  {
    hide Scan, NameOf, SizeOf, Printable, ReadRecords, Blocks;
    BlocksAreLiveOrDead(s.file.value);
  }
}
