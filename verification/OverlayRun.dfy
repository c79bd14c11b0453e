/** Whole runs: writes, reads, syncs, crashes and reopenings of an overlay
    against a flat array of bytes with a current and a durable copy
    (executor/host/overlay.h:8-19, executor/host/overlay.cpp:146-498). */
module OverlayRun {
  import opened Bytes
  import opened Numbers
  import opened OverlayMeta
  import opened OverlayFormat
  import opened OverlayLoad
  import opened OverlayStore
  import opened OverlayCommit

  // ------------------------------------------------------------- the operations

  /** sync: false when the changes stay in memory. */
  function Sync(s: Store, io: Io): (r: (Store, bool))
    requires Valid(s)
  {
    if s.dirty == map[] then (s, true)
    else if s.file.None? && !io.create then (s, false)
    else if !io.write then (Created(s), false)
    else
      SyncedValid(Created(s));
      (Compacted(Synced(Created(s)), io.compact), true)
  }

  /** pwrite: None where it returns -1. What it got into memory stays there, even
      when a block cannot be read or the flush they set off fails. */
  function Write(s: Store, at: nat, buf: seq<byte>, io: Io, fails: set<u32>): (r: (Store, Option<nat>))
    requires Valid(s)
  {
    if !CanWrite(s, at, buf) then (s, None)
    else
      var k := Reach(s, at, |buf|, fails);
      var t := Put(s, at, buf[..k]);
      if k < |buf| then (t, None)
      else if |t.dirty| < MAX_DIRTY then (t, Some(|buf|))
      else
        var synced := Sync(t, io);
        (synced.0, if synced.1 then Some(|buf|) else None)
  }

  /** Where a process ends: with no sync under way, K bytes into a sync's write,
      or in the compaction after it, before or after the rename. */
  datatype Crash = Idle | Writing(k: nat) | Renaming(done: bool)

  /** The file a process leaves that dies at CRASH. */
  function Remains(s: Store, crash: Crash): Option<seq<byte>>
    requires Valid(s)
  {
    if s.dirty == map[] then s.file
    else
      match crash
      case Idle => s.file
      case Writing(k) =>
        var c := Created(s);
        Some(Torn(c, Min(k, |Encode(Batch(c))|)))
      case Renaming(done) =>
        SyncedValid(Created(s));
        Compacted(Synced(Created(s)), done).file
  }

  /** One thing that happens to the disk; FAILS are the blocks that cannot be read
      then. Reopen closes it (a last sync) and
      opens it again; Die ends the process, with a write of BUF at AT under
      way, and opens what it left. */
  datatype Op =
    | PWrite(at: nat, buf: seq<byte>, io: Io, fails: set<u32>)
    | PRead(at: nat, n: nat, fails: set<u32>)
    | Flush(io: Io)
    | Reopen(io: Io, writable: bool)
    | Die(at: nat, buf: seq<byte>, crash: Crash, writable: bool)

  datatype Out = Count(n: Option<nat>) | Data(bytes: Option<seq<byte>>) | Done(ok: bool) | Opened(ok: bool)

  predicate CanWrite(s: Store, at: nat, buf: seq<byte>) {
    s.writable && at + |buf| <= Size(s)
  }

  /** FILE opened in place of S. */
  function Swap(s: Store, image: seq<byte>, writable: bool, file: Option<seq<byte>>): (Store, Out) {
    match Open(s.base, image, writable, file)
    case None => (s, Opened(false))
    case Some(t) => (t, Opened(true))
  }

  function Next(s: Store, image: seq<byte>, op: Op): (Store, Out)
    requires Valid(s)
  {
    match op
    case PWrite(at, buf, io, fails) => var w := Write(s, at, buf, io, fails); (w.0, Count(w.1))
    case PRead(at, n, fails) => (s, Data(if CanRead(s, at, n, fails) then Some(Read(s, at, n)) else None))
    case Flush(io) => var r := Sync(s, io); (r.0, Done(r.1))
    case Reopen(io, writable) => Swap(s, image, writable, Sync(s, io).0.file)
    case Die(at, buf, crash, writable) =>
      Swap(s, image, writable, Remains(if CanWrite(s, at, buf) then Put(s, at, buf) else s, crash))
  }

  /** A state a run can be in: what is in memory is what the file loads to. */
  predicate Running(s: Store, image: seq<byte>) {
    Valid(s) && Agrees(s, image) && MetaFits(s)
  }

  lemma CreatedRuns(s: Store, image: seq<byte>)
    requires Running(s, image)
    ensures Running(Created(s), image) && View(Created(s)) == View(s) && Durable(Created(s)) == Durable(s)
  {
    hide Scan, Printable, Json, BasePage, View;
    HeaderWhole();
    if s.file.None? {
      assert Load(HEADER) == START.log;
      SameMeta(s, Created(s));
    }
    SameView(Created(s), s);
    SameView(Created(s).(dirty := map[]), s.(dirty := map[]));
  }

  lemma SyncedRuns(s: Store, image: seq<byte>)
    requires Running(s, image) && s.file.Some?
    ensures Running(Synced(s), image) && View(Synced(s)) == View(s) == Durable(Synced(s))
  {
    hide Agrees, View, Batch, Json, Shared, Placed;
    SyncedValid(s);
    SyncedAgrees(s, image);
    SyncedView(s);
    SameMeta(s, Synced(s));
  }

  lemma CompactedRuns(s: Store, image: seq<byte>, ok: bool)
    requires Running(s, image)
    ensures var t := Compacted(s, ok);
            Running(t, image) && View(t) == View(s) && Durable(t) == Durable(s)
  {
    hide Agrees, View, LiveRecords, Json, Placed;
    if WantsCompaction(s) && ok {
      RewrittenView(s);
      RewrittenAgrees(s, image);
      SameMeta(s, Rewritten(s));
    }
  }

  /** A sync, whatever becomes of it, changes nothing the Mac can see; one that
      succeeds makes that durable, one that fails leaves the durable copy. */
  lemma SyncRuns(s: Store, image: seq<byte>, io: Io)
    requires Running(s, image)
    ensures var (t, ok) := Sync(s, io);
            && Running(t, image) && View(t) == View(s) && Size(t) == Size(s)
            && Durable(t) == if ok then View(s) else Durable(s)
  {
    hide Running, View, Valid, Compacted, Synced;
    if s.dirty == map[] {
      assert s.(dirty := map[]) == s;
    } else {
      CreatedRuns(s, image);
      if io.create || s.file.Some? {
        if io.write {
          SyncedRuns(Created(s), image);
          CompactedRuns(Synced(Created(s)), image, io.compact);
        }
      }
    }
  }

  /** Space: after a sync that wrote and whose compaction was let through, the
      block records in the file are the live ones and fewer dead ones than 256 or
      than there are live. */
  lemma SpaceAfterSync(s: Store, image: seq<byte>, io: Io)
    requires Running(s, image) && s.dirty != map[] && io.compact && Sync(s, io).1
    ensures var t := Sync(s, io).0;
            && t.file.Some? && Blocks(ReadRecords(t.file.value, 8)) == |t.index| + t.dead
            && (t.dead < 256 || t.dead < |t.index|)
  {
    hide Valid, Agrees, MetaFits, View, Durable, Rewritten, Synced, ReadRecords, Blocks;
    SyncRuns(s, image, io);
    SyncHasFile(s, io);
    SpaceAccounted(Sync(s, io).0, image);
  }

  lemma SyncHasFile(s: Store, io: Io)
    requires Valid(s) && s.dirty != map[] && io.compact && Sync(s, io).1
    ensures var t := Sync(s, io).0; t.file.Some? && (t.dead < 256 || t.dead < |t.index|)
  {
    hide Valid, Encode, Batch, Placed, LiveRecords, Shared;
  }

  /** Every sync counts one up, in 32 bits, and gives the number to what it writes. */
  lemma VersionCounts(s: Store)
    requires s.file.Some?
    ensures var t := Synced(s);
            && t.version as nat == (s.version + 1) % 0x1_0000_0000 && t.reset == s.reset
            && forall b :: b in s.dirty ==> b in t.index && t.index[b].version == t.version
  {
    hide Encode, Batch, Preamble, Placed, Shared, Least;
    PlacedVersions(s.dirty.Keys, DirtyVersions(s), s.end + |Encode(Preamble(s))|);
  }

  /** Compaction keeps every block's number and leaves nothing dead. */
  lemma CompactionKeepsVersions(s: Store)
    requires Valid(s) && s.file.Some?
    ensures var t := Rewritten(s);
            && t.version == s.version && t.reset == s.reset && t.dead == 0 && t.index.Keys == s.index.Keys
            && forall b :: b in s.index ==> t.index[b].version == s.index[b].version
  {
    hide Valid, Encode, LiveRecords, RecordBytes, Placed, Least;
    PlacedVersions(s.index.Keys, IndexVersions(s), 8 + |RecordBytes(MetaOf(s))|);
  }

  lemma {:induction false} PlacedVersions(keys: set<u32>, versions: map<u32, u32>, start: nat)
    requires keys <= versions.Keys
    ensures var m := Placed(keys, versions, start); forall b :: b in keys ==> b in m && m[b].version == versions[b]
    decreases keys
  {
    hide Least;
    if keys != {} {
      PlacedVersions(keys - {Least(keys)}, versions, start + BLOCK_RECORD);
    }
  }

  /** A sync only adds to the file, unless 256 blocks in it and as many as are
      live are dead: written again since, by this sync or before. */
  lemma SyncAppends(s: Store, io: Io)
    requires Valid(s) && s.file.Some?
    requires var keys := s.dirty.Keys * s.index.Keys;
             s.dead + |keys| < 256 || s.dead + |keys| < |s.index.Keys + s.dirty.Keys|
    ensures var t := Sync(s, io).0; t.file.Some? && s.file.value <= t.file.value
  {
    hide Rewritten, Encode, Batch, Placed, View;
    if s.dirty != map[] && io.write {
      SyncedValid(s);
      SyncedCount(s);
    }
  }

  lemma SyncedCount(s: Store)
    requires s.file.Some?
    ensures |Synced(s).index| == |s.index.Keys + s.dirty.Keys|
    ensures Synced(s).dead == s.dead + |s.dirty.Keys * s.index.Keys|
  {
    hide Encode, Batch, Preamble;
    var t := Synced(s);
    assert t.index.Keys == s.index.Keys + s.dirty.Keys;
    assert |t.index| == |t.index.Keys|;
  }

  // --------------------------------------------------------- a flat array of bytes

  /** What the overlay stands for: the bytes as the Mac has them and as a
      process started now would, and the blocks of 4096 bytes gathered to be made
      durable. */
  datatype Flat = Flat(current: seq<byte>, durable: seq<byte>, pending: set<int>, writable: bool)

  function FlatOf(s: Store): Flat
    requires Valid(s)
  {
    Flat(View(s), Durable(s), s.dirty.Keys, s.writable)
  }

  function Written(f: Flat, at: nat, buf: seq<byte>): seq<byte> {
    if f.writable && at + |buf| <= |f.current| then Splice(f.current, at, buf) else f.current
  }

  /** The blocks of the bytes from AT to AT + N. */
  ghost function Touched(at: nat, n: nat): set<int> {
    set i | at <= i < at + n :: i / 4096
  }

  /** A write of N bytes at AT stops K bytes in, before a block that it covers in
      part and that is among FAILS. */
  predicate StopsAt(at: nat, n: nat, k: nat, fails: set<u32>) {
    && k < n && (k == 0 || (at + k) % 4096 == 0)
    && ((at + k) % 4096 != 0 || n - k < 4096) && (at + k) / 4096 in fails
  }

  /** The flat array's answer to a write, leaving G: with 4096 blocks gathered
      everything is made durable, with fewer nothing is. */
  ghost predicate FlatWrite(
      f: Flat, at: nat, buf: seq<byte>, io: Io, fails: set<u32>, out: Option<nat>, g: Flat) {
    && g.writable == f.writable
    && if !f.writable || at + |buf| > |f.current| then out == None && g == f
       else
         var all := f.pending + Touched(at, |buf|);
         match out
         case Some(n) =>
           && n == |buf| && g.current == Splice(f.current, at, buf)
           && if |all| < 4096 then g.durable == f.durable && g.pending == all
              else g.durable == g.current && g.pending == {}
         case None =>
           && g.durable == f.durable
           && exists k: nat ::
                && k <= |buf| && g.current == Splice(f.current, at, buf[..k])
                && g.pending == f.pending + Touched(at, k)
                && if k < |buf| then StopsAt(at, |buf|, k, fails) else |all| >= 4096 && (!io.create || !io.write)
  }

  /** The flat array's answer to OP, with OUT, leaving G. */
  ghost predicate FlatNext(f: Flat, op: Op, out: Out, g: Flat) {
    match op
    case PWrite(at, buf, io, fails) => out.Count? && FlatWrite(f, at, buf, io, fails, out.n, g)
    case PRead(at, n, fails) =>
      && g == f
      && (match out
          case Data(Some(bytes)) =>
            bytes == if at >= |f.current| then [] else f.current[at..at + Min(n, |f.current| - at)]
          case Data(None) => exists i :: at <= i < at + n && i < |f.current| && i / 4096 in fails
          case _ => false)
    case Flush(io) =>
      && g.current == f.current && g.writable == f.writable
      && (match out
          case Done(ok) =>
            && g.durable == (if ok then f.current else f.durable) && g.pending == (if ok then {} else f.pending)
            && (ok || (f.pending != {} && (!io.create || !io.write)))
          case _ => false)
    case Reopen(io, writable) =>
      && out == Opened(true) && g == Flat(g.durable, g.durable, {}, writable)
      && (g.durable == f.current || (g.durable == f.durable && (!io.create || !io.write)))
    case Die(at, buf, crash, writable) =>
      && out == Opened(true) && g == Flat(g.durable, g.durable, {}, writable)
      && (match crash
          case Idle => g.durable == f.durable
          case Writing(k) => g.durable == f.durable || g.durable == Written(f, at, buf)
          case Renaming(_) => g.durable == Written(f, at, buf))
  }

  lemma PutRuns(s: Store, image: seq<byte>, at: nat, buf: seq<byte>)
    requires Running(s, image) && at + |buf| <= Size(s)
    ensures var t := Put(s, at, buf);
            && Running(t, image) && View(t) == Splice(View(s), at, buf) && Durable(t) == Durable(s)
            && t.base == s.base && t.writable == s.writable
  {
    hide Scan, View, Printable, Json;
    PutView(s, at, buf);
    PutFrame(s, at, buf);
    SameMeta(s, Put(s, at, buf));
  }

  lemma TouchedSplits(at: nat, n: nat, k: nat)
    requires k <= n
    ensures Touched(at, n) == Touched(at, k) + Touched(at + k, n - k)
    ensures 0 < k <= 4096 - at % 4096 ==> Touched(at, k) == {at / 4096}
  {
    forall b | b in Touched(at, n)
      ensures b in Touched(at, k) + Touched(at + k, n - k)
    {
      var i :| at <= i < at + n && b == i / 4096;
      assert if i < at + k then b in Touched(at, k) else b in Touched(at + k, n - k);
    }
    if 0 < k <= 4096 - at % 4096 {
      assert at / 4096 in Touched(at, k);
      forall i | at <= i < at + k
        ensures i / 4096 == at / 4096
      {
        SameBlock(at, k, i);
      }
    }
  }

  lemma TouchedNone(at: nat)
    ensures Touched(at, 0) == {}
  {
  }

  lemma ChunkGathers(s: Store, at: nat, chunk: seq<byte>)
    requires Valid(s) && at + |chunk| <= Size(s) && 0 < |chunk| <= BLOCK - at % 4096
    ensures PutChunk(s, at, chunk).dirty.Keys == s.dirty.Keys + {at / 4096}
  {
    hide Valid, Size, PageAt, Splice;
  }

  /** A write gathers the blocks it touches, each once. */
  lemma {:induction false} PutGathers(s: Store, at: nat, buf: seq<byte>)
    requires Valid(s) && at + |buf| <= Size(s)
    ensures Put(s, at, buf).dirty.Keys == s.dirty.Keys + Touched(at, |buf|)
    decreases |buf|
  {
    hide Valid, Size, PutChunk, Put, Touched, InBlock;
    if buf == [] {
      PutNothing(s, at);
      TouchedNone(at);
    } else {
      var n := InBlock(at, |buf|);
      var t := PutChunk(s, at, buf[..n]);
      PutUnfolds(s, at, buf);
      ChunkGathers(s, at, buf[..n]);
      PutGathers(t, at + n, buf[n..]);
      TouchedSplits(at, |buf|, n);
    }
  }

  /** What stops a write K bytes in has to come from the disk. */
  predicate Stops(s: Store, at: nat, n: nat, k: nat, fails: set<u32>)
    requires at + n <= DISK_MAX
  {
    StopsAt(at, n, k, fails) && OnDisk(s, (at + k) / 4096)
  }

  lemma StopsLater(s: Store, at: nat, n: nat, m: nat, j: nat, fails: set<u32>)
    requires at + n <= DISK_MAX && m == InBlock(at, n) && j < n
    ensures 0 < j < m ==> !Stops(s, at, n, j, fails)
    ensures m <= j ==> (Stops(s, at, n, j, fails) <==> Stops(s, at + m, n - m, j - m, fails))
  {
    hide OnDisk;
    if m <= j {
      assert (at + m) % 4096 == 0;
      assert at + j == at + m + (j - m);
    }
  }

  /** A write stops at the first block it covers in part that has to come from
      the disk and cannot. */
  lemma {:induction false} ReachIsFirst(s: Store, at: nat, n: nat, fails: set<u32>)
    requires at + n <= DISK_MAX
    ensures var k := Reach(s, at, n, fails);
            && (k < n ==> Stops(s, at, n, k, fails))
            && forall j: nat :: j < k ==> !Stops(s, at, n, j, fails)
    decreases n, 1
  {
    if n > 0 {
      var m := InBlock(at, n);
      if m < BLOCK && !ReadableAt(s, at, fails) {
        assert Stops(s, at, n, 0, fails);
      } else {
        assert !Stops(s, at, n, 0, fails);
        ReachLater(s, at, n, m, fails);
      }
    }
  }

  lemma ReachLater(s: Store, at: nat, n: nat, m: nat, fails: set<u32>)
    requires 0 < n && at + n <= DISK_MAX && m == InBlock(at, n) && !Stops(s, at, n, 0, fails)
    ensures var k := m + Reach(s, at + m, n - m, fails);
            && (k < n ==> Stops(s, at, n, k, fails))
            && forall j: nat :: j < k ==> !Stops(s, at, n, j, fails)
    decreases n, 0
  {
    hide Stops, Reach, InBlock;
    ReachIsFirst(s, at + m, n - m, fails);
    var k := m + Reach(s, at + m, n - m, fails);
    if k < n {
      StopsLater(s, at, n, m, k, fails);
    }
    forall j: nat | j < k
      ensures !Stops(s, at, n, j, fails)
    {
      StopsLater(s, at, n, m, j, fails);
      if m <= j {
        assert !Stops(s, at + m, n - m, j - m, fails);
      }
    }
  }

  lemma SyncPending(s: Store, io: Io)
    requires Valid(s)
    ensures var (t, ok) := Sync(s, io);
            if ok then t.dirty == map[] else t.dirty == s.dirty != map[]
  {
  }

  lemma OpenRuns(s: Store, t: Store, image: seq<byte>, writable: bool)
    requires Running(t, image) && t.base == s.base
    ensures var (o, out) := Swap(s, image, writable, t.file);
            && out == Opened(true) && Running(o, image) && o.base == s.base
            && FlatOf(o) == Flat(Durable(t), Durable(t), {}, writable)
  {
    hide View, Json, NameOf, SizeOf, Printable, Scan;
    ReopenView(t, image, writable);
    OpenAgrees(s.base, image, writable, t.file);
    var o := Open(s.base, image, writable, t.file).value;
    SameMeta(t, o);
    assert o.(dirty := map[]) == o;
  }

  lemma SyncBase(s: Store, io: Io)
    requires Valid(s)
    ensures Sync(s, io).0.base == s.base && Sync(s, io).0.writable == s.writable
    ensures io.create && io.write ==> Sync(s, io).1
  {
  }

  lemma TornRuns(s: Store, c: Store, image: seq<byte>, k: nat, writable: bool)
    requires Running(c, image) && c.base == s.base && c.file.Some? && k < |Encode(Batch(c))|
    ensures Swap(s, image, writable, Some(Torn(c, k))) == Swap(s, image, writable, c.file)
    ensures var (o, out) := Swap(s, image, writable, Some(Torn(c, k)));
            && out == Opened(true) && Running(o, image) && o.base == s.base
            && FlatOf(o) == Flat(Durable(c), Durable(c), {}, writable)
  {
    hide View, Agrees, Batch, Encode, Json;
    CrashBeforeCommit(c, image, k, writable);
    OpenRuns(s, c, image, writable);
  }

  lemma WritingRuns(s: Store, c: Store, image: seq<byte>, k: nat, writable: bool)
    requires Running(c, image) && c.base == s.base && c.file.Some? && k <= |Encode(Batch(c))|
    ensures var (o, out) := Swap(s, image, writable, Some(Torn(c, k)));
            && out == Opened(true) && Running(o, image) && o.base == s.base
            && FlatOf(o) == Flat(Durable(o), Durable(o), {}, writable)
            && (Durable(o) == Durable(c) || Durable(o) == View(c))
  {
    hide View, Agrees, Batch, Encode, Json, Swap;
    if k < |Encode(Batch(c))| {
      TornRuns(s, c, image, k, writable);
    } else {
      assert Encode(Batch(c))[..|Encode(Batch(c))|] == Encode(Batch(c));
      SyncedRuns(c, image);
      OpenRuns(s, Synced(c), image, writable);
    }
  }

  lemma CompactedBase(c: Store, done: bool)
    requires Valid(c) && c.file.Some? && Valid(Synced(c))
    ensures Compacted(Synced(c), done).base == c.base
  {
    hide Valid;
  }

  lemma DieRuns(s: Store, t: Store, image: seq<byte>, crash: Crash, writable: bool)
    requires Running(t, image) && t.base == s.base
    ensures var (o, out) := Swap(s, image, writable, Remains(t, crash));
            && out == Opened(true) && Running(o, image) && o.base == s.base
            && FlatOf(o) == Flat(Durable(o), Durable(o), {}, writable)
            && (match crash
                case Idle => Durable(o) == Durable(t)
                case Writing(k) => Durable(o) == Durable(t) || Durable(o) == View(t)
                case Renaming(_) => Durable(o) == View(t))
  {
    hide View, Agrees, Encode, Synced, Compacted, Swap, Valid, MetaFits;
    assert t.dirty == map[] ==> t.(dirty := map[]) == t;
    OpenRuns(s, t, image, writable);
    if t.dirty != map[] && !crash.Idle? {
      var c := Created(t);
      CreatedRuns(t, image);
      SyncedRuns(c, image);
      match crash
      case Writing(k) =>
        WritingRuns(s, c, image, Min(k, |Encode(Batch(c))|), writable);
      case Renaming(done) =>
        CompactedRuns(Synced(c), image, done);
        CompactedBase(c, done);
        OpenRuns(s, Compacted(Synced(c), done), image, writable);
    }
  }

  lemma StoppedRefines(s: Store, image: seq<byte>, at: nat, buf: seq<byte>, io: Io, fails: set<u32>)
    requires Running(s, image) && CanWrite(s, at, buf) && Reach(s, at, |buf|, fails) < |buf|
    ensures var (t, n) := Write(s, at, buf, io, fails);
            && Running(t, image) && t.base == s.base && n.None?
            && FlatWrite(FlatOf(s), at, buf, io, fails, n, FlatOf(t))
  {
    hide Agrees, MetaFits, View, Durable, Sync, Splice, Reach, Put, Touched, StopsAt, OnDisk;
    var k := Reach(s, at, |buf|, fails);
    ReachIsFirst(s, at, |buf|, fails);
    PutRuns(s, image, at, buf[..k]);
    PutGathers(s, at, buf[..k]);
    assert |buf[..k]| == k;
  }

  lemma GatheredRefines(s: Store, image: seq<byte>, at: nat, buf: seq<byte>, io: Io, fails: set<u32>)
    requires Running(s, image) && CanWrite(s, at, buf) && Reach(s, at, |buf|, fails) == |buf|
    ensures var (t, n) := Write(s, at, buf, io, fails);
            && Running(t, image) && t.base == s.base
            && FlatWrite(FlatOf(s), at, buf, io, fails, n, FlatOf(t))
  {
    hide Agrees, MetaFits, View, Durable, Sync, Splice, Reach, Put, Touched, StopsAt;
    assert buf[..|buf|] == buf;
    PutRuns(s, image, at, buf);
    PutGathers(s, at, buf);
    var t := Put(s, at, buf);
    assert |t.dirty| == |t.dirty.Keys|;
    SyncRuns(t, image, io);
    SyncBase(t, io);
    SyncPending(t, io);
  }

  lemma WriteRefines(s: Store, image: seq<byte>, at: nat, buf: seq<byte>, io: Io, fails: set<u32>)
    requires Running(s, image)
    ensures var (t, n) := Write(s, at, buf, io, fails);
            && Running(t, image) && t.base == s.base
            && FlatNext(FlatOf(s), PWrite(at, buf, io, fails), Count(n), FlatOf(t))
  {
    hide Agrees, MetaFits, View, Durable, Sync, Splice, Reach, Put, Touched, StopsAt;
    if CanWrite(s, at, buf) {
      if Reach(s, at, |buf|, fails) < |buf| {
        StoppedRefines(s, image, at, buf, io, fails);
      } else {
        GatheredRefines(s, image, at, buf, io, fails);
      }
    }
  }

  /** Refinement, one step: from a state a run can be in, every operation and
      every crash does what the flat array does, and leaves such a state. */
  lemma StepRefines(s: Store, image: seq<byte>, op: Op)
    requires Running(s, image)
    ensures var (t, out) := Next(s, image, op);
            Running(t, image) && t.base == s.base && FlatNext(FlatOf(s), op, out, FlatOf(t))
  {
    hide Agrees, MetaFits, View, Durable, Sync, Swap, Remains, Splice;
    match op
    case PWrite(at, buf, io, fails) => WriteRefines(s, image, at, buf, io, fails);
    case PRead(at, n, fails) =>
    case Flush(io) =>
      SyncRuns(s, image, io);
      SyncBase(s, io);
      SyncPending(s, io);
    case Reopen(io, writable) =>
      SyncRuns(s, image, io);
      SyncBase(s, io);
      OpenRuns(s, Sync(s, io).0, image, writable);
    case Die(at, buf, crash, writable) =>
      if CanWrite(s, at, buf) {
        PutRuns(s, image, at, buf);
        DieRuns(s, Put(s, at, buf), image, crash, writable);
      } else {
        DieRuns(s, s, image, crash, writable);
      }
  }

  // ------------------------------------------------------------------- whole runs

  function Run(s: Store, image: seq<byte>, ops: seq<Op>): (r: (Store, seq<Out>))
    requires Running(s, image)
    decreases |ops|
  {
    if ops == [] then (s, [])
    else
      StepRefines(s, image, ops[0]);
      var (t, out) := Next(s, image, ops[0]);
      var (u, outs) := Run(t, image, ops[1..]);
      (u, [out] + outs)
  }

  ghost predicate FlatRun(f: Flat, ops: seq<Op>, outs: seq<Out>, g: Flat)
    decreases |ops|
  {
    |outs| == |ops| &&
    if ops == [] then g == f
    else exists h :: FlatNext(f, ops[0], outs[0], h) && FlatRun(h, ops[1..], outs[1..], g)
  }

  /** Refinement: every run of writes, reads, syncs, reopenings and crashes
      gives the answers of a run of the flat array. */
  lemma {:induction false} RunRefines(s: Store, image: seq<byte>, ops: seq<Op>)
    requires Running(s, image)
    ensures var (t, outs) := Run(s, image, ops);
            Running(t, image) && FlatRun(FlatOf(s), ops, outs, FlatOf(t))
    decreases |ops|
  {
    hide Valid, Agrees, MetaFits, FlatOf, FlatNext, Next;
    if ops != [] {
      StepRefines(s, image, ops[0]);
      var (t, out) := Next(s, image, ops[0]);
      var (u, outs) := Run(t, image, ops[1..]);
      RunRefines(t, image, ops[1..]);
      assert Run(s, image, ops).1[1..] == outs;
      assert FlatNext(FlatOf(s), ops[0], out, FlatOf(t)) && FlatRun(FlatOf(t), ops[1..], outs, FlatOf(u));
    }
  }

  /** What a write of 4096 gathered blocks or more, and of fewer, comes to: in the
      one case all is durable and nothing is left in memory, in the other the file
      is as it was. A write fails only where a block cannot be read, or where the
      flush cannot be done. */
  lemma WriteFlushes(s: Store, image: seq<byte>, at: nat, buf: seq<byte>, io: Io, fails: set<u32>)
    requires Running(s, image) && s.writable && at + |buf| <= Size(s)
    ensures var (t, out) := Next(s, image, PWrite(at, buf, io, fails));
            var all := s.dirty.Keys + Touched(at, |buf|);
            && Running(t, image) && out.Count?
            && (|all| < 4096 ==> t.file == s.file && t.index == s.index && t.dirty.Keys <= all)
            && (|all| >= 4096 && out.n.Some? ==> t.dirty == map[] && Durable(t) == View(t))
            && (out.n.Some? ==> View(t) == Splice(View(s), at, buf))
            && (fails == {} && (|all| < 4096 || (io.create && io.write)) ==> out.n == Some(|buf|))
  {
    hide Agrees, MetaFits, View, Durable, Splice, Touched, Write;
    WriteRefines(s, image, at, buf, io, fails);
    if |s.dirty.Keys + Touched(at, |buf|)| < 4096 {
      FewStay(s, at, buf, io, fails);
    }
  }

  lemma FewStay(s: Store, at: nat, buf: seq<byte>, io: Io, fails: set<u32>)
    requires Valid(s) && CanWrite(s, at, buf) && |s.dirty.Keys + Touched(at, |buf|)| < 4096
    ensures var t := Write(s, at, buf, io, fails).0;
            t.file == s.file && t.index == s.index && t.dirty.Keys <= s.dirty.Keys + Touched(at, |buf|)
  {
    hide Splice, Touched, Put, Reach, Sync;
    var k := Reach(s, at, |buf|, fails);
    var t := Put(s, at, buf[..k]);
    PutFrame(s, at, buf[..k]);
    PutGathers(s, at, buf[..k]);
    TouchedSplits(at, |buf|, k);
    assert |t.dirty| == |t.dirty.Keys|;
    if k == |buf| {
      assert t.dirty.Keys == s.dirty.Keys + Touched(at, |buf|);
    }
  }

  /** A run none of whose writes fails. */
  predicate NoneFails(outs: seq<Out>) {
    forall i :: 0 <= i < |outs| && outs[i].Count? ==> outs[i].n.Some?
  }

  lemma {:induction false} FlatRunUnder(f: Flat, ops: seq<Op>, outs: seq<Out>, g: Flat)
    requires FlatRun(f, ops, outs, g) && NoneFails(outs) && |f.pending| < 4096
    ensures |g.pending| < 4096
    decreases |ops|
  {
    hide Touched, StopsAt, Written;
    if ops != [] {
      var h :| FlatNext(f, ops[0], outs[0], h) && FlatRun(h, ops[1..], outs[1..], g);
      FlatRunUnder(h, ops[1..], outs[1..], g);
    }
  }

  /** What is in memory is bounded: in a run from under 4096 blocks gathered whose
      writes all succeed there are always under 4096. */
  lemma RunUnder(s: Store, image: seq<byte>, ops: seq<Op>)
    requires Running(s, image) && |s.dirty| < 4096 && NoneFails(Run(s, image, ops).1)
    ensures |Run(s, image, ops).0.dirty| < 4096
  {
    hide Agrees, MetaFits, FlatRun, View, Durable;
    RunRefines(s, image, ops);
    var (t, outs) := Run(s, image, ops);
    assert |s.dirty| == |s.dirty.Keys| && |t.dirty| == |t.dirty.Keys|;
    FlatRunUnder(FlatOf(s), ops, outs, FlatOf(t));
  }

  /** Whatever failed before: a write that succeeds leaves under 4096. */
  lemma {:induction false} WriteLeavesUnder(s: Store, image: seq<byte>, ops: seq<Op>)
    requires Running(s, image) && ops != [] && ops[|ops| - 1].PWrite?
    ensures var (t, outs) := Run(s, image, ops);
            outs != [] && (outs[|outs| - 1] != Count(None) ==> |t.dirty| < 4096)
    decreases |ops|
  {
    hide Agrees, MetaFits, Next, View, Durable, Touched, StopsAt;
    StepRefines(s, image, ops[0]);
    var (t, out) := Next(s, image, ops[0]);
    if |ops| > 1 {
      WriteLeavesUnder(t, image, ops[1..]);
    } else {
      assert |t.dirty| == |t.dirty.Keys|;
    }
  }

  /** An overlay of no file yet reads as the image and is where runs start, for
      any image whose size and name fit. */
  lemma NewDisk(base: seq<byte>, image: seq<byte>, writable: bool)
    requires |base| <= DISK_MAX && |Json(image, |base|)| <= 65536
    ensures var s := Open(base, image, writable, None).value;
            Running(s, image) && FlatOf(s) == Flat(base, base, {}, writable)
  {
    var s := Open(base, image, writable, None).value;
    assert s.(dirty := map[]) == s;
    forall i | 0 <= i < |base|
      ensures View(s)[i] == base[i]
    {
      assert PageAt(s, i / 4096) == BasePage(base, i / 4096);
    }
    assert View(s) == base;
  }

  /** Bytes no write has touched are the image's, and zeros past its end. */
  lemma UntouchedByte(s: Store, i: nat)
    requires Valid(s) && i < Size(s) && i / 4096 !in s.dirty && i / 4096 !in s.index
    ensures View(s)[i] == if i < |s.base| then s.base[i] else 0
  {
    assert ByteAt(s, i) == BasePage(s.base, i / 4096)[i % 4096];
  }

  /** A file is refused exactly if it does not start with XOVL and format 1. */
  lemma RefusedIff(base: seq<byte>, image: seq<byte>, writable: bool, file: seq<byte>)
    ensures Open(base, image, writable, Some(file)).None? <==>
            |file| < 8 || file[..8] != [88, 79, 86, 76, 1, 0, 0, 0]
  {
    hide Scan, NameOf, SizeOf;
  }

  /** So does any file there is, ending in a write cut short or not: it is cut
      back to its last commit. */
  lemma OldDisk(base: seq<byte>, image: seq<byte>, writable: bool, file: seq<byte>)
    requires HasHeader(file)
    requires var s := Open(base, image, writable, Some(file)).value; Size(s) <= DISK_MAX && MetaFits(s)
    ensures var s := Open(base, image, writable, Some(file)).value;
            Running(s, image) && s.file.Some? && s.file.value <= file && View(s) == Durable(s)
  {
    hide Scan, NameOf, SizeOf, View, Json;
    OpenAgrees(base, image, writable, Some(file));
    CutBackIsWhole(file);
    var s := Open(base, image, writable, Some(file)).value;
    assert s.(dirty := map[]) == s;
  }
}
