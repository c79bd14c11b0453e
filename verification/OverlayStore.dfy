/** The overlay as a value: what is in memory, what is in the file, and what each
    operation makes of them (executor/host/overlay.cpp:275-498). The contents are
    read off as flat byte sequences, View with the changes gathered in memory and
    Durable without. */
module OverlayStore {
  import opened Bytes
  import opened Numbers
  import opened OverlayMeta
  import opened OverlayFormat
  import opened OverlayLoad

  const MAX_DIRTY: nat := 4096
  const DEAD_MIN: nat := 256
  const DISK_MAX: nat := 0x1000_0000_0000  // 4096 times 2^32: block numbers fit

  datatype Store = Store(
    base: seq<byte>, name: seq<byte>, metaSize: nat, writable: bool,
    file: Option<seq<byte>>, end: nat, version: u32, reset: u32, dead: nat,
    index: map<u32, At>, dirty: map<u32, Page>)

  function Size(s: Store): nat {
    if s.metaSize != 0 then s.metaSize else |s.base|
  }

  predicate Valid(s: Store) {
    && Size(s) <= DISK_MAX
    && (s.file.None? ==> s.end == 0 && s.version == 0 && s.reset == 0 && s.dead == 0 && s.index == map[])
    && (s.file.Some? ==> 8 <= s.end == |s.file.value|)
    && (forall b :: b in s.index ==> s.index[b].offset + BLOCK <= s.end)
  }

  // -------------------------------------------------------------------- contents

  /** Block B of the image, zeros past its end. */
  function BasePage(base: seq<byte>, b: u32): Page {
    seq(BLOCK, i requires 0 <= i < BLOCK => if b * 4096 + i < |base| then base[b * 4096 + i] else 0)
  }

  function PageAt(s: Store, b: u32): Page
    requires Valid(s)
  {
    if b in s.dirty then s.dirty[b]
    else if b in s.index then s.file.value[s.index[b].offset..s.index[b].offset + BLOCK]
    else BasePage(s.base, b)
  }

  function ByteAt(s: Store, i: nat): byte
    requires Valid(s) && i < DISK_MAX
  {
    PageAt(s, i / 4096)[i % 4096]
  }

  function View(s: Store): (v: seq<byte>)
    requires Valid(s)
    ensures |v| == Size(s)
  {
    seq(Size(s), i requires 0 <= i < Size(s) => ByteAt(s, i))
  }

  function Durable(s: Store): seq<byte>
    requires Valid(s)
  {
    View(s.(dirty := map[]))
  }

  // ------------------------------------------------------------ reading, writing

  function Read(s: Store, at: nat, n: nat): seq<byte>
    requires Valid(s)
  {
    if at >= Size(s) then [] else View(s)[at..at + Min(n, Size(s) - at)]
  }

  /** Block B takes a read: it is not in memory and not all past the image's end. */
  predicate OnDisk(s: Store, b: u32) {
    b !in s.dirty && (b in s.index || b * 4096 < |s.base|)
  }

  /** Byte I can be had when the system cannot read the blocks in FAILS. */
  predicate ReadableAt(s: Store, i: nat, fails: set<u32>)
    requires i < DISK_MAX
  {
    OnDisk(s, i / 4096) ==> i / 4096 !in fails
  }

  predicate CanRead(s: Store, at: nat, n: nat, fails: set<u32>)
    requires Valid(s)
  {
    forall i :: at <= i < at + n && i < Size(s) ==> ReadableAt(s, i, fails)
  }

  /** How much of N bytes at AT is in AT's block. */
  function InBlock(at: nat, n: nat): (r: nat)
    ensures r <= n && r <= BLOCK - at % 4096 && (n > 0 ==> r > 0)
  {
    Min(BLOCK - at % 4096, n)
  }

  /** CHUNK written at AT within one block: a page written whole needs no
      reading first. */
  function PutChunk(s: Store, at: nat, chunk: seq<byte>): (r: Store)
    requires Valid(s) && at + |chunk| <= Size(s) && 0 < |chunk| <= BLOCK - at % 4096
    ensures Valid(r) && Size(r) == Size(s)
  {
    var b := at / 4096;
    var page := if b !in s.dirty && |chunk| == BLOCK then Zeros(BLOCK) else PageAt(s, b);
    s.(dirty := s.dirty[b := Splice(page, at % 4096, chunk)])
  }

  function Put(s: Store, at: nat, buf: seq<byte>): (r: Store)
    requires Valid(s) && at + |buf| <= Size(s)
    ensures Valid(r) && Size(r) == Size(s)
    decreases |buf|
  {
    if buf == [] then s
    else
      var n := InBlock(at, |buf|);
      Put(PutChunk(s, at, buf[..n]), at + n, buf[n..])
  }

  /** How many of N bytes a write at AT gets into memory: all, or those before a
      block that is written in part and cannot be read. */
  function Reach(s: Store, at: nat, n: nat, fails: set<u32>): (k: nat)
    requires at + n <= DISK_MAX
    ensures k <= n && (fails == {} ==> k == n)
    decreases n
  {
    if n == 0 then 0
    else
      var m := InBlock(at, n);
      if m < BLOCK && !ReadableAt(s, at, fails) then 0 else m + Reach(s, at + m, n - m, fails)
  }

  lemma PutNothing(s: Store, at: nat)
    requires Valid(s) && at <= Size(s)
    ensures Put(s, at, []) == s
  {
  }

  lemma PutUnfolds(s: Store, at: nat, buf: seq<byte>)
    requires Valid(s) && at + |buf| <= Size(s) && buf != []
    ensures var n := InBlock(at, |buf|);
            Put(s, at, buf) == Put(PutChunk(s, at, buf[..n]), at + n, buf[n..])
  {
    hide PutChunk, InBlock, Valid, Size;
  }

  lemma PutStep(s: Store, at: nat, chunk: seq<byte>, rest: seq<byte>)
    requires Valid(s) && at + |chunk| + |rest| <= Size(s)
    requires chunk != [] && |chunk| == InBlock(at, |chunk| + |rest|)
    ensures Put(s, at, chunk + rest) == Put(PutChunk(s, at, chunk), at + |chunk|, rest)
  {
    hide Put, PutChunk, InBlock, Valid, Size;
    var buf := chunk + rest;
    PutUnfolds(s, at, buf);
    assert buf[..|chunk|] == chunk && buf[|chunk|..] == rest;
  }

  /** A write touches the pages in memory and nothing else. */
  lemma {:induction false} PutFrame(s: Store, at: nat, buf: seq<byte>)
    requires Valid(s) && at + |buf| <= Size(s)
    ensures Put(s, at, buf) == s.(dirty := Put(s, at, buf).dirty)
    decreases |buf|
  {
    hide Valid, InBlock, Size;
    if buf != [] {
      var n := InBlock(at, |buf|);
      PutFrame(PutChunk(s, at, buf[..n]), at + n, buf[n..]);
    }
  }

  lemma SameBlock(at: nat, n: nat, i: nat)
    requires 0 < n <= BLOCK - at % 4096
    ensures at <= i < at + n ==> i / 4096 == at / 4096
    ensures i / 4096 == at / 4096 ==> i - at == i % 4096 - at % 4096
  {
  }

  lemma PutChunkPage(s: Store, at: nat, chunk: seq<byte>, b: u32)
    requires Valid(s) && at + |chunk| <= Size(s) && 0 < |chunk| <= BLOCK - at % 4096
    ensures PageAt(PutChunk(s, at, chunk), b) ==
            if b != at / 4096 then PageAt(s, b)
            else if b !in s.dirty && |chunk| == BLOCK then Splice(Zeros(BLOCK), at % 4096, chunk)
            else Splice(PageAt(s, b), at % 4096, chunk)
  {
    hide BasePage, Splice;
  }

  lemma PutChunkByte(s: Store, at: nat, chunk: seq<byte>, i: nat)
    requires Valid(s) && at + |chunk| <= Size(s) && 0 < |chunk| <= BLOCK - at % 4096 && i < Size(s)
    ensures ByteAt(PutChunk(s, at, chunk), i) == if at <= i < at + |chunk| then chunk[i - at] else ByteAt(s, i)
  {
    hide PageAt, Size;
    SameBlock(at, |chunk|, i);
    PutChunkPage(s, at, chunk, i / 4096);
  }

  lemma PutChunkView(s: Store, at: nat, chunk: seq<byte>)
    requires Valid(s) && at + |chunk| <= Size(s) && 0 < |chunk| <= BLOCK - at % 4096
    ensures View(PutChunk(s, at, chunk)) == Splice(View(s), at, chunk)
  {
    hide PutChunk, ByteAt;
    var r := PutChunk(s, at, chunk);
    forall i | 0 <= i < Size(s)
      ensures View(r)[i] == Splice(View(s), at, chunk)[i]
    {
      PutChunkByte(s, at, chunk, i);
    }
  }

  lemma SpliceTwice(v: seq<byte>, at: nat, a: seq<byte>, b: seq<byte>)
    requires at + |a| + |b| <= |v|
    ensures Splice(Splice(v, at, a), at + |a|, b) == Splice(v, at, a + b)
    ensures Splice(v, at, []) == v
  {
    hide Splice;
  }

  /** Writing block by block writes the bytes, and only them. */
  lemma {:induction false} PutView(s: Store, at: nat, buf: seq<byte>)
    requires Valid(s) && at + |buf| <= Size(s)
    ensures View(Put(s, at, buf)) == Splice(View(s), at, buf)
    decreases |buf|
  {
    hide Put, PutChunk, View, Splice, Valid, InBlock, Size;
    if buf == [] {
      PutNothing(s, at);
      SpliceTwice(View(s), at, [], []);
    } else {
      var n := InBlock(at, |buf|);
      var first, rest := buf[..n], buf[n..];
      assert buf == first + rest;
      PutStep(s, at, first, rest);
      PutChunkView(s, at, first);
      PutView(PutChunk(s, at, first), at + n, rest);
      SpliceTwice(View(s), at, first, rest);
    }
  }

  // ---------------------------------------------------------------- the log file

  /** What the environment lets happen: a missing file made, a write that
      reaches the disk, a compaction that goes through. */
  datatype Io = Io(create: bool, write: bool, compact: bool)

  function MetaOf(s: Store): Record {
    Meta(Json(s.name, Size(s)), 0)
  }

  /** The name and size make a meta record load takes (64 KB at most). */
  predicate MetaFits(s: Store) {
    |Json(s.name, Size(s))| <= 65536
  }

  function Created(s: Store): Store {
    if s.file.None? then s.(file := Some(HEADER), end := 8) else s
  }

  /** The version after, in 32 bits. */
  function NextVersion(s: Store): u32 {
    if s.version + 1 == U32_LIMIT then 0 else s.version + 1
  }

  function DirtyVersions(s: Store): map<u32, u32> {
    map b | b in s.dirty :: NextVersion(s)
  }

  function IndexVersions(s: Store): map<u32, u32> {
    map b | b in s.index :: s.index[b].version
  }

  function IndexPages(s: Store): map<u32, Page>
    requires Valid(s)
  {
    map b | b in s.index :: s.file.value[s.index[b].offset..s.index[b].offset + BLOCK]
  }

  function Preamble(s: Store): Records {
    if s.end == 8 then Cons(MetaOf(s), Nil) else Nil
  }

  /** The records one sync appends. */
  function Batch(s: Store): Records {
    Append(Preamble(s), Append(BlockRecords(s.dirty.Keys, s.dirty, DirtyVersions(s)),
                               Cons(Commit(NextVersion(s), s.reset), Nil)))
  }

  function Synced(s: Store): Store
    requires s.file.Some?
  {
    s.(file := Some(s.file.value + Encode(Batch(s))),
       end := s.end + |Encode(Batch(s))|,
       index := s.index + Placed(s.dirty.Keys, DirtyVersions(s), s.end + |Encode(Preamble(s))|),
       dead := s.dead + Shared(s.dirty.Keys, s.index),
       metaSize := if s.metaSize != 0 then s.metaSize else |s.base|,
       version := NextVersion(s),
       dirty := map[])
  }

  /** The records compaction writes after a new header. */
  function LiveRecords(s: Store): Records
    requires Valid(s)
  {
    Cons(MetaOf(s), Append(BlockRecords(s.index.Keys, IndexPages(s), IndexVersions(s)),
                           Cons(Commit(s.version, s.reset), Nil)))
  }

  function Rewritten(s: Store): Store
    requires Valid(s)
  {
    s.(file := Some(HEADER + Encode(LiveRecords(s))),
       end := 8 + |Encode(LiveRecords(s))|,
       index := Placed(s.index.Keys, IndexVersions(s), 8 + |RecordBytes(MetaOf(s))|),
       dead := 0)
  }

  predicate WantsCompaction(s: Store) {
    s.file.Some? && s.dead >= DEAD_MIN && s.dead >= |s.index|
  }

  function Compacted(s: Store, ok: bool): Store
    requires Valid(s)
  {
    if WantsCompaction(s) && ok then Rewritten(s) else s
  }

  /** Opening FILE over BASE; None: it is no overlay of format 1. IMAGE is the
      name of the image file, the name until a meta record gives another. */
  function Open(base: seq<byte>, image: seq<byte>, writable: bool, file: Option<seq<byte>>): Option<Store> {
    if file.None? then Some(Store(base, image, 0, writable, None, 0, 0, 0, 0, map[], map[]))
    else if !HasHeader(file.value) then None
    else
      var log := Load(file.value);
      CutBackIsWhole(file.value);
      Some(Store(base, NameOf(log.metas, image), SizeOf(log.metas), writable,
                 Some(file.value[..log.length]), log.length, log.version, log.reset, log.dead, log.index, map[]))
  }

  /** What is in memory is what a load of the file finds: sizes as they are
      used, names as far as they can be written. */
  predicate Agrees(s: Store, image: seq<byte>) {
    match s.file
    case None => s.metaSize == 0 && Printable(s.name) == Printable(image)
    case Some(file) =>
      var log := Load(file);
      && Whole(file)
      && log.index == s.index && log.version == s.version && log.reset == s.reset && log.dead == s.dead
      && (if SizeOf(log.metas) != 0 then SizeOf(log.metas) else |s.base|) == Size(s)
      && Printable(NameOf(log.metas, image)) == Printable(s.name)
  }
}
