/** The overlay as the program has it: an object whose fields its methods update
    in place, each method proved against the value-level operation
    (executor/host/overlay.cpp:178-498, executor/host/overlay.h:28-75). */
module Overlay {
  import opened Bytes
  import opened Numbers
  import opened OverlayMeta
  import opened OverlayFormat
  import opened OverlayLoad
  import opened OverlayStore
  import opened OverlayCommit
  import opened OverlayRun

  class Overlay {
    const base: seq<byte>
    const writable: bool
    var name: seq<byte>
    var metaSize: nat
    var file: Option<seq<byte>>
    var end: nat
    var version: u32
    var reset: u32
    var dead: nat
    var index: map<u32, At>
    var dirty: map<u32, Page>

    /** The object's fields as a value. */
    function Model(): Store
      reads this
    {
      Store(base, name, metaSize, writable, file, end, version, reset, dead, index, dirty)
    }

    constructor (base: seq<byte>, image: seq<byte>, writable: bool, file: Option<seq<byte>>)
      ensures Model() == Store(base, image, 0, writable, file, 0, 0, 0, 0, map[], map[])
    {
      this.base, this.name, this.writable, this.file := base, image, writable, file;
      metaSize, end, version, reset, dead := 0, 0, 0, 0, 0;
      index, dirty := map[], map[];
    }

    /** open: none when the file there is no overlay of format 1. */
    static method Make(base: seq<byte>, image: seq<byte>, writable: bool, file: Option<seq<byte>>)
      returns (o: Overlay?)
      ensures (o == null) == OverlayStore.Open(base, image, writable, file).None?
      ensures o != null ==> fresh(o) && OverlayStore.Open(base, image, writable, file) == Some(o.Model())
    {
      var made := new Overlay(base, image, writable, file);
      var ok := made.Load(image);
      o := if ok then made else null;
    }

    /** The fields and locals of a load are cursor C. */
    ghost predicate Reading(c: Cursor, good: nat, pending: seq<Pending>, meta: Option<seq<byte>>, image: seq<byte>)
      reads this
    {
      && c.log.index == index && c.log.version == version && c.log.reset == reset && c.log.dead == dead
      && name == NameOf(c.log.metas, image) && metaSize == SizeOf(c.log.metas)
      && c.log.length == good && c.pending == pending && c.meta == meta
    }

    /** The record loop of load. */
    method Load(ghost image: seq<byte>) returns (ok: bool)
      requires Model() == Store(base, image, 0, writable, file, 0, 0, 0, 0, map[], map[])
      modifies this
      ensures ok == OverlayStore.Open(base, image, writable, old(file)).Some?
      ensures ok ==> OverlayStore.Open(base, image, writable, old(file)) == Some(Model())
    {
      hide Scan, NameOf, SizeOf, GetLe32, Parse, Step, ParseBody;
      if file.None? {
        return true;
      }
      var bytes := file.value;
      if |bytes| < 8 || bytes[..8] != HEADER {
        return false;
      }
      var pending: seq<Pending> := [];
      var meta: Option<seq<byte>> := None;
      var at: nat, good: nat := 8, 8;
      var bad := false;
      ghost var c := START;
      NoMetas(image);
      while at + HEAD <= |bytes| && !bad
        invariant 8 <= at && file == old(file) && dirty == map[] && end == 0
        invariant Reading(c, good, pending, meta, image) && (bad || c.at == at)
        invariant if bad then Scan(bytes, START).log == c.log else Scan(bytes, c) == Scan(bytes, START)
        decreases |bytes| - at, !bad
      {
        ghost var r := ParseBody(bytes, at + HEAD, GetLe32(bytes, at), GetLe32(bytes, at + 4), GetLe32(bytes, at + 8));
        StepOfScan(bytes, c);
        at, good, pending, meta, bad := ReadRecord(bytes, at, good, pending, meta, c, image);
        c := After(c, r);
      }
      ScanEnds(bytes, c);
      CutBackIsWhole(bytes);
      file := Some(bytes[..good]);
      end := good;
      return true;
    }

    /** One record of the file, by its kind; bad: the log ends before it. */
    method ReadRecord(bytes: seq<byte>, at0: nat, good0: nat, pending0: seq<Pending>, meta0: Option<seq<byte>>,
                      ghost c: Cursor, ghost image: seq<byte>)
      returns (at: nat, good: nat, pending: seq<Pending>, meta: Option<seq<byte>>, bad: bool)
      requires at0 + HEAD <= |bytes| && Reading(c, good0, pending0, meta0, image) && c.at == at0
      modifies this`index, this`dead, this`reset, this`name, this`metaSize, this`version
      ensures var kind, a, b := GetLe32(bytes, at0), GetLe32(bytes, at0 + 4), GetLe32(bytes, at0 + 8);
              var r := ParseBody(bytes, at0 + HEAD, kind, a, b);
              && Reading(After(c, r), good, pending, meta, image) && bad == r.None? && at >= at0 + HEAD
              && (bad || After(c, r).at == at)
    {
      hide NameOf, SizeOf, Committed, GetLe32;
      var kind, a, b := GetLe32(bytes, at0), GetLe32(bytes, at0 + 4), GetLe32(bytes, at0 + 8);
      at, good, pending, meta, bad := at0 + HEAD, good0, pending0, meta0, false;
      if kind == 1 {
        if at + BLOCK > |bytes| {
          bad := true;
        } else {
          pending := pending + [Pending(a, At(b, at))];
          at := at + BLOCK;
        }
      } else if kind == 2 {
        if at + a > |bytes| || a > META_MAX {
          bad := true;
        } else {
          meta := Some(bytes[at..at + a]);
          at := at + a;
        }
      } else if kind == 3 {
        CommitRecord(c, pending, meta, a, b, image);
        pending, meta, good := [], None, at;
      } else {
        bad := true;
      }
    }

    /** A commit record: what it vouches for counts from now on. */
    method CommitRecord(ghost c: Cursor, pending: seq<Pending>, meta: Option<seq<byte>>, a: u32, b: u32,
                        ghost image: seq<byte>)
      requires c.log.index == index && c.log.reset == reset && c.log.dead == dead
      requires c.pending == pending && c.meta == meta
      requires name == NameOf(c.log.metas, image) && metaSize == SizeOf(c.log.metas)
      modifies this`index, this`dead, this`reset, this`name, this`metaSize, this`version
      ensures var log := Committed(c, a, b);
              && log.index == index && log.version == version && log.reset == reset && log.dead == dead
              && name == NameOf(log.metas, image) && metaSize == SizeOf(log.metas) && log.length == c.at + HEAD
    {
      hide NameOf, SizeOf, ParseName, ParseSize;
      if b != reset {
        dead := dead + |index|;
        index := map[];
        reset := b;
      }
      SettlePending(pending);
      if meta.Some? {
        AppendMeta(c.log.metas, meta.value, image);
        name, metaSize := ParseName(meta.value, name), ParseSize(meta.value, metaSize);
      }
      version := a;
    }

    /** The blocks a commit vouches for, into the index. */
    method SettlePending(pending: seq<Pending>)
      modifies this`index, this`dead
      ensures index == Settle(old(index), pending)
      ensures dead == old(dead) + Superseded(old(index), pending)
    {
      var i := 0;
      while i < |pending|
        invariant 0 <= i <= |pending|
        invariant Settle(index, pending[i..]) == Settle(old(index), pending)
        invariant dead + Superseded(index, pending[i..]) == old(dead) + Superseded(old(index), pending)
      {
        var p := pending[i];
        assert pending[i..][1..] == pending[i + 1..];
        if p.number in index {
          dead := dead + 1;
        }
        index := index[p.number := p.at];
        i := i + 1;
      }
    }

    static ghost function After(c: Cursor, r: Option<Record>): Cursor {
      if r.Some? then Step(c, r.value) else c
    }

    static lemma StepOfScan(file: seq<byte>, c: Cursor)
      requires c.at + HEAD <= |file|
      ensures var body := c.at + HEAD;
              var r := ParseBody(file, body, GetLe32(file, c.at), GetLe32(file, c.at + 4), GetLe32(file, c.at + 8));
              Scan(file, c) == if r.None? then c else Scan(file, After(c, r))
    {
      hide ParseBody, Step;
    }

    static lemma ScanEnds(file: seq<byte>, c: Cursor)
      ensures c.at + HEAD > |file| ==> Scan(file, c) == c
    {
    }

    static lemma NoMetas(image: seq<byte>)
      ensures NameOf([], image) == image && SizeOf([]) == 0
    {
    }

    static lemma AppendMeta(metas: seq<seq<byte>>, json: seq<byte>, image: seq<byte>)
      ensures NameOf(metas + [json], image) == ParseName(json, NameOf(metas, image))
      ensures SizeOf(metas + [json]) == ParseSize(json, SizeOf(metas))
    {
      assert (metas + [json])[..|metas|] == metas;
    }

    // ------------------------------------------------------------------ contents

    /** readBlock: from the newest layer that has it. None: that layer cannot be
        read there. */
    method ReadBlock(b: u32, fails: set<u32>) returns (out: Option<Page>)
      requires Valid(Model())
      ensures out == if OnDisk(Model(), b) && b in fails then None else Some(PageAt(Model(), b))
    {
      if b in dirty {
        return Some(dirty[b]);
      }
      if b in index {
        if b in fails {
          return None;
        }
        var o := index[b].offset;
        return Some(file.value[o..o + BLOCK]);
      }
      var at := b * 4096;
      if at >= |base| {
        var zeros := Zeros(BLOCK);
        assert zeros == BasePage(base, b);
        return Some(zeros);
      }
      if b in fails {
        return None;
      }
      var n := Min(BLOCK, |base| - at);
      var page := base[at..at + n] + Zeros(BLOCK - n);
      assert page == BasePage(base, b);
      out := Some(page);
    }

    /** A block no layer shadows is the image's. */
    static lemma UnshadowedByte(s: Store, i: nat)
      requires Valid(s) && i < Size(s)
      requires i / 4096 !in s.dirty && i / 4096 !in s.index
      ensures View(s)[i] == if i < |s.base| then s.base[i] else 0
    {
      hide Size;
      assert PageAt(s, i / 4096) == BasePage(s.base, i / 4096);
    }

    /** How many bytes from AT on, LIMIT at most, come from blocks that only the
        image has. */
    method RunLength(at: nat, limit: nat) returns (run: nat)
      requires at % 4096 == 0 && BLOCK <= limit && at + limit <= DISK_MAX
      requires at / 4096 !in dirty && at / 4096 !in index
      ensures BLOCK <= run <= limit
      ensures forall k :: at <= k < at + run ==> k / 4096 !in dirty && k / 4096 !in index
    {
      var b := at / 4096;
      run := BLOCK;
      while run + BLOCK <= limit && b + run / 4096 !in dirty && b + run / 4096 !in index
        invariant BLOCK <= run <= limit && run % 4096 == 0
        invariant forall k :: at <= k < at + run ==> k / 4096 !in dirty && k / 4096 !in index
      {
        assert forall k :: at + run <= k < at + run + 4096 ==> k / 4096 == b + run / 4096;
        run := run + BLOCK;
      }
    }

    /** RUN bytes of the image at AT, zeros past its end, into BUF at DONE. */
    method CopyRun(buf: array<byte>, done: nat, run: nat, at: nat, fails: set<u32>) returns (ok: bool)
      requires Valid(Model()) && done + run <= buf.Length && at + run <= Size(Model()) && at % 4096 == 0
      requires forall k :: at <= k < at + run ==> k / 4096 !in dirty && k / 4096 !in index
      modifies buf
      ensures ok == CanRead(Model(), at, run, fails)
      ensures ok ==> forall i :: done <= i < done + run ==> buf[i] == View(Model())[at + (i - done)]
      ensures forall i :: 0 <= i < buf.Length && !(done <= i < done + run) ==> buf[i] == old(buf[i])
    {
      hide CanRead, View, PageAt;
      var available := if at < |base| then |base| - at else 0;
      var fromBase := Min(run, available);
      RunReadable(Model(), at, run, fails);
      ghost var view := View(Model());
      if exists b :: b in fails && at / 4096 <= b && b * 4096 < at + fromBase {
        return false;
      }
      ok := true;
      forall i | 0 <= i < fromBase {
        buf[done + i] := base[at + i];
      }
      forall i | fromBase <= i < run {
        buf[done + i] := 0;
      }
      forall i | done <= i < done + run
        ensures buf[i] == view[at + (i - done)]
      {
        var k := i - done;
        assert buf[done + k] == if k < fromBase then base[at + k] else 0;
        UnshadowedByte(Model(), at + k);
      }
    }

    /** An unshadowed run can be read if none of the image's blocks in it fails. */
    static lemma RunReadable(s: Store, at: nat, run: nat, fails: set<u32>)
      requires Valid(s) && at % 4096 == 0 && at + run <= Size(s)
      requires forall k :: at <= k < at + run ==> k / 4096 !in s.dirty && k / 4096 !in s.index
      ensures CanRead(s, at, run, fails) <==>
              forall b :: b in fails && at / 4096 <= b ==> b * 4096 >= at + run || b * 4096 >= |s.base|
    {
      hide Valid, Size;
      if CanRead(s, at, run, fails) {
        forall b | b in fails && at / 4096 <= b && b * 4096 < at + run
          ensures b * 4096 >= |s.base|
        {
          assert ReadableAt(s, b * 4096, fails);
        }
      }
    }

    /** LEN bytes at AT, within one block, into BUF at DONE. */
    method CopyPart(buf: array<byte>, done: nat, len: nat, at: nat, fails: set<u32>) returns (ok: bool)
      requires Valid(Model()) && done + len <= buf.Length && at + len <= Size(Model()) && 0 < len <= BLOCK - at % 4096
      modifies buf
      ensures ok == CanRead(Model(), at, len, fails)
      ensures ok ==> forall i :: done <= i < done + len ==> buf[i] == View(Model())[at + (i - done)]
      ensures forall i :: 0 <= i < buf.Length && !(done <= i < done + len) ==> buf[i] == old(buf[i])
    {
      var within := at % 4096;
      var block := ReadBlock(at / 4096, fails);
      PartReadable(Model(), at, len, fails);
      if block.None? {
        return false;
      }
      ok := true;
      forall i | 0 <= i < len {
        buf[done + i] := block.value[within + i];
      }
      forall i | done <= i < done + len
        ensures buf[i] == View(Model())[at + (i - done)]
      {
        var k := i - done;
        assert buf[done + k] == block.value[within + k];
        SameBlock(at, len, at + k);
      }
    }

    static lemma PartReadable(s: Store, at: nat, len: nat, fails: set<u32>)
      requires Valid(s) && at + len <= Size(s) && 0 < len <= BLOCK - at % 4096
      ensures CanRead(s, at, len, fails) <==> ReadableAt(s, at, fails)
    {
      hide Valid, Size;
      forall i | at <= i < at + len
        ensures i / 4096 == at / 4096
      {
        SameBlock(at, len, i);
      }
    }

    /** pread: whole blocks that only the image has are read many at a time. None:
        a block it covers cannot be read. */
    method Pread(buf: array<byte>, n: nat, offset: nat, fails: set<u32>) returns (got: Option<nat>)
      requires Valid(Model()) && n <= buf.Length
      modifies buf
      ensures got == if CanRead(Model(), offset, n, fails) then Some(|Read(Model(), offset, n)|) else None
      ensures got.Some? ==> buf[..got.value] == Read(Model(), offset, n)
      ensures forall i :: |Read(Model(), offset, n)| <= i < buf.Length ==> buf[i] == old(buf[i])
    {
      hide View, PageAt, CanRead;
      var total := Size(Model());
      ReadClipped(Model(), offset, n, fails);
      if offset >= total {
        return Some(0);
      }
      var all := Min(n, total - offset);
      ghost var view := View(Model());
      var done := 0;
      while done < all
        invariant 0 <= done <= all
        invariant forall i :: 0 <= i < done ==> buf[i] == view[offset + i]
        invariant CanRead(Model(), offset, done, fails)
        invariant Model() == old(Model())
        invariant forall i :: all <= i < buf.Length ==> buf[i] == old(buf[i])
      {
        var at := offset + done;
        var b: u32, within := at / 4096, at % 4096;
        var len := Min(BLOCK - within, all - done);
        var ok;
        if within == 0 && len == BLOCK && b !in dirty && b !in index {
          len := RunLength(at, all - done);
          ok := CopyRun(buf, done, len, at, fails);
        } else {
          ok := CopyPart(buf, done, len, at, fails);
        }
        ReadMore(Model(), offset, done, len, all, fails);
        if !ok {
          return None;
        }
        done := done + len;
      }
      got := Some(all);
    }

    static lemma ReadClipped(s: Store, offset: nat, n: nat, fails: set<u32>)
      requires Valid(s)
      ensures offset < Size(s) ==>
                CanRead(s, offset, n, fails) == CanRead(s, offset, Min(n, Size(s) - offset), fails)
      ensures offset >= Size(s) ==> CanRead(s, offset, n, fails)
      ensures CanRead(s, offset, 0, fails)
    {
      hide ReadableAt, Size;
    }

    static lemma ReadMore(s: Store, offset: nat, done: nat, len: nat, n: nat, fails: set<u32>)
      requires Valid(s) && done + len <= n && offset + n <= Size(s)
      ensures CanRead(s, offset, done, fails) && CanRead(s, offset + done, len, fails) ==>
              CanRead(s, offset, done + len, fails)
      ensures CanRead(s, offset, n, fails) ==> CanRead(s, offset + done, len, fails)
    {
      hide ReadableAt, Valid, Size;
    }

    // ------------------------------------------------------------------- writing

    /** pwrite: block by block into memory; too many blocks there go out. */
    method Pwrite(buf: seq<byte>, offset: nat, io: Io, fails: set<u32>) returns (n: Option<nat>)
      requires Valid(Model())
      modifies this
      ensures (Model(), n) == Write(old(Model()), offset, buf, io, fails)
    {
      hide Reach;
      if !writable || offset + |buf| > Size(Model()) {
        return None;
      }
      var ok := PutBytes(buf, offset, fails);
      if !ok {
        return None;
      }
      if |dirty| >= MAX_DIRTY {
        ok := Sync(io);
        if !ok {
          return None;
        }
      }
      n := Some(|buf|);
    }

    /** The loop of pwrite, to its end or a block that cannot be read. */
    method PutBytes(buf: seq<byte>, offset: nat, fails: set<u32>) returns (ok: bool)
      requires Valid(Model()) && offset + |buf| <= Size(Model())
      modifies this`dirty
      ensures var k := Reach(old(Model()), offset, |buf|, fails);
              Model() == Put(old(Model()), offset, buf[..k]) && ok == (k == |buf|)
    {
      hide Put, PutChunk, InBlock, Valid, Size, Reach, ReadableAt;
      var done := 0;
      ghost var s0 := Model();
      ghost var s := s0;
      SizeFits(s);
      ghost var k := Reach(s0, offset, |buf|, fails);
      ghost var goal := Put(s, offset, buf[..k]);
      assert buf[..k][done..] == buf[..k];
      while done < |buf|
        invariant 0 <= done <= k
        invariant Model() == s && Valid(s) && offset + |buf| <= Size(s)
        invariant k == done + Reach(s0, offset + done, |buf| - done, fails)
        invariant Put(s, offset + done, buf[..k][done..]) == goal
        invariant forall i :: offset + done <= i < offset + |buf| ==>
                    ReadableAt(s, i, fails) == ReadableAt(s0, i, fails)
      {
        var len := InBlock(offset + done, |buf| - done);
        ReachStep(s0, offset + done, |buf| - done, fails);
        ok := PutBlock(offset + done, buf[done..done + len], fails);
        if !ok {
          assert buf[..k][done..] == [];
          PutNothing(s, offset + done);
          return;
        }
        SameChunk(offset + done, |buf| - done, k - done);
        assert buf[..k][done..done + len] == buf[done..done + len];
        PutAdvance(s, offset, buf[..k], done, len);
        ReadableAfter(s, offset + done, buf[done..done + len], |buf| - done, fails);
        s := PutChunk(s, offset + done, buf[done..done + len]);
        done := done + len;
      }
      assert buf[..k][done..] == [];
      PutNothing(s, offset + done);
      ok := true;
    }

    static lemma SizeFits(s: Store)
      requires Valid(s)
      ensures Size(s) <= DISK_MAX
    {
    }

    static lemma ReachStep(s: Store, at: nat, n: nat, fails: set<u32>)
      requires at + n <= DISK_MAX && n > 0
      ensures var m := InBlock(at, n);
              Reach(s, at, n, fails) ==
              if m < BLOCK && !ReadableAt(s, at, fails) then 0 else m + Reach(s, at + m, n - m, fails)
    {
      hide ReadableAt;
    }

    /** A shorter write has the same first chunk if it has all of it. */
    static lemma SameChunk(at: nat, n: nat, k: nat)
      requires InBlock(at, n) <= k <= n
      ensures InBlock(at, k) == InBlock(at, n)
    {
    }

    /** Putting a block in memory changes nothing for the blocks after it. */
    static lemma ReadableAfter(s: Store, at: nat, chunk: seq<byte>, n: nat, fails: set<u32>)
      requires Valid(s) && at + n <= Size(s) && n > 0 && |chunk| == InBlock(at, n)
      ensures forall i :: at + |chunk| <= i < at + n ==>
                ReadableAt(PutChunk(s, at, chunk), i, fails) == ReadableAt(s, i, fails)
    {
      hide Splice, PageAt, Size;
      forall i | at + |chunk| <= i < at + n
        ensures i / 4096 != at / 4096
      {
        assert |chunk| == BLOCK - at % 4096;
      }
    }

    static lemma PutAdvance(s: Store, offset: nat, buf: seq<byte>, done: nat, len: nat)
      requires Valid(s) && offset + |buf| <= Size(s) && done < |buf|
      requires len == InBlock(offset + done, |buf| - done)
      ensures var t := PutChunk(s, offset + done, buf[done..done + len]);
              Put(s, offset + done, buf[done..]) == Put(t, offset + (done + len), buf[done + len..])
    {
      hide Put, PutChunk, InBlock, Valid, Size;
      assert buf[done..] == buf[done..done + len] + buf[done + len..];
      PutStep(s, offset + done, buf[done..done + len], buf[done + len..]);
    }

    method PutBlock(at: nat, chunk: seq<byte>, fails: set<u32>) returns (ok: bool)
      requires Valid(Model()) && at + |chunk| <= Size(Model()) && 0 < |chunk| <= BLOCK - at % 4096
      modifies this`dirty
      ensures ok == (|chunk| == BLOCK || ReadableAt(old(Model()), at, fails))
      ensures Model() == if ok then PutChunk(old(Model()), at, chunk) else old(Model())
    {
      var b: u32, within := at / 4096, at % 4096;
      if b !in dirty {
        var block := Some(Zeros(BLOCK));
        if |chunk| < BLOCK {
          block := ReadBlock(b, fails);
        }
        if block.None? {
          return false;
        }
        dirty := dirty[b := block.value];
      }
      dirty := dirty[b := Splice(dirty[b], within, chunk)];
      ok := true;
    }

    method Create(io: Io) returns (ok: bool)
      requires Valid(Model())
      modifies this`file, this`end
      ensures ok == (old(file).Some? || io.create)
      ensures Model() == if ok then Created(old(Model())) else old(Model())
    {
      if file.Some? {
        return true;
      }
      if !io.create {
        return false;
      }
      file := Some(HEADER);
      end := |HEADER|;
      ok := true;
    }

    /** A block record for each of KEYS in turn, appended to BUF; where each
        has its data in a file that BUF goes to at START. */
    method PutBlocks(buf0: seq<byte>, start: nat, keys: set<u32>, pages: map<u32, Page>, versions: map<u32, u32>)
      returns (buf: seq<byte>, places: map<u32, At>)
      requires keys <= pages.Keys && keys <= versions.Keys
      ensures buf == buf0 + Encode(BlockRecords(keys, pages, versions))
      ensures places == Placed(keys, versions, start + |buf0|)
    {
      hide RecordBytes, Least, BlockRecords, Placed, Encode;
      var rest := keys;
      buf, places := buf0, map[];
      while rest != {}
        invariant rest <= keys && places.Keys == keys - rest
        invariant buf + Encode(BlockRecords(rest, pages, versions)) ==
                  buf0 + Encode(BlockRecords(keys, pages, versions))
        invariant places + Placed(rest, versions, start + |buf|) == Placed(keys, versions, start + |buf0|)
        decreases rest
      {
        var b := Least(rest);
        var record := RecordBytes(Block(b, versions[b], pages[b]));
        BlockStep(rest, pages, versions, start + |buf|);
        Associates(buf, record, Encode(BlockRecords(rest - {b}, pages, versions)));
        var at := At(versions[b], start + |buf| + HEAD);
        MergeNext(places, Placed(rest - {b}, versions, start + |buf| + BLOCK_RECORD), b, at);
        places := places[b := at];
        buf := buf + record;
        rest := rest - {b};
      }
      NoBlocks(pages, versions, start + |buf|);
    }

    static lemma BlockStep(keys: set<u32>, pages: map<u32, Page>, versions: map<u32, u32>, start: nat)
      requires keys <= pages.Keys && keys <= versions.Keys && keys != {}
      ensures var b := Least(keys);
              var record := RecordBytes(Block(b, versions[b], pages[b]));
              && |record| == BLOCK_RECORD
              && Encode(BlockRecords(keys, pages, versions)) ==
                   record + Encode(BlockRecords(keys - {b}, pages, versions))
              && Placed(keys, versions, start) ==
                   Placed(keys - {b}, versions, start + BLOCK_RECORD)[b := At(versions[b], start + HEAD)]
    {
      hide Least;
    }

    static lemma NoBlocks(pages: map<u32, Page>, versions: map<u32, u32>, start: nat)
      ensures Encode(BlockRecords({}, pages, versions)) == [] && Placed({}, versions, start) == map[]
    {
    }

    static lemma MergeNext(places: map<u32, At>, more: map<u32, At>, b: u32, at: At)
      requires b !in more
      ensures places + more[b := at] == places[b := at] + more
    {
    }

    /** sync: what is in memory out as one version. */
    method Sync(io: Io) returns (ok: bool)
      requires Valid(Model())
      modifies this
      ensures (Model(), ok) == OverlayRun.Sync(old(Model()), io)
    {
      hide Synced, Compacted;
      if dirty == map[] {
        return true;
      }
      ok := Create(io);
      if ok {
        SyncedValid(Model());
        ok := AppendBatch(io);
        if ok {
          MaybeCompact(io.compact);
        }
      }
    }

    /** The batch at the end of the file, then what is in memory. */
    method AppendBatch(io: Io) returns (ok: bool)
      requires Valid(Model()) && file.Some?
      modifies this
      ensures ok == io.write
      ensures Model() == if ok then Synced(old(Model())) else old(Model())
    {
      hide Valid, Encode, Placed, Size, Json, NextVersion, Shared, Batch, Preamble, BlockRecords, RecordBytes, Synced;
      ghost var s := Model();
      var v := NextVersion(Model());
      var buf := [];
      if end == 8 {
        buf := RecordBytes(Meta(Json(name, Size(Model())), 0));
      }
      PreambleBytes(s);
      assert buf == Encode(Preamble(s));
      var versions := map b | b in dirty :: v;
      var places;
      buf, places := PutBlocks(buf, end, dirty.Keys, dirty, versions);
      buf := buf + RecordBytes(Commit(v, reset));
      BatchBytes(s);
      if !io.write {
        return false;
      }
      Adopt(buf, places);
      AdoptedIsSynced(s, buf, places);
      ok := true;
    }

    static lemma AdoptedIsSynced(s: Store, buf: seq<byte>, places: map<u32, At>)
      requires s.file.Some? && buf == Encode(Batch(s))
      requires places == Placed(s.dirty.Keys, DirtyVersions(s), s.end + |Encode(Preamble(s))|)
      ensures Synced(s) == s.(
                file := Some(s.file.value + buf), end := s.end + |buf|,
                index := s.index + places, dead := s.dead + Shared(places.Keys, s.index),
                metaSize := if s.metaSize != 0 then s.metaSize else |s.base|,
                version := NextVersion(s), dirty := map[])
    {
      hide Encode, Placed, NextVersion, Shared, Batch, Preamble;
    }

    /** The fields after BUF went out with its blocks at PLACES. */
    method Adopt(buf: seq<byte>, places: map<u32, At>)
      requires file.Some?
      modifies this
      ensures Model() == old(Model()).(
                file := Some(old(file).value + buf), end := old(end) + |buf|,
                index := old(index) + places, dead := old(dead) + Shared(places.Keys, old(index)),
                metaSize := if old(metaSize) != 0 then old(metaSize) else |base|,
                version := NextVersion(old(Model())), dirty := map[])
    {
      hide Shared;
      file := Some(file.value + buf);
      UpdateIndex(places);
      if metaSize == 0 {
        metaSize := |base|;
      }
      end := end + |buf|;
      version := NextVersion(Model());
      dirty := map[];
    }

    static lemma PreambleBytes(s: Store)
      ensures Encode(Preamble(s)) == if s.end == 8 then RecordBytes(MetaOf(s)) else []
    {
      hide RecordBytes, Json;
      if s.end == 8 {
        EncodeCons(MetaOf(s), Nil);
      }
    }

    static lemma BatchBytes(s: Store)
      ensures Encode(Batch(s)) == Encode(Preamble(s)) +
                Encode(BlockRecords(s.dirty.Keys, s.dirty, DirtyVersions(s))) +
                RecordBytes(Commit(NextVersion(s), s.reset))
    {
      hide RecordBytes, Encode, BlockRecords, Preamble;
      BatchParts(s);
      BlocksAndCommitBytes(s.dirty.Keys, s.dirty, DirtyVersions(s), NextVersion(s), s.reset);
      Associates(Encode(Preamble(s)), Encode(BlockRecords(s.dirty.Keys, s.dirty, DirtyVersions(s))),
                 RecordBytes(Commit(NextVersion(s), s.reset)));
    }

    /** The blocks gone out, in the index: those it had are dead in the file. */
    method UpdateIndex(places: map<u32, At>)
      modifies this`index, this`dead
      ensures index == old(index) + places
      ensures dead == old(dead) + Shared(places.Keys, old(index))
    {
      hide Shared, Least;
      var todo := places;
      ghost var was := index;
      while todo != map[]
        invariant index + todo == was + places
        invariant forall b :: b in todo ==> (b in index <==> b in was)
        invariant dead + Shared(todo.Keys, was) == old(dead) + Shared(places.Keys, was)
        decreases todo.Keys
      {
        var b := Least(todo.Keys);
        SharedWithout(todo.Keys, was, b);
        MergeOne(index, todo, b);
        if b in index {
          dead := dead + 1;
        }
        index := index[b := todo[b]];
        todo := todo - {b};
      }
      assert index + todo == index;
      SharedNone(todo.Keys, was);
    }

    static lemma MergeOne(index: map<u32, At>, todo: map<u32, At>, b: u32)
      requires b in todo
      ensures index[b := todo[b]] + (todo - {b}) == index + todo
      ensures (todo - {b}).Keys == todo.Keys - {b}
    {
    }

    static lemma SharedWithout(keys: set<u32>, index: map<u32, At>, b: u32)
      requires b in keys
      ensures Shared(keys, index) == Shared(keys - {b}, index) + if b in index then 1 else 0
    {
      if b in index {
        assert keys * index.Keys == (keys - {b}) * index.Keys + {b};
      } else {
        assert keys * index.Keys == (keys - {b}) * index.Keys;
      }
    }

    /** maybeCompact: a new file in place of one that is mostly dead blocks. */
    method MaybeCompact(ok: bool)
      requires Valid(Model())
      modifies this`file, this`end, this`index, this`dead
      ensures Model() == Compacted(old(Model()), ok)
    {
      hide Valid, Encode, Placed, Size, Json, RecordBytes, BlockRecords, LiveRecords, Rewritten;
      if file.None? || dead < DEAD_MIN || dead < |index| {
        return;
      }
      ghost var s := Model();
      var head := HEADER + RecordBytes(Meta(Json(name, Size(Model())), 0));
      var pages, versions := IndexPages(Model()), IndexVersions(Model());
      var buf, places := PutBlocks(head, 0, index.Keys, pages, versions);
      buf := buf + RecordBytes(Commit(version, reset));
      LiveBytes(s);
      RewrittenFields(s, head, buf);
      if ok {
        file, end, index, dead := Some(buf), |buf|, places, 0;
      }
    }

    static lemma RewrittenFields(s: Store, head: seq<byte>, buf: seq<byte>)
      requires Valid(s) && head == HEADER + RecordBytes(MetaOf(s)) && buf == HEADER + Encode(LiveRecords(s))
      ensures Rewritten(s) == s.(
                file := Some(buf), end := |buf|,
                index := Placed(s.index.Keys, IndexVersions(s), |head|), dead := 0)
    {
      hide Valid, Encode, Placed, LiveRecords, RecordBytes;
    }

    static lemma LiveBytes(s: Store)
      requires Valid(s)
      ensures HEADER + Encode(LiveRecords(s)) ==
              HEADER + RecordBytes(MetaOf(s)) + Encode(BlockRecords(s.index.Keys, IndexPages(s), IndexVersions(s))) +
                RecordBytes(Commit(s.version, s.reset))
    {
      hide RecordBytes, Encode, BlockRecords, LiveRecords;
      var meta, blocks := RecordBytes(MetaOf(s)), Encode(BlockRecords(s.index.Keys, IndexPages(s), IndexVersions(s)));
      var commit := RecordBytes(Commit(s.version, s.reset));
      LiveParts(s);
      BlocksAndCommitBytes(s.index.Keys, IndexPages(s), IndexVersions(s), s.version, s.reset);
      Associates(HEADER, meta, blocks + commit);
      Associates(HEADER + meta, blocks, commit);
    }
  }
}
