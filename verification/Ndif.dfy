/** NDIF images made raw: the 'bcem' resource found, its chunks put at their
    sectors (provisioning/ndif.py:54-100). None is where Python raises. */
module Ndif {
  import opened Bytes
  import opened Numbers
  import opened Layout
  import opened ResourceFork
  import opened ForkCode
  import Adc

  // ------------------------------------------------------------------- the chunks

  datatype Chunk = Chunk(start: nat, kind: byte, off: nat, length: nat)
  datatype Image = Image(sectors: nat, chunks: seq<Chunk>)

  /** The first N chunk entries. */
  function ReadChunks(bcem: seq<byte>, n: nat): (r: Option<seq<Chunk>>)
    ensures r.Some? ==> |r.value| == n
  {
    if n == 0 then Some([])
    else
      var before := ReadChunks(bcem, n - 1);
      var e := 128 + (n - 1) * 12;
      if before.None? || e + 12 > |bcem| then None
      else
        var start: int, kind := Get32(bcem, e) / 0x100, bcem[e + 3];
        Some(before.value + [Chunk(start, kind, Get32(bcem, e + 4), Get32(bcem, e + 8))])
  }

  function ReadImage(bcem: seq<byte>): Option<Image> {
    if |bcem| < 128 then None
    else
      var chunks := ReadChunks(bcem, Get32(bcem, 124));
      if chunks.None? then None else Some(Image(Get32(bcem, 68), chunks.value))
  }

  /** The sector chunk K ends before: where the next starts. */
  function EndOf(x: Image, k: nat): nat
    requires k < |x.chunks|
  {
    if k + 1 < |x.chunks| then x.chunks[k + 1].start else x.sectors
  }

  function Span(x: Image, k: nat): int
    requires k < |x.chunks|
  {
    (EndOf(x, k) - x.chunks[k].start) * 512
  }

  /** What a chunk puts in the image: nothing for zeros, a comment and the end. */
  datatype Content = Nothing | Stored(bytes: seq<byte>) | Unsupported

  function ContentOf(data: seq<byte>, c: Chunk, span: int): Content {
    if c.kind == 0 || c.kind == 0xF0 || c.kind == 0xFF then Nothing
    else if c.kind == 2 then Stored(Slice(data, c.off, c.off + c.length))
    else if c.kind == 0x83 then
      var chunk := Adc.Decompress(Slice(data, c.off, c.off + c.length), span);
      if chunk.None? then Unsupported else Stored(chunk.value)
    else Unsupported
  }

  /** out[at:at + len(chunk)] = chunk, which may reach past the end. */
  function Put(output: seq<byte>, at: nat, chunk: seq<byte>): seq<byte> {
    Slice(output, 0, at) + chunk + Slice(output, at + |chunk|, |output|)
  }

  /** The image after the first N chunks. */
  function Placed(data: seq<byte>, x: Image, n: nat): Option<seq<byte>>
    requires n <= |x.chunks|
  {
    if n == 0 then Some(Zeros(x.sectors * 512))
    else
      var before := Placed(data, x, n - 1);
      if before.None? then None
      else
        match ContentOf(data, x.chunks[n - 1], Span(x, n - 1))
        case Nothing => before
        case Stored(chunk) => Some(Put(before.value, x.chunks[n - 1].start * 512, chunk))
        case Unsupported => None
  }

  function RawImage(data: seq<byte>, bcem: seq<byte>): Option<seq<byte>> {
    var x := ReadImage(bcem);
    if x.None? then None else Placed(data, x.value, |x.value.chunks|)
  }

  // ------------------------------------------------------------ the entries' format

  /** A chunk entry: start sector in three bytes, kind in one, offset and length
      in four. */
  function ChunkBytes(c: Chunk): (s: seq<byte>)
    ensures |s| == 12
  {
    Be(c.start, 3) + [c.kind] + Be32(c.off) + Be32(c.length)
  }

  predicate ChunkFits(c: Chunk) {
    c.start < 0x100_0000 && c.off < 0x1_0000_0000 && c.length < 0x1_0000_0000
  }

  lemma ChunkIff(s: seq<byte>, e: nat, c: Chunk)
    requires e + 12 <= |s| && ChunkFits(c)
    ensures s[e..e + 12] == ChunkBytes(c) <==>
            && Get32(s, e) / 0x100 == c.start && s[e + 3] == c.kind
            && Get32(s, e + 4) == c.off && Get32(s, e + 8) == c.length
  {
    hide Be32, Get32;
    var word := Be(c.start, 3) + [c.kind];
    TakeApart(s, e, word + Be32(c.off), Be32(c.length));
    TakeApart(s, e, word, Be32(c.off));
    Get32Back(s, e + 4, c.off);
    Get32Back(s, e + 8, c.length);
    StartAndKind(s, e, c.start, c.kind);
  }

  lemma StartAndKind(s: seq<byte>, e: nat, start: nat, kind: byte)
    requires e + 4 <= |s| && start < 0x100_0000
    ensures s[e..e + 4] == Be(start, 3) + [kind] <==> Get32(s, e) / 0x100 == start && s[e + 3] == kind
  {
    var w := s[e..e + 4];
    assert w == w[..3] + [w[3]];
    BeRoundTrip(start, w[..3]);
    assert Limit(3) == 0x100_0000 by {
      assert Limit(1) == 0x100;
    }
    assert (Be(start, 3) + [kind])[..3] == Be(start, 3);
  }

  /** A 'bcem' reads as given chunks exactly when their entries are there, one
      after another from byte 128 on. */
  lemma {:induction false} ReadChunksIff(bcem: seq<byte>, cs: seq<Chunk>)
    requires forall k :: 0 <= k < |cs| ==> ChunkFits(cs[k])
    ensures ReadChunks(bcem, |cs|) == Some(cs) <==>
            forall k :: 0 <= k < |cs| ==> EntryIs(bcem, k, cs[k])
  {
    hide ReadChunks, EntryIs;
    if cs == [] {
      NoChunks(bcem);
    } else {
      var n := |cs| - 1;
      ReadChunksIff(bcem, cs[..n]);
      NextChunkIff(bcem, cs[..n], cs[n]);
      assert cs == cs[..n] + [cs[n]];
    }
  }

  lemma NoChunks(bcem: seq<byte>)
    ensures ReadChunks(bcem, 0) == Some([])
  {
  }

  lemma NextChunkIff(bcem: seq<byte>, cs: seq<Chunk>, c: Chunk)
    requires ChunkFits(c)
    ensures ReadChunks(bcem, |cs| + 1) == Some(cs + [c]) <==>
            ReadChunks(bcem, |cs|) == Some(cs) && EntryIs(bcem, |cs|, c)
  {
    hide Get32, ChunkFits, ChunkBytes;
    var n := |cs|;
    if 140 + 12 * n <= |bcem| {
      ChunkIff(bcem, 128 + 12 * n, c);
      if ReadChunks(bcem, n).Some? {
        var start: int := Get32(bcem, 128 + 12 * n) / 0x100;
        var d := Chunk(start, bcem[131 + 12 * n], Get32(bcem, 132 + 12 * n), Get32(bcem, 136 + 12 * n));
        LastsDiffer(ReadChunks(bcem, n).value, d, cs, c);
      }
    }
  }

  lemma LastsDiffer(a: seq<Chunk>, x: Chunk, b: seq<Chunk>, y: Chunk)
    requires |a| == |b|
    ensures a + [x] == b + [y] <==> a == b && x == y
  {
    assert (a + [x])[..|a|] == a && (b + [y])[..|a|] == b;
    assert (a + [x])[|a|] == x && (b + [y])[|a|] == y;
  }

  predicate EntryIs(bcem: seq<byte>, k: nat, c: Chunk) {
    140 + 12 * k <= |bcem| && bcem[128 + 12 * k..140 + 12 * k] == ChunkBytes(c)
  }

  // ------------------------------------------------------------------- placement

  /** Chunks in the order of their sectors, within the image. */
  predicate InOrder(x: Image) {
    && (forall k, l :: 0 <= k <= l < |x.chunks| ==> x.chunks[k].start <= x.chunks[l].start)
    && (forall k :: 0 <= k < |x.chunks| ==> x.chunks[k].start <= x.sectors)
  }

  /** What is stored for a chunk stays within its sectors. */
  predicate Fits(data: seq<byte>, x: Image) {
    forall k :: 0 <= k < |x.chunks| ==>
      var c := ContentOf(data, x.chunks[k], Span(x, k));
      c.Stored? ==> |c.bytes| <= Span(x, k)
  }

  /** Byte I of the sectors of chunk K. */
  function ByteOf(data: seq<byte>, x: Image, k: nat, i: nat): byte
    requires k < |x.chunks|
  {
    var c := ContentOf(data, x.chunks[k], Span(x, k));
    if c.Stored? && i < |c.bytes| then c.bytes[i] else 0
  }

  lemma PutAt(output: seq<byte>, at: nat, chunk: seq<byte>, p: nat)
    requires at <= |output| && p < |Put(output, at, chunk)|
    ensures |Put(output, at, chunk)| == if at + |chunk| <= |output| then |output| else at + |chunk|
    ensures Put(output, at, chunk)[p] ==
            if p < at then output[p] else if p < at + |chunk| then chunk[p - at] else output[p]
  {
  }

  lemma {:induction false} LongEnough(data: seq<byte>, x: Image, n: nat)
    requires InOrder(x) && n <= |x.chunks| && Placed(data, x, n).Some?
    ensures |Placed(data, x, n).value| >= x.sectors * 512
  {
    hide ContentOf;
    if n > 0 {
      LongEnough(data, x, n - 1);
    }
  }

  /** Chunk K lies before where chunk L starts. */
  lemma EndsBefore(x: Image, k: nat, l: nat)
    requires InOrder(x) && k < l < |x.chunks|
    ensures EndOf(x, k) <= x.chunks[l].start <= x.sectors
  {
  }

  /** Stored bytes of the first N chunks are at their sectors, whatever the other
      chunks hold. */
  lemma {:induction false} StoredInPlace(data: seq<byte>, x: Image, n: nat, k: nat, i: nat)
    requires InOrder(x) && n <= |x.chunks| && Placed(data, x, n).Some?
    requires k < n && i < Span(x, k)
    requires var c := ContentOf(data, x.chunks[k], Span(x, k)); c.Stored? && i < |c.bytes|
    ensures var raw, at := Placed(data, x, n).value, x.chunks[k].start * 512 + i;
            at < |raw| && raw[at] == ByteOf(data, x, k, i)
  {
    hide ContentOf, Put, InOrder;
    LongEnough(data, x, n);
    LongEnough(data, x, n - 1);
    var c := ContentOf(data, x.chunks[n - 1], Span(x, n - 1));
    var at, p := x.chunks[n - 1].start * 512, x.chunks[k].start * 512 + i;
    StartsWithin(x, n - 1);
    if c.Stored? {
      PutSize(Placed(data, x, n - 1).value, at, c.bytes);
    }
    if k < n - 1 {
      EndsBefore(x, k, n - 1);
      StoredInPlace(data, x, n - 1, k, i);
    }
    if c.Stored? {
      PutAt(Placed(data, x, n - 1).value, at, c.bytes, p);
    }
  }

  lemma StartsWithin(x: Image, k: nat)
    requires InOrder(x) && k < |x.chunks|
    ensures x.chunks[k].start <= EndOf(x, k) <= x.sectors
  {
  }

  lemma PutSize(output: seq<byte>, at: nat, chunk: seq<byte>)
    requires at <= |output|
    ensures |Put(output, at, chunk)| == if at + |chunk| <= |output| then |output| else at + |chunk|
  {
  }

  /** With chunks that fit, the image has just its sectors. */
  lemma {:induction false} PlacedSize(data: seq<byte>, x: Image, n: nat)
    requires InOrder(x) && Fits(data, x) && n <= |x.chunks| && Placed(data, x, n).Some?
    ensures |Placed(data, x, n).value| == x.sectors * 512
  {
    hide ContentOf, Put, InOrder;
    if n > 0 {
      PlacedSize(data, x, n - 1);
      StartsWithin(x, n - 1);
      var c := ContentOf(data, x.chunks[n - 1], Span(x, n - 1));
      if c.Stored? {
        PutSize(Placed(data, x, n - 1).value, x.chunks[n - 1].start * 512, c.bytes);
      }
    }
  }

  /** With chunks that fit, every byte of the image is that of the chunk it lies
      in, and zero where no chunk has stored one. */
  lemma {:induction false} PlacedExactly(data: seq<byte>, x: Image, n: nat, p: nat)
    requires InOrder(x) && Fits(data, x) && n <= |x.chunks| && Placed(data, x, n).Some? && p < x.sectors * 512
    ensures |Placed(data, x, n).value| == x.sectors * 512
    ensures Placed(data, x, n).value[p] == Expected(data, x, n, p)
  {
    hide ContentOf, Put, InOrder;
    PlacedSize(data, x, n);
    if n > 0 {
      PlacedSize(data, x, n - 1);
      PlacedExactly(data, x, n - 1, p);
      StartsWithin(x, n - 1);
      var c, at := ContentOf(data, x.chunks[n - 1], Span(x, n - 1)), x.chunks[n - 1].start * 512;
      if at <= p < EndOf(x, n - 1) * 512 {
        NotBefore(data, x, n - 1, p);
      }
      if c.Stored? {
        PutAt(Placed(data, x, n - 1).value, at, c.bytes, p);
      }
    }
  }

  /** The byte of the one chunk among the first N that P lies in, or zero. */
  function Expected(data: seq<byte>, x: Image, n: nat, p: nat): byte
    requires n <= |x.chunks|
  {
    if n == 0 then 0
    else if x.chunks[n - 1].start * 512 <= p < EndOf(x, n - 1) * 512 then
      ByteOf(data, x, n - 1, p - x.chunks[n - 1].start * 512)
    else Expected(data, x, n - 1, p)
  }

  /** A byte past what the first chunks cover is in none of them. */
  lemma {:induction false} NotBefore(data: seq<byte>, x: Image, n: nat, p: nat)
    requires InOrder(x) && n <= |x.chunks| && p >= (if n == 0 then 0 else EndOf(x, n - 1) * 512)
    ensures Expected(data, x, n, p) == 0
  {
    hide ByteOf, InOrder;
    if n > 1 {
      EndsBefore(x, n - 2, n - 1);
      StartsWithin(x, n - 1);
      NotBefore(data, x, n - 1, p);
    }
  }

  lemma {:induction false} ExpectedInside(data: seq<byte>, x: Image, n: nat, k: nat, i: nat)
    requires InOrder(x) && k < n <= |x.chunks| && i < Span(x, k)
    ensures Expected(data, x, n, x.chunks[k].start * 512 + i) == ByteOf(data, x, k, i)
  {
    hide ByteOf, InOrder;
    if k < n - 1 {
      EndsBefore(x, k, n - 1);
      ExpectedInside(data, x, n - 1, k, i);
    }
  }

  lemma {:induction false} ExpectedBefore(data: seq<byte>, x: Image, n: nat, p: nat)
    requires InOrder(x) && n <= |x.chunks| && (n > 0 ==> p < x.chunks[0].start * 512)
    ensures Expected(data, x, n, p) == 0
  {
    hide ByteOf;
    if n > 0 {
      ExpectedBefore(data, x, n - 1, p);
    }
  }

  /** The raw image: its sectors and no more; in those of a chunk what the chunk
      stores, then zeros; zeros before the first chunk. */
  lemma RawImageBytes(data: seq<byte>, bcem: seq<byte>, p: nat, k: nat, i: nat)
    requires RawImage(data, bcem).Some?
    requires InOrder(ReadImage(bcem).value) && Fits(data, ReadImage(bcem).value)
    ensures var x, raw := ReadImage(bcem).value, RawImage(data, bcem).value;
            && |raw| == x.sectors * 512
            && (k < |x.chunks| && i < Span(x, k) ==>
                  x.chunks[k].start * 512 + i < |raw| && raw[x.chunks[k].start * 512 + i] == ByteOf(data, x, k, i))
            && (x.chunks != [] && p < x.chunks[0].start * 512 ==> p < |raw| && raw[p] == 0)
  {
    hide InOrder, Fits, ReadImage, ByteOf, Placed, Expected;
    var x := ReadImage(bcem).value;
    var n := |x.chunks|;
    PlacedSize(data, x, n);
    if k < n && i < Span(x, k) {
      StartsWithin(x, k);
      PlacedExactly(data, x, n, x.chunks[k].start * 512 + i);
      ExpectedInside(data, x, n, k, i);
    }
    if x.chunks != [] && p < x.chunks[0].start * 512 {
      StartsWithin(x, 0);
      PlacedExactly(data, x, n, p);
      ExpectedBefore(data, x, n, p);
    }
  }

  // ------------------------------------------------------- chunks that do not fit

  /** What is stored for chunk K goes on past the last sector. */
  predicate Overruns(data: seq<byte>, x: Image, k: nat)
    requires k < |x.chunks|
  {
    var c := ContentOf(data, x.chunks[k], Span(x, k));
    c.Stored? && c.bytes != [] && x.chunks[k].start * 512 + |c.bytes| > x.sectors * 512
  }

  lemma {:induction false} SectorsAfter(data: seq<byte>, x: Image, n: nat)
    requires n <= |x.chunks| && Placed(data, x, n).Some?
    ensures |Placed(data, x, n).value| >= x.sectors * 512
    ensures |Placed(data, x, n).value| == x.sectors * 512 <==> forall k :: 0 <= k < n ==> !Overruns(data, x, k)
  {
    hide ContentOf, Put;
    if n > 0 {
      SectorsAfter(data, x, n - 1);
      var c := ContentOf(data, x.chunks[n - 1], Span(x, n - 1));
      if c.Stored? {
        Lengthens(Placed(data, x, n - 1).value, x.chunks[n - 1].start * 512, c.bytes);
      }
      assert Overruns(data, x, n - 1) ==> |Placed(data, x, n).value| > x.sectors * 512;
      assert (forall k :: 0 <= k < n ==> !Overruns(data, x, k)) <==>
             (forall k :: 0 <= k < n - 1 ==> !Overruns(data, x, k)) && !Overruns(data, x, n - 1);
    }
  }

  /** A chunk lengthens what it is put in exactly if it goes on past its end. */
  lemma Lengthens(output: seq<byte>, at: nat, chunk: seq<byte>)
    ensures |Put(output, at, chunk)| >= |output|
    ensures |Put(output, at, chunk)| > |output| <==> chunk != [] && at + |chunk| > |output|
  {
  }

  /** What is decompressed is no longer than was asked for. */
  lemma DecompressedFits(src: seq<byte>, outLen: int)
    requires Adc.Decompress(src, outLen).Some?
    ensures |Adc.Decompress(src, outLen).value| <= if outLen > 0 then outLen else 0
  {
    if outLen <= 0 {
      Adc.RunNothing(src, outLen);
    }
  }

  /** So where the chunks are in order only one stored as it is can go on past the
      last sector, by as much of it as there is. */
  lemma OverrunsIff(data: seq<byte>, x: Image, k: nat)
    requires InOrder(x) && k < |x.chunks|
    ensures var c := x.chunks[k];
            Overruns(data, x, k) <==>
            c.kind == 2 && 0 < c.length && c.off < |data|
            && c.start * 512 + Min(c.length, |data| - c.off) > x.sectors * 512
  {
    hide InOrder;
    var c := x.chunks[k];
    StartsWithin(x, k);
    if c.kind == 0x83 && Adc.Decompress(Slice(data, c.off, c.off + c.length), Span(x, k)).Some? {
      DecompressedFits(Slice(data, c.off, c.off + c.length), Span(x, k));
    }
  }

  /** The image has just its sectors exactly if nothing goes on past the last one:
      of chunks in order, none that is stored as it is. */
  lemma JustSectorsIff(data: seq<byte>, bcem: seq<byte>)
    requires RawImage(data, bcem).Some?
    ensures var x, raw := ReadImage(bcem).value, RawImage(data, bcem).value;
            && |raw| >= x.sectors * 512
            && (|raw| == x.sectors * 512 <==> forall k :: 0 <= k < |x.chunks| ==> !Overruns(data, x, k))
            && (InOrder(x) ==>
                  (|raw| == x.sectors * 512 <==>
                   forall k :: 0 <= k < |x.chunks| && x.chunks[k].kind == 2 && 0 < x.chunks[k].length ==>
                     || x.chunks[k].off >= |data|
                     || x.chunks[k].start * 512 + Min(x.chunks[k].length, |data| - x.chunks[k].off) <=
                          x.sectors * 512))
  {
    hide ReadImage, Placed, InOrder, Overruns;
    var x := ReadImage(bcem).value;
    SectorsAfter(data, x, |x.chunks|);
    if InOrder(x) {
      forall k | 0 <= k < |x.chunks|
        ensures var c := x.chunks[k];
                Overruns(data, x, k) <==>
                c.kind == 2 && 0 < c.length && c.off < |data|
                && c.start * 512 + Min(c.length, |data| - c.off) > x.sectors * 512
      {
        OverrunsIff(data, x, k);
      }
    }
  }

  /** The byte that the last of the first N chunks to store one at P stores, or zero. */
  function LastStored(data: seq<byte>, x: Image, n: nat, p: nat): byte
    requires n <= |x.chunks|
  {
    if n == 0 then 0
    else
      var c, at := ContentOf(data, x.chunks[n - 1], Span(x, n - 1)), x.chunks[n - 1].start * 512;
      if c.Stored? && at <= p < at + |c.bytes| then c.bytes[p - at] else LastStored(data, x, n - 1, p)
  }

  /** Chunks that start within the image, in whatever order and however long: each
      byte, past the last sector too, is the one stored there last. */
  lemma {:induction false} LastStoredWins(data: seq<byte>, x: Image, n: nat, p: nat)
    requires n <= |x.chunks| && Placed(data, x, n).Some? && p < |Placed(data, x, n).value|
    requires forall k :: 0 <= k < |x.chunks| ==> x.chunks[k].start <= x.sectors
    ensures Placed(data, x, n).value[p] == LastStored(data, x, n, p)
  {
    hide ContentOf, Put;
    if n > 0 {
      var c, at := ContentOf(data, x.chunks[n - 1], Span(x, n - 1)), x.chunks[n - 1].start * 512;
      SectorsAfter(data, x, n - 1);
      if c.Stored? {
        PutAt(Placed(data, x, n - 1).value, at, c.bytes, p);
      }
      if p < |Placed(data, x, n - 1).value| {
        LastStoredWins(data, x, n - 1, p);
      }
    }
  }

  /** An image of one sector with 513 bytes stored in it. */
  const LONG_CHUNK: Chunk := Chunk(0, 2, 0, 513)

  function LongBcem(): (s: seq<byte>)
    ensures |s| == 140
  {
    Zeros(68) + Be32(1) + Zeros(52) + Be32(1) + ChunkBytes(LONG_CHUNK)
  }

  lemma LongBcemReads()
    ensures ReadImage(LongBcem()) == Some(Image(1, [LONG_CHUNK]))
  {
    hide Be32, Get32, ChunkBytes, ReadChunks;
    var s := LongBcem();
    assert s[68..72] == Be32(1) && s[124..128] == Be32(1) && s[128..140] == ChunkBytes(LONG_CHUNK);
    Get32Back(s, 68, 1);
    Get32Back(s, 124, 1);
    ReadChunksIff(s, [LONG_CHUNK]);
  }

  /** It comes out a byte longer than its sector. */
  lemma LongChunkLengthens()
    ensures RawImage(Zeros(513), LongBcem()).Some?
    ensures ReadImage(LongBcem()).value.sectors == 1 && |RawImage(Zeros(513), LongBcem()).value| == 513
  {
    hide ReadImage, LongBcem;
    LongBcemReads();
    var x, data := Image(1, [LONG_CHUNK]), Zeros(513);
    assert Placed(data, x, 0) == Some(Zeros(512));
    assert ContentOf(data, LONG_CHUNK, Span(x, 0)) == Stored(data);
  }

  // ------------------------------------------------------------------ the methods

  /** The data of the first resource of a type and ID. */
  function FirstOf(rs: seq<Resource>, kind: Kind, id: i16): Option<seq<byte>> {
    if rs == [] then None
    else
      var before := FirstOf(rs[..|rs| - 1], kind, id);
      var last := rs[|rs| - 1];
      if before.Some? then before
      else if last.kind == kind && last.id == id then Some(last.data)
      else None
  }

  lemma {:induction false} FirstOfMore(a: seq<Resource>, b: seq<Resource>, kind: Kind, id: i16)
    ensures FirstOf(a, kind, id).Some? ==> FirstOf(a + b, kind, id) == FirstOf(a, kind, id)
    ensures FirstOf(a, kind, id).None? ==> FirstOf(a + b, kind, id) == FirstOf(b, kind, id)
  {
    if b == [] {
      assert a + b == a;
    } else {
      var n := |b| - 1;
      FirstOfMore(a, b[..n], kind, id);
      assert (a + b)[..|a + b| - 1] == a + b[..n];
    }
  }

  lemma FirstOfOne(rs: seq<Resource>, r: Resource, kind: Kind, id: i16)
    ensures var before := FirstOf(rs, kind, id);
            FirstOf(rs + [r], kind, id) ==
            if before.Some? then before else if r.kind == kind && r.id == id then Some(r.data) else None
  {
    assert (rs + [r])[..|rs|] == rs;
  }

  lemma RefKind(v: View, kind: Kind, e: nat)
    ensures ReadRef(v, kind, e).Some? ==> ReadRef(v, kind, e).value.kind == kind
  {
    hide Get16, Get32, Slice, Signed16, ReadName;
  }

  datatype Search = Found(data: seq<byte>) | Absent | Raised

  function Sought(rs: seq<Resource>, kind: Kind, id: i16): Search {
    if FirstOf(rs, kind, id).Some? then Found(FirstOf(rs, kind, id).value) else Absent
  }

  // The finder as it goes: entries other than the one it wants it does not read.

  function LookAtRef(v: View, e: nat, id: i16): Search {
    if e + 2 > |v.rmap| then Raised
    else if Signed16(Get16(v.rmap, e)) != id then Absent
    else if e + 8 > |v.rmap| then Raised
    else
      var off := v.dataAt + Get32(v.rmap, e + 4) % 0x100_0000;
      if off + 4 > |v.fork| then Raised else Found(Slice(v.fork, off + 4, off + 4 + Get32(v.fork, off)))
  }

  function FindRefs(v: View, at: nat, n: nat, id: i16): Search {
    if n == 0 then Absent
    else
      var before := FindRefs(v, at, n - 1, id);
      if before.Absent? then LookAtRef(v, at + 12 * (n - 1), id) else before
  }

  function LookAtKind(v: View, at: nat, kind: Kind, id: i16): Search {
    if at + 8 > |v.rmap| then Raised
    else if v.rmap[at..at + 4] != kind then Absent
    else FindRefs(v, v.typesAt + Get16(v.rmap, at + 6), Get16(v.rmap, at + 4) + 1, id)
  }

  function FindKinds(v: View, n: nat, kind: Kind, id: i16): Search {
    if n == 0 then Absent
    else
      var before := FindKinds(v, n - 1, kind, id);
      if before.Absent? then LookAtKind(v, v.typesAt + 2 + 8 * (n - 1), kind, id) else before
  }

  /** The map and the number of its types; None where the finder cannot read them. */
  function MapOf(rsrc: seq<byte>): Option<(View, nat)>
    requires |rsrc| >= 16
  {
    var m := Slice(rsrc, Get32(rsrc, 4), Get32(rsrc, 4) + Get32(rsrc, 12));
    if |m| < 26 then None
    else
      var typesAt: nat := Get16(m, 24);
      if typesAt + 2 > |m| then None
      else
        Some((View(rsrc, m, Get32(rsrc, 0), typesAt, if |m| < 28 then 0 else Get16(m, 26)),
              Get16(m, typesAt) as nat + 1))
  }

  function Lookup(rsrc: seq<byte>, kind: Kind, id: i16): Search {
    if |rsrc| < 16 then Absent
    else if MapOf(rsrc).None? then Raised
    else FindKinds(MapOf(rsrc).value.0, MapOf(rsrc).value.1, kind, id)
  }

  lemma {:induction false} RefsStay(v: View, at: nat, r: nat, n: nat, id: i16)
    requires r <= n && !FindRefs(v, at, r, id).Absent?
    ensures FindRefs(v, at, n, id) == FindRefs(v, at, r, id)
  {
    hide LookAtRef;
    if r < n {
      RefsStay(v, at, r, n - 1, id);
    }
  }

  lemma {:induction false} KindsStay(v: View, t: nat, n: nat, kind: Kind, id: i16)
    requires t <= n && !FindKinds(v, t, kind, id).Absent?
    ensures FindKinds(v, n, kind, id) == FindKinds(v, t, kind, id)
  {
    hide LookAtKind;
    if t < n {
      KindsStay(v, t, n - 1, kind, id);
    }
  }

  lemma RefAgrees(v: View, kind: Kind, e: nat, id: i16)
    requires ReadRef(v, kind, e).Some?
    ensures var r := ReadRef(v, kind, e).value;
            LookAtRef(v, e, id) == if r.id == id then Found(r.data) else Absent
  {
    hide Get16, Get32, Slice, Signed16, ReadName;
  }

  lemma {:induction false} RefsAgree(v: View, kind: Kind, at: nat, n: nat, want: Kind, id: i16)
    requires ReadRefs(v, kind, at, n).Some?
    ensures Sought(ReadRefs(v, kind, at, n).value, want, id) == if kind == want then FindRefs(v, at, n, id) else Absent
  {
    hide ReadRef, FirstOf, LookAtRef;
    if n == 0 {
      FirstOfNone(want, id);
    } else {
      RefsAgree(v, kind, at, n - 1, want, id);
      var e := at + 12 * (n - 1);
      RefKind(v, kind, e);
      RefAgrees(v, kind, e, id);
      FirstOfOne(ReadRefs(v, kind, at, n - 1).value, ReadRef(v, kind, e).value, want, id);
    }
  }

  lemma FirstOfNone(kind: Kind, id: i16)
    ensures FirstOf([], kind, id) == None
  {
  }

  lemma {:induction false} KindsAgree(v: View, n: nat, kind: Kind, id: i16)
    requires ReadKinds(v, n).Some?
    ensures FindKinds(v, n, kind, id) == Sought(ReadKinds(v, n).value, kind, id)
  {
    hide Get16, ReadRefs, FirstOf, FindRefs;
    if n == 0 {
      FirstOfNone(kind, id);
    } else {
      KindsAgree(v, n - 1, kind, id);
      var at := v.typesAt + 2 + 8 * (n - 1);
      var type_: Kind := v.rmap[at..at + 4];
      var first, count := v.typesAt + Get16(v.rmap, at + 6), Get16(v.rmap, at + 4) + 1;
      RefsAgree(v, type_, first, count, kind, id);
      FirstOfMore(ReadKinds(v, n - 1).value, ReadRefs(v, type_, first, count).value, kind, id);
    }
  }

  /** Where read_rsrc can read the fork, resource finds what it lists first under
      the type and ID. */
  lemma LookupIsFirst(rsrc: seq<byte>, kind: Kind, id: i16)
    requires ReadFork(rsrc).Some?
    ensures Lookup(rsrc, kind, id) == Sought(ReadFork(rsrc).value, kind, id)
  {
    hide Get16, Get32, Slice, ReadKinds, FindKinds, FirstOf;
    if |rsrc| < 16 {
      FirstOfNone(kind, id);
    } else {
      KindsAgree(MapOf(rsrc).value.0, MapOf(rsrc).value.1, kind, id);
    }
  }

  /** Where it cannot, a resource among the types it reads before it raises is
      found all the same. */
  lemma LookupBeforeDamage(rsrc: seq<byte>, kind: Kind, id: i16, t: nat)
    requires |rsrc| >= 16 && MapOf(rsrc).Some? && t <= MapOf(rsrc).value.1
    requires var rs := ReadKinds(MapOf(rsrc).value.0, t); rs.Some? && FirstOf(rs.value, kind, id).Some?
    ensures Lookup(rsrc, kind, id) == Sought(ReadKinds(MapOf(rsrc).value.0, t).value, kind, id)
  {
    hide MapOf, ReadKinds, FindKinds, FirstOf;
    KindsAgree(MapOf(rsrc).value.0, t, kind, id);
    KindsStay(MapOf(rsrc).value.0, t, MapOf(rsrc).value.1, kind, id);
  }

  /** resource, as its loops. */
  method FindResource(rsrc: seq<byte>, kind: Kind, id: i16) returns (out: Search)
    ensures out == Lookup(rsrc, kind, id)
    ensures ReadFork(rsrc).Some? ==> out == Sought(ReadFork(rsrc).value, kind, id)
  {
    hide Get16, Get32, Slice, ReadFork, FindKinds, FirstOf;
    if ReadFork(rsrc).Some? {
      LookupIsFirst(rsrc, kind, id);
    }
    if |rsrc| < 16 {
      return Absent;
    }
    var dataAt: nat, mapAt: nat, size: nat := Get32(rsrc, 0), Get32(rsrc, 4), Get32(rsrc, 12);
    var m := Slice(rsrc, mapAt, mapAt + size);
    if |m| < 26 {
      return Raised;
    }
    var typesAt: nat := Get16(m, 24);
    if typesAt + 2 > |m| {
      return Raised;
    }
    var v := View(rsrc, m, dataAt, typesAt, if |m| < 28 then 0 else Get16(m, 26));
    out := FindInKinds(v, Get16(m, typesAt) as nat + 1, kind, id);
  }

  /** The types of the map, those of another name passed over. */
  method FindInKinds(v: View, n: nat, kind: Kind, id: i16) returns (out: Search)
    ensures out == FindKinds(v, n, kind, id)
  {
    hide Get16, FindRefs;
    var t := 0;
    while t < n
      invariant 0 <= t <= n && FindKinds(v, t, kind, id).Absent?
    {
      var at := v.typesAt + 2 + 8 * t;
      ghost var here := FindKinds(v, t + 1, kind, id);
      if here != Absent {
        KindsStay(v, t + 1, n, kind, id);
      }
      if at + 8 > |v.rmap| {
        return Raised;
      }
      var type_, count: nat, ref: nat := v.rmap[at..at + 4], Get16(v.rmap, at + 4), Get16(v.rmap, at + 6);
      if type_ == kind {
        var found := FindInGroup(v, v.typesAt + ref, count + 1, id);
        if !found.Absent? {
          return found;
        }
      }
      t := t + 1;
    }
    out := Absent;
  }

  /** The references of the type looked for. */
  method FindInGroup(v: View, at: nat, n: nat, id: i16) returns (out: Search)
    ensures out == FindRefs(v, at, n, id)
  {
    hide Get16, Get32, Slice, Signed16;
    var r := 0;
    while r < n
      invariant 0 <= r <= n && FindRefs(v, at, r, id).Absent?
    {
      var e := at + 12 * r;
      ghost var here := FindRefs(v, at, r + 1, id);
      if here != Absent {
        RefsStay(v, at, r + 1, n, id);
      }
      if e + 2 > |v.rmap| {
        return Raised;
      }
      if Signed16(Get16(v.rmap, e)) == id {
        if e + 8 > |v.rmap| {
          return Raised;
        }
        var off := v.dataAt + Get32(v.rmap, e + 4) % 0x100_0000;
        if off + 4 > |v.fork| {
          return Raised;
        }
        return Found(Slice(v.fork, off + 4, off + 4 + Get32(v.fork, off)));
      }
      r := r + 1;
    }
    out := Absent;
  }

  /** The sectors and the chunk entries of a 'bcem'. */
  method ReadBcem(bcem: seq<byte>) returns (x: Option<Image>)
    ensures x == ReadImage(bcem)
  {
    hide Get32;
    if |bcem| < 128 {
      return None;
    }
    var sectors: nat, n: nat := Get32(bcem, 68), Get32(bcem, 124);
    var chunks: seq<Chunk> := [];
    var k := 0;
    while k < n
      invariant 0 <= k <= n && ReadChunks(bcem, k) == Some(chunks)
    {
      var e := 128 + k * 12;
      if e + 12 > |bcem| {
        ReadChunksStop(bcem, k + 1, n);
        return None;
      }
      var start: int := Get32(bcem, e) / 0x100;
      chunks := chunks + [Chunk(start, bcem[e + 3], Get32(bcem, e + 4), Get32(bcem, e + 8))];
      k := k + 1;
    }
    x := Some(Image(sectors, chunks));
  }

  lemma {:induction false} ReadChunksStop(bcem: seq<byte>, k: nat, n: nat)
    requires k <= n && ReadChunks(bcem, k).None?
    ensures ReadChunks(bcem, n).None?
  {
    hide Get32;
    if k < n {
      ReadChunksStop(bcem, k, n - 1);
    }
  }

  const BCEM: Kind := [98, 99, 101, 109]  // 'bcem'

  /** What to_raw makes of a data fork and a resource fork: the data fork itself
      where there is no 'bcem'. */
  function Raw(data: seq<byte>, rsrc: seq<byte>): Option<seq<byte>> {
    match Lookup(rsrc, BCEM, 128)
    case Found(bcem) => RawImage(data, bcem)
    case Absent => Some(data)
    case Raised => None
  }

  /** to_raw. */
  method ToRaw(data: seq<byte>, rsrc: seq<byte>) returns (out: Option<seq<byte>>)
    ensures out == Raw(data, rsrc)
  {
    hide Lookup, RawImage;
    var bcem := FindResource(rsrc, BCEM, 128);
    match bcem {
      case Found(bytes) =>
        out := Unpack(data, bytes);
      case Absent =>
        out := Some(data);
      case Raised =>
        out := None;
    }
  }

  /** to_raw's loops, given the 'bcem'. */
  method Unpack(data: seq<byte>, bcem: seq<byte>) returns (out: Option<seq<byte>>)
    ensures out == RawImage(data, bcem)
  {
    hide ContentOf, ReadImage, Put;
    var x := ReadBcem(bcem);
    if x.None? {
      return None;
    }
    var raw := Zeros(x.value.sectors * 512);
    var k := 0;
    while k < |x.value.chunks|
      invariant 0 <= k <= |x.value.chunks|
      invariant Placed(data, x.value, k) == Some(raw)
    {
      var c := x.value.chunks[k];
      var content := ContentOf(data, c, Span(x.value, k));
      match content {
        case Nothing =>
        case Stored(chunk) =>
          raw := Put(raw, c.start * 512, chunk);
        case Unsupported =>
          PlacedStops(data, x.value, k + 1, |x.value.chunks|);
          return None;
      }
      k := k + 1;
    }
    out := Some(raw);
  }

  lemma {:induction false} PlacedStops(data: seq<byte>, x: Image, k: nat, n: nat)
    requires k <= n <= |x.chunks| && Placed(data, x, k).None?
    ensures Placed(data, x, n).None?
  {
    hide ContentOf, Put, Span;
    if k < n {
      PlacedStops(data, x, k, n - 1);
    }
  }
}
