/** What comes of an NDIF image, told from the bytes of its entries and of its
    data fork (provisioning/ndif.py:27-100). */
module NdifProof {
  import opened Bytes
  import opened Numbers
  import opened Layout
  import opened ResourceFork
  import opened ForkCode
  import opened Ndif
  import Adc

  /** BCEM has the entries CS, one after another from byte 128. STARTS are the
      sectors they start at, in order, and how many sectors there are. */
  ghost predicate Lists(bcem: seq<byte>, starts: seq<nat>, cs: seq<Chunk>) {
    && |bcem| >= 128 && |starts| == |cs| + 1
    && starts[|cs|] < 0x1_0000_0000 && |cs| < 0x1_0000_0000
    && bcem[68..72] == Be(starts[|cs|], 4) && bcem[124..128] == Be(|cs|, 4)
    && (forall k :: 0 <= k < |cs| ==> cs[k].start == starts[k] && ChunkFits(cs[k]) && EntryIs(bcem, k, cs[k]))
    && (forall k, l :: 0 <= k <= l < |starts| ==> starts[k] <= starts[l])
  }

  /** What there is of the N bytes at OFF. */
  function InFork(data: seq<byte>, off: nat, n: nat): seq<byte> {
    if off + n <= |data| then data[off..off + n] else if off <= |data| then data[off..] else []
  }

  /** What chunk C of SPAN bytes stands for in the image: no bytes for zeros, a
      comment and the end; its own; or what they are the ADC encoding of, as far as
      there is room. */
  ghost predicate Means(data: seq<byte>, c: Chunk, span: nat, bytes: seq<byte>) {
    var own := InFork(data, c.off, c.length);
    if c.kind in {0, 0xF0, 0xFF} then bytes == []
    else if c.kind == 2 then bytes == own
    else c.kind == 0x83 && exists ts :: IsAdc(own, ts) && bytes == Cut(Adc.ExpandAll([], ts), span)
  }

  ghost predicate IsAdc(s: seq<byte>, ts: Adc.Tokens) {
    Adc.AllValid(ts, []) && s == Adc.Encode(ts, [])
  }

  function Cut(s: seq<byte>, n: nat): (r: seq<byte>)
    ensures |r| <= n && r <= s
  {
    if n < |s| then s[..n] else s
  }

  /** CONTENTS are what the chunks stand for, none of them longer than the sectors
      up to the next. */
  ghost predicate AllMean(data: seq<byte>, starts: seq<nat>, cs: seq<Chunk>, contents: seq<seq<byte>>)
    requires |starts| == |cs| + 1
    requires forall k, l :: 0 <= k <= l < |starts| ==> starts[k] <= starts[l]
  {
    && |contents| == |cs|
    && forall k :: 0 <= k < |cs| ==>
         var span: nat := 512 * (starts[k + 1] - starts[k]);
         |contents[k]| <= span && Means(data, cs[k], span, contents[k])
  }

  lemma ListsReads(bcem: seq<byte>, starts: seq<nat>, cs: seq<Chunk>)
    requires Lists(bcem, starts, cs)
    ensures ReadImage(bcem) == Some(Image(starts[|cs|], cs)) && InOrder(Image(starts[|cs|], cs))
  {
    hide ReadChunks, EntryIs, ChunkFits, Be, Get32;
    assert Be32(starts[|cs|]) == Be(starts[|cs|], 4) && Be32(|cs|) == Be(|cs|, 4);
    Get32Back(bcem, 68, starts[|cs|]);
    Get32Back(bcem, 124, |cs|);
    ReadChunksIff(bcem, cs);
  }

  lemma MeansContent(data: seq<byte>, c: Chunk, span: nat, bytes: seq<byte>)
    requires Means(data, c, span, bytes)
    ensures ContentOf(data, c, span) == if c.kind in {0, 0xF0, 0xFF} then Nothing else Stored(bytes)
  {
    hide Adc.Decompress;
    var own := InFork(data, c.off, c.length);
    SliceIsBytes(data, c.off, c.length);
    if c.kind == 0x83 {
      var ts :| IsAdc(own, ts) && bytes == Cut(Adc.ExpandAll([], ts), span);
      AdcContent(own, ts, span);
    }
  }

  lemma SliceIsBytes(data: seq<byte>, off: nat, n: nat)
    ensures Slice(data, off, off + n) == InFork(data, off, n)
  {
  }

  lemma AdcContent(s: seq<byte>, ts: Adc.Tokens, span: nat)
    requires IsAdc(s, ts)
    ensures Adc.AllValid(ts, []) && Adc.Decompress(s, span) == Some(Cut(Adc.ExpandAll([], ts), span))
  {
    hide Adc.AllValid, Adc.Encode, Adc.ExpandAll, Adc.Decompress;
    Adc.DecompressExpands(ts, span);
  }

  /** With chunks all of kinds that have a meaning there is an image. */
  lemma {:induction false} AllPlaced(
      data: seq<byte>, starts: seq<nat>, cs: seq<Chunk>, contents: seq<seq<byte>>, n: nat)
    requires |starts| == |cs| + 1 && n <= |cs|
    requires forall k, l :: 0 <= k <= l < |starts| ==> starts[k] <= starts[l]
    requires forall k :: 0 <= k < |cs| ==> cs[k].start == starts[k]
    requires AllMean(data, starts, cs, contents)
    ensures Placed(data, Image(starts[|cs|], cs), n).Some?
  {
    hide ContentOf, Means, Put;
    if n > 0 {
      AllPlaced(data, starts, cs, contents, n - 1);
      MeansContent(data, cs[n - 1], 512 * (starts[n] - starts[n - 1]), contents[n - 1]);
    }
  }

  lemma ChunkMeans(data: seq<byte>, starts: seq<nat>, cs: seq<Chunk>, contents: seq<seq<byte>>, k: nat)
    requires |starts| == |cs| + 1 && k < |cs|
    requires forall k, l :: 0 <= k <= l < |starts| ==> starts[k] <= starts[l]
    requires forall k :: 0 <= k < |cs| ==> cs[k].start == starts[k]
    requires AllMean(data, starts, cs, contents)
    ensures var x := Image(starts[|cs|], cs);
            && Span(x, k) == 512 * (starts[k + 1] - starts[k])
            && ContentOf(data, cs[k], Span(x, k)) ==
               (if cs[k].kind in {0, 0xF0, 0xFF} then Nothing else Stored(contents[k]))
            && (cs[k].kind in {0, 0xF0, 0xFF} ==> contents[k] == [])
            && forall i: nat :: ByteOf(data, x, k, i) == if i < |contents[k]| then contents[k][i] else 0
  {
    hide ContentOf;
    MeansContent(data, cs[k], 512 * (starts[k + 1] - starts[k]), contents[k]);
  }

  /** The image that is made: as many sectors as the header says, zeros up to the
      first chunk, and in the sectors of each chunk what it stands for and zeros
      after it. An ADC chunk is decompressed, one stored as it is copied. */
  lemma MadeRaw(data: seq<byte>, bcem: seq<byte>, starts: seq<nat>, cs: seq<Chunk>, contents: seq<seq<byte>>)
    requires Lists(bcem, starts, cs) && AllMean(data, starts, cs, contents)
    ensures RawImage(data, bcem).Some?
    ensures var raw := RawImage(data, bcem).value;
            && |raw| == 512 * starts[|cs|]
            && (forall p :: 0 <= p < 512 * starts[0] && p < |raw| ==> raw[p] == 0)
            && forall k :: 0 <= k < |cs| ==>
                 raw[512 * starts[k]..512 * starts[k + 1]] ==
                 contents[k] + Zeros(512 * (starts[k + 1] - starts[k]) - |contents[k]|)
  {
    hide ContentOf, ReadImage, Means, Put, EntryIs, ChunkFits, ByteOf, Placed, RawImage;
    var x := Image(starts[|cs|], cs);
    ListsReads(bcem, starts, cs);
    AllPlaced(data, starts, cs, contents, |cs|);
    RawIsPlaced(data, bcem, x);
    FitsAll(data, starts, cs, contents);
    var raw := RawImage(data, bcem).value;
    RawImageBytes(data, bcem, 0, 0, 0);
    forall p | 0 <= p < 512 * starts[0] && p < |raw|
      ensures raw[p] == 0
    {
      if cs == [] {
        NothingPlaced(data, x);
      } else {
        RawImageBytes(data, bcem, p, 0, 0);
      }
    }
    forall k | 0 <= k < |cs|
      ensures raw[512 * starts[k]..512 * starts[k + 1]] ==
              contents[k] + Zeros(512 * (starts[k + 1] - starts[k]) - |contents[k]|)
    {
      ChunkBytesMade(data, bcem, starts, cs, contents, k);
    }
  }

  lemma RawIsPlaced(data: seq<byte>, bcem: seq<byte>, x: Image)
    requires ReadImage(bcem) == Some(x)
    ensures RawImage(data, bcem) == Placed(data, x, |x.chunks|)
  {
    hide ReadImage, Placed;
  }

  lemma NothingPlaced(data: seq<byte>, x: Image)
    requires x.chunks == []
    ensures Placed(data, x, 0) == Some(Zeros(x.sectors * 512))
  {
  }

  lemma FitsAll(data: seq<byte>, starts: seq<nat>, cs: seq<Chunk>, contents: seq<seq<byte>>)
    requires |starts| == |cs| + 1
    requires forall k, l :: 0 <= k <= l < |starts| ==> starts[k] <= starts[l]
    requires forall k :: 0 <= k < |cs| ==> cs[k].start == starts[k]
    requires AllMean(data, starts, cs, contents)
    ensures Fits(data, Image(starts[|cs|], cs))
  {
    hide ContentOf, Means, Span;
    var x := Image(starts[|cs|], cs);
    forall k | 0 <= k < |cs|
      ensures var c := ContentOf(data, cs[k], Span(x, k)); c.Stored? ==> |c.bytes| <= Span(x, k)
    {
      ChunkMeans(data, starts, cs, contents, k);
    }
  }

  lemma ByteMade(
      data: seq<byte>, bcem: seq<byte>, starts: seq<nat>, cs: seq<Chunk>, contents: seq<seq<byte>>, k: nat, i: nat)
    requires Lists(bcem, starts, cs) && AllMean(data, starts, cs, contents) && k < |cs|
    requires RawImage(data, bcem).Some? && i < 512 * (starts[k + 1] - starts[k])
    ensures var p := 512 * starts[k] + i;
            && p < |RawImage(data, bcem).value|
            && RawImage(data, bcem).value[p] == if i < |contents[k]| then contents[k][i] else 0
  {
    hide ContentOf, ReadImage, Means, Put, EntryIs, ChunkFits, ByteOf, RawImage, AllMean, Fits, InOrder;
    ListsReads(bcem, starts, cs);
    FitsAll(data, starts, cs, contents);
    ChunkMeans(data, starts, cs, contents, k);
    RawImageBytes(data, bcem, 0, k, i);
  }

  lemma ChunkBytesMade(
      data: seq<byte>, bcem: seq<byte>, starts: seq<nat>, cs: seq<Chunk>, contents: seq<seq<byte>>, k: nat)
    requires Lists(bcem, starts, cs) && AllMean(data, starts, cs, contents) && k < |cs|
    requires RawImage(data, bcem).Some? && |RawImage(data, bcem).value| == 512 * starts[|cs|]
    ensures RawImage(data, bcem).value[512 * starts[k]..512 * starts[k + 1]] ==
            contents[k] + Zeros(512 * (starts[k + 1] - starts[k]) - |contents[k]|)
  {
    hide Means, EntryIs, ChunkFits, RawImage;
    var raw, at := RawImage(data, bcem).value, 512 * starts[k];
    var span: nat := 512 * (starts[k + 1] - starts[k]);
    forall p | at <= p < at + span
      ensures raw[p] == if p - at < |contents[k]| then contents[k][p - at] else 0
    {
      ByteMade(data, bcem, starts, cs, contents, k, p - at);
    }
    PartIs(raw, at, span, contents[k]);
  }

  /** The N bytes of S at AT are T and zeros. */
  lemma PartIs(s: seq<byte>, at: nat, n: nat, t: seq<byte>)
    requires |t| <= n && at + n <= |s|
    requires forall p :: at <= p < at + n ==> s[p] == if p - at < |t| then t[p - at] else 0
    ensures s[at..at + n] == t + Zeros(n - |t|)
  {
    var part, whole := s[at..at + n], t + Zeros(n - |t|);
    forall i | 0 <= i < n
      ensures part[i] == whole[i]
    {
      assert part[i] == s[at + i];
    }
  }

  /** An image of one sector, its one chunk the byte 65 in ADC. */
  const SMALL_CHUNK: Chunk := Chunk(0, 0x83, 0, 2)

  function SmallBcem(): (s: seq<byte>)
    ensures |s| == 140
  {
    Zeros(68) + Be(1, 4) + Zeros(52) + Be(1, 4) + ChunkBytes(SMALL_CHUNK)
  }

  /** It comes out as that byte and zeros. */
  lemma SmallImage()
    ensures RawImage([0x80, 65], SmallBcem()) == Some([65] + Zeros(511))
  {
    hide Be, Means, AllMean, RawImage, ChunkBytes, Adc.TokenBytes;
    var ts := Adc.Then(Adc.Literal([65]), Adc.End);
    var data: seq<byte> := [0x80, 65];
    SmallMeans(data, ts);
    SmallLists();
    var starts: seq<nat>, contents: seq<seq<byte>> := [0, 1], [[65]];
    MadeRaw(data, SmallBcem(), starts, [SMALL_CHUNK], contents);
    var raw := RawImage(data, SmallBcem()).value;
    assert raw[512 * starts[0]..512 * starts[0 + 1]] ==
           contents[0] + Zeros(512 * (starts[0 + 1] - starts[0]) - |contents[0]|);
    assert raw[0..512] == raw;
  }

  lemma SmallLists()
    ensures Lists(SmallBcem(), [0, 1], [SMALL_CHUNK])
  {
    hide Be, ChunkBytes;
    var s := SmallBcem();
    assert EntryIs(s, 0, SMALL_CHUNK) by {
      assert s[128..140] == ChunkBytes(SMALL_CHUNK);
    }
    assert s[68..72] == Be(1, 4) && s[124..128] == Be(1, 4);
    assert ChunkFits(SMALL_CHUNK);
  }

  lemma SmallMeans(data: seq<byte>, ts: Adc.Tokens)
    requires data == [0x80, 65] && ts == Adc.Then(Adc.Literal([65]), Adc.End)
    ensures AllMean(data, [0, 1], [SMALL_CHUNK], [[65]])
  {
    assert Adc.AllValid(ts.tail, [65]) && Adc.Encode(ts.tail, [65]) == [];
    assert Adc.Expand([], ts.head) == [65];
    assert Adc.ExpandAll([65], ts.tail) == [65];
    assert Adc.Encode(ts, []) == data;
    assert InFork(data, 0, 2) == data;
    assert IsAdc(InFork(data, 0, 2), ts) && [65] == Cut(Adc.ExpandAll([], ts), 512);
  }

  lemma {:induction false} FirstOfAt(rs: seq<Resource>, kind: Kind, id: i16, i: nat)
    requires i < |rs| && rs[i].kind == kind && rs[i].id == id
    requires forall j :: 0 <= j < i ==> rs[j].kind != kind || rs[j].id != id
    ensures FirstOf(rs, kind, id) == Some(rs[i].data)
  {
    var n := |rs| - 1;
    if i < n {
      FirstOfAt(rs[..n], kind, id, i);
    } else {
      FirstOfNowhere(rs[..n], kind, id);
    }
  }

  lemma {:induction false} FirstOfNowhere(rs: seq<Resource>, kind: Kind, id: i16)
    requires forall j :: 0 <= j < |rs| ==> rs[j].kind != kind || rs[j].id != id
    ensures FirstOf(rs, kind, id) == None
  {
    if rs != [] {
      FirstOfNowhere(rs[..|rs| - 1], kind, id);
    }
  }

  /** The image is made by the first 'bcem' 128 the resource fork lists; without
      one the data fork is the image. */
  lemma FirstBcemDecides(data: seq<byte>, rsrc: seq<byte>, i: nat)
    requires ReadFork(rsrc).Some?
    ensures var rs := ReadFork(rsrc).value;
            && (i < |rs| && rs[i].kind == [98, 99, 101, 109] && rs[i].id == 128
                && (forall j :: 0 <= j < i ==> rs[j].kind != rs[i].kind || rs[j].id != 128) ==>
                  Raw(data, rsrc) == RawImage(data, rs[i].data))
            && ((forall j :: 0 <= j < |rs| ==> rs[j].kind != [98, 99, 101, 109] || rs[j].id != 128) ==>
                  Raw(data, rsrc) == Some(data))
  {
    hide ReadFork, Lookup, RawImage, FirstOf;
    var rs := ReadFork(rsrc).value;
    LookupIsFirst(rsrc, BCEM, 128);
    if i < |rs| && rs[i].kind == BCEM && rs[i].id == 128
       && (forall j :: 0 <= j < i ==> rs[j].kind != BCEM || rs[j].id != 128) {
      FirstOfAt(rs, BCEM, 128, i);
    }
    if forall j :: 0 <= j < |rs| ==> rs[j].kind != BCEM || rs[j].id != 128 {
      FirstOfNowhere(rs, BCEM, 128);
    }
  }

  // ------------------------------------------------------------- where Python raises

  /** Chunk K cannot be made out: a kind there is none of, or ADC bytes that reach
      back too far or are cut short. */
  predicate Refused(data: seq<byte>, x: Image, k: nat)
    requires k < |x.chunks|
  {
    var c := x.chunks[k];
    && c.kind !in {0, 2, 0xF0, 0xFF}
    && (c.kind == 0x83 ==> Adc.Decompress(InFork(data, c.off, c.length), Span(x, k)).None?)
  }

  lemma {:induction false} PlacedIff(data: seq<byte>, x: Image, n: nat)
    requires n <= |x.chunks|
    ensures Placed(data, x, n).None? <==> exists k :: 0 <= k < n && Refused(data, x, k)
  {
    hide Span, Put;
    if n > 0 {
      PlacedIff(data, x, n - 1);
      var c := x.chunks[n - 1];
      SliceIsBytes(data, c.off, c.length);
      assert Refused(data, x, n - 1) <==> ContentOf(data, c, Span(x, n - 1)).Unsupported?;
    }
  }

  lemma {:induction false} ReadChunksCut(bcem: seq<byte>, n: nat)
    ensures ReadChunks(bcem, n).None? <==> n > 0 && |bcem| < 128 + 12 * n
  {
    hide Get32;
    if n > 0 {
      ReadChunksCut(bcem, n - 1);
    }
  }

  /** There is no image exactly when the header or an entry is cut short, or some
      chunk cannot be made out. */
  lemma RaisesIff(data: seq<byte>, bcem: seq<byte>)
    ensures ReadImage(bcem).None? <==> |bcem| < 128 || |bcem| < 128 + 12 * Get32(bcem, 124)
    ensures RawImage(data, bcem).None? <==>
            || ReadImage(bcem).None?
            || exists k :: 0 <= k < |ReadImage(bcem).value.chunks| && Refused(data, ReadImage(bcem).value, k)
  {
    hide ReadChunks, Placed, Refused, Get32;
    if |bcem| >= 128 {
      ReadChunksCut(bcem, Get32(bcem, 124));
      if |bcem| >= 128 + 12 * Get32(bcem, 124) {
        PlacedIff(data, ReadImage(bcem).value, |ReadImage(bcem).value.chunks|);
      }
    }
  }
}
