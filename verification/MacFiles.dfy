/** MacBinary as it is built (provisioning/populate_disk.py:137-181) and the ways
    it is read and turned into AppleDouble (provisioning/snapshot.py:77-83,
    provisioning/ndif.py:103-128, provisioning/containers.py:255-273,
    provisioning/populate_disk.py:119-134; RFC 1740, appendix A). */
module MacFiles {
  import opened Bytes
  import opened Numbers
  import opened Layout
  import opened ResourceFork
  import opened FatMerge
  import opened FatMergeCode

  /** What a Mac file is made of. */
  datatype File = File(
    name: seq<byte>, kind: Kind, creator: Kind, data: seq<byte>, rsrc: seq<byte>,
    created: u32, modified: u32, flags: u16)

  function ShortName(f: File): (name: seq<byte>)
    ensures |name| <= 63
  {
    if |f.name| <= 63 then f.name else f.name[..63]
  }

  /** A header so far, zeros up to AT, and S there. */
  function Field(p: seq<byte>, at: nat, s: seq<byte>): (r: seq<byte>)
    requires |p| <= at
    ensures |r| == at + |s| && r[..|p|] == p && r[at..] == s
  {
    p + Zeros(at - |p|) + s
  }

  /** The 124 bytes the CRC is over: name, type, creator and flags, lengths and
      dates, flags, versions. */
  function HeaderStart(f: File): (s: seq<byte>)
    requires |f.data| < 0x1_0000_0000 && |f.rsrc| < 0x1_0000_0000
    ensures |s| == 124
  {
    Field(Field(Lengths(f), 101, [(f.flags % 0x100) as byte]), 122, [130, 129])
  }

  function Lengths(f: File): (s: seq<byte>)
    requires |f.data| < 0x1_0000_0000 && |f.rsrc| < 0x1_0000_0000
    ensures |s| == 99
  {
    Field(Field(Field(Field(FinderInfo(f), 83, Be32(|f.data|)), 87, Be32(|f.rsrc|)), 91, Be32(f.created)), 95,
          Be32(f.modified))
  }

  function FinderInfo(f: File): (s: seq<byte>)
    ensures |s| == 74
  {
    var name := Field(Field([], 1, [|ShortName(f)| as byte]), 2, ShortName(f));
    Field(Field(Field(name, 65, f.kind), 69, f.creator), 73, [(f.flags / 0x100) as byte])
  }

  function Header(f: File): (s: seq<byte>)
    requires |f.data| < 0x1_0000_0000 && |f.rsrc| < 0x1_0000_0000
    ensures |s| == 128
  {
    HeaderStart(f) + Be16(Crc(HeaderStart(f))) + Zeros(2)
  }

  function Built(f: File): seq<byte>
    requires |f.data| < 0x1_0000_0000 && |f.rsrc| < 0x1_0000_0000
  {
    Header(f) + Padded(f.data) + Padded(f.rsrc)
  }

  // --------------------------------------------------------- the header, filled in

  /** pack_into, past what is filled in. */
  method PackInto(header: array<byte>, ghost p: seq<byte>, at: nat, s: seq<byte>)
    requires header.Length == 128 && |p| <= at && at + |s| <= 128 && header[..] == p + Zeros(128 - |p|)
    modifies header
    ensures header[..] == Field(p, at, s) + Zeros(128 - at - |s|)
  {
    var i := 0;
    while i < |s|
      invariant 0 <= i <= |s|
      invariant forall k :: 0 <= k < 128 ==>
                  header[k] == if at <= k < at + i then s[k - at] else old(header[k])
    {
      header[at + i] := s[i];
      i := i + 1;
    }
    ghost var was := old(header[..]);
    forall k | 0 <= k < 128
      ensures header[k] == (Field(p, at, s) + Zeros(128 - at - |s|))[k]
    {
      assert old(header[k]) == was[k];
    }
  }

  /** build_macbinary; None where a length does not fit. */
  method BuildMacBinary(f: File) returns (out: Option<seq<byte>>)
    ensures out == if |f.data| < 0x1_0000_0000 && |f.rsrc| < 0x1_0000_0000 then Some(Built(f)) else None
  {
    hide Crc, Be16, Be32, Rounded, Field, Lengths;
    if |f.data| >= 0x1_0000_0000 || |f.rsrc| >= 0x1_0000_0000 {
      return None;
    }
    var header := new byte[128](_ => 0);
    assert header[..] == [] + Zeros(128);
    FillNames(header, f);
    FillLengths(header, f);
    PackInto(header, Lengths(f), 101, [(f.flags % 0x100) as byte]);
    PackInto(header, Field(Lengths(f), 101, [(f.flags % 0x100) as byte]), 122, [130, 129]);
    assert header[..124] == HeaderStart(f);
    var crc := ComputeCrc(header[..124]);
    PackInto(header, HeaderStart(f), 124, Be16(crc));
    NextField(HeaderStart(f), Be16(crc));
    assert header[..] == Header(f);
    out := Some(WithForksAfter(header[..], f.data, f.rsrc));
  }

  lemma NextField(p: seq<byte>, s: seq<byte>)
    ensures Field(p, |p|, s) == p + s
  {
  }

  method FillNames(header: array<byte>, f: File)
    requires header.Length == 128 && header[..] == [] + Zeros(128)
    modifies header
    ensures header[..] == FinderInfo(f) + Zeros(54)
  {
    hide Field;
    var name := ShortName(f);
    ghost var p0: seq<byte> := [];
    PackInto(header, p0, 1, [|name| as byte]);
    ghost var p1 := Field(p0, 1, [|name| as byte]);
    PackInto(header, p1, 2, name);
    ghost var p2 := Field(p1, 2, name);
    PackInto(header, p2, 65, f.kind);
    ghost var p3 := Field(p2, 65, f.kind);
    PackInto(header, p3, 69, f.creator);
    PackInto(header, Field(p3, 69, f.creator), 73, [(f.flags / 0x100) as byte]);
  }

  method FillLengths(header: array<byte>, f: File)
    requires |f.data| < 0x1_0000_0000 && |f.rsrc| < 0x1_0000_0000
    requires header.Length == 128 && header[..] == FinderInfo(f) + Zeros(54)
    modifies header
    ensures header[..] == Lengths(f) + Zeros(29)
  {
    hide Field, FinderInfo, Be32;
    PackInto(header, FinderInfo(f), 83, Be32(|f.data|));
    ghost var p1 := Field(FinderInfo(f), 83, Be32(|f.data|));
    PackInto(header, p1, 87, Be32(|f.rsrc|));
    ghost var p2 := Field(p1, 87, Be32(|f.rsrc|));
    PackInto(header, p2, 91, Be32(f.created));
    PackInto(header, Field(p2, 91, Be32(f.created)), 95, Be32(f.modified));
  }

  /** The header and the forks that are not empty, padded. */
  function WithForksAfter(header: seq<byte>, data: seq<byte>, rsrc: seq<byte>): (r: seq<byte>)
    ensures r == header + Padded(data) + Padded(rsrc)
  {
    NoPadding(data);
    NoPadding(rsrc);
    var withData := if |data| != 0 then header + Padded(data) else header;
    if |rsrc| != 0 then withData + Padded(rsrc) else withData
  }

  lemma NoPadding(s: seq<byte>)
    ensures |s| == 0 ==> Padded(s) == []
  {
  }

  // ------------------------------------------------------------------ the readers

  datatype Forks = Forks(kind: seq<byte>, creator: seq<byte>, flags: u16, data: seq<byte>, rsrc: seq<byte>)

  /** macbinary_forks. */
  function ReadForks(blob: seq<byte>): Option<Forks> {
    if |blob| <= 101 then None
    else
      var dlen: nat, rlen: nat := Get32(blob, 83), Get32(blob, 87);
      var rest := Slice(blob, 128 + Rounded(dlen), |blob|);
      var hi: int, lo: int := blob[73], blob[101];
      Some(Forks(blob[65..69], blob[69..73], hi * 0x100 + lo, Slice(blob, 128, 128 + dlen), Slice(rest, 0, rlen)))
  }

  /** forks, as far as the file itself goes: None is where it looks beside it. */
  function NdifForks(blob: seq<byte>): Option<(seq<byte>, seq<byte>)> {
    if |blob| >= 128 && blob[0] == 0 && 0 < blob[1] < 64 && blob[74] == 0 then
      var dlen: nat, rlen: nat := Get32(blob, 83), Get32(blob, 87);
      if 128 + dlen + rlen <= |blob| + 256 then
        var rstart := 128 + Rounded(dlen);
        Some((Slice(blob, 128, 128 + dlen), Slice(blob, rstart, rstart + rlen)))
      else None
    else None
  }

  const MAGIC: seq<byte> := [0, 5, 0x16, 7]
  const OLD_MAGIC: seq<byte> := [0, 5, 0x16, 0]

  /** The AppleDouble file macbinary_to_files writes beside the data fork. */
  function ToAppleDouble(blob: seq<byte>): Option<seq<byte>> {
    var f := ReadForks(blob);
    if f.None? then None
    else Some(AppleDouble(f.value.kind + f.value.creator + [blob[73], blob[101]] + Zeros(22), f.value.rsrc))
  }

  function AppleDouble(info: seq<byte>, rsrc: seq<byte>): seq<byte> {
    MAGIC + Be32(0x2_0000) + Zeros(16) + Be16(2) +
    (Be32(9) + Be32(50) + Be32(|info|)) + (Be32(2) + Be32(50 + |info|) + Be32(|rsrc|)) + info + rsrc
  }

  datatype Parsed = NotAppleDouble | Raised | Parsed(rsrc: Option<seq<byte>>, info: Option<seq<byte>>)

  /** The first N entries. */
  function Entries(data: seq<byte>, n: nat): Parsed {
    if n == 0 then Parsed(None, None)
    else
      var before := Entries(data, n - 1);
      var off := 26 + (n - 1) * 12;
      if !before.Parsed? || off + 12 > |data| then Raised
      else
        var at: nat, len: nat := Get32(data, off + 4), Get32(data, off + 8);
        if Get32(data, off) == 2 then Parsed(Some(Slice(data, at, at + len)), before.info)
        else if Get32(data, off) == 9 then Parsed(before.rsrc, Some(Slice(data, at, at + len)))
        else before
  }

  function ParseAppleDouble(data: seq<byte>): Parsed {
    if |data| < 26 || data[..4] != MAGIC then NotAppleDouble else Entries(data, Get16(data, 24))
  }

  method ParseDouble(data: seq<byte>) returns (out: Parsed)
    ensures out == ParseAppleDouble(data)
  {
    hide Get32, Get16, Slice;
    if |data| < 26 || data[..4] != MAGIC {
      return NotAppleDouble;
    }
    var n: nat := Get16(data, 24);
    var rsrc: Option<seq<byte>>, info: Option<seq<byte>> := None, None;
    var i := 0;
    while i < n
      invariant 0 <= i <= n && Entries(data, i) == Parsed(rsrc, info)
    {
      var off := 26 + i * 12;
      if off + 12 > |data| {
        EntriesStop(data, i + 1, n);
        return Raised;
      }
      var id, at: nat, len: nat := Get32(data, off), Get32(data, off + 4), Get32(data, off + 8);
      if id == 2 {
        rsrc := Some(Slice(data, at, at + len));
      } else if id == 9 {
        info := Some(Slice(data, at, at + len));
      }
      i := i + 1;
    }
    out := Parsed(rsrc, info);
  }

  lemma {:induction false} EntriesStop(data: seq<byte>, i: nat, n: nat)
    requires i <= n && Entries(data, i).Raised?
    ensures Entries(data, n).Raised?
  {
    hide Get32, Slice;
    if i < n {
      EntriesStop(data, i, n - 1);
    }
  }

  /** appledouble_rsrc: the first resource fork; None where it raises. */
  function AppleDoubleRsrc(ad: seq<byte>): Option<seq<byte>> {
    if Slice(ad, 0, 4) != MAGIC && Slice(ad, 0, 4) != OLD_MAGIC then Some(ad)
    else if |ad| < 26 then None
    else FirstRsrc(ad, 0, Get16(ad, 24))
  }

  function FirstRsrc(ad: seq<byte>, k: nat, n: nat): Option<seq<byte>>
    requires k <= n
    decreases n - k
  {
    var off := 26 + k * 12;
    if k == n then Some([])
    else if off + 12 > |ad| then None
    else
      var at: nat, len: nat := Get32(ad, off + 4), Get32(ad, off + 8);
      if Get32(ad, off) == 2 then Some(Slice(ad, at, at + len)) else FirstRsrc(ad, k + 1, n)
  }

  // ------------------------------------------------------------------ round trips

  lemma InfoFields(f: File)
    ensures var s := FinderInfo(f);
            && s[0] == 0 && s[1] as nat == |ShortName(f)| && s[65..69] == f.kind && s[69..73] == f.creator
            && s[73] as nat == f.flags / 0x100 && s[2..2 + |ShortName(f)|] == ShortName(f)
  {
    var size: byte := |ShortName(f)|;
    var p1 := Field([], 1, [size]);
    var p2 := Field(p1, 2, ShortName(f));
    var p3 := Field(p2, 65, f.kind);
    var p4 := Field(p3, 69, f.creator);
    assert p1 == [0, size];
    assert p2[..2] == p1 && p3[..2] == p2[..2] && p4[..2] == p3[..2] && FinderInfo(f)[..2] == p4[..2];
    assert p4[65..69] == p3[65..69] == f.kind;
    var n := |p2|;
    assert p3[..n] == p2 && p4[..n] == p3[..n] && FinderInfo(f)[..n] == p4[..n];
    assert FinderInfo(f)[2..n] == p2[2..] == ShortName(f);
  }

  lemma StartFields(f: File)
    requires |f.data| < 0x1_0000_0000 && |f.rsrc| < 0x1_0000_0000
    ensures var s := HeaderStart(f);
            && s[..74] == FinderInfo(f) && s[74] == 0 && s[83..87] == Be32(|f.data|) && s[87..91] == Be32(|f.rsrc|)
            && s[101] as nat == f.flags % 0x100 && s[122..124] == [130, 129]
            && s[91..95] == Be32(f.created) && s[95..99] == Be32(f.modified)
  {
    hide FinderInfo, Be32;
    var p0 := FinderInfo(f);
    var p1 := Field(p0, 83, Be32(|f.data|));
    var p2 := Field(p1, 87, Be32(|f.rsrc|));
    var p3 := Field(p2, 91, Be32(f.created));
    var low: byte := f.flags % 0x100;
    var p5 := Field(Lengths(f), 101, [low]);
    assert Lengths(f)[..91] == p3[..91] == p2 && p5[..91] == Lengths(f)[..91];
    assert HeaderStart(f)[..91] == p5[..91] == p2;
    assert p2[..74] == p1[..74] == p0 && p2[74] == p1[74] == 0 && p2[83..87] == p1[83..87] == Be32(|f.data|);
    assert HeaderStart(f)[101] == p5[101] == low;
    assert Lengths(f)[..95] == p3 && p5[..99] == Lengths(f) && HeaderStart(f)[..99] == p5[..99];
    assert HeaderStart(f)[91..95] == Lengths(f)[91..95] == p3[91..95] == Be32(f.created);
    assert HeaderStart(f)[95..99] == Lengths(f)[95..99] == Be32(f.modified);
  }

  /** What starts as S does has its bytes and parts. */
  lemma FrontPart(b: seq<byte>, s: seq<byte>, i: nat, j: nat)
    requires |s| <= |b| && b[..|s|] == s && i <= j <= |s|
    ensures b[i..j] == s[i..j] && forall k :: 0 <= k < |s| ==> b[k] == s[k]
  {
    SliceOfSlice(b, 0, |s|, i, j);
    assert b[0..|s|] == s;
  }

  /** What every reader looks at in a file that was built. */
  lemma BuiltFields(f: File)
    requires |f.data| < 0x1_0000_0000 && |f.rsrc| < 0x1_0000_0000
    ensures var b, rstart := Built(f), 128 + Rounded(|f.data|);
            && |b| == rstart + Rounded(|f.rsrc|) && b[..128] == Header(f)
            && b[0] == 0 && b[1] as nat == |ShortName(f)| && b[65..69] == f.kind && b[69..73] == f.creator
            && b[73] as nat == f.flags / 0x100 && b[74] == 0 && b[101] as nat == f.flags % 0x100
            && b[2..2 + |ShortName(f)|] == ShortName(f) && b[122..124] == [130, 129]
            && Get32(b, 83) == |f.data| && Get32(b, 87) == |f.rsrc|
            && Get32(b, 91) == f.created && Get32(b, 95) == f.modified
            && b[128..128 + |f.data|] == f.data && b[rstart..rstart + |f.rsrc|] == f.rsrc
  {
    hide HeaderStart, FinderInfo, Crc, Be16, Be32, Get32, Rounded, ShortName;
    var b, s := Built(f), HeaderStart(f);
    StartFields(f);
    InfoFields(f);
    FatRounded(|f.data|);
    FatRounded(|f.rsrc|);
    assert b[..124] == s && s[..74] == FinderInfo(f);
    assert b[..74] == FinderInfo(f) by {
      FrontPart(b, s, 0, 74);
    }
    FrontPart(b, FinderInfo(f), 65, 69);
    FrontPart(b, FinderInfo(f), 69, 73);
    FrontPart(b, FinderInfo(f), 2, 2 + |ShortName(f)|);
    FrontPart(b, s, 83, 87);
    FrontPart(b, s, 87, 91);
    FrontPart(b, s, 91, 95);
    FrontPart(b, s, 95, 99);
    FrontPart(b, s, 122, 124);
    Get32Back(b, 91, f.created);
    Get32Back(b, 95, f.modified);
    Get32Back(b, 83, |f.data|);
    Get32Back(b, 87, |f.rsrc|);
  }

  lemma Gap(p: seq<byte>, at: nat, s: seq<byte>)
    requires |p| <= at
    ensures Field(p, at, s)[|p|..at] == Zeros(at - |p|)
  {
  }

  /** The rest of a file that was built: the name is cut to 63 bytes, the CRC is of
      the 124 bytes before it, each fork is filled up to a multiple of 128, and
      what is not used is zero. */
  lemma BuiltRest(f: File)
    requires |f.data| < 0x1_0000_0000 && |f.rsrc| < 0x1_0000_0000
    ensures var b, n := Built(f), Min(|f.name|, 63);
            && |b| >= 128 && b[1] as nat == n && b[2..2 + n] == f.name[..n]
            && b[124..126] == Be16(Crc(b[..124]))
            && b[2 + n..65] == Zeros(63 - n) && b[74..83] == Zeros(9) && b[99..101] == Zeros(2)
            && b[102..122] == Zeros(20) && b[126..128] == Zeros(2)
    ensures var d, r: nat := (128 - |f.data| % 128) % 128, (128 - |f.rsrc| % 128) % 128;
            Built(f)[128..] == f.data + Zeros(d) + (f.rsrc + Zeros(r))
  {
    hide HeaderStart, FinderInfo, Lengths, Crc, Be16, Rounded, Field;
    var b, n, s := Built(f), Min(|f.name|, 63), HeaderStart(f);
    BuiltFields(f);
    hide ShortName;
    ShortNameIs(f);
    assert b[..124] == s && b[124..126] == Be16(Crc(s)) && b[126..128] == Zeros(2);
    ZerosInHeader(f);
    FrontPart(b, s, 2 + n, 65);
    FrontPart(b, s, 74, 83);
    FrontPart(b, s, 99, 101);
    FrontPart(b, s, 102, 122);
    PaddedForks(f);
  }

  lemma ShortNameIs(f: File)
    ensures ShortName(f) == f.name[..Min(|f.name|, 63)]
  {
  }

  lemma PaddedForks(f: File)
    requires |f.data| < 0x1_0000_0000 && |f.rsrc| < 0x1_0000_0000
    ensures var d, r: nat := (128 - |f.data| % 128) % 128, (128 - |f.rsrc| % 128) % 128;
            Built(f)[128..] == f.data + Zeros(d) + (f.rsrc + Zeros(r))
  {
    hide Header, Padded;
    PaddedIs(f.data);
    PaddedIs(f.rsrc);
    assert Built(f)[128..] == Padded(f.data) + Padded(f.rsrc);
  }

  lemma PaddedIs(s: seq<byte>)
    ensures Padded(s) == s + Zeros((128 - |s| % 128) % 128)
  {
    assert Rounded(|s|) - |s| == (128 - |s| % 128) % 128;
  }

  lemma ZerosInHeader(f: File)
    requires |f.data| < 0x1_0000_0000 && |f.rsrc| < 0x1_0000_0000
    ensures var s, n := HeaderStart(f), |ShortName(f)|;
            && s[2 + n..65] == Zeros(63 - n) && s[74..83] == Zeros(9) && s[99..101] == Zeros(2)
            && s[102..122] == Zeros(20)
  {
    hide FinderInfo, Be32, Field;
    var s, low: seq<byte> := HeaderStart(f), [(f.flags % 0x100) as byte];
    var p := Field(Lengths(f), 101, low);
    Gap(p, 122, [130, 129]);
    Gap(Lengths(f), 101, low);
    FrontPart(s, p, 99, 101);
    Gap(FinderInfo(f), 83, Be32(|f.data|));
    var p1 := Field(FinderInfo(f), 83, Be32(|f.data|));
    var p2 := Field(p1, 87, Be32(|f.rsrc|));
    var p3 := Field(p2, 91, Be32(f.created));
    FrontPart(p2, p1, 74, 83);
    FrontPart(p3, p2, 74, 83);
    FrontPart(Lengths(f), p3, 74, 83);
    FrontPart(p, Lengths(f), 74, 83);
    FrontPart(s, p, 74, 83);
    ZerosInInfo(f);
    var i, j := 2 + |ShortName(f)|, 65;
    FrontPart(p1, FinderInfo(f), i, j);
    FrontPart(p2, p1, i, j);
    FrontPart(p3, p2, i, j);
    FrontPart(Lengths(f), p3, i, j);
    FrontPart(p, Lengths(f), i, j);
    FrontPart(s, p, i, j);
  }

  lemma ZerosInInfo(f: File)
    ensures var n := |ShortName(f)|; FinderInfo(f)[2 + n..65] == Zeros(63 - n)
  {
    hide Field, ShortName;
    var name := Field(Field([], 1, [|ShortName(f)| as byte]), 2, ShortName(f));
    var p3 := Field(name, 65, f.kind);
    var p4 := Field(p3, 69, f.creator);
    Gap(name, 65, f.kind);
    FrontPart(p4, p3, |name|, 65);
    FrontPart(FinderInfo(f), p4, |name|, 65);
  }

  lemma FatRounded(n: nat)
    ensures n <= Rounded(n)
  {
  }

  /** Every reader finds the forks that were put in, and type, creator and flags
      where it returns them; NDIF's reader exactly when the file has a name. */
  lemma ReadersAgree(f: File)
    requires |f.data| < 0x1_0000_0000 && |f.rsrc| < 0x1_0000_0000
    ensures ReadMacBinary(Built(f)) == Some(MacBinary(Header(f), f.data, f.rsrc))
    ensures ReadForks(Built(f)) == Some(Forks(f.kind, f.creator, f.flags, f.data, f.rsrc))
    ensures NdifForks(Built(f)) == (if f.name != [] then Some((f.data, f.rsrc)) else None)
  {
    hide Header, Built, Get32, Rounded, ReadMacBinary, ReadForks, NdifForks, ShortName;
    BuiltFields(f);
    FatRounded(|f.data|);
    FatRounded(|f.rsrc|);
    ShortRounded(|f.data|);
    ShortNameOf(f);
    MacBinaryOf(Built(f), f.data, f.rsrc);
    ForksOf(Built(f), f);
    NdifForksOf(Built(f), f.data, f.rsrc);
  }

  lemma ShortNameOf(f: File)
    ensures ShortName(f) == [] <==> f.name == []
  {
  }

  lemma MacBinaryOf(b: seq<byte>, data: seq<byte>, rsrc: seq<byte>)
    requires var rstart := 128 + Rounded(|data|);
             && |data| <= Rounded(|data|) && rstart + |rsrc| <= |b|
             && Get32(b, 83) == |data| && Get32(b, 87) == |rsrc|
             && b[128..128 + |data|] == data && b[rstart..rstart + |rsrc|] == rsrc
    ensures ReadMacBinary(b) == Some(MacBinary(b[..128], data, rsrc))
  {
    hide Get32, Rounded;
  }

  lemma ForksOf(b: seq<byte>, f: File)
    requires var rstart := 128 + Rounded(|f.data|);
             && |f.data| <= Rounded(|f.data|) && rstart + |f.rsrc| <= |b|
             && Get32(b, 83) == |f.data| && Get32(b, 87) == |f.rsrc|
             && b[128..128 + |f.data|] == f.data && b[rstart..rstart + |f.rsrc|] == f.rsrc
             && b[65..69] == f.kind && b[69..73] == f.creator
             && b[73] as nat == f.flags / 0x100 && b[101] as nat == f.flags % 0x100
    ensures ReadForks(b) == Some(Forks(f.kind, f.creator, f.flags, f.data, f.rsrc))
  {
    hide Get32, Rounded, Slice;
    SliceOfRest(b, 128 + Rounded(|f.data|), |f.rsrc|);
    PlainSlice(b, 128, 128 + |f.data|);
  }

  lemma PlainSlice(s: seq<byte>, lo: nat, hi: nat)
    requires lo <= hi <= |s|
    ensures Slice(s, lo, hi) == s[lo..hi]
  {
  }

  lemma NdifForksOf(b: seq<byte>, data: seq<byte>, rsrc: seq<byte>)
    requires var rstart := 128 + Rounded(|data|);
             && |data| <= Rounded(|data|) < |data| + 128 && rstart + |rsrc| <= |b|
             && b[0] == 0 && b[74] == 0 && b[1] < 64
             && Get32(b, 83) == |data| && Get32(b, 87) == |rsrc|
             && b[128..128 + |data|] == data && b[rstart..rstart + |rsrc|] == rsrc
    ensures NdifForks(b) == if b[1] != 0 then Some((data, rsrc)) else None
  {
    hide Get32, Rounded, Slice;
    PlainSlice(b, 128, 128 + |data|);
    PlainSlice(b, 128 + Rounded(|data|), 128 + Rounded(|data|) + |rsrc|);
  }

  const NAMELESS: File := File([], Zeros(4), Zeros(4), [], [], 0, 0, 0)

  /** An empty file of no name: two readers take it, NDIF's does not. */
  lemma NamelessIsNotRead()
    ensures var b := Built(NAMELESS);
            ReadMacBinary(b).Some? && ReadForks(b).Some? && NdifForks(b).None?
  {
    hide Built, ReadMacBinary, ReadForks, NdifForks;
    ReadersAgree(NAMELESS);
  }

  lemma SliceOfRest(s: seq<byte>, at: nat, n: nat)
    requires at + n <= |s|
    ensures Slice(Slice(s, at, |s|), 0, n) == s[at..at + n]
  {
    assert at < |s| ==> Slice(s, at, |s|) == s[at..];
  }

  lemma ShortRounded(n: nat)
    ensures Rounded(n) < n + 128
  {
  }

  lemma DoubleFields(info: seq<byte>, rsrc: seq<byte>)
    requires |info| == 32 && |rsrc| < 0x1_0000_0000
    ensures var ad := AppleDouble(info, rsrc);
            && |ad| == 82 + |rsrc| && ad[..4] == MAGIC && Get16(ad, 24) == 2
            && ad[..24] == [0, 5, 22, 7, 0, 2, 0, 0] + Zeros(16)
            && Get32(ad, 26) == 9 && Get32(ad, 30) == 50 && Get32(ad, 34) == 32
            && Get32(ad, 38) == 2 && Get32(ad, 42) == 82 && Get32(ad, 46) == |rsrc|
            && ad[50..82] == info && ad[82..82 + |rsrc|] == rsrc
  {
    hide Be16, Be32, Get16, Get32;
    var ad := AppleDouble(info, rsrc);
    assert ad[24..26] == Be16(2) && ad[26..30] == Be32(9) && ad[30..34] == Be32(50) && ad[34..38] == Be32(32);
    assert ad[38..42] == Be32(2) && ad[42..46] == Be32(82) && ad[46..50] == Be32(|rsrc|);
    FormatVersion();
    assert ad[..24] == MAGIC + Be32(0x2_0000) + Zeros(16);
    Get16Back(ad, 24, 2);
    Get32Back(ad, 26, 9);
    Get32Back(ad, 30, 50);
    Get32Back(ad, 34, 32);
    Get32Back(ad, 38, 2);
    Get32Back(ad, 42, 82);
    Get32Back(ad, 46, |rsrc|);
  }

  lemma FormatVersion()
    ensures Be32(0x2_0000) == [0, 2, 0, 0]
  {
    hide Be;
    ByteOrder(0, 0, 2, 0);
  }

  /** Both AppleDouble readers find what was put in. */
  lemma DoubleBack(info: seq<byte>, rsrc: seq<byte>)
    requires |info| == 32 && |rsrc| < 0x1_0000_0000
    ensures ParseAppleDouble(AppleDouble(info, rsrc)) == Parsed(Some(rsrc), Some(info))
    ensures AppleDoubleRsrc(AppleDouble(info, rsrc)) == Some(rsrc)
  {
    hide AppleDouble, Get16, Get32;
    var ad := AppleDouble(info, rsrc);
    DoubleFields(info, rsrc);
    assert Entries(ad, 0) == Parsed(None, None);
    assert Entries(ad, 1) == Parsed(None, Some(info));
    assert Entries(ad, 2) == Parsed(Some(rsrc), Some(info));
    assert Slice(ad, 0, 4) == ad[..4];
    assert FirstRsrc(ad, 0, 2) == FirstRsrc(ad, 1, 2);
  }

  /** The Finder info of AppleDouble: type, creator and flags, the rest zero. */
  function FinderEntry(f: File): seq<byte> {
    f.kind + f.creator + Be16(f.flags) + Zeros(22)
  }

  /** A file built, turned into AppleDouble and parsed has the same resource fork
      and the same Finder information. */
  lemma ThroughAppleDouble(f: File)
    requires |f.data| < 0x1_0000_0000 && |f.rsrc| < 0x1_0000_0000
    ensures var ad := ToAppleDouble(Built(f));
            && ad.Some? && ParseAppleDouble(ad.value) == Parsed(Some(f.rsrc), Some(FinderEntry(f)))
            && AppleDoubleRsrc(ad.value) == Some(f.rsrc)
  {
    hide Built, ReadForks, AppleDouble, ParseAppleDouble, AppleDoubleRsrc, Rounded, Be16, Get32;
    var b := Built(f);
    BuiltFields(f);
    ReadersAgree(f);
    assert b[73..74] + b[101..102] == Be16(f.flags) by {
      TwoBytes(f.flags, b[73], b[101]);
    }
    assert f.kind + f.creator + [b[73], b[101]] + Zeros(22) == FinderEntry(f);
    DoubleBack(FinderEntry(f), f.rsrc);
  }

  lemma TwoBytes(x: u16, hi: byte, lo: byte)
    requires hi as nat == x / 0x100 && lo as nat == x % 0x100
    ensures Be16(x) == [hi, lo]
  {
    assert Be(x / 0x100, 1) == Be(x / 0x100 / 0x100, 0) + [x / 0x100 % 0x100];
  }

  // -------------------------------------------------------------------- the CRC

  lemma {:induction false} XorSame(a: nat)
    ensures Xor(a, a) == 0
    decreases a
  {
    if a != 0 {
      XorSame(a / 2);
    }
  }

  /** The high byte taken out of a number leaves the low one. */
  lemma {:induction false} XorHigh(hi: nat, lo: nat, n: nat, two: nat)
    requires two == Power(n) && lo < two
    ensures Xor(hi * two + lo, hi * two) == lo
    decreases n
  {
    if n == 0 {
      XorSame(hi);
    } else {
      var half := Power(n - 1);
      assert hi * two == 2 * (hi * half);
      assert (hi * two + lo) / 2 == hi * half + lo / 2 && (hi * two) / 2 == hi * half;
      XorHigh(hi, lo / 2, n - 1, half);
    }
  }

  lemma ShiftSmall(x: nat, n: nat)
    requires n > 0 && Shifts(x, n - 1) < 0x8000
    ensures Shifts(x, n) == 2 * Shifts(x, n - 1)
  {
    hide Xor;
  }

  lemma ShiftLow(x: nat)
    requires x < 0x100
    ensures Shifts(x, 8) == x * 0x100
  {
    hide Shift;
    assert Shifts(x, 0) == x;
    ShiftSmall(x, 1);
    ShiftSmall(x, 2);
    ShiftSmall(x, 3);
    ShiftSmall(x, 4);
    ShiftSmall(x, 5);
    ShiftSmall(x, 6);
    ShiftSmall(x, 7);
    ShiftSmall(x, 8);
  }

  lemma CrcNext(s: seq<byte>, b: byte)
    ensures Crc(s + [b]) == Shifts(Xor(Crc(s), b as nat * 0x100), 8)
  {
    hide Xor, Shift;
    assert (s + [b])[..|s|] == s;
  }

  /** The CRC over any bytes and then their own CRC is zero. */
  lemma CrcChecks(s: seq<byte>)
    ensures Crc(s + Be16(Crc(s))) == 0
  {
    hide Xor, Shifts, Crc, Be16;
    var c := Crc(s);
    var hi: byte, lo: byte := c / 0x100, c % 0x100;
    TwoBytes(c, hi, lo);
    CrcNext(s, hi);
    assert Power(8) == 0x100 by {
      Powers();
    }
    XorHigh(c / 0x100, c % 0x100, 8, 0x100);
    ShiftLow(c % 0x100);
    CrcNext(s + [hi], lo);
    XorSame(c % 0x100 * 0x100);
    ShiftLow(0);
    assert s + [hi] + [lo] == s + Be16(c);
  }

  lemma Powers()
    ensures Power(8) == 0x100
  {
    assert Power(4) == 16;
  }

  /** So the CRC over the first 126 bytes of a file that was built is zero. */
  lemma BuiltChecks(f: File)
    requires |f.data| < 0x1_0000_0000 && |f.rsrc| < 0x1_0000_0000
    ensures Crc(Built(f)[..126]) == 0
  {
    hide HeaderStart, Crc, Be16, Rounded;
    var s := HeaderStart(f);
    CrcChecks(s);
    assert Built(f)[..126] == s + Be16(Crc(s));
  }
}
