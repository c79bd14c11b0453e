/** Merging two single-architecture files into a fat one
    (provisioning/fat_cfm.py:23-28, 84-164). Merge is what the code computes;
    FatMergeProof says what that keeps. */
module FatMerge {
  import opened Bytes
  import opened Layout
  import opened ResourceFork

  // ------------------------------------------------------------------- MacBinary

  datatype MacBinary = MacBinary(header: seq<byte>, data: seq<byte>, rsrc: seq<byte>)

  /** N rounded up to 128. */
  function Rounded(n: nat): nat {
    (n + 127) / 128 * 128
  }

  function ReadMacBinary(blob: seq<byte>): Option<MacBinary> {
    if |blob| < 91 then None
    else
      var dlen: nat, rlen: nat := Get32(blob, 83), Get32(blob, 87);
      var rstart := 128 + Rounded(dlen);
      Some(MacBinary(Slice(blob, 0, 128), Slice(blob, 128, 128 + dlen), Slice(blob, rstart, rstart + rlen)))
  }

  /** a ^ b. */
  function Xor(a: nat, b: nat): nat
    decreases a + b
  {
    if a == 0 then b
    else if b == 0 then a
    else 2 * Xor(a / 2, b / 2) + (if a % 2 != b % 2 then 1 else 0)
  }

  /** Bit 15 decides what a shift of the CRC register does. */
  function Shift(c: nat): u16 {
    if c % 0x1_0000 >= 0x8000 then Xor(2 * c, 0x1021) % 0x1_0000 else 2 * c % 0x1_0000
  }

  function Shifts(c: nat, n: nat): nat {
    if n == 0 then c else Shift(Shifts(c, n - 1))
  }

  function Crc(s: seq<byte>): u16 {
    if s == [] then 0
    else
      var last: int := s[|s| - 1];
      Shift(Shifts(Xor(Crc(s[..|s| - 1]), last * 0x100), 7))
  }

  /** header with the lengths at 83 and the CRC at 124, then the padded forks. */
  function WithForks(header: seq<byte>, data: seq<byte>, rsrc: seq<byte>): Option<seq<byte>> {
    if |header| < 91 || |data| >= 0x1_0000_0000 || |rsrc| >= 0x1_0000_0000 then None
    else
      var h := header[..83] + Be32(|data|) + Be32(|rsrc|) + header[91..];
      var crc := Be16(Crc(Slice(h, 0, 124)));
      Some(Slice(h, 0, 124) + crc + Slice(h, 126, |h|) + Padded(data) + Padded(rsrc))
  }

  function Padded(s: seq<byte>): seq<byte> {
    s + Zeros(Rounded(|s|) - |s|)
  }

  // ----------------------------------------------------------------------- 'cfrg'

  type Member = seq<byte>

  /** N entries from POS on. */
  function TakeMembers(cfrg: seq<byte>, pos: nat, n: nat): Option<seq<Member>>
    decreases n
  {
    if n == 0 then Some([])
    else if pos + 42 > |cfrg| then None
    else
      var size: nat := Get16(cfrg, pos + 40);
      var rest := TakeMembers(cfrg, pos + size, n - 1);
      if rest.None? then None else Some([Slice(cfrg, pos, pos + size)] + rest.value)
  }

  function Members(cfrg: seq<byte>): Option<seq<Member>> {
    if |cfrg| < 32 then None else TakeMembers(cfrg, 32, Get16(cfrg, 30))
  }

  datatype Reason = SameArchitecture | NotDataFork | Malformed
  datatype Outcome<T> = Done(value: T) | Failed(why: Reason)

  /** Where a member's code starts in its data fork, and how long it is: 0 is to
      the end. */
  function Offset(m: Member): nat
    requires |m| >= 32
  {
    Get32(m, 24)
  }

  function Length(m: Member): nat
    requires |m| >= 32
  {
    Get32(m, 28)
  }

  /** A member of a file whose data fork, of N bytes, now starts at BASE. */
  function Moved(m: Member, base: nat, n: nat): Outcome<Member> {
    if |m| < 24 then Failed(Malformed)
    else if m[23] != 1 then Failed(NotDataFork)
    else if |m| < 32 then Failed(Malformed)
    else
      var length := if Length(m) != 0 then Length(m) else n - Offset(m);
      if base + Offset(m) >= 0x1_0000_0000 || !(0 <= length < 0x1_0000_0000) then Failed(Malformed)
      else Done(m[..24] + Be32(base + Offset(m)) + Be32(length) + m[32..])
  }

  function MovedAll(ms: seq<Member>, base: nat, n: nat): Outcome<seq<Member>> {
    if ms == [] then Done([])
    else
      var before := MovedAll(ms[..|ms| - 1], base, n);
      if !before.Done? then before
      else
        match Moved(ms[|ms| - 1], base, n)
        case Done(m) => Done(before.value + [m])
        case Failed(why) => Failed(why)
  }

  predicate ShareArchitecture(ma: seq<Member>, mb: seq<Member>) {
    exists i, j :: 0 <= i < |ma| && 0 <= j < |mb| && Slice(ma[i], 0, 4) == Slice(mb[j], 0, 4)
  }

  function NewCfrg(cfrg: seq<byte>, ms: seq<Member>): seq<byte>
    requires |cfrg| >= 32
  {
    cfrg[..30] + Be16(|ms|) + Flat<byte>(ms)
  }

  // ------------------------------------------------------------------------ merge

  const CODE: Kind := [67, 79, 68, 69]
  const CFRG: Kind := [99, 102, 114, 103]

  predicate IsClassic(rs: seq<Resource>, data: seq<byte>) {
    && data == []
    && (exists r :: r in rs && r.kind == CODE)
    && (forall r :: r in rs ==> r.kind != CFRG)
  }

  predicate IsCfrg(r: Resource) {
    r.kind == CFRG && r.id == 0
  }

  function FindCfrg(rs: seq<Resource>): Option<seq<byte>> {
    if rs == [] then None
    else if IsCfrg(rs[0]) then Some(rs[0].data)
    else FindCfrg(rs[1..])
  }

  function WithCfrg(rs: seq<Resource>, cfrg: seq<byte>): (out: seq<Resource>)
    ensures |out| == |rs|
    ensures forall i :: 0 <= i < |rs| ==> out[i] == if IsCfrg(rs[i]) then rs[i].(data := cfrg) else rs[i]
  {
    seq(|rs|, i requires 0 <= i < |rs| => if IsCfrg(rs[i]) then rs[i].(data := cfrg) else rs[i])
  }

  /** The resources of B that A has none of under the same type and ID. */
  function Missing(a: seq<Resource>, b: seq<Resource>): seq<Resource> {
    if b == [] then []
    else
      var n := |b| - 1;
      Missing(a, b[..n]) + if Has(a, b[n].kind, b[n].id) then [] else [b[n]]
  }

  predicate Has(rs: seq<Resource>, kind: Kind, id: i16) {
    exists r :: r in rs && r.kind == kind && r.id == id
  }

  /** The data fork of the merged file: B's starts at a multiple of 16. */
  function BaseB(da: seq<byte>): nat {
    |da| + (16 - |da| % 16) % 16
  }

  function Joined(da: seq<byte>, db: seq<byte>): seq<byte> {
    da + Zeros(BaseB(da) - |da|) + db
  }

  function Merge(a: seq<byte>, b: seq<byte>): Outcome<seq<byte>> {
    var ba, bb := ReadMacBinary(a), ReadMacBinary(b);
    if ba.None? || bb.None? then Failed(Malformed)
    else
      var ra, rb := ReadFork(ba.value.rsrc), ReadFork(bb.value.rsrc);
      if ra.None? || rb.None? then Failed(Malformed)
      else if IsClassic(ra.value, ba.value.data) then
        MergeClassic(ba.value.header, bb.value.data, ra.value, rb.value)
      else if IsClassic(rb.value, bb.value.data) then
        MergeClassic(bb.value.header, ba.value.data, rb.value, ra.value)
      else MergeCfm(ba.value, ra.value, bb.value, rb.value)
  }

  function MergeClassic(header: seq<byte>, data: seq<byte>, classic: seq<Resource>, cfm: seq<Resource>):
      Outcome<seq<byte>> {
    Finish(header, data, classic + Missing(classic, cfm))
  }

  function Finish(header: seq<byte>, data: seq<byte>, rs: seq<Resource>): Outcome<seq<byte>> {
    if !Packs(rs) then Failed(Malformed)
    else
      var out := WithForks(header, data, Fork(rs));
      if out.None? then Failed(Malformed) else Done(out.value)
  }

  function MergeCfm(a: MacBinary, ra: seq<Resource>, b: MacBinary, rb: seq<Resource>): Outcome<seq<byte>> {
    var ca, cb := FindCfrg(ra), FindCfrg(rb);
    if ca.None? || cb.None? then Failed(Malformed)
    else
      var ma, mb := Members(ca.value), Members(cb.value);
      if ma.None? || mb.None? then Failed(Malformed)
      else if ShareArchitecture(ma.value, mb.value) then Failed(SameArchitecture)
      else
        match MergedMembers(ma.value, a.data, mb.value, b.data)
        case Done(ms) => Finish(a.header, Joined(a.data, b.data), WithCfrg(ra, NewCfrg(ca.value, ms)))
        case Failed(why) => Failed(why)
  }

  /** The members of both files as the merged file lists them. */
  function MergedMembers(ma: seq<Member>, da: seq<byte>, mb: seq<Member>, db: seq<byte>): Outcome<seq<Member>> {
    var first := MovedAll(ma, 0, |da|);
    if !first.Done? then first
    else
      var second := MovedAll(mb, BaseB(da), |db|);
      if !second.Done? then second
      else if |ma| + |mb| > 0xFFFF then Failed(Malformed)
      else Done(first.value + second.value)
  }
}
