/** The loops of the fat merge, proved against FatMerge
    (provisioning/fat_cfm.py:84-164). */
module FatMergeCode {
  import opened Bytes
  import opened Layout
  import opened ResourceFork
  import opened ForkCode
  import opened FatMerge
  import opened FatMergeProof

  method ReadMembers(cfrg: seq<byte>) returns (out: Option<seq<Member>>)
    ensures out == Members(cfrg)
  {
    hide Get16;
    if |cfrg| < 32 {
      return None;
    }
    var count: nat, pos: nat, i: nat := Get16(cfrg, 30), 32, 0;
    var list: seq<Member> := [];
    assert Members(cfrg).Some? ==> [] + Members(cfrg).value == Members(cfrg).value;
    while i < count
      invariant 0 <= i <= count
      invariant Members(cfrg) == Before(list, TakeMembers(cfrg, pos, count - i))
    {
      if pos + 42 > |cfrg| {
        return None;
      }
      var size: nat := Get16(cfrg, pos + 40);
      BeforeNext(list, Slice(cfrg, pos, pos + size), TakeMembers(cfrg, pos + size, count - i - 1));
      list := list + [Slice(cfrg, pos, pos + size)];
      pos, i := pos + size, i + 1;
    }
    assert list + [] == list;
    out := Some(list);
  }

  function Before(list: seq<Member>, rest: Option<seq<Member>>): Option<seq<Member>> {
    if rest.None? then None else Some(list + rest.value)
  }

  lemma BeforeNext(list: seq<Member>, m: Member, rest: Option<seq<Member>>)
    ensures Before(list, if rest.None? then None else Some([m] + rest.value)) == Before(list + [m], rest)
  {
    if rest.Some? {
      assert list + ([m] + rest.value) == list + [m] + rest.value;
    }
  }

  method ComputeCrc(data: seq<byte>) returns (c: u16)
    ensures c == Crc(data)
  {
    hide Shift, Xor;
    var r: nat := 0;
    var i := 0;
    while i < |data|
      invariant 0 <= i <= |data| && r == Crc(data[..i])
    {
      var b: int := data[i];
      r := Xor(r, b * 0x100);
      ghost var r0 := r;
      var k := 0;
      while k < 8
        invariant 0 <= k <= 8 && r == Shifts(r0, k)
      {
        r := Shift(r);
        k := k + 1;
      }
      assert data[..i + 1][..i] == data[..i];
      i := i + 1;
    }
    assert data[..i] == data;
    c := r;
  }

  /** The members of one file, moved to where its data fork now starts. */
  method MoveMembers(ms: seq<Member>, base: nat, n: nat) returns (out: Outcome<seq<Member>>)
    ensures out == MovedAll(ms, base, n)
  {
    hide Moved;
    var list: seq<Member> := [];
    var i := 0;
    while i < |ms|
      invariant 0 <= i <= |ms| && MovedAll(ms[..i], base, n) == Done(list)
    {
      assert ms[..i + 1][..i] == ms[..i];
      var moved := Moved(ms[i], base, n);
      if moved.Failed? {
        MovedStops(ms, base, n, i + 1);
        return Failed(moved.why);
      }
      list := list + [moved.value];
      i := i + 1;
    }
    assert ms[..i] == ms;
    out := Done(list);
  }

  lemma {:induction false} MovedStops(ms: seq<Member>, base: nat, n: nat, k: nat)
    requires k <= |ms| && !MovedAll(ms[..k], base, n).Done?
    ensures MovedAll(ms, base, n) == MovedAll(ms[..k], base, n)
  {
    hide Moved;
    if k < |ms| {
      var shorter := ms[..|ms| - 1];
      assert shorter[..k] == ms[..k];
      MovedStops(shorter, base, n, k);
    } else {
      assert ms[..k] == ms;
    }
  }

  method FinishFile(header: seq<byte>, data: seq<byte>, rs: seq<Resource>) returns (out: Outcome<seq<byte>>)
    ensures out == Finish(header, data, rs)
  {
    hide Packs, Fork, Crc;
    var rsrc := WriteRsrc(rs);
    if rsrc.None? || |header| < 91 || |data| >= 0x1_0000_0000 || |rsrc.value| >= 0x1_0000_0000 {
      return Failed(Malformed);
    }
    var h := header[..83] + Be32(|data|) + Be32(|rsrc.value|) + header[91..];
    var crc := ComputeCrc(Slice(h, 0, 124));
    out := Done(Slice(h, 0, 124) + Be16(crc) + Slice(h, 126, |h|) + Padded(data) + Padded(rsrc.value));
  }

  method MergeFiles(a: seq<byte>, b: seq<byte>) returns (out: Outcome<seq<byte>>)
    ensures out == Merge(a, b)
  {
    hide ReadMacBinary, ReadFork, IsClassic, FindCfrg, Members, ShareArchitecture, Finish, NewCfrg, Missing, Joined;
    hide BaseB, MovedAll;
    var fa, fb := ReadMacBinary(a), ReadMacBinary(b);
    if fa.None? || fb.None? {
      return Failed(Malformed);
    }
    var ra := ReadRsrc(fa.value.rsrc);
    var rb := ReadRsrc(fb.value.rsrc);
    if ra.None? || rb.None? {
      return Failed(Malformed);
    }
    var da, db := fa.value.data, fb.value.data;
    if IsClassic(ra.value, da) {
      out := FinishFile(fa.value.header, db, ra.value + Missing(ra.value, rb.value));
      return;
    }
    if IsClassic(rb.value, db) {
      out := FinishFile(fb.value.header, da, rb.value + Missing(rb.value, ra.value));
      return;
    }
    var ca, cb := FindCfrg(ra.value), FindCfrg(rb.value);
    if ca.None? || cb.None? {
      return Failed(Malformed);
    }
    var ma := ReadMembers(ca.value);
    var mb := ReadMembers(cb.value);
    if ma.None? || mb.None? {
      return Failed(Malformed);
    }
    if ShareArchitecture(ma.value, mb.value) {
      return Failed(SameArchitecture);
    }
    var first := MoveMembers(ma.value, 0, |da|);
    if first.Failed? {
      return Failed(first.why);
    }
    var second := MoveMembers(mb.value, BaseB(da), |db|);
    if second.Failed? {
      return Failed(second.why);
    }
    if |ma.value| + |mb.value| > 0xFFFF {
      return Failed(Malformed);
    }
    CfrgHeader(ca.value);
    var cfrg := NewCfrg(ca.value, first.value + second.value);
    out := FinishFile(fa.value.header, Joined(da, db), WithCfrg(ra.value, cfrg));
  }

  lemma CfrgHeader(cfrg: seq<byte>)
    requires Members(cfrg).Some?
    ensures |cfrg| >= 32
  {
  }
}
