/** Bytes and the fixed-width integers the file formats are built from. */
module Bytes {

  type byte = b: int | 0 <= b < 0x100
  type u16 = x: int | 0 <= x < 0x1_0000
  type u32 = x: int | 0 <= x < 0x1_0000_0000

  datatype Option<+T> = None | Some(value: T)

  const U32_LIMIT: int := 0x1_0000_0000
  const HALF: nat := 2
  const WORD: nat := 4

  /** The N low bytes of X, lowest first. */
  function Le(x: nat, n: nat): (s: seq<byte>)
    ensures |s| == n
  {
    if n == 0 then [] else [x % 0x100] + Le(x / 0x100, n - 1)
  }

  function FromLe(s: seq<byte>): nat {
    if s == [] then 0 else s[0] + 0x100 * FromLe(s[1..])
  }

  /** The N low bytes of X, highest first, as struct.pack(">...") has them. */
  function Be(x: nat, n: nat): (s: seq<byte>)
    ensures |s| == n
  {
    if n == 0 then [] else Be(x / 0x100, n - 1) + [x % 0x100]
  }

  function FromBe(s: seq<byte>): nat {
    if s == [] then 0 else FromBe(s[..|s| - 1]) * 0x100 + s[|s| - 1]
  }

  function Limit(n: nat): (r: nat)
    ensures r > 0
  {
    if n == 0 then 1 else 0x100 * Limit(n - 1)
  }

  lemma Limits()
    ensures Limit(HALF) == 0x1_0000 && Limit(WORD) == U32_LIMIT
  {
    assert Limit(2) == 0x100 * (0x100 * Limit(0));
    assert Limit(4) == 0x100 * (0x100 * Limit(2));
  }

  /** A number of N bytes has one encoding, N bytes have one value. */
  lemma {:induction false} LeRoundTrip(x: nat, s: seq<byte>)
    ensures FromLe(s) < Limit(|s|)
    ensures x < Limit(|s|) ==> (s == Le(x, |s|) <==> FromLe(s) == x)
  {
    if s != [] {
      var t := Le(x, |s|);
      LeRoundTrip(x / 0x100, s[1..]);
      assert s == [s[0]] + s[1..] && t[1..] == Le(x / 0x100, |s| - 1);
      if FromLe(s) == x {
        assert x % 0x100 == s[0];
      }
    }
  }

  lemma {:induction false} BeRoundTrip(x: nat, s: seq<byte>)
    ensures FromBe(s) < Limit(|s|)
    ensures x < Limit(|s|) ==> (s == Be(x, |s|) <==> FromBe(s) == x)
  {
    if s != [] {
      var n := |s| - 1;
      var t := Be(x, |s|);
      BeRoundTrip(x / 0x100, s[..n]);
      assert s == s[..n] + [s[n]] && t[..n] == Be(x / 0x100, n);
      if FromBe(s) == x {
        assert x % 0x100 == s[n];
      }
    }
  }

  function Le32(x: u32): (s: seq<byte>)
    ensures |s| == WORD
  {
    Le(x, WORD)
  }

  function GetLe32(s: seq<byte>, at: nat): u32
    requires at + WORD <= |s|
  {
    var b0: int, b1: int, b2: int, b3: int := s[at], s[at + 1], s[at + 2], s[at + 3];
    b0 + 0x100 * b1 + 0x1_0000 * b2 + 0x100_0000 * b3
  }

  lemma FromLeWord(s: seq<byte>)
    requires |s| == WORD
    ensures FromLe(s) == GetLe32(s, 0)
  {
    assert FromLe(s[3..]) == s[3] + 0x100 * FromLe(s[3..][1..]);
    assert s[2..][1..] == s[3..] && s[1..][1..] == s[2..];
    assert FromLe(s[2..]) == s[2] + 0x100 * FromLe(s[3..]);
    assert FromLe(s[1..]) == s[1] + 0x100 * FromLe(s[2..]);
  }

  lemma Le32RoundTrip(x: u32, s: seq<byte>, at: nat)
    requires at + WORD <= |s|
    ensures s[at..at + WORD] == Le32(x) <==> GetLe32(s, at) == x
  {
    FromLeWord(s[at..at + WORD]);
    LeRoundTrip(x, s[at..at + WORD]);
    Limits();
  }

  /** The bytes of a number, told by its digits. */
  lemma ByteOrder(a: byte, b: byte, c: byte, d: byte)
    ensures Le(a + 0x100 * b + 0x1_0000 * c + 0x100_0000 * d, WORD) == [a, b, c, d]
    ensures Be(a + 0x100 * b + 0x1_0000 * c + 0x100_0000 * d, WORD) == [d, c, b, a]
    ensures Be(a + 0x100 * b, HALF) == [b, a]
  {
    var x0: nat := a + 0x100 * b + 0x1_0000 * c + 0x100_0000 * d;
    var x1: nat, x2: nat := b + 0x100 * c + 0x1_0000 * d, c + 0x100 * d;
    LastByte(x1, a, x0);
    LastByte(x2, b, x1);
    LastByte(d, c, x2);
    LastByte(b, a, a + 0x100 * b);
    assert Le(d, 1) == [d] && Be(d, 1) == [d] && Be(b, 1) == [b];
    assert Le(x2, 2) == [c, d] && Be(x2, 2) == [d, c];
    assert Le(x1, 3) == [b, c, d] && Be(x1, 3) == [d, c, b];
  }

  lemma LastByte(high: nat, low: byte, x: nat)
    requires x == low + 0x100 * high
    ensures x % 0x100 == low && x / 0x100 == high
  {
  }

  function Zeros(n: nat): (s: seq<byte>)
    ensures |s| == n && forall i :: 0 <= i < n ==> s[i] == 0
  {
    seq(n, _ => 0)
  }

  /** A then B at AT in S, taken apart. */
  lemma TakeApart(s: seq<byte>, at: nat, a: seq<byte>, b: seq<byte>)
    requires at + |a| + |b| <= |s|
    ensures s[at..at + |a| + |b|] == a + b <==> s[at..at + |a|] == a && s[at + |a|..at + |a| + |b|] == b
  {
    var t := s[at..at + |a| + |b|];
    assert t[..|a|] == s[at..at + |a|] && t[|a|..] == s[at + |a|..at + |a| + |b|];
    assert t == t[..|a|] + t[|a|..];
    assert (a + b)[..|a|] == a && (a + b)[|a|..] == b;
  }

  lemma MiddlePart(a: seq<byte>, b: seq<byte>, c: seq<byte>)
    ensures |a + (b + c)| == |a| + |b| + |c| && (a + (b + c))[|a|..|a| + |b|] == b
  {
  }

  lemma Associates(a: seq<byte>, b: seq<byte>, c: seq<byte>)
    ensures a + (b + c) == (a + b) + c
  {
  }

  /** S with T written over it at OFFSET. */
  function Splice(s: seq<byte>, offset: nat, t: seq<byte>): (r: seq<byte>)
    requires offset + |t| <= |s|
    ensures |r| == |s|
    ensures forall i :: 0 <= i < |s| ==> r[i] == if offset <= i < offset + |t| then t[i - offset] else s[i]
  {
    s[..offset] + t + s[offset + |t|..]
  }
}
