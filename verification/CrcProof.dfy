/** What the CRC in MacBinary headers is: the remainder of the bytes, as a
    polynomial over the field of two elements and times x^16, divided by
    x^16 + x^12 + x^5 + 1 (provisioning/populate_disk.py:136-146,
    provisioning/fat_cfm.py:155-164). */
module CrcProof {
  import opened Bytes
  import opened Numbers
  import opened FatMerge

  // ------------------------------------------------------------------ polynomials

  /** A polynomial: the exponents of its terms. */
  type Poly = iset<nat>

  ghost const DIVISOR: Poly := iset{16, 12, 5, 0}

  /** The sum: of terms that both have nothing is left. */
  ghost function Plus(a: Poly, b: Poly): Poly {
    iset k: nat | (k in a) != (k in b)
  }

  /** x^E times A. */
  ghost function Raised(a: Poly, e: nat): Poly {
    iset k: nat | Came(a, e, k)
  }

  ghost predicate Came(a: Poly, e: nat, k: nat) {
    k >= e && k - e in a
  }

  /** The terms of Q under x^N, times the divisor. */
  ghost function Multiple(q: Poly, n: nat): Poly {
    if n == 0 then iset{}
    else if n - 1 in q then Plus(Multiple(q, n - 1), Raised(DIVISOR, n - 1))
    else Multiple(q, n - 1)
  }

  ghost function Under(q: Poly, n: nat): Poly {
    iset k: nat | k in q && k < n
  }

  /** A and B leave the same remainder. */
  ghost predicate Congruent(a: Poly, b: Poly) {
    exists q: Poly, n: nat :: Plus(a, b) == Multiple(q, n)
  }

  predicate Bit(c: nat, k: nat) {
    if k == 0 then c % 2 == 1 else Bit(c / 2, k - 1)
  }

  ghost function Bits(c: nat): Poly {
    iset k: nat | Bit(c, k)
  }

  /** The bytes as a polynomial, the first the highest. */
  ghost function Message(s: seq<byte>): Poly {
    if s == [] then iset{} else Plus(Raised(Message(s[..|s| - 1]), 8), Bits(s[|s| - 1]))
  }

  // ------------------------------------------------------------ sums of multiples

  lemma {:induction false} MultipleSum(q: Poly, r: Poly, n: nat)
    ensures Plus(Multiple(q, n), Multiple(r, n)) == Multiple(Plus(q, r), n)
  {
    if n > 0 {
      MultipleSum(q, r, n - 1);
    }
  }

  /** Terms above those it takes make no difference. */
  lemma {:induction false} MultipleMore(q: Poly, n: nat, more: nat)
    ensures Multiple(Under(q, n), n + more) == Multiple(q, n)
  {
    if more > 0 {
      MultipleMore(q, n, more - 1);
    } else {
      SameTerms(Under(q, n), q, n);
    }
  }

  lemma {:induction false} SameTerms(q: Poly, r: Poly, n: nat)
    requires forall k :: 0 <= k < n ==> (k in q <==> k in r)
    ensures Multiple(q, n) == Multiple(r, n)
  {
    if n > 0 {
      SameTerms(q, r, n - 1);
    }
  }

  lemma {:induction false} MultipleRaised(q: Poly, n: nat, e: nat)
    ensures Raised(Multiple(q, n), e) == Multiple(Raised(q, e), n + e)
  {
    if n > 0 {
      MultipleRaised(q, n - 1, e);
      RaisedPlus(Multiple(q, n - 1), Raised(DIVISOR, n - 1), e);
      RaisedTwice(DIVISOR, n - 1, e);
      assert n - 1 in q <==> n - 1 + e in Raised(q, e);
    } else if e > 0 {
      NoTerms(Raised(q, e), e);
    }
  }

  lemma {:induction false} NoTerms(q: Poly, n: nat)
    requires forall k :: 0 <= k < n ==> k !in q
    ensures Multiple(q, n) == iset{}
  {
    if n > 0 {
      NoTerms(q, n - 1);
    }
  }

  lemma RaisedPlus(a: Poly, b: Poly, e: nat)
    ensures Raised(Plus(a, b), e) == Plus(Raised(a, e), Raised(b, e))
  {
  }

  lemma RaisedTwice(a: Poly, d: nat, e: nat)
    ensures Raised(Raised(a, d), e) == Raised(a, d + e)
    ensures Raised(a, 0) == a
  {
    forall k: nat
      ensures k in Raised(Raised(a, d), e) <==> k in Raised(a, d + e)
    {
      assert k >= e ==> (k - e in Raised(a, d) <==> k - e >= d && k - e - d in a);
    }
  }

  /** A multiple of the divisor is zero or has a term of x^16 or above. */
  lemma {:induction false} MultipleTop(q: Poly, n: nat)
    ensures forall k :: k in Multiple(q, n) ==> k < n + 16
    ensures Multiple(q, n) == iset{} || exists k :: k in Multiple(q, n) && k >= 16
  {
    if n > 0 {
      MultipleTop(q, n - 1);
      if n - 1 in q {
        assert n - 1 + 16 in Multiple(q, n);
      }
    }
  }

  // -------------------------------------------------------------------- congruence

  lemma CongruentSum(a: Poly, b: Poly, c: Poly, d: Poly)
    requires Congruent(a, b) && Congruent(c, d)
    ensures Congruent(Plus(a, c), Plus(b, d))
  {
    var q: Poly, n: nat :| Plus(a, b) == Multiple(q, n);
    var r: Poly, m: nat :| Plus(c, d) == Multiple(r, m);
    var q', r' := Under(q, n), Under(r, m);
    MultipleMore(q, n, m);
    MultipleMore(r, m, n);
    MultipleSum(q', r', n + m);
    PlusPlus(a, b, c, d);
    assert Plus(Plus(a, c), Plus(b, d)) == Multiple(Plus(q', r'), n + m);
  }

  lemma PlusPlus(a: Poly, b: Poly, c: Poly, d: Poly)
    ensures Plus(Plus(a, c), Plus(b, d)) == Plus(Plus(a, b), Plus(c, d))
  {
    forall k: nat
      ensures k in Plus(Plus(a, c), Plus(b, d)) <==> k in Plus(Plus(a, b), Plus(c, d))
    {
    }
  }

  lemma CongruentSelf(a: Poly)
    ensures Congruent(a, a)
  {
    assert Plus(a, a) == Multiple(iset{}, 0);
  }

  lemma CongruentSwaps(a: Poly, b: Poly)
    requires Congruent(a, b)
    ensures Congruent(b, a)
  {
    assert Plus(b, a) == Plus(a, b);
  }

  lemma CongruentChain(a: Poly, b: Poly, c: Poly)
    requires Congruent(a, b) && Congruent(b, c)
    ensures Congruent(a, c)
  {
    CongruentSum(a, b, b, c);
    var q: Poly, n: nat :| Plus(Plus(a, b), Plus(b, c)) == Multiple(q, n);
    assert Plus(a, c) == Plus(Plus(a, b), Plus(b, c));
  }

  lemma CongruentRaised(a: Poly, b: Poly, e: nat)
    requires Congruent(a, b)
    ensures Congruent(Raised(a, e), Raised(b, e))
  {
    var q: Poly, n: nat :| Plus(a, b) == Multiple(q, n);
    MultipleRaised(q, n, e);
    RaisedPlus(a, b, e);
  }

  // ------------------------------------------------------------------- the register

  lemma {:induction false} BitOfZero(k: nat)
    ensures !Bit(0, k)
  {
    if k > 0 {
      BitOfZero(k - 1);
    }
  }

  lemma {:induction false} BitOfXor(a: nat, b: nat, k: nat)
    ensures Bit(Xor(a, b), k) <==> Bit(a, k) != Bit(b, k)
  {
    if a == 0 || b == 0 {
      BitOfZero(k);
    } else {
      var high := Xor(a / 2, b / 2);
      assert Xor(a, b) == 2 * high + if a % 2 != b % 2 then 1 else 0;
      assert Xor(a, b) / 2 == high;
      if k > 0 {
        BitOfXor(a / 2, b / 2, k - 1);
      }
    }
  }

  lemma BitsOfXor(a: nat, b: nat)
    ensures Bits(Xor(a, b)) == Plus(Bits(a), Bits(b))
  {
    hide Xor, Bit;
    forall k: nat
      ensures Bit(Xor(a, b), k) <==> Bit(a, k) != Bit(b, k)
    {
      BitOfXor(a, b, k);
    }
  }

  lemma {:induction false} BitOfProduct(c: nat, n: nat, k: nat)
    ensures Bit(c * Power(n), k) <==> k >= n && Bit(c, k - n)
  {
    if n > 0 {
      Halves(c, Power(n - 1));
      if k > 0 {
        BitOfProduct(c, n - 1, k - 1);
      }
    }
  }

  lemma Halves(c: nat, p: nat)
    ensures c * (2 * p) == 2 * (c * p) && c * (2 * p) % 2 == 0 && c * (2 * p) / 2 == c * p
  {
    assert c * (2 * p) == 2 * (c * p);
  }

  lemma BitsOfProduct(c: nat, n: nat)
    ensures Bits(c * Power(n)) == Raised(Bits(c), n)
  {
    hide Bit, Power;
    forall k: nat
      ensures Bit(c * Power(n), k) <==> k >= n && Bit(c, k - n)
    {
      BitOfProduct(c, n, k);
    }
  }

  lemma {:induction false} BitOfRest(x: nat, n: nat, k: nat)
    ensures Power(n) > 0
    ensures Bit(x % Power(n), k) <==> k < n && Bit(x, k)
  {
    if n == 0 {
      BitOfZero(k);
    } else {
      BitOfRest(x / 2, n - 1, if k > 0 then k - 1 else 0);
      RestHalves(x, Power(n - 1));
    }
  }

  lemma RestHalves(x: nat, p: nat)
    requires p > 0
    ensures x % (2 * p) == 2 * (x / 2 % p) + x % 2
    ensures x % (2 * p) % 2 == x % 2 && x % (2 * p) / 2 == x / 2 % p
  {
    var h := x / 2;
    var q, r := h / p, h % p;
    assert h == q * p + r;
    assert x == 2 * h + x % 2;
    assert x == q * (2 * p) + (2 * r + x % 2);
    Remainder(x, 2 * p, q, 2 * r + x % 2);
  }

  lemma Remainder(x: nat, m: nat, q: nat, r: nat)
    requires m > 0 && x == q * m + r && r < m
    ensures x % m == r
  {
    var d := x / m - q;
    assert x == (x / m) * m + x % m;
    assert d * m == r - x % m;
    assert d >= 1 ==> d * m >= m;
    assert d <= -1 ==> d * m <= (-1) * m;
  }

  lemma SixteenBits()
    ensures Power(16) == 0x1_0000 && Power(15) == 0x8000 && Power(8) == 0x100 && Power(1) == 2
  {
    assert Power(4) == 16;
    assert Power(8) == 256;
    assert Power(12) == 4096;
  }

  lemma BitsOfU16(x: nat)
    ensures Bits(x % 0x1_0000) == Under(Bits(x), 16)
  {
    hide Bit, Power;
    SixteenBits();
    forall k: nat
      ensures Bit(x % 0x1_0000, k) <==> k < 16 && Bit(x, k)
    {
      BitOfRest(x, 16, k);
    }
  }

  lemma BitsOfOdd(c: nat)
    ensures Bits(2 * c + 1) == Plus(iset{0}, Raised(Bits(c), 1))
  {
    assert (2 * c + 1) / 2 == c && (2 * c + 1) % 2 == 1;
  }

  lemma BitsOfOne()
    ensures Bits(1) == iset{0}
  {
    forall k: nat
      ensures Bit(1, k) <==> k == 0
    {
      if k > 0 {
        BitOfZero(k - 1);
      }
    }
  }

  lemma TailBits()
    ensures Bits(0x1021) == iset{0, 5, 12}
  {
    hide Bit, Bits;
    BitsOfOne();
    BitsOfProduct(1, 6);
    BitsOfOdd(64);
    BitsOfProduct(129, 4);
    BitsOfOdd(2064);
    assert Power(4) == 16 && Power(6) == 4 * Power(4);
    assert Raised(iset{0}, 6) == iset{6};
    assert Plus(iset{0}, Raised(iset{6}, 1)) == iset{0, 7};
    assert Raised(iset{0, 7}, 4) == iset{4, 11};
    assert Plus(iset{0}, Raised(iset{4, 11}, 1)) == iset{0, 5, 12};
  }

  /** One shift of the register: times x, less the divisor where x^16 came up. */
  lemma ShiftBits(c: u16)
    ensures Bits(Shift(c)) == if Bit(c, 15) then Plus(Raised(Bits(c), 1), DIVISOR) else Raised(Bits(c), 1)
  {
    hide Bit, Bits, Xor, Power;
    SixteenBits();
    HighBit(c);
    BitsOfProduct(c, 1);
    assert c * 2 == 2 * c;
    BitsOfU16(2 * c);
    BitsOfU16(Xor(2 * c, 0x1021));
    BitsOfXor(2 * c, 0x1021);
    TailBits();
    BitsOfU16(c);
    assert c % 0x1_0000 == c;
    TopTerm(c);
    var up := Raised(Bits(c), 1);
    if Bit(c, 15) {
      assert Under(Plus(up, iset{0, 5, 12}), 16) == Plus(up, DIVISOR);
    } else {
      assert Under(up, 16) == up;
    }
  }

  lemma HighBit(c: u16)
    ensures Bit(c, 15) <==> c >= 0x8000
  {
    SixteenBits();
    BitOfHigh(c, c / 0x8000, c % 0x8000, 15, 15);
  }

  lemma TopTerm(c: u16)
    ensures 16 in Raised(Bits(c), 1) <==> Bit(c, 15)
    ensures forall k :: k in Raised(Bits(c), 1) ==> k <= 16
  {
    hide Bit;
    BitsOfU16(c);
    assert c % 0x1_0000 == c;
    assert forall k :: k in Bits(c) ==> k in Under(Bits(c), 16);
  }

  lemma {:induction false} BitOfHigh(c: nat, high: nat, low: nat, n: nat, k: nat)
    requires n <= k && c == high * Power(n) + low && low < Power(n)
    ensures Bit(c, k) <==> Bit(high, k - n)
  {
    if n > 0 {
      var p := Power(n - 1);
      Halves(high, p);
      assert c / 2 == high * p + low / 2;
      BitOfHigh(c / 2, high, low / 2, n - 1, k - 1);
    }
  }

  // -------------------------------------------------------------------- the theorem

  /** N shifts of the register, modulo the divisor: times x^N. */
  lemma {:induction false} ShiftsBits(c: u16, n: nat)
    ensures Shifts(c, n) < 0x1_0000
    ensures Congruent(Bits(Shifts(c, n)), Raised(Bits(c), n))
  {
    hide Bit, Bits, Shift, Congruent, Raised;
    if n == 0 {
      RaisedTwice(Bits(c), 0, 0);
      CongruentSelf(Bits(c));
    } else {
      ShiftsBits(c, n - 1);
      var d := Shifts(c, n - 1);
      ShiftCongruent(d);
      CongruentRaised(Bits(d), Raised(Bits(c), n - 1), 1);
      RaisedTwice(Bits(c), n - 1, 1);
      CongruentChain(Bits(Shift(d)), Raised(Bits(d), 1), Raised(Bits(c), n));
    }
  }

  lemma ShiftCongruent(c: u16)
    ensures Congruent(Bits(Shift(c)), Raised(Bits(c), 1))
  {
    hide Bit, Bits, Shift;
    ShiftBits(c);
    var up := Raised(Bits(c), 1);
    if Bit(c, 15) {
      DivisorOnce();
      assert Plus(Plus(up, DIVISOR), up) == DIVISOR;
    } else {
      CongruentSelf(up);
    }
  }

  lemma CrcUnfolds(s: seq<byte>)
    requires s != []
    ensures var b: nat := s[|s| - 1];
            var c := Xor(Crc(s[..|s| - 1]), b * 0x100);
            Crc(s) == Shifts(c, 8)
  {
    hide Xor, Shift;
  }

  lemma {:induction false} CrcCongruent(s: seq<byte>)
    ensures Congruent(Bits(Crc(s)), Raised(Message(s), 16))
  {
    hide Bit, Bits, Shifts, Congruent, Raised, Xor, Crc, Plus;
    if s == [] {
      NothingCongruent();
    } else {
      var t, b: nat := s[..|s| - 1], s[|s| - 1];
      CrcCongruent(t);
      CrcUnfolds(s);
      var c := Xor(Crc(t), b * 0x100);
      SixteenBits();
      BitsOfXor(Crc(t), b * 0x100);
      BitsOfProduct(b, 8);
      XorSmall(Crc(t), b);
      ShiftsBits(c, 8);
      RaisedPlus(Bits(Crc(t)), Raised(Bits(b), 8), 8);
      RaisedTwice(Bits(b), 8, 8);
      CongruentRaised(Bits(Crc(t)), Raised(Message(t), 16), 8);
      RaisedTwice(Message(t), 16, 8);
      RaisedTwice(Message(t), 8, 16);
      CongruentSelf(Raised(Bits(b), 16));
      CongruentSum(Raised(Bits(Crc(t)), 8), Raised(Message(t), 24), Raised(Bits(b), 16), Raised(Bits(b), 16));
      RaisedPlus(Raised(Message(t), 8), Bits(b), 16);
      CongruentChain(Bits(Crc(s)), Raised(Bits(c), 8), Raised(Message(s), 16));
    }
  }

  lemma NothingCongruent()
    ensures Congruent(Bits(Crc([])), Raised(Message([]), 16))
  {
    assert Bits(0) == iset{} by {
      forall k: nat
        ensures !Bit(0, k)
      {
        BitOfZero(k);
      }
    }
    assert Raised(iset{}, 16) == iset{};
    CongruentSelf(iset{});
  }

  lemma XorSmall(c: u16, b: byte)
    ensures Xor(c, b as nat * 0x100) < 0x1_0000
  {
    hide Bit, Xor;
    var x := Xor(c, b as nat * 0x100);
    BitsOfXor(c, b as nat * 0x100);
    BitsOfU16(c);
    BitsOfU16(b as nat * 0x100);
    assert c % 0x1_0000 == c && (b as nat * 0x100) % 0x1_0000 == b as nat * 0x100;
    BitsOfU16(x);
    assert Bits(x % 0x1_0000) == Bits(x);
    SameNumber(x % 0x1_0000, x);
  }

  /** A number's terms determine it. */
  lemma SameNumber(a: nat, b: nat)
    requires Bits(a) == Bits(b)
    ensures a == b
  {
    forall k: nat
      ensures Bit(a, k) <==> Bit(b, k)
    {
      assert k in Bits(a) <==> k in Bits(b);
    }
    SameBits(a, b);
  }

  lemma {:induction false} SameBits(a: nat, b: nat)
    requires forall k: nat :: Bit(a, k) <==> Bit(b, k)
    ensures a == b
    decreases a + b
  {
    if a > 0 || b > 0 {
      assert Bit(a, 0) <==> Bit(b, 0);
      forall k: nat
        ensures Bit(a / 2, k) <==> Bit(b / 2, k)
      {
        assert Bit(a, k + 1) <==> Bit(b, k + 1);
      }
      SameBits(a / 2, b / 2);
    }
  }

  /** The CRC of some bytes is the one 16-bit number whose polynomial is that of
      the bytes, times x^16, modulo the divisor. */
  lemma CrcIsRemainder(s: seq<byte>, r: u16)
    ensures r == Crc(s) <==> Congruent(Bits(r), Raised(Message(s), 16))
  {
    hide Bit, Bits, Congruent, Raised, Crc, Message;
    CrcCongruent(s);
    if Congruent(Bits(r), Raised(Message(s), 16)) {
      CongruentSwaps(Bits(Crc(s)), Raised(Message(s), 16));
      CongruentChain(Bits(r), Raised(Message(s), 16), Bits(Crc(s)));
      OneRemainder(r, Crc(s));
    }
  }

  lemma SumUnder(a: u16, b: u16)
    ensures forall k :: k in Plus(Bits(a), Bits(b)) ==> k < 16
  {
    hide Bit;
    BitsOfU16(a);
    BitsOfU16(b);
    assert a % 0x1_0000 == a && b % 0x1_0000 == b;
    assert Bits(a) == Under(Bits(a), 16) && Bits(b) == Under(Bits(b), 16);
  }

  lemma OneRemainder(a: u16, b: u16)
    requires Congruent(Bits(a), Bits(b))
    ensures a == b
  {
    hide Bit;
    var q: Poly, n: nat :| Plus(Bits(a), Bits(b)) == Multiple(q, n);
    MultipleTop(q, n);
    SumUnder(a, b);
    var sum := Plus(Bits(a), Bits(b));
    assert sum == iset{};
    forall k: nat
      ensures k in Bits(a) <==> k in Bits(b)
    {
      assert k !in sum;
    }
    assert Bits(a) == Bits(b);
    SameNumber(a, b);
  }

  /** Of the one byte 1 it is 0x1021. */
  lemma CrcOfOne()
    ensures Crc([1]) == 0x1021
  {
    hide Bit, Bits, Raised, Crc;
    BitsOfOne();
    TailBits();
    var m: seq<byte> := [1];
    assert m[..0] == [];
    assert Message([]) == iset{};
    assert Raised(iset{}, 8) == iset{} by { RaisedNothing(8); }
    assert Message(m) == Plus(iset{}, iset{0}) == iset{0};
    DivisorAlone();
    CrcIsRemainder(m, 0x1021);
  }

  lemma RaisedNothing(e: nat)
    ensures Raised(iset{}, e) == iset{} && Raised(iset{0}, e) == iset{e}
  {
  }

  lemma DivisorOnce()
    ensures Multiple(iset{0}, 1) == DIVISOR
  {
    hide Raised;
    RaisedTwice(DIVISOR, 0, 0);
    assert Multiple(iset{0}, 1) == Plus(Multiple(iset{0}, 0), DIVISOR);
  }

  lemma DivisorAlone()
    ensures Congruent(iset{0, 5, 12}, Raised(iset{0}, 16))
  {
    hide Multiple, Raised;
    RaisedNothing(16);
    DivisorOnce();
    assert Plus(iset{0, 5, 12}, iset{16}) == DIVISOR;
  }
}
