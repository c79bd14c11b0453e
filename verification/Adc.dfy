/** Apple Data Compression as ndif.py undoes it (provisioning/ndif.py:26-51),
    against tokens expanded a byte at a time. Decompress is None where Python
    raises an IndexError; negative indices count from the end, as in Python. */
module Adc {
  import opened Bytes

  // ------------------------------------------------------------------ the decoder

  /** An index or a bound as Python takes it: from the end when negative. */
  function FromEnd(i: int, n: nat): int {
    if i < 0 then i + n else i
  }

  function Clamped(i: int, n: nat): (r: nat)
    ensures r <= n
  {
    var at := FromEnd(i, n);
    if at < 0 then 0 else if at > n then n else at
  }

  /** s[lo:hi]. */
  function PySlice(s: seq<byte>, lo: int, hi: int): seq<byte> {
    var a, b := Clamped(lo, |s|), Clamped(hi, |s|);
    if a < b then s[a..b] else []
  }

  /** The loop that copies a repeating pattern. */
  function Repeat(s: seq<byte>, start: int, n: nat): Option<seq<byte>> {
    if n == 0 then Some(s)
    else
      var before := Repeat(s, start, n - 1);
      if before.None? then None
      else
        var at := FromEnd(start + n - 1, |before.value|);
        if 0 <= at < |before.value| then Some(before.value + [before.value[at]]) else None
  }

  function Copy(s: seq<byte>, n: nat, off: nat): Option<seq<byte>> {
    var start := |s| - off;
    if off >= n then Some(s + PySlice(s, start, start + n)) else Repeat(s, start, n)
  }

  datatype Step = Step(at: nat, output: seq<byte>)

  /** One turn of the loop. b & 0x80 and its like are written as quotients and
      remainders of the byte. */
  function Next(src: seq<byte>, i: nat, output: seq<byte>): (r: Option<Step>)
    requires i < |src|
    ensures r.Some? ==> r.value.at > i
  {
    var b: int := src[i];
    if b >= 0x80 then
      var n := b % 0x80 + 1;
      Some(Step(i + 1 + n, output + PySlice(src, i + 1, i + 1 + n)))
    else if b >= 0x40 then
      if i + 2 >= |src| then None
      else
        var hi: int, lo: int := src[i + 1], src[i + 2];
        var r := Copy(output, b % 0x40 + 4, hi * 0x100 + lo + 1);
        if r.None? then None else Some(Step(i + 3, r.value))
    else
      if i + 1 >= |src| then None
      else
        var lo: int := src[i + 1];
        var r := Copy(output, b / 4 + 3, b % 4 * 0x100 + lo + 1);
        if r.None? then None else Some(Step(i + 2, r.value))
  }

  function Run(src: seq<byte>, i: nat, output: seq<byte>, outLen: int): Option<seq<byte>>
    decreases |src| - i
  {
    if i >= |src| || |output| >= outLen then Some(output)
    else
      var next := Next(src, i, output);
      if next.None? then None else Run(src, next.value.at, next.value.output, outLen)
  }

  function Decompress(src: seq<byte>, outLen: int): Option<seq<byte>> {
    var all := Run(src, 0, [], outLen);
    if all.None? then None else Some(PySlice(all.value, 0, outLen))
  }

  /** The copy of a back reference. */
  method CopyBack(s: seq<byte>, n: nat, off: nat) returns (r: Option<seq<byte>>)
    ensures r == Copy(s, n, off)
  {
    hide PySlice;
    var start := |s| - off;
    if off >= n {
      return Some(s + PySlice(s, start, start + n));
    }
    var output := s;
    var k := 0;
    while k < n
      invariant 0 <= k <= n && Repeat(s, start, k) == Some(output)
    {
      var at := FromEnd(start + k, |output|);
      if !(0 <= at < |output|) {
        RepeatStops(s, start, k + 1, n);
        return None;
      }
      output := output + [output[at]];
      k := k + 1;
    }
    r := Some(output);
  }

  /** adc_decompress as its loops. */
  method AdcDecompress(src: seq<byte>, outLen: int) returns (r: Option<seq<byte>>)
    ensures r == Decompress(src, outLen)
  {
    hide PySlice, Copy;
    var output: seq<byte> := [];
    var i: nat := 0;
    while i < |src| && |output| < outLen
      invariant Run(src, i, output, outLen) == Run(src, 0, [], outLen)
      decreases |src| - i
    {
      var b: int := src[i];
      if b >= 0x80 {
        var m := b % 0x80 + 1;
        output := output + PySlice(src, i + 1, i + 1 + m);
        i := i + 1 + m;
        continue;
      }
      var n, off := 0, 0;
      ghost var i0, s0 := i, output;
      if b >= 0x40 {
        if i + 2 >= |src| {
          return None;
        }
        var hi: int, lo: int := src[i + 1], src[i + 2];
        n, off := b % 0x40 + 4, hi * 0x100 + lo + 1;
        i := i + 3;
      } else {
        if i + 1 >= |src| {
          return None;
        }
        var lo: int := src[i + 1];
        n, off := b / 4 + 3, b % 4 * 0x100 + lo + 1;
        i := i + 2;
      }
      var copied := CopyBack(output, n, off);
      if copied.None? {
        return None;
      }
      output := copied.value;
      assert Next(src, i0, s0) == Some(Step(i, output));
    }
    r := Some(PySlice(output, 0, outLen));
  }

  lemma {:induction false} RepeatStops(s: seq<byte>, start: int, k: nat, n: nat)
    requires k <= n && Repeat(s, start, k).None?
    ensures Repeat(s, start, n).None?
  {
    if k < n {
      RepeatStops(s, start, k, n - 1);
    }
  }

  // ------------------------------------------------------------- tokens, expanded

  datatype Token =
    | Literal(bytes: seq<byte>)
    | Short(n: nat, off: nat)
    | Long(n: nat, off: nat)

  predicate Valid(t: Token) {
    match t
    case Literal(bytes) => 1 <= |bytes| <= 128
    case Short(n, off) => 3 <= n <= 18 && 1 <= off <= 1024
    case Long(n, off) => 4 <= n <= 67 && 1 <= off <= 65536
  }

  function TokenBytes(t: Token): (s: seq<byte>)
    requires Valid(t)
    ensures |s| > 0
  {
    match t
    case Literal(bytes) => [0x80 + |bytes| - 1] + bytes
    case Short(n, off) => [(n - 3) * 4 + (off - 1) / 0x100, (off - 1) % 0x100]
    case Long(n, off) => [0x40 + n - 4, (off - 1) / 0x100, (off - 1) % 0x100]
  }

  /** OFF back, N times, a byte at a time. */
  function Back(s: seq<byte>, n: nat, off: nat): (r: seq<byte>)
    requires 1 <= off <= |s|
    ensures |r| == |s| + n
  {
    if n == 0 then s
    else
      var r := Back(s, n - 1, off);
      r + [r[|r| - off]]
  }

  /** T reaches back no further than what there is. */
  predicate Reaches(s: seq<byte>, t: Token) {
    t.Literal? || 1 <= t.off <= |s|
  }

  function Expand(s: seq<byte>, t: Token): (r: seq<byte>)
    requires Reaches(s, t)
    ensures |s| <= |r|
  {
    match t
    case Literal(bytes) => s + bytes
    case Short(n, off) => Back(s, n, off)
    case Long(n, off) => Back(s, n, off)
  }

  datatype Tokens = End | Then(head: Token, tail: Tokens)

  predicate AllValid(ts: Tokens, s: seq<byte>)
    decreases ts
  {
    ts.End? || (Valid(ts.head) && Reaches(s, ts.head) && AllValid(ts.tail, Expand(s, ts.head)))
  }

  function Encode(ts: Tokens, s: seq<byte>): seq<byte>
    requires AllValid(ts, s)
    decreases ts
  {
    if ts.End? then [] else TokenBytes(ts.head) + Encode(ts.tail, Expand(s, ts.head))
  }

  function ExpandAll(s: seq<byte>, ts: Tokens): (r: seq<byte>)
    requires AllValid(ts, s)
    ensures |s| <= |r|
    decreases ts
  {
    if ts.End? then s else ExpandAll(Expand(s, ts.head), ts.tail)
  }

  // ------------------------------------------------------------ one against other

  /** K modulo OFF. */
  function Phase(k: nat, off: nat): (r: nat)
    requires off > 0
    ensures r < off
  {
    if k < off then k else Phase(k - off, off)
  }

  /** What is copied is the last OFF bytes over and over. */
  lemma {:induction false} BackRepeats(s: seq<byte>, n: nat, off: nat, k: nat)
    requires 1 <= off <= |s| && k < |s| + n
    ensures Back(s, n, off)[k] == if k < |s| then s[k] else s[|s| - off + Phase(k - |s|, off)]
    decreases n
  {
    if n > 0 {
      var r := Back(s, n - 1, off);
      BackRepeats(s, n - 1, off, if k < |r| then k else |r| - off);
    }
  }

  /** The slice copy and the overlapping loop both do what a byte at a time does. */
  lemma CopyIsBack(s: seq<byte>, n: nat, off: nat)
    requires 1 <= off <= |s|
    ensures Copy(s, n, off) == Some(Back(s, n, off))
  {
    hide Back;
    hide Phase;
    if off >= n {
      var start := |s| - off;
      WithinSlice(s, start, start + n);
      forall k | 0 <= k < |s| + n
        ensures (s + s[start..start + n])[k] == Back(s, n, off)[k]
      {
        BackRepeats(s, n, off, k);
        FirstPhase(k - |s|, off);
      }
      assert s + s[start..start + n] == Back(s, n, off);
    } else {
      RepeatIsBack(s, n, off);
    }
  }

  /** The tokens' bytes at the ends of their ranges. */
  lemma TokensInBytes(x: byte)
    ensures TokenBytes(Literal([x])) == [0x80, x] && TokenBytes(Literal(Zeros(128)))[0] == 0xFF
    ensures TokenBytes(Short(3, 1)) == [0, 0] && TokenBytes(Short(18, 1024)) == [0x3F, 0xFF]
    ensures TokenBytes(Long(4, 1)) == [0x40, 0, 0] && TokenBytes(Long(67, 65536)) == [0x7F, 0xFF, 0xFF]
  {
  }

  /** Reaching back past the start: a copy that does not overlap itself takes what
      a Python slice of negative bounds has, one that does takes its bytes from the
      end on, and is an error only past twice what there is. */
  lemma FarBack(s: seq<byte>, n: nat, off: nat)
    requires off > |s| && n > 0
    ensures Copy(s, n, off).None? <==> off < n && off > 2 * |s|
    ensures off >= n ==>
              var lo := if off <= 2 * |s| then 2 * |s| - off else 0;
              var hi := if off <= |s| + n then |s| + n - off
                        else if off <= 2 * |s| + n then 2 * |s| + n - off else 0;
              Copy(s, n, off) == Some(s + if lo < hi then s[lo..hi] else [])
    ensures off < n && off <= 2 * |s| ==>
              var r := Copy(s, n, off).value;
              |r| == |s| + n && s <= r && forall p :: |s| <= p < |r| ==> FarByte(r, off, p)
  {
    if off < n {
      FarRepeat(s, n, off);
    }
  }

  /** The byte at P is the one OFF back, counted on from the end where that is before
      the start. */
  predicate FarByte(r: seq<byte>, off: nat, p: nat)
    requires p < |r| && 0 < off <= 2 * p
  {
    r[p] == if off <= p then r[p - off] else r[2 * p - off]
  }

  lemma {:induction false} FarRepeat(s: seq<byte>, n: nat, off: nat)
    requires off > |s| && n > 0
    ensures Repeat(s, |s| - off, n).None? <==> off > 2 * |s|
    ensures off <= 2 * |s| ==>
              var r := Repeat(s, |s| - off, n).value;
              |r| == |s| + n && s <= r && forall p :: |s| <= p < |r| ==> FarByte(r, off, p)
  {
    assert Repeat(s, |s| - off, 0) == Some(s);
    if n > 1 {
      FarRepeat(s, n - 1, off);
    }
    if off <= 2 * |s| {
      var r, m := Repeat(s, |s| - off, n).value, |s| + n - 1;
      var before := Repeat(s, |s| - off, n - 1).value;
      assert before == r[..m];
      forall p | |s| <= p < |r|
        ensures FarByte(r, off, p)
      {
        if p < m {
          assert FarByte(before, off, p);
        }
      }
    }
  }

  lemma WithinSlice(s: seq<byte>, lo: nat, hi: nat)
    requires lo <= hi <= |s|
    ensures PySlice(s, lo, hi) == s[lo..hi]
  {
  }

  lemma FirstPhase(k: int, off: nat)
    requires off > 0
    ensures 0 <= k < off ==> Phase(k, off) == k
  {
  }

  lemma {:induction false} RepeatIsBack(s: seq<byte>, n: nat, off: nat)
    requires 1 <= off <= |s|
    ensures Repeat(s, |s| - off, n) == Some(Back(s, n, off))
  {
    if n > 0 {
      RepeatIsBack(s, n - 1, off);
    }
  }

  /** One turn of the loop at a token's bytes is that token. */
  lemma NextIsExpand(src: seq<byte>, i: nat, t: Token, s: seq<byte>)
    requires Valid(t) && Reaches(s, t) && i + |TokenBytes(t)| <= |src|
    requires src[i..i + |TokenBytes(t)|] == TokenBytes(t)
    ensures Next(src, i, s) == Some(Step(i + |TokenBytes(t)|, Expand(s, t)))
  {
    hide Copy, Back, PySlice;
    var own := src[i..i + |TokenBytes(t)|];
    assert src[i] == own[0] && (|own| > 1 ==> src[i + 1] == own[1]) && (|own| > 2 ==> src[i + 2] == own[2]);
    match t
    case Literal(bytes) =>
      WithinSlice(src, i + 1, i + 1 + |bytes|);
      assert src[i + 1..i + 1 + |bytes|] == src[i..i + 1 + |bytes|][1..] == bytes;
    case Short(n, off) =>
      ShortFields(n, off);
      CopyIsBack(s, n, off);
    case Long(n, off) =>
      CopyIsBack(s, n, off);
  }

  lemma ShortFields(n: nat, off: nat)
    requires Valid(Short(n, off))
    ensures var b: int := TokenBytes(Short(n, off))[0];
            b < 0x40 && b / 4 + 3 == n && b % 4 * 0x100 + (off - 1) % 0x100 + 1 == off
  {
  }

  /** Expanding further only adds. */
  lemma {:induction false} ExpandAllAdds(s: seq<byte>, ts: Tokens)
    requires AllValid(ts, s)
    ensures s <= ExpandAll(s, ts)
    decreases ts
  {
    hide Back;
    if ts.Then? {
      var t := Expand(s, ts.head);
      ExpandAllAdds(t, ts.tail);
      if !ts.head.Literal? {
        BackAdds(s, ts.head.n, ts.head.off);
      }
    }
  }

  lemma {:induction false} BackAdds(s: seq<byte>, n: nat, off: nat)
    requires 1 <= off <= |s|
    ensures s <= Back(s, n, off)
  {
    if n > 0 {
      BackAdds(s, n - 1, off);
    }
  }

  lemma {:induction false} RunExpands(src: seq<byte>, i: nat, ts: Tokens, s: seq<byte>, outLen: nat)
    requires i <= |src| && AllValid(ts, s) && src[i..] == Encode(ts, s)
    ensures Run(src, i, s, outLen).Some?
    ensures var r, all := Run(src, i, s, outLen).value, ExpandAll(s, ts); r <= all && (outLen <= |r| || r == all)
    decreases ts
  {
    hide Next, Expand, TokenBytes, Valid;
    ExpandAllAdds(s, ts);
    if i < |src| && |s| < outLen {
      var t := ts.head;
      var rest := Encode(ts.tail, Expand(s, t));
      var n := |TokenBytes(t)|;
      assert src[i..] == TokenBytes(t) + rest;
      assert src[i..i + n] == src[i..][..n] == TokenBytes(t);
      assert src[i + n..] == src[i..][n..] == rest;
      NextIsExpand(src, i, t, s);
      RunExpands(src, i + n, ts.tail, Expand(s, t), outLen);
    }
  }

  /** Decompressing the bytes of any tokens gives what they expand to, cut to the
      length asked for. */
  lemma DecompressExpands(ts: Tokens, outLen: int)
    requires AllValid(ts, [])
    ensures var all := ExpandAll([], ts);
            Decompress(Encode(ts, []), outLen) ==
            Some(if outLen <= 0 then [] else if outLen < |all| then all[..outLen] else all)
  {
    hide Run, ExpandAll, AllValid, Encode;
    var src := Encode(ts, []);
    assert src[0..] == src;
    if outLen > 0 {
      RunExpands(src, 0, ts, [], outLen);
      var r, all := Run(src, 0, [], outLen).value, ExpandAll([], ts);
      if outLen <= |r| {
        assert PySlice(r, 0, outLen) == r[..outLen] == all[..outLen];
        assert all[..|all|] == all;
      } else {
        assert PySlice(r, 0, outLen) == r;
      }
    } else {
      RunNothing(src, outLen);
    }
  }

  lemma RunNothing(src: seq<byte>, outLen: int)
    requires outLen <= 0
    ensures Run(src, 0, [], outLen) == Some([])
  {
  }

  // ------------------------------------------------------ which bytes are tokens

  /** The token whose bytes start at I; None where they are cut short. */
  function TokenAt(src: seq<byte>, i: nat): (t: Option<Token>)
    requires i < |src|
    ensures t.Some? ==> Valid(t.value) && i + |TokenBytes(t.value)| <= |src|
  {
    var b: int := src[i];
    if b >= 0x80 then
      var n := b % 0x80 + 1;
      if i + 1 + n > |src| then None else Some(Literal(src[i + 1..i + 1 + n]))
    else if b >= 0x40 then
      if i + 2 >= |src| then None
      else
        var hi: int, lo: int := src[i + 1], src[i + 2];
        Some(Long(b % 0x40 + 4, hi * 0x100 + lo + 1))
    else
      if i + 1 >= |src| then None
      else
        var lo: int := src[i + 1];
        Some(Short(b / 4 + 3, b % 4 * 0x100 + lo + 1))
  }

  /** A token is at I exactly when its bytes are. */
  lemma TokenAtIff(src: seq<byte>, i: nat, t: Token)
    requires i < |src| && Valid(t)
    ensures TokenAt(src, i) == Some(t) <==>
            i + |TokenBytes(t)| <= |src| && src[i..i + |TokenBytes(t)|] == TokenBytes(t)
  {
    hide TokenAt;
    match t
    case Literal(bytes) => LiteralAtIff(src, i, bytes);
    case Short(n, off) => ShortAtIff(src, i, n, off);
    case Long(n, off) => LongAtIff(src, i, n, off);
  }

  lemma LiteralAtIff(src: seq<byte>, i: nat, bytes: seq<byte>)
    requires i < |src| && Valid(Literal(bytes))
    ensures TokenAt(src, i) == Some(Literal(bytes)) <==>
            i + 1 + |bytes| <= |src| && src[i..i + 1 + |bytes|] == [0x80 + |bytes| - 1] + bytes
  {
    hide TokenAt;
    TokenIsLiteral(src, i, bytes);
    if i + 1 + |bytes| <= |src| {
      HeadAndRest(src, i, 1 + |bytes|, 0x80 + |bytes| - 1, bytes);
    }
  }

  lemma TokenIsLiteral(src: seq<byte>, i: nat, bytes: seq<byte>)
    requires i < |src| && 1 <= |bytes| <= 128
    ensures TokenAt(src, i) == Some(Literal(bytes)) <==>
            src[i] == 0x80 + |bytes| - 1 && i + 1 + |bytes| <= |src| && src[i + 1..i + 1 + |bytes|] == bytes
  {
  }

  lemma HeadAndRest(src: seq<byte>, i: nat, n: nat, b: byte, rest: seq<byte>)
    requires i + n <= |src| && n == 1 + |rest|
    ensures src[i..i + n] == [b] + rest <==> src[i] == b && src[i + 1..i + n] == rest
  {
    var own := src[i..i + n];
    assert own[0] == src[i] && own[1..] == src[i + 1..i + n];
    assert own == [own[0]] + own[1..];
    assert ([b] + rest)[0] == b && ([b] + rest)[1..] == rest;
  }

  lemma ShortAtIff(src: seq<byte>, i: nat, n: nat, off: nat)
    requires i < |src| && Valid(Short(n, off))
    ensures TokenAt(src, i) == Some(Short(n, off)) <==>
            i + 2 <= |src| && src[i..i + 2] == [(n - 3) * 4 + (off - 1) / 0x100, (off - 1) % 0x100]
  {
    if i + 2 <= |src| {
      assert src[i..i + 2] == [src[i], src[i + 1]];
      ShortIff(src[i], src[i + 1], n, off);
    }
  }

  lemma LongAtIff(src: seq<byte>, i: nat, n: nat, off: nat)
    requires i < |src| && Valid(Long(n, off))
    ensures TokenAt(src, i) == Some(Long(n, off)) <==>
            i + 3 <= |src| && src[i..i + 3] == [0x40 + n - 4, (off - 1) / 0x100, (off - 1) % 0x100]
  {
    if i + 3 <= |src| {
      assert src[i..i + 3] == [src[i], src[i + 1], src[i + 2]];
      LongIff(src[i], src[i + 1], src[i + 2], n, off);
    }
  }

  lemma ShortIff(b: byte, lo: byte, n: nat, off: nat)
    requires Valid(Short(n, off))
    ensures b < 0x40 && b / 4 + 3 == n && b % 4 * 0x100 + lo + 1 == off <==>
            b == (n - 3) * 4 + (off - 1) / 0x100 && lo == (off - 1) % 0x100
  {
  }

  lemma LongIff(b: byte, hi: byte, lo: byte, n: nat, off: nat)
    requires Valid(Long(n, off))
    ensures 0x40 <= b < 0x80 && b % 0x40 + 4 == n && hi * 0x100 + lo + 1 == off <==>
            b == 0x40 + n - 4 && hi == (off - 1) / 0x100 && lo == (off - 1) % 0x100
  {
  }

  /** SRC from I on as tokens that reach back no further than S. */
  function Parse(src: seq<byte>, i: nat, s: seq<byte>): Option<Tokens>
    requires i <= |src|
    decreases |src| - i
  {
    if i == |src| then Some(End)
    else
      var t := TokenAt(src, i);
      if t.None? || !Reaches(s, t.value) then None
      else
        var rest := Parse(src, i + |TokenBytes(t.value)|, Expand(s, t.value));
        if rest.None? then None else Some(Then(t.value, rest.value))
  }

  /** Bytes and tokens are the same thing: a byte string is the encoding of at
      most one list of tokens, the one Parse finds. */
  lemma {:induction false} ParseIff(src: seq<byte>, i: nat, s: seq<byte>, ts: Tokens)
    requires i <= |src|
    ensures Parse(src, i, s) == Some(ts) <==> AllValid(ts, s) && Encode(ts, s) == src[i..]
    decreases ts
  {
    hide TokenAt, TokenBytes, Expand, Valid, Reaches;
    match ts
    case End =>
      assert |src[i..]| == |src| - i;
    case Then(t, rest) =>
      if Valid(t) && Reaches(s, t) && i < |src| {
        TokenAtIff(src, i, t);
        var n := |TokenBytes(t)|;
        if i + n <= |src| {
          ParseIff(src, i + n, Expand(s, t), rest);
          assert src[i..] == src[i..i + n] + src[i + n..];
          assert src[i..][..n] == src[i..i + n] && src[i..][n..] == src[i + n..];
        }
      }
  }
}
