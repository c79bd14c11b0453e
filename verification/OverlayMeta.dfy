/** The meta record's JSON: how the overlay writes the image's name and size and
    how it picks them out of a record again (executor/host/overlay.cpp:109-142). */
module OverlayMeta {
  import opened Bytes

  const QUOTE: byte := 34
  const BACKSLASH: byte := 92
  const COLON: byte := 58
  const SPACE: int := 32
  const ZERO: int := 48

  const SIZE_KEY: seq<byte> := [34, 115, 105, 122, 101, 34]  // "size", quoted
  const NAME_KEY: seq<byte> := [34, 110, 97, 109, 101, 34]  // "name", quoted
  const OPENING: seq<byte> := [123, 34, 110, 97, 109, 101, 34, 58, 34]  // {"name":"
  const MIDDLE: seq<byte> := [34, 44, 34, 115, 105, 122, 101, 34, 58]  // ","size":
  const CLOSING: seq<byte> := [125]  // }

  const U64_LIMIT: int := 0x1_0000_0000_0000_0000

  // ---------------------------------------------------------------- writing

  /** json_escape: quotes and backslashes get a backslash, control characters
      are left out. */
  function Escape(name: seq<byte>): seq<byte> {
    if name == [] then []
    else if name[0] < SPACE then Escape(name[1..])
    else if name[0] == QUOTE || name[0] == BACKSLASH then [BACKSLASH, name[0]] + Escape(name[1..])
    else [name[0]] + Escape(name[1..])
  }

  /** NAME without its control characters. */
  function Printable(name: seq<byte>): seq<byte> {
    if name == [] then []
    else if name[0] < SPACE then Printable(name[1..])
    else [name[0]] + Printable(name[1..])
  }

  function Digits(n: nat): (s: seq<byte>)
    ensures |s| > 0
    ensures forall i :: 0 <= i < |s| ==> ZERO <= s[i] <= ZERO + 9
  {
    if n < 10 then [n + ZERO] else Digits(n / 10) + [n % 10 + ZERO]
  }

  function Json(name: seq<byte>, size: nat): seq<byte> {
    OPENING + Escape(name) + MIDDLE + Digits(size) + CLOSING
  }

  // ---------------------------------------------------------------- reading

  predicate Matches(s: seq<byte>, at: nat, pattern: seq<byte>) {
    at + |pattern| <= |s| && forall i :: 0 <= i < |pattern| ==> s[at + i] == pattern[i]
  }

  /** std::string::find: the first match at or after FROM. */
  function Find(s: seq<byte>, pattern: seq<byte>, from: nat): (r: Option<nat>)
    ensures r.Some? ==> from <= r.value && Matches(s, r.value, pattern)
    ensures r.Some? ==> forall i :: from <= i < r.value ==> !Matches(s, i, pattern)
    ensures r.None? ==> forall i :: from <= i ==> !Matches(s, i, pattern)
    decreases |s| - from
  {
    if from + |pattern| > |s| then None
    else if Matches(s, from, pattern) then Some(from)
    else Find(s, pattern, from + 1)
  }

  predicate IsSpace(c: byte) {
    c == 32 || 9 <= c <= 13
  }

  predicate IsDigit(c: byte) {
    ZERO <= c <= ZERO + 9
  }

  function SkipSpaces(s: seq<byte>, at: nat): (r: nat)
    ensures r >= at
    decreases |s| - at
  {
    if at < |s| && IsSpace(s[at]) then SkipSpaces(s, at + 1) else at
  }

  function ReadDigits(s: seq<byte>, at: nat, value: nat): nat
    decreases |s| - at
  {
    if at < |s| && IsDigit(s[at]) then ReadDigits(s, at + 1, value * 10 + (s[at] - ZERO)) else value
  }

  /** strtoull in base 10: leading spaces, a sign, digits; too large a number
      reads as the largest one, a minus negates in 64 bits. */
  function StrToULL(s: seq<byte>, from: nat): nat {
    var at := SkipSpaces(s, from);
    var negative := at < |s| && s[at] == 45;
    var start := if at < |s| && (s[at] == 45 || s[at] == 43) then at + 1 else at;
    var value := ReadDigits(s, start, 0);
    if value >= U64_LIMIT then U64_LIMIT - 1
    else if negative then (U64_LIMIT - value) % 0x1_0000_0000_0000_0000
    else value
  }

  /** The text from AT to the next plain quote, its backslashes taken off. */
  function Unescape(s: seq<byte>, at: nat): seq<byte>
    decreases |s| - at
  {
    if at >= |s| || s[at] == QUOTE then []
    else if s[at] == BACKSLASH && at + 1 < |s| then [s[at + 1]] + Unescape(s, at + 2)
    else [s[at]] + Unescape(s, at + 1)
  }

  function ParseSize(json: seq<byte>, size: nat): nat {
    match Find(json, SIZE_KEY, 0)
    case None => size
    case Some(key) =>
      match Find(json, [COLON], key)
      case None => size
      case Some(colon) => StrToULL(json, colon + 1)
  }

  function ParseName(json: seq<byte>, name: seq<byte>): seq<byte> {
    match Find(json, NAME_KEY, 0)
    case None => name
    case Some(key) =>
      match Find(json, [COLON], key)
      case None => name
      case Some(colon) =>
        match Find(json, [QUOTE], colon)
        case None => name
        case Some(quote) => Unescape(json, quote + 1)
  }

  // ------------------------------------------------------------- properties

  lemma {:induction false} UnescapeEscape(name: seq<byte>, s: seq<byte>, at: nat)
    requires at + |Escape(name)| < |s|
    requires s[at..at + |Escape(name)|] == Escape(name)
    requires s[at + |Escape(name)|] == QUOTE
    ensures Unescape(s, at) == Printable(name)
  {
    if name != [] {
      var e, rest := Escape(name), Escape(name[1..]);
      var k := |e| - |rest|;
      assert e[k..] == rest;
      assert s[at + k..at + |e|] == s[at..at + |e|][k..];
      UnescapeEscape(name[1..], s, at + k);
      if k > 0 {
        assert s[at] == s[at..at + |e|][0] == e[0];
      }
      if k == 2 {
        assert s[at + 1] == s[at..at + |e|][1] == e[1];
      }
    }
  }

  /** Every quote in an escaped name has a backslash right before it. */
  lemma {:induction false} EscapedQuotes(name: seq<byte>, i: nat)
    requires i < |Escape(name)| && Escape(name)[i] == QUOTE
    ensures i > 0 && Escape(name)[i - 1] == BACKSLASH
  {
    var e, rest := Escape(name), Escape(name[1..]);
    var k := |e| - |rest|;
    if i >= k {
      assert e[k..] == rest;
      EscapedQuotes(name[1..], i - k);
    }
  }

  lemma {:induction false} ReadDigitsBack(n: nat, s: seq<byte>, at: nat)
    requires at + |Digits(n)| < |s|
    requires s[at..at + |Digits(n)|] == Digits(n)
    ensures ReadDigits(s, at, 0) == ReadDigits(s, at + |Digits(n)|, n)
  {
    var d := Digits(n);
    assert s[at + |d| - 1] == s[at..at + |d|][|d| - 1] == d[|d| - 1];
    if n >= 10 {
      var d' := Digits(n / 10);
      assert d[..|d'|] == d';
      assert s[at..at + |d'|] == s[at..at + |d|][..|d'|];
      ReadDigitsBack(n / 10, s, at);
    }
  }

  /** J as Json lays it out: P is where its middle part is, a quote before P
      and after the opening has a backslash before it. */
  ghost predicate Framed(j: seq<byte>, p: nat) {
    && 9 <= p && p + 10 <= |j|
    && (forall i :: 0 <= i < 9 ==> j[i] == OPENING[i])
    && (forall i :: 0 <= i < 9 ==> j[p + i] == MIDDLE[i])
    && (forall i :: 9 <= i < p && j[i] == QUOTE ==> i > 9 && j[i - 1] == BACKSLASH)
  }

  lemma JsonFramed(name: seq<byte>, size: nat)
    ensures var j, p := Json(name, size), 9 + |Escape(name)|;
            && Framed(j, p) && |j| == p + 9 + |Digits(size)| + 1
            && j[9..p] == Escape(name)
            && j[p + 9..p + 9 + |Digits(size)|] == Digits(size)
            && j[p + 9 + |Digits(size)|] == CLOSING[0]
  {
    var j, e := Json(name, size), Escape(name);
    assert forall i :: 0 <= i < |e| ==> j[9 + i] == e[i];
    forall i | 9 <= i < 9 + |e| && j[i] == QUOTE
      ensures i > 9 && j[i - 1] == BACKSLASH
    {
      EscapedQuotes(name, i - 9);
      assert j[9 + (i - 10)] == e[i - 10];
    }
  }

  /** A "size" key up to P's own ends at the quote P or is P's own. */
  lemma SizeKeyEnd(j: seq<byte>, p: nat, k: nat)
    requires Framed(j, p) && Matches(j, k, SIZE_KEY) && k <= p + 2
    ensures k + 5 == p || k == p + 2
  {
    assert j[k + 5] == SIZE_KEY[5] && j[k + 4] == SIZE_KEY[4] && j[k + 1] == SIZE_KEY[1];
    var end := k + 5 - p;
    assert 0 <= end ==> j[p + end] == MIDDLE[end];
    assert 1 <= end ==> j[p + (end - 1)] == MIDDLE[end - 1];
  }

  lemma StrToULLBack(n: nat, s: seq<byte>, at: nat)
    requires n < U64_LIMIT && at + |Digits(n)| < |s| && !IsDigit(s[at + |Digits(n)|])
    requires s[at..at + |Digits(n)|] == Digits(n)
    ensures StrToULL(s, at) == n
  {
    assert s[at] == s[at..at + |Digits(n)|][0] == Digits(n)[0];
    ReadDigitsBack(n, s, at);
  }

  /** The first "size" key in what Json writes leads to the size's own colon,
      whatever the name is: one ending in a quote and size, or size itself. */
  lemma SizeColon(j: seq<byte>, p: nat)
    requires Framed(j, p)
    ensures var key := Find(j, SIZE_KEY, 0);
            key.Some? && Find(j, [COLON], key.value) == Some(p + 8)
  {
    assert Matches(j, p + 2, SIZE_KEY) by {
      forall i | 0 <= i < 6
        ensures j[p + 2 + i] == SIZE_KEY[i]
      {
        assert j[p + (2 + i)] == MIDDLE[2 + i];
      }
    }
    var k := Find(j, SIZE_KEY, 0).value;
    SizeKeyEnd(j, p, k);
    forall i | k <= i < p + 8
      ensures j[i] != COLON
    {
      if i < k + 6 {
        assert j[k + (i - k)] == SIZE_KEY[i - k];
      } else {
        assert j[p + (i - p)] == MIDDLE[i - p];
      }
    }
    assert j[p + 8] == MIDDLE[8];
    FirstByte(j, COLON, k, p + 8);
  }

  lemma FirstByte(s: seq<byte>, c: byte, from: nat, at: nat)
    requires from <= at < |s| && s[at] == c
    requires forall i :: from <= i < at ==> s[i] != c
    ensures Find(s, [c], from) == Some(at)
  {
    assert Matches(s, at, [c]);
    var r := Find(s, [c], from).value;
    assert s[r + 0] == [c][0];
  }

  lemma NameQuote(j: seq<byte>, p: nat)
    requires Framed(j, p)
    ensures Find(j, NAME_KEY, 0) == Some(1) && Find(j, [COLON], 1) == Some(7) && Find(j, [QUOTE], 7) == Some(8)
  {
    assert Matches(j, 1, NAME_KEY) by {
      forall i | 0 <= i < 6
        ensures j[1 + i] == NAME_KEY[i]
      {
        assert j[i + 1] == OPENING[i + 1];
      }
    }
    assert j[0] == OPENING[0];
    assert NAME_KEY[0] != j[0];
    assert !Matches(j, 0, NAME_KEY);
    assert j[7] == OPENING[7] && j[8] == OPENING[8];
    FirstByte(j, COLON, 1, 7);
    FirstByte(j, QUOTE, 7, 8);
  }

  lemma SizeBack(j: seq<byte>, p: nat, size: nat, size0: nat)
    requires Framed(j, p) && size < U64_LIMIT
    requires |j| == p + 9 + |Digits(size)| + 1 && j[p + 9..p + 9 + |Digits(size)|] == Digits(size)
    requires j[p + 9 + |Digits(size)|] == CLOSING[0]
    ensures ParseSize(j, size0) == size
  {
    hide Digits, StrToULL, Framed;
    SizeColon(j, p);
    StrToULLBack(size, j, p + 9);
  }

  lemma NameBack(j: seq<byte>, p: nat, name: seq<byte>, name0: seq<byte>)
    requires Framed(j, p) && p == 9 + |Escape(name)| && j[9..p] == Escape(name)
    ensures ParseName(j, name0) == Printable(name)
  {
    NameQuote(j, p);
    assert j[p + 0] == MIDDLE[0];
    UnescapeEscape(name, j, 9);
  }

  /** The record's text: {"name":"...","size":...}, a quote and a backslash in the
      name after a backslash. */
  lemma JsonInBytes(size: nat)
    ensures Json([88, 34, 9, 92], size) ==
            [123, 34, 110, 97, 109, 101, 34, 58, 34, 88, 92, 34, 92, 92, 34, 44, 34, 115, 105, 122, 101, 34, 58]
            + Digits(size) + [125]
  {
    hide Digits;
    var name: seq<byte> := [88, 34, 9, 92];
    assert name[1..] == [34, 9, 92] && name[1..][1..] == [9, 92] && name[1..][1..][1..] == [92];
    assert Escape([92]) == [92, 92] && Escape([9, 92]) == [92, 92];
    assert Escape([34, 9, 92]) == [92, 34, 92, 92];
  }

  /** Round trip: what Json writes of a name and a 64-bit size is read back,
      whatever the name held but its control characters. */
  lemma JsonRoundTrip(name: seq<byte>, size: nat, name0: seq<byte>, size0: nat)
    requires size < U64_LIMIT
    ensures ParseSize(Json(name, size), size0) == size
    ensures ParseName(Json(name, size), name0) == Printable(name)
  {
    JsonFramed(name, size);
    SizeBack(Json(name, size), 9 + |Escape(name)|, size, size0);
    NameBack(Json(name, size), 9 + |Escape(name)|, name, name0);
  }

  /** The name comes back unchanged exactly when it has no control character. */
  lemma {:induction false} PrintableIffSame(name: seq<byte>)
    ensures |Printable(name)| <= |name|
    ensures Printable(name) == name <==> forall i :: 0 <= i < |name| ==> name[i] >= 0x20
  {
    if name != [] {
      PrintableIffSame(name[1..]);
      var rest := Printable(name[1..]);
      if name[0] < SPACE {
        assert |Printable(name)| < |name|;
      } else {
        assert name == [name[0]] + name[1..];
        if Printable(name) == name {
          assert rest == ([name[0]] + rest)[1..] == name[1..];
          forall i | 0 <= i < |name|
            ensures name[i] >= SPACE
          {
            if i > 0 {
              assert name[i] == name[1..][i - 1];
            }
          }
        }
      }
    }
  }

  /** Control characters never reach the file, so names equal without them
      make the same record. */
  lemma {:induction false} EscapePrintable(name: seq<byte>)
    ensures Escape(Printable(name)) == Escape(name)
    ensures Printable(Printable(name)) == Printable(name)
  {
    if name != [] {
      EscapePrintable(name[1..]);
      var p := Printable(name);
      if name[0] >= SPACE {
        assert p[1..] == Printable(name[1..]);
      }
    }
  }
}
