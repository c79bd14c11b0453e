/** Byte strings made of parts laid end to end, taken apart again, and the
    big-endian fields and slices Python code reads them with. */
module Layout {
  import opened Bytes

  function Flat<T>(parts: seq<seq<T>>): seq<T> {
    if parts == [] then [] else Flat(parts[..|parts| - 1]) + parts[|parts| - 1]
  }

  /** Where part K starts. */
  function Start<T>(parts: seq<seq<T>>, k: nat): nat
    requires k <= |parts|
  {
    |Flat(parts[..k])|
  }

  /** Part K is where the parts before it end. */
  lemma {:induction false} FlatPart<T>(parts: seq<seq<T>>, k: nat)
    requires k < |parts|
    ensures Start(parts, k) + |parts[k]| <= |Flat(parts)|
    ensures Flat(parts)[Start(parts, k)..Start(parts, k) + |parts[k]|] == parts[k]
  {
    var n := |parts| - 1;
    if k < n {
      FlatPart(parts[..n], k);
      assert parts[..n][..k] == parts[..k];
    }
  }

  lemma FlatNext<T>(parts: seq<seq<T>>, k: nat)
    requires k < |parts|
    ensures Flat(parts[..k + 1]) == Flat(parts[..k]) + parts[k]
    ensures Start(parts, k + 1) == Start(parts, k) + |parts[k]|
  {
    assert parts[..k + 1][..k] == parts[..k];
  }

  lemma FlatAll<T>(parts: seq<seq<T>>)
    ensures Flat(parts[..|parts|]) == Flat(parts) && Start(parts, |parts|) == |Flat(parts)|
  {
    assert parts[..|parts|] == parts;
  }

  /** An element of the whole is an element of one part. */
  lemma {:induction false} FlatFind<T>(parts: seq<seq<T>>, at: nat) returns (k: nat, i: nat)
    requires at < |Flat(parts)|
    ensures k < |parts| && i < |parts[k]| && at == Start(parts, k) + i && Flat(parts)[at] == parts[k][i]
  {
    var n := |parts| - 1;
    if at < |Flat(parts[..n])| {
      k, i := FlatFind(parts[..n], at);
      assert parts[..n][..k] == parts[..k];
    } else {
      k, i := n, at - |Flat(parts[..n])|;
    }
  }

  lemma {:induction false} StartsOrdered<T>(parts: seq<seq<T>>, k: nat, l: nat)
    requires k <= l <= |parts|
    ensures Start(parts, k) <= Start(parts, l) <= |Flat(parts)|
    decreases l - k
  {
    if k < l {
      StartsOrdered(parts, k, l - 1);
      FlatNext(parts, l - 1);
      FlatPart(parts, l - 1);
    } else if k < |parts| {
      FlatPart(parts, k);
    } else {
      FlatAll(parts);
    }
  }

  lemma OneTimeMore(wide: nat, n: nat)
    ensures wide * n + wide == wide * (n + 1)
  {
  }

  lemma {:induction false} FlatWide<T>(parts: seq<seq<T>>, wide: nat)
    requires forall p :: p in parts ==> |p| == wide
    ensures |Flat(parts)| == wide * |parts|
  {
    if parts != [] {
      var n := |parts| - 1;
      FlatWide(parts[..n], wide);
      assert |Flat(parts)| == |Flat(parts[..n])| + |parts[n]|;
      OneTimeMore(wide, n);
    }
  }

  /** From part K on there are the parts from K on. */
  lemma {:induction false} FlatTail<T>(parts: seq<seq<T>>, k: nat)
    requires k <= |parts|
    ensures Start(parts, k) <= |Flat(parts)| && Flat(parts)[Start(parts, k)..] == Flat(parts[k..])
  {
    var n := |parts| - 1;
    if k == |parts| {
      FlatAll(parts);
    } else {
      FlatTail(parts[..n], k);
      assert parts[..n][..k] == parts[..k];
      assert parts[k..][..|parts[k..]| - 1] == parts[..n][k..];
    }
  }

  lemma SliceOfSlice<T>(s: seq<T>, lo: nat, hi: nat, i: nat, j: nat)
    requires lo <= hi <= |s| && i <= j <= hi - lo
    ensures s[lo..hi][i..j] == s[lo + i..lo + j]
  {
    var a, b := s[lo..hi][i..j], s[lo + i..lo + j];
    assert |a| == |b|;
    forall k | 0 <= k < j - i
      ensures a[k] == b[k]
    {
      assert a[k] == s[lo..hi][i + k] == s[lo + (i + k)];
    }
  }

  /** A then B from AT on, taken apart. */
  lemma Leads<T>(s: seq<T>, at: nat, a: seq<T>, b: seq<T>)
    requires at <= |s| && s[at..] == a + b
    ensures at + |a| <= |s| && s[at..at + |a|] == a && s[at + |a|..] == b
  {
    var rest := s[at..];
    assert |rest| == |a| + |b| && rest[..|a|] == a && rest[|a|..] == b;
    assert s[at..at + |a|] == rest[..|a|] && s[at + |a|..] == rest[|a|..];
  }

  // ----------------------------------------------------------- big-endian fields

  function Be16(x: int): (s: seq<byte>)
    ensures |s| == HALF
  {
    Be(x % 0x1_0000, HALF)
  }

  function Be32(x: int): (s: seq<byte>)
    ensures |s| == WORD
  {
    Be(x % 0x1_0000_0000, WORD)
  }

  function Get16(s: seq<byte>, at: nat): (x: u16)
    requires at + HALF <= |s|
  {
    BeRoundTrip(0, s[at..at + HALF]);
    Limits();
    FromBe(s[at..at + HALF])
  }

  function Get32(s: seq<byte>, at: nat): (x: u32)
    requires at + WORD <= |s|
  {
    BeRoundTrip(0, s[at..at + WORD]);
    Limits();
    FromBe(s[at..at + WORD])
  }

  lemma Get16Back(s: seq<byte>, at: nat, x: u16)
    requires at + HALF <= |s|
    ensures s[at..at + HALF] == Be16(x) <==> Get16(s, at) == x
  {
    hide Be, FromBe, Limit;
    BeRoundTrip(x, s[at..at + HALF]);
    Limits();
  }

  lemma Get32Back(s: seq<byte>, at: nat, x: u32)
    requires at + WORD <= |s|
    ensures s[at..at + WORD] == Be32(x) <==> Get32(s, at) == x
  {
    hide Be, FromBe, Limit;
    BeRoundTrip(x, s[at..at + WORD]);
    Limits();
  }

  /** s[lo:hi] as Python has it, for indices that are not negative. */
  function Slice<T>(s: seq<T>, lo: nat, hi: nat): (r: seq<T>)
    ensures lo <= hi <= |s| ==> r == s[lo..hi]
  {
    if lo >= hi || lo >= |s| then [] else if hi <= |s| then s[lo..hi] else s[lo..]
  }
}
