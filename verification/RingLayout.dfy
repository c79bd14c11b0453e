/** The ring's messages in its bytes: 64 KB, each message a 4-byte head and its
    payload to the next multiple of 4, none across the end, where a WRAP head
    sends the reader back to 0 (src/common/include/MacBrowser.h:95, 240-276,
    MacBrowser/browser_shm.c:15-110).

    Positions here count on past the end of the ring, a byte's place being its
    position modulo the size; the program has only the places. */
module RingLayout {
  import opened Bytes

  const SIZE: nat := 0x1_0000
  const MAX_PAYLOAD: nat := 0xFFF8  // SIZE less a head and the spare 4 bytes
  const WRAP: u16 := 0

  datatype Message = Message(kind: u16, payload: seq<byte>)

  predicate Proper(m: Message) {
    m.kind != WRAP && |m.payload| <= MAX_PAYLOAD
  }

  function Align(n: nat): (r: nat)
    ensures r % 4 == 0 && n <= r < n + 4
  {
    (n + 3) / 4 * 4
  }

  /** What a message of N bytes takes up. */
  function Frame(n: nat): (r: nat)
    ensures r % 4 == 0 && r >= 4 + n && r >= 4
  {
    4 + Align(n)
  }

  function Head(kind: u16, len: u16): (s: seq<byte>)
    ensures |s| == 4
  {
    Be(kind, HALF) + Be(len, HALF)
  }

  function HeadKind(head: seq<byte>): u16
    requires |head| == 4
  {
    BeRoundTrip(0, head[..2]);
    Limits();
    FromBe(head[..2])
  }

  function HeadLen(head: seq<byte>): u16
    requires |head| == 4
  {
    BeRoundTrip(0, head[2..]);
    Limits();
    FromBe(head[2..])
  }

  lemma HeadRoundTrip(kind: u16, len: u16)
    ensures HeadKind(Head(kind, len)) == kind && HeadLen(Head(kind, len)) == len
  {
    var h := Head(kind, len);
    assert h[..2] == Be(kind, HALF) && h[2..] == Be(len, HALF);
    BeRoundTrip(kind, h[..2]);
    BeRoundTrip(len, h[2..]);
    Limits();
  }

  // ------------------------------------------------------------------- positions

  function At(data: seq<byte>, p: nat): byte
    requires |data| == SIZE
  {
    data[p % 0x1_0000]
  }

  /** Where a message written at P begins: past the end of the ring when it
      would not fit before it. */
  function Begin(p: nat, m: Message): nat {
    var place := p % 0x1_0000;
    if place + Frame(|m.payload|) > SIZE then p + (SIZE - place) else p
  }

  function End(p: nat, m: Message): nat {
    Begin(p, m) + Frame(|m.payload|)
  }

  /** M is in DATA, written at P. */
  ghost predicate Written(data: seq<byte>, p: nat, m: Message)
    requires |data| == SIZE
  {
    && Proper(m)
    && Frame(|m.payload|) <= SIZE
    && (Begin(p, m) != p ==> forall i :: 0 <= i < 4 ==> At(data, p + i) == Head(WRAP, 0)[i])
    && (forall i :: 0 <= i < 4 ==> At(data, Begin(p, m) + i) == Head(m.kind, |m.payload|)[i])
    && (forall i :: 0 <= i < |m.payload| ==> At(data, Begin(p, m) + 4 + i) == m.payload[i])
  }

  /** The messages Q, and nothing else, are in DATA from P to W. */
  ghost predicate Holds(data: seq<byte>, p: nat, w: nat, q: seq<Message>)
    requires |data| == SIZE
    decreases |q|
  {
    if q == [] then p == w
    else Written(data, p, q[0]) && End(p, q[0]) <= w && Holds(data, End(p, q[0]), w, q[1..])
  }

  lemma PlaceInFrame(p: nat, m: Message, i: nat)
    requires Frame(|m.payload|) <= SIZE && i < Frame(|m.payload|)
    ensures (Begin(p, m) + i) % 0x1_0000 == Begin(p, m) % 0x1_0000 + i
    ensures Begin(p, m) % 0x1_0000 == if Begin(p, m) == p then p % 0x1_0000 else 0
    ensures Begin(p, m) % 0x1_0000 + Frame(|m.payload|) <= SIZE
    ensures p <= Begin(p, m) < p + SIZE
  {
  }

  lemma PlaceOfWrap(p: nat, i: nat)
    requires p % 4 == 0 && i < 4
    ensures (p + i) % 0x1_0000 == p % 0x1_0000 + i && p % 0x1_0000 + 4 <= SIZE
  {
    assert p % 0x1_0000 % 4 == 0;
  }

  lemma AlignedSum(a: nat, b: nat)
    requires a % 4 == 0 && b % 4 == 0
    ensures (a + b) % 4 == 0
  {
  }

  lemma BeginAligned(p: nat, m: Message)
    requires p % 4 == 0
    ensures Begin(p, m) % 4 == 0 && Begin(p, m) >= p
  {
    hide Frame;
    var turn := p / 0x1_0000;
    assert Begin(p, m) == p || Begin(p, m) == 0x1_0000 * (turn + 1);
  }

  lemma EndAligned(p: nat, m: Message)
    requires p % 4 == 0
    ensures End(p, m) % 4 == 0 && Begin(p, m) % 4 == 0 && End(p, m) >= p + 4
  {
    hide Frame, Begin;
    BeginAligned(p, m);
    AlignedSum(Begin(p, m), Frame(|m.payload|));
  }

  /** Bytes less than a ring's length apart are in different places. */
  lemma DifferentPlaces(p: nat, q: nat)
    requires p < q < p + SIZE
    ensures p % 0x1_0000 != q % 0x1_0000
  {
  }

  // --------------------------------------------------------------- what holds on

  lemma WrittenSame(data: seq<byte>, data': seq<byte>, p: nat, m: Message)
    requires |data| == |data'| == SIZE && p % 4 == 0
    requires Written(data, p, m)
    requires forall k :: p <= k < End(p, m) ==> At(data, k) == At(data', k)
    ensures Written(data', p, m)
  {
    EndAligned(p, m);
    if Begin(p, m) != p {
      PlaceOfWrap(p, 0);
      forall i | 0 <= i < 4
        ensures At(data', p + i) == Head(WRAP, 0)[i]
      {
        assert At(data, p + i) == At(data', p + i);
      }
    }
    forall i | 0 <= i < 4
      ensures At(data', Begin(p, m) + i) == Head(m.kind, |m.payload|)[i]
    {
      assert At(data, Begin(p, m) + i) == At(data', Begin(p, m) + i);
    }
    forall i | 0 <= i < |m.payload|
      ensures At(data', Begin(p, m) + 4 + i) == m.payload[i]
    {
      assert At(data, Begin(p, m) + 4 + i) == At(data', Begin(p, m) + 4 + i);
    }
  }

  /** Messages hold while their bytes do. */
  lemma {:induction false} HoldsSame(data: seq<byte>, data': seq<byte>, p: nat, w: nat, q: seq<Message>)
    requires |data| == |data'| == SIZE && p % 4 == 0
    requires Holds(data, p, w, q)
    requires forall k :: p <= k < w ==> At(data, k) == At(data', k)
    ensures Holds(data', p, w, q)
    decreases |q|
  {
    if q != [] {
      EndAligned(p, q[0]);
      WrittenSame(data, data', p, q[0]);
      HoldsSame(data, data', End(p, q[0]), w, q[1..]);
    }
  }

  lemma {:induction false} HoldsAppend(data: seq<byte>, p: nat, w: nat, q: seq<Message>, m: Message)
    requires |data| == SIZE && Holds(data, p, w, q) && Written(data, w, m)
    ensures Holds(data, p, End(w, m), q + [m])
    decreases |q|
  {
    if q == [] {
      assert (q + [m])[1..] == [];
    } else {
      HoldsAppend(data, End(p, q[0]), w, q[1..], m);
      assert (q + [m])[1..] == q[1..] + [m];
      EndGrows(data, End(p, q[0]), w, q[1..]);
    }
  }

  lemma {:induction false} EndGrows(data: seq<byte>, p: nat, w: nat, q: seq<Message>)
    requires |data| == SIZE && Holds(data, p, w, q)
    ensures p <= w && (q != [] ==> p < w)
    decreases |q|
  {
    if q != [] {
      EndGrows(data, End(p, q[0]), w, q[1..]);
    }
  }
}
