/** The ring as the program has it, bytes and indices in place: push and pop as
    one call each (MacBrowser/browser_shm.c:22-110). */
module RingBuffer {
  import opened Bytes
  import opened Numbers
  import opened RingLayout
  import opened RingMachine
  import opened RingSafety

  class BrRing {
    const data: array<byte>
    var writeIndex: nat
    var readIndex: nat

    predicate Valid()
      reads this, data
    {
      data.Length == SIZE && writeIndex < SIZE && writeIndex % 4 == 0 && readIndex < SIZE && readIndex % 4 == 0
    }

    /** The messages Q are in the ring, the indices standing for HEAD and TAIL. */
    ghost predicate Contains(tail: nat, head: nat, q: seq<Message>)
      reads this, data
    {
      && data.Length == SIZE && head % 4 == 0 && tail % 4 == 0 && tail <= head <= tail + SIZE - 4
      && writeIndex == head % 0x1_0000 && readIndex == tail % 0x1_0000
      && Holds(data[..], tail, head, q)
    }

    constructor ()
      ensures Valid() && Contains(0, 0, []) && fresh(data)
    {
      data := new byte[SIZE];
      writeIndex, readIndex := 0, 0;
    }

    /** ring_write_hdr: kind and length, two bytes each, highest first. */
    method WriteHead(at: nat, kind: u16, len: u16)
      requires at + 4 <= data.Length
      modifies data
      ensures data[..] == Splice(old(data[..]), at, Head(kind, len))
    {
      var head := Head(kind, len);
      data[at] := head[0];
      data[at + 1] := head[1];
      data[at + 2] := head[2];
      data[at + 3] := head[3];
      assert forall i :: 0 <= i < data.Length ==> data[i] == Splice(old(data[..]), at, head)[i];
    }

    method CopyIn(at: nat, bytes: seq<byte>)
      requires at + |bytes| <= data.Length
      modifies data
      ensures data[..] == Splice(old(data[..]), at, bytes)
    {
      forall i | 0 <= i < |bytes| {
        data[at + i] := bytes[i];
      }
      forall i | 0 <= i < data.Length
        ensures data[i] == Splice(old(data[..]), at, bytes)[i]
      {
        assert at <= i < at + |bytes| ==> data[at + (i - at)] == bytes[i - at];
      }
    }

    /** The bytes of an accepted push, a WRAP head first where the message would run
        over the end; the index after them. */
    method Write(at: nat, kind: u16, payload: seq<byte>) returns (next: nat)
      requires data.Length == SIZE && at < SIZE && at % 4 == 0 && Proper(Message(kind, payload))
      requires Frame(|payload|) <= SIZE
      modifies data
      ensures data[..] == Stored(old(data[..]), at, Message(kind, payload))
      ensures var end := (if Wraps(at, |payload|) then 0 else at) + Frame(|payload|);
              next == if end == SIZE then 0 else end
    {
      hide Head, Splice, Frame, Stored;
      var w := at;
      if w + Frame(|payload|) > SIZE {
        WriteHead(w, WRAP, 0);
        w := 0;
      }
      WriteHead(w, kind, |payload|);
      CopyIn(w + 4, payload);
      WasStored(old(data[..]), at, Message(kind, payload));
      next := w + Frame(|payload|);
      if next == SIZE {
        next := 0;
      }
    }

    /** br_ring_push: 0 done, -1 the reserved kind, -2 too long, 1 no room. */
    method Push(kind: u16, payload: seq<byte>, ghost tail: nat, ghost head: nat, ghost q: seq<Message>)
      returns (code: int)
      requires Valid() && Contains(tail, head, q)
      modifies this`writeIndex, data
      ensures Valid() && readIndex == old(readIndex)
      ensures code == (match RingMachine.Push(old(writeIndex), readIndex, kind, payload) {
                         case Accepted(_) => 0 case Full => 1 case Reserved => -1 case TooLong => -2 })
      ensures code != 0 ==> writeIndex == old(writeIndex) && data[..] == old(data[..]) && Contains(tail, head, q)
      ensures code == 0 ==>
                var m := Message(kind, payload);
                Proper(m) && End(head, m) + 4 <= tail + SIZE && Contains(tail, End(head, m), q + [m])
    {
      hide Holds, Head, Written, Stored, Splice;
      if kind == WRAP {
        return -1;
      }
      if |payload| > MAX_PAYLOAD {
        return -2;
      }
      var w, r := writeIndex, readIndex;
      var needed := Frame(|payload|);
      var wrap := w + needed > SIZE;
      var total := if wrap then SIZE - w + needed else needed;
      if total > FreeBytes(w, r) {
        return 1;
      }
      ghost var m := Message(kind, payload);
      Room(tail, head, m);
      w := Write(w, kind, payload);
      StoredHolds(old(data[..]), tail, head, q, m);
      writeIndex := w;
      code := 0;
    }

    static lemma WasStored(data: seq<byte>, w: nat, m: Message)
      requires |data| == SIZE && w < SIZE && w % 4 == 0 && Proper(m) && Frame(|m.payload|) <= SIZE
      requires Wraps(w, |m.payload|) || w + Frame(|m.payload|) <= SIZE
      ensures var at := if Wraps(w, |m.payload|) then 0 else w;
              var d := if Wraps(w, |m.payload|) then Splice(data, w, Head(WRAP, 0)) else data;
              Stored(data, w, m) == Splice(Splice(d, at, Head(m.kind, |m.payload|)), at + 4, m.payload)
    {
      hide Head, Splice, Frame;
    }

    /** What an accepted message leaves free, in positions. */
    static lemma Room(tail: nat, head: nat, m: Message)
      requires head % 4 == 0 && tail <= head <= tail + SIZE - 4 && Proper(m) && head % 0x1_0000 % 4 == 0
      requires Takes(head % 0x1_0000, |m.payload|) <= FreeBytes(head % 0x1_0000, tail % 0x1_0000)
      ensures Frame(|m.payload|) <= SIZE && End(head, m) + 4 <= tail + SIZE
      ensures Wraps(head % 0x1_0000, |m.payload|) <==> Begin(head, m) != head
      ensures Begin(head, m) != head ==> Frame(|m.payload|) <= head % 0x1_0000
      ensures var next := Begin(head, m) % 0x1_0000 + Frame(|m.payload|);
              next <= SIZE && End(head, m) % 0x1_0000 == (if next == SIZE then 0 else next)
      ensures Begin(head, m) % 0x1_0000 == if Begin(head, m) == head then head % 0x1_0000 else 0
      ensures End(head, m) % 4 == 0 && End(head, m) % 0x1_0000 % 4 == 0
    {
      FreeIsFree(head, tail);
      TakesIsEnd(head, m);
      PlaceInFrame(head, m, 0);
      EndPlace(head, m);
      EndAligned(head, m);
      PlaceAligned(End(head, m));
    }

    static lemma StoredHolds(data: seq<byte>, tail: nat, head: nat, q: seq<Message>, m: Message)
      requires |data| == SIZE && head % 4 == 0 && tail % 4 == 0 && head % 0x1_0000 % 4 == 0
      requires Holds(data, tail, head, q)
      requires Proper(m) && Frame(|m.payload|) <= SIZE && tail <= head && End(head, m) <= tail + SIZE
      requires Begin(head, m) != head ==> Frame(|m.payload|) <= head % 0x1_0000
      requires Wraps(head % 0x1_0000, |m.payload|) || head % 0x1_0000 + Frame(|m.payload|) <= SIZE
      ensures Holds(Stored(data, head % 0x1_0000, m), tail, End(head, m), q + [m])
    {
      hide Holds, Head, Written, Splice, Frame;
      var d := Stored(data, head % 0x1_0000, m);
      StoredIsWritten(data, head, m);
      PlanStores(data, head % 0x1_0000, m);
      StoresInFreeSpace(head, tail, m);
      forall k | tail <= k < head
        ensures At(data, k) == At(d, k)
      {
        assert forall p :: p in PlanPokes(head % 0x1_0000, m) ==> p.at != k % 0x1_0000;
        ApplyElsewhere(data, PlanPokes(head % 0x1_0000, m), k % 0x1_0000);
      }
      HoldsSame(data, d, tail, head, q);
      HoldsAppend(d, tail, head, q, m);
    }

    static lemma {:induction false} ApplyElsewhere(data: seq<byte>, pokes: seq<Poke>, place: nat)
      requires place < |data| && forall p :: p in pokes ==> p.at < |data| && p.at != place
      ensures Apply(data, pokes)[place] == data[place]
      decreases |pokes|
    {
      if pokes != [] {
        ApplyElsewhere(data[pokes[0].at := pokes[0].value], pokes[1..], place);
      }
    }

    method CopyOut(buf: array<byte>, at: nat, n: nat)
      requires at + n <= data.Length && n <= buf.Length && buf != data
      modifies buf
      ensures buf[..n] == data[at..at + n] && buf[n..] == old(buf[n..])
    {
      forall i | 0 <= i < n {
        buf[i] := data[at + i];
      }
    }

    /** The head of the next message, past a WRAP head if there is one: where it
        is and what it says. */
    method NextHead(ghost tail: nat, ghost head: nat, ghost m: Message) returns (r: nat, kind: u16, len: u16)
      requires data.Length == SIZE && tail % 4 == 0 && Written(data[..], tail, m)
      requires End(tail, m) <= head <= tail + SIZE - 4
      requires readIndex == tail % 0x1_0000 && writeIndex == head % 0x1_0000
      ensures r == Begin(tail, m) % 0x1_0000 && kind == m.kind && len == |m.payload|
    {
      hide Head, HeadKind, HeadLen, Frame, Begin, End, Written;
      HeadsAt(data[..], tail, head, m);
      r := readIndex;
      kind, len := HeadKind(data[r..r + 4]), HeadLen(data[r..r + 4]);
      if kind == WRAP {
        r := 0;
        if r == writeIndex {
          assert false;  // the program has a way out here that is never taken
        }
        kind, len := HeadKind(data[r..r + 4]), HeadLen(data[r..r + 4]);
        if kind == WRAP {
          assert false;  // and here
        }
      }
    }

    /** br_ring_pop: 0 and the next message, as much of its payload in BUF as
        CAPACITY allows; 1 when there is none. */
    method Pop(buf: array<byte>, capacity: nat, ghost tail: nat, ghost head: nat, ghost q: seq<Message>)
      returns (code: int, kind: u16, len: u16)
      requires Valid() && Contains(tail, head, q) && capacity <= buf.Length && buf != data
      modifies this`readIndex, buf
      ensures Valid() && writeIndex == old(writeIndex) && data[..] == old(data[..])
      ensures code == if q == [] then 1 else 0
      ensures q == [] ==> Contains(tail, head, q) && buf[..] == old(buf[..])
      ensures q != [] ==>
                var m := q[0];
                var n := Min(|m.payload|, capacity);
                && kind == m.kind && len == |m.payload|
                && buf[..n] == m.payload[..n] && buf[n..] == old(buf[n..])
                && Contains(End(tail, m), head, q[1..])
    {
      hide Holds, Head, HeadKind, HeadLen, Frame, Begin, End, Written;
      code, kind, len := 1, 0, 0;
      var w, r := writeIndex, readIndex;
      ghost var bytes := data[..];
      NothingHeld(bytes, tail, head, q);
      if r == w {
        return;
      }
      ghost var m := q[0];
      r, kind, len := NextHead(tail, head, m);
      HeadsAt(bytes, tail, head, m);
      var n := Min(len, capacity);
      CopyOut(buf, r + 4, n);
      Shortened(bytes, r + 4, |m.payload|, n);
      assert data[..] == bytes;
      r := r + Frame(len);
      if r == SIZE {
        r := 0;
      }
      readIndex := r;
      code := 0;
    }

    static lemma Shortened(s: seq<byte>, at: nat, len: nat, n: nat)
      requires at + len <= |s| && n <= len
      ensures s[at..at + n] == s[at..at + len][..n]
    {
    }

    /** An empty ring is one with the indices equal. */
    static lemma NothingHeld(data: seq<byte>, tail: nat, head: nat, q: seq<Message>)
      requires |data| == SIZE && Holds(data, tail, head, q) && tail <= head <= tail + SIZE - 4
      ensures tail % 0x1_0000 == head % 0x1_0000 <==> q == []
      ensures q != [] ==>
                && Written(data, tail, q[0]) && End(tail, q[0]) <= head
                && Holds(data, End(tail, q[0]), head, q[1..])
    {
      EndGrows(data, tail, head, q);
      if q != [] {
        DifferentPlaces(tail, head);
      }
    }

    /** What the reader finds where it reads. */
    static lemma HeadsAt(data: seq<byte>, tail: nat, head: nat, m: Message)
      requires |data| == SIZE && tail % 4 == 0 && Written(data, tail, m)
      requires End(tail, m) <= head <= tail + SIZE - 4
      ensures var r, b := tail % 0x1_0000, Begin(tail, m) % 0x1_0000;
              && r + 4 <= SIZE && b + 4 + |m.payload| <= SIZE && m.kind != WRAP
              && HeadKind(data[b..b + 4]) == m.kind && HeadLen(data[b..b + 4]) == |m.payload|
              && data[b + 4..b + 4 + |m.payload|] == m.payload
              && (Begin(tail, m) == tail ==> b == r)
              && (Begin(tail, m) != tail ==> b == 0 && HeadKind(data[r..r + 4]) == WRAP && head % 0x1_0000 != 0)
      ensures var next := Begin(tail, m) % 0x1_0000 + Frame(|m.payload|);
              next <= SIZE && End(tail, m) % 0x1_0000 == (if next == SIZE then 0 else next)
      ensures End(tail, m) % 4 == 0 && End(tail, m) % 0x1_0000 % 4 == 0 && tail <= End(tail, m)
    {
      hide Head, HeadKind, HeadLen, Frame, Begin, Written;
      MessageSize(data, tail, m);
      PlaceInFrame(tail, m, 0);
      EndPlace(tail, m);
      EndAligned(tail, m);
      PlaceAligned(End(tail, m));
      HeadRoundTrip(m.kind, |m.payload|);
      HeadRoundTrip(WRAP, 0);
      HeadBytes(data, tail, m);
      if Begin(tail, m) != tail {
        DifferentPlaces(Begin(tail, m), head);
      }
    }

    static lemma HeadBytes(data: seq<byte>, tail: nat, m: Message)
      requires |data| == SIZE && tail % 4 == 0 && Written(data, tail, m)
      ensures var r, b := tail % 0x1_0000, Begin(tail, m) % 0x1_0000;
              && r + 4 <= SIZE && b + 4 + |m.payload| <= SIZE
              && data[b..b + 4] == Head(m.kind, |m.payload|)
              && data[b + 4..b + 4 + |m.payload|] == m.payload
              && (Begin(tail, m) != tail ==> data[r..r + 4] == Head(WRAP, 0))
    {
      hide Head, Frame;
      var r, b := tail % 0x1_0000, Begin(tail, m) % 0x1_0000;
      MessageSize(data, tail, m);
      PlaceInFrame(tail, m, 0);
      forall i | 0 <= i < 4
        ensures r + 4 <= SIZE && data[b + i] == Head(m.kind, |m.payload|)[i]
        ensures Begin(tail, m) != tail ==> data[r + i] == Head(WRAP, 0)[i]
      {
        PlaceInFrame(tail, m, i);
        PlaceOfWrap(tail, i);
      }
      forall i | 0 <= i < |m.payload|
        ensures data[b + 4 + i] == m.payload[i]
      {
        PlaceInFrame(tail, m, 4 + i);
      }
      assert r + 4 <= SIZE by {
        PlaceOfWrap(tail, 0);
      }
    }
  }
}
