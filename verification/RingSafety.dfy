/** What holds of the ring after any steps of the two sides in any order: what is
    popped is what was pushed, in order and whole, and no unread byte is ever
    written over (MacBrowser/browser_shm.c:36-110). */
module RingSafety {
  import opened Bytes
  import opened Numbers
  import opened RingLayout
  import opened RingMachine

  // ---------------------------------------------------------------- the invariant

  function Apply(data: seq<byte>, pokes: seq<Poke>): (r: seq<byte>)
    requires forall p :: p in pokes ==> p.at < |data|
    ensures |r| == |data|
    decreases |pokes|
  {
    if pokes == [] then data else Apply(data[pokes[0].at := pokes[0].value], pokes[1..])
  }

  /** PLACE has no byte between TAIL and HEAD in it. */
  ghost predicate Clear(place: nat, tail: nat, head: nat) {
    forall k :: tail <= k < head ==> k % 0x1_0000 != place
  }

  /** P gives of M what a pop with its capacity gives. */
  predicate Gives(p: Popped, m: Message) {
    && p.kind == m.kind && p.len == |m.payload|
    && p.bytes == m.payload[..Min(|m.payload|, p.capacity)]
  }

  predicate Indices(s: State) {
    && |s.data| == SIZE && s.head % 4 == 0 && s.tail % 4 == 0
    && s.tail <= s.head <= s.tail + SIZE - 4
    && s.w == s.head % 0x1_0000 && s.r == s.tail % 0x1_0000
  }

  ghost predicate Queue(s: State)
    requires |s.data| == SIZE
  {
    && |s.got| <= |s.sent|
    && (forall i :: 0 <= i < |s.got| ==> Gives(s.got[i], s.sent[i]))
    && Holds(s.data, s.tail, s.head, s.sent[|s.got|..])
  }

  ghost predicate Producing(s: State)
    requires |s.data| == SIZE
  {
    s.producer.Storing? ==>
      var m, pokes := s.producer.message, s.producer.pokes;
      && End(s.head, m) <= s.tail + SIZE - 4
      && s.producer.takes == End(s.head, m) - s.head
      && s.producer.index == End(s.head, m) % 0x1_0000
      && (forall p :: p in pokes ==> p.at < SIZE && Clear(p.at, s.tail, s.head))
      && Written(Apply(s.data, pokes), s.head, m)
  }

  /** The head the consumer is reading: the WRAP one or the message's. */
  function HeadRead(tail: nat, m: Message, wrapped: bool): (s: seq<byte>)
    requires |m.payload| <= MAX_PAYLOAD
    ensures |s| == 4
  {
    if !wrapped && Begin(tail, m) != tail then Head(WRAP, 0) else Head(m.kind, |m.payload|)
  }

  ghost predicate Consuming(s: State) {
    match s.consumer
    case Waiting => true
    case InHead(upTo, w, at, wrapped, capacity, read) =>
      && |s.got| < |s.sent| && |s.sent[|s.got|].payload| <= MAX_PAYLOAD
      && (var m := s.sent[|s.got|];
          && End(s.tail, m) <= upTo <= s.head && w == upTo % 0x1_0000
          && at == (if wrapped then Begin(s.tail, m) % 0x1_0000 else s.r)
          && (wrapped ==> Begin(s.tail, m) != s.tail)
          && |read| <= 4 && read == HeadRead(s.tail, m, wrapped)[..|read|])
    case InBody(at, kind, len, capacity, read) =>
      && |s.got| < |s.sent|
      && (var m := s.sent[|s.got|];
          && at == Begin(s.tail, m) % 0x1_0000
          && kind == m.kind && len == |m.payload|
          && |read| <= Min(len, capacity) && read == m.payload[..|read|])
  }

  ghost predicate Inv(s: State) {
    Indices(s) && Queue(s) && Producing(s) && Consuming(s) && s.odd == 0
  }

  // -------------------------------------------------------------------- free space

  /** The free space a push counts, from an index R that may be old: what it
      really is from there. */
  lemma FreeIsFree(head: nat, tail: nat)
    requires head % 4 == 0 && tail <= head <= tail + SIZE - 4
    ensures head % 0x1_0000 % 4 == 0
    ensures FreeBytes(head % 0x1_0000, tail % 0x1_0000) == SIZE - 4 - (head - tail)
  {
    var w, r := head % 0x1_0000, tail % 0x1_0000;
    var a, b := head / 0x1_0000, tail / 0x1_0000;
    assert head == 0x1_0000 * a + w && tail == 0x1_0000 * b + r;
    assert w == 4 * (head / 4 - 0x4000 * a);
    assert a == b || a == b + 1;
  }

  lemma TakesIsEnd(head: nat, m: Message)
    requires Frame(|m.payload|) <= SIZE
    ensures head + Takes(head % 0x1_0000, |m.payload|) == End(head, m)
    ensures Wraps(head % 0x1_0000, |m.payload|) <==> Begin(head, m) != head
  {
  }

  // ------------------------------------------------------------- one message's bytes

  /** Storing a block of bytes leaves them where they were put. */
  lemma {:induction false} ApplyPokes(data: seq<byte>, at: nat, bytes: seq<byte>)
    requires at + |bytes| <= |data|
    ensures Apply(data, Pokes(at, bytes)) == Splice(data, at, bytes)
    decreases |bytes|
  {
    hide Splice;
    if bytes != [] {
      var d := data[at := bytes[0]];
      assert Pokes(at, bytes)[1..] == Pokes(at + 1, bytes[1..]);
      ApplyPokes(d, at + 1, bytes[1..]);
      assert Splice(d, at + 1, bytes[1..]) == Splice(data, at, bytes);
    } else {
      assert Splice(data, at, bytes) == data;
    }
  }

  lemma {:induction false} ApplyAppend(data: seq<byte>, a: seq<Poke>, b: seq<Poke>)
    requires forall p :: p in a ==> p.at < |data|
    requires forall p :: p in b ==> p.at < |data|
    ensures forall p :: p in a + b ==> p.at < |data|
    ensures Apply(data, a + b) == Apply(Apply(data, a), b)
    decreases |a|
  {
    if a == [] {
      assert a + b == b;
    } else {
      ApplyAppend(data[a[0].at := a[0].value], a[1..], b);
      assert (a + b)[1..] == a[1..] + b;
    }
  }

  function PlanPokes(w: nat, m: Message): seq<Poke>
    requires w < SIZE && Proper(m)
  {
    var at := if Wraps(w, |m.payload|) then 0 else w;
    (if Wraps(w, |m.payload|) then Pokes(w, Head(WRAP, 0)) else []) +
    Pokes(at, Head(m.kind, |m.payload|)) + Pokes(at + 4, m.payload)
  }

  /** The bytes a push stores, all of them stored. */
  function Stored(data: seq<byte>, w: nat, m: Message): (r: seq<byte>)
    requires |data| == SIZE && w < SIZE && w % 4 == 0 && Proper(m)
    requires Wraps(w, |m.payload|) || w + Frame(|m.payload|) <= SIZE
    requires Frame(|m.payload|) <= SIZE
    ensures |r| == SIZE
  {
    var at := if Wraps(w, |m.payload|) then 0 else w;
    var d := if Wraps(w, |m.payload|) then Splice(data, w, Head(WRAP, 0)) else data;
    Splice(Splice(d, at, Head(m.kind, |m.payload|)), at + 4, m.payload)
  }

  lemma PokesInRange(w: nat, m: Message)
    requires w < SIZE && w % 4 == 0 && Proper(m) && Frame(|m.payload|) <= SIZE
    ensures forall p :: p in PlanPokes(w, m) ==> p.at < SIZE
  {
  }

  lemma PlanStores(data: seq<byte>, w: nat, m: Message)
    requires |data| == SIZE && w < SIZE && w % 4 == 0 && Proper(m) && Frame(|m.payload|) <= SIZE
    ensures forall p :: p in PlanPokes(w, m) ==> p.at < SIZE
    ensures Apply(data, PlanPokes(w, m)) == Stored(data, w, m)
  {
    hide Apply, Head, Splice, Pokes, Frame;
    PokesInRange(w, m);
    var wrap := Wraps(w, |m.payload|);
    var at := if wrap then 0 else w;
    var a := if wrap then Pokes(w, Head(WRAP, 0)) else [];
    var b, c := Pokes(at, Head(m.kind, |m.payload|)), Pokes(at + 4, m.payload);
    ApplyAppend(data, a + b, c);
    ApplyAppend(data, a, b);
    ApplyNothing(data);
    if wrap {
      ApplyPokes(data, w, Head(WRAP, 0));
    }
    ApplyPokes(Apply(data, a), at, Head(m.kind, |m.payload|));
    ApplyPokes(Apply(data, a + b), at + 4, m.payload);
  }

  lemma ApplyNothing(data: seq<byte>)
    ensures Apply(data, []) == data
  {
  }

  lemma StoredPlaces(data: seq<byte>, w: nat, m: Message)
    requires |data| == SIZE && w < SIZE && w % 4 == 0 && Proper(m) && Frame(|m.payload|) <= SIZE
    requires if Wraps(w, |m.payload|) then Frame(|m.payload|) <= w else w + Frame(|m.payload|) <= SIZE
    ensures var at := if Wraps(w, |m.payload|) then 0 else w;
            var d := Stored(data, w, m);
            && (Wraps(w, |m.payload|) ==> forall i :: 0 <= i < 4 ==> d[w + i] == Head(WRAP, 0)[i])
            && (forall i :: 0 <= i < 4 ==> d[at + i] == Head(m.kind, |m.payload|)[i])
            && (forall i :: 0 <= i < |m.payload| ==> d[at + 4 + i] == m.payload[i])
  {
    hide Head, Splice, Frame;
  }

  /** Once they are all stored the message is written. */
  lemma StoredIsWritten(data: seq<byte>, head: nat, m: Message)
    requires |data| == SIZE && head % 4 == 0 && head % 0x1_0000 % 4 == 0 && Proper(m)
    requires Frame(|m.payload|) <= SIZE && (Begin(head, m) != head ==> Frame(|m.payload|) <= head % 0x1_0000)
    ensures Written(Stored(data, head % 0x1_0000, m), head, m)
  {
    hide Head, Splice, Stored, Frame, Wraps, Begin;
    var w := head % 0x1_0000;
    TakesIsEnd(head, m);
    PlaceInFrame(head, m, 0);
    var d := Stored(data, w, m);
    StoredPlaces(data, w, m);
    forall i | 0 <= i < 4
      ensures Begin(head, m) != head ==> At(d, head + i) == Head(WRAP, 0)[i]
      ensures At(d, Begin(head, m) + i) == Head(m.kind, |m.payload|)[i]
    {
      PlaceOfWrap(head, i);
      PlaceInFrame(head, m, i);
    }
    forall i | 0 <= i < |m.payload|
      ensures At(d, Begin(head, m) + 4 + i) == m.payload[i]
    {
      PlaceInFrame(head, m, 4 + i);
    }
  }

  /** It is all stored in free space. */
  lemma StoresInFreeSpace(head: nat, tail: nat, m: Message)
    requires head % 4 == 0 && Proper(m) && Frame(|m.payload|) <= SIZE
    requires tail <= head && End(head, m) <= tail + SIZE
    ensures forall p :: p in PlanPokes(head % 0x1_0000, m) ==> Clear(p.at, tail, head)
  {
    hide Head, Frame;
    TakesIsEnd(head, m);
    var w := head % 0x1_0000;
    forall p | p in PlanPokes(w, m)
      ensures Clear(p.at, tail, head)
    {
      var v := PositionOf(head, m, p);
      forall k | tail <= k < head
        ensures k % 0x1_0000 != p.at
      {
        DifferentPlaces(k, v);
      }
    }
  }

  lemma PositionOf(head: nat, m: Message, p: Poke) returns (v: nat)
    requires head % 4 == 0 && Proper(m) && Frame(|m.payload|) <= SIZE
    requires p in PlanPokes(head % 0x1_0000, m)
    ensures head <= v < End(head, m) && v % 0x1_0000 == p.at
  {
    hide Head, Pokes, Wraps, Takes, Begin, Frame;
    TakesIsEnd(head, m);
    var w := head % 0x1_0000;
    var at := if Wraps(w, |m.payload|) then 0 else w;
    if Wraps(w, |m.payload|) && p in Pokes(w, Head(WRAP, 0)) {
      var i :| 0 <= i < 4 && p == Pokes(w, Head(WRAP, 0))[i];
      PlaceOfWrap(head, i);
      PlaceInFrame(head, m, 0);
      v := head + i;
    } else if p in Pokes(at, Head(m.kind, |m.payload|)) {
      var i :| 0 <= i < 4 && p == Pokes(at, Head(m.kind, |m.payload|))[i];
      PlaceInFrame(head, m, i);
      v := Begin(head, m) + i;
    } else {
      var i :| 0 <= i < |m.payload| && p == Pokes(at + 4, m.payload)[i];
      PlaceInFrame(head, m, 4 + i);
      v := Begin(head, m) + 4 + i;
    }
  }

  // ------------------------------------------------------------------ step by step

  lemma InvShaped(s: State)
    requires Inv(s)
    ensures Shaped(s)
  {
    hide HeadRead, Frame, Written, Holds, Begin, Gives, Apply, Clear;
    PlaceAligned(s.head);
    PlaceAligned(s.tail);
    if !s.consumer.Waiting? {
      var m := s.sent[|s.got|];
      FirstMessage(s);
      MessageSize(s.data, s.tail, m);
      BeginAligned(s.tail, m);
      PlaceAligned(Begin(s.tail, m));
      PlaceInFrame(s.tail, m, 0);
    }
  }

  lemma PlaceAligned(p: nat)
    requires p % 4 == 0
    ensures p % 0x1_0000 % 4 == 0 && p % 0x1_0000 + 4 <= SIZE
  {
  }

  /** The message the consumer is at. */
  lemma FirstMessage(s: State)
    requires Indices(s) && Queue(s) && |s.got| < |s.sent|
    ensures var m := s.sent[|s.got|];
            && Written(s.data, s.tail, m) && End(s.tail, m) <= s.head
            && Holds(s.data, End(s.tail, m), s.head, s.sent[|s.got| + 1..])
  {
    hide Written, End;
    var q := s.sent[|s.got|..];
    assert q[0] == s.sent[|s.got|] && q[1..] == s.sent[|s.got| + 1..];
  }

  lemma PushStartKeeps(s: State, kind: u16, payload: seq<byte>)
    requires Inv(s) && Shaped(s)
    ensures Inv(Next(s, PushStart(kind, payload)))
  {
    hide Holds, Written, Apply, Consuming, Gives, Frame, Stored, Clear;
    var m := Message(kind, payload);
    var v := Push(s.w, s.r, kind, payload);
    if s.producer.Ready? && v.Accepted? {
      FreeIsFree(s.head, s.tail);
      PushFits(s, m);
      PlanStores(s.data, s.w, m);
      StoredIsWritten(s.data, s.head, m);
      StoresInFreeSpace(s.head, s.tail, m);
      ConsumingSame(s, Next(s, PushStart(kind, payload)));
    }
  }

  /** An accepted push's message fits in what is free. */
  lemma PushFits(s: State, m: Message)
    requires Indices(s) && s.w % 4 == 0 && Push(s.w, s.r, m.kind, m.payload).Accepted?
    ensures Proper(m) && Frame(|m.payload|) <= SIZE
    ensures End(s.head, m) <= s.tail + SIZE - 4
    ensures Begin(s.head, m) != s.head ==> Frame(|m.payload|) <= s.head % 0x1_0000
    ensures var plan := Push(s.w, s.r, m.kind, m.payload).plan;
            && plan.pokes == PlanPokes(s.w, m)
            && plan.takes == End(s.head, m) - s.head && plan.index == End(s.head, m) % 0x1_0000
  {
    hide Pokes, Head;
    FreeIsFree(s.head, s.tail);
    TakesIsEnd(s.head, m);
    PlaceInFrame(s.head, m, 0);
    EndPlace(s.head, m);
  }

  lemma EndPlace(p: nat, m: Message)
    requires Frame(|m.payload|) <= SIZE
    ensures var next := Begin(p, m) % 0x1_0000 + Frame(|m.payload|);
            End(p, m) % 0x1_0000 == if next == SIZE then 0 else next
  {
    hide Frame, Begin;
    var b := Begin(p, m);
    PlaceInFrame(p, m, 0);
    assert b == 0x1_0000 * (b / 0x1_0000) + b % 0x1_0000;
  }

  lemma PushStoreKeeps(s: State)
    requires Inv(s) && Shaped(s)
    ensures Inv(Next(s, PushStore))
  {
    hide Written, Consuming, Gives, Frame;
    if s.producer.Storing? && s.producer.pokes != [] {
      var p := s.producer.pokes[0];
      var t := Next(s, PushStore);
      forall k | s.tail <= k < s.head
        ensures At(s.data, k) == At(t.data, k)
      {
        assert k % 0x1_0000 != p.at;
      }
      HoldsSame(s.data, t.data, s.tail, s.head, s.sent[|s.got|..]);
      ConsumingSame(s, t);
    }
  }

  /** What the consumer knows is about messages pushed before. */
  lemma ConsumingSame(s: State, t: State)
    requires Consuming(s)
    requires t.consumer == s.consumer && t.tail == s.tail && t.r == s.r && t.got == s.got && s.head <= t.head
    requires |s.sent| <= |t.sent| && t.sent[..|s.sent|] == s.sent
    ensures Consuming(t)
  {
    hide HeadRead, Frame;
    if |s.got| < |s.sent| {
      assert t.sent[|s.got|] == t.sent[..|s.sent|][|s.got|];
    }
  }

  lemma PushCommitKeeps(s: State)
    requires Inv(s) && Shaped(s)
    ensures Inv(Next(s, PushCommit))
  {
    hide Written, Consuming, Frame, Holds, Gives;
    if s.producer.Storing? && s.producer.pokes == [] {
      var m := s.producer.message;
      var t := Next(s, PushCommit);
      HoldsAppend(s.data, s.tail, s.head, s.sent[|s.got|..], m);
      assert t.sent[|t.got|..] == s.sent[|s.got|..] + [m];
      EndAligned(s.head, m);
      assert t.sent[..|s.sent|] == s.sent;
      ConsumingSame(s, t);
    }
  }

  lemma PopStartKeeps(s: State, capacity: nat)
    requires Inv(s) && Shaped(s)
    ensures Inv(Next(s, PopStart(capacity)))
  {
    hide Written, Frame, Gives, Apply, Clear;
    if s.consumer.Waiting? && s.r != s.w {
      assert s.sent[|s.got|..] != [];
      FirstMessage(s);
      MessageSize(s.data, s.tail, s.sent[|s.got|]);
    }
  }

  lemma MessageSize(data: seq<byte>, p: nat, m: Message)
    requires |data| == SIZE && Written(data, p, m)
    ensures |m.payload| <= MAX_PAYLOAD && m.kind != WRAP && Frame(|m.payload|) <= SIZE
  {
  }

  lemma PopLoadKeeps(s: State)
    requires Inv(s) && Shaped(s)
    ensures Inv(Next(s, PopLoad))
  {
    hide Indices, Queue, Producing, Consuming, Next;
    ReadOn(s);
    OnlyConsumer(s, Next(s, PopLoad));
  }

  lemma ReadOn(s: State)
    requires Indices(s) && Queue(s) && Consuming(s) && Shaped(s)
    ensures Next(s, PopLoad) == s.(consumer := Next(s, PopLoad).consumer) && Consuming(Next(s, PopLoad))
  {
    hide Queue, Begin, End, HeadRead, Indices;
    LoadedByte(s);
    match s.consumer
    case Waiting =>
    case InHead(upTo, w, at, wrapped, capacity, read) =>
      if |read| < 4 {
        OneMore(HeadRead(s.tail, s.sent[|s.got|], wrapped), |read|);
      }
    case InBody(at, kind, len, capacity, read) =>
      if |read| < Min(len, capacity) {
        OneMore(s.sent[|s.got|].payload, |read|);
      }
  }

  lemma OneMore(s: seq<byte>, n: nat)
    requires n < |s|
    ensures s[..n] + [s[n]] == s[..n + 1]
  {
  }

  /** What the consumer is at is all that changed. */
  lemma OnlyConsumer(s: State, t: State)
    requires Indices(s) && Queue(s) && Producing(s) && t == s.(consumer := t.consumer)
    ensures Indices(t) && Queue(t) && Producing(t)
  {
    hide Holds, Gives, Apply, Clear, Written, End;
  }

  /** The byte a load gets is the next of the head or payload it is in. */
  lemma LoadedByte(s: State)
    requires Indices(s) && Queue(s) && Consuming(s)
    ensures s.consumer.InHead? && |s.consumer.read| < 4 ==>
              var n := |s.consumer.read|;
              s.consumer.at + n < SIZE && |s.got| < |s.sent| &&
              s.data[s.consumer.at + n] == HeadRead(s.tail, s.sent[|s.got|], s.consumer.wrapped)[n]
    ensures s.consumer.InBody? && |s.consumer.read| < s.consumer.len ==>
              var n := |s.consumer.read|;
              s.consumer.at + 4 + n < SIZE && |s.got| < |s.sent| &&
              s.data[s.consumer.at + 4 + n] == s.sent[|s.got|].payload[n]
  {
    hide Holds, Head, Gives, Frame;
    if s.consumer.InHead? && |s.consumer.read| < 4 {
      var m, n := s.sent[|s.got|], |s.consumer.read|;
      FirstMessage(s);
      MessageSize(s.data, s.tail, m);
      PlaceOfWrap(s.tail, n);
      PlaceInFrame(s.tail, m, n);
    }
    if s.consumer.InBody? && |s.consumer.read| < s.consumer.len {
      var m, n := s.sent[|s.got|], |s.consumer.read|;
      FirstMessage(s);
      MessageSize(s.data, s.tail, m);
      PlaceInFrame(s.tail, m, 4 + n);
    }
  }

  lemma PopHeadKeeps(s: State)
    requires Inv(s) && Shaped(s)
    ensures Inv(Next(s, PopHead))
  {
    hide Holds, Frame, Gives, Apply, Clear, Written, Head, HeadKind, HeadLen;
    if s.consumer.InHead? && |s.consumer.read| == 4 {
      var m := s.sent[|s.got|];
      FirstMessage(s);
      MessageSize(s.data, s.tail, m);
      assert s.consumer.read == HeadRead(s.tail, m, s.consumer.wrapped);
      HeadRoundTrip(WRAP, 0);
      HeadRoundTrip(m.kind, |m.payload|);
      if Begin(s.tail, m) != s.tail {
        PlaceInFrame(s.tail, m, 0);
        DifferentPlaces(Begin(s.tail, m), s.consumer.upTo);
      }
    }
  }

  lemma PopCommitKeeps(s: State)
    requires Inv(s) && Shaped(s)
    ensures Inv(Next(s, PopCommit))
  {
    hide Holds, Frame, Written, Apply;
    if s.consumer.InBody? && |s.consumer.read| == Min(s.consumer.len, s.consumer.capacity) {
      var m := s.sent[|s.got|];
      FirstMessage(s);
      MessageSize(s.data, s.tail, m);
      PlaceInFrame(s.tail, m, 0);
      EndPlace(s.tail, m);
      EndAligned(s.tail, m);
    }
  }
}
