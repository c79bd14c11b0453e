/** One producer and one consumer on a ring, each byte they store or load and
    each index they commit a step of its own, in any order
    (MacBrowser/browser_shm.c:36-110). */
module RingMachine {
  import opened Bytes
  import opened Numbers
  import opened RingLayout

  // ---------------------------------------------------- what the two sides compute

  /** ring_free_bytes: 4 bytes stay spare, so full and empty differ. */
  function FreeBytes(w: nat, r: nat): nat
    requires w < SIZE && r < SIZE && w % 4 == 0
  {
    (r + SIZE - w - 4) % 0x1_0000
  }

  /** A byte to store. */
  datatype Poke = Poke(at: nat, value: byte)

  function Pokes(at: nat, bytes: seq<byte>): (r: seq<Poke>)
    ensures |r| == |bytes| && forall i :: 0 <= i < |r| ==> r[i] == Poke(at + i, bytes[i])
  {
    seq(|bytes|, i requires 0 <= i < |bytes| => Poke(at + i, bytes[i]))
  }

  /** A push that goes through: what it stores, in order, and the index it
      commits then. TAKES: the ring it uses up, a skipped tail included. */
  datatype Plan = Plan(pokes: seq<Poke>, index: nat, takes: nat)

  datatype Verdict = Accepted(plan: Plan) | Full | Reserved | TooLong

  function Wraps(w: nat, n: nat): bool {
    w + Frame(n) > SIZE
  }

  function Takes(w: nat, n: nat): nat
    requires w < SIZE
  {
    if Wraps(w, n) then SIZE - w + Frame(n) else Frame(n)
  }

  /** br_ring_push on write index W and the read index R it loaded. */
  function Push(w: nat, r: nat, kind: u16, payload: seq<byte>): Verdict
    requires w < SIZE && r < SIZE && w % 4 == 0
  {
    if kind == WRAP then Reserved
    else if |payload| > MAX_PAYLOAD then TooLong
    else if Takes(w, |payload|) > FreeBytes(w, r) then Full
    else
      var wrap := Wraps(w, |payload|);
      var at := if wrap then 0 else w;
      var next := at + Frame(|payload|);
      Accepted(Plan((if wrap then Pokes(w, Head(WRAP, 0)) else []) +
                    Pokes(at, Head(kind, |payload|)) + Pokes(at + 4, payload),
                    if next == SIZE then 0 else next, Takes(w, |payload|)))
  }

  // ------------------------------------------------------------------ the machine

  datatype Producer =
    | Ready
    | Storing(message: Message, pokes: seq<Poke>, index: nat, takes: nat)

  /** UPTO: how far the consumer knows the ring to be written. */
  datatype Consumer =
    | Waiting
    | InHead(upTo: nat, w: nat, at: nat, wrapped: bool, capacity: nat, read: seq<byte>)
    | InBody(at: nat, kind: u16, len: nat, capacity: nat, read: seq<byte>)

  datatype Popped = Popped(kind: u16, len: nat, capacity: nat, bytes: seq<byte>)

  /** The shared ring, what the two sides are at, and the history: messages
      pushed and popped, the positions the indices stand for, and how often pop
      took one of its two defensive ways out. */
  datatype State = State(
    data: seq<byte>, w: nat, r: nat, producer: Producer, consumer: Consumer,
    sent: seq<Message>, got: seq<Popped>, head: nat, tail: nat, odd: nat)

  datatype Step =
    | PushStart(kind: u16, payload: seq<byte>)
    | PushStore
    | PushCommit
    | PopStart(capacity: nat)
    | PopLoad
    | PopHead
    | PopCommit

  function Init(data: seq<byte>): State {
    State(data, 0, 0, Ready, Waiting, [], [], 0, 0, 0)
  }

  predicate Shaped(s: State) {
    && |s.data| == SIZE && s.w < SIZE && s.r < SIZE && s.w % 4 == 0
    && (s.producer.Storing? ==> forall p :: p in s.producer.pokes ==> p.at < SIZE)
    && (s.consumer.InHead? ==> s.consumer.at + 4 <= SIZE && |s.consumer.read| <= 4)
    && (s.consumer.InBody? ==>
          s.consumer.at + 4 + Min(s.consumer.len, s.consumer.capacity) <= SIZE &&
          |s.consumer.read| <= Min(s.consumer.len, s.consumer.capacity))
  }

  /** A step the side is not at changes nothing. */
  function Next(s: State, step: Step): State
    requires Shaped(s)
  {
    match step
    case PushStart(kind, payload) =>
      if !s.producer.Ready? then s
      else
        (match Push(s.w, s.r, kind, payload)
         case Accepted(plan) =>
           s.(producer := Storing(Message(kind, payload), plan.pokes, plan.index, plan.takes))
         case _ => s)
    case PushStore =>
      if !s.producer.Storing? || s.producer.pokes == [] then s
      else
        var p := s.producer.pokes[0];
        s.(data := s.data[p.at := p.value], producer := s.producer.(pokes := s.producer.pokes[1..]))
    case PushCommit =>
      if !s.producer.Storing? || s.producer.pokes != [] then s
      else
        s.(w := s.producer.index, producer := Ready,
           sent := s.sent + [s.producer.message], head := s.head + s.producer.takes)
    case PopStart(capacity) =>
      if !s.consumer.Waiting? || s.r == s.w then s
      else s.(consumer := InHead(s.head, s.w, s.r, false, capacity, []))
    case PopLoad =>
      (match s.consumer
       case InHead(upTo, w, at, wrapped, capacity, read) =>
         if |read| == 4 then s
         else s.(consumer := InHead(upTo, w, at, wrapped, capacity, read + [s.data[at + |read|]]))
       case InBody(at, kind, len, capacity, read) =>
         if |read| == Min(len, capacity) then s
         else s.(consumer := InBody(at, kind, len, capacity, read + [s.data[at + 4 + |read|]]))
       case Waiting => s)
    case PopHead =>
      (match s.consumer
       case InHead(upTo, w, at, wrapped, capacity, read) =>
         if |read| < 4 then s
         else if HeadKind(read) == WRAP then
           if wrapped then s.(consumer := Waiting, odd := s.odd + 1)
           else if w == 0 then s.(consumer := Waiting, r := 0, odd := s.odd + 1)
           else s.(consumer := InHead(upTo, w, 0, true, capacity, []))
         else s.(consumer := InBody(at, HeadKind(read), HeadLen(read), capacity, []))
       case _ => s)
    case PopCommit =>
      (match s.consumer
       case InBody(at, kind, len, capacity, read) =>
         if |read| < Min(len, capacity) then s
         else
           var next := at + Frame(len);
           s.(consumer := Waiting, r := if next == SIZE then 0 else next,
              got := s.got + [Popped(kind, len, capacity, read)],
              tail := (if at == s.r then s.tail else s.tail + (SIZE - s.r)) + Frame(len))
       case _ => s)
  }
}
