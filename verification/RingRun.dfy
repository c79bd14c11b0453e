/** The ring over whole runs, and when it takes a message
    (MacBrowser/browser_shm.c:15-110). */
module RingRun {
  import opened Bytes
  import opened RingLayout
  import opened RingMachine
  import opened RingSafety

  lemma InitInv(data: seq<byte>)
    requires |data| == SIZE
    ensures Inv(Init(data))
  {
  }

  lemma StepKeeps(s: State, step: Step)
    requires Inv(s)
    ensures Shaped(s) && Inv(Next(s, step))
  {
    hide Inv, Next;
    InvShaped(s);
    match step
    case PushStart(kind, payload) => PushStartKeeps(s, kind, payload);
    case PushStore => PushStoreKeeps(s);
    case PushCommit => PushCommitKeeps(s);
    case PopStart(capacity) => PopStartKeeps(s, capacity);
    case PopLoad => PopLoadKeeps(s);
    case PopHead => PopHeadKeeps(s);
    case PopCommit => PopCommitKeeps(s);
  }

  /** Every interleaving: any steps of either side, in any order. */
  ghost function Run(s: State, steps: seq<Step>): (r: State)
    requires Inv(s)
    ensures Inv(r)
    decreases |steps|
  {
    if steps == [] then s
    else
      StepKeeps(s, steps[0]);
      Run(Next(s, steps[0]), steps[1..])
  }

  /** Messages come out as they went in: what is popped, of any run at all, is
      the first of what was pushed, in order, each with its kind, its true
      length and its payload up to the capacity; nothing is left behind in an
      empty ring; and pop never takes a defensive way out. */
  lemma {:induction false} PoppedIsPushed(data: seq<byte>, steps: seq<Step>)
    requires |data| == SIZE
    ensures Inv(Init(data))
    ensures var s := Run(Init(data), steps);
            && |s.got| <= |s.sent|
            && (forall i :: 0 <= i < |s.got| ==> Gives(s.got[i], s.sent[i]))
            && (s.r == s.w <==> |s.got| == |s.sent|)
            && s.odd == 0
  {
    InitInv(data);
    var s := Run(Init(data), steps);
    EmptyIffAllPopped(s);
  }

  lemma EmptyIffAllPopped(s: State)
    requires Inv(s)
    ensures s.r == s.w <==> |s.got| == |s.sent|
  {
    hide Written, Consuming, Producing;
    var q := s.sent[|s.got|..];
    EndGrows(s.data, s.tail, s.head, q);
    if q != [] {
      DifferentPlaces(s.tail, s.head);
    }
  }

  /** No byte that is still to be read is ever written over, however old the
      read index the push counted with. */
  lemma NothingOverwritten(data: seq<byte>, steps: seq<Step>, k: nat)
    requires |data| == SIZE
    ensures Inv(Init(data))
    ensures var s := Run(Init(data), steps);
            s.tail <= k < s.head ==> Shaped(s) && At(Next(s, PushStore).data, k) == At(s.data, k)
  {
    InitInv(data);
    var s := Run(Init(data), steps);
    InvShaped(s);
    if s.tail <= k < s.head && s.producer.Storing? && s.producer.pokes != [] {
      assert Clear(s.producer.pokes[0].at, s.tail, s.head);
    }
  }

  // ------------------------------------------------------------ a push completes

  function Stores(steps: seq<Step>): nat {
    if steps == [] then 0 else (if steps[0].PushStore? then 1 else 0) + Stores(steps[1..])
  }

  predicate NoCommit(steps: seq<Step>) {
    forall i :: 0 <= i < |steps| ==> !steps[i].PushCommit?
  }

  lemma StoreStep(s: State, step: Step)
    requires Shaped(s) && s.producer.Storing? && !step.PushCommit?
    ensures var t := Next(s, step);
            && t.sent == s.sent && t.w == s.w && t.head == s.head
            && t.producer == if step.PushStore? && s.producer.pokes != []
                             then s.producer.(pokes := s.producer.pokes[1..]) else s.producer
  {
  }

  /** Whatever else happens, a push that has begun gets on by its own steps only,
      and no other message gets ahead of it. */
  lemma {:induction false} StoringGoesOn(s: State, steps: seq<Step>)
    requires Inv(s) && s.producer.Storing? && NoCommit(steps) && Stores(steps) <= |s.producer.pokes|
    ensures var t := Run(s, steps);
            && t.sent == s.sent && t.w == s.w && t.head == s.head
            && t.producer == s.producer.(pokes := s.producer.pokes[Stores(steps)..])
    decreases |steps|
  {
    hide Inv, Next;
    if steps != [] {
      InvShaped(s);
      StoreStep(s, steps[0]);
      StepKeeps(s, steps[0]);
      StoringGoesOn(Next(s, steps[0]), steps[1..]);
    }
  }

  /** In every interleaving a push that was accepted is completed by as many stores
      as it has bytes and its commit, and its message is the next in the ring. */
  lemma PushArrives(s: State, steps: seq<Step>)
    requires Inv(s) && s.producer.Storing? && NoCommit(steps) && Stores(steps) == |s.producer.pokes|
    ensures Shaped(Run(s, steps))
    ensures var t := Next(Run(s, steps), PushCommit);
            && t.sent == s.sent + [s.producer.message] && t.producer.Ready?
            && t.head == End(s.head, s.producer.message)
  {
    hide Run;
    StoringGoesOn(s, steps);
    InvShaped(Run(s, steps));
    assert s.producer.pokes[|s.producer.pokes|..] == [];
  }

  // --------------------------------------------------------------------- progress

  /** A push goes through exactly when what is in the ring, the tail it skips
      and the message leave 4 bytes spare. */
  lemma AcceptedIffRoom(s: State, m: Message)
    requires Indices(s) && Proper(m)
    ensures s.w % 4 == 0
    ensures Push(s.w, s.r, m.kind, m.payload).Accepted? <==> End(s.head, m) + 4 <= s.tail + SIZE
  {
    hide Pokes, Head;
    FreeIsFree(s.head, s.tail);
    if Frame(|m.payload|) <= SIZE {
      TakesIsEnd(s.head, m);
    }
  }

  /** What a push does, in numbers: a kind of 0 and over 65528 bytes are refused;
      else it takes 4 bytes and the payload's to the next 4 up, at 0 where they do
      not fit before the end, and all it takes but 4 bytes must be free. */
  lemma PushInNumbers(w: nat, r: nat, kind: u16, payload: seq<byte>)
    requires w < SIZE && r < SIZE && w % 4 == 0 && r % 4 == 0
    ensures var n := |payload|;
            var frame := 4 + (n + 3) / 4 * 4;
            var at := if w + frame > 65536 then 0 else w;
            var takes := (if w + frame > 65536 then 65536 - w else 0) + frame;
            var free := if r > w then r - w else 65536 + r - w;
            match Push(w, r, kind, payload)
            case Reserved => kind == 0
            case TooLong => kind != 0 && n > 65528
            case Full => kind != 0 && n <= 65528 && takes + 4 > free
            case Accepted(plan) =>
              && kind != 0 && n <= 65528 && takes + 4 <= free
              && plan.takes == takes && plan.index == if at + frame == 65536 then 0 else at + frame
  {
    hide Pokes, Head;
    FreeInNumbers(w, r);
  }

  lemma FreeInNumbers(w: nat, r: nat)
    requires w < SIZE && r < SIZE && w % 4 == 0 && r % 4 == 0
    ensures FreeBytes(w, r) + 4 == if r > w then r - w else 65536 + r - w
  {
    var x: int := r + 65536 - w - 4;
    if r > w {
      assert r - w >= 4;
      assert x % 65536 == r - w - 4;
    } else {
      assert 0 <= x < 65536;
    }
  }

  /** What it stores: four zeros at the end it skips, and the kind, the length,
      highest bytes first, and the payload. */
  lemma PushInBytes(w: nat, r: nat, kind: u16, payload: seq<byte>)
    requires w < SIZE && r < SIZE && w % 4 == 0 && Push(w, r, kind, payload).Accepted?
    ensures var wraps := w + 4 + (|payload| + 3) / 4 * 4 > 65536;
            var at := if wraps then 0 else w;
            Push(w, r, kind, payload).plan.pokes ==
            (if wraps then Pokes(w, [0, 0, 0, 0]) else []) +
            Pokes(at, [kind / 256, kind % 256, |payload| / 256, |payload| % 256]) + Pokes(at + 4, payload)
  {
    hide Head, FreeBytes, Takes, Pokes;
    HeadInBytes(0, 0);
    HeadInBytes(kind, |payload|);
  }

  lemma HeadInBytes(kind: u16, len: u16)
    ensures Head(kind, len) == [kind / 256, kind % 256, len / 256, len % 256]
  {
    hide Be;
    ByteOrder(kind % 256, kind / 256, 0, 0);
    ByteOrder(len % 256, len / 256, 0, 0);
  }

  /** On an empty ring it depends on where the ring stands: a message over half
      of it may fit neither before the end nor, past the skipped tail, before
      the index. */
  lemma EmptyRingTakes(w: nat, m: Message)
    requires w < SIZE && w % 4 == 0 && Proper(m)
    ensures Push(w, w, m.kind, m.payload).Accepted? <==>
            (w + Frame(|m.payload|) <= SIZE && Frame(|m.payload|) <= SIZE - 4) || Frame(|m.payload|) + 4 <= w
  {
    hide Pokes, Head, Frame;
    assert FreeBytes(w, w) == SIZE - 4;
  }

  /** So every message of half the ring is taken wherever an empty ring stands, and
      only those are. */
  lemma HalfRingIff(m: Message)
    requires Proper(m)
    ensures (forall w: nat :: w < SIZE && w % 4 == 0 ==> Push(w, w, m.kind, m.payload).Accepted?) <==>
            Frame(|m.payload|) <= 0x8000
  {
    hide Pokes, Head, Frame, Push;
    forall w: nat | w < SIZE && w % 4 == 0 && Frame(|m.payload|) <= 0x8000
      ensures Push(w, w, m.kind, m.payload).Accepted?
    {
      EmptyRingTakes(w, m);
      assert Frame(|m.payload|) % 4 == 0;
    }
    EmptyRingTakes(0x8000, m);
  }

  /** Nothing in the ring and nothing under way. */
  ghost predicate Empty(s: State) {
    Inv(s) && s.w == s.r && s.producer.Ready? && s.consumer.Waiting?
  }

  /** Nothing but M is pushed. */
  predicate Only(m: Message, steps: seq<Step>) {
    forall i :: 0 <= i < |steps| && steps[i].PushStart? ==> steps[i].kind == m.kind && steps[i].payload == m.payload
  }

  /** An empty ring takes a message at once or never: it stays as it is through all
      steps that push nothing else, exactly if it refuses that message. */
  lemma StarvesIff(m: Message, s: State)
    requires Proper(m) && Empty(s)
    ensures Shaped(s)
    ensures (forall steps :: Only(m, steps) ==> Run(s, steps) == s) <==> !Push(s.w, s.w, m.kind, m.payload).Accepted?
  {
    hide Inv, Next, Push, Run;
    InvShaped(s);
    if Push(s.w, s.w, m.kind, m.payload).Accepted? {
      var begin := PushStart(m.kind, m.payload);
      assert Only(m, [begin]);
      RunOne(s, begin);
      StartPushes(s, m);
    } else {
      forall steps | Only(m, steps)
        ensures Run(s, steps) == s
      {
        EmptyRingStarves(m, s, steps);
      }
    }
  }

  lemma {:induction false} EmptyRingStarves(m: Message, s: State, steps: seq<Step>)
    requires Proper(m) && Empty(s) && Shaped(s) && !Push(s.w, s.w, m.kind, m.payload).Accepted? && Only(m, steps)
    ensures Run(s, steps) == s
    decreases |steps|
  {
    hide Inv, Next, Push;
    if steps != [] {
      StarvingStep(m, s, steps[0]);
      EmptyRingStarves(m, s, steps[1..]);
    }
  }

  lemma StarvingStep(m: Message, s: State, step: Step)
    requires Proper(m) && Empty(s) && Shaped(s) && !Push(s.w, s.w, m.kind, m.payload).Accepted?
    requires step.PushStart? ==> step.kind == m.kind && step.payload == m.payload
    ensures Next(s, step) == s
  {
    hide Pokes, Head, Inv, Push;
  }

  // ------------------------------------------------------------ a ring that starves

  lemma {:induction false} RunSplit(s: State, a: seq<Step>, b: seq<Step>)
    requires Inv(s)
    ensures Run(s, a + b) == Run(Run(s, a), b)
    decreases |a|
  {
    hide Inv, Next;
    if a == [] {
      assert a + b == b;
    } else {
      StepKeeps(s, a[0]);
      RunSplit(Next(s, a[0]), a[1..], b);
      assert (a + b)[1..] == a[1..] + b;
    }
  }

  lemma RunOne(s: State, step: Step)
    requires Inv(s)
    ensures Shaped(s) && Run(s, [step]) == Next(s, step)
  {
    hide Inv, Next;
    StepKeeps(s, step);
    var one := [step];
    assert one[1..] == [];
    assert Run(Next(s, step), []) == Next(s, step);
  }

  function Times(step: Step, n: nat): (steps: seq<Step>)
    ensures |steps| == n && forall i :: 0 <= i < n ==> steps[i] == step
  {
    seq(n, _ => step)
  }

  lemma {:induction false} StoresOf(n: nat)
    ensures Stores(Times(PushStore, n)) == n
    decreases n
  {
    if n > 0 {
      assert Times(PushStore, n)[1..] == Times(PushStore, n - 1);
      StoresOf(n - 1);
    }
  }

  /** Stores leave the consumer where it is. */
  lemma {:induction false} StoresOnly(s: State, n: nat)
    requires Inv(s)
    ensures var t := Run(s, Times(PushStore, n)); t.consumer == s.consumer && t.got == s.got && t.tail == s.tail
    decreases n
  {
    hide Inv;
    if n > 0 {
      InvShaped(s);
      StepKeeps(s, PushStore);
      StoresOnly(Next(s, PushStore), n - 1);
      assert Times(PushStore, n)[1..] == Times(PushStore, n - 1);
    }
  }

  /** One message is all there is, and nothing under way. */
  ghost predicate OneHeld(s: State, m: Message) {
    && Inv(s) && s.producer.Ready? && s.consumer.Waiting?
    && s.sent == [m] && s.got == [] && s.tail == 0 && s.head == End(0, m)
  }

  /** A push on a new ring, with all its steps. */
  lemma PushOnNew(data: seq<byte>, m: Message) returns (steps: seq<Step>)
    requires |data| == SIZE && Proper(m) && Frame(|m.payload|) <= SIZE - 4
    ensures Inv(Init(data)) && OneHeld(Run(Init(data), steps), m)
  {
    hide Inv, Run, Next, Pokes, Head, Frame, Stores, Times;
    InitInv(data);
    var s := Init(data);
    EmptyRingTakes(0, m);
    var begin := PushStart(m.kind, m.payload);
    RunOne(s, begin);
    StartPushes(s, m);
    var t := Next(s, begin);
    var stores := Times(PushStore, |t.producer.pokes|);
    StoresOf(|t.producer.pokes|);
    PushArrives(t, stores);
    StoresOnly(t, |t.producer.pokes|);
    CommitKeepsConsumer(Run(t, stores));
    RunOne(Run(t, stores), PushCommit);
    RunSplit(t, stores, [PushCommit]);
    RunSplit(s, [begin], stores + [PushCommit]);
    steps := [begin] + (stores + [PushCommit]);
  }

  lemma StartPushes(s: State, m: Message)
    requires Shaped(s) && s.producer.Ready? && Push(s.w, s.r, m.kind, m.payload).Accepted?
    ensures var t := Next(s, PushStart(m.kind, m.payload));
            && t.producer.Storing? && t.producer.message == m && t.head == s.head && t.sent == s.sent
            && t.consumer == s.consumer && t.got == s.got && t.tail == s.tail
  {
    hide Pokes, Head, Frame;
  }

  lemma CommitKeepsConsumer(s: State)
    requires Shaped(s)
    ensures var t := Next(s, PushCommit); t.consumer == s.consumer && t.got == s.got && t.tail == s.tail
  {
  }

  const POP: seq<Step> := [PopStart(0), PopLoad, PopLoad, PopLoad, PopLoad, PopHead, PopCommit]

  /** A pop of that message empties the ring. */
  lemma PopsTheOne(s: State, m: Message)
    requires OneHeld(s, m) && Proper(m) && Frame(|m.payload|) <= SIZE - 4
    ensures var t := Run(s, POP);
            Inv(t) && t.producer.Ready? && t.consumer.Waiting? && t.w == t.r == End(0, m) % 0x1_0000
  {
    hide Inv, Run, Next, Head, Frame;
    HeldIndices(s, m);
    FourLoads(s, m);
    var loads := [PopStart(0), PopLoad, PopLoad, PopLoad, PopLoad];
    var t := Run(s, loads);
    RunSplit(s, loads, [PopHead, PopCommit]);
    assert POP == loads + [PopHead, PopCommit];
    RunSplit(t, [PopHead], [PopCommit]);
    assert [PopHead, PopCommit] == [PopHead] + [PopCommit];
    RunOne(t, PopHead);
    HeadOfOne(t, m);
    var u := Next(t, PopHead);
    RunOne(u, PopCommit);
    CommitOfOne(u, m);
    EmptyIffAllPopped(Next(u, PopCommit));
  }

  /** The head is read a byte at a time. */
  lemma FourLoads(s: State, m: Message)
    requires OneHeld(s, m) && Proper(m) && Frame(|m.payload|) <= SIZE - 4
    ensures var t := Run(s, [PopStart(0), PopLoad, PopLoad, PopLoad, PopLoad]);
            && Inv(t) && t.sent == [m] && t.got == [] && t.producer.Ready? && t.w == s.w
            && t.consumer.InHead? && |t.consumer.read| == 4 && t.consumer.capacity == 0 && !t.consumer.wrapped
            && t.head == s.head && t.tail == 0
  {
    hide Inv, Run, Next, Head, Frame;
    HeldIndices(s, m);
    RunOne(s, PopStart(0));
    StartPops(s);
    var t := Next(s, PopStart(0));
    Loads(t, 4);
    RunSplit(s, [PopStart(0)], Times(PopLoad, 4));
    assert [PopStart(0)] + Times(PopLoad, 4) == [PopStart(0), PopLoad, PopLoad, PopLoad, PopLoad];
  }

  lemma HeldIndices(s: State, m: Message)
    requires OneHeld(s, m)
    ensures s.r == 0 && s.w == End(0, m) % 0x1_0000 && (Frame(|m.payload|) <= SIZE - 4 ==> s.r != s.w)
  {
    hide Queue, Producing, Consuming;
  }

  lemma StartPops(s: State)
    requires Shaped(s) && s.consumer.Waiting? && s.r != s.w
    ensures Next(s, PopStart(0)) == s.(consumer := InHead(s.head, s.w, s.r, false, 0, []))
  {
  }

  lemma {:induction false} Loads(s: State, n: nat)
    requires Inv(s) && s.consumer.InHead? && |s.consumer.read| + n <= 4
    ensures var t := Run(s, Times(PopLoad, n));
            && t.consumer.InHead? && t == s.(consumer := t.consumer)
            && |t.consumer.read| == |s.consumer.read| + n
            && t.consumer.capacity == s.consumer.capacity && t.consumer.wrapped == s.consumer.wrapped
    decreases n
  {
    hide Inv;
    if n > 0 {
      InvShaped(s);
      StepKeeps(s, PopLoad);
      Loads(Next(s, PopLoad), n - 1);
      assert Times(PopLoad, n)[1..] == Times(PopLoad, n - 1);
    }
  }

  lemma HeadOfOne(s: State, m: Message)
    requires Inv(s) && Shaped(s) && Proper(m) && s.sent == [m] && s.got == [] && s.tail == 0
    requires s.consumer.InHead? && |s.consumer.read| == 4 && s.consumer.capacity == 0 && !s.consumer.wrapped
    requires Frame(|m.payload|) <= SIZE - 4
    ensures var t := Next(s, PopHead); t == s.(consumer := t.consumer) && t.consumer.InBody?
    ensures Next(s, PopHead).consumer.capacity == 0 && |Next(s, PopHead).consumer.read| == 0
  {
    hide Queue, Producing, Holds, Written, Head;
    HeadRoundTrip(m.kind, |m.payload|);
    assert s.consumer.read == Head(m.kind, |m.payload|)[..4] == Head(m.kind, |m.payload|);
  }

  lemma CommitOfOne(s: State, m: Message)
    requires Inv(s) && Shaped(s) && s.sent == [m] && s.got == [] && s.consumer.InBody?
    requires s.consumer.capacity == 0 && |s.consumer.read| == 0
    ensures var t := Next(s, PopCommit);
            t.consumer.Waiting? && |t.got| == 1 && t.sent == s.sent && t.producer == s.producer && t.w == s.w
  {
    hide Inv, Frame;
  }

  /** An empty ring does come to stand half way round: one message of half its size,
      pushed and popped. */
  lemma HalfWayIsReached(data: seq<byte>) returns (steps: seq<Step>)
    requires |data| == SIZE
    ensures Inv(Init(data)) && Empty(Run(Init(data), steps)) && Run(Init(data), steps).w == 0x8000
  {
    hide Inv, Run;
    var m := Message(1, Zeros(0x8000 - 4));
    assert Frame(|m.payload|) == 0x8000 && Proper(m) && End(0, m) == 0x8000;
    steps := PushOnNew(data, m);
    var s := Run(Init(data), steps);
    HeldIndices(s, m);
    PopsTheOne(s, m);
    RunSplit(Init(data), steps, POP);
    steps := steps + POP;
  }

  /** Every message of more than half the ring can come to starve: there is a run
      after which the ring is empty and never takes it, as long as nothing else
      is pushed. */
  lemma OverHalfStarves(data: seq<byte>, m: Message) returns (steps: seq<Step>)
    requires |data| == SIZE && Proper(m) && Frame(|m.payload|) > 0x8000
    ensures Inv(Init(data)) && Empty(Run(Init(data), steps))
    ensures var s := Run(Init(data), steps);
            forall more :: Only(m, more) ==> Run(s, more) == s
  {
    hide Run, Frame, Push, Inv;
    steps := HalfWayIsReached(data);
    var s := Run(Init(data), steps);
    EmptyRingTakes(s.w, m);
    StarvesIff(m, s);
  }
}
