/** What holds over every run of tab calls (executor/server/session.go:30-105). */
module TabsProof {
  import opened Bytes
  import opened Tabs

  /** The state after a run of calls. */
  function Run(s: State, events: seq<Event>): State {
    if events == [] then s else Step(Run(s, events[..|events| - 1]), events[|events| - 1])
  }

  lemma RunPrefix(s: State, events: seq<Event>, n: nat, k: nat)
    requires k <= n <= |events|
    ensures Run(s, events[..n][..k]) == Run(s, events[..k])
  {
    assert events[..n][..k] == events[..k];
  }

  // ------------------------------------------------------------------- every state

  /** After a call at NOW everyone named is live, and a screen has a holder. */
  predicate Sound(s: State, now: int) {
    && (s.holder != "" ==> s.holder in s.seen)
    && (s.handing != "" ==> s.handing in s.seen)
    && (s.screen.Some? ==> s.holder != "")
    && (forall k :: k in s.seen ==> k != "" && s.seen[k] <= now < s.seen[k] + LEASE)
  }

  /** The times of the calls never go back. */
  predicate Ordered(events: seq<Event>) {
    forall i, j :: 0 <= i <= j < |events| ==> events[i].at <= events[j].at
  }

  lemma StepSound(s: State, t: int, e: Event)
    requires t <= e.at && forall k :: k in s.seen ==> k != "" && s.seen[k] <= t
    ensures Sound(Step(s, e), e.at)
  {
  }

  /** In every run: the holder is nobody or a tab seen within the lease, and so is
      who is handing over; without a holder there is no screen. */
  lemma {:induction false} RunSound(events: seq<Event>)
    requires events != [] && Ordered(events)
    ensures Sound(Run(NEW, events), events[|events| - 1].at)
  {
    hide Step;
    var n := |events| - 1;
    if n == 0 {
      StepSound(NEW, events[n].at, events[n]);
    } else {
      RunSound(events[..n]);
      StepSound(Run(NEW, events[..n]), events[n - 1].at, events[n]);
    }
  }

  // ------------------------------------------------------------------ one controller

  /** A live holder loses control exactly when another tab takes it or it lets
      go. */
  lemma ControlLostIff(s: State, e: Event)
    requires s.holder != "" && s.holder in s.seen && e.at - s.seen[s.holder] < LEASE
    ensures Step(s, e).holder != s.holder <==>
            (e.call.Beat? && e.call.take && e.call.id != s.holder) || e.call == Release(s.holder)
  {
  }

  /** When H was last heard from: at T before the run. */
  function Heard(h: Id, t: int, events: seq<Event>): int {
    if events == [] then t
    else
      var e := events[|events| - 1];
      if e.call.Beat? && e.call.id == h then e.at else Heard(h, t, events[..|events| - 1])
  }

  /** H is heard from within the lease throughout and never lets go. */
  predicate Present(h: Id, t: int, events: seq<Event>) {
    forall k :: 0 <= k < |events| ==> events[k].at - Heard(h, t, events[..k]) < LEASE && events[k].call != Release(h)
  }

  lemma PresentPrefix(h: Id, t: int, events: seq<Event>, n: nat)
    requires n <= |events| && Present(h, t, events)
    ensures Present(h, t, events[..n])
  {
    forall k | 0 <= k < n
      ensures events[..n][k].at - Heard(h, t, events[..n][..k]) < LEASE && events[..n][k].call != Release(h)
    {
      assert events[..n][..k] == events[..k];
    }
  }

  predicate TakenByOther(h: Id, e: Event) {
    e.call.Beat? && e.call.take && e.call.id != h
  }

  lemma HeardStep(s: State, h: Id, e: Event)
    requires h in s.seen && e.at - s.seen[h] < LEASE && e.call != Release(h)
    ensures var u := Step(s, e);
            h in u.seen && u.seen[h] == if e.call.Beat? && e.call.id == h then e.at else s.seen[h]
  {
  }

  lemma {:induction false} StaysSeen(s: State, h: Id, events: seq<Event>)
    requires h in s.seen && Present(h, s.seen[h], events)
    ensures h in Run(s, events).seen && Run(s, events).seen[h] == Heard(h, s.seen[h], events)
  {
    hide Step;
    if events != [] {
      var n := |events| - 1;
      PresentPrefix(h, s.seen[h], events, n);
      StaysSeen(s, h, events[..n]);
      HeardStep(Run(s, events[..n]), h, events[n]);
    }
  }

  /** A holder heard from within the lease keeps control through any run in which
      it does not let go and nobody takes it. */
  lemma {:induction false} HolderStays(s: State, h: Id, events: seq<Event>)
    requires s.holder == h && h in s.seen && Present(h, s.seen[h], events)
    requires forall k :: 0 <= k < |events| ==> !TakenByOther(h, events[k])
    ensures Run(s, events).holder == h
  {
    hide Step, Heard;
    if events != [] {
      var n := |events| - 1;
      PresentPrefix(h, s.seen[h], events, n);
      HolderStays(s, h, events[..n]);
      StaysSeen(s, h, events[..n]);
      ControlLostIff(Run(s, events[..n]), events[n]);
    }
  }

  lemma {:induction false} RunSplit(s: State, a: seq<Event>, b: seq<Event>)
    ensures Run(s, a + b) == Run(Run(s, a), b)
  {
    hide Step;
    if b == [] {
      assert a + b == a;
    } else {
      var n := |b| - 1;
      RunSplit(s, a, b[..n]);
      assert (a + b)[..|a + b| - 1] == a + b[..n];
    }
  }

  /** Of what all tabs are told over a run at most one has control at a time: if A
      is told so at call I and B at call J, then in between A fell silent for the
      lease or let go, or another tab took control. */
  lemma OneController(events: seq<Event>, i: nat, j: nat, a: Id, b: Id)
    requires i < j < |events| && a != b
    requires events[i].call.Beat? && events[i].call.id == a && ReplyTo(Run(NEW, events[..i]), events[i]).control
    requires events[j].call.Beat? && events[j].call.id == b && ReplyTo(Run(NEW, events[..j]), events[j]).control
    ensures var between := events[i + 1..j + 1];
            || !Present(a, events[i].at, between)
            || exists k :: 0 <= k < |between| && TakenByOther(a, between[k])
  {
    hide Step, Present;
    var s, between := Run(NEW, events[..i + 1]), events[i + 1..j + 1];
    assert events[..i + 1][..i] == events[..i] && events[..j + 1][..j] == events[..j];
    AfterBeat(Run(NEW, events[..i]), events[i]);
    AfterBeat(Run(NEW, events[..j]), events[j]);
    RunSplit(NEW, events[..i + 1], between);
    assert events[..j + 1] == events[..i + 1] + between;
    if Present(a, events[i].at, between) && forall k :: 0 <= k < |between| ==> !TakenByOther(a, between[k]) {
      HolderStays(s, a, between);
    }
  }

  lemma AfterBeat(s: State, e: Event)
    requires e.call.Beat?
    ensures var u := Step(s, e);
            e.call.id in u.seen && u.seen[e.call.id] == e.at && (ReplyTo(s, e).control <==> u.holder == e.call.id)
  {
  }

  // ------------------------------------------------------------------- the screen

  lemma ScreenStep(s: State, e: Event)
    requires s.screen.Some? ==> s.holder != ""
    ensures Step(s, e).screen.Some? ==> Step(s, e).holder != ""
  {
  }

  lemma {:induction false} ScreenHeld(events: seq<Event>)
    ensures Run(NEW, events).screen.Some? ==> Run(NEW, events).holder != ""
  {
    hide Step;
    if events != [] {
      ScreenHeld(events[..|events| - 1]);
      ScreenStep(Run(NEW, events[..|events| - 1]), events[|events| - 1]);
    }
  }

  lemma ScreenFrom(s: State, e: Event)
    requires Step(s, e).screen.Some? && (s.screen.Some? ==> s.holder != "")
    ensures var u := Step(s, e);
            || (e.call.PutScreen? && e.call == PutScreen(e.call.id, u.screen.value) && e.call.id == u.holder)
            || (u.screen == s.screen && u.holder == s.holder)
  {
  }

  /** The screen of call K has been its tab's to show ever since. */
  predicate PutBy(s: State, events: seq<Event>, k: nat, h: string, png: seq<byte>) {
    && k < |events| && events[k].call.PutScreen? && events[k].call.id == h && events[k].call.png == png
    && (forall j :: k < j <= |events| ==> Run(s, events[..j]).holder == h)
  }

  /** A screen was put by the holder, and it has held control ever since. */
  lemma {:induction false} ScreenIsTheHolders(events: seq<Event>) returns (k: nat)
    requires Run(NEW, events).screen.Some?
    ensures PutBy(NEW, events, k, Run(NEW, events).holder, Run(NEW, events).screen.value)
  {
    hide Step;
    var n := |events| - 1;
    var s, u := Run(NEW, events[..n]), Run(NEW, events);
    ScreenHeld(events[..n]);
    ScreenFrom(s, events[n]);
    assert events[..|events|] == events;
    if u.screen == s.screen && u.holder == s.holder {
      k := ScreenIsTheHolders(events[..n]);
      forall j | k < j <= |events|
        ensures Run(NEW, events[..j]).holder == u.holder
      {
        if j <= n {
          RunPrefix(NEW, events, n, j);
        }
      }
    } else {
      k := n;
    }
  }

  // ----------------------------------------------------------------- handing over

  /** A take of control from a live holder. */
  predicate Takes(s: State, e: Event) {
    var p := Pruned(s, e.at);
    e.call.Beat? && e.call.take && p.holder != "" && p.holder != e.call.id
  }

  /** A hand-over from A ends exactly when A lets go, has been silent for the lease,
      or control is taken from another tab, whose hand-over replaces it. */
  lemma HandingEndsIff(s: State, a: Id, e: Event)
    requires s.handing == a && a in s.seen
    ensures Step(s, e).handing != a <==>
            || e.at - s.seen[a] >= LEASE
            || e.call == Release(a)
            || (Takes(s, e) && Pruned(s, e.at).holder != a)
  {
  }

  /** Until then whoever holds control is told to wait. */
  lemma {:induction false} HandingSeen(s: State, a: Id, events: seq<Event>, id: Id)
    requires s.handing == a && a in s.seen && Present(a, s.seen[a], events)
    requires forall k :: 0 <= k < |events| ==>
               !Takes(Run(s, events[..k]), events[k]) || Pruned(Run(s, events[..k]), events[k].at).holder == a
    ensures Run(s, events).handing == a
    ensures AnswerTo(Run(s, events), id).control ==> AnswerTo(Run(s, events), id).handing
  {
    hide Step, Takes, Pruned, Heard;
    if events != [] {
      var n := |events| - 1;
      forall k | 0 <= k < n
        ensures !Takes(Run(s, events[..n][..k]), events[..n][k]) ||
                Pruned(Run(s, events[..n][..k]), events[..n][k].at).holder == a
      {
        RunPrefix(s, events, n, k);
      }
      PresentPrefix(a, s.seen[a], events, n);
      HandingSeen(s, a, events[..n], id);
      StaysSeen(s, a, events[..n]);
      HandingEndsIff(Run(s, events[..n]), a, events[n]);
    }
  }

  lemma TakeStartsHanding(s: State, e: Event)
    requires Takes(s, e)
    ensures var u := Step(s, e);
            && u.holder == e.call.id && u.handing == s.holder && u.screen == None
            && s.holder != "" && s.holder in u.seen && s.holder in s.seen && u.seen[s.holder] == s.seen[s.holder]
            && ReplyTo(s, e).control && ReplyTo(s, e).handing
  {
  }

  /** Taking control from a live tab: the taker has it and is told to wait, the old
      screen is gone, and whoever holds control is told to wait for as long as
      the old tab is heard from, has not let go, and control is taken from no
      other. */
  lemma TakerWaits(s: State, e: Event, events: seq<Event>, id: Id)
    requires Takes(s, e) && Present(s.holder, s.seen[s.holder], events)
    requires forall k :: 0 <= k < |events| ==>
               !Takes(Run(Step(s, e), events[..k]), events[k]) ||
               Pruned(Run(Step(s, e), events[..k]), events[k].at).holder == s.holder
    ensures ReplyTo(s, e).control && ReplyTo(s, e).handing && Step(s, e).screen == None
    ensures var u := Run(Step(s, e), events);
            u.handing == s.holder && (AnswerTo(u, id).control ==> AnswerTo(u, id).handing)
  {
    hide Step, Present, Pruned;
    TakeStartsHanding(s, e);
    HandingSeen(Step(s, e), s.holder, events, id);
  }

  // -------------------------------------------------------------- waiting for itself

  predicate WaitsForItself(s: State) {
    s.holder != "" && s.holder == s.handing
  }

  /** The tab that is waited for beats while nobody holds control. */
  predicate TakesUpOwn(s: State, e: Event) {
    var p := Pruned(s, e.at);
    e.call.Beat? && p.holder == "" && p.handing == e.call.id
  }

  /** A tab comes to wait for itself exactly by beating, while it is the one waited
      for, when nobody holds control. */
  lemma WaitsForItselfIff(s: State, e: Event)
    requires !WaitsForItself(s)
    ensures WaitsForItself(Step(s, e)) <==> TakesUpOwn(s, e)
  {
  }

  lemma TakesUpOwnWaits(s: State, e: Event)
    requires TakesUpOwn(s, e)
    ensures WaitsForItself(Step(s, e))
  {
  }

  /** Over a run: it happens in some state of it if and only if some call of it is
      such a beat. */
  lemma {:induction false} RunWaitsForItselfIff(events: seq<Event>)
    ensures (exists k :: 0 <= k <= |events| && WaitsForItself(Run(NEW, events[..k]))) <==>
            (exists k :: 0 <= k < |events| && TakesUpOwn(Run(NEW, events[..k]), events[k]))
  {
    hide Step, WaitsForItself, TakesUpOwn;
    if k :| 0 <= k < |events| && TakesUpOwn(Run(NEW, events[..k]), events[k]) {
      assert events[..k + 1][..k] == events[..k];
      TakesUpOwnWaits(Run(NEW, events[..k]), events[k]);
      assert WaitsForItself(Run(NEW, events[..k + 1]));
    } else {
      forall k | 0 <= k <= |events|
        ensures !WaitsForItself(Run(NEW, events[..k]))
      {
        NotYetForItself(events, k);
      }
    }
  }

  lemma {:induction false} NotYetForItself(events: seq<Event>, k: nat)
    requires k <= |events| && forall j :: 0 <= j < |events| ==> !TakesUpOwn(Run(NEW, events[..j]), events[j])
    ensures !WaitsForItself(Run(NEW, events[..k]))
  {
    hide Step, TakesUpOwn;
    if k > 0 {
      NotYetForItself(events, k - 1);
      assert events[..k][..k - 1] == events[..k - 1];
      WaitsForItselfIff(Run(NEW, events[..k - 1]), events[k - 1]);
    }
  }

  lemma RunThree(s: State, a: Event, b: Event, c: Event)
    ensures Run(s, [a, b, c]) == Step(Step(Step(s, a), b), c)
  {
    hide Step;
    assert [a, b, c][..2] == [a, b] && [a, b][..1] == [a] && [a][..0] == [];
    assert Run(s, [a]) == Step(Run(s, []), a);
    assert Run(s, [a, b]) == Step(Run(s, [a]), b);
  }

  /** A second take forgets the first hand-over, though its tab has not let go:
      the last tab waits for the second only. */
  lemma SecondTakeForgets(a: Id, b: Id, c: Id)
    requires a != b && b != c && a != c
    ensures var s := Run(NEW, [Event(0, Beat(a, false)), Event(1, Beat(b, true)), Event(2, Beat(c, true))]);
            s.holder == c && s.handing == b && a in s.seen
  {
    RunThree(NEW, Event(0, Beat(a, false)), Event(1, Beat(b, true)), Event(2, Beat(c, true)));
  }

  /** There is such a run: B takes from A and lets go, A beats. */
  lemma HandingToItself(a: Id, b: Id)
    requires a != b
    ensures var s := Step(Run(NEW, [Event(0, Beat(a, false)), Event(1, Beat(b, true)), Event(2, Release(b))]),
                          Event(3, Beat(a, false)));
            s.holder == s.handing == a
  {
    RunThree(NEW, Event(0, Beat(a, false)), Event(1, Beat(b, true)), Event(2, Release(b)));
  }
}
