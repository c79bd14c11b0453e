/** What tabs are answered, told from the calls and the answers before alone
    (executor/server/session.go:30-105). A tab is gone when it has not been heard
    from for ten seconds. */
module TabReplies {
  import opened Bytes
  import opened Tabs
  import opened TabsProof

  // ------------------------------------------------------------------ told of a run

  /** The answer to call N of a run from the start. */
  function Says(events: seq<Event>, n: nat): Reply
    requires n < |events|
  {
    ReplyTo(Run(NEW, events[..n]), events[n])
  }

  predicate BeatOf(e: Event, h: string) {
    e.call.Beat? && e.call.id == h
  }

  predicate LetsGo(e: Event, h: string) {
    e.call.Release? && e.call.id == h
  }

  predicate TakenFrom(e: Event, h: string) {
    e.call.Beat? && e.call.take && e.call.id != h
  }

  /** When H was last heard from before call N. */
  function LastHeard(events: seq<Event>, h: string, n: nat): int
    requires n <= |events|
  {
    if n == 0 then 0
    else if BeatOf(events[n - 1], h) then events[n - 1].at
    else LastHeard(events, h, n - 1)
  }

  /** At call N it is under ten seconds since H was heard from. */
  predicate InTouch(events: seq<Event>, h: string, n: nat)
    requires n < |events|
  {
    events[n].at - LastHeard(events, h, n) < 10_000_000_000
  }

  /** Before call N: H has beaten, and been in touch and not let go since. */
  predicate There(events: seq<Event>, n: nat, h: string)
    requires n <= |events|
  {
    exists i :: 0 <= i < n && BeatOf(events[i], h) && StaysFrom(events, i, n, h)
  }

  predicate StaysFrom(events: seq<Event>, i: int, n: nat, h: string)
    requires -1 <= i && n <= |events|
  {
    forall j :: i < j < n ==> InTouch(events, h, j) && !LetsGo(events[j], h)
  }

  /** At call I H was told that it has control. */
  predicate Given(events: seq<Event>, i: nat, h: string)
    requires i < |events|
  {
    BeatOf(events[i], h) && Says(events, i).control
  }

  /** Before call N: H was told that it has control, and has been in touch since,
      not let go and not had it taken. */
  predicate HasControl(events: seq<Event>, n: nat, h: string)
    requires n <= |events|
  {
    exists i ::
      && 0 <= i < n && Given(events, i, h)
      && StaysFrom(events, i, n, h) && forall j :: i < j < n ==> !TakenFrom(events[j], h)
  }

  /** Call K put PNG for H and was answered true. */
  predicate Accepted(events: seq<Event>, k: nat, h: string)
    requires k < |events|
  {
    events[k].call.PutScreen? && events[k].call.id == h && Says(events, k) == Put(true)
  }

  /** Before call N: PNG is what H put last, and H has been in touch since, not let
      go and not had control taken. */
  predicate Shows(events: seq<Event>, n: nat, h: string, png: seq<byte>)
    requires n <= |events|
  {
    exists k ::
      && 0 <= k < n && Accepted(events, k, h) && events[k].call.png == png && StaysFrom(events, k, n, h)
      && forall j :: k < j < n ==> !TakenFrom(events[j], h) && !Accepted(events, j, h)
  }

  /** Call I takes control from A. */
  predicate TakesFrom(events: seq<Event>, i: nat, a: string)
    requires i < |events|
  {
    TakenFrom(events[i], a) && HasControl(events, i, a) && InTouch(events, a, i)
  }

  /** Before call N: control was taken from A, which has been in touch since and not
      let go, and has been taken from no other. */
  ghost predicate Waited(events: seq<Event>, n: nat, a: string)
    requires n <= |events|
  {
    exists i ::
      && 0 <= i < n && TakesFrom(events, i, a) && StaysFrom(events, i, n, a)
      && forall j, c :: i < j < n && c != a ==> !TakesFrom(events, j, c)
  }

  // ---------------------------------------------------------------- a call more

  lemma RunNext(events: seq<Event>, n: nat)
    requires n < |events|
    ensures Run(NEW, events[..n + 1]) == Step(Run(NEW, events[..n]), events[n])
  {
    hide Step;
    assert events[..n + 1][..n] == events[..n];
  }

  lemma ThereNext(events: seq<Event>, n: nat, h: string)
    requires n < |events|
    ensures There(events, n + 1, h) <==>
            BeatOf(events[n], h) || (There(events, n, h) && InTouch(events, h, n) && !LetsGo(events[n], h))
  {
    hide LastHeard, InTouch;
    if There(events, n, h) && InTouch(events, h, n) && !LetsGo(events[n], h) {
      var i :| 0 <= i < n && BeatOf(events[i], h) && StaysFrom(events, i, n, h);
      assert StaysFrom(events, i, n + 1, h);
    }
    if BeatOf(events[n], h) {
      assert StaysFrom(events, n, n + 1, h);
    }
    if There(events, n + 1, h) && !BeatOf(events[n], h) {
      var i :| 0 <= i < n + 1 && BeatOf(events[i], h) && StaysFrom(events, i, n + 1, h);
      assert StaysFrom(events, i, n, h);
    }
  }

  lemma ControlNext(events: seq<Event>, n: nat, h: string)
    requires n < |events|
    ensures HasControl(events, n + 1, h) <==>
            || Given(events, n, h)
            || (HasControl(events, n, h) && InTouch(events, h, n)
                && !LetsGo(events[n], h) && !TakenFrom(events[n], h))
  {
    hide LastHeard, InTouch, Says;
    if HasControl(events, n, h) && InTouch(events, h, n) && !LetsGo(events[n], h) && !TakenFrom(events[n], h) {
      var i :| 0 <= i < n && Given(events, i, h) && StaysFrom(events, i, n, h)
               && forall j :: i < j < n ==> !TakenFrom(events[j], h);
      assert StaysFrom(events, i, n + 1, h);
    }
    if Given(events, n, h) {
      assert StaysFrom(events, n, n + 1, h);
    }
    if HasControl(events, n + 1, h) {
      var i :| 0 <= i < n + 1 && Given(events, i, h) && StaysFrom(events, i, n + 1, h)
               && forall j :: i < j < n + 1 ==> !TakenFrom(events[j], h);
      assert StaysFrom(events, i, n, h);
    }
  }

  lemma ShowsNext(events: seq<Event>, n: nat, h: string, png: seq<byte>)
    requires n < |events|
    ensures Shows(events, n + 1, h, png) <==>
            || (Accepted(events, n, h) && events[n].call.png == png)
            || (Shows(events, n, h, png) && InTouch(events, h, n)
                && !LetsGo(events[n], h) && !TakenFrom(events[n], h) && !Accepted(events, n, h))
  {
    hide LastHeard, InTouch, Says, TakenFrom, LetsGo;
    if Shows(events, n, h, png) && InTouch(events, h, n)
       && !LetsGo(events[n], h) && !TakenFrom(events[n], h) && !Accepted(events, n, h) {
      var k :| 0 <= k < n && Accepted(events, k, h) && events[k].call.png == png && StaysFrom(events, k, n, h)
               && forall j :: k < j < n ==> !TakenFrom(events[j], h) && !Accepted(events, j, h);
      assert StaysFrom(events, k, n + 1, h);
    }
    if Accepted(events, n, h) {
      assert StaysFrom(events, n, n + 1, h);
    }
    if Shows(events, n + 1, h, png) {
      var k :| 0 <= k < n + 1 && Accepted(events, k, h) && events[k].call.png == png && StaysFrom(events, k, n + 1, h)
               && forall j :: k < j < n + 1 ==> !TakenFrom(events[j], h) && !Accepted(events, j, h);
      assert StaysFrom(events, k, n, h);
    }
  }

  lemma WaitedNext(events: seq<Event>, n: nat, a: string)
    requires n < |events|
    ensures Waited(events, n + 1, a) <==>
            || TakesFrom(events, n, a)
            || (Waited(events, n, a) && InTouch(events, a, n) && !LetsGo(events[n], a)
                && forall c :: c != a ==> !TakesFrom(events, n, c))
  {
    hide LastHeard, InTouch, TakesFrom;
    if Waited(events, n, a) && InTouch(events, a, n) && !LetsGo(events[n], a)
       && forall c :: c != a ==> !TakesFrom(events, n, c) {
      var i :| 0 <= i < n && TakesFrom(events, i, a) && StaysFrom(events, i, n, a)
               && forall j, c :: i < j < n && c != a ==> !TakesFrom(events, j, c);
      assert StaysFrom(events, i, n + 1, a);
    }
    if TakesFrom(events, n, a) {
      assert StaysFrom(events, n, n + 1, a);
    }
    if Waited(events, n + 1, a) {
      var i :| 0 <= i < n + 1 && TakesFrom(events, i, a) && StaysFrom(events, i, n + 1, a)
               && forall j, c :: i < j < n + 1 && c != a ==> !TakesFrom(events, j, c);
      assert StaysFrom(events, i, n, a);
    }
  }

  // --------------------------------------------------- the state, told of the run

  /** The tabs listed are the present ones, each with when it was last heard. */
  lemma {:induction false} SeenIs(events: seq<Event>, n: nat, h: string)
    requires n <= |events|
    ensures var seen := Run(NEW, events[..n]).seen;
            && (h in seen <==> There(events, n, h))
            && (h in seen ==> h != "" && seen[h] == LastHeard(events, h, n))
  {
    hide There, Run;
    if n == 0 {
      NothingYet(events, h, []);
    } else {
      SeenIs(events, n - 1, h);
      RunNext(events, n - 1);
      ThereNext(events, n - 1, h);
      StepSeen(Run(NEW, events[..n - 1]), events[n - 1], h);
    }
  }

  lemma NothingYet(events: seq<Event>, h: string, png: seq<byte>)
    ensures Run(NEW, events[..0]) == NEW
    ensures !There(events, 0, h) && !HasControl(events, 0, h) && !Shows(events, 0, h, png) && !Waited(events, 0, h)
  {
  }

  lemma StepSeen(s: State, e: Event, h: string)
    ensures var u := Step(s, e).seen;
            && (h in u <==> BeatOf(e, h) || (h in s.seen && e.at - s.seen[h] < 10_000_000_000 && !LetsGo(e, h)))
            && (h in u ==> u[h] == if BeatOf(e, h) then e.at else s.seen[h])
  {
  }

  /** Who the sound state names is listed. */
  predicate Named(s: State) {
    && "" !in s.seen
    && (s.holder != "" ==> s.holder in s.seen) && (s.handing != "" ==> s.handing in s.seen)
    && (s.screen.Some? ==> s.holder != "")
  }

  lemma {:induction false} RunNamed(events: seq<Event>)
    ensures Named(Run(NEW, events))
  {
    hide Step;
    if events != [] {
      RunNamed(events[..|events| - 1]);
      StepNamed(Run(NEW, events[..|events| - 1]), events[|events| - 1]);
    }
  }

  lemma StepNamed(s: State, e: Event)
    requires Named(s)
    ensures Named(Step(s, e))
  {
  }

  /** H is in the list, and still is at NOW. */
  predicate Lasts(s: State, h: string, now: int) {
    h in s.seen && now - s.seen[h] < 10_000_000_000
  }

  lemma StepHolder(s: State, e: Event, h: string)
    requires Named(s) && h != ""
    ensures Step(s, e).holder == h <==>
            || (BeatOf(e, h) && ReplyTo(s, e).control)
            || (s.holder == h && Lasts(s, h, e.at) && !LetsGo(e, h) && !TakenFrom(e, h))
  {
    hide Count;
  }

  /** The holder is the tab that has control. */
  lemma {:induction false} HolderIs(events: seq<Event>, n: nat, h: string)
    requires n <= |events| && h != ""
    ensures Run(NEW, events[..n]).holder == h <==> HasControl(events, n, h)
  {
    hide HasControl, Run, There, LastHeard, Step, ReplyTo, Named;
    if n == 0 {
      NothingYet(events, h, []);
    } else {
      var s := Run(NEW, events[..n - 1]);
      HolderIs(events, n - 1, h);
      SeenIs(events, n - 1, h);
      HolderListed(events[..n - 1]);
      RunNext(events, n - 1);
      ControlNext(events, n - 1, h);
      StepHolder(s, events[n - 1], h);
    }
  }

  lemma HolderListed(events: seq<Event>)
    ensures var s := Run(NEW, events);
            Named(s) && (s.holder != "" ==> s.holder in s.seen) && (s.handing != "" ==> s.handing in s.seen)
  {
    hide Run;
    RunNamed(events);
  }

  lemma PutReply(s: State, e: Event)
    requires Named(s) && e.call.PutScreen?
    ensures ReplyTo(s, e) == Put(s.holder == e.call.id && Lasts(s, e.call.id, e.at))
  {
  }

  lemma PrunedScreen(s: State, now: int, h: string)
    requires Named(s) && h != ""
    ensures var p := Pruned(s, now);
            && (p.holder == h <==> s.holder == h && Lasts(s, h, now))
            && (p.holder == h ==> p.screen == s.screen) && (p.holder == "" ==> p.screen == None)
  {
  }

  lemma StepScreen(s: State, e: Event, h: string, png: seq<byte>)
    requires Named(s) && h != ""
    ensures Step(s, e).holder == h && Step(s, e).screen == Some(png) <==>
            || (e.call.PutScreen? && e.call.id == h && ReplyTo(s, e) == Put(true) && e.call.png == png)
            || (s.holder == h && s.screen == Some(png) && Lasts(s, h, e.at) && !LetsGo(e, h) && !TakenFrom(e, h)
                && !(e.call.PutScreen? && e.call.id == h && ReplyTo(s, e) == Put(true)))
  {
    hide Pruned, Named, Lasts, AnswerTo;
    PrunedScreen(s, e.at, h);
  }

  /** The screen is what its holder put last. */
  lemma {:induction false} ScreenIs(events: seq<Event>, n: nat, h: string, png: seq<byte>)
    requires n <= |events| && h != ""
    ensures var s := Run(NEW, events[..n]);
            s.holder == h && s.screen == Some(png) <==> Shows(events, n, h, png)
  {
    hide Shows, Run, There, LastHeard, Step, ReplyTo, Named;
    if n == 0 {
      NothingYet(events, h, png);
    } else {
      var s := Run(NEW, events[..n - 1]);
      ScreenIs(events, n - 1, h, png);
      SeenIs(events, n - 1, h);
      HolderListed(events[..n - 1]);
      RunNext(events, n - 1);
      ShowsNext(events, n - 1, h, png);
      StepScreen(s, events[n - 1], h, png);
    }
  }

  lemma StepHanding(s: State, e: Event, a: string)
    requires Named(s) && a != ""
    ensures Step(s, e).handing == a <==>
            || (s.holder == a && Lasts(s, a, e.at) && TakenFrom(e, a))
            || (s.handing == a && Lasts(s, a, e.at) && !LetsGo(e, a)
                && !(s.holder != "" && s.holder != a && Lasts(s, s.holder, e.at) && TakenFrom(e, s.holder)))
  {
  }

  /** Who takes from whom, told of the state. */
  lemma TakesIs(events: seq<Event>, n: nat, a: string)
    requires n < |events|
    ensures var s := Run(NEW, events[..n]);
            TakesFrom(events, n, a) <==>
            a != "" && s.holder == a && Lasts(s, a, events[n].at) && TakenFrom(events[n], a)
  {
    hide HasControl, Run, There, LastHeard, Named;
    if a == "" {
      NobodyControls(events, n);
    } else {
      HolderIs(events, n, a);
      SeenIs(events, n, a);
      HolderListed(events[..n]);
    }
  }

  lemma NobodyControls(events: seq<Event>, n: nat)
    requires n <= |events|
    ensures !HasControl(events, n, "")
  {
  }

  /** Who is handing over is the tab waited for. */
  lemma {:induction false} HandingIs(events: seq<Event>, n: nat, a: string)
    requires n <= |events| && a != ""
    ensures Run(NEW, events[..n]).handing == a <==> Waited(events, n, a)
  {
    hide Waited, Run, There, LastHeard, Step, Named, TakesFrom;
    if n == 0 {
      NothingYet(events, a, []);
    } else {
      var m: nat := n - 1;
      var s := Run(NEW, events[..m]);
      HandingIs(events, m, a);
      SeenIs(events, m, a);
      HolderListed(events[..m]);
      RunNext(events, m);
      WaitedNext(events, m, a);
      StepHanding(s, events[m], a);
      forall c
        ensures TakesFrom(events, m, c) <==>
                c != "" && s.holder == c && Lasts(s, c, events[m].at) && TakenFrom(events[m], c)
      {
        TakesIs(events, m, c);
      }
    }
  }

  // ---------------------------------------------------------------------- the answers

  /** H has control up to and including call N. */
  predicate Controls(events: seq<Event>, n: nat, h: string)
    requires n < |events|
  {
    HasControl(events, n, h) && InTouch(events, h, n)
  }

  lemma ControlsIs(events: seq<Event>, n: nat, h: string)
    requires n < |events| && h != ""
    ensures var s := Run(NEW, events[..n]);
            Controls(events, n, h) <==> s.holder == h && Lasts(s, h, events[n].at)
  {
    hide HasControl, Run, There, LastHeard, Named;
    HolderIs(events, n, h);
    SeenIs(events, n, h);
    HolderListed(events[..n]);
  }

  /** A picture is taken from the tab that has control and from no other. */
  lemma PutAnswer(events: seq<Event>, n: nat)
    requires n < |events| && events[n].call.PutScreen?
    ensures Says(events, n) == Put(Controls(events, n, events[n].call.id))
  {
    hide Controls, Run, ReplyTo, Named;
    HolderListed(events[..n]);
    ControlsIs(events, n, events[n].call.id);
    PutReply(Run(NEW, events[..n]), events[n]);
  }

  /** A picture is served exactly if some tab put it and was answered true, has had
      control and been heard from within ten seconds ever since, this call
      included, and has put no other since that was answered true. */
  lemma ScreenAnswer(events: seq<Event>, n: nat)
    requires n < |events| && events[n].call.GetScreen?
    ensures Says(events, n).Screen?
    ensures forall png :: Says(events, n) == Screen(Some(png)) <==>
                          exists h: string :: Shows(events, n, h, png) && InTouch(events, h, n)
  {
    hide Shows, Run, There, LastHeard, Named;
    var s := Run(NEW, events[..n]);
    HolderListed(events[..n]);
    ScreenNamed(events[..n]);
    ScreenReply(s, events[n]);
    forall png
      ensures Says(events, n) == Screen(Some(png)) <==>
              exists h: string :: Shows(events, n, h, png) && InTouch(events, h, n)
    {
      if h: string :| Shows(events, n, h, png) && InTouch(events, h, n) {
        if h == "" {
          NobodyShows(events, n, png);
        } else {
          ScreenIs(events, n, h, png);
          SeenIs(events, n, h);
        }
      }
      if Says(events, n) == Screen(Some(png)) {
        ScreenIs(events, n, s.holder, png);
        SeenIs(events, n, s.holder);
      }
    }
  }

  lemma ScreenNamed(events: seq<Event>)
    ensures var s := Run(NEW, events); s.screen.Some? ==> s.holder != ""
  {
    hide Run;
    RunNamed(events);
  }

  lemma ScreenReply(s: State, e: Event)
    requires Named(s) && e.call.GetScreen?
    ensures ReplyTo(s, e) == Screen(if s.holder != "" && Lasts(s, s.holder, e.at) then s.screen else None)
  {
  }

  lemma NobodyShows(events: seq<Event>, n: nat, png: seq<byte>)
    requires n <= |events|
    ensures !Shows(events, n, "", png)
  {
  }

  /** The tabs other than ID that are there at call N. */
  ghost predicate Others(events: seq<Event>, n: nat, id: string, others: set<string>)
    requires n < |events|
  {
    forall h: string :: h in others <==> h != id && There(events, n, h) && InTouch(events, h, n)
  }

  lemma BeatReply(s: State, e: Event, others: set<string>)
    requires Named(s) && e.call.Beat?
    requires forall h: string :: h in others <==> h != e.call.id && Lasts(s, h, e.at)
    ensures var r := ReplyTo(s, e);
            && (r.control <==> e.call.take || s.holder == "" || s.holder == e.call.id || !Lasts(s, s.holder, e.at))
            && r.held == !r.control && r.viewers == |others|
  {
    var id, u := e.call.id, Step(s, e);
    assert u.seen.Keys == others + {id};
    if u.holder == id {
      assert u.seen.Keys - {u.holder} == others;
    } else {
      assert u.holder in others && u.seen.Keys - {u.holder} == others - {u.holder} + {id};
    }
  }

  /** A tab that beats is told it has control exactly if it takes it or no other tab
      has it, that another holds it if not, how many other tabs are there, and to
      wait exactly if it has control and a tab is waited for. */
  lemma BeatAnswer(events: seq<Event>, n: nat) returns (others: set<string>)
    requires n < |events| && events[n].call.Beat?
    ensures Others(events, n, events[n].call.id, others)
    ensures var e, r, after := events[n], Says(events, n), n + 1;
            && r.Answer?
            && (r.control <==> e.call.take || forall h :: h != e.call.id ==> !Controls(events, n, h))
            && r.held == !r.control
            && r.viewers == |others|
            && (r.handing <==> r.control && exists a :: Waited(events, after, a))
  {
    hide Run, HasControl, There, LastHeard, Waited, Named, Count;
    var s, e := Run(NEW, events[..n]), events[n];
    HolderListed(events[..n]);
    forall h: string
      ensures There(events, n, h) && InTouch(events, h, n) <==> Lasts(s, h, e.at)
    {
      SeenIs(events, n, h);
    }
    others := set h | h in s.seen && h != e.call.id && Lasts(s, h, e.at);
    BeatReply(s, e, others);
    ControlAnswer(events, n);
    HandingAnswer(events, n);
  }

  lemma ControlAnswer(events: seq<Event>, n: nat)
    requires n < |events|
    ensures var s, e := Run(NEW, events[..n]), events[n];
            forall h :: Controls(events, n, h) <==> h != "" && s.holder == h && Lasts(s, h, e.at)
  {
    hide Run, Controls, Lasts;
    forall h
      ensures var s, e := Run(NEW, events[..n]), events[n];
              Controls(events, n, h) <==> h != "" && s.holder == h && Lasts(s, h, e.at)
    {
      if h == "" {
        NobodyControlsAt(events, n);
      } else {
        ControlsIs(events, n, h);
      }
    }
  }

  lemma NobodyControlsAt(events: seq<Event>, n: nat)
    requires n < |events|
    ensures !Controls(events, n, "")
  {
    NobodyControls(events, n);
  }

  lemma HandingAnswer(events: seq<Event>, n: nat)
    requires n < |events| && events[n].call.Beat?
    ensures var r, after := Says(events, n), n + 1;
            r.handing <==> r.control && exists a :: Waited(events, after, a)
  {
    hide Run, Waited, Step, Named, Count;
    var s, e := Run(NEW, events[..n]), events[n];
    RunNext(events, n);
    var u := Run(NEW, events[..n + 1]);
    HandingReply(s, e);
    var after := n + 1;
    if u.handing != "" {
      HandingIs(events, after, u.handing);
    }
    if a :| Waited(events, after, a) {
      if a == "" {
        NobodyWaited(events, after);
      } else {
        HandingIs(events, after, a);
      }
    }
  }

  lemma HandingReply(s: State, e: Event)
    requires e.call.Beat?
    ensures var r := ReplyTo(s, e); r.handing <==> r.control && Step(s, e).handing != ""
  {
    hide Count, Pruned;
  }

  lemma NobodyWaited(events: seq<Event>, n: nat)
    requires n <= |events|
    ensures !Waited(events, n, "")
  {
    hide InTouch, LastHeard, StaysFrom;
    forall i: nat | i < n
      ensures !TakesFrom(events, i, "")
    {
      NobodyControls(events, i);
    }
  }
}
