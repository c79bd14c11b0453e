/** One controlling tab: the lease, taking over and the shared screen
    (executor/server/session.go:22-105). Calls are atomic: each holds the mutex
    throughout. Times are nanoseconds. */
module Tabs {
  import opened Bytes

  const LEASE: int := 10_000_000_000

  /** A tab's ID; the handler turns down an empty one. */
  type Id = s: string | s != "" witness "a"

  /** HOLDER and HANDING are "" for nobody. */
  datatype State = State(holder: string, handing: string, seen: map<string, int>, screen: Option<seq<byte>>)

  const NEW: State := State("", "", map[], None)

  datatype Call = Beat(id: Id, take: bool) | Release(id: Id) | PutScreen(id: Id, png: seq<byte>) | GetScreen
  datatype Event = Event(at: int, call: Call)

  datatype Reply =
    | Answer(control: bool, held: bool, handing: bool, viewers: nat)
    | Released
    | Put(ok: bool)
    | Screen(png: Option<seq<byte>>)

  // ----------------------------------------------------------------- what calls do

  function Live(seen: map<string, int>, now: int): map<string, int> {
    map k | k in seen && now - seen[k] < LEASE :: seen[k]
  }

  function Pruned(s: State, now: int): State {
    var live := Live(s.seen, now);
    State(if s.holder in live then s.holder else "", if s.handing in live then s.handing else "", live,
          if s.holder in live then s.screen else None)
  }

  function AnswerTo(s: State, id: Id): Reply {
    Answer(s.holder == id, s.holder != "" && s.holder != id, s.handing != "" && s.holder == id,
           Count(s.seen.Keys - {s.holder}))
  }

  function Count(tabs: set<string>): nat {
    |tabs|
  }

  lemma CountNext(tabs: set<string>, k: string)
    ensures Count({}) == 0 && (k !in tabs ==> Count(tabs + {k}) == Count(tabs) + 1)
  {
  }

  function Beaten(s: State, id: Id, take: bool, now: int): State {
    var p := Pruned(s, now);
    var seen := p.seen[id := now];
    if p.holder == "" then p.(seen := seen, holder := id)
    else if take && p.holder != id then State(id, p.holder, seen, None)
    else p.(seen := seen)
  }

  function Let(s: State, id: Id, now: int): State {
    var p := Pruned(s, now);
    State(if p.holder == id then "" else p.holder, if p.handing == id then "" else p.handing, p.seen - {id},
          if p.holder == id then None else p.screen)
  }

  function Step(s: State, e: Event): State {
    match e.call
    case Beat(id, take) => Beaten(s, id, take, e.at)
    case Release(id) => Let(s, id, e.at)
    case PutScreen(id, png) =>
      var p := Pruned(s, e.at);
      if p.holder == id then p.(screen := Some(png)) else p
    case GetScreen => Pruned(s, e.at)
  }

  function ReplyTo(s: State, e: Event): Reply {
    match e.call
    case Beat(id, take) => AnswerTo(Beaten(s, id, take, e.at), id)
    case Release(_) => Released
    case PutScreen(id, _) => Put(Pruned(s, e.at).holder == id)
    case GetScreen => Screen(if Pruned(s, e.at).holder == "" then None else Pruned(s, e.at).screen)
  }

  // -------------------------------------------------------------------- the class

  class TabSessions {
    var holder: string
    var handing: string
    var seen: map<string, int>
    var screen: Option<seq<byte>>

    function Value(): State
      reads this
    {
      State(holder, handing, seen, screen)
    }

    constructor ()
      ensures Value() == NEW
    {
      holder, handing, seen, screen := "", "", map[], None;
    }

    /** prune: who has not been heard within the lease is gone. */
    method Prune(now: int)
      modifies this
      ensures Value() == Pruned(old(Value()), now)
    {
      var keys := seen.Keys;
      ghost var was := seen;
      while keys != {}
        invariant keys <= was.Keys
        invariant seen == map k | k in was && (k in keys || now - was[k] < LEASE) :: was[k]
        invariant holder == old(holder) && handing == old(handing) && screen == old(screen)
        decreases keys
      {
        var k :| k in keys;
        if now - seen[k] >= LEASE {
          seen := seen - {k};
        }
        keys := keys - {k};
      }
      if holder !in seen {
        holder, screen := "", None;
      }
      if handing !in seen {
        handing := "";
      }
    }

    /** answer: what a tab is told. */
    method AnswerFor(id: Id) returns (r: Reply)
      ensures r == AnswerTo(Value(), id)
    {
      hide Count;
      var keys := seen.Keys;
      var n := 0;
      ghost var counted: set<string> := {};
      CountNext({}, "");
      while keys != {}
        invariant keys <= seen.Keys && counted == (seen.Keys - keys) - {holder} && n == Count(counted)
        decreases keys
      {
        var k :| k in keys;
        CountNext(counted, k);
        if k != holder {
          n, counted := n + 1, counted + {k};
        }
        keys := keys - {k};
      }
      assert counted == seen.Keys - {holder};
      r := Answer(holder == id, holder != "" && holder != id, handing != "" && holder == id, n);
    }

    method Beat(id: Id, take: bool, now: int) returns (r: Reply)
      modifies this
      ensures Value() == Step(old(Value()), Event(now, Call.Beat(id, take)))
      ensures r == ReplyTo(old(Value()), Event(now, Call.Beat(id, take)))
    {
      hide Pruned, AnswerTo;
      Prune(now);
      seen := seen[id := now];
      if holder == "" {
        holder := id;
      } else if take && holder != id {
        handing, holder, screen := holder, id, None;
      }
      r := AnswerFor(id);
    }

    method Release(id: Id, now: int)
      modifies this
      ensures Value() == Step(old(Value()), Event(now, Call.Release(id)))
    {
      Prune(now);
      seen := seen - {id};
      if holder == id {
        holder, screen := "", None;
      }
      if handing == id {
        handing := "";
      }
    }

    method PutScreen(id: Id, png: seq<byte>, now: int) returns (ok: bool)
      modifies this
      ensures Value() == Step(old(Value()), Event(now, Call.PutScreen(id, png)))
      ensures Put(ok) == ReplyTo(old(Value()), Event(now, Call.PutScreen(id, png)))
    {
      Prune(now);
      if holder != id {
        return false;
      }
      screen := Some(png);
      ok := true;
    }

    method GetScreen(now: int) returns (png: Option<seq<byte>>)
      modifies this
      ensures Value() == Step(old(Value()), Event(now, Call.GetScreen))
      ensures Screen(png) == ReplyTo(old(Value()), Event(now, Call.GetScreen))
    {
      Prune(now);
      if holder == "" {
        return None;
      }
      png := screen;
    }
  }
}
