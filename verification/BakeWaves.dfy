/** Bakes sorted into waves, none before what it needs
    (provisioning/bake.py:1070-1078), and what a base System needs, followed down
    the chain (provisioning/bake.py:1030-1047). A bake stands for its name. */
module BakeWaves {
  import opened Bytes

  type Deps = map<string, set<string>>

  function DepsOf(deps: Deps, b: string): set<string> {
    if b in deps then deps[b] else {}
  }

  function NamesOf(rest: seq<string>): set<string> {
    set b | b in rest
  }

  /** Nothing a bake is made of is still waiting. */
  predicate IsReady(b: string, waiting: set<string>, deps: Deps) {
    DepsOf(deps, b) * waiting == {}
  }

  function Ready(rest: seq<string>, waiting: set<string>, deps: Deps): (r: seq<string>)
    ensures forall b :: b in r <==> b in rest && IsReady(b, waiting, deps)
    ensures |r| <= |rest|
  {
    if rest == [] then []
    else if IsReady(rest[0], waiting, deps) then [rest[0]] + Ready(rest[1..], waiting, deps)
    else Ready(rest[1..], waiting, deps)
  }

  function Without(rest: seq<string>, wave: seq<string>): (r: seq<string>)
    ensures forall b :: b in r <==> b in rest && b !in wave
    ensures |r| <= |rest| && ((exists b :: b in rest && b in wave) ==> |r| < |rest|)
  {
    if rest == [] then []
    else if rest[0] in wave then Without(rest[1..], wave)
    else [rest[0]] + Without(rest[1..], wave)
  }

  /** The next wave: what is ready, or everything where nothing is. */
  function Wave(rest: seq<string>, deps: Deps): (wave: seq<string>)
    requires rest != []
    ensures wave != [] && forall b :: b in wave ==> b in rest
  {
    var ready := Ready(rest, NamesOf(rest), deps);
    if ready != [] then ready else rest
  }

  function Waves(rest: seq<string>, deps: Deps): seq<seq<string>>
    decreases |rest|
  {
    if rest == [] then []
    else
      var wave := Wave(rest, deps);
      assert wave[0] in rest && wave[0] in wave;
      [wave] + Waves(Without(rest, wave), deps)
  }

  /** The loop of bake_all: the waves it runs. */
  method RunWaves(bakes: seq<string>, deps: Deps) returns (waves: seq<seq<string>>)
    ensures waves == Waves(bakes, deps)
  {
    hide Without, Ready;
    waves := [];
    var rest := bakes;
    while rest != []
      invariant waves + Waves(rest, deps) == Waves(bakes, deps)
      decreases |rest|
    {
      var ready := Ready(rest, NamesOf(rest), deps);
      var wave := if ready != [] then ready else rest;
      assert wave[0] in rest && wave[0] in wave;
      assert waves + ([wave] + Waves(Without(rest, wave), deps)) == waves + [wave] + Waves(Without(rest, wave), deps);
      rest := Without(rest, wave);
      waves := waves + [wave];
    }
    assert waves + [] == waves;
  }

  // ------------------------------------------------------------------- each once

  lemma OneMore(b: string, rest: seq<string>)
    ensures multiset([b] + rest) == multiset{b} + multiset(rest)
  {
  }

  lemma AddsUp(b: string, ready: multiset<string>, later: multiset<string>)
    ensures multiset{b} + ready + later == multiset{b} + (ready + later)
    ensures ready + (multiset{b} + later) == multiset{b} + (ready + later)
  {
  }

  lemma {:induction false} ReadyAndWithout(rest: seq<string>, waiting: set<string>, deps: Deps, wave: seq<string>)
    requires forall b :: b in rest ==> (b in wave <==> IsReady(b, waiting, deps))
    ensures multiset(Ready(rest, waiting, deps)) + multiset(Without(rest, wave)) == multiset(rest)
  {
    hide IsReady;
    if rest != [] {
      var ready, later := Ready(rest[1..], waiting, deps), Without(rest[1..], wave);
      ReadyAndWithout(rest[1..], waiting, deps, wave);
      OneMore(rest[0], rest[1..]);
      AddsUp(rest[0], multiset(ready), multiset(later));
      assert rest == [rest[0]] + rest[1..];
      if rest[0] in wave {
        OneMore(rest[0], ready);
      } else {
        OneMore(rest[0], later);
      }
    }
  }

  lemma {:induction false} WithoutAll(rest: seq<string>, wave: seq<string>)
    requires forall b :: b in rest ==> b in wave
    ensures Without(rest, wave) == []
  {
    if rest != [] {
      WithoutAll(rest[1..], wave);
    }
  }

  lemma WaveAndRest(rest: seq<string>, deps: Deps)
    requires rest != []
    ensures multiset(Wave(rest, deps)) + multiset(Without(rest, Wave(rest, deps))) == multiset(rest)
  {
    hide Without, IsReady;
    var wave := Wave(rest, deps);
    if Ready(rest, NamesOf(rest), deps) != [] {
      ReadyAndWithout(rest, NamesOf(rest), deps, wave);
    } else {
      WithoutAll(rest, wave);
    }
  }

  function All(waves: seq<seq<string>>): multiset<string> {
    if waves == [] then multiset{} else multiset(waves[0]) + All(waves[1..])
  }

  /** Every bake runs once for each time it is listed, whatever depends on what. */
  lemma {:induction false} EachRunsOnce(rest: seq<string>, deps: Deps)
    ensures All(Waves(rest, deps)) == multiset(rest)
    decreases |rest|
  {
    hide Wave, Without;
    if rest != [] {
      var wave := Wave(rest, deps);
      assert wave[0] in rest && wave[0] in wave;
      EachRunsOnce(Without(rest, wave), deps);
      WaveAndRest(rest, deps);
      assert Waves(rest, deps)[1..] == Waves(Without(rest, wave), deps);
    }
  }

  // --------------------------------------------------------- what depends on what

  /** No wave is run for want of one that is ready. */
  predicate NeverStuck(rest: seq<string>, deps: Deps)
    decreases |rest|
  {
    rest == [] ||
    (&& Ready(rest, NamesOf(rest), deps) != []
     && var wave := Wave(rest, deps);
        assert wave[0] in rest && wave[0] in wave;
        NeverStuck(Without(rest, wave), deps))
  }

  lemma ReadyMeans(rest: seq<string>, deps: Deps, b: string, d: string)
    requires d in rest
    ensures b in Ready(rest, NamesOf(rest), deps) ==> d !in DepsOf(deps, b)
  {
    hide DepsOf, Ready;
    assert d in DepsOf(deps, b) ==> d in DepsOf(deps, b) * NamesOf(rest);
  }

  /** Every listed bake that a bake depends on is in an earlier wave. */
  lemma {:induction false} WavesInOrder(rest: seq<string>, deps: Deps, i: nat, b: string, d: string) returns (j: nat)
    requires NeverStuck(rest, deps) && i < |Waves(rest, deps)| && b in Waves(rest, deps)[i]
    requires d in DepsOf(deps, b) && d in rest
    ensures j < i && d in Waves(rest, deps)[j]
    decreases |rest|
  {
    hide DepsOf, Without, Ready, NamesOf, IsReady;
    var wave := Wave(rest, deps);
    var later := Without(rest, wave);
    assert wave[0] in rest && wave[0] in wave;
    ReadyMeans(rest, deps, b, d);
    if d in wave {
      j := 0;
    } else {
      var k := WavesInOrder(later, deps, i - 1, b, d);
      j := k + 1;
    }
  }

  /** A bake waits no longer than it has to: after the first wave it depends on a
      bake of the wave before its own. */
  lemma {:induction false} WaitsForOne(rest: seq<string>, deps: Deps, i: nat, b: string) returns (d: string)
    requires NeverStuck(rest, deps) && 0 < i < |Waves(rest, deps)| && b in Waves(rest, deps)[i]
    ensures d in DepsOf(deps, b) && d in Waves(rest, deps)[i - 1]
    decreases |rest|
  {
    hide DepsOf, Without, Ready, IsReady, NamesOf;
    var wave := Wave(rest, deps);
    var later := Without(rest, wave);
    assert wave[0] in rest && wave[0] in wave;
    assert Waves(rest, deps) == [wave] + Waves(later, deps);
    if i > 1 {
      d := WaitsForOne(later, deps, i - 1, b);
    } else {
      assert later != [];
      assert b in Wave(later, deps);
      d := NotYetReady(rest, deps, b);
    }
  }

  lemma NotYetReady(rest: seq<string>, deps: Deps, b: string) returns (d: string)
    requires rest != [] && Ready(rest, NamesOf(rest), deps) != []
    requires var later := Without(rest, Wave(rest, deps));
             b in later && b in Ready(later, NamesOf(later), deps)
    ensures d in DepsOf(deps, b) && d in Wave(rest, deps)
  {
    hide DepsOf, Without, Ready;
    var later := Without(rest, Wave(rest, deps));
    d :| d in DepsOf(deps, b) * NamesOf(rest);
    assert d !in Wave(rest, deps) ==> d in DepsOf(deps, b) * NamesOf(later);
  }

  /** Where each listed bake depends on one, they all run at once. */
  lemma AllAtOnce(rest: seq<string>, deps: Deps)
    requires rest != [] && forall b :: b in rest ==> exists d :: d in rest && d in DepsOf(deps, b)
    ensures Waves(rest, deps) == [rest]
  {
    hide DepsOf, Without, Ready;
    NoneReady(rest, deps);
    WithoutAll(rest, rest);
    assert Waves([], deps) == [];
  }

  lemma NoneReady(rest: seq<string>, deps: Deps)
    requires forall b :: b in rest ==> exists d :: d in rest && d in DepsOf(deps, b)
    ensures Ready(rest, NamesOf(rest), deps) == []
  {
    hide DepsOf, Ready;
    forall b | b in rest
      ensures !IsReady(b, NamesOf(rest), deps)
    {
      var d :| d in rest && d in DepsOf(deps, b);
      assert d in DepsOf(deps, b) * NamesOf(rest);
    }
    NobodyIn(Ready(rest, NamesOf(rest), deps));
  }

  lemma NobodyIn(s: seq<string>)
    ensures s != [] ==> exists b :: b in s
  {
    assert s != [] ==> s[0] in s;
  }

  /** Every bake is in a later wave than all listed bakes it depends on. */
  ghost predicate InOrder(rest: seq<string>, deps: Deps) {
    forall i: nat, b, d :: i < |Waves(rest, deps)| && b in Waves(rest, deps)[i] && d in DepsOf(deps, b) && d in rest ==>
      InEarlier(rest, deps, i, d)
  }

  ghost predicate InEarlier(rest: seq<string>, deps: Deps, i: nat, d: string)
    requires i <= |Waves(rest, deps)|
  {
    exists j: nat :: j < i && d in Waves(rest, deps)[j]
  }

  /** That is so exactly where the fallback is not used. */
  lemma {:induction false} InOrderIff(rest: seq<string>, deps: Deps)
    ensures InOrder(rest, deps) <==> NeverStuck(rest, deps)
    decreases |rest|
  {
    hide DepsOf, Without, Wave, NeverStuck, InOrder;
    if NeverStuck(rest, deps) {
      NeverStuckInOrder(rest, deps);
    } else if InOrder(rest, deps) {
      NoneIsNotStuck(deps);
      if Ready(rest, NamesOf(rest), deps) == [] {
        StuckNotInOrder(rest, deps);
      }
      var wave := Wave(rest, deps);
      assert wave[0] in rest && wave[0] in wave;
      RestInOrder(rest, deps);
      InOrderIff(Without(rest, wave), deps);
      NotStuckLater(rest, deps);
    }
  }

  lemma NoneIsNotStuck(deps: Deps)
    ensures NeverStuck([], deps)
  {
  }

  lemma NeverStuckInOrder(rest: seq<string>, deps: Deps)
    requires NeverStuck(rest, deps)
    ensures InOrder(rest, deps)
  {
    hide DepsOf, Without, Wave, NeverStuck;
    forall i: nat, b, d | i < |Waves(rest, deps)| && b in Waves(rest, deps)[i] && d in DepsOf(deps, b) && d in rest
      ensures InEarlier(rest, deps, i, d)
    {
      var j := WavesInOrder(rest, deps, i, b, d);
    }
  }

  lemma NotStuckLater(rest: seq<string>, deps: Deps)
    requires rest != [] && Ready(rest, NamesOf(rest), deps) != [] && NeverStuck(Without(rest, Wave(rest, deps)), deps)
    ensures NeverStuck(rest, deps)
  {
    hide Ready, Without, Wave;
  }

  lemma InOrderAt(rest: seq<string>, deps: Deps, i: nat, b: string, d: string)
    requires InOrder(rest, deps) && i < |Waves(rest, deps)| && b in Waves(rest, deps)[i]
    requires d in DepsOf(deps, b) && d in rest
    ensures InEarlier(rest, deps, i, d)
  {
    hide DepsOf, InEarlier;
  }

  /** A first wave of bakes that are not ready is not in order. */
  lemma StuckNotInOrder(rest: seq<string>, deps: Deps)
    requires rest != [] && Ready(rest, NamesOf(rest), deps) == []
    ensures !InOrder(rest, deps)
  {
    hide DepsOf, Without, Ready, InOrder;
    var b := rest[0];
    assert Waves(rest, deps)[0] == rest;
    assert !IsReady(b, NamesOf(rest), deps);
    var d :| d in DepsOf(deps, b) * NamesOf(rest);
    if InOrder(rest, deps) {
      InOrderAt(rest, deps, 0, b, d);
    }
  }

  lemma RestInOrder(rest: seq<string>, deps: Deps)
    requires InOrder(rest, deps) && rest != []
    ensures InOrder(Without(rest, Wave(rest, deps)), deps)
  {
    hide DepsOf, Without, Wave;
    var wave := Wave(rest, deps);
    var later := Without(rest, wave);
    assert wave[0] in rest && wave[0] in wave;
    forall i: nat, b, d | i < |Waves(later, deps)| && b in Waves(later, deps)[i] && d in DepsOf(deps, b) && d in later
      ensures InEarlier(later, deps, i, d)
    {
      assert Waves(rest, deps)[i + 1] == Waves(later, deps)[i];
      assert InEarlier(rest, deps, i + 1, d);
      var j: nat :| j < i + 1 && d in Waves(rest, deps)[j];
      assert j > 0 && Waves(rest, deps)[j] == Waves(later, deps)[j - 1];
    }
  }

  /** A rank shows that nothing listed depends on itself, however indirectly. */
  predicate Ranked(rest: seq<string>, deps: Deps, rank: map<string, nat>) {
    forall b, d :: b in rest && d in rest && d in DepsOf(deps, b) ==> b in rank && d in rank && rank[d] < rank[b]
  }

  function RankOf(rank: map<string, nat>, b: string): nat {
    if b in rank then rank[b] else 0
  }

  lemma {:induction false} LowestRank(rest: seq<string>, rank: map<string, nat>) returns (b: string)
    requires rest != []
    ensures b in rest && forall c :: c in rest ==> RankOf(rank, b) <= RankOf(rank, c)
  {
    b := rest[0];
    if |rest| > 1 {
      var c := LowestRank(rest[1..], rank);
      if RankOf(rank, c) < RankOf(rank, b) {
        b := c;
      }
    }
  }

  lemma LowestIsReady(rest: seq<string>, deps: Deps, rank: map<string, nat>)
    requires Ranked(rest, deps, rank) && rest != []
    ensures Ready(rest, NamesOf(rest), deps) != []
  {
    hide DepsOf, Ready;
    var b := LowestRank(rest, rank);
    forall d | d in DepsOf(deps, b)
      ensures d !in NamesOf(rest)
    {
      var _ := RankOf(rank, d);
    }
    assert IsReady(b, NamesOf(rest), deps);
  }

  lemma {:induction false} RankedIsNeverStuck(rest: seq<string>, deps: Deps, rank: map<string, nat>)
    requires Ranked(rest, deps, rank)
    ensures NeverStuck(rest, deps)
    decreases |rest|
  {
    hide DepsOf, Without, Wave, Ready;
    if rest != [] {
      LowestIsReady(rest, deps, rank);
      var wave := Wave(rest, deps);
      assert wave[0] in rest && wave[0] in wave;
      RankedIsNeverStuck(Without(rest, wave), deps, rank);
    }
  }

  /** The wave each bake is in. */
  function WaveNumbers(rest: seq<string>, deps: Deps, from_: nat): (rank: map<string, nat>)
    ensures forall b :: b in rest ==> b in rank && rank[b] >= from_
    decreases |rest|
  {
    if rest == [] then map[]
    else
      var wave := Wave(rest, deps);
      assert wave[0] in rest && wave[0] in wave;
      WaveNumbers(Without(rest, wave), deps, from_ + 1) + (map b | b in wave :: from_)
  }

  lemma NumberOf(rest: seq<string>, deps: Deps, from_: nat, b: string)
    requires b in rest
    ensures var wave := Wave(rest, deps);
            WaveNumbers(rest, deps, from_)[b] ==
            if b in wave then from_ else WaveNumbers(Without(rest, wave), deps, from_ + 1)[b]
  {
    hide Wave, Without;
  }

  lemma {:induction false} WaveNumbersRank(rest: seq<string>, deps: Deps, from_: nat)
    requires NeverStuck(rest, deps)
    ensures Ranked(rest, deps, WaveNumbers(rest, deps, from_))
    decreases |rest|
  {
    hide DepsOf, Without, Ready, NamesOf, IsReady, WaveNumbers;
    if rest != [] {
      var wave := Wave(rest, deps);
      assert wave[0] in rest && wave[0] in wave;
      WaveNumbersRank(Without(rest, wave), deps, from_ + 1);
      forall b, d | b in rest && d in rest && d in DepsOf(deps, b)
        ensures var rank := WaveNumbers(rest, deps, from_); b in rank && d in rank && rank[d] < rank[b]
      {
        ReadyMeans(rest, deps, b, d);
        NumberOf(rest, deps, from_, b);
        NumberOf(rest, deps, from_, d);
      }
    }
  }

  /** Listed bakes each of which depends on the next, and the last on the first. */
  predicate Circle(rest: seq<string>, deps: Deps, path: seq<string>) {
    && path != [] && (forall k :: 0 <= k < |path| ==> path[k] in rest)
    && Chained(deps, path) && path[0] in DepsOf(deps, path[|path| - 1])
  }

  predicate Chained(deps: Deps, path: seq<string>) {
    forall k :: 0 <= k < |path| - 1 ==> path[k + 1] in DepsOf(deps, path[k])
  }

  /** Along a chain the ranks fall. */
  lemma {:induction false} RanksFall(rest: seq<string>, deps: Deps, rank: map<string, nat>, path: seq<string>, k: nat)
    requires Ranked(rest, deps, rank) && Chained(deps, path) && k < |path|
    requires forall l :: 0 <= l < |path| ==> path[l] in rest
    ensures RankOf(rank, path[k]) <= RankOf(rank, path[0])
    ensures k > 0 ==> path[k] in rank && path[0] in rank && rank[path[k]] < rank[path[0]]
  {
    hide DepsOf;
    if k > 0 {
      RanksFall(rest, deps, rank, path, k - 1);
      assert path[k - 1 + 1] in DepsOf(deps, path[k - 1]);
    }
  }

  lemma RankedHasNone(rest: seq<string>, deps: Deps, rank: map<string, nat>, path: seq<string>)
    requires Ranked(rest, deps, rank)
    ensures !Circle(rest, deps, path)
  {
    hide DepsOf;
    if Circle(rest, deps, path) {
      var n := |path| - 1;
      RanksFall(rest, deps, rank, path, n);
    }
  }

  /** Where each depends on another one, following them comes back to where it was. */
  lemma {:induction false} GoesRound(rest: seq<string>, deps: Deps, path: seq<string>) returns (circle: seq<string>)
    requires Ready(rest, NamesOf(rest), deps) == [] && path != [] && Chained(deps, path)
    requires forall k :: 0 <= k < |path| ==> path[k] in rest
    ensures Circle(rest, deps, circle)
    decreases NamesOf(rest) - NamesOf(path)
  {
    hide DepsOf, Ready;
    var last := path[|path| - 1];
    assert !IsReady(last, NamesOf(rest), deps);
    var d :| d in DepsOf(deps, last) * NamesOf(rest);
    if d in path {
      var p :| 0 <= p < |path| && path[p] == d;
      circle := path[p..];
    } else {
      var more := path + [d];
      assert d in NamesOf(rest) - NamesOf(path) && d in NamesOf(more);
      circle := GoesRound(rest, deps, more);
    }
  }

  /** A wave that is run for want of a ready one has a circle in it. */
  lemma {:induction false} StuckHasCircle(rest: seq<string>, deps: Deps) returns (circle: seq<string>)
    requires !NeverStuck(rest, deps)
    ensures Circle(rest, deps, circle)
    decreases |rest|
  {
    hide DepsOf, Without, Ready;
    if Ready(rest, NamesOf(rest), deps) == [] {
      circle := GoesRound(rest, deps, [rest[0]]);
    } else {
      var wave := Wave(rest, deps);
      assert wave[0] in rest && wave[0] in wave;
      circle := StuckHasCircle(Without(rest, wave), deps);
    }
  }

  /** The fallback is never used if and only if the dependencies among the listed
      bakes go round in no circle, that is, if they can be ranked. */
  lemma NeverStuckIff(rest: seq<string>, deps: Deps)
    ensures NeverStuck(rest, deps) <==> !exists path :: Circle(rest, deps, path)
    ensures NeverStuck(rest, deps) <==> exists rank :: Ranked(rest, deps, rank)
  {
    hide NeverStuck, Ranked, WaveNumbers, Circle;
    if NeverStuck(rest, deps) {
      WaveNumbersRank(rest, deps, 0);
    } else {
      var circle := StuckHasCircle(rest, deps);
    }
    if rank :| Ranked(rest, deps, rank) {
      RankedIsNeverStuck(rest, deps, rank);
      forall path
        ensures !Circle(rest, deps, path)
      {
        RankedHasNone(rest, deps, rank, path);
      }
    }
  }

  // ------------------------------------------------------------- what a base needs

  /** What "bases" has under a System's name: an os bake's snapshot, an image that
      is built, or neither. */
  datatype Base = Snapshot(name: string) | Built(image: string) | Other

  /** An image's definition: its own snapshots, and what it is built on. */
  datatype Image = Image(deps: set<string>, base: Option<string>)

  datatype World = World(bases: map<string, Base>, images: map<string, Image>)

  function BaseOf(w: World, os: string): Base {
    if os in w.bases then w.bases[os] else Other
  }

  function Images(w: World): set<string> {
    set os | os in w.bases && w.bases[os].Built? :: w.bases[os].image
  }

  /** base_deps: SEEN cuts a circle of images short. */
  function BaseDeps(w: World, os: string, seen: set<string>): set<string>
    decreases Images(w) - seen
  {
    match BaseOf(w, os)
    case Snapshot(name) => {name}
    case Other => {}
    case Built(image) =>
      if image in seen || image !in w.images then {}
      else
        assert os in w.bases && image in Images(w) - seen;
        assert Images(w) - (seen + {image}) == (Images(w) - seen) - {image};
        var d := w.images[image];
        d.deps + (if d.base.Some? then BaseDeps(w, d.base.value, seen + {image}) else {})
  }

  /** What a System needs of itself. */
  function Direct(w: World, os: string): set<string> {
    match BaseOf(w, os)
    case Snapshot(name) => {name}
    case Other => {}
    case Built(image) => if image in w.images then w.images[image].deps else {}
  }

  /** The System its image is built on. */
  function Under(w: World, os: Option<string>): Option<string> {
    if os.None? then None
    else
      match BaseOf(w, os.value)
      case Built(image) => if image in w.images then w.images[image].base else None
      case Snapshot(_) => None
      case Other => None
  }

  /** K Systems down from OS. */
  function Down(w: World, os: Option<string>, k: nat): Option<string>
    decreases k
  {
    if k == 0 then os else Down(w, Under(w, os), k - 1)
  }

  /** The image K Systems down, if that one is built. */
  function ImageAt(w: World, os: string, k: nat): Option<string> {
    var at := Down(w, Some(os), k);
    if at.Some? && BaseOf(w, at.value).Built? then Some(BaseOf(w, at.value).image) else None
  }

  /** Down to K no image comes twice, and none is in SEEN. */
  predicate Fresh(w: World, os: string, seen: set<string>, k: nat) {
    && (forall j :: 0 <= j <= k && ImageAt(w, os, j).Some? ==> ImageAt(w, os, j).value !in seen)
    && (forall i, j :: 0 <= i < j <= k && ImageAt(w, os, i).Some? ==> ImageAt(w, os, i) != ImageAt(w, os, j))
  }

  predicate Needs(w: World, os: string, k: nat, d: string) {
    Down(w, Some(os), k).Some? && d in Direct(w, Down(w, Some(os), k).value)
  }

  lemma {:induction false} FreshIsFound(w: World, os: string, seen: set<string>, k: nat, d: string)
    requires Fresh(w, os, seen, k) && Needs(w, os, k, d)
    ensures d in BaseDeps(w, os, seen)
    decreases k
  {
    assert Down(w, Some(os), 0) == Some(os);
    assert ImageAt(w, os, 0).Some? ==> ImageAt(w, os, 0).value !in seen;
    if k > 0 {
      var under := Under(w, Some(os));
      NoneDown(w, k - 1);
      var below, more := under.value, seen + {BaseOf(w, os).image};
      forall j | 0 <= j <= k - 1
        ensures ImageAt(w, below, j) == ImageAt(w, os, j + 1)
      {
      }
      FreshIsFound(w, below, more, k - 1, d);
    }
  }

  lemma {:induction false} NoneDown(w: World, k: nat)
    ensures Down(w, None, k) == None
  {
    if k > 0 {
      NoneDown(w, k - 1);
    }
  }

  lemma {:induction false} FoundIsNeeded(w: World, os: string, seen: set<string>, d: string) returns (k: nat)
    requires d in BaseDeps(w, os, seen)
    ensures Needs(w, os, k, d)
    decreases Images(w) - seen
  {
    k := 0;
    assert Down(w, Some(os), 0) == Some(os);
    if d !in Direct(w, os) {
      var image := BaseOf(w, os).image;
      assert os in w.bases && image in Images(w) - seen;
      assert Images(w) - (seen + {image}) == (Images(w) - seen) - {image};
      k := FoundIsNeeded(w, w.images[image].base.value, seen + {image}, d);
      k := k + 1;
    }
  }

  lemma {:induction false} DownDown(w: World, os: Option<string>, a: nat, b: nat)
    ensures Down(w, Down(w, os, a), b) == Down(w, os, a + b)
    decreases a
  {
    if a > 0 {
      DownDown(w, Under(w, os), a - 1, b);
    }
  }

  /** Going round a circle of images brings nothing new. */
  lemma Shortcut(w: World, os: string, k: nat, d: string, i: nat, j: nat)
    requires Needs(w, os, k, d) && i < j <= k && ImageAt(w, os, i).Some? && ImageAt(w, os, i) == ImageAt(w, os, j)
    ensures Needs(w, os, k - (j - i), d)
  {
    var a, b := Down(w, Some(os), i), Down(w, Some(os), j);
    assert Direct(w, a.value) == Direct(w, b.value) && Under(w, a) == Under(w, b);
    if j < k {
      DownDown(w, Some(os), i, k - j);
      DownDown(w, Some(os), j, k - j);
      assert Down(w, a, k - j) == Down(w, Under(w, a), k - j - 1);
      assert Down(w, b, k - j) == Down(w, Under(w, b), k - j - 1);
    }
  }

  lemma {:induction false} NeededIsFound(w: World, os: string, k: nat, d: string)
    requires Needs(w, os, k, d)
    ensures d in BaseDeps(w, os, {})
    decreases k
  {
    if Fresh(w, os, {}, k) {
      FreshIsFound(w, os, {}, k, d);
    } else {
      var i, j :| 0 <= i < j <= k && ImageAt(w, os, i).Some? && ImageAt(w, os, i) == ImageAt(w, os, j);
      Shortcut(w, os, k, d, i, j);
      NeededIsFound(w, os, k - (j - i), d);
    }
  }

  /** base_deps ends on every set of definitions, and finds just what the System
      and those below it need, circles or not. */
  lemma BaseDepsExact(w: World, os: string, d: string)
    ensures d in BaseDeps(w, os, {}) <==> exists k: nat :: Needs(w, os, k, d)
  {
    hide BaseDeps, Needs;
    if d in BaseDeps(w, os, {}) {
      var k := FoundIsNeeded(w, os, {}, d);
    }
    if k: nat :| Needs(w, os, k, d) {
      NeededIsFound(w, os, k, d);
    }
  }
}
