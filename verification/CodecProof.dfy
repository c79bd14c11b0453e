/** What codec fallback does over every run of events
    (client/codec-fallback.js:47-290). */
module CodecProof {
  import opened Bytes
  import opened Codec

  // ------------------------------------------------------------------- the chain

  /** Strictly later tiers. */
  predicate Rising(chain: seq<string>) {
    forall i, j :: 0 <= i < j < |chain| ==> Rank(chain[i]) < Rank(chain[j])
  }

  lemma TierExact(codec: string, k: nat)
    requires k < 3
    ensures codec in Tier(k) <==> TierOf(codec) == Some(k)
  {
  }

  /** The first usable codec of a tier, and no other. */
  lemma {:induction false} BestOfMeans(tier: seq<string>, codecs: Codecs, res: Option<Size>, i: nat)
    requires i < |tier|
    ensures Usable(tier[i], codecs, res) && (forall j :: 0 <= j < i ==> !Usable(tier[j], codecs, res)) ==>
              BestOf(tier, codecs, res) == [tier[i]]
    ensures BestOf(tier, codecs, res) == [] ==> !Usable(tier[i], codecs, res)
    ensures |BestOf(tier, codecs, res)| <= 1
    ensures forall c :: c in BestOf(tier, codecs, res) ==> c in tier && Usable(c, codecs, res)
  {
    hide Usable;
    if !Usable(tier[0], codecs, res) && |tier| > 1 {
      BestOfMeans(tier[1..], codecs, res, if i == 0 then 0 else i - 1);
      assert forall j :: 0 <= j < |tier| - 1 ==> tier[1..][j] == tier[j + 1];
    }
  }

  /** Codecs of the chain from tier K on are of those tiers, one of each at most,
      in order. */
  lemma {:induction false} BestFromRises(k: nat, codecs: Codecs, res: Option<Size>)
    requires k <= 3
    ensures var chain := BestFrom(k, codecs, res);
            && Rising(chain)
            && (forall c :: c in chain ==> TierOf(c).Some? && TierOf(c).value >= k && Usable(c, codecs, res))
    decreases 3 - k
  {
    hide Usable, TierOf, Tier, BestOf;
    if k < 3 {
      var tier := Tier(k);
      TierNonEmpty(k);
      BestOfMeans(tier, codecs, res, 0);
      BestFromRises(k + 1, codecs, res);
      var best, rest := BestOf(tier, codecs, res), BestFrom(k + 1, codecs, res);
      forall c | c in best
        ensures TierOf(c) == Some(k) && Usable(c, codecs, res)
      {
        TierExact(c, k);
      }
      RisingJoin(best, rest, k);
    }
  }

  lemma TierNonEmpty(k: nat)
    requires k < 3
    ensures |Tier(k)| > 0
  {
  }

  lemma RisingJoin(a: seq<string>, b: seq<string>, k: nat)
    requires |a| <= 1 && Rising(b) && forall c :: c in a ==> Rank(c) == k
    requires forall c :: c in b ==> Rank(c) > k
    ensures Rising(a + b)
  {
    hide Rank;
    forall i, j | 0 <= i < j < |a + b|
      ensures Rank((a + b)[i]) < Rank((a + b)[j])
    {
      assert (a + b)[j] == b[j - |a|] && b[j - |a|] in b;
      if i < |a| {
        assert (a + b)[i] in a;
      } else {
        assert (a + b)[i] == b[i - |a|];
      }
    }
  }

  lemma BuildChainRises(codecs: Codecs, res: Option<Size>)
    ensures Rising(BuildChain(codecs, res))
  {
    BestFromRises(0, codecs, res);
  }

  /** The chain holds just the codecs that are usable while no better one of their
      tier is. */
  lemma BuildChainExact(codecs: Codecs, res: Option<Size>, k: nat, i: nat)
    requires k < 3 && i < |Tier(k)|
    ensures Tier(k)[i] in BuildChain(codecs, res) <==>
            Usable(Tier(k)[i], codecs, res) && forall j :: 0 <= j < i ==> !Usable(Tier(k)[j], codecs, res)
  {
    hide Usable, Rank, TierOf;
    var c, chain := Tier(k)[i], BuildChain(codecs, res);
    TierPart(codecs, res, k, c);
    BestOfMeans(Tier(k), codecs, res, i);
    if i == 1 {
      BestOfMeans(Tier(k), codecs, res, 0);
    }
  }

  /** A codec of tier K is in the chain if it is the tier's choice. */
  lemma TierPart(codecs: Codecs, res: Option<Size>, k: nat, c: string)
    requires k < 3 && c in Tier(k)
    ensures c in BuildChain(codecs, res) <==> c in BestOf(Tier(k), codecs, res)
  {
    hide Usable, BestOf;
    forall l: nat | l < 3 && l != k
      ensures c !in BestOf(Tier(l), codecs, res)
    {
      TierNonEmpty(l);
      BestOfMeans(Tier(l), codecs, res, 0);
      TierExact(c, l);
      TierExact(c, k);
    }
    assert BestFrom(2, codecs, res) == BestOf(Tier(2), codecs, res) + BestFrom(3, codecs, res);
    assert BestFrom(1, codecs, res) == BestOf(Tier(1), codecs, res) + BestFrom(2, codecs, res);
    assert BestFrom(0, codecs, res) == BestOf(Tier(0), codecs, res) + BestFrom(1, codecs, res);
  }

  /** A codec the server has, for any size or for this one. */
  predicate Can(codecs: Codecs, codec: string, res: Option<Size>) {
    && codec in codecs
    && (res == None
        || (&& (codecs[codec].maxWidth == None || res.value.w <= codecs[codec].maxWidth.value)
            && (codecs[codec].maxHeight == None || res.value.h <= codecs[codec].maxHeight.value)))
  }

  /** The chain by name: VP9 or else H.264, WebP or else PNG, the HTTP stream. */
  lemma ChainByName(codecs: Codecs, res: Option<Size>)
    ensures BuildChain(codecs, res) ==
            (if Can(codecs, "vp9", res) then ["vp9"] else if Can(codecs, "h264", res) then ["h264"] else []) +
            (if Can(codecs, "webp", res) then ["webp"] else if Can(codecs, "png", res) then ["png"] else []) +
            (if Can(codecs, "httpstream", res) then ["httpstream"] else [])
  {
    TwoOfTier("vp9", "h264", codecs, res);
    TwoOfTier("webp", "png", codecs, res);
    OneOfTier("httpstream", codecs, res);
    assert BestFrom(3, codecs, res) == [];
    assert BestFrom(2, codecs, res) == BestOf(Tier(2), codecs, res) + BestFrom(3, codecs, res);
    assert BestFrom(1, codecs, res) == BestOf(Tier(1), codecs, res) + BestFrom(2, codecs, res);
    assert BestFrom(0, codecs, res) == BestOf(Tier(0), codecs, res) + BestFrom(1, codecs, res);
  }

  lemma OneOfTier(a: string, codecs: Codecs, res: Option<Size>)
    ensures BestOf([a], codecs, res) == if Can(codecs, a, res) then [a] else []
  {
  }

  lemma TwoOfTier(a: string, b: string, codecs: Codecs, res: Option<Size>)
    ensures BestOf([a, b], codecs, res) ==
            if Can(codecs, a, res) then [a] else if Can(codecs, b, res) then [b] else []
  {
    assert [a, b][1..] == [b];
    OneOfTier(b, codecs, res);
  }

  lemma TierByName(codec: string)
    ensures TierOf(codec) == Some(0) <==> codec == "vp9" || codec == "h264"
    ensures TierOf(codec) == Some(1) <==> codec == "webp" || codec == "png"
    ensures TierOf(codec) == Some(2) <==> codec == "httpstream"
  {
  }

  /** What each event acts on, by name: losing ICE on the WebRTC codecs, a socket that
      ends on the others. */
  lemma EventsByName(s: State, wire: Wire)
    ensures OnIce(s) ==
            if Current(s) == Some("vp9") || Current(s) == Some("h264") then TryNext(Cancelled(s)) else (s, [])
    ensures OnWs(s, wire) ==
            if (s.phase == Connecting || s.phase == Connected) && (wire == Closed || wire == Error)
               && (Current(s) == Some("webp") || Current(s) == Some("png") || Current(s) == Some("httpstream"))
            then TryNext(Cancelled(s)) else (s, [])
  {
    hide TierOf, TryNext, Cancelled;
    if Current(s).Some? {
      TierByName(Current(s).value);
    }
  }

  /** The next codec is selected with a timer running, but for the HTTP stream. */
  lemma TimerByName(s: State)
    requires s.at < |s.chain| - 1
    ensures var codec := s.chain[s.at + 1];
            var (t, outs) := TryNext(s);
            && outs == [UiState(Connecting), SelectCodec(codec)] && Current(t) == Some(codec)
            && t.timer == if codec == "httpstream" then s.timer else Some(s.nextTimer)
  {
    hide TierOf;
    TierByName(s.chain[s.at + 1]);
  }

  /** The first frame of an attempt ends its timer and is said once. */
  lemma FrameEnds(s: State)
    ensures var (t, outs) := OnFrame(s);
            if s.firstFrame then t == s && outs == []
            else && t.firstFrame && t.phase == Connected && outs == [UiState(Connected)]
                 && t.timer == None && (s.timer.Some? ==> s.timer.value !in t.pending)
  {
  }

  /** Where no codec is left, after the last of the chain or for a size that none
      fits, that is said, and no timer runs on. */
  lemma NoneLeft(s: State, codecs: Codecs, res: Option<Size>)
    ensures s.at >= |s.chain| - 1 ==> RunsOut(s, TryNext(s))
    ensures BuildChain(codecs, res) == [] ==> RunsOut(s, OnStart(s, codecs, true, res))
    ensures res.Some? && s.codecs.Some? && BuildChain(s.codecs.value, res) == [] ==> RunsOut(s, OnResolution(s, res))
  {
    hide BuildChain;
  }

  predicate RunsOut(s: State, next: (State, seq<Out>)) {
    var (t, outs) := next;
    && t.phase == Exhausted && outs == [UiState(Exhausted)] && Current(t) == None
    && t.timer == None && (s.timer.Some? ==> s.timer.value !in t.pending)
  }

  /** The phase last said in OUTS, P if none is. */
  function LastSaid(outs: seq<Out>, p: Phase): Phase {
    if outs == [] then p
    else if outs[|outs| - 1].UiState? then outs[|outs| - 1].phase
    else LastSaid(outs[..|outs| - 1], p)
  }

  /** What is said is what the controller is at, after every event. */
  lemma PhaseIsSaid(s: State, op: Op)
    ensures var (t, outs) := Next(s, op); t.phase == LastSaid(outs, s.phase)
  {
    hide BuildChain, LaterTiers, TierOf, Rank, TryNext, LastSaid;
    SaidOnce(s.phase, MacOff, "");
    SaidOnce(s.phase, Exhausted, "");
    SaidOnce(s.phase, Connected, "");
    forall u: State
      ensures forall p :: TryNext(u).0.phase == LastSaid(TryNext(u).1, p)
    {
      TrySays(u);
    }
  }

  lemma SaidOnce(p: Phase, q: Phase, codec: string)
    ensures LastSaid([], p) == p && LastSaid([UiState(q)], p) == q
    ensures LastSaid([UiState(q), SelectCodec(codec)], p) == q
  {
    var outs := [UiState(q), SelectCodec(codec)];
    assert outs[..1] == [UiState(q)];
  }

  lemma TrySays(u: State)
    ensures forall p :: TryNext(u).0.phase == LastSaid(TryNext(u).1, p)
  {
    hide TierOf;
    forall p
      ensures TryNext(u).0.phase == LastSaid(TryNext(u).1, p)
    {
      SaidOnce(p, Connecting, if 0 <= u.at + 1 < |u.chain| then u.chain[u.at + 1] else "");
    }
  }

  lemma {:induction false} OfTierMeans(chain: seq<string>, k: nat)
    ensures |OfTier(chain, k)| <= 1
    ensures forall c :: c in OfTier(chain, k) ==> c in chain && TierOf(c) == Some(k)
    ensures forall c :: c in chain && TierOf(c) == Some(k) ==> OfTier(chain, k) != []
  {
    hide TierOf;
    if chain != [] {
      OfTierMeans(chain[1..], k);
    }
  }

  lemma {:induction false} LaterTiersRise(chain: seq<string>, k: nat)
    requires k <= 3
    ensures Rising(LaterTiers(chain, k))
    ensures forall c :: c in LaterTiers(chain, k) ==> c in chain && TierOf(c).Some? && TierOf(c).value >= k
    decreases 3 - k
  {
    hide TierOf, OfTier;
    if k < 3 {
      OfTierMeans(chain, k);
      LaterTiersRise(chain, k + 1);
      RisingJoin(OfTier(chain, k), LaterTiers(chain, k + 1), k);
    }
  }

  /** A manual pick is tried first, then what the chain has of later tiers: what
      it has of earlier ones is gone. */
  lemma RequestRises(chain: seq<string>, codec: string)
    ensures var later := [codec] + LaterTiers(chain, Rank(codec) + 1);
            && Rising(later)
            && (forall c :: c in later ==> c == codec || (c in chain && Rank(c) > Rank(codec)))
            && (Rising(chain) ==>
                  forall c :: c in later <==> c == codec || (c in chain && Rank(c) > Rank(codec)))
  {
    hide TierOf, LaterTiers;
    LaterTiersRise(chain, Rank(codec) + 1);
    RisingJoin([codec], LaterTiers(chain, Rank(codec) + 1), Rank(codec));
    if Rising(chain) {
      LaterTiersKept(chain, Rank(codec) + 1);
    }
  }

  /** Of a chain through later and later tiers, all from tier K on are kept. */
  lemma {:induction false} LaterTiersKept(chain: seq<string>, k: nat)
    requires 0 < k <= 3 && Rising(chain)
    ensures forall c :: c in chain && Rank(c) >= k ==> c in LaterTiers(chain, k)
    decreases 3 - k
  {
    hide TierOf, OfTier, Rising;
    if k < 3 {
      LaterTiersKept(chain, k + 1);
      OfTierMeans(chain, k);
      forall c | c in chain && Rank(c) == k
        ensures c in OfTier(chain, k)
      {
        var d := OfTier(chain, k)[0];
        assert d in OfTier(chain, k);
        OneOfARank(chain, c, d);
      }
    }
  }

  lemma OneOfARank(chain: seq<string>, c: string, d: string)
    requires Rising(chain) && c in chain && d in chain && Rank(c) == Rank(d)
    ensures c == d
  {
    hide Rank;
    var i :| 0 <= i < |chain| && chain[i] == c;
    var j :| 0 <= j < |chain| && chain[j] == d;
    assert i == j;
  }

  // -------------------------------------------------------------------- every run

  /** The codecs selected. */
  function Selected(outs: seq<Out>): seq<string> {
    if outs == [] then []
    else
      var before := Selected(outs[..|outs| - 1]);
      var last := outs[|outs| - 1];
      if last.SelectCodec? then before + [last.codec] else before
  }

  /** A start, a manual pick or a resolution the codec in use does not fit: what
      begins the chain anew. */
  predicate Resets(s: State, op: Op) {
    || op.Start?
    || (op.Request? && s.running)
    || (op.Resolution? && op.res.Some? && s.codecs.Some? && !Retained(s, op.res.value))
  }

  /** A state and the codecs selected since the last reset. */
  datatype History = History(s: State, since: seq<string>)

  function Follow(h: History, op: Op): History {
    var (t, outs) := Next(h.s, op);
    History(t, if Resets(h.s, op) then Selected(outs) else h.since + Selected(outs))
  }

  function Run(ops: seq<Op>): History {
    if ops == [] then History(NEW, []) else Follow(Run(ops[..|ops| - 1]), ops[|ops| - 1])
  }

  /** The timer the controller holds is the one pending, and it has a codec to
      give up on. */
  predicate TimerHeld(s: State) {
    match s.timer
    case None => s.pending == {}
    case Some(id) => s.pending == {id} && Current(s).Some?
  }

  predicate Sound(h: History) {
    && Rising(h.s.chain) && h.s.at <= |h.s.chain| && TimerHeld(h.s)
    && Rising(h.since)
    && (Current(h.s).Some? ==> h.since != [] && h.since[|h.since| - 1] == Current(h.s).value)
  }

  lemma RisingAppend(a: seq<string>, c: string)
    requires Rising(a) && (a != [] ==> Rank(a[|a| - 1]) < Rank(c))
    ensures Rising(a + [c])
  {
    hide Rank;
  }

  lemma SelectedOne(p: Phase, c: string)
    ensures Selected([]) == [] && Selected([UiState(p)]) == [] && Selected([UiState(p), SelectCodec(c)]) == [c]
  {
    var outs := [UiState(p), SelectCodec(c)];
    assert outs[..1] == [UiState(p)] && [UiState(p)][..0] == [];
  }

  /** Stepping from a codec in use, or from before a chain, selects the next one,
      of a later tier. */
  lemma TryNextSound(s: State, since: seq<string>)
    requires Rising(s.chain) && s.at < |s.chain| && Rising(since)
    requires s.timer.None? ==> s.pending == {}
    requires s.timer.Some? ==> s.pending == {s.timer.value}
    requires since != [] ==> 0 <= s.at && since[|since| - 1] == s.chain[s.at]
    ensures var (t, outs) := TryNext(s); Sound(History(t, since + Selected(outs)))
    ensures TryNext(s).0.at == s.at + 1
  {
    hide Rank, Selected, TryNext, Rising;
    TryNextTimer(s);
    if s.at + 1 < |s.chain| {
      var codec := s.chain[s.at + 1];
      SelectedOne(Connecting, codec);
      if since != [] {
        RisingStep(s.chain, s.at);
      }
      RisingAppend(since, codec);
    } else {
      SelectedOne(Exhausted, "");
      assert since + [] == since;
    }
  }

  lemma RisingStep(chain: seq<string>, i: nat)
    requires Rising(chain) && i + 1 < |chain|
    ensures Rank(chain[i]) < Rank(chain[i + 1])
  {
    hide Rank;
  }

  /** What a step along the chain does to the index and the timer. */
  lemma TryNextTimer(s: State)
    ensures var (t, outs) := TryNext(s);
            && t.at == s.at + 1 && t.chain == s.chain && t.running == s.running
            && (if t.at < |t.chain| then outs == [UiState(Connecting), SelectCodec(t.chain[t.at])]
                else outs == [UiState(Exhausted)])
            && (s.timer.None? && s.pending == {} ==> TimerHeld(t))
            && (s.timer.Some? && s.pending == {s.timer.value} ==> TimerHeld(t))
            && (TimerOnHttp(t) <==>
                s.timer.Some? && t.at < |t.chain| && TierOf(t.chain[t.at]) == Some(HTTP))
  {
    hide TierOf;
  }

  lemma StartSound(h: History, op: Op)
    requires Sound(h) && op.Start?
    ensures Sound(Follow(h, op))
  {
    hide Rising, Rank, TierOf, BuildChain, TryNext, Selected;
    var t := Cancelled(h.s).(chain := BuildChain(op.available, op.res), at := -1, firstFrame := false,
                             running := op.running, codecs := Some(op.available), res := op.res);
    BuildChainRises(op.available, op.res);
    NothingRises();
    SelectedOne(MacOff, "");
    SelectedOne(Exhausted, "");
    if op.running && t.chain != [] {
      TryNextSound(t.(phase := Idle), []);
      assert [] + Selected(TryNext(t.(phase := Idle)).1) == Selected(TryNext(t.(phase := Idle)).1);
    }
  }

  lemma NothingRises()
    ensures Rising([])
  {
  }

  /** A codec that stays in the rebuilt chain stays in use. */
  lemma RetainedSound(h: History, res: Size)
    requires Sound(h) && Retained(h.s, res)
    ensures Sound(History(OnResolution(h.s, Some(res)).0, h.since)) && OnResolution(h.s, Some(res)).1 == []
  {
    hide Rising, Rank, BuildChain, IndexOf;
    BuildChainRises(h.s.codecs.value, Some(res));
  }

  lemma ResolutionSound(h: History, op: Op)
    requires Sound(h) && op.Resolution?
    ensures Sound(Follow(h, op))
  {
    hide Rising, Rank, BuildChain, TryNext, Selected, Retained;
    NothingRises();
    SelectedOne(Exhausted, "");
    assert h.since + [] == h.since;
    if op.res.Some? && h.s.codecs.Some? {
      BuildChainRises(h.s.codecs.value, op.res);
      if Retained(h.s, op.res.value) {
        RetainedSound(h, op.res.value);
      } else {
        var t := h.s.(res := op.res, chain := BuildChain(h.s.codecs.value, op.res), at := -1);
        if t.chain != [] {
          TryNextSound(t, []);
          assert [] + Selected(TryNext(t).1) == Selected(TryNext(t).1);
        }
      }
    }
  }

  lemma RequestSound(h: History, op: Op)
    requires Sound(h) && op.Request?
    ensures Sound(Follow(h, op))
  {
    hide Rising, Rank, TierOf, LaterTiers, TryNext, Selected;
    NothingRises();
    SelectedOne(Exhausted, "");
    assert h.since + [] == h.since;
    if h.s.running {
      RequestRises(h.s.chain, op.codec);
      var t := Cancelled(h.s).(chain := [op.codec] + LaterTiers(h.s.chain, Rank(op.codec) + 1), at := -1);
      TryNextSound(t, []);
      assert [] + Selected(TryNext(t).1) == Selected(TryNext(t).1);
    }
  }

  /** The events that step the chain, and those that only change the phase. */
  lemma OtherSound(h: History, op: Op)
    requires Sound(h) && !op.Start? && !op.Resolution? && !op.Request?
    ensures Sound(Follow(h, op))
  {
    hide Rising, Rank, TierOf, TryNext, Selected;
    SelectedOne(Connected, "");
    SelectedOne(MacOff, "");
    assert h.since + [] == h.since;
    if Current(h.s).Some? {
      TryNextSound(Cancelled(h.s), h.since);
      if op.Fire? && op.timer in h.s.pending {
        TryNextSound(h.s.(timer := None, pending := h.s.pending - {op.timer}), h.since);
      }
    }
  }

  /** After every run of events: the chain rises through the tiers, the index is in
      range, at most one timer is pending, and the codecs selected since the last
      reset are of strictly later and later tiers, three at most. */
  lemma {:induction false} RunSound(ops: seq<Op>)
    ensures Sound(Run(ops))
    ensures |Run(ops).since| <= 3 && |Run(ops).s.pending| <= 1
  {
    hide Follow, Rank, TierOf;
    if ops == [] {
      NothingRises();
    } else {
      var h, op := Run(ops[..|ops| - 1]), ops[|ops| - 1];
      RunSound(ops[..|ops| - 1]);
      match op
      case Start(_, _, _) => StartSound(h, op);
      case Resolution(_) => ResolutionSound(h, op);
      case Request(_) => RequestSound(h, op);
      case IceFailed => OtherSound(h, op);
      case Ws(_) => OtherSound(h, op);
      case Frame => OtherSound(h, op);
      case Emulator(_) => OtherSound(h, op);
      case Fire(_) => OtherSound(h, op);
    }
    AtMostThree(Run(ops).since);
  }

  lemma {:induction false} RankAtLeast(chain: seq<string>, i: nat)
    requires Rising(chain) && i < |chain|
    ensures Rank(chain[i]) >= i
  {
    hide Rank;
    if i > 0 {
      RankAtLeast(chain, i - 1);
    }
  }

  lemma AtMostThree(chain: seq<string>)
    requires Rising(chain)
    ensures |chain| <= 3
  {
    hide Rising;
    if |chain| > 3 {
      RankAtLeast(chain, 3);
    }
  }

  // ------------------------------------------------------ where the rules have gaps

  /** A timer is pending on httpstream, which is meant to have none. */
  predicate TimerOnHttp(s: State) {
    s.timer.Some? && CurrentTier(s) == Some(HTTP)
  }

  /** That comes about exactly when a resolution change leaves httpstream alone in
      the chain while the timer of the codec before it runs. */
  lemma TimerOnHttpIff(h: History, op: Op)
    requires Sound(h) && !TimerOnHttp(h.s)
    ensures TimerOnHttp(Follow(h, op).s) <==>
            && op.Resolution? && Resets(h.s, op) && h.s.timer.Some?
            && BuildChain(h.s.codecs.value, op.res) != []
            && TierOf(BuildChain(h.s.codecs.value, op.res)[0]) == Some(HTTP)
  {
    hide Rising, Rank, TierOf, BuildChain, LaterTiers, Selected, TryNext;
    if op.Resolution? && Rebuilds(h.s, op) {
      TryNextTimer(h.s.(res := op.res, chain := BuildChain(h.s.codecs.value, op.res), at := -1));
    } else {
      OtherTimer(h.s, op);
    }
  }

  /** No other event leaves a timer on httpstream. */
  lemma OtherTimer(s: State, op: Op)
    requires TimerHeld(s) && !TimerOnHttp(s) && !Rebuilds(s, op)
    ensures !TimerOnHttp(Next(s, op).0)
  {
    hide Rising, BuildChain, LaterTiers, TryNext, TierOf, Rank;
    var c := Cancelled(s);
    TryNextTimer(c);
    match op
    case Start(available, running, res) =>
      TryNextTimer(c.(chain := BuildChain(available, res), at := -1, firstFrame := false, running := running,
                      codecs := Some(available), res := res, phase := Idle));
    case Request(codec) => TryNextTimer(c.(chain := [codec] + LaterTiers(s.chain, Rank(codec) + 1), at := -1));
    case Fire(timer) => TryNextTimer(s.(timer := None, pending := s.pending - {timer}));
    case _ =>
  }

  /** The event gives up the codec in use: ICE failing on WebRTC, a socket closing
      under the other tiers, or the timer of a codec that sent no frame. */
  predicate GivesUp(s: State, op: Op) {
    match op
    case IceFailed => CurrentTier(s) == Some(0)
    case Ws(wire) =>
      && !wire.Other? && (s.phase.Connecting? || s.phase.Connected?)
      && (CurrentTier(s) == Some(1) || CurrentTier(s) == Some(2))
    case Fire(timer) => timer in s.pending && !s.firstFrame
    case _ => false
  }

  /** A resolution change that takes the codec in use out of the chain and leaves
      another, or finds one where none is in use. */
  predicate Rebuilds(s: State, op: Op) {
    op.Resolution? && Resets(s, op) && BuildChain(s.codecs.value, op.res) != []
  }

  /** A controller that is off selects a codec exactly at a start with the emulator
      running that has one to offer, at a resolution change that rebuilds the
      chain, or where a codec in use is given up and the chain has another. */
  lemma SelectsWhileOffIff(h: History, op: Op)
    requires Sound(h) && !h.s.running
    ensures Selected(Next(h.s, op).1) != [] <==>
            || (op.Start? && op.running && BuildChain(op.available, op.res) != [])
            || Rebuilds(h.s, op)
            || (GivesUp(h.s, op) && h.s.at + 1 < |h.s.chain|)
  {
    hide Rising, Rank, BuildChain, LaterTiers, Selected, TryNext, Retained;
    SelectedOne(Exhausted, "");
    SelectedOne(Connected, "");
    SelectedOne(MacOff, "");
    if op.Start? && op.running {
      TryNextSelects(Cancelled(h.s).(chain := BuildChain(op.available, op.res), at := -1, firstFrame := false,
                                     running := true, codecs := Some(op.available), res := op.res, phase := Idle));
    } else if Rebuilds(h.s, op) {
      TryNextSelects(h.s.(res := op.res, chain := BuildChain(h.s.codecs.value, op.res), at := -1));
    } else if GivesUp(h.s, op) {
      TryNextSelects(Cancelled(h.s));
      if op.Fire? {
        TryNextSelects(h.s.(timer := None, pending := h.s.pending - {op.timer}));
      }
    }
  }

  lemma TryNextSelects(s: State)
    ensures Selected(TryNext(s).1) != [] <==> s.at + 1 < |s.chain|
  {
    hide TierOf, Selected, Armed;
    SelectedOne(Exhausted, "");
    if s.at + 1 < |s.chain| {
      SelectedOne(Connecting, s.chain[s.at + 1]);
    }
  }

  /** Event J of a run rebuilds the chain while the controller is off, and it has
      been off ever since. */
  predicate WokenBy(ops: seq<Op>, j: nat) {
    && j < |ops| && Rebuilds(Run(ops[..j]).s, ops[j])
    && (forall k :: j <= k <= |ops| ==> !Run(ops[..k]).s.running)
  }

  lemma OffStep(h: History, op: Op)
    requires Sound(h) && !Follow(h, op).s.running && Follow(h, op).s.at != -1
    ensures !h.s.running && (h.s.at != -1 || Rebuilds(h.s, op))
  {
    hide Rising, Rank, BuildChain, LaterTiers, Selected, TierOf;
  }

  /** A controller that is off is before its chain, unless a resolution change has
      rebuilt that since it went off. */
  lemma {:induction false} OffOrWoken(ops: seq<Op>)
    requires !Run(ops).s.running
    ensures Run(ops).s.at == -1 || exists j: nat :: WokenBy(ops, j)
  {
    hide Follow, Rebuilds, Sound;
    var n := |ops| - 1;
    assert ops[..n + 1] == ops;
    if ops != [] && Run(ops).s.at != -1 {
      RunSound(ops[..n]);
      OffStep(Run(ops[..n]), ops[n]);
      var j: nat := n;
      if Run(ops[..n]).s.at != -1 {
        OffOrWoken(ops[..n]);
        j :| WokenBy(ops[..n], j);
        assert ops[..n][..j] == ops[..j];
      }
      forall k | j <= k <= |ops|
        ensures !Run(ops[..k]).s.running
      {
        if k <= n {
          assert ops[..n][..k] == ops[..k];
        }
      }
      assert WokenBy(ops, j);
    }
  }

  /** Over every run: whatever selects a codec while the controller is off is a
      start, or follows a resolution change since it went off, or is one. */
  lemma SelectsWhileOffOnceWoken(ops: seq<Op>, op: Op)
    requires !Run(ops).s.running && !op.Start? && Selected(Next(Run(ops).s, op).1) != []
    ensures Rebuilds(Run(ops).s, op) || exists j: nat :: WokenBy(ops, j)
  {
    hide Next, Rebuilds, WokenBy, Selected, Run, Rising;
    RunSound(ops);
    SelectsWhileOffIff(Run(ops), op);
    OffOrWoken(ops);
  }

  // ------------------------------------------------------------------- for example

  /** WebRTC up to 640 pixels, and the other tiers without a limit; or the last
      tier only. */
  function Limited(webp: bool): Codecs {
    var few := map["vp9" := Info(Some(640), None), "httpstream" := Info(None, None)];
    if webp then few["webp" := Info(None, None)] else few
  }

  const SMALL: Size := Size(640, 480)
  const LARGE: Size := Size(800, 600)

  lemma LimitedChains(webp: bool)
    ensures var rest := if webp then ["webp", "httpstream"] else ["httpstream"];
            && BuildChain(Limited(webp), Some(SMALL)) == ["vp9"] + rest
            && BuildChain(Limited(webp), Some(LARGE)) == rest
  {
    var codecs := Limited(webp);
    LimitedTiers(webp, Some(SMALL));
    LimitedTiers(webp, Some(LARGE));
    BestFromAll(codecs, Some(SMALL));
    BestFromAll(codecs, Some(LARGE));
  }

  lemma LimitedTiers(webp: bool, res: Option<Size>)
    requires res == Some(SMALL) || res == Some(LARGE)
    ensures BestOf(Tier(0), Limited(webp), res) == if res == Some(SMALL) then ["vp9"] else []
    ensures BestOf(Tier(1), Limited(webp), res) == if webp then ["webp"] else []
    ensures BestOf(Tier(2), Limited(webp), res) == ["httpstream"]
  {
    LimitedKeys(webp);
    BestOfPair("vp9", "h264", Limited(webp), res);
    BestOfPair("webp", "png", Limited(webp), res);
    assert ["httpstream"][1..] == [];
  }

  lemma LimitedKeys(webp: bool)
    ensures var codecs := Limited(webp);
            && "vp9" in codecs && codecs["vp9"] == Info(Some(640), None) && "h264" !in codecs
            && (if webp then "webp" in codecs && codecs["webp"] == Info(None, None) else "webp" !in codecs)
            && "png" !in codecs && "httpstream" in codecs && codecs["httpstream"] == Info(None, None)
  {
    assert "h264"[0] != "webp"[0] && "png"[0] != "vp9"[0];
  }

  lemma BestOfPair(a: string, b: string, codecs: Codecs, res: Option<Size>)
    ensures BestOf([a, b], codecs, res) ==
            if Usable(a, codecs, res) then [a] else if Usable(b, codecs, res) then [b] else []
  {
    hide Usable;
    assert [a, b][1..] == [b] && [b][1..] == [];
    assert BestOf([b], codecs, res) == if Usable(b, codecs, res) then [b] else [];
  }

  lemma BestFromAll(codecs: Codecs, res: Option<Size>)
    ensures BuildChain(codecs, res) ==
            BestOf(Tier(0), codecs, res) + BestOf(Tier(1), codecs, res) + BestOf(Tier(2), codecs, res)
  {
    hide BestOf, Tier;
    assert BestFrom(2, codecs, res) == BestOf(Tier(2), codecs, res) + BestFrom(3, codecs, res);
    assert BestFrom(1, codecs, res) == BestOf(Tier(1), codecs, res) + BestFrom(2, codecs, res);
  }

  lemma RunOne(ops: seq<Op>, op: Op)
    ensures Run(ops + [op]) == Follow(Run(ops), op)
  {
    hide Follow;
    assert (ops + [op])[..|ops|] == ops;
  }

  /** A run that leaves a timer on httpstream: the screen outgrows the first codec
      before a frame has come. */
  lemma TimerOnHttpHappens()
    ensures TimerOnHttp(Run([Start(Limited(false), true, Some(SMALL)), Resolution(Some(LARGE))]).s)
  {
    hide BuildChain, Limited;
    var ops := [Start(Limited(false), true, Some(SMALL)), Resolution(Some(LARGE))];
    LimitedChains(false);
    RunOne([], ops[0]);
    RunOne([ops[0]], ops[1]);
    assert [] + [ops[0]] == [ops[0]] && [ops[0]] + [ops[1]] == ops;
  }

  /** A run that selects codecs while off, twice: at a resolution change, and when
      the socket closes then. */
  lemma SelectsWhileOffHappens()
    ensures var ops := [Start(Limited(true), true, Some(SMALL)), Emulator(false), Resolution(Some(LARGE))];
            var off := Run(ops[..2]).s;
            && !off.running && Next(off, ops[2]).1 == [UiState(Connecting), SelectCodec("webp")]
            && Run(ops).s == Next(off, ops[2]).0 && !Run(ops).s.running
            && Next(Run(ops).s, Ws(Closed)).1 == [UiState(Connecting), SelectCodec("httpstream")]
  {
    hide BuildChain, Limited, Follow, Next;
    var ops := [Start(Limited(true), true, Some(SMALL)), Emulator(false), Resolution(Some(LARGE))];
    RunOne([], ops[0]);
    RunOne([ops[0]], ops[1]);
    RunOne(ops[..2], ops[2]);
    assert [] + [ops[0]] == [ops[0]] && [ops[0]] + [ops[1]] == ops[..2] && ops[..2] + [ops[2]] == ops;
    LimitedStart(Run([]));
    TurnedOff(Run([ops[0]]));
    Woken(Run(ops[..2]).s);
    assert Run(ops).s == Next(Run(ops[..2]).s, ops[2]).0 by { FollowState(Run(ops[..2]), ops[2]); }
    StillGoing(Run(ops).s);
  }

  lemma FollowState(h: History, op: Op)
    ensures Follow(h, op).s == Next(h.s, op).0
  {
    hide Next;
  }

  lemma LimitedStart(h: History)
    ensures var s := Follow(h, Start(Limited(true), true, Some(SMALL))).s;
            s.running && s.codecs == Some(Limited(true))
  {
    hide BuildChain, Limited, Selected, TierOf;
  }

  lemma TurnedOff(h: History)
    requires h.s.running
    ensures var s := Follow(h, Emulator(false)).s; !s.running && s.codecs == h.s.codecs && s.at == -1
  {
    hide Selected;
  }

  lemma Woken(s: State)
    requires !s.running && s.codecs == Some(Limited(true)) && s.at == -1
    ensures var (t, outs) := Next(s, Resolution(Some(LARGE)));
            && outs == [UiState(Connecting), SelectCodec("webp")] && !t.running && t.phase == Connecting
            && t.chain == ["webp", "httpstream"] && t.at == 0
  {
    hide BuildChain, Limited, TierOf;
    LimitedChains(true);
  }

  lemma StillGoing(s: State)
    requires s.chain == ["webp", "httpstream"] && s.at == 0 && s.phase == Connecting
    ensures Next(s, Ws(Closed)).1 == [UiState(Connecting), SelectCodec("httpstream")]
  {
    assert "webp"[0] != "vp9"[0] && "webp"[0] != "h264"[0];
  }

  lemma LaterAfterHttp(k: nat)
    requires 1 <= k <= 2
    ensures LaterTiers(["httpstream"], k) == ["httpstream"]
  {
    var chain := ["httpstream"];
    assert OfTier([], 1) == [] && chain[1..] == [];
    assert OfTier(chain, 2) == chain && OfTier(chain, 1) == [];
    assert LaterTiers(chain, 2) == chain + LaterTiers(chain, 3);
    assert LaterTiers(chain, 1) == [] + LaterTiers(chain, 2);
  }

  lemma RequestChain(s: State, codec: string)
    requires s.running
    ensures var t := OnRequest(s, codec).0;
            t.running && t.chain == [codec] + LaterTiers(s.chain, Rank(codec) + 1)
  {
    hide TierOf, LaterTiers, Rank;
  }

  /** Once httpstream has been picked by hand a later pick has nothing but it to
      fall back to. */
  lemma PickAfterHttp(s: State, codec: string)
    requires s.running && TierOf(codec) != Some(HTTP)
    ensures Next(Next(s, Request("httpstream")).0, Request(codec)).0.chain == [codec, "httpstream"]
  {
    hide TierOf, OnRequest, LaterTiers;
    RequestChain(s, "httpstream");
    HttpIsLast();
    assert ["httpstream"] + LaterTiers(s.chain, 3) == ["httpstream"];
    RequestChain(Next(s, Request("httpstream")).0, codec);
    LaterAfterHttp(Rank(codec) + 1);
  }

  lemma HttpIsLast()
    ensures TierOf("httpstream") == Some(2)
    ensures forall chain :: LaterTiers(chain, 3) == []
  {
  }

  /** A frame makes a controller connected without a codec exactly when none is in
      use and no frame was seen since; before any start, for one. */
  lemma FrameConnectsIff(s: State)
    requires s.phase != Connected
    ensures OnFrame(s).0.phase == Connected && Current(OnFrame(s).0).None? <==> !s.firstFrame && Current(s).None?
    ensures Current(OnFrame(NEW).0).None? && OnFrame(NEW).0.phase == Connected
  {
  }
}
