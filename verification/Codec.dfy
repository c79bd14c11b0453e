/** Codec selection with fallback (client/codec-fallback.js:15-291). The host's
    timers are modelled by the set of those still pending; debug events and the
    clock they carry are left out. */
module Codec {
  import opened Bytes

  /** WebRTC, WebSocket, long polling: the codecs of each, the better first. */
  function Tier(k: nat): seq<string>
    requires k < 3
  {
    if k == 0 then ["vp9", "h264"] else if k == 1 then ["webp", "png"] else ["httpstream"]
  }

  const HTTP: nat := 2

  datatype Size = Size(w: int, h: int)

  /** What /api/codecs says of a codec; none is no limit. */
  datatype Info = Info(maxWidth: Option<int>, maxHeight: Option<int>)

  type Codecs = map<string, Info>

  predicate Fits(info: Info, res: Option<Size>) {
    res.None? || (&& (info.maxWidth.None? || res.value.w <= info.maxWidth.value)
                  && (info.maxHeight.None? || res.value.h <= info.maxHeight.value))
  }

  predicate Usable(id: string, codecs: Codecs, res: Option<Size>) {
    id in codecs && Fits(codecs[id], res)
  }

  /** The first usable codec of a tier, if any. */
  function BestOf(tier: seq<string>, codecs: Codecs, res: Option<Size>): seq<string> {
    if tier == [] then []
    else if Usable(tier[0], codecs, res) then [tier[0]]
    else BestOf(tier[1..], codecs, res)
  }

  function BestFrom(k: nat, codecs: Codecs, res: Option<Size>): seq<string>
    requires k <= 3
    decreases 3 - k
  {
    if k == 3 then [] else BestOf(Tier(k), codecs, res) + BestFrom(k + 1, codecs, res)
  }

  function BuildChain(codecs: Codecs, res: Option<Size>): seq<string> {
    BestFrom(0, codecs, res)
  }

  /** The tier a codec is of; None for one of no tier. */
  function TierOf(codec: string): (k: Option<nat>)
    ensures k.Some? ==> k.value < 3 && codec in Tier(k.value)
  {
    if codec in Tier(0) then Some(0)
    else if codec in Tier(1) then Some(1)
    else if codec in Tier(2) then Some(2)
    else None
  }

  // ------------------------------------------------------------------- the state

  datatype Phase = Idle | MacOff | Connecting | Connected | Exhausted
  datatype Wire = Closed | Error | Other

  datatype Out = SelectCodec(codec: string) | UiState(phase: Phase)

  /** An index into the chain: -1 before its first codec. */
  type Index = i: int | -1 <= i witness -1

  datatype State = State(
    chain: seq<string>, at: Index, firstFrame: bool, running: bool,
    codecs: Option<Codecs>, res: Option<Size>, timer: Option<nat>, phase: Phase,
    pending: set<nat>, nextTimer: nat)

  /** chain[chainIdx]; None where JavaScript has undefined. */
  function Current(s: State): Option<string> {
    if 0 <= s.at < |s.chain| then Some(s.chain[s.at]) else None
  }

  function CurrentTier(s: State): Option<nat> {
    if Current(s).Some? then TierOf(Current(s).value) else None
  }

  datatype Op =
    | Start(available: Codecs, running: bool, res: Option<Size>)
    | Resolution(res: Option<Size>)
    | IceFailed
    | Ws(state: Wire)
    | Frame
    | Emulator(running: bool)
    | Request(codec: string)
    | Fire(timer: nat)

  function Cancelled(s: State): State {
    if s.timer.None? then s else s.(timer := None, pending := s.pending - {s.timer.value})
  }

  function Armed(s: State): State {
    var c := Cancelled(s);
    c.(timer := Some(c.nextTimer), pending := c.pending + {c.nextTimer}, nextTimer := c.nextTimer + 1)
  }

  function TryNext(s: State): (State, seq<Out>) {
    var t := s.(at := s.at + 1);
    if t.at >= |t.chain| then (Cancelled(t).(phase := Exhausted), [UiState(Exhausted)])
    else
      var codec := t.chain[t.at];
      var u := t.(firstFrame := false, phase := Connecting);
      (if TierOf(codec) != Some(HTTP) then Armed(u) else u, [UiState(Connecting), SelectCodec(codec)])
  }

  function OnStart(s: State, available: Codecs, running: bool, res: Option<Size>): (State, seq<Out>) {
    var t := Cancelled(s).(chain := BuildChain(available, res), at := -1, firstFrame := false, running := running,
                           codecs := Some(available), res := res);
    if !running then (t.(phase := MacOff), [UiState(MacOff)])
    else if t.chain == [] then (t.(phase := Exhausted), [UiState(Exhausted)])
    else TryNext(t.(phase := Idle))
  }

  /** The new resolution leaves the codec in use in the rebuilt chain. */
  predicate Retained(s: State, res: Size) {
    s.codecs.Some? && Current(s).Some? && Current(s).value in BuildChain(s.codecs.value, Some(res))
  }

  function IndexOf(chain: seq<string>, codec: string): (k: nat)
    requires codec in chain
    ensures k < |chain| && chain[k] == codec
  {
    if chain[0] == codec then 0 else 1 + IndexOf(chain[1..], codec)
  }

  function OnResolution(s: State, res: Option<Size>): (State, seq<Out>) {
    if res.None? || s.codecs.None? then (s, [])
    else
      var chain := BuildChain(s.codecs.value, res);
      var t := s.(res := res, chain := chain);
      if Retained(s, res.value) then (t.(at := IndexOf(chain, Current(s).value)), [])
      else if chain == [] then (Cancelled(t).(at := -1, phase := Exhausted), [UiState(Exhausted)])
      else TryNext(t.(at := -1))
  }

  function OnIce(s: State): (State, seq<Out>) {
    if s.at < 0 || CurrentTier(s) != Some(0) then (s, []) else TryNext(Cancelled(s))
  }

  function OnWs(s: State, wire: Wire): (State, seq<Out>) {
    if !s.phase.Connecting? && !s.phase.Connected? then (s, [])
    else if !wire.Other? && (CurrentTier(s) == Some(1) || CurrentTier(s) == Some(2)) then TryNext(Cancelled(s))
    else (s, [])
  }

  function OnFrame(s: State): (State, seq<Out>) {
    if s.firstFrame then (s, [])
    else (Cancelled(s.(firstFrame := true)).(phase := Connected), [UiState(Connected)])
  }

  function OnEmulator(s: State, running: bool): (State, seq<Out>) {
    if s.running == running then (s, [])
    else if running then (s.(running := true), [])
    else (Cancelled(s.(running := false)).(phase := MacOff, at := -1, firstFrame := false), [UiState(MacOff)])
  }

  /** The chain's codec of tier K, if it has one. */
  function OfTier(chain: seq<string>, k: nat): seq<string> {
    if chain == [] then []
    else if TierOf(chain[0]) == Some(k) then [chain[0]]
    else OfTier(chain[1..], k)
  }

  function LaterTiers(chain: seq<string>, k: nat): seq<string>
    decreases 3 - k
  {
    if k >= 3 then [] else OfTier(chain, k) + LaterTiers(chain, k + 1)
  }

  /** Where a codec stands among the tiers: one of no tier counts as the first. */
  function Rank(codec: string): (k: nat)
    ensures k < 3
  {
    if TierOf(codec).Some? then TierOf(codec).value else 0
  }

  function OnRequest(s: State, codec: string): (State, seq<Out>) {
    if !s.running then (s, [])
    else TryNext(Cancelled(s).(chain := [codec] + LaterTiers(s.chain, Rank(codec) + 1), at := -1))
  }

  /** A timer goes off. */
  function OnFire(s: State, timer: nat): (State, seq<Out>) {
    if timer !in s.pending then (s, [])
    else
      var t := s.(timer := None, pending := s.pending - {timer});
      if s.firstFrame then (t, []) else TryNext(t)
  }

  /** The codec selected last, which start and a manual pick return. */
  function Returned(outs: seq<Out>): Option<string> {
    if outs != [] && outs[|outs| - 1].SelectCodec? then Some(outs[|outs| - 1].codec) else None
  }

  function Next(s: State, op: Op): (State, seq<Out>) {
    match op
    case Start(available, running, res) => OnStart(s, available, running, res)
    case Resolution(res) => OnResolution(s, res)
    case IceFailed => OnIce(s)
    case Ws(wire) => OnWs(s, wire)
    case Frame => OnFrame(s)
    case Emulator(running) => OnEmulator(s, running)
    case Request(codec) => OnRequest(s, codec)
    case Fire(timer) => OnFire(s, timer)
  }

  const NEW: State := State([], -1, false, true, None, None, None, Idle, {}, 0)

  // -------------------------------------------------------------------- the class

  /** buildChain as its loops. */
  method BuildCodecChain(codecs: Codecs, res: Option<Size>) returns (chain: seq<string>)
    ensures chain == BuildChain(codecs, res)
  {
    hide BestOf, Tier;
    chain := [];
    var k := 0;
    while k < 3
      invariant 0 <= k <= 3
      invariant chain + BestFrom(k, codecs, res) == BuildChain(codecs, res)
    {
      var best := FirstUsable(Tier(k), codecs, res);
      Associate(chain, best, BestFrom(k + 1, codecs, res));
      chain := chain + best;
      k := k + 1;
    }
  }

  lemma Associate(a: seq<string>, b: seq<string>, c: seq<string>)
    ensures a + (b + c) == a + b + c
  {
  }

  method FirstUsable(tier: seq<string>, codecs: Codecs, res: Option<Size>) returns (best: seq<string>)
    ensures best == BestOf(tier, codecs, res)
  {
    hide Usable;
    assert tier[0..] == tier;
    var i := 0;
    while i < |tier|
      invariant 0 <= i <= |tier| && BestOf(tier[i..], codecs, res) == BestOf(tier, codecs, res)
    {
      assert tier[i..][1..] == tier[i + 1..];
      if Usable(tier[i], codecs, res) {
        return [tier[i]];
      }
      i := i + 1;
    }
    best := [];
  }

  class CodecFallbackController {
    var chain: seq<string>
    var chainIdx: Index
    var firstFrameSeen: bool
    var emulatorRunning: bool
    var codecsInfo: Option<Codecs>
    var currentResolution: Option<Size>
    var timer: Option<nat>
    var phase: Phase
    var pending: set<nat>     // the host's timers
    var nextTimer: nat
    var log: seq<Out>         // what was emitted

    function Value(): State
      reads this
    {
      State(chain, chainIdx, firstFrameSeen, emulatorRunning, codecsInfo, currentResolution, timer, phase, pending,
            nextTimer)
    }

    constructor ()
      ensures Value() == NEW && log == []
    {
      chain, chainIdx, firstFrameSeen, emulatorRunning := [], -1, false, true;
      codecsInfo, currentResolution, timer, phase := None, None, None, Idle;
      pending, nextTimer, log := {}, 0, [];
    }

    method CancelTimer()
      modifies this`timer, this`pending
      ensures Value() == Cancelled(old(Value()))
    {
      if timer.Some? {
        pending := pending - {timer.value};
        timer := None;
      }
    }

    method ArmNoFramesTimer()
      modifies this`timer, this`pending, this`nextTimer
      ensures Value() == Armed(old(Value()))
    {
      CancelTimer();
      pending := pending + {nextTimer};
      timer := Some(nextTimer);
      nextTimer := nextTimer + 1;
    }

    method SetPhase(p: Phase)
      modifies this`phase, this`log
      ensures phase == p && log == old(log) + [UiState(p)]
    {
      phase := p;
      log := log + [UiState(p)];
    }

    method Exhaust()
      modifies this`timer, this`pending, this`phase, this`log
      ensures Value() == Cancelled(old(Value())).(phase := Exhausted)
      ensures log == old(log) + [UiState(Exhausted)]
    {
      CancelTimer();
      SetPhase(Exhausted);
    }

    /** The codec stepped to, or none. */
    method StepChain() returns (codec: Option<string>)
      modifies this
      ensures Value() == TryNext(old(Value())).0 && log == old(log) + TryNext(old(Value())).1
      ensures codec == Current(Value()) == Returned(TryNext(old(Value())).1)
    {
      hide TierOf, Cancelled, Armed;
      chainIdx := chainIdx + 1;
      if chainIdx >= |chain| {
        Exhaust();
        return None;
      }
      var next := chain[chainIdx];
      firstFrameSeen := false;
      SetPhase(Connecting);
      log := log + [SelectCodec(next)];
      if TierOf(next) != Some(HTTP) {
        ArmNoFramesTimer();
      }
      codec := Some(next);
    }

    method Reset()
      modifies this
      ensures Value() == Cancelled(old(Value())).(chain := [], at := -1, firstFrame := false, running := true,
                                                  codecs := None, res := None, phase := Idle)
      ensures log == old(log)
    {
      chain, chainIdx, firstFrameSeen, emulatorRunning := [], -1, false, true;
      codecsInfo, currentResolution := None, None;
      CancelTimer();
      phase := Idle;
    }

    method Begin(available: Codecs, running: bool, res: Option<Size>) returns (codec: Option<string>)
      modifies this
      ensures Value() == Next(old(Value()), Start(available, running, res)).0
      ensures log == old(log) + Next(old(Value()), Start(available, running, res)).1
      ensures codec == Returned(Next(old(Value()), Start(available, running, res)).1)
    {
      hide TryNext, BuildChain, Cancelled;
      Reset();
      emulatorRunning, codecsInfo, currentResolution := running, Some(available), res;
      chain := BuildCodecChain(available, res);
      if !emulatorRunning {
        SetPhase(MacOff);
        return None;
      }
      if |chain| == 0 {
        SetPhase(Exhausted);
        return None;
      }
      codec := StepChain();
    }

    method OnResolutionChange(res: Option<Size>)
      modifies this
      ensures Value() == Next(old(Value()), Resolution(res)).0
      ensures log == old(log) + Next(old(Value()), Resolution(res)).1
    {
      hide TryNext, BuildChain, IndexOf, Cancelled;
      if res.None? || codecsInfo.None? {
        return;
      }
      currentResolution := res;
      var newChain := BuildCodecChain(codecsInfo.value, res);
      if 0 <= chainIdx < |chain| && chain[chainIdx] in newChain {
        chainIdx := IndexOf(newChain, chain[chainIdx]);
        chain := newChain;
        return;
      }
      chain := newChain;
      CancelsAlike(Value());
      chainIdx := -1;
      if |chain| == 0 {
        Exhaust();
        return;
      }
      var _ := StepChain();
    }

    static lemma CancelsAlike(s: State)
      ensures Cancelled(s.(at := -1)) == Cancelled(s).(at := -1)
    {
    }

    /** ICE has failed; other ICE states do nothing. */
    method OnIceFailed()
      modifies this
      ensures Value() == Next(old(Value()), IceFailed).0 && log == old(log) + Next(old(Value()), IceFailed).1
    {
      if chainIdx < 0 || CurrentTier(Value()) != Some(0) {
        return;
      }
      CancelTimer();
      var _ := StepChain();
    }

    method OnWsState(wire: Wire)
      modifies this
      ensures Value() == Next(old(Value()), Ws(wire)).0 && log == old(log) + Next(old(Value()), Ws(wire)).1
    {
      if phase != Connecting && phase != Connected {
        return;
      }
      var tier := CurrentTier(Value());
      if (wire.Closed? || wire.Error?) && (tier == Some(1) || tier == Some(2)) {
        CancelTimer();
        var _ := StepChain();
      }
    }

    method OnFirstFrame()
      modifies this
      ensures Value() == Next(old(Value()), Frame).0 && log == old(log) + Next(old(Value()), Frame).1
    {
      if firstFrameSeen {
        return;
      }
      firstFrameSeen := true;
      CancelTimer();
      SetPhase(Connected);
    }

    method OnEmulatorState(running: bool)
      modifies this
      ensures Value() == Next(old(Value()), Emulator(running)).0
      ensures log == old(log) + Next(old(Value()), Emulator(running)).1
    {
      if emulatorRunning == running {
        return;
      }
      emulatorRunning := running;
      if !running {
        CancelTimer();
        SetPhase(MacOff);
        chainIdx, firstFrameSeen := -1, false;
      }
    }

    method OnCodecChangeRequested(codec: string) returns (picked: Option<string>)
      modifies this
      ensures Value() == Next(old(Value()), Request(codec)).0
      ensures log == old(log) + Next(old(Value()), Request(codec)).1
      ensures picked == Returned(Next(old(Value()), Request(codec)).1)
    {
      hide TryNext, OfTier, Rank;
      if !emulatorRunning {
        return None;
      }
      CancelTimer();
      var newChain := [codec];
      var k := Rank(codec) + 1;
      while k < 3
        invariant k <= 3
        invariant newChain + LaterTiers(chain, k) == [codec] + LaterTiers(chain, Rank(codec) + 1)
      {
        assert newChain + (OfTier(chain, k) + LaterTiers(chain, k + 1)) ==
               newChain + OfTier(chain, k) + LaterTiers(chain, k + 1);
        newChain := newChain + OfTier(chain, k);
        k := k + 1;
      }
      assert newChain + [] == newChain;
      chain, chainIdx := newChain, -1;
      picked := StepChain();
    }

    /** The host calls back a timer it was asked for. */
    method TimerFires(id: nat)
      modifies this
      ensures Value() == Next(old(Value()), Fire(id)).0 && log == old(log) + Next(old(Value()), Fire(id)).1
    {
      if id !in pending {
        return;
      }
      pending := pending - {id};
      timer := None;
      if firstFrameSeen {
        return;
      }
      var _ := StepChain();
    }
  }
}
