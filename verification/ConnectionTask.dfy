/** `run_connection` in its own shape: a loop over `state` and `net_idx` that
    drives the controller step by step and awaits in between. Whatever other
    tasks, the radio and the signals do at each await, the method is proved to
    follow the transition system of `Connection`, so the theorems about its runs
    are theorems about this loop. */
module ConnectionTask {
  import opened Prelude
  import opened Connection
  import opened ConnectionSafety

  /** What the loop shares with the rest of the device. The three oracles fix, for
      each await, which manager calls run meanwhile, whether a radio call
      succeeds, and what the state action yields when polled. */
  class World {
    const calls: nat -> seq<Call>
    const results: nat -> bool
    const events: nat -> Option<StateEvent>
    var config: Config
    var signals: Signals
    var radio: Radio
    var awaits: nat
    ghost var untouched: bool
    ghost var last: Reconfig
    ghost var attempts: seq<ModeConfig>
    ghost var boot: State
    ghost var trace: seq<Action>

    constructor (config: Config, signals: Signals, calls: nat -> seq<Call>, results: nat -> bool, events: nat -> Option<StateEvent>)
      ensures boot == Boot(config, signals) && Tracks(StaDisabled, 0, ComputeSta(true))
    {
      this.config, this.signals, this.radio, awaits := config, signals, BOOT_RADIO, 0;
      this.calls, this.results, this.events := calls, results, events;
      untouched, last, attempts := true, Completed, [];
      boot, trace := Boot(config, signals), [];
    }

    /** The whole system, given the loop's local variables and where it stands. */
    ghost function At(state: ConnState, netIdx: nat, pc: Pc): State
      reads this
    {
      State(config, signals, radio, state, netIdx, pc, untouched, last, attempts)
    }

    /** The run so far has led exactly here. */
    ghost predicate Tracks(state: ConnState, netIdx: nat, pc: Pc)
      reads this
    {
      Run(boot, trace) == At(state, netIdx, pc)
    }

    ghost method Took(a: Action)
      modifies this`trace
      ensures Run(boot, trace) == Step(Run(boot, old(trace)), a)
    {
      trace := Extend(boot, trace, a);
    }

    /** An await: other tasks make their calls. */
    method Await(ghost state: ConnState, ghost netIdx: nat, ghost pc: Pc) returns (ok: bool)
      requires Tracks(state, netIdx, pc)
      modifies this`config, this`signals, this`awaits, this`trace
      ensures Tracks(state, netIdx, pc)
    {
      var cs := calls(awaits);
      ok := results(awaits);
      awaits := awaits + 1;
      for i := 0 to |cs|
        invariant Tracks(state, netIdx, pc)
      {
        Took(Env(cs[i]));
        Serve(cs[i]);
      }
    }

    /** An await, and then the loop's next step up to what it does to the radio. */
    method Advance(ghost state: ConnState, ghost netIdx: nat, ghost pc: Pc) returns (ok: bool)
      requires Tracks(state, netIdx, pc)
      modifies this`config, this`signals, this`awaits, this`trace
      ensures Run(boot, trace) == TaskStep(At(state, netIdx, pc), ok, None)
    {
      ok := Await(state, netIdx, pc);
      Took(Task(ok, None));
    }

    method Serve(call: Call)
      modifies this`config, this`signals
      ensures forall state, netIdx, pc :: At(state, netIdx, pc) == EnvStep(old(At(state, netIdx, pc)), call)
    {
      match call {
        case SetApEnabled(b) =>
          config := config.(apEnabled := b);
          signals := signals.(apReconfig := true);
        case SetStaEnabled(b) =>
          config := config.(staEnabled := b);
          signals := signals.(staToggled := true);
        case ChangeApCredentials => signals := signals.(apReconfig := true);
        case NotifyStaToggled => signals := signals.(staToggled := true);
        case AddNetwork(w) => config := config.(networks := config.networks + [w]);
        case RemoveNetwork(i) =>
          if i < |config.networks| {
            config := config.(networks := config.networks[..i] + config.networks[i + 1..]);
          }
        case RequestConnect(i) => signals := signals.(connectRequest := Some(i));
      }
    }
  }

  /** `compute_state`: the switch first, then the list. */
  method ComputeState(w: World, ghost stale: ConnState, netIdx: nat, ghost first: bool) returns (state: ConnState)
    requires w.Tracks(stale, netIdx, ComputeSta(first))
    modifies w`config, w`signals, w`awaits, w`trace
    ensures w.Tracks(state, netIdx, if first && state.StaDisabled? then ApplyStop(EnterLoop) else Head)
  {
    hide Run;
    var _ := w.Advance(stale, netIdx, ComputeSta(first));
    if !w.config.staEnabled {
      return StaDisabled;
    }
    var _ := w.Advance(stale, netIdx, ComputeNets(first));
    var networks := w.config.networks;
    if networks == [] {
      return NoNetworks;
    }
    state := Connecting(Min(netIdx, |networks| - 1));
  }

  ghost function PcAfter(after: After): Pc {
    if after.EnterLoop? then Head else ComputeSta(false)
  }

  ghost function IdxAfter(after: After, netIdx: nat): nat {
    if after == Recompute(true) then 0 else netIdx
  }

  /** `apply_ap_reconfig`, returning early on a failed radio call. */
  method ApplyApReconfig(w: World, ghost state: ConnState, ghost netIdx: nat, ghost after: After)
    requires w.Tracks(state, netIdx, ApplyStop(after))
    modifies w
    ensures w.boot == old(w.boot) && w.Tracks(state, IdxAfter(after, netIdx), PcAfter(after))
  {
    hide Run, PollSelect, Computed;
    var ok := w.Advance(state, netIdx, ApplyStop(after));
    if !ok {
      w.last := StopFailed(!w.radio.started);
      return;
    }
    w.radio := w.radio.(started := false);
    w.untouched := false;
    var _ := w.Advance(state, netIdx, ApplyReadSta(after));
    var staOn := w.config.staEnabled;
    var _ := w.Advance(state, netIdx, ApplyReadAp(after, staOn));
    var cfg :=
      if staOn then BuildModeConfig(DUMMY_STA, w.config.apEnabled)
      else if w.config.apEnabled then AccessPoint
      else ModeNone;
    if cfg.ModeNone? {
      w.last := Completed;
      return;
    }
    RestartRadio(w, state, netIdx, after, cfg);
  }

  method RestartRadio(w: World, ghost state: ConnState, ghost netIdx: nat, ghost after: After, cfg: ModeConfig)
    requires w.Tracks(state, netIdx, ApplySetConfig(after, cfg))
    modifies w
    ensures w.boot == old(w.boot) && w.Tracks(state, IdxAfter(after, netIdx), PcAfter(after))
  {
    hide Run;
    var ok := w.Advance(state, netIdx, ApplySetConfig(after, cfg));
    if !ok {
      w.last := ConfigFailed;
      return;
    }
    w.radio := w.radio.(mode := cfg);
    ok := w.Advance(state, netIdx, ApplyStart(after));
    if ok {
      w.radio := w.radio.(started := true);
      w.last := Completed;
    } else {
      w.last := StartFailed;
    }
  }

  /** The top of the loop: set the mode for the network about to be tried. */
  method Prepare(w: World, state: ConnState, ghost netIdx: nat)
    requires w.Tracks(state, netIdx, Head)
    modifies w
    ensures w.boot == old(w.boot) && w.Tracks(state, netIdx, Select)
  {
    hide Run;
    var _ := w.Advance(state, netIdx, Head);
    if state.Connecting? {
      var networks := w.config.networks;
      if state.idx < |networks| {
        var target := networks[state.idx];
        var _ := w.Advance(state, netIdx, HeadReadAp(target));
        var cfg := BuildModeConfig(target, w.config.apEnabled);
        var ok := w.Advance(state, netIdx, HeadSetConfig(cfg));
        if ok {
          w.radio := w.radio.(mode := cfg);
          w.untouched := false;
        }
      }
    }
  }

  /** What ended a select. */
  datatype Selected = First | Second | Third(idx: nat) | Fourth(event: StateEvent) | StillPending

  /** One poll of `select4`, in its fixed order. */
  method Poll(w: World, state: ConnState, ghost netIdx: nat) returns (r: Selected)
    requires w.Tracks(state, netIdx, Select)
    modifies w`config, w`signals, w`awaits, w`trace
    ensures match r
            case First => Run(w.boot, w.trace) == EnterBranch(w.At(state, netIdx, Select), ApBranch)
            case Second => Run(w.boot, w.trace) == EnterBranch(w.At(state, netIdx, Select), StaBranch)
            case Third(idx) => Run(w.boot, w.trace) == EnterBranch(w.At(state, netIdx, Select), ConnectBranch(idx))
            case Fourth(event) => Yields(state, event) && Run(w.boot, w.trace) == HandleEvent(w.At(state, netIdx, Select), event)
            case StillPending => w.Tracks(state, netIdx, Select)
    ensures !r.First? ==> !w.signals.apReconfig
    ensures !r.First? && !r.Second? ==> !w.signals.staToggled
    ensures r.Fourth? || r.StillPending? ==> Quiet(w.signals)
    ensures r.StillPending? ==> var event := w.events(w.awaits); event.None? || !Yields(state, event.value)
  {
    var _ := w.Await(state, netIdx, Select);
    var event := w.events(w.awaits);
    w.Took(Task(true, event));
    if w.signals.apReconfig {
      w.signals := w.signals.(apReconfig := false);
      return First;
    }
    if w.signals.staToggled {
      w.signals := w.signals.(staToggled := false);
      return Second;
    }
    if w.signals.connectRequest.Some? {
      var idx := w.signals.connectRequest.value;
      w.signals := w.signals.(connectRequest := None);
      return Third(idx);
    }
    if event.Some? && Yields(state, event.value) {
      return Fourth(event.value);
    }
    r := StillPending;
  }

  /** A signal branch up to its body: disconnect if connected. */
  method LeaveConnection(w: World, state: ConnState, ghost netIdx: nat, ghost branch: Branch)
    requires Run(w.boot, w.trace) == EnterBranch(w.At(state, netIdx, Select), branch)
    modifies w`config, w`signals, w`awaits, w`trace
    ensures Run(w.boot, w.trace) == TakeBranch(w.At(state, netIdx, Select), branch)
  {
    hide Run;
    if state.Connected? {
      var _ := w.Advance(state, netIdx, Disconnecting(branch));
    }
  }

  /** The match on what was selected, up to recomputing the state. Only a
      successful connection skips the recomputation. */
  method React(w: World, state: ConnState, netIdx: nat, selected: Selected) returns (netIdx': nat, state': ConnState, recompute: bool)
    requires !selected.StillPending?
    requires match selected
             case First => Run(w.boot, w.trace) == EnterBranch(w.At(state, netIdx, Select), ApBranch)
             case Second => Run(w.boot, w.trace) == EnterBranch(w.At(state, netIdx, Select), StaBranch)
             case Third(idx) => Run(w.boot, w.trace) == EnterBranch(w.At(state, netIdx, Select), ConnectBranch(idx))
             case Fourth(event) => Run(w.boot, w.trace) == HandleEvent(w.At(state, netIdx, Select), event)
             case StillPending => true
    modifies w
    ensures w.boot == old(w.boot) && w.Tracks(state', netIdx', if recompute then ComputeSta(false) else Head)
  {
    netIdx', state', recompute := netIdx, state, true;
    match selected {
      case First =>
        LeaveConnection(w, state, netIdx, ApBranch);
        ApplyApReconfig(w, state, netIdx, Recompute(false));
      case Second =>
        LeaveConnection(w, state, netIdx, StaBranch);
        ApplyApReconfig(w, state, netIdx, Recompute(true));
        netIdx' := 0;
      case Third(idx) =>
        LeaveConnection(w, state, netIdx, ConnectBranch(idx));
        netIdx' := idx;
      case Fourth(event) =>
        match event {
          case Timeout =>
          case ConnOk =>
            w.attempts := w.attempts + [w.radio.mode];
            state', recompute := Connected(netIdx), false;
          case ConnFail =>
            w.attempts := w.attempts + [w.radio.mode];
            netIdx' := TryNext(w, state, netIdx);
          case Disconnected =>
            netIdx' := 0;
            var _ := w.Advance(state, netIdx', Delay);
        }
    }
  }

  /** After a failed attempt: the next index, then the five-second pause. */
  method TryNext(w: World, ghost state: ConnState, netIdx: nat) returns (netIdx': nat)
    requires w.Tracks(state, netIdx, FailReadNets)
    modifies w`config, w`signals, w`awaits, w`trace
    ensures w.Tracks(state, netIdx', ComputeSta(false))
  {
    hide Run;
    netIdx' := netIdx;
    var _ := w.Advance(state, netIdx, FailReadNets);
    var networks := w.config.networks;
    if networks != [] {
      netIdx' := NextIdx(netIdx, |networks|);
    }
    var _ := w.Advance(state, netIdx', Delay);
  }

  /** The loop, stopped after a given number of polls. Where it stops it has made
      a run of the transition system, and so obeys that system's theorems. */
  method RunConnection(w: World, polls: nat) returns (state: ConnState, netIdx: nat)
    requires w.Tracks(StaDisabled, 0, ComputeSta(true)) && (exists c, g :: w.boot == Boot(c, g))
    modifies w
    ensures w.boot == old(w.boot) && w.Tracks(state, netIdx, Select)
    ensures Quiet(w.signals) && state.Connecting? && w.last.Completed? ==> StaReady(w.radio) && w.config.staEnabled
    ensures Quiet(w.signals) && state.Connecting? ==> (!w.radio.started <==> LeavesStopped(w.last))
  {
    ghost var c, g :| w.boot == Boot(c, g);
    netIdx := 0;
    state := ComputeState(w, StaDisabled, netIdx, true);
    if state.StaDisabled? {
      ApplyApReconfig(w, state, netIdx, EnterLoop);
    }
    Prepare(w, state, netIdx);
    for k := 0 to polls
      invariant w.boot == old(w.boot) && w.Tracks(state, netIdx, Select)
    {
      var selected := Poll(w, state, netIdx);
      if !selected.StillPending? {
        var recompute;
        netIdx, state, recompute := React(w, state, netIdx, selected);
        if recompute {
          state := ComputeState(w, state, netIdx, false);
        }
        Prepare(w, state, netIdx);
      }
    }
    ConnectOnlyWhenStaReady(c, g, w.trace);
    StoppedRadioPolledIff(c, g, w.trace);
  }
}
