/** Safety of the connection loop over every run: the state agrees with the
    configuration, and the radio with both, unless a signal is still latched. */
module ConnectionSafety {
  import opened Prelude
  import opened Connection

  /** The radio can serve a station connection. */
  predicate StaReady(r: Radio) {
    r.started && r.mode.HasSta()
  }

  /** STA_TOGGLED is latched or the station is disabled: the loop owes nothing to STA. */
  predicate StaExcused(s: State) {
    !s.config.staEnabled || s.signals.staToggled
  }

  /** The radio is up in exactly the interfaces the configuration asks for. */
  predicate Matches(r: Radio, c: Config) {
    if !c.apEnabled && !c.staEnabled then !r.started
    else r.started && r.mode.HasAp() == c.apEnabled && r.mode.HasSta() == c.staEnabled
  }

  predicate SwitchLatched(s: State) {
    s.signals.apReconfig || s.signals.staToggled
  }

  /** A reading of a switch is current, or its signal has been latched since. */
  predicate ApRead(s: State, on: bool) {
    on == s.config.apEnabled || s.signals.apReconfig
  }

  predicate StaRead(s: State, on: bool) {
    on == s.config.staEnabled || s.signals.staToggled
  }

  /** The mode configuration was built from readings that are current or signalled. */
  predicate ModeRead(s: State, cfg: ModeConfig) {
    ApRead(s, cfg.HasAp()) && StaRead(s, cfg.HasSta())
  }

  predicate StateAgrees(s: State) {
    (s.state.StaDisabled? <==> !s.config.staEnabled) || s.signals.staToggled
  }

  /** Radio obligations outside `apply_ap_reconfig`. */
  predicate RadioAgrees(s: State) {
    && (StaReady(s.radio) || StaExcused(s) || !s.last.Completed?)
    && (Matches(s.radio, s.config) || SwitchLatched(s) || s.untouched || !s.last.Completed?)
    && (s.untouched ==> s.radio == BOOT_RADIO)
  }

  predicate StartupState(s: State, after: After) {
    after.EnterLoop? ==> s.state.StaDisabled? && StateAgrees(s)
  }

  /** What the loop knows at each await point. */
  predicate Inv(s: State) {
    match s.pc
    case ComputeSta(_) => RadioAgrees(s)
    case ComputeNets(_) => RadioAgrees(s) && StaRead(s, true)
    case Head => RadioAgrees(s) && StateAgrees(s)
    case HeadReadAp(_) => RadioAgrees(s) && StateAgrees(s) && s.state.Connecting?
    case HeadSetConfig(cfg) =>
      RadioAgrees(s) && StateAgrees(s) && s.state.Connecting? && cfg.HasSta() && ApRead(s, cfg.HasAp())
    case Select => RadioAgrees(s) && StateAgrees(s)
    case Disconnecting(branch) =>
      if branch.ConnectBranch? then RadioAgrees(s) else s.untouched ==> s.radio == BOOT_RADIO
    case ApplyStop(after) => StartupState(s, after) && (s.untouched ==> s.radio == BOOT_RADIO)
    case ApplyReadSta(after) => StartupState(s, after) && !s.radio.started && !s.untouched
    case ApplyReadAp(after, staOn) =>
      StartupState(s, after) && !s.radio.started && !s.untouched && StaRead(s, staOn)
    case ApplySetConfig(after, cfg) =>
      StartupState(s, after) && !s.untouched && ModeRead(s, cfg) && (cfg.HasAp() || cfg.HasSta())
    case ApplyStart(after) =>
      StartupState(s, after) && !s.untouched && ModeRead(s, s.radio.mode)
      && (s.radio.mode.HasAp() || s.radio.mode.HasSta())
    case FailReadNets => RadioAgrees(s)
    case Delay => RadioAgrees(s)
  }

  /** From `s` to `t` the loop stood still, and every changed switch was signalled. */
  predicate Signalled(s: State, t: State) {
    && t == s.(config := t.config, signals := t.signals)
    && ApRead(t, s.config.apEnabled) && StaRead(t, s.config.staEnabled)
    && (s.signals.apReconfig ==> t.signals.apReconfig)
    && (s.signals.staToggled ==> t.signals.staToggled)
  }

  lemma CallsSignal(s: State, call: Call)
    ensures Signalled(s, EnvStep(s, call))
  {
  }

  /** No reading goes stale unnoticed, so the invariant survives any manager call. */
  lemma SignalledKeepsInv(s: State, t: State)
    requires Inv(s) && Signalled(s, t)
    ensures Inv(t)
  {
  }

  predicate Applying(pc: Pc) {
    pc.ApplyStop? || pc.ApplyReadSta? || pc.ApplyReadAp? || pc.ApplySetConfig? || pc.ApplyStart?
  }

  lemma ApplyKeepsInv(s: State, ok: bool, poll: Option<StateEvent>)
    requires Inv(s) && Applying(s.pc)
    ensures Inv(TaskStep(s, ok, poll))
  {
    match s.pc
    case ApplyStart(after) => StartKeepsInv(s, ok, poll);
    case ApplyReadAp(after, staOn) => ReadApKeepsInv(s, ok, poll);
    case _ =>
  }

  lemma StartKeepsInv(s: State, ok: bool, poll: Option<StateEvent>)
    requires Inv(s) && s.pc.ApplyStart?
    ensures Inv(TaskStep(s, ok, poll))
  {
  }

  lemma ReadApKeepsInv(s: State, ok: bool, poll: Option<StateEvent>)
    requires Inv(s) && s.pc.ApplyReadAp?
    ensures Inv(TaskStep(s, ok, poll))
  {
  }

  lemma SetConfigKeepsInv(s: State, ok: bool, poll: Option<StateEvent>)
    requires Inv(s) && s.pc.HeadSetConfig?
    ensures Inv(TaskStep(s, ok, poll))
  {
  }

  /** Leaving the select for a signal consumes the excuse, but only to act on it;
      leaving it for an event happens only when there was no excuse to lose. */
  lemma SelectKeepsInv(s: State, poll: Option<StateEvent>)
    requires Inv(s) && s.pc.Select?
    ensures Inv(PollSelect(s, poll))
  {
    if s.signals.apReconfig || s.signals.staToggled || s.signals.connectRequest.Some? {
    } else {
      EventKeepsInv(s, poll);
    }
  }

  lemma EventKeepsInv(s: State, poll: Option<StateEvent>)
    requires Inv(s) && s.pc.Select? && Quiet(s.signals)
    ensures Inv(PollSelect(s, poll))
  {
  }

  /** `compute_state` reads the switch first, so a state it got wrong is signalled. */
  lemma ComputeKeepsInv(s: State, ok: bool, poll: Option<StateEvent>)
    requires Inv(s) && (s.pc.ComputeSta? || s.pc.ComputeNets?)
    ensures Inv(TaskStep(s, ok, poll))
  {
  }

  /** The remaining steps only read configuration, so the radio obligations carry over. */
  lemma ReadsKeepInv(s: State, ok: bool, poll: Option<StateEvent>)
    requires Inv(s) && !Applying(s.pc) && !s.pc.Select? && !s.pc.HeadSetConfig? && !s.pc.ComputeSta? && !s.pc.ComputeNets?
    ensures Inv(TaskStep(s, ok, poll))
  {
    assert RadioAgrees(s) ==> RadioAgrees(TaskStep(s, ok, poll));
  }

  lemma {:induction false} TaskKeepsInv(s: State, ok: bool, poll: Option<StateEvent>)
    requires Inv(s)
    ensures Inv(TaskStep(s, ok, poll))
  {
    if Applying(s.pc) {
      ApplyKeepsInv(s, ok, poll);
    } else if s.pc.Select? {
      SelectKeepsInv(s, poll);
    } else if s.pc.HeadSetConfig? {
      SetConfigKeepsInv(s, ok, poll);
    } else if s.pc.ComputeSta? || s.pc.ComputeNets? {
      ComputeKeepsInv(s, ok, poll);
    } else {
      ReadsKeepInv(s, ok, poll);
    }
  }

  lemma {:induction false} StepKeepsInv(s: State, a: Action)
    requires Inv(s)
    ensures Inv(Step(s, a))
  {
    match a
    case Env(call) =>
      CallsSignal(s, call);
      SignalledKeepsInv(s, EnvStep(s, call));
    case Task(ok, poll) =>
      TaskKeepsInv(s, ok, poll);
  }

  /** Every await point of every run satisfies its invariant. */
  lemma {:induction false} RunKeepsInv(config: Config, signals: Signals, actions: seq<Action>)
    ensures Inv(Run(Boot(config, signals), actions))
    decreases |actions|
  {
    if actions == [] {
    } else {
      RunKeepsInv(config, signals, actions[..|actions| - 1]);
      StepKeepsInv(Run(Boot(config, signals), actions[..|actions| - 1]), actions[|actions| - 1]);
    }
  }

  /** `select4` is about to poll `connect_async`. */
  predicate PollsConnect(s: State) {
    s.pc.Select? && Quiet(s.signals) && s.state.Connecting?
  }

  /** Unless the last reconfiguration was cut short by a failed radio call, no run
      polls `connect_async` on a stopped radio, nor on one without a station
      interface. Earlier failures no longer matter once one has completed. */
  lemma ConnectOnlyWhenStaReady(config: Config, signals: Signals, actions: seq<Action>)
    ensures var s := Run(Boot(config, signals), actions);
            PollsConnect(s) && s.last.Completed? ==> StaReady(s.radio) && s.config.staEnabled
  {
    RunKeepsInv(config, signals, actions);
  }

  /** At each loop head the state is `StaDisabled` exactly when the station is
      disabled, unless STA_TOGGLED is still latched; and if the last
      reconfiguration completed, a stopped radio means the same excuse. */
  lemma LoopHeadAgreement(config: Config, signals: Signals, actions: seq<Action>)
    ensures var s := Run(Boot(config, signals), actions);
            s.pc.Head? ==>
              && (!s.signals.staToggled ==> (s.state.StaDisabled? <==> !s.config.staEnabled))
              && (s.last.Completed? && !s.radio.started ==> !s.config.staEnabled || s.signals.staToggled)
  {
    RunKeepsInv(config, signals, actions);
  }

  /** Whenever the loop waits with neither switch signal latched and its last
      reconfiguration complete, the radio runs exactly the configured interfaces,
      except that a radio not yet touched since start-up still runs both. */
  lemma QuiescentRadioMatchesConfig(config: Config, signals: Signals, actions: seq<Action>)
    ensures var s := Run(Boot(config, signals), actions);
            s.pc.Select? && !SwitchLatched(s) && s.last.Completed? ==>
              (Matches(s.radio, s.config) <==> !s.untouched || (s.config.apEnabled && s.config.staEnabled))
  {
    RunKeepsInv(config, signals, actions);
  }

  // ── Which failures stop the radio ──────────────────────────────────────────

  /** The endings that leave the radio stopped. */
  predicate LeavesStopped(last: Reconfig) {
    last == StopFailed(true) || last.ConfigFailed? || last.StartFailed?
  }

  /** Between reconfigurations the radio's power is as the last one left it. */
  predicate PowerAgrees(s: State) {
    if Applying(s.pc) && !s.pc.ApplyStop? then !s.radio.started
    else (LeavesStopped(s.last) ==> !s.radio.started) && (s.last == StopFailed(false) ==> s.radio.started)
  }

  lemma StepKeepsPower(s: State, a: Action)
    requires PowerAgrees(s)
    ensures PowerAgrees(Step(s, a))
  {
    if a.Task? && Applying(s.pc) {
      ApplyKeepsPower(s, a.ok, a.poll);
    } else if a.Task? && s.pc.Select? {
      SelectKeepsPower(s, a.poll);
    }
  }

  lemma ApplyKeepsPower(s: State, ok: bool, poll: Option<StateEvent>)
    requires PowerAgrees(s) && Applying(s.pc)
    ensures PowerAgrees(TaskStep(s, ok, poll))
  {
  }

  lemma SelectKeepsPower(s: State, poll: Option<StateEvent>)
    requires PowerAgrees(s) && s.pc.Select?
    ensures PowerAgrees(PollSelect(s, poll))
  {
  }

  lemma {:induction false} RunKeepsPower(config: Config, signals: Signals, actions: seq<Action>)
    ensures PowerAgrees(Run(Boot(config, signals), actions))
    decreases |actions|
  {
    if actions == [] {
    } else {
      RunKeepsPower(config, signals, actions[..|actions| - 1]);
      StepKeepsPower(Run(Boot(config, signals), actions[..|actions| - 1]), actions[|actions| - 1]);
    }
  }

  /** Exactly which failed calls lead to a poll of `connect_async` on a stopped
      radio: in the last reconfiguration, `set_config` or `start_async`, or
      `stop_async` on a radio that was already stopped. No other failure does. */
  lemma StoppedRadioPolledIff(config: Config, signals: Signals, actions: seq<Action>)
    ensures var s := Run(Boot(config, signals), actions);
            PollsConnect(s) ==> (!s.radio.started <==> LeavesStopped(s.last))
  {
    RunKeepsInv(config, signals, actions);
    RunKeepsPower(config, signals, actions);
  }

  // ── Start-up without interference ──────────────────────────────────────────

  /** Radio calls succeed and no other calls are made. */
  predicate Undisturbed(actions: seq<Action>) {
    forall i :: 0 <= i < |actions| ==> actions[i].Task? && actions[i].ok
  }

  /** Nothing ever makes the loop configure the radio. */
  predicate NothingToDo(c: Config) {
    c.staEnabled && c.networks == []
  }

  /** An undisturbed run from start-up: the loop touches the radio before its first
      select, unless there is nothing to do, and then it never does. */
  predicate StartingUp(c: Config, s: State) {
    && s.config == c && Quiet(s.signals) && s.last.Completed?
    && match s.pc
       case ComputeSta(first) => if first then s.untouched else s.untouched <==> NothingToDo(c)
       case ComputeNets(first) => c.staEnabled && if first then s.untouched else s.untouched <==> NothingToDo(c)
       case Head =>
         && (s.state.NoNetworks? || s.state.Connecting? ==> s.state == StateFor(c.networks, s.netIdx))
         && (s.state.Connected? ==> c.networks != [])
         && (s.state.Connecting? || (s.untouched <==> NothingToDo(c)))
       case HeadReadAp(_) => c.networks != []
       case HeadSetConfig(_) => c.networks != []
       case Select => (s.untouched <==> NothingToDo(c)) && (s.state.Connecting? || s.state.Connected? ==> c.networks != [])
       case Disconnecting(_) => false
       case ApplyStop(_) => !c.staEnabled && s.state.StaDisabled?
       case ApplyReadSta(_) => !c.staEnabled && s.state.StaDisabled? && !s.untouched
       case ApplyReadAp(_, _) => !c.staEnabled && s.state.StaDisabled? && !s.untouched
       case ApplySetConfig(_, _) => !c.staEnabled && s.state.StaDisabled? && !s.untouched
       case ApplyStart(_) => !c.staEnabled && s.state.StaDisabled? && !s.untouched
       case FailReadNets => c.networks != [] && !s.untouched
       case Delay => c.networks != [] && !s.untouched
  }

  lemma StepKeepsStartingUp(c: Config, s: State, a: Action)
    requires StartingUp(c, s) && a.Task? && a.ok
    ensures StartingUp(c, TaskStep(s, a.ok, a.poll))
  {
  }

  lemma {:induction false} RunKeepsStartingUp(c: Config, actions: seq<Action>)
    requires Undisturbed(actions)
    ensures StartingUp(c, Run(Boot(c, Signals(false, false, None)), actions))
    decreases |actions|
  {
    if actions == [] {
    } else {
      var prior := actions[..|actions| - 1];
      RunKeepsStartingUp(c, prior);
      StepKeepsStartingUp(c, Run(Boot(c, Signals(false, false, None)), prior), actions[|actions| - 1]);
    }
  }

  /** What a device does when booted and left alone: at every select the radio runs
      the configured interfaces exactly if the access point is enabled, or the
      station is disabled, or some network is saved. */
  lemma BootedRadioMatchesIff(c: Config, actions: seq<Action>)
    requires Undisturbed(actions)
    ensures var s := Run(Boot(c, Signals(false, false, None)), actions);
            s.pc.Select? ==> (Matches(s.radio, s.config) <==> c.apEnabled || !c.staEnabled || c.networks != [])
  {
    RunKeepsStartingUp(c, actions);
    QuiescentRadioMatchesConfig(c, Signals(false, false, None), actions);
  }

  /** No radio call of these actions failed. */
  predicate NoFailure(actions: seq<Action>) {
    forall i :: 0 <= i < |actions| && actions[i].Task? ==> actions[i].ok
  }

  /** Extends a run by one action. */
  lemma Extend(s: State, actions: seq<Action>, a: Action) returns (longer: seq<Action>)
    ensures longer == actions + [a]
    ensures Run(s, longer) == Step(Run(s, actions), a)
    ensures NoFailure(actions) && (a.Task? ==> a.ok) ==> NoFailure(longer)
  {
    longer := actions + [a];
    assert longer[..|longer| - 1] == actions;
  }

  /** The exception is real: booted with the access point disabled and no saved
      network, the loop waits quietly beside a radio that still beacons. */
  lemma BootedApOutlivesItsSwitch()
    ensures exists actions :: var s := Run(Boot(Config(false, true, []), Signals(false, false, None)), actions);
              s.pc.Select? && Quiet(s.signals) && s.last.Completed? && s.radio.mode.HasAp() && !s.config.apEnabled
  {
    var s := Boot(Config(false, true, []), Signals(false, false, None));
    var step := Task(true, None);
    var a1 := Extend(s, [], step);
    var a2 := Extend(s, a1, step);
    var a3 := Extend(s, a2, step);
    assert Run(s, a3).pc.Select?;
  }

  /** A run that stands before the two calls of a restart. */
  lemma {:induction false} ReachRestart(w: Network) returns (actions: seq<Action>, s: State)
    ensures s == Run(Boot(Config(true, true, [w]), Signals(true, false, None)), actions) && NoFailure(actions)
    ensures s.config == Config(true, true, [w]) && Quiet(s.signals) && !s.radio.started && s.netIdx == 0
    ensures s.pc == ApplySetConfig(Recompute(false), ApSta(DUMMY_STA))
  {
    hide NoFailure;
    NothingFailed();
    var boot := Boot(Config(true, true, [w]), Signals(true, false, None));
    var step := Task(true, None);
    var a1 := Extend(boot, [], step);
    assert Run(boot, a1) == boot.(pc := ComputeNets(true));
    var a2 := Extend(boot, a1, step);
    assert Run(boot, a2) == boot.(state := Connecting(0), pc := Head);
    var a3 := Extend(boot, a2, step);
    assert Run(boot, a3) == boot.(state := Connecting(0), pc := HeadReadAp(w));
    var a4 := Extend(boot, a3, step);
    assert Run(boot, a4) == boot.(state := Connecting(0), pc := HeadSetConfig(ApSta(w)));
    var a5 := Extend(boot, a4, step);
    var a6 := Extend(boot, a5, step);
    actions, s := RestartFrom(boot, a6);
  }

  lemma {:induction false} RestartFrom(boot: State, prior: seq<Action>) returns (actions: seq<Action>, s: State)
    requires var p := Run(boot, prior); p.pc == ApplyStop(Recompute(false)) && p.config.staEnabled && p.config.apEnabled
    ensures s == Run(boot, actions) && s.pc == ApplySetConfig(Recompute(false), ApSta(DUMMY_STA)) && !s.radio.started
    ensures NoFailure(prior) ==> NoFailure(actions)
    ensures var p := Run(boot, prior); s == p.(pc := s.pc, radio := s.radio, untouched := false)
  {
    hide NoFailure;
    var step := Task(true, None);
    var a7 := Extend(boot, prior, step);
    assert Run(boot, a7).pc.ApplyReadSta?;
    var a8 := Extend(boot, a7, step);
    assert Run(boot, a8).pc == ApplyReadAp(Recompute(false), true);
    actions := Extend(boot, a8, step);
    s := Run(boot, actions);
  }

  /** From a recomputation with one saved network the loop comes to a poll, whatever
      the radio's power. */
  lemma PolledFrom(boot: State, prior: seq<Action>) returns (more: seq<Action>)
    requires var p := Run(boot, prior);
             p.pc == ComputeSta(false) && p.config.staEnabled && |p.config.networks| == 1 && Quiet(p.signals) && p.netIdx == 0
    ensures var p, s := Run(boot, prior), Run(boot, prior + more);
            PollsConnect(s) && s.radio.started == p.radio.started && s.last == p.last && NoFailure(more)
  {
    hide NoFailure;
    var p := Run(boot, prior);
    var step := Task(true, None);
    var a2 := Extend(boot, prior, step);
    assert Run(boot, a2) == p.(pc := ComputeNets(false));
    var a3 := Extend(boot, a2, step);
    assert Run(boot, a3) == p.(state := Connecting(0), pc := Head);
    var a4 := Extend(boot, a3, step);
    var a5 := Extend(boot, a4, step);
    var a6 := Extend(boot, a5, step);
    assert PollsConnect(Run(boot, a6));
    more := FiveSteps(prior, step);
  }

  lemma FiveSteps(prior: seq<Action>, step: Action) returns (more: seq<Action>)
    requires step.Task? && step.ok
    ensures NoFailure(more) && prior + more == prior + [step] + [step] + [step] + [step] + [step]
  {
    more := [step, step, step, step, step];
  }

  /** A run that stands before `stop_async` on a radio a completed reconfiguration
      had left off: both interfaces disabled at boot, then the station enabled. */
  lemma {:induction false} ReachStop(w: Network) returns (actions: seq<Action>, s: State)
    ensures s == Run(Boot(Config(false, false, [w]), Signals(false, false, None)), actions) && NoFailure(actions)
    ensures s.config == Config(false, true, [w]) && Quiet(s.signals) && !s.radio.started
    ensures s.pc == ApplyStop(Recompute(true))
  {
    hide NoFailure;
    NothingFailed();
    var boot := Boot(Config(false, false, [w]), Signals(false, false, None));
    var step := Task(true, None);
    var a1 := Extend(boot, [], step);
    var a2 := Extend(boot, a1, step);
    assert Run(boot, a2).pc == ApplyReadSta(EnterLoop);
    var a3 := Extend(boot, a2, step);
    assert Run(boot, a3).pc == ApplyReadAp(EnterLoop, false);
    var a4 := Extend(boot, a3, step);
    var a5 := Extend(boot, a4, step);
    assert Run(boot, a5) == boot.(radio := boot.radio.(started := false), untouched := false, pc := Select);
    var a6 := Extend(boot, a5, Env(SetStaEnabled(true)));
    actions := Extend(boot, a6, step);
    s := Run(boot, actions);
  }

  lemma NothingFailed()
    ensures NoFailure([])
  {
  }

  /** A poll on a stopped radio, by a single failed call and none before or after it. */
  ghost predicate PolledStopped(last: Reconfig) {
    exists c, g, before, after ::
      var s := Run(Boot(c, g), before + [Task(false, None)] + after);
      PollsConnect(s) && !s.radio.started && s.last == last && NoFailure(before) && NoFailure(after)
  }

  lemma {:induction false} FailureIsPolledStopped(c: Config, g: Signals, before: seq<Action>, last: Reconfig)
    requires NoFailure(before)
    requires var s := Step(Run(Boot(c, g), before), Task(false, None));
             && s.pc == ComputeSta(false) && s.config.staEnabled && |s.config.networks| == 1 && Quiet(s.signals) && s.netIdx == 0
             && !s.radio.started && s.last == last
    ensures PolledStopped(last)
  {
    hide NoFailure;
    hide Step;
    var failed := Extend(Boot(c, g), before, Task(false, None));
    var after := PolledFrom(Boot(c, g), failed);
    assert PollsConnect(Run(Boot(c, g), before + [Task(false, None)] + after));
  }

  /** Each ending of `LeavesStopped` does lead to a poll of `connect_async` on a
      stopped radio: one failed `stop_async`, `set_config` or `start_async` is enough. */
  lemma {:induction false} FailedRestartIsPolledStopped(last: Reconfig)
    requires LeavesStopped(last)
    ensures PolledStopped(last)
  {
    hide NoFailure;
    hide PolledStopped;
    var w := Network("a", None);
    if last.StopFailed? {
      var before, s := ReachStop(w);
      FailureIsPolledStopped(Config(false, false, [w]), Signals(false, false, None), before, last);
    } else {
      var before, s := ReachRestart(w);
      if last.StartFailed? {
        before := Extend(Boot(Config(true, true, [w]), Signals(true, false, None)), before, Task(true, None));
      }
      FailureIsPolledStopped(Config(true, true, [w]), Signals(true, false, None), before, last);
    }
  }
}
