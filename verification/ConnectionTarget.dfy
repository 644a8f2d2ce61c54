/** Which network a connection attempt is for: what the loop last picked at its
    head, and when the radio was really given it. */
module ConnectionTarget {
  import opened Prelude
  import opened Connection
  import opened ConnectionSafety

  /** The loop's last pass through its head: the radio's mode when it came there, the
      network it read from the list, if its index was in range, and whether the
      radio then took that network's configuration. */
  datatype Aim = Aim(before: ModeConfig, read: Option<Network>, given: bool)

  /** A mode configuration whose station side is for network `w`. */
  predicate IsFor(mode: ModeConfig, w: Network) {
    mode.HasSta() && mode.sta == w
  }

  function NextAim(s: State, aim: Aim, a: Action): Aim {
    match a
    case Env(_) => aim
    case Task(ok, _) =>
      if s.pc.Head? then
        Aim(s.radio.mode,
            if s.state.Connecting? && s.state.idx < |s.config.networks| then Some(s.config.networks[s.state.idx]) else None,
            false)
      else if s.pc.HeadSetConfig? then aim.(given := ok)
      else aim
  }

  /** The last pass of a run. */
  function AimOf(s: State, actions: seq<Action>): Aim
    decreases |actions|
  {
    if actions == [] then Aim(s.radio.mode, None, false)
    else
      var prior := actions[..|actions| - 1];
      NextAim(Run(s, prior), AimOf(s, prior), actions[|actions| - 1])
  }

  /** What the radio's mode has to do with it, from the head to the select. */
  predicate AimAgrees(s: State, aim: Aim) {
    match s.pc
    case HeadReadAp(target) => aim == Aim(s.radio.mode, Some(target), false)
    case HeadSetConfig(cfg) => cfg.HasSta() && aim == Aim(s.radio.mode, Some(cfg.sta), false)
    case Select => if aim.given then aim.read.Some? && IsFor(s.radio.mode, aim.read.value) else s.radio.mode == aim.before
    case _ => true
  }

  lemma StepKeepsAim(s: State, aim: Aim, a: Action)
    requires AimAgrees(s, aim)
    ensures AimAgrees(Step(s, a), NextAim(s, aim, a))
  {
  }

  lemma {:induction false} RunKeepsAim(boot: State, actions: seq<Action>)
    requires boot.pc.ComputeSta?
    ensures AimAgrees(Run(boot, actions), AimOf(boot, actions))
    decreases |actions|
  {
    if actions == [] {
    } else {
      var prior := actions[..|actions| - 1];
      RunKeepsAim(boot, prior);
      StepKeepsAim(Run(boot, prior), AimOf(boot, prior), actions[|actions| - 1]);
    }
  }

  /** On every run, a poll of `connect_async` is for the network the loop last read,
      exactly if it read one, that is its index was in range, and the radio took
      the configuration or already had it. Otherwise the radio still has the
      mode it came to the loop head with. */
  lemma PollIsForPickedIff(config: Config, signals: Signals, actions: seq<Action>)
    ensures var s := Run(Boot(config, signals), actions);
            var aim := AimOf(Boot(config, signals), actions);
            PollsConnect(s) ==>
              && (aim.read.Some? && IsFor(s.radio.mode, aim.read.value) <==>
                    aim.read.Some? && (aim.given || IsFor(aim.before, aim.read.value)))
              && (!aim.given ==> s.radio.mode == aim.before)
  {
    RunKeepsAim(Boot(config, signals), actions);
  }

  /** Both ways to miss occur. The list shrinks after the state was computed, and with
      every radio call succeeding the loop polls for the placeholder with the
      empty SSID that the driver started with. */
  lemma {:induction false} ShrunkListPollsPlaceholder(w: Network)
    ensures exists actions :: var s := Run(Boot(Config(true, true, [w]), Signals(false, false, None)), actions);
              PollsConnect(s) && IsFor(s.radio.mode, DUMMY_STA) && NoFailure(actions)
  {
    var boot := Boot(Config(true, true, [w]), Signals(false, false, None));
    var step := Task(true, None);
    var a1 := Extend(boot, [], step);
    var a2 := Extend(boot, a1, step);
    assert Run(boot, a2) == boot.(state := Connecting(0), pc := Head);
    var a3 := Extend(boot, a2, Env(RemoveNetwork(0)));
    assert Run(boot, a3).config.networks == [];
    var a4 := Extend(boot, a3, step);
    assert PollsConnect(Run(boot, a4));
  }

  /** A failed `set_config` at the head leaves the placeholder in the same way. */
  lemma {:induction false} FailedConfigPollsPlaceholder(w: Network)
    ensures exists actions :: var s := Run(Boot(Config(true, true, [w]), Signals(false, false, None)), actions);
              PollsConnect(s) && IsFor(s.radio.mode, DUMMY_STA) && s.config.networks == [w] && s.last.Completed?
  {
    var boot := Boot(Config(true, true, [w]), Signals(false, false, None));
    var step := Task(true, None);
    var a1 := Extend(boot, [], step);
    var a2 := Extend(boot, a1, step);
    assert Run(boot, a2) == boot.(state := Connecting(0), pc := Head);
    var a3 := Extend(boot, a2, step);
    var a4 := Extend(boot, a3, step);
    assert Run(boot, a4).pc == HeadSetConfig(ApSta(w));
    var a5 := Extend(boot, a4, Task(false, None));
    assert PollsConnect(Run(boot, a5));
  }
}
