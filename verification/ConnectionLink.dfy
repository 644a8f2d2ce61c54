/** What the loop reacts to, and what it does about the link, over every run: each
    signal is kept until it is taken, the state says whether a connection stands,
    and the loop rests after every failure. */
module ConnectionLink {
  import opened Prelude
  import opened Connection
  import opened ConnectionSafety

  // ── Signals and events ─────────────────────────────────────────────────────

  /** What the select takes: the first of the three signals in its order, or else the
      event of the state action, if polled ready. */
  datatype Taken = Reconfigure | Toggle | Request | Heard(event: StateEvent) | Nothing

  /** The events of each state. */
  predicate EventOf(state: ConnState, event: StateEvent) {
    match event
    case Timeout => state.NoNetworks?
    case ConnOk => state.Connecting?
    case ConnFail => state.Connecting?
    case Disconnected => state.Connected?
  }

  function TakenBy(s: State, a: Action): Taken {
    if !s.pc.Select? || a.Env? then Nothing
    else if s.signals.apReconfig then Reconfigure
    else if s.signals.staToggled then Toggle
    else if s.signals.connectRequest.Some? then Request
    else if a.poll.Some? && EventOf(s.state, a.poll.value) then Heard(a.poll.value)
    else Nothing
  }

  /** The calls that raise each signal. */
  function Raised(g: Signals, a: Action): Signals {
    match a
    case Env(SetApEnabled(_)) => g.(apReconfig := true)
    case Env(ChangeApCredentials) => g.(apReconfig := true)
    case Env(SetStaEnabled(_)) => g.(staToggled := true)
    case Env(NotifyStaToggled) => g.(staToggled := true)
    case Env(RequestConnect(i)) => g.(connectRequest := Some(i))
    case _ => g
  }

  /** What should be latched: every signal raised and not taken since, a later request
      in place of an earlier one. */
  function Pending(s: State, actions: seq<Action>): Signals
    decreases |actions|
  {
    if actions == [] then s.signals
    else
      var prior := actions[..|actions| - 1];
      var a := actions[|actions| - 1];
      var g := Raised(Pending(s, prior), a);
      match TakenBy(Run(s, prior), a)
      case Reconfigure => g.(apReconfig := false)
      case Toggle => g.(staToggled := false)
      case Request => g.(connectRequest := None)
      case _ => g
  }

  /** On every run, no signal is lost or invented: taking one leaves the others. */
  lemma {:induction false} SignalsAreKept(s: State, actions: seq<Action>)
    ensures Run(s, actions).signals == Pending(s, actions)
    decreases |actions|
  {
    if actions == [] {
    } else {
      var prior := actions[..|actions| - 1];
      SignalsAreKept(s, prior);
      StepKeepsSignals(Run(s, prior), actions[|actions| - 1]);
    }
  }

  lemma StepKeepsSignals(s: State, a: Action)
    ensures Step(s, a).signals ==
              match TakenBy(s, a)
              case Reconfigure => s.signals.(apReconfig := false)
              case Toggle => s.signals.(staToggled := false)
              case Request => s.signals.(connectRequest := None)
              case _ => Raised(s.signals, a)
  {
  }

  /** What each thing taken leads to: the connection, if any, is dropped first for a
      signal; a reconfiguration or toggle goes on to the radio, a request to the
      list with its own index; every event has its own answer, and without
      anything to take the loop waits on as it is. */
  lemma TakenLeadsTo(s: State, ok: bool, poll: Option<StateEvent>)
    requires s.pc.Select?
    ensures var t := TaskStep(s, ok, poll);
            match TakenBy(s, Task(ok, poll))
            case Reconfigure => t.pc == if s.state.Connected? then Disconnecting(ApBranch) else ApplyStop(Recompute(false))
            case Toggle => t.pc == if s.state.Connected? then Disconnecting(StaBranch) else ApplyStop(Recompute(true))
            case Request =>
              if s.state.Connected? then t.pc == Disconnecting(ConnectBranch(s.signals.connectRequest.value))
              else t.pc == ComputeSta(false) && t.netIdx == s.signals.connectRequest.value
            case Heard(Timeout) => t == s.(pc := ComputeSta(false))
            case Heard(ConnOk) => t.pc.Head? && t.state == Connected(s.netIdx) && t.netIdx == s.netIdx
            case Heard(ConnFail) => t.pc.FailReadNets? && t.netIdx == s.netIdx
            case Heard(Disconnected) => t.pc.Delay? && t.netIdx == 0
            case Nothing => t == s
  {
  }

  /** The loop's index moves only so: to the one requested, to 0 when a toggle has been
      dealt with or a connection was lost, and after a failed attempt one on along
      the ring, if any network is saved. */
  lemma IndexMoves(s: State, ok: bool, poll: Option<StateEvent>)
    ensures var t := TaskStep(s, ok, poll);
            var n := |s.config.networks|;
            if s.pc.FailReadNets? then t.netIdx == if n == 0 then s.netIdx else (s.netIdx + 1) % n
            else if Applying(s.pc) then t.netIdx == if t.pc == ComputeSta(false) && s.pc.after == Recompute(true) then 0 else s.netIdx
            else if s.pc.Disconnecting? then t.netIdx == if s.pc.branch.ConnectBranch? then s.pc.branch.requested else s.netIdx
            else if TakenBy(s, Task(ok, poll)) == Heard(Disconnected) then t.netIdx == 0
            else if TakenBy(s, Task(ok, poll)) == Request && !s.state.Connected? then t.netIdx == s.signals.connectRequest.value
            else t.netIdx == s.netIdx
  {
  }

  /** The mode a reconfiguration asks of the radio: the access point if it is enabled,
      and with the station enabled a station for no network yet; with both
      disabled it ends with the radio stopped. */
  lemma ReconfigurationMode(s: State, ok: bool, poll: Option<StateEvent>)
    requires s.pc.ApplyReadAp?
    ensures var t := TaskStep(s, ok, poll);
            var placeholder := Network("", None);
            if s.pc.staOn
            then t.pc == ApplySetConfig(s.pc.after, if s.config.apEnabled then ApSta(placeholder) else Client(placeholder))
            else if s.config.apEnabled then t.pc == ApplySetConfig(s.pc.after, AccessPoint)
            else t.pc == (if s.pc.after.EnterLoop? then Head else ComputeSta(false)) && t.radio == s.radio && t.last.Completed?
  {
  }

  // ── The link ───────────────────────────────────────────────────────────────

  /** Seen from outside: whether a connection stands, and whether the loop has yet to
      rest after a failed attempt or a lost connection. */
  datatype Link = Link(up: bool, restOwed: bool)

  /** The state action yields in this step: no signal is latched and it is polled. */
  predicate Hears(s: State, a: Action, event: StateEvent) {
    TakenBy(s, a) == Heard(event)
  }

  function NextLink(s: State, link: Link, a: Action): Link {
    if Hears(s, a, ConnOk) then Link(true, link.restOwed)
    else if Hears(s, a, Disconnected) then Link(false, true)
    else if Hears(s, a, ConnFail) then Link(link.up, true)
    else if a.Task? && s.pc.Disconnecting? then Link(false, link.restOwed)
    else if a.Task? && s.pc.Delay? then Link(link.up, false)
    else link
  }

  function LinkOf(s: State, actions: seq<Action>): Link
    decreases |actions|
  {
    if actions == [] then Link(false, false)
    else
      var prior := actions[..|actions| - 1];
      NextLink(Run(s, prior), LinkOf(s, prior), actions[|actions| - 1])
  }

  predicate LinkAgrees(s: State, link: Link) {
    && (link.restOwed <==> s.pc.FailReadNets? || (s.pc.Delay? && link.restOwed))
    && (link.up ==> s.state == Connected(s.netIdx))
    && match s.pc
       case Head => link.up <==> s.state.Connected?
       case Select => link.up <==> s.state.Connected?
       case Disconnecting(_) => link.up
       case HeadReadAp(_) => !link.up && s.state.Connecting?
       case HeadSetConfig(_) => !link.up && s.state.Connecting?
       case ApplyStop(after) => !link.up && StartsDisabled(s, after)
       case ApplyReadSta(after) => !link.up && StartsDisabled(s, after)
       case ApplyReadAp(after, _) => !link.up && StartsDisabled(s, after)
       case ApplySetConfig(after, _) => !link.up && StartsDisabled(s, after)
       case ApplyStart(after) => !link.up && StartsDisabled(s, after)
       case _ => !link.up
  }

  predicate StartsDisabled(s: State, after: After) {
    after.EnterLoop? ==> s.state.StaDisabled?
  }

  lemma StepKeepsLink(s: State, link: Link, a: Action)
    requires LinkAgrees(s, link)
    ensures LinkAgrees(Step(s, a), NextLink(s, link, a))
  {
    if s.pc.Select? {
      SelectKeepsLink(s, link, a);
    }
  }

  lemma SelectKeepsLink(s: State, link: Link, a: Action)
    requires LinkAgrees(s, link) && s.pc.Select?
    ensures LinkAgrees(Step(s, a), NextLink(s, link, a))
  {
  }

  lemma {:induction false} RunKeepsLink(config: Config, signals: Signals, actions: seq<Action>)
    ensures LinkAgrees(Run(Boot(config, signals), actions), LinkOf(Boot(config, signals), actions))
    decreases |actions|
  {
    if actions == [] {
    } else {
      var prior := actions[..|actions| - 1];
      RunKeepsLink(config, signals, prior);
      StepKeepsLink(Run(Boot(config, signals), prior), LinkOf(Boot(config, signals), prior), actions[|actions| - 1]);
    }
  }

  /** On every run, the loop's state says `Connected` at its head and in its select
      exactly while a connection stands, and names the index it was made under;
      the connection is taken down before the radio is stopped, and before another
      attempt is made. */
  lemma ConnectedIffLinked(config: Config, signals: Signals, actions: seq<Action>)
    ensures var s := Run(Boot(config, signals), actions);
            var up := LinkOf(Boot(config, signals), actions).up;
            && (s.pc.Head? || s.pc.Select? ==> (s.state.Connected? <==> up))
            && (up ==> s.state == Connected(s.netIdx))
            && (Applying(s.pc) || PollsConnect(s) ==> !up)
  {
    RunKeepsLink(config, signals, actions);
  }

  /** On every run, between a failed attempt or a lost connection and the next attempt
      the loop has rested: no poll of `connect_async` comes while a rest is owed. */
  lemma RestsAfterFailure(config: Config, signals: Signals, actions: seq<Action>)
    ensures var s := Run(Boot(config, signals), actions);
            PollsConnect(s) ==> !LinkOf(Boot(config, signals), actions).restOwed
  {
    RunKeepsLink(config, signals, actions);
  }
}
