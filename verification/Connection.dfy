/** The station connection loop of the AP+STA build, as a transition system.

    The loop task shares its configuration and three latched one-slot signals
    with the manager calls of other tasks, and any of those calls may run
    wherever the loop awaits. A program counter therefore names every await
    point; `TaskStep` runs the loop from one await to the next, and `EnvStep`
    is one manager call's RAM update together with its signal. */
module Connection {
  import opened Prelude

  datatype ConnState =
    | StaDisabled
    | NoNetworks
    | Connecting(idx: nat)
    | Connected(net: nat)

  datatype StateEvent = Timeout | ConnOk | ConnFail | Disconnected

  /** The radio's mode configuration; access-point credentials are not tracked. */
  datatype ModeConfig =
    | ModeNone
    | AccessPoint
    | Client(sta: Network)
    | ApSta(sta: Network)
  {
    predicate HasSta() { Client? || ApSta? }
    predicate HasAp() { AccessPoint? || ApSta? }
  }

  datatype Radio = Radio(started: bool, mode: ModeConfig)

  datatype Config = Config(apEnabled: bool, staEnabled: bool, networks: seq<Network>)

  /** AP_RECONFIG, STA_TOGGLED and CONNECT_REQUEST: each holds at most one value. */
  datatype Signals = Signals(apReconfig: bool, staToggled: bool, connectRequest: Option<nat>)

  /** What follows `apply_ap_reconfig`: the loop itself (at start-up), or a
      recomputation of the state, with `net_idx` cleared first after a toggle. */
  datatype After = EnterLoop | Recompute(clearIdx: bool)

  /** The three signal branches of the select. */
  datatype Branch = ApBranch | StaBranch | ConnectBranch(requested: nat)

  datatype Pc =
    | ComputeSta(first: bool)
    | ComputeNets(first: bool)
    | Head
    | HeadReadAp(target: Network)
    | HeadSetConfig(cfg: ModeConfig)
    | Select
    | Disconnecting(branch: Branch)
    | ApplyStop(after: After)
    | ApplyReadSta(after: After)
    | ApplyReadAp(after: After, staOn: bool)
    | ApplySetConfig(after: After, cfg: ModeConfig)
    | ApplyStart(after: After)
    | FailReadNets
    | Delay

  /** How the last `apply_ap_reconfig` ended; the driver's start-up counts as complete. */
  datatype Reconfig =
    | Completed
    | StopFailed(onStopped: bool)   // `stop_async` failed, on a radio already stopped or not
    | ConfigFailed                  // `set_config` failed after the stop
    | StartFailed                   // `start_async` failed

  /** `untouched` holds until the loop first reconfigures the radio, `last` says how
      its last reconfiguration ended, and `attempts` lists the mode configuration
      under which each completed connection attempt ran. */
  datatype State = State(
    config: Config, signals: Signals, radio: Radio,
    state: ConnState, netIdx: nat, pc: Pc,
    untouched: bool, last: Reconfig, attempts: seq<ModeConfig>)

  /** A station configuration with an empty SSID. */
  const DUMMY_STA := Network("", None)

  /** What the driver leaves behind: a started radio in the combined mode. */
  const BOOT_RADIO := Radio(true, ApSta(DUMMY_STA))

  /** The task on entry to `run_connection`, with any configuration and any
      signals already latched. */
  function Boot(config: Config, signals: Signals): State {
    State(config, signals, BOOT_RADIO, StaDisabled, 0, ComputeSta(true), true, Completed, [])
  }

  function BuildModeConfig(sta: Network, apActive: bool): ModeConfig {
    if apActive then ApSta(sta) else Client(sta)
  }

  /** The state computed by `compute_state` once the station is known enabled. */
  function StateFor(networks: seq<Network>, netIdx: nat): ConnState {
    if networks == [] then NoNetworks else Connecting(Min(netIdx, |networks| - 1))
  }

  /** The index tried after a failure. */
  function NextIdx(netIdx: nat, n: nat): nat {
    if n == 0 then netIdx else (netIdx + 1) % n
  }

  function Computed(s: State, state: ConnState, first: bool): State {
    s.(state := state, pc := if first && state.StaDisabled? then ApplyStop(EnterLoop) else Head)
  }

  function ApplyDone(s: State, after: After): State {
    match after
    case EnterLoop => s.(pc := Head)
    case Recompute(clear) => s.(netIdx := if clear then 0 else s.netIdx, pc := ComputeSta(false))
  }

  /** The body of a signal branch, after any disconnect. */
  function TakeBranch(s: State, branch: Branch): State {
    match branch
    case ApBranch => s.(pc := ApplyStop(Recompute(false)))
    case StaBranch => s.(pc := ApplyStop(Recompute(true)))
    case ConnectBranch(idx) => s.(netIdx := idx, pc := ComputeSta(false))
  }

  /** A signal branch disconnects first when connected. */
  function EnterBranch(s: State, branch: Branch): State {
    if s.state.Connected? then s.(pc := Disconnecting(branch)) else TakeBranch(s, branch)
  }

  /** The events `state_action` can produce in each state. */
  predicate Yields(state: ConnState, event: StateEvent) {
    match state
    case StaDisabled => false
    case NoNetworks => event.Timeout?
    case Connecting(_) => event.ConnOk? || event.ConnFail?
    case Connected(_) => event.Disconnected?
  }

  function HandleEvent(s: State, event: StateEvent): State {
    match event
    case Timeout => s.(pc := ComputeSta(false))
    case ConnOk =>
      s.(state := Connected(s.netIdx), attempts := s.attempts + [s.radio.mode], pc := Head)
    case ConnFail => s.(attempts := s.attempts + [s.radio.mode], pc := FailReadNets)
    case Disconnected => s.(netIdx := 0, pc := Delay)
  }

  predicate Quiet(g: Signals) {
    !g.apReconfig && !g.staToggled && g.connectRequest.None?
  }

  /** One poll of `select4`: the first ready future in order wins, so the state
      action is polled only when no signal is latched. */
  function PollSelect(s: State, poll: Option<StateEvent>): State {
    if s.signals.apReconfig then
      EnterBranch(s.(signals := s.signals.(apReconfig := false)), ApBranch)
    else if s.signals.staToggled then
      EnterBranch(s.(signals := s.signals.(staToggled := false)), StaBranch)
    else if s.signals.connectRequest.Some? then
      EnterBranch(s.(signals := s.signals.(connectRequest := None)), ConnectBranch(s.signals.connectRequest.value))
    else if poll.Some? && Yields(s.state, poll.value) then
      HandleEvent(s, poll.value)
    else
      s
  }

  /** The loop from one await to the next. `ok` is the result of a radio call
      made in this step; `poll` is what the state action yields, if polled. */
  function TaskStep(s: State, ok: bool, poll: Option<StateEvent>): State {
    match s.pc
    case ComputeSta(first) =>
      if s.config.staEnabled then s.(pc := ComputeNets(first)) else Computed(s, StaDisabled, first)
    case ComputeNets(first) =>
      Computed(s, StateFor(s.config.networks, s.netIdx), first)
    case Head =>
      if s.state.Connecting? && s.state.idx < |s.config.networks|
      then s.(pc := HeadReadAp(s.config.networks[s.state.idx]))
      else s.(pc := Select)
    case HeadReadAp(target) =>
      s.(pc := HeadSetConfig(BuildModeConfig(target, s.config.apEnabled)))
    case HeadSetConfig(cfg) =>
      if ok then s.(radio := s.radio.(mode := cfg), untouched := false, pc := Select)
      else s.(pc := Select)
    case Select => PollSelect(s, poll)
    case Disconnecting(branch) => TakeBranch(s, branch)
    case ApplyStop(after) =>
      if ok then s.(radio := s.radio.(started := false), untouched := false, pc := ApplyReadSta(after))
      else ApplyDone(s.(last := StopFailed(!s.radio.started)), after)
    case ApplyReadSta(after) => s.(pc := ApplyReadAp(after, s.config.staEnabled))
    case ApplyReadAp(after, staOn) =>
      if staOn then s.(pc := ApplySetConfig(after, BuildModeConfig(DUMMY_STA, s.config.apEnabled)))
      else if s.config.apEnabled then s.(pc := ApplySetConfig(after, AccessPoint))
      else ApplyDone(s.(last := Completed), after)
    case ApplySetConfig(after, cfg) =>
      if ok then s.(radio := s.radio.(mode := cfg), pc := ApplyStart(after))
      else ApplyDone(s.(last := ConfigFailed), after)
    case ApplyStart(after) =>
      if ok then ApplyDone(s.(radio := s.radio.(started := true), last := Completed), after)
      else ApplyDone(s.(last := StartFailed), after)
    case FailReadNets =>
      s.(netIdx := NextIdx(s.netIdx, |s.config.networks|), pc := Delay)
    case Delay => s.(pc := ComputeSta(false))
  }

  /** Manager calls of other tasks. */
  datatype Call =
    | SetApEnabled(enabled: bool)
    | SetStaEnabled(enabled: bool)
    | ChangeApCredentials
    | NotifyStaToggled
    | AddNetwork(network: Network)
    | RemoveNetwork(at: nat)
    | RequestConnect(index: nat)

  function EnvStep(s: State, call: Call): State {
    match call
    case SetApEnabled(b) =>
      s.(config := s.config.(apEnabled := b), signals := s.signals.(apReconfig := true))
    case SetStaEnabled(b) =>
      s.(config := s.config.(staEnabled := b), signals := s.signals.(staToggled := true))
    case ChangeApCredentials => s.(signals := s.signals.(apReconfig := true))
    case NotifyStaToggled => s.(signals := s.signals.(staToggled := true))
    case AddNetwork(w) => s.(config := s.config.(networks := s.config.networks + [w]))
    case RemoveNetwork(i) =>
      if i < |s.config.networks|
      then s.(config := s.config.(networks := s.config.networks[..i] + s.config.networks[i + 1..]))
      else s
    case RequestConnect(i) => s.(signals := s.signals.(connectRequest := Some(i)))
  }

  datatype Action =
    | Task(ok: bool, poll: Option<StateEvent>)
    | Env(call: Call)

  function Step(s: State, a: Action): State {
    match a
    case Task(ok, poll) => TaskStep(s, ok, poll)
    case Env(call) => EnvStep(s, call)
  }

  /** A run is any interleaving of task steps and manager calls. */
  function Run(s: State, actions: seq<Action>): State
    decreases |actions|
  {
    if actions == [] then s
    else Step(Run(s, actions[..|actions| - 1]), actions[|actions| - 1])
  }
}
