/** Why the environment of the connection loop is the right one: every manager
    call of the flash-backed configuration acts on the loop as a short sequence
    of its environment steps. */
module WifiLoop {
  import opened Prelude
  import opened Flash
  import opened WifiSpec
  import Loop = Connection

  /** The part of the RAM mirror the loop reads. */
  function ConfigOf(ram: Ram): Loop.Config {
    Loop.Config(ram.apEnabled, ram.staEnabled, ram.networks)
  }

  function Latch(g: Loop.Signals, raised: Raised): Loop.Signals {
    match raised
    case NoSignal => g
    case ApReconfig => g.(apReconfig := true)
    case StaToggled => g.(staToggled := true)
    case ConnectRequest(i) => g.(connectRequest := Some(i))
  }

  function EnvSteps(s: Loop.State, calls: seq<Loop.Call>): Loop.State
    decreases |calls|
  {
    if calls == [] then s else Loop.EnvStep(EnvSteps(s, calls[..|calls| - 1]), calls[|calls| - 1])
  }

  /** The environment steps a call amounts to. */
  function StepsOf(d: Driver, dev: Device, call: Call, n: nat): seq<Loop.Call> {
    var r := Handle(d, dev, call, n);
    if call.RemoveNetwork? then (if call.index < |dev.ram.networks| then [Loop.RemoveNetwork(call.index)] else [])
    else if r.outcome != Returned(true) then []
    else
      match call
      case SetApEnabled(on) => [Loop.SetApEnabled(on)]
      case SetStaEnabled(on) => [Loop.SetStaEnabled(on)]
      case AddNetwork(_, _) => [Loop.AddNetwork(r.dev.ram.networks[|r.dev.ram.networks| - 1])]
      case AddAndConnect(_, _) =>
        [Loop.AddNetwork(r.dev.ram.networks[|r.dev.ram.networks| - 1]), Loop.RequestConnect(|dev.ram.networks|)]
      case _ => [Loop.ChangeApCredentials]
  }

  lemma OneStep(s: Loop.State, c: Loop.Call)
    ensures EnvSteps(s, [c]) == Loop.EnvStep(s, c)
  {
  }

  lemma TwoSteps(s: Loop.State, c: Loop.Call, e: Loop.Call)
    ensures EnvSteps(s, [c, e]) == Loop.EnvStep(Loop.EnvStep(s, c), e)
  {
    assert [c, e][..1] == [c];
    OneStep(s, c);
  }

  predicate ActsAsSteps(d: Driver, dev: Device, call: Call, n: nat, s: Loop.State) {
    var r := Handle(d, dev, call, n);
    EnvSteps(s, StepsOf(d, dev, call, n)) == s.(config := ConfigOf(r.dev.ram), signals := Latch(s.signals, r.raised))
  }

  /** Text settings are invisible to the loop but for their signal. */
  lemma SettingsAreEnvSteps(d: Driver, dev: Device, call: Call, n: nat, s: Loop.State)
    requires s.config == ConfigOf(dev.ram)
    requires call.SetApSsid? || call.SetApPassword? || call.SetApGatewayIp? || call.SetHostname? || call.SetCountryCode? || call.ConfigureAp?
    ensures ActsAsSteps(d, dev, call, n, s)
  {
    hide Put;
    hide EnvSteps;
    var r := Handle(d, dev, call, n);
    assert ConfigOf(r.dev.ram) == ConfigOf(dev.ram);
    assert EnvSteps(s, []) == s by {
      EmptySteps(s);
    }
    OneStep(s, Loop.ChangeApCredentials);
  }

  lemma EmptySteps(s: Loop.State)
    ensures EnvSteps(s, []) == s
  {
  }

  lemma SwitchesAreEnvSteps(d: Driver, dev: Device, call: Call, n: nat, s: Loop.State)
    requires s.config == ConfigOf(dev.ram) && (call.SetApEnabled? || call.SetStaEnabled?)
    ensures ActsAsSteps(d, dev, call, n, s)
  {
  }

  lemma RemovalIsEnvStep(d: Driver, dev: Device, call: Call, n: nat, s: Loop.State)
    requires s.config == ConfigOf(dev.ram) && call.RemoveNetwork?
    ensures ActsAsSteps(d, dev, call, n, s)
  {
  }

  lemma AddsAreEnvSteps(d: Driver, dev: Device, call: Call, n: nat, s: Loop.State)
    requires s.config == ConfigOf(dev.ram) && (call.AddNetwork? || call.AddAndConnect?)
    ensures ActsAsSteps(d, dev, call, n, s)
  {
    hide WriteSlot;
    hide WriteSlots;
    hide EnvSteps;
    EmptySteps(s);
    var nets := Handle(d, dev, call, n).dev.ram.networks;
    if |nets| > |dev.ram.networks| {
      var w := nets[|nets| - 1];
      assert nets == dev.ram.networks + [w];
      OneStep(s, Loop.AddNetwork(w));
      TwoSteps(s, Loop.AddNetwork(w), Loop.RequestConnect(|dev.ram.networks|));
    }
  }

  /** A call changes the loop's configuration and signals exactly as those steps
      do, and nothing else of the loop; so the loop's theorems, which hold for
      every interleaving of environment steps, cover every manager call. */
  lemma CallsAreEnvSteps(d: Driver, dev: Device, call: Call, n: nat, s: Loop.State)
    requires s.config == ConfigOf(dev.ram)
    ensures ActsAsSteps(d, dev, call, n, s)
  {
    hide ActsAsSteps;
    match call {
      case SetApEnabled(_) => SwitchesAreEnvSteps(d, dev, call, n, s);
      case SetStaEnabled(_) => SwitchesAreEnvSteps(d, dev, call, n, s);
      case AddNetwork(_, _) => AddsAreEnvSteps(d, dev, call, n, s);
      case AddAndConnect(_, _) => AddsAreEnvSteps(d, dev, call, n, s);
      case RemoveNetwork(_) => RemovalIsEnvStep(d, dev, call, n, s);
      case _ => SettingsAreEnvSteps(d, dev, call, n, s);
    }
  }
}
