/** The settings across calls, boots and power cuts: the RAM mirror agrees with
    what the loading phase would read, and exactly which boots can break that. */
module WifiBoot {
  import opened Prelude
  import opened Flash
  import opened WifiSpec
  import opened WifiKeys
  import opened WifiSlots
  import opened WifiRuns

  // ── Mirror agreement ───────────────────────────────────────────────────────

  predicate SwitchesAgree(env: Env, dev: Device) {
    && dev.ram.apEnabled == FetchBool(dev.flash, KEY_AP_ENABLED).GetOr(env.apSsid.Some?)
    && dev.ram.staEnabled == FetchBool(dev.flash, KEY_STA_ENABLED).GetOr(env.staSsid.Some?)
  }

  predicate FieldsAgree(dev: Device) {
    forall field :: dev.ram.Get(field) == FetchText(dev.flash, Key(field))
  }

  predicate Agrees(env: Env, dev: Device) {
    SwitchesAgree(env, dev) && FieldsAgree(dev)
  }

  lemma LoadFieldGet(ram: Ram, f: Image, field: Field, other: Field)
    ensures var r := LoadField(ram, f, field);
            && r.Get(other) == (if other == field && FetchText(f, Key(field)).Some? then FetchText(f, Key(field)) else ram.Get(other))
            && r.apEnabled == ram.apEnabled && r.staEnabled == ram.staEnabled && r.networks == ram.networks
  {
  }

  lemma {:induction false} LoadScalarsGet(env: Env, f: Image)
    ensures var r := LoadScalars(Fresh(env), f);
            && (forall field :: r.Get(field) == FetchText(f, Key(field)))
            && r.apEnabled == FetchBool(f, KEY_AP_ENABLED).GetOr(env.apSsid.Some?)
            && r.staEnabled == FetchBool(f, KEY_STA_ENABLED).GetOr(env.staSsid.Some?)
            && r.networks == []
  {
    hide LoadField;
    var ram := Fresh(env);
    var r1 := ram.(apEnabled := FetchBool(f, KEY_AP_ENABLED).GetOr(ram.apEnabled));
    var a := LoadField(r1, f, ApSsid);
    var b := LoadField(a, f, ApPassword);
    var r2 := LoadField(b, f, ApGatewayIp);
    var r3 := r2.(staEnabled := FetchBool(f, KEY_STA_ENABLED).GetOr(r2.staEnabled));
    var c := LoadField(r3, f, Hostname);
    forall field ensures LoadField(c, f, CountryCode).Get(field) == FetchText(f, Key(field)) {
      LoadFieldGet(r1, f, ApSsid, field);
      LoadFieldGet(a, f, ApPassword, field);
      LoadFieldGet(b, f, ApGatewayIp, field);
      assert r3.Get(field) == r2.Get(field);
      LoadFieldGet(r3, f, Hostname, field);
      LoadFieldGet(c, f, CountryCode, field);
      assert r1.Get(field) == None;
      match field
      case _ =>
    }
    LoadFieldGet(r1, f, ApSsid, ApSsid);
    LoadFieldGet(a, f, ApPassword, ApSsid);
    LoadFieldGet(b, f, ApGatewayIp, ApSsid);
    LoadFieldGet(r3, f, Hostname, ApSsid);
    LoadFieldGet(c, f, CountryCode, ApSsid);
  }

  lemma SameRam(a: Ram, b: Ram)
    requires forall field :: a.Get(field) == b.Get(field)
    requires a.apEnabled == b.apEnabled && a.staEnabled == b.staEnabled && a.networks == b.networks
    ensures a == b
  {
    assert a.Get(ApSsid) == b.Get(ApSsid) && a.Get(ApPassword) == b.Get(ApPassword);
    assert a.Get(ApGatewayIp) == b.Get(ApGatewayIp) && a.Get(Hostname) == b.Get(Hostname);
    assert a.Get(CountryCode) == b.Get(CountryCode);
  }

  /** Agreement is exactly this: a reboot at this moment would load the mirror's
      settings unchanged. */
  lemma {:induction false} AgreesIffReloads(env: Env, dev: Device)
    ensures Agrees(env, dev) <==> LoadScalars(Fresh(env), dev.flash) == dev.ram.(networks := [])
  {
    hide LoadScalars;
    LoadScalarsGet(env, dev.flash);
    var r := LoadScalars(Fresh(env), dev.flash);
    var bare := dev.ram.(networks := []);
    assert forall field :: bare.Get(field) == dev.ram.Get(field);
    if Agrees(env, dev) {
      SameRam(r, bare);
    }
    if r == bare {
      assert forall field :: dev.ram.Get(field) == r.Get(field);
    }
  }

  lemma SetFieldKeepsAgrees(d: Driver, env: Env, dev: Device, field: Field, v: Text)
    ensures var dev' := SetField(d, dev, field, v).0;
            && (SwitchesAgree(env, dev) <==> SwitchesAgree(env, dev'))
            && (FieldsAgree(dev) ==> FieldsAgree(dev'))
  {
    var dev' := SetField(d, dev, field, v).0;
    if FieldsAgree(dev) {
      forall other ensures dev'.ram.Get(other) == FetchText(dev'.flash, Key(other)) {
        assert dev.ram.Get(other) == FetchText(dev.flash, Key(other));
      }
    }
  }

  lemma ScalarFrameKeepsAgrees(env: Env, dev: Device, dev': Device)
    requires SameScalars(dev.flash, dev'.flash)
    requires dev'.ram == dev.ram.(networks := dev'.ram.networks)
    ensures SwitchesAgree(env, dev) ==> SwitchesAgree(env, dev')
    ensures FieldsAgree(dev) ==> FieldsAgree(dev')
  {
  }

  lemma {:induction false} WriteSlotsFrame(d: Driver, f: Image, nets: seq<Network>, i: nat, n: nat)
    requires i <= n <= MAX_SLOTS
    ensures SameScalars(f, WriteSlots(d, f, nets, i, n).0)
    decreases n - i
  {
    if i < n {
      var w := SlotContents(nets, i);
      SlotWriteFrame(d, f, i, w, n);
      WriteSlotsFrame(d, WriteSlot(d, f, i, w).0, nets, i + 1, n);
    }
  }

  lemma SetTextKeepsAgrees(d: Driver, env: Env, dev: Device, field: Field, text: string)
    requires Agrees(env, dev)
    ensures Agrees(env, SetText(d, dev, field, text).0)
  {
    if TryText(text).Some? {
      SetFieldKeepsAgrees(d, env, dev, field, text);
    }
  }

  lemma SwitchKeepsAgrees(d: Driver, env: Env, dev: Device, on: bool, ap: bool)
    requires Agrees(env, dev)
    ensures Agrees(env, SetSwitch(d, dev, on, ap).dev)
  {
    SwitchKeepsFields(d, dev, on, ap);
  }

  lemma SwitchKeepsFields(d: Driver, dev: Device, on: bool, ap: bool)
    requires FieldsAgree(dev)
    ensures FieldsAgree(SetSwitch(d, dev, on, ap).dev)
  {
  }

  lemma ListCallKeepsAgrees(d: Driver, env: Env, dev: Device, call: Call, n: nat)
    requires n <= MAX_SLOTS && Agrees(env, dev)
    requires call.AddNetwork? || call.AddAndConnect? || call.RemoveNetwork?
    ensures Agrees(env, Handle(d, dev, call, n).dev)
  {
    var dev' := Handle(d, dev, call, n).dev;
    if call.RemoveNetwork? {
      if call.index < |dev.ram.networks| {
        WriteSlotsFrame(d, dev.flash, Without(dev.ram.networks, call.index), 0, n);
        ScalarFrameKeepsAgrees(env, dev, dev');
      }
    } else if |dev.ram.networks| < n && TryText(call.name).Some? {
      var w := Network(call.name, if call.pw.Some? then TryText(call.pw.value) else None);
      SlotWriteFrame(d, dev.flash, |dev.ram.networks|, w, n);
      ScalarFrameKeepsAgrees(env, dev, dev');
    }
  }

  /** Every manager call, whichever of its stores fail, keeps mirror and flash in
      agreement; a half-failed `configure_ap` and a failed removal included. */
  lemma {:induction false} CallKeepsAgrees(d: Driver, env: Env, dev: Device, call: Call, n: nat)
    requires n <= MAX_SLOTS && Agrees(env, dev)
    ensures Agrees(env, Handle(d, dev, call, n).dev)
  {
    hide SetText;
    hide SetSwitch;
    match call {
      case SetApEnabled(on) => SwitchKeepsAgrees(d, env, dev, on, true);
      case SetStaEnabled(on) => SwitchKeepsAgrees(d, env, dev, on, false);
      case SetApSsid(s) => SetTextKeepsAgrees(d, env, dev, ApSsid, s);
      case SetApPassword(s) => SetTextKeepsAgrees(d, env, dev, ApPassword, s);
      case SetApGatewayIp(s) => SetTextKeepsAgrees(d, env, dev, ApGatewayIp, s);
      case SetHostname(s) => SetTextKeepsAgrees(d, env, dev, Hostname, s);
      case SetCountryCode(s) => SetTextKeepsAgrees(d, env, dev, CountryCode, s);
      case ConfigureAp(ssid, pw) =>
        var d1 := if ssid.Some? then SetText(d, dev, ApSsid, ssid.value).0 else dev;
        if ssid.Some? {
          SetTextKeepsAgrees(d, env, dev, ApSsid, ssid.value);
        }
        if pw.Some? {
          SetTextKeepsAgrees(d, env, d1, ApPassword, pw.value);
        }
      case _ => ListCallKeepsAgrees(d, env, dev, call, n);
    }
  }

  // ── Agreement after a boot ─────────────────────────────────────────────────

  lemma SeedFieldKeepsAgrees(d: Driver, env: Env, dev: Device, missing: bool, field: Field)
    ensures var dev' := SeedField(d, dev, missing, field, env);
            && (SwitchesAgree(env, dev) <==> SwitchesAgree(env, dev'))
            && (FieldsAgree(dev) ==> FieldsAgree(dev'))
  {
    var v := Default(env, field);
    if missing && v.Some? && TryText(v.value).Some? {
      SetFieldKeepsAgrees(d, env, dev, field, v.value);
    }
  }

  lemma SeedBoolKeepsAgrees(d: Driver, env: Env, dev: Device, missing: bool, ap: bool)
    requires Agrees(env, dev)
    requires var key := if ap then KEY_AP_ENABLED else KEY_STA_ENABLED; missing ==> FetchBool(dev.flash, key).None?
    ensures Agrees(env, SeedBool(d, dev, missing, if ap then KEY_AP_ENABLED else KEY_STA_ENABLED,
                                 if ap then env.apSsid.Some? else env.staSsid.Some?))
  {
  }

  lemma {:induction false} SeedFrontAgrees(d: Driver, env: Env, loaded: Device)
    requires Agrees(env, loaded)
    ensures Agrees(env, SeedFront(d, env, loaded))
  {
    hide SeedField;
    hide SwitchesAgree;
    hide FieldsAgree;
    var r := loaded.ram;
    SeedBoolKeepsAgrees(d, env, loaded, FetchBool(loaded.flash, KEY_AP_ENABLED).None?, true);
    var d1 := SeedBool(d, loaded, FetchBool(loaded.flash, KEY_AP_ENABLED).None?, KEY_AP_ENABLED, env.apSsid.Some?);
    SeedBoolKeepsAgrees(d, env, d1, FetchBool(loaded.flash, KEY_STA_ENABLED).None?, false);
    var d2 := SeedBool(d, d1, FetchBool(loaded.flash, KEY_STA_ENABLED).None?, KEY_STA_ENABLED, env.staSsid.Some?);
    SeedFieldKeepsAgrees(d, env, d2, r.apSsid.None?, ApSsid);
    var d3 := SeedField(d, d2, r.apSsid.None?, ApSsid, env);
    SeedFieldKeepsAgrees(d, env, d3, r.apPassword.None?, ApPassword);
    var d4 := SeedField(d, d3, r.apPassword.None?, ApPassword, env);
    SeedFieldKeepsAgrees(d, env, d4, r.apGatewayIp.None?, ApGatewayIp);
  }

  /** The one lossy write of `init`: the environment's network is stored and
      mirrored, the station enabled in RAM, and then the store of the switch
      fails while flash still says disabled. */
  predicate LosesSwitch(d: Driver, dev: Device, missing: bool, env: Env) {
    && missing && EnvNetwork(env).Some?
    && (var (f, ok) := WriteSlot(d, dev.flash, 0, EnvNetwork(env).value); ok && !Put(d, f, KEY_STA_ENABLED, Bool(true)).1)
    && FetchBool(dev.flash, KEY_STA_ENABLED) == Some(false)
  }

  lemma {:induction false} SeedNetworkAgreesIff(d: Driver, env: Env, dev: Device, missing: bool, n: nat)
    requires Agrees(env, dev)
    ensures var dev' := SeedNetwork(d, dev, missing, env, n);
            FieldsAgree(dev') && (SwitchesAgree(env, dev') <==> !LosesSwitch(d, dev, missing, env))
  {
    if missing && EnvNetwork(env).Some? {
      var (f, ok) := WriteSlot(d, dev.flash, 0, EnvNetwork(env).value);
      SlotWriteFrame(d, dev.flash, 0, EnvNetwork(env).value, 1);
      var dev' := SeedNetwork(d, dev, missing, env, n);
      forall field ensures dev'.ram.Get(field) == FetchText(dev'.flash, Key(field)) {
        assert dev.ram.Get(field) == FetchText(dev.flash, Key(field));
        assert SameAt(dev.flash, f, Key(field));
      }
    }
  }

  /** After a boot with arbitrary store failures, mirror and flash agree exactly
      when that write was not lost. */
  lemma {:induction false} BootAgreesIff(d: Driver, env: Env, dev: Device, n: nat)
    ensures var front := SeedFront(d, env, Device(Load(Fresh(env), dev.flash, n), dev.flash));
            Agrees(env, Reboot(d, env, dev, n))
            <==> !LosesSwitch(d, front, LoadSlots([], dev.flash, 0, n) == [], env)
  {
    hide SeedField;
    hide SeedFront;
    hide SeedNetwork;
    hide LosesSwitch;
    hide LoadScalars;
    hide SwitchesAgree;
    hide FieldsAgree;
    var r := Load(Fresh(env), dev.flash, n);
    var loaded := Device(r, dev.flash);
    LoadedAgrees(env, dev.flash, n);
    SeedFrontAgrees(d, env, loaded);
    var front := SeedFront(d, env, loaded);
    SeedNetworkAgreesIff(d, env, front, r.networks == [], n);
    var d6 := SeedNetwork(d, front, r.networks == [], env, n);
    SeedFieldKeepsAgrees(d, env, d6, r.hostname.None?, Hostname);
    var d7 := SeedField(d, d6, r.hostname.None?, Hostname, env);
    SeedFieldKeepsAgrees(d, env, d7, r.countryCode.None?, CountryCode);
  }

  lemma {:induction false} LoadedAgrees(env: Env, f: Image, n: nat)
    ensures Agrees(env, Device(Load(Fresh(env), f, n), f)) && Load(Fresh(env), f, n).networks == LoadSlots([], f, 0, n)
  {
    hide LoadScalars;
    LoadScalarsGet(env, f);
    var r := LoadScalars(Fresh(env), f);
    var r' := Load(Fresh(env), f, n);
    assert forall field :: r'.Get(field) == r.Get(field);
  }

  // ── Which boots agree, whatever fails ──────────────────────────────────────

  /** Booting from this flash cannot lose the switch: some slot loads, or no
      network is configured, or the station is not stored as disabled. */
  predicate BootSafe(env: Env, f: Image, n: nat) {
    Reloaded(f, n) != [] || EnvNetwork(env).None? || FetchBool(f, KEY_STA_ENABLED) != Some(false)
  }

  /** The station switch after the defaults written before the network's. */
  lemma {:induction false} SeedFrontSwitch(d: Driver, env: Env, loaded: Device)
    requires env.staSsid.Some?
    ensures var front := SeedFront(d, env, loaded);
            FetchBool(front.flash, KEY_STA_ENABLED) == Some(false) <==> FetchBool(loaded.flash, KEY_STA_ENABLED) == Some(false)
  {
    hide SeedField;
    var r := loaded.ram;
    var d1 := SeedBool(d, loaded, FetchBool(loaded.flash, KEY_AP_ENABLED).None?, KEY_AP_ENABLED, env.apSsid.Some?);
    var d2 := SeedBool(d, d1, FetchBool(loaded.flash, KEY_STA_ENABLED).None?, KEY_STA_ENABLED, env.staSsid.Some?);
    SeedFieldSwitch(d, d2, r.apSsid.None?, ApSsid, env);
    var d3 := SeedField(d, d2, r.apSsid.None?, ApSsid, env);
    SeedFieldSwitch(d, d3, r.apPassword.None?, ApPassword, env);
    var d4 := SeedField(d, d3, r.apPassword.None?, ApPassword, env);
    SeedFieldSwitch(d, d4, r.apGatewayIp.None?, ApGatewayIp, env);
  }

  lemma SeedFieldSwitch(d: Driver, dev: Device, missing: bool, field: Field, env: Env)
    ensures FetchBool(SeedField(d, dev, missing, field, env).flash, KEY_STA_ENABLED) == FetchBool(dev.flash, KEY_STA_ENABLED)
  {
  }

  /** How many stores those defaults attempt does not depend on which succeed. */
  lemma {:induction false} SeedFrontAttempts(d: Driver, d': Driver, env: Env, loaded: Device)
    requires loaded.flash.mounted
    ensures SameAttempts(SeedFront(d, env, loaded), SeedFront(d', env, loaded))
  {
    hide SeedField;
    var r := loaded.ram;
    var a1 := SeedBool(d, loaded, FetchBool(loaded.flash, KEY_AP_ENABLED).None?, KEY_AP_ENABLED, env.apSsid.Some?);
    var b1 := SeedBool(d', loaded, FetchBool(loaded.flash, KEY_AP_ENABLED).None?, KEY_AP_ENABLED, env.apSsid.Some?);
    var a2 := SeedBool(d, a1, FetchBool(loaded.flash, KEY_STA_ENABLED).None?, KEY_STA_ENABLED, env.staSsid.Some?);
    var b2 := SeedBool(d', b1, FetchBool(loaded.flash, KEY_STA_ENABLED).None?, KEY_STA_ENABLED, env.staSsid.Some?);
    SeedFieldAttempts(d, d', a2, b2, r.apSsid.None?, ApSsid, env);
    var a3, b3 := SeedField(d, a2, r.apSsid.None?, ApSsid, env), SeedField(d', b2, r.apSsid.None?, ApSsid, env);
    SeedFieldAttempts(d, d', a3, b3, r.apPassword.None?, ApPassword, env);
    var a4, b4 := SeedField(d, a3, r.apPassword.None?, ApPassword, env), SeedField(d', b3, r.apPassword.None?, ApPassword, env);
    SeedFieldAttempts(d, d', a4, b4, r.apGatewayIp.None?, ApGatewayIp, env);
  }

  predicate SameAttempts(a: Device, b: Device) {
    a.flash.mounted && b.flash.mounted && a.flash.attempts == b.flash.attempts
  }

  lemma SeedFieldAttempts(d: Driver, d': Driver, a: Device, b: Device, missing: bool, field: Field, env: Env)
    requires SameAttempts(a, b)
    ensures SameAttempts(SeedField(d, a, missing, field, env), SeedField(d', b, missing, field, env))
  {
  }

  /** A boot ends in agreement whichever of its stores fail exactly if its flash
      meets `BootSafe`; otherwise losing one particular store breaks it. */
  lemma {:induction false} BootAlwaysAgreesIff(env: Env, dev: Device, n: nat)
    requires dev.flash.mounted
    ensures (forall d: Driver :: Agrees(env, Reboot(d, env, dev, n))) <==> BootSafe(env, dev.flash, n)
  {
    hide Reboot;
    hide SeedFront;
    hide Agrees;
    if BootSafe(env, dev.flash, n) {
      forall d: Driver ensures Agrees(env, Reboot(d, env, dev, n)) {
        SafeBootAgrees(d, env, dev, n);
      }
    } else {
      var loaded := Device(Load(Fresh(env), dev.flash, n), dev.flash);
      var limit := SeedFront(_ => true, env, loaded).flash.attempts + 2;
      var d: Driver := (a: nat) => a != limit;
      SeedFrontAttempts(_ => true, d, env, loaded);
      SeedFrontSwitch(d, env, loaded);
      var front := SeedFront(d, env, loaded);
      assert LosesSwitch(d, front, true, env);
      BootAgreesIff(d, env, dev, n);
      assert !Agrees(env, Reboot(d, env, dev, n));
    }
  }

  lemma SafeBootAgrees(d: Driver, env: Env, dev: Device, n: nat)
    requires BootSafe(env, dev.flash, n)
    ensures Agrees(env, Reboot(d, env, dev, n))
  {
    hide Reboot;
    hide SeedFront;
    hide Agrees;
    var loaded := Device(Load(Fresh(env), dev.flash, n), dev.flash);
    BootAgreesIff(d, env, dev, n);
    if env.staSsid.Some? {
      SeedFrontSwitch(d, env, loaded);
    }
  }

  // ── Whole runs ─────────────────────────────────────────────────────────────

  /** Every boot of the event starts from flash that meets `BootSafe`, and another
      store's write keeps off the settings' keys. */
  predicate BootsSafely(d: Driver, env: Env, dev: Device, e: Event, n: nat) {
    match e
    case Do(call) => var r := Handle(d, dev, call, n); r.outcome.SoftwareReset? ==> BootSafe(env, r.dev.flash, n)
    case PowerCycle => BootSafe(env, dev.flash, n)
    case Cut(call, k) => BootSafe(env, Handle(Cutoff(d, dev.flash.attempts + k), dev, call, n).dev.flash, n)
    case CutBoot(k) => BootSafe(env, Reboot(Cutoff(d, dev.flash.attempts + k), env, dev, n).flash, n)
    case AppWrite(key, _) => !IsScalarKey(key)
  }

  lemma {:induction false} EventKeepsAgrees(d: Driver, env: Env, dev: Device, e: Event, n: nat)
    requires n <= MAX_SLOTS && Agrees(env, dev) && BootsSafely(d, env, dev, e, n)
    ensures Agrees(env, StepEvent(d, env, dev, e, n))
  {
    hide Handle;
    hide Reboot;
    hide BootSafe;
    match e {
      case Do(call) =>
        var r := Handle(d, dev, call, n);
        CallKeepsAgrees(d, env, dev, call, n);
        if r.outcome.SoftwareReset? {
          SafeBootAgrees(d, env, r.dev, n);
        }
      case PowerCycle => SafeBootAgrees(d, env, dev, n);
      case Cut(call, k) => SafeBootAgrees(d, env, Handle(Cutoff(d, dev.flash.attempts + k), dev, call, n).dev, n);
      case CutBoot(k) => SafeBootAgrees(d, env, Reboot(Cutoff(d, dev.flash.attempts + k), env, dev, n), n);
      case AppWrite(key, v) => ScalarFrameKeepsAgrees(env, dev, StepEvent(d, env, dev, e, n));
    }
  }

  /** Over any run of calls, software resets, power cycles and power cuts, with
      arbitrary store failures, a reboot would load exactly the settings the RAM
      mirror holds, if every boot on the way is one that cannot lose the switch. */
  lemma {:induction false} MirrorAgreesOverRuns(d: Driver, env: Env, dev: Device, events: seq<Event>, n: nat)
    requires n <= MAX_SLOTS && Agrees(env, dev)
    requires forall k :: 0 <= k < |events| ==> BootsSafely(d, env, RunEvents(d, env, dev, events[..k], n), events[k], n)
    ensures var s := RunEvents(d, env, dev, events, n);
            Agrees(env, s) && LoadScalars(Fresh(env), s.flash) == s.ram.(networks := [])
    decreases |events|
  {
    hide BootsSafely;
    hide StepEvent;
    hide Agrees;
    hide LoadScalars;
    if events == [] {
    } else {
      var prior := events[..|events| - 1];
      assert forall k :: 0 <= k < |prior| ==> prior[..k] == events[..k] && prior[k] == events[k];
      MirrorAgreesOverRuns(d, env, dev, prior, n);
      EventKeepsAgrees(d, env, RunEvents(d, env, dev, prior, n), events[|events| - 1], n);
    }
    AgreesIffReloads(env, RunEvents(d, env, dev, events, n));
  }
}
