/** What each manager call and each boot does, told from its arguments, the text of
    the defaults and the keys of the flash layout. */
module WifiEffects {
  import opened Prelude
  import opened Flash
  import opened WifiSpec
  import opened WifiKeys
  import opened WifiSlots
  import opened WifiRuns
  import opened WifiBoot
  import opened WifiInit

  // ── Layout ─────────────────────────────────────────────────────────────────

  /** The network that the texts under a slot's two keys stand for. */
  function NetworkOf(ssid: Option<Text>, password: Option<Text>): Option<Network> {
    if ssid.None? || ssid.value == "" then None
    else Some(Network(ssid.value, if password == Some("") then None else password))
  }

  /** Which keys a slot is loaded from. */
  lemma SlotLayout(f: Image, n: nat, i: nat)
    requires i < n <= MAX_SLOTS
    ensures TableOf(f, n)[i] == NetworkOf(FetchText(f, 10 + 2 * i), FetchText(f, 11 + 2 * i))
  {
    SlotKeyValue(i);
  }

  /** Which key each setting is loaded from; the list is the occupied slots in order. */
  lemma {:induction false} LayoutLoads(env: Env, f: Image, n: nat)
    requires n <= MAX_SLOTS
    ensures var r := Load(Fresh(env), f, n);
            && r.apEnabled == FetchBool(f, 0).GetOr(env.apSsid.Some?)
            && r.apSsid == FetchText(f, 1) && r.apPassword == FetchText(f, 2) && r.apGatewayIp == FetchText(f, 3)
            && r.staEnabled == FetchBool(f, 4).GetOr(env.staSsid.Some?)
            && r.hostname == FetchText(f, 5) && r.countryCode == FetchText(f, 6)
            && r.networks == Compact(TableOf(f, n))
  {
    hide LoadScalars;
    hide FetchText;
    LoadedAgrees(env, f, n);
    var r := Load(Fresh(env), f, n);
    assert r.Get(ApSsid) == FetchText(f, Key(ApSsid)) && r.Get(ApPassword) == FetchText(f, Key(ApPassword));
    assert r.Get(ApGatewayIp) == FetchText(f, Key(ApGatewayIp)) && r.Get(Hostname) == FetchText(f, Key(Hostname));
    assert r.Get(CountryCode) == FetchText(f, Key(CountryCode));
    ReloadIsCompact(f, n);
  }

  /** The setting a text setter is for. */
  function Target(call: Call): Option<Field> {
    match call
    case SetApSsid(_) => Some(ApSsid)
    case SetApPassword(_) => Some(ApPassword)
    case SetApGatewayIp(_) => Some(ApGatewayIp)
    case SetCountryCode(_) => Some(CountryCode)
    case SetHostname(_) => Some(Hostname)
    case _ => None
  }

  /** A text setter succeeds exactly for acceptable text and a working store; then
      that setting is the text in mirror and flash, nothing else of either has
      changed, and the device resets or the loop is signalled as the setting
      requires. Otherwise mirror and flash contents are untouched. */
  lemma SetterEffect(d: Driver, dev: Device, call: Call, n: nat)
    requires Target(call).Some? && dev.flash.mounted
    ensures var r := Handle(d, dev, call, n);
            var field := Target(call).value;
            var good := |call.text| <= 64 && (call.SetCountryCode? ==> |call.text| == 2 && IsAscii(call.text));
            && (good && d(dev.flash.attempts) <==> r.outcome != Returned(false))
            && r.dev.flash.mounted
            && (r.outcome != Returned(false) ==>
                  && r.dev.ram == dev.ram.With(field, Some(call.text))
                  && r.dev.flash.cells == dev.flash.cells[Key(field) := Str(call.text)]
                  && (if field.ApSsid? || field.ApPassword? then r.outcome == Returned(true) && r.raised == ApReconfig
                      else r.outcome == SoftwareReset && r.raised == NoSignal))
            && (r.outcome == Returned(false) ==>
                  r.dev.ram == dev.ram && r.dev.flash.cells == dev.flash.cells && r.raised == NoSignal)
  {
  }

  /** The two switches succeed exactly if their store does; then mirror and flash
      hold the value and the loop is told which of them moved. */
  lemma SwitchEffect(d: Driver, dev: Device, on: bool, n: nat)
    requires dev.flash.mounted
    ensures var r := Handle(d, dev, SetApEnabled(on), n);
            && r.outcome == Returned(d(dev.flash.attempts)) && r.dev.flash.mounted
            && r.raised == (if d(dev.flash.attempts) then ApReconfig else NoSignal)
            && r.dev.ram == (if d(dev.flash.attempts) then dev.ram.(apEnabled := on) else dev.ram)
            && r.dev.flash.cells == (if d(dev.flash.attempts) then dev.flash.cells[0 := Bool(on)] else dev.flash.cells)
    ensures var r := Handle(d, dev, SetStaEnabled(on), n);
            && r.outcome == Returned(d(dev.flash.attempts)) && r.dev.flash.mounted
            && r.raised == (if d(dev.flash.attempts) then StaToggled else NoSignal)
            && r.dev.ram == (if d(dev.flash.attempts) then dev.ram.(staEnabled := on) else dev.ram)
            && r.dev.flash.cells == (if d(dev.flash.attempts) then dev.flash.cells[4 := Bool(on)] else dev.flash.cells)
  {
  }

  /** A half of `configure_ap` that is given is good if its text fits and its store,
      the next attempted, works. */
  predicate HalfGood(d: Driver, text: Option<string>, attempt: nat) {
    text.Some? ==> |text.value| <= 64 && d(attempt)
  }

  /** The name goes to key 1 and the password to key 2, each mirrored if its half is
      good, whatever becomes of the other; the call succeeds, and the loop is
      told, exactly if both are. */
  lemma ConfigureEffect(d: Driver, dev: Device, ssid: Option<string>, pw: Option<string>, n: nat)
    requires dev.flash.mounted
    ensures var r := Handle(d, dev, ConfigureAp(ssid, pw), n);
            var second := dev.flash.attempts + (if ssid.Some? && |ssid.value| <= 64 then 1 else 0);
            var ok1 := HalfGood(d, ssid, dev.flash.attempts);
            var ok2 := HalfGood(d, pw, second);
            var cells1 := if ssid.Some? && ok1 then dev.flash.cells[1 := Str(ssid.value)] else dev.flash.cells;
            && r.outcome == Returned(ok1 && ok2) && r.raised == (if ok1 && ok2 then ApReconfig else NoSignal)
            && r.dev.ram == dev.ram.(apSsid := if ssid.Some? && ok1 then Some(ssid.value) else dev.ram.apSsid,
                                     apPassword := if pw.Some? && ok2 then Some(pw.value) else dev.ram.apPassword)
            && r.dev.flash.cells == if pw.Some? && ok2 then cells1[2 := Str(pw.value)] else cells1
  {
  }

  // ── The list ───────────────────────────────────────────────────────────────

  /** An add succeeds exactly if name and password fit, the list is not full, and
      both stores work. Then the list ends in that name with that password, and
      the next slot's two keys hold them; nothing else has changed. */
  lemma {:induction false} AddEffect(d: Driver, dev: Device, name: string, pw: Option<string>, n: nat)
    requires n <= MAX_SLOTS && dev.flash.mounted
    ensures var (dev', ok) := Add(d, dev, name, pw, n);
            var at, a := |dev.ram.networks|, dev.flash.attempts;
            && (ok <==> |name| <= 64 && (pw.Some? ==> |pw.value| <= 64) && at < n && d(a) && d(a + 1))
            && dev'.flash.mounted
            && (ok ==>
                  && dev'.ram == dev.ram.(networks := dev.ram.networks + [Network(name, pw)])
                  && dev'.flash.cells == dev.flash.cells[10 + 2 * at := Str(name)][11 + 2 * at := Str(if pw.Some? then pw.value else "")]
                  && Holds(dev'.flash, at, Network(name, pw)))
            && (!ok ==> dev'.ram == dev.ram)
  {
    if |dev.ram.networks| < n {
      SlotKeyValue(|dev.ram.networks|);
    }
  }

  /** Both adding calls are that; the second also asks the loop for the network just
      added, by its index. */
  lemma {:induction false} AddCallsEffect(d: Driver, dev: Device, name: string, pw: Option<string>, n: nat)
    requires n <= MAX_SLOTS && dev.flash.mounted
    ensures var (dev', ok) := Add(d, dev, name, pw, n);
            && Handle(d, dev, AddNetwork(name, pw), n) == Result(dev', Returned(ok), NoSignal)
            && Handle(d, dev, AddAndConnect(name, pw), n)
               == Result(dev', Returned(ok), if ok then ConnectRequest(|dev.ram.networks|) else NoSignal)
  {
    hide Add;
    AddEffect(d, dev, name, pw, n);
  }

  /** After a successful named add to a list that matches its slots, with no stray
      slot, a reload returns the list and then that name with that password, an
      empty password as none. */
  lemma {:induction false} AddedReloads(d: Driver, dev: Device, name: string, pw: Option<string>, n: nat)
    requires n <= MAX_SLOTS && Sound(dev, n) && !Stray(TableOf(dev.flash, n), dev.ram.networks)
    requires name != "" && Add(d, dev, name, pw, n).1
    ensures Reloaded(Add(d, dev, name, pw, n).0.flash, n)
            == Reloaded(dev.flash, n) + [Network(name, if pw == Some("") then None else pw)]
  {
    hide Add;
    hide Compact;
    AddEffect(d, dev, name, pw, n);
    AddKeepsSound(d, dev, name, pw, n);
    AddLeavesNoStray(d, dev, name, pw, n);
    var dev' := Add(d, dev, name, pw, n).0;
    ReloadOfTracked(dev.flash, dev.ram.networks, n);
    ReloadOfTracked(dev'.flash, dev'.ram.networks, n);
    var nets := dev.ram.networks + [Network(name, pw)];
    assert nets[..|nets| - 1] == dev.ram.networks;
  }

  lemma {:induction false} AddLeavesNoStray(d: Driver, dev: Device, name: string, pw: Option<string>, n: nat)
    requires n <= MAX_SLOTS && Sound(dev, n) && Add(d, dev, name, pw, n).1
    ensures var dev' := Add(d, dev, name, pw, n).0; !Stray(TableOf(dev'.flash, n), dev'.ram.networks)
  {
    WriteSlotTable(d, dev.flash, |dev.ram.networks|, Network(name, if pw.Some? then TryText(pw.value) else None), n);
  }

  /** The driver carries out these attempts. */
  ghost predicate AllWork(d: Driver, from: nat, upto: nat) {
    forall a :: from <= a < upto ==> d(a)
  }

  /** The rewrite succeeds exactly if each of its stores does. */
  lemma {:induction false} RewriteSucceedsIff(d: Driver, f: Image, nets: seq<Network>, i: nat, n: nat)
    requires f.mounted && i <= n
    ensures WriteSlots(d, f, nets, i, n).1 <==> AllWork(d, f.attempts, f.attempts + 2 * (n - i))
    decreases n - i
  {
    hide SlotContents;
    hide SsidKey;
    hide PwKey;
    if i < n {
      var (g, ok) := WriteSlot(d, f, i, SlotContents(nets, i));
      assert ok <==> d(f.attempts) && d(f.attempts + 1);
      if ok {
        RewriteSucceedsIff(d, g, nets, i + 1, n);
        assert g.mounted && g.attempts == f.attempts + 2;
      }
    }
  }

  /** The first `n` pairs of slot keys hold the list's texts, and blanks after it. */
  predicate HoldsTexts(f: Image, nets: seq<Network>, n: nat)
    requires n <= MAX_SLOTS
  {
    && (forall i :: 0 <= i < n && i < |nets| ==>
          && FetchText(f, 10 + 2 * i) == Some(nets[i].ssid)
          && FetchText(f, 11 + 2 * i) == Some(if nets[i].password.Some? then nets[i].password.value else ""))
    && (forall k: Byte :: 10 + 2 * |nets| <= k < 10 + 2 * n ==> FetchText(f, k) == Some(""))
  }

  /** A removal in range takes that entry from the list, whatever its stores do, and
      succeeds exactly if all of them work; then the slots hold the rest of the
      list by text, and blanks after it. Out of range it does nothing. */
  lemma {:induction false} RemoveEffect(d: Driver, dev: Device, index: nat, n: nat)
    requires n <= MAX_SLOTS && dev.flash.mounted
    ensures var r := Handle(d, dev, RemoveNetwork(index), n);
            var nets := dev.ram.networks;
            if index >= |nets| then r == Result(dev, Returned(false), NoSignal)
            else
              && r.dev.ram == dev.ram.(networks := nets[..index] + nets[index + 1..]) && r.raised == NoSignal
              && r.outcome == Returned(AllWork(d, dev.flash.attempts, dev.flash.attempts + 2 * n))
    ensures var r := Handle(d, dev, RemoveNetwork(index), n);
            r.outcome == Returned(true) ==> HoldsTexts(r.dev.flash, r.dev.ram.networks, n)
  {
    if index < |dev.ram.networks| {
      hide WriteSlots;
      var nets := Without(dev.ram.networks, index);
      RewriteSucceedsIff(d, dev.flash, nets, 0, n);
      if Remove(d, dev, index, n).1 {
        RewriteHolds(d, dev, index, n);
      }
    }
  }

  /** The two texts of slot `i` after a complete rewrite. */
  lemma {:induction false} RewrittenTexts(f: Image, g: Image, nets: seq<Network>, n: nat, i: nat)
    requires i < n <= MAX_SLOTS && f.mounted && g.mounted && g.cells == AfterWrites(f, nets, 2 * n).cells
    ensures FetchText(g, 10 + 2 * i) == Some(SlotContents(nets, i).ssid)
    ensures FetchText(g, 11 + 2 * i) == Some(SlotContents(nets, i).password.GetOr(""))
  {
    AfterWritesAt(f, nets, 2 * n, i, n);
    SlotKeyValue(i);
  }

  lemma {:induction false} RewriteHolds(d: Driver, dev: Device, index: nat, n: nat)
    requires n <= MAX_SLOTS && dev.flash.mounted && index < |dev.ram.networks| && Remove(d, dev, index, n).1
    ensures HoldsTexts(Remove(d, dev, index, n).0.flash, Remove(d, dev, index, n).0.ram.networks, n)
  {
    hide AfterWrites;
    hide Without;
    hide FetchText;
    hide WriteSlots;
    var f, nets := dev.flash, Without(dev.ram.networks, index);
    AfterNoWrites(f, nets);
    var p := WriteSlotsIsPrefix(d, f, f, nets, 0, n);
    var g := Remove(d, dev, index, n).0.flash;
    forall i: nat | i < n && i < |nets|
      ensures FetchText(g, 10 + 2 * i) == Some(nets[i].ssid)
      ensures FetchText(g, 11 + 2 * i) == Some(if nets[i].password.Some? then nets[i].password.value else "")
    {
      RewrittenTexts(f, g, nets, n, i);
    }
    forall k: Byte | 10 + 2 * |nets| <= k < 10 + 2 * n ensures FetchText(g, k) == Some("") {
      RewrittenTexts(f, g, nets, n, (k - 10) / 2);
    }
  }

  // ── Boots ──────────────────────────────────────────────────────────────────

  /** A default that fits in 64 bytes. */
  function Fitting(default: Option<string>): Option<Text> {
    if default.Some? && |default.value| <= 64 then default else None
  }

  /** What flash has, or else the default. */
  function OrDefault(stored: Option<Text>, default: Option<string>): Option<Text> {
    if stored.Some? then stored else Fitting(default)
  }

  /** The fields in `done` have their default where flash had none; the rest of the
      mirror is as loaded. */
  predicate Seeded(env: Env, r: Ram, dev: Device, done: set<Field>) {
    forall field :: dev.ram.Get(field) == if field in done then OrDefault(r.Get(field), Default(env, field)) else r.Get(field)
  }

  /** The rest of the mirror is the same. */
  predicate SameRest(a: Ram, b: Ram) {
    a.networks == b.networks && a.apEnabled == b.apEnabled && a.staEnabled == b.staEnabled
  }

  lemma SeedFieldSeeds(d: Driver, env: Env, r: Ram, dev: Device, done: set<Field>, field: Field)
    requires NeverFails(d) && dev.flash.mounted && Seeded(env, r, dev, done) && field !in done
    ensures var dev' := SeedField(d, dev, r.Get(field).None?, field, env);
            dev'.flash.mounted && Seeded(env, r, dev', done + {field}) && SameRest(dev.ram, dev'.ram)
  {
    var dev' := SeedField(d, dev, r.Get(field).None?, field, env);
    forall other
      ensures dev'.ram.Get(other) == if other in done + {field} then OrDefault(r.Get(other), Default(env, other)) else r.Get(other)
    {
      assert dev.ram.Get(other) == if other in done then OrDefault(r.Get(other), Default(env, other)) else r.Get(other);
    }
  }

  lemma {:induction false} SeedFrontSeeds(d: Driver, env: Env, loaded: Device)
    requires NeverFails(d) && loaded.flash.mounted
    ensures var front := SeedFront(d, env, loaded);
            && front.flash.mounted && Seeded(env, loaded.ram, front, {ApSsid, ApPassword, ApGatewayIp})
            && SameRest(loaded.ram, front.ram)
  {
    hide SeedField;
    hide Seeded;
    var r := loaded.ram;
    var d1 := SeedBool(d, loaded, FetchBool(loaded.flash, KEY_AP_ENABLED).None?, KEY_AP_ENABLED, env.apSsid.Some?);
    var d2 := SeedBool(d, d1, FetchBool(loaded.flash, KEY_STA_ENABLED).None?, KEY_STA_ENABLED, env.staSsid.Some?);
    UnseededIsSeeded(env, r, d2);
    SeedFieldSeeds(d, env, r, d2, {}, ApSsid);
    var d3 := SeedField(d, d2, r.apSsid.None?, ApSsid, env);
    assert {} + {ApSsid} == {ApSsid};
    SeedFieldSeeds(d, env, r, d3, {ApSsid}, ApPassword);
    var d4 := SeedField(d, d3, r.apPassword.None?, ApPassword, env);
    assert {ApSsid} + {ApPassword} == {ApSsid, ApPassword};
    SeedFieldSeeds(d, env, r, d4, {ApSsid, ApPassword}, ApGatewayIp);
    assert {ApSsid, ApPassword} + {ApGatewayIp} == {ApSsid, ApPassword, ApGatewayIp};
  }

  lemma UnseededIsSeeded(env: Env, r: Ram, dev: Device)
    requires dev.ram == r
    ensures Seeded(env, r, dev, {})
  {
  }

  lemma SeedNetworkSeeds(d: Driver, env: Env, r: Ram, dev: Device, n: nat, done: set<Field>)
    requires NeverFails(d) && dev.flash.mounted && Seeded(env, r, dev, done)
    ensures var dev' := SeedNetwork(d, dev, dev.ram.networks == [], env, n);
            var ssid := Fitting(env.staSsid);
            && dev'.flash.mounted && Seeded(env, r, dev', done) && dev'.ram.apEnabled == dev.ram.apEnabled
            && (if dev.ram.networks == [] && ssid.Some?
                then dev'.ram.staEnabled && dev'.ram.networks == (if n > 0 then [Network(ssid.value, Fitting(env.staPassword))] else [])
                else dev'.ram.staEnabled == dev.ram.staEnabled && dev'.ram.networks == dev.ram.networks)
  {
    var dev' := SeedNetwork(d, dev, dev.ram.networks == [], env, n);
    forall field ensures dev'.ram.Get(field) == dev.ram.Get(field) {
    }
  }

  lemma {:induction false} BootSeeds(d: Driver, env: Env, dev: Device, n: nat)
    requires NeverFails(d) && dev.flash.mounted && n <= MAX_SLOTS
    ensures var r := Load(Fresh(env), dev.flash, n);
            var s := Reboot(d, env, dev, n).ram;
            var ssid := Fitting(env.staSsid);
            && (forall field :: s.Get(field) == OrDefault(r.Get(field), Default(env, field)))
            && s.apEnabled == r.apEnabled
            && (if r.networks == [] && ssid.Some?
                then s.staEnabled && s.networks == (if n > 0 then [Network(ssid.value, Fitting(env.staPassword))] else [])
                else s.staEnabled == r.staEnabled && s.networks == r.networks)
  {
    hide SeedField;
    hide SeedFront;
    hide SeedNetwork;
    hide Load;
    hide Seeded;
    hide Default;
    var r := Load(Fresh(env), dev.flash, n);
    var loaded := Device(r, dev.flash);
    var done := {ApSsid, ApPassword, ApGatewayIp};
    SeedFrontSeeds(d, env, loaded);
    var front := SeedFront(d, env, loaded);
    SeedNetworkSeeds(d, env, r, front, n, done);
    var d6 := SeedNetwork(d, front, r.networks == [], env, n);
    SeedFieldSeeds(d, env, r, d6, done, Hostname);
    var d7 := SeedField(d, d6, r.hostname.None?, Hostname, env);
    SeedFieldSeeds(d, env, r, d7, done + {Hostname}, CountryCode);
    AllSeeded(env, r, Reboot(d, env, dev, n), done + {Hostname} + {CountryCode});
  }

  lemma AllSeeded(env: Env, r: Ram, dev: Device, done: set<Field>)
    requires Seeded(env, r, dev, done) && done == {ApSsid, ApPassword, ApGatewayIp} + {Hostname} + {CountryCode}
    ensures forall field :: dev.ram.Get(field) == OrDefault(r.Get(field), Default(env, field))
  {
    forall field ensures field in done {
      match field
      case _ =>
    }
  }

  /** What a boot whose stores succeed makes of any flash and any environment: each
      setting as stored, or else its default if that fits, `01` for a country that
      is not configured; the stored networks, or else the environment's, which
      also enables the station. Both switches are then stored, and mirror and
      flash agree. */
  lemma {:induction false} BootSettings(d: Driver, env: Env, dev: Device, n: nat)
    requires NeverFails(d) && dev.flash.mounted && n <= MAX_SLOTS
    ensures var f := dev.flash;
            var s := Reboot(d, env, dev, n).ram;
            && s.apSsid == OrDefault(FetchText(f, 1), env.apSsid) && s.apPassword == OrDefault(FetchText(f, 2), env.apPassword)
            && s.apGatewayIp == OrDefault(FetchText(f, 3), env.apGatewayIp) && s.hostname == OrDefault(FetchText(f, 5), env.hostname)
            && s.countryCode == OrDefault(FetchText(f, 6), if env.countryCode.Some? then env.countryCode else Some("01"))
            && s.apEnabled == FetchBool(f, 0).GetOr(env.apSsid.Some?)
    ensures var s := Reboot(d, env, dev, n).ram;
            var ssid := Fitting(env.staSsid);
            if Reloaded(dev.flash, n) == [] && ssid.Some?
            then s.staEnabled && s.networks == (if n > 0 then [Network(ssid.value, Fitting(env.staPassword))] else [])
            else s.staEnabled == FetchBool(dev.flash, 4).GetOr(env.staSsid.Some?) && s.networks == Reloaded(dev.flash, n)
    ensures var dev' := Reboot(d, env, dev, n);
            Agrees(env, dev') && FetchBool(dev'.flash, 0) == Some(dev'.ram.apEnabled) && FetchBool(dev'.flash, 4) == Some(dev'.ram.staEnabled)
  {
    hide Reboot;
    hide Load;
    hide Compact;
    hide Settled;
    hide OrDefault;
    LayoutLoads(env, dev.flash, n);
    ReloadIsCompact(dev.flash, n);
    BootSeeds(d, env, dev, n);
    FirstBootSettles(d, env, dev, n);
    var r, s := Load(Fresh(env), dev.flash, n), Reboot(d, env, dev, n).ram;
    assert s.Get(ApSsid) == OrDefault(r.Get(ApSsid), Default(env, ApSsid));
    assert s.Get(ApPassword) == OrDefault(r.Get(ApPassword), Default(env, ApPassword));
    assert s.Get(ApGatewayIp) == OrDefault(r.Get(ApGatewayIp), Default(env, ApGatewayIp));
    assert s.Get(Hostname) == OrDefault(r.Get(Hostname), Default(env, Hostname));
    assert s.Get(CountryCode) == OrDefault(r.Get(CountryCode), Default(env, CountryCode));
  }
}
