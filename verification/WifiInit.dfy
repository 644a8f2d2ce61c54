/** `init` is idempotent: a second boot writes nothing and loads the same
    configuration, for every flash content and every choice of defaults. */
module WifiInit {
  import opened Prelude
  import opened Flash
  import opened WifiSpec
  import opened WifiKeys
  import opened WifiSlots
  import opened WifiRuns
  import opened WifiBoot

  /** A field has a default that a `String<64>` can hold. */
  predicate Fits(env: Env, field: Field) {
    Default(env, field).Some? && TryText(Default(env, field).value).Some?
  }

  predicate SwitchesPresent(f: Image) {
    FetchBool(f, KEY_AP_ENABLED).Some? && FetchBool(f, KEY_STA_ENABLED).Some?
  }

  predicate FieldsPresent(env: Env, ram: Ram) {
    forall field :: ram.Get(field).Some? || !Fits(env, field)
  }

  /** Nothing is left for another `init` to write. */
  predicate Settled(env: Env, dev: Device, n: nat) {
    && dev.flash.mounted && Agrees(env, dev)
    && SwitchesPresent(dev.flash) && FieldsPresent(env, dev.ram)
    && Reloaded(dev.flash, n) == Normalise(dev.ram.networks)
    && (Reloaded(dev.flash, n) == [] ==> EnvNetwork(env).None?)
  }

  /** The configured station network can never be loaded back, and no slot is
      occupied: every boot writes it again. */
  predicate ReseedsForever(env: Env, f: Image, n: nat) {
    EnvNetwork(env).Some? && (env.staSsid == Some("") || n == 0) && Reloaded(f, n) == []
  }

  lemma QuietField(d: Driver, env: Env, dev: Device, field: Field)
    requires FieldsPresent(env, dev.ram)
    ensures SeedField(d, dev, dev.ram.Get(field).None?, field, env) == dev
  {
  }

  /** A boot of a settled device writes nothing and normalises the list. */
  lemma {:induction false} SettledBootIsQuiet(d: Driver, env: Env, dev: Device, n: nat)
    requires Settled(env, dev, n)
    ensures Reboot(d, env, dev, n) == Device(dev.ram.(networks := Normalise(dev.ram.networks)), dev.flash)
  {
    hide LoadScalars;
    hide Agrees;
    LoadedAgrees(env, dev.flash, n);
    AgreesIffReloads(env, dev);
    var r := Load(Fresh(env), dev.flash, n);
    assert r == dev.ram.(networks := Normalise(dev.ram.networks));
    assert forall field :: r.Get(field) == dev.ram.Get(field);
    var loaded := Device(r, dev.flash);
    QuietField(d, env, loaded, ApSsid);
    QuietField(d, env, loaded, ApPassword);
    QuietField(d, env, loaded, ApGatewayIp);
    QuietField(d, env, loaded, Hostname);
    QuietField(d, env, loaded, CountryCode);
    assert SeedFront(d, env, loaded) == loaded;
    assert SeedNetwork(d, loaded, r.networks == [], env, n) == loaded;
  }

  /** Seeding has dealt with the fields in `done` and left the others alone. */
  predicate Progress(env: Env, r: Ram, dev: Device, done: set<Field>) {
    && dev.flash.mounted && Agrees(env, dev)
    && forall field ::
         if field in done then dev.ram.Get(field).Some? || !Fits(env, field) else dev.ram.Get(field) == r.Get(field)
  }

  ghost predicate NeverFails(d: Driver) {
    forall a: nat :: d(a)
  }

  lemma SeedFieldProgress(d: Driver, env: Env, r: Ram, dev: Device, done: set<Field>, field: Field)
    requires NeverFails(d) && Progress(env, r, dev, done) && field !in done
    ensures var dev' := SeedField(d, dev, r.Get(field).None?, field, env);
            && Progress(env, r, dev', done + {field})
            && (SwitchesPresent(dev.flash) ==> SwitchesPresent(dev'.flash))
  {
    var missing := r.Get(field).None?;
    var dev' := SeedField(d, dev, missing, field, env);
    SeedFieldKeepsAgrees(d, env, dev, missing, field);
    forall other ensures if other in done + {field} then dev'.ram.Get(other).Some? || !Fits(env, other) else dev'.ram.Get(other) == r.Get(other) {
      assert if other in done then dev.ram.Get(other).Some? || !Fits(env, other) else dev.ram.Get(other) == r.Get(other);
    }
  }

  lemma SeedSwitches(d: Driver, env: Env, loaded: Device)
    requires NeverFails(d) && loaded.flash.mounted && Agrees(env, loaded)
    ensures var d1 := SeedBool(d, loaded, FetchBool(loaded.flash, KEY_AP_ENABLED).None?, KEY_AP_ENABLED, env.apSsid.Some?);
            var d2 := SeedBool(d, d1, FetchBool(loaded.flash, KEY_STA_ENABLED).None?, KEY_STA_ENABLED, env.staSsid.Some?);
            Progress(env, loaded.ram, d2, {}) && SwitchesPresent(d2.flash)
  {
  }

  lemma {:induction false} SeedFrontProgress(d: Driver, env: Env, loaded: Device)
    requires NeverFails(d) && loaded.flash.mounted && Agrees(env, loaded)
    ensures var front := SeedFront(d, env, loaded);
            Progress(env, loaded.ram, front, {ApSsid, ApPassword, ApGatewayIp}) && SwitchesPresent(front.flash)
  {
    hide SeedField;
    hide SeedBool;
    hide Progress;
    hide SwitchesPresent;
    hide Agrees;
    var r := loaded.ram;
    SeedSwitches(d, env, loaded);
    var d1 := SeedBool(d, loaded, FetchBool(loaded.flash, KEY_AP_ENABLED).None?, KEY_AP_ENABLED, env.apSsid.Some?);
    var d2 := SeedBool(d, d1, FetchBool(loaded.flash, KEY_STA_ENABLED).None?, KEY_STA_ENABLED, env.staSsid.Some?);
    SeedFieldProgress(d, env, r, d2, {}, ApSsid);
    var d3 := SeedField(d, d2, r.apSsid.None?, ApSsid, env);
    assert {} + {ApSsid} == {ApSsid};
    SeedFieldProgress(d, env, r, d3, {ApSsid}, ApPassword);
    var d4 := SeedField(d, d3, r.apPassword.None?, ApPassword, env);
    assert {ApSsid} + {ApPassword} == {ApSsid, ApPassword};
    SeedFieldProgress(d, env, r, d4, {ApSsid, ApPassword}, ApGatewayIp);
    assert {ApSsid, ApPassword} + {ApGatewayIp} == {ApSsid, ApPassword, ApGatewayIp};
  }

  lemma SeedNetworkProgress(d: Driver, env: Env, r: Ram, dev: Device, missing: bool, n: nat, done: set<Field>)
    requires NeverFails(d) && Progress(env, r, dev, done) && SwitchesPresent(dev.flash)
    ensures var dev' := SeedNetwork(d, dev, missing, env, n);
            Progress(env, r, dev', done) && SwitchesPresent(dev'.flash)
  {
    var dev' := SeedNetwork(d, dev, missing, env, n);
    SeedNetworkAgreesIff(d, env, dev, missing, n);
    if missing && EnvNetwork(env).Some? {
      SlotWriteFrame(d, dev.flash, 0, EnvNetwork(env).value, 1);
    }
    forall field ensures dev'.ram.Get(field) == dev.ram.Get(field) {
    }
  }

  lemma {:induction false} CleanIsNormal(t: Table)
    requires Clean(t)
    ensures Normalise(Compact(t)) == Compact(t)
    decreases |t|
  {
    if t != [] {
      CleanIsNormal(t[..|t| - 1]);
    }
  }

  lemma {:induction false} CompactEmpty(t: Table)
    ensures Compact(t) == [] <==> forall i :: 0 <= i < |t| ==> t[i].None?
    decreases |t|
  {
    if t != [] {
      CompactEmpty(t[..|t| - 1]);
    }
  }

  /** The list after the network default, and what flash then reloads. */
  lemma SeedNetworkReloads(d: Driver, env: Env, dev: Device, n: nat)
    requires NeverFails(d) && dev.flash.mounted && n <= MAX_SLOTS
    requires dev.ram.networks == Reloaded(dev.flash, n)
    ensures var dev' := SeedNetwork(d, dev, dev.ram.networks == [], env, n);
            && Reloaded(dev'.flash, n) == Normalise(dev'.ram.networks)
            && (Reloaded(dev'.flash, n) == [] && EnvNetwork(env).Some? <==> ReseedsForever(env, dev.flash, n))
  {
    ReloadIsCompact(dev.flash, n);
    CleanIsNormal(TableOf(dev.flash, n));
    if dev.ram.networks == [] && EnvNetwork(env).Some? {
      SeededReloads(d, env, dev, n);
    }
  }

  lemma SeededReloads(d: Driver, env: Env, dev: Device, n: nat)
    requires NeverFails(d) && dev.flash.mounted && n <= MAX_SLOTS
    requires dev.ram.networks == [] && Reloaded(dev.flash, n) == [] && EnvNetwork(env).Some?
    ensures var dev' := SeedNetwork(d, dev, true, env, n);
            var w := EnvNetwork(env).value;
            && dev'.ram.networks == (if n > 0 then [w] else [])
            && Reloaded(dev'.flash, n) == Normalise(dev'.ram.networks)
            && (Reloaded(dev'.flash, n) == [] <==> w.ssid == "" || n == 0)
  {
    var w := EnvNetwork(env).value;
    var dev' := SeedNetwork(d, dev, true, env, n);
    var f := WriteSlot(d, dev.flash, 0, w).0;
    ScalarsOffSlots(n);
    PutOffSlots(d, f, KEY_STA_ENABLED, Bool(true), n);
    ReloadIsCompact(dev.flash, n);
    ReloadIsCompact(dev'.flash, n);
    if n > 0 {
      WriteSlotTable(d, dev.flash, 0, w, n);
      CompactEmpty(TableOf(dev.flash, n));
      assert forall i :: 0 < i < n ==> TableOf(dev'.flash, n)[i] == TableOf(dev.flash, n)[i];
      CompactIsNormalised(TableOf(dev'.flash, n), [w]);
      assert [w][..0] == [];
    }
  }

  /** Over any flash content, an `init` whose stores all succeed leaves nothing
      for the next one to write, unless it is bound to reseed for ever. */
  lemma {:induction false} FirstBootSettles(d: Driver, env: Env, dev: Device, n: nat)
    requires NeverFails(d) && dev.flash.mounted && n <= MAX_SLOTS
    ensures var dev' := Reboot(d, env, dev, n);
            && dev'.flash.mounted && Agrees(env, dev') && SwitchesPresent(dev'.flash)
            && (Settled(env, dev', n) <==> !ReseedsForever(env, dev.flash, n))
            && (!Settled(env, dev', n) ==> Reloaded(dev'.flash, n) == [] && EnvNetwork(env).Some?)
  {
    hide SeedField;
    hide SeedNetwork;
    hide SeedFront;
    hide LoadScalars;
    hide SwitchesPresent;
    hide Agrees;
    hide ReseedsForever;
    var r := Load(Fresh(env), dev.flash, n);
    var loaded := Device(r, dev.flash);
    var front := SeedFront(d, env, loaded);
    var d6 := SeedNetwork(d, front, r.networks == [], env, n);
    var d7 := SeedField(d, d6, r.hostname.None?, Hostname, env);
    var done := {ApSsid, ApPassword, ApGatewayIp};
    LoadedAgrees(env, dev.flash, n);
    SeedFrontProgress(d, env, loaded);
    SeedNetworkProgress(d, env, r, front, r.networks == [], n, done);
    SeedFieldProgress(d, env, r, d6, done, Hostname);
    SeedFieldProgress(d, env, r, d7, done + {Hostname}, CountryCode);
    var dev' := Reboot(d, env, dev, n);
    assert FieldsPresent(env, dev'.ram) by {
      forall field ensures dev'.ram.Get(field).Some? || !Fits(env, field) {
        assert field in done + {Hostname} + {CountryCode};
      }
    }
    SeedFrontKeepsList(d, env, loaded, n);
    SameTableReloads(dev.flash, front.flash, n);
    SeedNetworkReloads(d, env, front, n);
    SeedFieldKeepsList(d, d6, r.hostname.None?, Hostname, env, n);
    SeedFieldKeepsList(d, d7, r.countryCode.None?, CountryCode, env, n);
    SameTableReloads(d6.flash, dev'.flash, n);
    SameReseed(env, dev.flash, front.flash, n);
  }

  lemma SameTableReloads(f: Image, g: Image, n: nat)
    requires TableOf(f, n) == TableOf(g, n)
    ensures Reloaded(f, n) == Reloaded(g, n)
  {
    ReloadIsCompact(f, n);
    ReloadIsCompact(g, n);
  }

  lemma SameReseed(env: Env, f: Image, g: Image, n: nat)
    requires Reloaded(f, n) == Reloaded(g, n)
    ensures ReseedsForever(env, f, n) <==> ReseedsForever(env, g, n)
  {
  }

  /** After an `init` whose stores all succeed, a reboot and a second `init` write
      no key, exactly unless an unloadable station network is configured and no
      slot is occupied; and then the second boot, which may fail or be cut off
      anywhere, produces the same configuration with its list normalised. */
  lemma {:induction false} InitIsIdempotentIff(d: Driver, d2: Driver, env: Env, dev: Device, n: nat)
    requires NeverFails(d) && dev.flash.mounted && n <= MAX_SLOTS
    ensures var first := Reboot(d, env, dev, n);
            var second := Reboot(d2, env, first, n);
            && (second.flash == first.flash <==> !ReseedsForever(env, dev.flash, n))
            && (second.flash == first.flash ==>
                  second.ram == first.ram.(networks := Normalise(first.ram.networks)))
  {
    hide Reboot;
    hide Settled;
    hide ReseedsForever;
    var first := Reboot(d, env, dev, n);
    FirstBootSettles(d, env, dev, n);
    if Settled(env, first, n) {
      SettledBootIsQuiet(d2, env, first, n);
    } else {
      UnsettledBootWrites(d2, env, first, n);
    }
  }

  lemma UnsettledBootWrites(d: Driver, env: Env, dev: Device, n: nat)
    requires dev.flash.mounted && n <= MAX_SLOTS && Reloaded(dev.flash, n) == [] && EnvNetwork(env).Some?
    ensures Reboot(d, env, dev, n).flash.attempts > dev.flash.attempts
  {
    hide SeedField;
    hide SeedFront;
    hide SeedNetwork;
    var loaded := Device(Load(Fresh(env), dev.flash, n), dev.flash);
    LoadedAgrees(env, dev.flash, n);
    SeedFrontKeepsList(d, env, loaded, n);
  }
}
