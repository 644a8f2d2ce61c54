/** `FlashBackedWifiConfig`: the RAM mirror and its flash store, updated in
    place. Every method is proved to compute its function in `WifiSpec`. */
module WifiConfig {
  import opened Prelude
  import opened Flash
  import opened WifiSpec

  /** The three latched one-slot signals of the connection loop. */
  class Signals {
    var connectRequest: Option<nat>
    var apReconfig: bool
    var staToggled: bool

    constructor ()
      ensures connectRequest == None && !apReconfig && !staToggled
    {
      connectRequest, apReconfig, staToggled := None, false, false;
    }

    /** What is latched after a call raised `r` on top of earlier signals. */
    twostate predicate Raises(r: Raised)
      reads this
    {
      && connectRequest == (if r.ConnectRequest? then Some(r.index) else old(connectRequest))
      && apReconfig == (r.ApReconfig? || old(apReconfig))
      && staToggled == (r.StaToggled? || old(staToggled))
    }
  }

  class FlashBackedWifiConfig {
    const n: nat
    const env: Env
    const store: FlashStore
    const signals: Signals
    var apEnabled: bool
    var apSsid: Option<Text>
    var apPassword: Option<Text>
    var apGatewayIp: Option<Text>
    var staEnabled: bool
    var hostname: Option<Text>
    var countryCode: Option<Text>
    var staNetworks: seq<Network>

    ghost function Mirror(): Ram
      reads this
    {
      Ram(apEnabled, apSsid, apPassword, apGatewayIp, staEnabled, hostname, countryCode, staNetworks)
    }

    ghost function View(): Device
      reads this, store, store.storage
    {
      Device(Mirror(), store.View())
    }

    constructor (n: nat, env: Env, signals: Signals)
      ensures this.n == n && this.env == env && this.signals == signals
      ensures fresh(store) && store.storage == null
      ensures Mirror() == WifiSpec.Fresh(env)
    {
      this.n, this.env, this.signals := n, env, signals;
      store := new FlashStore();
      apEnabled, staEnabled := env.apSsid.Some?, env.staSsid.Some?;
      apSsid, apPassword, apGatewayIp, hostname, countryCode := None, None, None, None, None;
      staNetworks := [];
    }

    method Init(chip: FlashChip)
      modifies this, store, chip
      ensures store.storage == chip
      ensures View() == WifiSpec.Init(chip.driver, env, Device(old(Mirror()), Image(true, old(chip.cells), old(chip.attempts))), n)
    {
      hide Seed;
      hide LoadField;
      store.Init(chip);
      var apEnabledFetched, staEnabledFetched := LoadScalarFields();
      LoadNetworks();
      WriteDefaults(apEnabledFetched.None?, staEnabledFetched.None?);
    }

    /** The switches are fetched first, to tell whether they came from flash. */
    method LoadScalarFields() returns (apEnabledFetched: Option<bool>, staEnabledFetched: Option<bool>)
      modifies this
      ensures Mirror() == LoadScalars(old(Mirror()), store.View())
      ensures staNetworks == old(staNetworks)
      ensures apEnabledFetched == FetchBool(store.View(), KEY_AP_ENABLED)
      ensures staEnabledFetched == FetchBool(store.View(), KEY_STA_ENABLED)
    {
      hide LoadField;
      apEnabledFetched := store.LoadBool(KEY_AP_ENABLED);
      staEnabledFetched := store.LoadBool(KEY_STA_ENABLED);
      if apEnabledFetched.Some? {
        apEnabled := apEnabledFetched.value;
      }
      FetchField(ApSsid);
      FetchField(ApPassword);
      FetchField(ApGatewayIp);
      if staEnabledFetched.Some? {
        staEnabled := staEnabledFetched.value;
      }
      FetchField(Hostname);
      FetchField(CountryCode);
    }

    method FetchField(field: Field)
      modifies this
      ensures Mirror() == LoadField(old(Mirror()), store.View(), field) && staNetworks == old(staNetworks)
    {
      var v := store.LoadText(Key(field));
      if v.Some? {
        AssignField(field, v.value);
      }
    }

    method AssignField(field: Field, v: Text)
      modifies this
      ensures Mirror() == old(Mirror()).With(field, Some(v))
    {
      match field {
        case ApSsid => apSsid := Some(v);
        case ApPassword => apPassword := Some(v);
        case ApGatewayIp => apGatewayIp := Some(v);
        case Hostname => hostname := Some(v);
        case CountryCode => countryCode := Some(v);
      }
    }

    /** First-boot defaults, for what the loading phase did not find. */
    method WriteDefaults(apEnabledNone: bool, staEnabledNone: bool)
      requires store.storage != null
      requires apEnabledNone == FetchBool(store.View(), KEY_AP_ENABLED).None?
      requires staEnabledNone == FetchBool(store.View(), KEY_STA_ENABLED).None?
      modifies this, store.storage
      ensures View() == Seed(store.storage.driver, env, old(View()), n)
    {
      hide SeedField;
      hide SeedBool;
      var ssidNone, pwNone, gwNone, wasEmpty := apSsid.None?, apPassword.None?, apGatewayIp.None?, staNetworks == [];
      var hostnameNone, ccNone := hostname.None?, countryCode.None?;
      SeedSwitch(apEnabledNone, KEY_AP_ENABLED, env.apSsid.Some?);
      SeedSwitch(staEnabledNone, KEY_STA_ENABLED, env.staSsid.Some?);
      SeedDefault(ssidNone, ApSsid);
      SeedDefault(pwNone, ApPassword);
      SeedDefault(gwNone, ApGatewayIp);
      if wasEmpty {
        SeedEnvNetwork();
      }
      SeedDefault(hostnameNone, Hostname);
      SeedDefault(ccNone, CountryCode);
    }

    /** The loop over the slots; empty SSIDs are skipped. */
    method LoadNetworks()
      requires store.storage != null
      modifies this`staNetworks
      ensures staNetworks == LoadSlots(old(staNetworks), store.View(), 0, n)
    {
      for i := 0 to n
        invariant LoadSlots(staNetworks, store.View(), i, n) == LoadSlots(old(staNetworks), store.View(), 0, n)
      {
        var ssid := store.LoadText(SsidKey(i));
        if ssid.Some? && ssid.value != "" {
          var password := store.LoadText(PwKey(i));
          if |staNetworks| < n {
            staNetworks := staNetworks + [Network(ssid.value, NonEmpty(password))];
          }
        }
      }
    }

    method SeedSwitch(missing: bool, key: Byte, default: bool)
      requires store.storage != null
      modifies store.storage
      ensures View() == SeedBool(store.storage.driver, old(View()), missing, key, default)
    {
      if missing {
        var _ := store.Store(key, Bool(default));
      }
    }

    method SeedDefault(missing: bool, field: Field)
      requires store.storage != null
      modifies this, store.storage
      ensures View() == SeedField(store.storage.driver, old(View()), missing, field, env)
    {
      var v := Default(env, field);
      if missing && v.Some? && |v.value| <= 64 {
        var _ := StoreField(field, v.value);
      }
    }

    method SeedEnvNetwork()
      requires store.storage != null
      modifies this, store.storage
      ensures View() == SeedNetwork(store.storage.driver, old(View()), true, env, n)
    {
      if env.staSsid.Some? && |env.staSsid.value| <= 64 {
        var pw := if env.staPassword.Some? then TryText(env.staPassword.value) else None;
        var ok := store.Store(SsidKey(0), Str(env.staSsid.value));
        if ok {
          ok := store.Store(PwKey(0), Str(pw.GetOr("")));
        }
        if ok {
          if |staNetworks| < n {
            staNetworks := staNetworks + [Network(env.staSsid.value, pw)];
          }
          staEnabled := true;
          var _ := store.Store(KEY_STA_ENABLED, Bool(true));
        }
      }
    }

    /** Stores one text setting and mirrors it on success. */
    method StoreField(field: Field, v: Text) returns (ok: bool)
      modifies this, store.storage
      ensures (View(), ok) == SetField(store.TheDriver(), old(View()), field, v)
      ensures staNetworks == old(staNetworks)
    {
      ok := store.Store(Key(field), Str(v));
      if ok {
        AssignField(field, v);
      }
    }

    method WriteStaSlot(i: nat, ssid: Text, password: Option<Text>) returns (ok: bool)
      modifies store.storage
      ensures (store.View(), ok) == WriteSlot(store.TheDriver(), old(store.View()), i, Network(ssid, password))
    {
      ok := store.Store(SsidKey(i), Str(ssid));
      if ok {
        ok := store.Store(PwKey(i), Str(password.GetOr("")));
      }
    }

    /** What every manager call promises. */
    twostate predicate Handles(call: Call, outcome: Outcome)
      reads this, store, store.storage, signals
    {
      var r := Handle(store.TheDriver(), old(View()), call, n);
      View() == r.dev && outcome == r.outcome && signals.Raises(r.raised)
    }

    method SetApEnabled(on: bool) returns (outcome: Outcome)
      modifies this, store.storage, signals
      ensures Handles(Call.SetApEnabled(on), outcome)
    {
      var ok := store.Store(KEY_AP_ENABLED, Bool(on));
      if ok {
        apEnabled := on;
        signals.apReconfig := true;
      }
      outcome := Returned(ok);
    }

    method SetApSsid(ssid: string) returns (outcome: Outcome)
      modifies this, store.storage, signals
      ensures Handles(Call.SetApSsid(ssid), outcome)
    {
      if |ssid| <= 64 {
        var ok := StoreField(ApSsid, ssid);
        if ok {
          signals.apReconfig := true;
          return Returned(true);
        }
      }
      outcome := Returned(false);
    }

    method SetApPassword(password: string) returns (outcome: Outcome)
      modifies this, store.storage, signals
      ensures Handles(Call.SetApPassword(password), outcome)
    {
      if |password| <= 64 {
        var ok := StoreField(ApPassword, password);
        if ok {
          signals.apReconfig := true;
          return Returned(true);
        }
      }
      outcome := Returned(false);
    }

    method ConfigureAp(ssid: Option<string>, password: Option<string>) returns (outcome: Outcome)
      modifies this, store.storage, signals
      ensures Handles(Call.ConfigureAp(ssid, password), outcome)
    {
      var ssidOk, pwOk := true, true;
      if ssid.Some? {
        ssidOk := false;
        if |ssid.value| <= 64 {
          ssidOk := StoreField(ApSsid, ssid.value);
        }
      }
      if password.Some? {
        pwOk := false;
        if |password.value| <= 64 {
          pwOk := StoreField(ApPassword, password.value);
        }
      }
      if ssidOk && pwOk {
        signals.apReconfig := true;
      }
      outcome := Returned(ssidOk && pwOk);
    }

    method SetApGatewayIp(ip: string) returns (outcome: Outcome)
      modifies this, store.storage, signals
      ensures Handles(Call.SetApGatewayIp(ip), outcome)
    {
      outcome := StoreAndReset(ApGatewayIp, ip);
    }

    method SetHostname(name: string) returns (outcome: Outcome)
      modifies this, store.storage, signals
      ensures Handles(Call.SetHostname(name), outcome)
    {
      outcome := StoreAndReset(Hostname, name);
    }

    method SetCountryCode(code: string) returns (outcome: Outcome)
      modifies this, store.storage, signals
      ensures Handles(Call.SetCountryCode(code), outcome)
    {
      if |code| != 2 || !IsAscii(code) {
        return Returned(false);
      }
      outcome := StoreAndReset(CountryCode, code);
    }

    method StoreAndReset(field: Field, text: string) returns (outcome: Outcome)
      modifies this, store.storage
      ensures var r := SetAndReset(store.TheDriver(), old(View()), field, text);
              View() == r.dev && outcome == r.outcome
    {
      if |text| <= 64 {
        var ok := StoreField(field, text);
        if ok {
          return SoftwareReset;
        }
      }
      outcome := Returned(false);
    }

    method SetStaEnabled(on: bool) returns (outcome: Outcome)
      modifies this, store.storage, signals
      ensures Handles(Call.SetStaEnabled(on), outcome)
    {
      var ok := store.Store(KEY_STA_ENABLED, Bool(on));
      if ok {
        staEnabled := on;
        signals.staToggled := true;
      }
      outcome := Returned(ok);
    }

    method AddStaNetwork(ssid: string, password: Option<string>) returns (outcome: Outcome)
      modifies this, store.storage
      ensures Handles(Call.AddNetwork(ssid, password), outcome)
    {
      if |ssid| > 64 || (password.Some? && |password.value| > 64) {
        return Returned(false);
      }
      var pw: Option<Text> := if password.Some? then TryText(password.value) else None;
      if |staNetworks| >= n {
        return Returned(false);
      }
      var index := |staNetworks|;
      var ok := WriteStaSlot(index, ssid, pw);
      if ok {
        staNetworks := staNetworks + [Network(ssid, pw)];
      }
      outcome := Returned(ok);
    }

    method AddAndConnectStaNetwork(ssid: string, password: Option<string>) returns (outcome: Outcome)
      modifies this, store.storage, signals
      ensures Handles(Call.AddAndConnect(ssid, password), outcome)
    {
      outcome := AddStaNetwork(ssid, password);
      if outcome.ok {
        signals.connectRequest := Some(if |staNetworks| == 0 then 0 else |staNetworks| - 1);
      }
    }

    method RemoveStaNetwork(index: nat) returns (outcome: Outcome)
      modifies this, store.storage, signals
      ensures Handles(Call.RemoveNetwork(index), outcome)
    {
      if index >= |staNetworks| {
        return Returned(false);
      }
      staNetworks := staNetworks[..index] + staNetworks[index + 1..];
      var networks := staNetworks;
      ghost var driver, start := store.TheDriver(), store.View();
      for i := 0 to n
        invariant unchanged(this`apEnabled, this`apSsid, this`apPassword, this`apGatewayIp, this`staEnabled, this`hostname, this`countryCode)
        invariant unchanged(signals) && staNetworks == networks && store.TheDriver() == driver
        invariant WriteSlots(driver, start, networks, 0, n) == WriteSlots(driver, store.View(), networks, i, n)
      {
        var w := SlotContents(networks, i);
        var ok := WriteStaSlot(i, w.ssid, w.password);
        if !ok {
          return Returned(false);
        }
      }
      outcome := Returned(true);
    }
  }
}
