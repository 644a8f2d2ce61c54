/** What `define_config!` generates: a struct mirrored in RAM, each field under
    its own key, on the flash shared with the WiFi configuration. */
module AppConfig {
  import opened Prelude
  import opened Flash
  import opened WifiSpec
  import opened WifiKeys
  import opened WifiSlots
  import opened WifiRuns
  import opened WifiBoot

  /** One field: its key, its default, and through the default its type. */
  datatype FieldDecl = FieldDecl(key: Byte, default: Value)

  predicate SameType(a: Value, b: Value) {
    a.Bool? <==> b.Bool?
  }

  /** Fetches at the field's own type. */
  function FetchAs(f: Image, decl: FieldDecl): (v: Option<Value>)
    ensures v.Some? ==> SameType(v.value, decl.default)
  {
    match decl.default
    case Bool(_) => (var b := FetchBool(f, decl.key); if b.Some? then Some(Bool(b.value)) else None)
    case Str(_) => (var s := FetchText(f, decl.key); if s.Some? then Some(Str(s.value)) else None)
  }

  /** What a boot would load, field by field. */
  function Reload(decls: seq<FieldDecl>, f: Image): (vs: seq<Value>)
    ensures |vs| == |decls| && forall i :: 0 <= i < |decls| ==> vs[i] == FetchAs(f, decls[i]).GetOr(decls[i].default)
  {
    seq(|decls|, (i: nat) requires i < |decls| => FetchAs(f, decls[i]).GetOr(decls[i].default))
  }

  predicate DistinctKeys(decls: seq<FieldDecl>) {
    forall i, j :: 0 <= i < j < |decls| ==> decls[i].key != decls[j].key
  }

  /** Flash after `init_config` has gone through the first `m` fields. */
  function InitFlash(d: Driver, decls: seq<FieldDecl>, f: Image, m: nat): Image
    requires m <= |decls|
  {
    if m == 0 then f
    else
      var g := InitFlash(d, decls, f, m - 1);
      if FetchAs(g, decls[m - 1]).Some? then g else Put(d, g, decls[m - 1].key, decls[m - 1].default).0
  }

  /** The struct and its store, updated in place. */
  class Config {
    const decls: seq<FieldDecl>
    const store: FlashStore
    var fields: seq<Value>

    ghost predicate Valid()
      reads this
    {
      |fields| == |decls| && forall i :: 0 <= i < |decls| ==> SameType(fields[i], decls[i].default)
    }

    constructor (decls: seq<FieldDecl>)
      ensures this.decls == decls && fresh(store) && store.storage == null
    {
      this.decls := decls;
      fields := seq(|decls|, (i: nat) requires i < |decls| => decls[i].default);
      store := new FlashStore();
    }

    /** Loads every field, writing and applying the default where flash has none;
        a failed write of a default is ignored. */
    method InitConfig(chip: FlashChip)
      requires Valid() && DistinctKeys(decls)
      modifies this, store, chip
      ensures Valid() && store.storage == chip
      ensures store.View() == InitFlash(chip.driver, decls, old(Image(true, chip.cells, chip.attempts)), |decls|)
      ensures fields == Reload(decls, store.View())
      ensures fields == Reload(decls, old(Image(true, chip.cells, chip.attempts)))
    {
      hide FetchAs;
      hide DistinctKeys;
      store.Init(chip);
      ghost var start := store.View();
      for i := 0 to |decls|
        invariant Valid() && store.storage == chip
        invariant store.View() == InitFlash(chip.driver, decls, start, i)
        invariant forall j :: 0 <= j < i ==> fields[j] == FetchAs(start, decls[j]).GetOr(decls[j].default)
      {
        InitLeavesLater(chip.driver, decls, start, i, i);
        var v := FetchField(i);
        if v.Some? {
          fields := fields[i := v.value];
        } else {
          var _ := store.Store(decls[i].key, decls[i].default);
          fields := fields[i := decls[i].default];
        }
      }
      InitReloadsSame(chip.driver, decls, start, |decls|);
      assert fields == Reload(decls, start);
    }

    method FetchField(i: nat) returns (v: Option<Value>)
      requires i < |decls|
      ensures v == FetchAs(store.View(), decls[i])
    {
      if decls[i].default.Bool? {
        var b := store.LoadBool(decls[i].key);
        v := if b.Some? then Some(Bool(b.value)) else None;
      } else {
        var s := store.LoadText(decls[i].key);
        v := if s.Some? then Some(Str(s.value)) else None;
      }
    }

    /** `set_<field>`: RAM follows flash, and neither moves if the store fails. */
    method SetField(i: nat, v: Value) returns (ok: bool)
      requires Valid() && i < |decls| && SameType(v, decls[i].default)
      modifies this, store.storage
      ensures Valid()
      ensures (store.View(), ok) == Put(store.TheDriver(), old(store.View()), decls[i].key, v)
      ensures fields == if ok then old(fields)[i := v] else old(fields)
    {
      ok := store.Store(decls[i].key, v);
      if ok {
        fields := fields[i := v];
      }
    }
  }

  lemma {:induction false} InitLeavesLater(d: Driver, decls: seq<FieldDecl>, f: Image, m: nat, j: nat)
    requires DistinctKeys(decls) && m <= j < |decls|
    ensures FetchAs(InitFlash(d, decls, f, m), decls[j]) == FetchAs(f, decls[j])
    decreases m
  {
    if m > 0 {
      InitLeavesLater(d, decls, f, m - 1, j);
      assert decls[m - 1].key != decls[j].key;
    }
  }

  /** Initialisation, whichever of its stores fail, changes no field a boot loads. */
  lemma {:induction false} InitReloadsSame(d: Driver, decls: seq<FieldDecl>, f: Image, m: nat)
    requires DistinctKeys(decls) && m <= |decls|
    ensures Reload(decls, InitFlash(d, decls, f, m)) == Reload(decls, f)
    decreases m
  {
    hide Reload;
    hide DistinctKeys;
    hide FetchAs;
    hide Put;
    if m > 0 {
      InitReloadsSame(d, decls, f, m - 1);
      var g := InitFlash(d, decls, f, m - 1);
      if FetchAs(g, decls[m - 1]).None? {
        DefaultReloadsSame(d, decls, g, m - 1);
      }
    }
  }

  /** Writing a missing field's default changes nothing a boot loads. */
  lemma DefaultReloadsSame(d: Driver, decls: seq<FieldDecl>, f: Image, i: nat)
    requires DistinctKeys(decls) && i < |decls| && FetchAs(f, decls[i]).None?
    ensures Reload(decls, Put(d, f, decls[i].key, decls[i].default).0) == Reload(decls, f)
  {
  }

  /** A setter keeps the mirror equal to what a boot would load. */
  lemma SetKeepsMirror(d: Driver, decls: seq<FieldDecl>, f: Image, fields: seq<Value>, i: nat, v: Value)
    requires DistinctKeys(decls) && i < |decls| && SameType(v, decls[i].default) && fields == Reload(decls, f)
    ensures var (g, ok) := Put(d, f, decls[i].key, v);
            Reload(decls, g) == if ok then fields[i := v] else fields
  {
  }

  /** What a key holds once initialised: what it held, if of the field's type, or
      else the default. */
  function Initialised(f: Image, decl: FieldDecl): Value {
    if decl.key in f.cells && SameType(f.cells[decl.key], decl.default) then f.cells[decl.key] else decl.default
  }

  /** An `init_config` whose stores succeed leaves under every field's key what the
      field is then loaded as, and touches no other key. */
  lemma {:induction false} InitStoresDefaults(d: Driver, decls: seq<FieldDecl>, f: Image, m: nat, k: Byte)
    requires DistinctKeys(decls) && m <= |decls| && f.mounted && forall a: nat :: d(a)
    ensures var g := InitFlash(d, decls, f, m);
            && g.mounted
            && (forall i :: 0 <= i < m ==> decls[i].key in g.cells && g.cells[decls[i].key] == Initialised(f, decls[i]))
            && ((forall i :: 0 <= i < m ==> decls[i].key != k) ==>
                  (k in g.cells <==> k in f.cells) && (k in f.cells ==> g.cells[k] == f.cells[k]))
    decreases m
  {
    hide DistinctKeys;
    if m > 0 {
      InitStoresDefaults(d, decls, f, m - 1, k);
      InitStoresDefaults(d, decls, f, m - 1, decls[m - 1].key);
      EarlierKeysDiffer(decls, m);
    }
  }

  lemma EarlierKeysDiffer(decls: seq<FieldDecl>, m: nat)
    requires DistinctKeys(decls) && 0 < m <= |decls|
    ensures forall i :: 0 <= i < m - 1 ==> decls[i].key != decls[m - 1].key
  {
  }

  /** And each field is loaded as exactly that. */
  lemma ReloadIsInitialised(decls: seq<FieldDecl>, f: Image)
    requires f.mounted
    ensures forall i :: 0 <= i < |decls| ==> Reload(decls, f)[i] == Initialised(f, decls[i])
  {
  }

  // ── Shared flash ───────────────────────────────────────────────────────────

  /** What an image holds outside the WiFi range. */
  function Upper(f: Image): map<Byte, Value> {
    map k | k in f.cells && k >= RESERVED :: f.cells[k]
  }

  predicate SameAbove(f: Image, g: Image) {
    f.mounted == g.mounted && Upper(f) == Upper(g)
  }

  lemma PutBelow(d: Driver, f: Image, key: Byte, v: Value)
    requires key < RESERVED
    ensures SameAbove(f, Put(d, f, key, v).0)
  {
  }

  lemma WriteSlotBelow(d: Driver, f: Image, i: nat, w: Network)
    requires i < 20
    ensures SameAbove(f, WriteSlot(d, f, i, w).0)
  {
  }

  lemma {:induction false} WriteSlotsBelow(d: Driver, f: Image, nets: seq<Network>, i: nat, n: nat)
    requires i <= n <= 20
    ensures SameAbove(f, WriteSlots(d, f, nets, i, n).0)
    decreases n - i
  {
    if i < n {
      WriteSlotBelow(d, f, i, SlotContents(nets, i));
      WriteSlotsBelow(d, WriteSlot(d, f, i, SlotContents(nets, i)).0, nets, i + 1, n);
    }
  }

  lemma SetTextBelow(d: Driver, dev: Device, field: Field, text: string)
    ensures SameAbove(dev.flash, SetText(d, dev, field, text).0.flash)
  {
  }

  /** No manager call touches a key outside the reserved range. */
  lemma CallBelow(d: Driver, dev: Device, call: Call, n: nat)
    requires n <= 20
    ensures SameAbove(dev.flash, Handle(d, dev, call, n).dev.flash)
  {
    hide SetText;
    hide Upper;
    hide Put;
    match call {
      case SetApEnabled(on) => PutBelow(d, dev.flash, KEY_AP_ENABLED, Bool(on));
      case SetStaEnabled(on) => PutBelow(d, dev.flash, KEY_STA_ENABLED, Bool(on));
      case SetApSsid(s) => SetTextBelow(d, dev, ApSsid, s);
      case SetApPassword(s) => SetTextBelow(d, dev, ApPassword, s);
      case SetApGatewayIp(s) => SetTextBelow(d, dev, ApGatewayIp, s);
      case SetHostname(s) => SetTextBelow(d, dev, Hostname, s);
      case SetCountryCode(s) => SetTextBelow(d, dev, CountryCode, s);
      case ConfigureAp(ssid, pw) => ConfigureBelow(d, dev, ssid, pw);
      case RemoveNetwork(i) =>
        if i < |dev.ram.networks| {
          WriteSlotsBelow(d, dev.flash, Without(dev.ram.networks, i), 0, n);
        }
      case _ =>
        if |dev.ram.networks| < n && TryText(call.name).Some? {
          WriteSlotBelow(d, dev.flash, |dev.ram.networks|, Network(call.name, if call.pw.Some? then TryText(call.pw.value) else None));
        }
    }
  }

  lemma ConfigureBelow(d: Driver, dev: Device, ssid: Option<string>, pw: Option<string>)
    ensures SameAbove(dev.flash, Configure(d, dev, ssid, pw).dev.flash)
  {
  }

  lemma SeedFieldBelow(d: Driver, dev: Device, missing: bool, field: Field, env: Env)
    ensures SameAbove(dev.flash, SeedField(d, dev, missing, field, env).flash)
  {
  }

  lemma SeedNetworkBelow(d: Driver, dev: Device, missing: bool, env: Env, n: nat)
    ensures SameAbove(dev.flash, SeedNetwork(d, dev, missing, env, n).flash)
  {
    if missing && EnvNetwork(env).Some? {
      var w := EnvNetwork(env).value;
      WriteSlotBelow(d, dev.flash, 0, w);
      PutBelow(d, WriteSlot(d, dev.flash, 0, w).0, KEY_STA_ENABLED, Bool(true));
    }
  }

  /** Nor does any boot, for any slot count: defaults go to settings and slot 0. */
  lemma {:induction false} BootBelow(d: Driver, env: Env, dev: Device, n: nat)
    ensures SameAbove(dev.flash, Reboot(d, env, dev, n).flash)
  {
    hide SeedField;
    hide SeedNetwork;
    hide Put;
    var r := Load(Fresh(env), dev.flash, n);
    var loaded := Device(r, dev.flash);
    PutBelow(d, loaded.flash, KEY_AP_ENABLED, Bool(env.apSsid.Some?));
    var d1 := SeedBool(d, loaded, FetchBool(loaded.flash, KEY_AP_ENABLED).None?, KEY_AP_ENABLED, env.apSsid.Some?);
    PutBelow(d, d1.flash, KEY_STA_ENABLED, Bool(env.staSsid.Some?));
    var d2 := SeedBool(d, d1, FetchBool(loaded.flash, KEY_STA_ENABLED).None?, KEY_STA_ENABLED, env.staSsid.Some?);
    SeedFieldBelow(d, d2, r.apSsid.None?, ApSsid, env);
    var d3 := SeedField(d, d2, r.apSsid.None?, ApSsid, env);
    SeedFieldBelow(d, d3, r.apPassword.None?, ApPassword, env);
    var d4 := SeedField(d, d3, r.apPassword.None?, ApPassword, env);
    SeedFieldBelow(d, d4, r.apGatewayIp.None?, ApGatewayIp, env);
    var d5 := SeedField(d, d4, r.apGatewayIp.None?, ApGatewayIp, env);
    SeedNetworkBelow(d, d5, r.networks == [], env, n);
    var d6 := SeedNetwork(d, d5, r.networks == [], env, n);
    SeedFieldBelow(d, d6, r.hostname.None?, Hostname, env);
    var d7 := SeedField(d, d6, r.hostname.None?, Hostname, env);
    SeedFieldBelow(d, d7, r.countryCode.None?, CountryCode, env);
  }

  predicate KeysAbove(decls: seq<FieldDecl>) {
    forall i :: 0 <= i < |decls| ==> decls[i].key >= RESERVED
  }

  /** Every WiFi event, power cuts included, leaves another store's fields as a
      boot would load them, when their keys avoid the documented range. */
  lemma {:induction false} WifiKeepsAppFields(d: Driver, env: Env, dev: Device, e: Event, n: nat, decls: seq<FieldDecl>)
    requires n <= 20 && KeysAbove(decls) && !e.AppWrite?
    ensures Reload(decls, StepEvent(d, env, dev, e, n).flash) == Reload(decls, dev.flash)
  {
    hide Handle;
    hide Reboot;
    var dev' := StepEvent(d, env, dev, e, n);
    assert SameAbove(dev.flash, dev'.flash) by {
      hide Upper;
      match e {
        case Do(call) =>
          CallBelow(d, dev, call, n);
          BootBelow(d, env, Handle(d, dev, call, n).dev, n);
        case PowerCycle => BootBelow(d, env, dev, n);
        case Cut(call, k) =>
          var d' := Cutoff(d, dev.flash.attempts + k);
          CallBelow(d', dev, call, n);
          BootBelow(d, env, Handle(d', dev, call, n).dev, n);
        case CutBoot(k) =>
          var d' := Cutoff(d, dev.flash.attempts + k);
          BootBelow(d', env, dev, n);
          BootBelow(d, env, Reboot(d', env, dev, n), n);
      }
    }
    forall i | 0 <= i < |decls| ensures FetchAs(dev'.flash, decls[i]) == FetchAs(dev.flash, decls[i]) {
      var k := decls[i].key;
      assert k in Upper(dev.flash) <==> k in dev.flash.cells;
      assert k in Upper(dev'.flash) <==> k in dev'.flash.cells;
      assert k in dev.flash.cells ==> Upper(dev.flash)[k] == Upper(dev'.flash)[k];
    }
    assert Reload(decls, dev'.flash) == Reload(decls, dev.flash);
  }

  /** And a setter of such a store changes nothing WiFi loads: neither a setting
      nor a slot, whether or not its store succeeds. */
  lemma AppKeepsWifi(d: Driver, env: Env, f: Image, decl: FieldDecl, v: Value, n: nat)
    requires n <= 20 && decl.key >= RESERVED
    ensures var g := Put(d, f, decl.key, v).0; Load(Fresh(env), g, n) == Load(Fresh(env), f, n)
  {
    hide LoadScalars;
    var g := Put(d, f, decl.key, v).0;
    LoadScalarsGet(env, f);
    LoadScalarsGet(env, g);
    forall field ensures LoadScalars(Fresh(env), g).Get(field) == LoadScalars(Fresh(env), f).Get(field) {
      assert Key(field) != decl.key;
    }
    SameRam(LoadScalars(Fresh(env), g), LoadScalars(Fresh(env), f));
    ReservedRangeIff(n);
    assert OffSlots(decl.key, n);
    PutOffSlots(d, f, decl.key, v, n);
    ReloadIsCompact(f, n);
    ReloadIsCompact(g, n);
  }

  // ── Runs of both stores ────────────────────────────────────────────────────

  /** The device, with the application's mirror beside the WiFi one. */
  datatype Shared = Shared(dev: Device, fields: seq<Value>)

  datatype Op = Wifi(e: Event) | SetApp(i: nat, v: Value)

  /** `init_config` at the end of a boot, after the WiFi `init`. */
  function AppInit(d: Driver, decls: seq<FieldDecl>, dev: Device): Shared {
    Shared(dev.(flash := InitFlash(d, decls, dev.flash, |decls|)), Reload(decls, dev.flash))
  }

  predicate Restarts(d: Driver, dev: Device, e: Event, n: nat) {
    match e
    case Do(call) => Handle(d, dev, call, n).outcome.SoftwareReset?
    case AppWrite(_, _) => false
    case _ => true
  }

  /** One operation on the shared flash; any boot in it ends with `init_config`. */
  function StepShared(d: Driver, env: Env, s: Shared, op: Op, n: nat, decls: seq<FieldDecl>): Shared {
    match op
    case Wifi(e) =>
      var dev := StepEvent(d, env, s.dev, e, n);
      if Restarts(d, s.dev, e, n) then AppInit(d, decls, dev) else s.(dev := dev)
    case SetApp(i, v) =>
      if i >= |decls| || i >= |s.fields| then s
      else
        var (f, ok) := Put(d, s.dev.flash, decls[i].key, v);
        Shared(s.dev.(flash := f), if ok then s.fields[i := v] else s.fields)
  }

  function RunShared(d: Driver, env: Env, s: Shared, ops: seq<Op>, n: nat, decls: seq<FieldDecl>): Shared
    decreases |ops|
  {
    if ops == [] then s
    else StepShared(d, env, RunShared(d, env, s, ops[..|ops| - 1], n, decls), ops[|ops| - 1], n, decls)
  }

  /** The event is one of WiFi's own, with boots and removals as in the theorems on
      WiFi alone; a setter is for a declared field and of its type. */
  predicate OpAdmissible(d: Driver, env: Env, s: Shared, op: Op, n: nat, decls: seq<FieldDecl>) {
    match op
    case Wifi(e) => !e.AppWrite? && Admissible(d, s.dev, e, n) && BootsSafely(d, env, s.dev, e, n)
    case SetApp(i, v) => i < |decls| && SameType(v, decls[i].default)
  }

  /** Both mirrors keep faith with the one flash. */
  ghost predicate Faithful(env: Env, s: Shared, n: nat, decls: seq<FieldDecl>) {
    Sound(s.dev, n) && Agrees(env, s.dev) && s.fields == Reload(decls, s.dev.flash)
  }

  /** A write outside the reserved range leaves the WiFi side alone. */
  lemma PutAboveKeepsWifi(d: Driver, env: Env, dev: Device, key: Byte, v: Value, n: nat)
    requires n <= 20 && key >= RESERVED && Sound(dev, n) && Agrees(env, dev)
    ensures var dev' := dev.(flash := Put(d, dev.flash, key, v).0); Sound(dev', n) && Agrees(env, dev')
  {
    var dev' := dev.(flash := Put(d, dev.flash, key, v).0);
    ReservedRangeIff(n);
    assert OffSlots(key, n);
    PutOffSlots(d, dev.flash, key, v, n);
    ScalarFrameKeepsAgrees(env, dev, dev');
  }

  lemma {:induction false} InitFlashKeepsWifi(d: Driver, env: Env, dev: Device, n: nat, decls: seq<FieldDecl>, m: nat)
    requires n <= 20 && KeysAbove(decls) && m <= |decls| && Sound(dev, n) && Agrees(env, dev)
    ensures var dev' := dev.(flash := InitFlash(d, decls, dev.flash, m)); Sound(dev', n) && Agrees(env, dev')
    decreases m
  {
    hide Sound;
    hide Agrees;
    hide Put;
    if m > 0 {
      InitFlashKeepsWifi(d, env, dev, n, decls, m - 1);
      var dev' := dev.(flash := InitFlash(d, decls, dev.flash, m - 1));
      PutAboveKeepsWifi(d, env, dev', decls[m - 1].key, decls[m - 1].default, n);
    }
  }

  /** The application's own boot phase keeps both mirrors faithful. */
  lemma AppInitFaithful(d: Driver, env: Env, dev: Device, n: nat, decls: seq<FieldDecl>)
    requires n <= 20 && KeysAbove(decls) && DistinctKeys(decls) && Sound(dev, n) && Agrees(env, dev)
    ensures Faithful(env, AppInit(d, decls, dev), n, decls)
  {
    hide Reload;
    hide Sound;
    hide Agrees;
    InitFlashKeepsWifi(d, env, dev, n, decls, |decls|);
    InitReloadsSame(d, decls, dev.flash, |decls|);
  }

  /** A setter of the application changes only its own mirror and nothing WiFi loads. */
  lemma {:induction false} SetterKeepsFaithful(d: Driver, env: Env, s: Shared, i: nat, v: Value, n: nat, decls: seq<FieldDecl>)
    requires n <= 20 && KeysAbove(decls) && DistinctKeys(decls) && Faithful(env, s, n, decls)
    requires i < |decls| && SameType(v, decls[i].default)
    ensures var s' := StepShared(d, env, s, SetApp(i, v), n, decls);
            Faithful(env, s', n, decls) && Load(Fresh(env), s'.dev.flash, n) == Load(Fresh(env), s.dev.flash, n)
  {
    hide Load;
    hide Put;
    hide Sound;
    hide Agrees;
    SetKeepsMirror(d, decls, s.dev.flash, s.fields, i, v);
    AppKeepsWifi(d, env, s.dev.flash, decls[i], v, n);
    PutAboveKeepsWifi(d, env, s.dev, decls[i].key, v, n);
  }

  lemma {:induction false} SharedFlashStep(d: Driver, env: Env, s: Shared, op: Op, n: nat, decls: seq<FieldDecl>)
    requires n <= 20 && env.staSsid != Some("") && KeysAbove(decls) && DistinctKeys(decls)
    requires Faithful(env, s, n, decls) && OpAdmissible(d, env, s, op, n, decls)
    ensures Faithful(env, StepShared(d, env, s, op, n, decls), n, decls)
  {
    hide StepEvent;
    hide Sound;
    hide Agrees;
    hide Admissible;
    hide BootsSafely;
    hide Restarts;
    match op {
      case Wifi(e) =>
        EventKeepsSound(d, env, s.dev, e, n);
        EventKeepsAgrees(d, env, s.dev, e, n);
        WifiKeepsAppFields(d, env, s.dev, e, n, decls);
        AppInitFaithful(d, env, StepEvent(d, env, s.dev, e, n), n, decls);
      case SetApp(i, v) => SetterKeepsFaithful(d, env, s, i, v, n, decls);
    }
  }

  /** Over every run of both stores on one flash, with failing stores, resets and
      power cuts, and `init_config` after each boot: the network list stays
      tracked, the WiFi settings agree, and the application's fields are what
      a boot would load. */
  lemma {:induction false} SharedFlashRuns(d: Driver, env: Env, s: Shared, ops: seq<Op>, n: nat, decls: seq<FieldDecl>)
    requires n <= 20 && env.staSsid != Some("") && KeysAbove(decls) && DistinctKeys(decls)
    requires Faithful(env, s, n, decls)
    requires forall k :: 0 <= k < |ops| ==> OpAdmissible(d, env, RunShared(d, env, s, ops[..k], n, decls), ops[k], n, decls)
    ensures Faithful(env, RunShared(d, env, s, ops, n, decls), n, decls)
    decreases |ops|
  {
    hide StepShared;
    hide Faithful;
    hide OpAdmissible;
    if ops == [] {
    } else {
      var prior := ops[..|ops| - 1];
      assert forall k :: 0 <= k < |prior| ==> prior[..k] == ops[..k] && prior[k] == ops[k];
      SharedFlashRuns(d, env, s, prior, n, decls);
      SharedFlashStep(d, env, RunShared(d, env, s, prior, n, decls), ops[|ops| - 1], n, decls);
    }
  }

  /** And a boot of both from gap-free flash starts such a run. */
  lemma SharedBootIsFaithful(d: Driver, env: Env, dev: Device, n: nat, decls: seq<FieldDecl>)
    requires n <= 20 && env.staSsid != Some("") && KeysAbove(decls) && DistinctKeys(decls)
    requires dev.flash.mounted && GapFree(TableOf(dev.flash, n)) && BootSafe(env, dev.flash, n)
    ensures Faithful(env, AppInit(d, decls, Reboot(d, env, dev, n)), n, decls)
  {
    hide Reboot;
    hide Faithful;
    hide AppInit;
    RebootIsSound(d, env, dev, n);
    SafeBootAgrees(d, env, dev, n);
    AppInitFaithful(d, env, Reboot(d, env, dev, n), n, decls);
  }
}
