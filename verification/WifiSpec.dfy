/** What the flash-backed WiFi configuration computes: the RAM mirror, the
    loading phase and every manager call, as functions of RAM and flash. */
module WifiSpec {
  import opened Prelude
  import opened Flash

  /** The text-valued settings. */
  datatype Field = ApSsid | ApPassword | ApGatewayIp | Hostname | CountryCode

  const KEY_AP_ENABLED: Byte := 0
  const KEY_STA_ENABLED: Byte := 4

  function Key(field: Field): Byte {
    match field
    case ApSsid => 1
    case ApPassword => 2
    case ApGatewayIp => 3
    case Hostname => 5
    case CountryCode => 6
  }

  /** Truncation to eight bits. */
  function AsU8(x: nat): Byte {
    if x < 256 then x else AsU8(x - 256)
  }

  /** `10 + (i * 2) as u8`: the cast truncates, and the sum wraps. */
  function SsidKey(i: nat): Byte {
    AsU8(10 + AsU8(i * 2))
  }

  function PwKey(i: nat): Byte {
    AsU8(11 + AsU8(i * 2))
  }

  /** Compile-time defaults; `None` is an unset variable. */
  datatype Env = Env(
    apSsid: Option<string>, apPassword: Option<string>, apGatewayIp: Option<string>,
    staSsid: Option<string>, staPassword: Option<string>,
    hostname: Option<string>, countryCode: Option<string>)

  function Default(env: Env, field: Field): Option<string> {
    match field
    case ApSsid => env.apSsid
    case ApPassword => env.apPassword
    case ApGatewayIp => env.apGatewayIp
    case Hostname => env.hostname
    case CountryCode => Some(env.countryCode.GetOr("01"))
  }

  /** `heapless::String::<64>::try_from`. */
  function TryText(s: string): Option<Text> {
    if |s| <= 64 then Some(s) else None
  }

  /** The RAM mirror. */
  datatype Ram = Ram(
    apEnabled: bool, apSsid: Option<Text>, apPassword: Option<Text>, apGatewayIp: Option<Text>,
    staEnabled: bool, hostname: Option<Text>, countryCode: Option<Text>,
    networks: seq<Network>)
  {
    function Get(field: Field): Option<Text> {
      match field
      case ApSsid => apSsid
      case ApPassword => apPassword
      case ApGatewayIp => apGatewayIp
      case Hostname => hostname
      case CountryCode => countryCode
    }

    function With(field: Field, v: Option<Text>): Ram {
      match field
      case ApSsid => this.(apSsid := v)
      case ApPassword => this.(apPassword := v)
      case ApGatewayIp => this.(apGatewayIp := v)
      case Hostname => this.(hostname := v)
      case CountryCode => this.(countryCode := v)
    }
  }

  /** `WifiConfigData::new`: the mirror as the linker leaves it. */
  function Fresh(env: Env): Ram {
    Ram(env.apSsid.Some?, None, None, None, env.staSsid.Some?, None, None, [])
  }

  // ── Loading ────────────────────────────────────────────────────────────────

  function LoadField(ram: Ram, f: Image, field: Field): Ram {
    if FetchText(f, Key(field)).Some? then ram.With(field, FetchText(f, Key(field))) else ram
  }

  function LoadScalars(ram: Ram, f: Image): Ram {
    var r1 := ram.(apEnabled := FetchBool(f, KEY_AP_ENABLED).GetOr(ram.apEnabled));
    var r2 := LoadField(LoadField(LoadField(r1, f, ApSsid), f, ApPassword), f, ApGatewayIp);
    var r3 := r2.(staEnabled := FetchBool(f, KEY_STA_ENABLED).GetOr(r2.staEnabled));
    LoadField(LoadField(r3, f, Hostname), f, CountryCode)
  }

  function NonEmpty(t: Option<Text>): Option<Text> {
    if t.Some? && t.value == "" then None else t
  }

  /** What the loading phase reads from slot `i`. */
  function Slot(f: Image, i: nat): Option<Network> {
    var ssid := FetchText(f, SsidKey(i));
    if ssid.Some? && ssid.value != "" then Some(Network(ssid.value, NonEmpty(FetchText(f, PwKey(i))))) else None
  }

  /** Slots `i..n` pushed onto a list of capacity `n`. */
  function LoadSlots(nets: seq<Network>, f: Image, i: nat, n: nat): seq<Network>
    decreases n - i
  {
    if i >= n then nets
    else
      var s := Slot(f, i);
      LoadSlots(if s.Some? && |nets| < n then nets + [s.value] else nets, f, i + 1, n)
  }

  /** The loading phase of `init`. */
  function Load(ram: Ram, f: Image, n: nat): Ram {
    LoadScalars(ram, f).(networks := LoadSlots(ram.networks, f, 0, n))
  }

  // ── Devices ────────────────────────────────────────────────────────────────

  datatype Device = Device(ram: Ram, flash: Image)

  /** Stores a text setting and mirrors it if the store succeeds. */
  function SetField(d: Driver, dev: Device, field: Field, v: Text): (Device, bool) {
    var (f, ok) := Put(d, dev.flash, Key(field), Str(v));
    (Device(if ok then dev.ram.With(field, Some(v)) else dev.ram, f), ok)
  }

  /** `write_sta_slot`: the SSID, then the password. */
  function WriteSlot(d: Driver, f: Image, i: nat, w: Network): (Image, bool) {
    var (f1, ok) := Put(d, f, SsidKey(i), Str(w.ssid));
    if ok then Put(d, f1, PwKey(i), Str(w.password.GetOr(""))) else (f1, false)
  }

  // ── First-boot defaults ────────────────────────────────────────────────────

  function SeedBool(d: Driver, dev: Device, missing: bool, key: Byte, default: bool): (r: Device)
    ensures r.flash.attempts >= dev.flash.attempts
  {
    if missing then dev.(flash := Put(d, dev.flash, key, Bool(default)).0) else dev
  }

  function SeedField(d: Driver, dev: Device, missing: bool, field: Field, env: Env): (r: Device)
    ensures r.flash.attempts >= dev.flash.attempts
  {
    var v := Default(env, field);
    if missing && v.Some? && TryText(v.value).Some? then SetField(d, dev, field, v.value).0 else dev
  }

  /** The network of the environment, with an over-long password dropped. */
  function EnvNetwork(env: Env): Option<Network> {
    if env.staSsid.Some? && TryText(env.staSsid.value).Some?
    then Some(Network(env.staSsid.value, if env.staPassword.Some? then TryText(env.staPassword.value) else None))
    else None
  }

  function SeedNetwork(d: Driver, dev: Device, missing: bool, env: Env, n: nat): (r: Device)
    ensures r.flash.attempts >= dev.flash.attempts
    ensures missing && EnvNetwork(env).Some? && dev.flash.mounted ==> r.flash.attempts > dev.flash.attempts
  {
    if !missing || EnvNetwork(env).None? then dev
    else
      var w := EnvNetwork(env).value;
      var (f, ok) := WriteSlot(d, dev.flash, 0, w);
      if !ok then dev.(flash := f)
      else
        var ram := dev.ram.(networks := if |dev.ram.networks| < n then dev.ram.networks + [w] else dev.ram.networks,
                            staEnabled := true);
        Device(ram, Put(d, f, KEY_STA_ENABLED, Bool(true)).0)
  }

  /** The defaults written before the network's. */
  function SeedFront(d: Driver, env: Env, loaded: Device): (r: Device)
    ensures r.flash.attempts >= loaded.flash.attempts
  {
    var r := loaded.ram;
    var d1 := SeedBool(d, loaded, FetchBool(loaded.flash, KEY_AP_ENABLED).None?, KEY_AP_ENABLED, env.apSsid.Some?);
    var d2 := SeedBool(d, d1, FetchBool(loaded.flash, KEY_STA_ENABLED).None?, KEY_STA_ENABLED, env.staSsid.Some?);
    var d3 := SeedField(d, d2, r.apSsid.None?, ApSsid, env);
    var d4 := SeedField(d, d3, r.apPassword.None?, ApPassword, env);
    SeedField(d, d4, r.apGatewayIp.None?, ApGatewayIp, env)
  }

  function Seed(d: Driver, env: Env, loaded: Device, n: nat): Device {
    var r := loaded.ram;
    var d6 := SeedNetwork(d, SeedFront(d, env, loaded), r.networks == [], env, n);
    var d7 := SeedField(d, d6, r.hostname.None?, Hostname, env);
    SeedField(d, d7, r.countryCode.None?, CountryCode, env)
  }

  /** `FlashBackedWifiConfig::init`. */
  function Init(d: Driver, env: Env, dev: Device, n: nat): Device {
    Seed(d, env, Device(Load(dev.ram, dev.flash, n), dev.flash), n)
  }

  /** A reboot: the mirror is lost, flash stays, and `init` runs. */
  function Reboot(d: Driver, env: Env, dev: Device, n: nat): Device {
    Init(d, env, Device(Fresh(env), dev.flash), n)
  }

  // ── Manager calls ──────────────────────────────────────────────────────────

  /** A call returns, or ends in a software reset. */
  datatype Outcome = Returned(ok: bool) | SoftwareReset

  /** Signals a call raises for the connection loop. */
  datatype Raised = NoSignal | ApReconfig | StaToggled | ConnectRequest(index: nat)

  datatype Result = Result(dev: Device, outcome: Outcome, raised: Raised)

  datatype Call =
    | SetApEnabled(on: bool)
    | SetApSsid(text: string)
    | SetApPassword(text: string)
    | ConfigureAp(ssid: Option<string>, pw: Option<string>)
    | SetApGatewayIp(text: string)
    | SetStaEnabled(on: bool)
    | AddNetwork(name: string, pw: Option<string>)
    | AddAndConnect(name: string, pw: Option<string>)
    | RemoveNetwork(index: nat)
    | SetCountryCode(text: string)
    | SetHostname(text: string)

  function SetText(d: Driver, dev: Device, field: Field, text: string): (Device, bool) {
    if TryText(text).Some? then SetField(d, dev, field, text) else (dev, false)
  }

  /** A setter that signals the loop on success. */
  function SetLive(d: Driver, dev: Device, field: Field, text: string): Result {
    var (dev', ok) := SetText(d, dev, field, text);
    Result(dev', Returned(ok), if ok then ApReconfig else NoSignal)
  }

  /** A setter that resets the device on success, and otherwise returns false. */
  function SetAndReset(d: Driver, dev: Device, field: Field, text: string): Result {
    var (dev', ok) := SetText(d, dev, field, text);
    Result(dev', if ok then SoftwareReset else Returned(false), NoSignal)
  }

  function SetSwitch(d: Driver, dev: Device, on: bool, ap: bool): Result {
    var (f, ok) := Put(d, dev.flash, if ap then KEY_AP_ENABLED else KEY_STA_ENABLED, Bool(on));
    if !ok then Result(dev.(flash := f), Returned(false), NoSignal)
    else if ap then Result(Device(dev.ram.(apEnabled := on), f), Returned(true), ApReconfig)
    else Result(Device(dev.ram.(staEnabled := on), f), Returned(true), StaToggled)
  }

  /** Both halves are attempted; one may succeed alone. */
  function Configure(d: Driver, dev: Device, ssid: Option<string>, pw: Option<string>): Result {
    var (d1, ok1) := if ssid.Some? then SetText(d, dev, ApSsid, ssid.value) else (dev, true);
    var (d2, ok2) := if pw.Some? then SetText(d, d1, ApPassword, pw.value) else (d1, true);
    Result(d2, Returned(ok1 && ok2), if ok1 && ok2 then ApReconfig else NoSignal)
  }

  function Add(d: Driver, dev: Device, name: string, pw: Option<string>, n: nat): (Device, bool) {
    if TryText(name).None? || (pw.Some? && TryText(pw.value).None?) || |dev.ram.networks| >= n then (dev, false)
    else
      var w := Network(name, if pw.Some? then TryText(pw.value) else None);
      var (f, ok) := WriteSlot(d, dev.flash, |dev.ram.networks|, w);
      (Device(if ok then dev.ram.(networks := dev.ram.networks + [w]) else dev.ram, f), ok)
  }

  function Without(nets: seq<Network>, index: nat): (rest: seq<Network>)
    requires index < |nets|
    ensures |rest| == |nets| - 1 && forall i :: 0 <= i < |rest| ==> rest[i] == nets[if i < index then i else i + 1]
  {
    nets[..index] + nets[index + 1..]
  }

  /** The slot contents a removal writes: the list, then blanks. */
  function SlotContents(nets: seq<Network>, i: nat): Network {
    if i < |nets| then nets[i] else Network("", None)
  }

  /** Rewrites slots `i..n`, stopping at the first failure. */
  function WriteSlots(d: Driver, f: Image, nets: seq<Network>, i: nat, n: nat): (Image, bool)
    decreases n - i
  {
    if i >= n then (f, true)
    else
      var (f', ok) := WriteSlot(d, f, i, SlotContents(nets, i));
      if ok then WriteSlots(d, f', nets, i + 1, n) else (f', false)
  }

  /** RAM first, then every slot. */
  function Remove(d: Driver, dev: Device, index: nat, n: nat): (Device, bool) {
    if index >= |dev.ram.networks| then (dev, false)
    else
      var nets := Without(dev.ram.networks, index);
      var (f, ok) := WriteSlots(d, dev.flash, nets, 0, n);
      (Device(dev.ram.(networks := nets), f), ok)
  }

  predicate IsAscii(s: string) {
    forall i :: 0 <= i < |s| ==> s[i] < 128 as char
  }

  function Handle(d: Driver, dev: Device, call: Call, n: nat): Result {
    match call
    case SetApEnabled(on) => SetSwitch(d, dev, on, true)
    case SetApSsid(s) => SetLive(d, dev, ApSsid, s)
    case SetApPassword(s) => SetLive(d, dev, ApPassword, s)
    case ConfigureAp(ssid, pw) => Configure(d, dev, ssid, pw)
    case SetApGatewayIp(s) => SetAndReset(d, dev, ApGatewayIp, s)
    case SetStaEnabled(on) => SetSwitch(d, dev, on, false)
    case AddNetwork(name, pw) =>
      var (dev', ok) := Add(d, dev, name, pw, n);
      Result(dev', Returned(ok), NoSignal)
    case AddAndConnect(name, pw) =>
      var (dev', ok) := Add(d, dev, name, pw, n);
      Result(dev', Returned(ok), if ok then ConnectRequest(if dev'.ram.networks == [] then 0 else |dev'.ram.networks| - 1) else NoSignal)
    case RemoveNetwork(i) =>
      var (dev', ok) := Remove(d, dev, i, n);
      Result(dev', Returned(ok), NoSignal)
    case SetCountryCode(s) =>
      if |s| != 2 || !IsAscii(s) then Result(dev, Returned(false), NoSignal) else SetAndReset(d, dev, CountryCode, s)
    case SetHostname(s) => SetAndReset(d, dev, Hostname, s)
  }
}
