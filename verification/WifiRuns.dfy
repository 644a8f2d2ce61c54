/** Runs of the flash-backed list: manager calls, failing stores, software
    resets, power cycles and power cuts between any two key writes. */
module WifiRuns {
  import opened Prelude
  import opened Flash
  import opened WifiSpec
  import opened WifiKeys
  import opened WifiSlots

  /** The list matches the slots one by one, with at most one stray entry after it. */
  predicate Tracks(t: Table, nets: seq<Network>) {
    && |nets| <= |t|
    && (forall i :: 0 <= i < |nets| ==> nets[i].ssid != "" && t[i] == Some(NormNetwork(nets[i])))
    && (forall i :: |nets| < i < |t| ==> t[i].None?)
  }

  /** The slot just after the list holds a network the list does not. */
  predicate Stray(t: Table, nets: seq<Network>) {
    |nets| < |t| && t[|nets|].Some?
  }

  /** The occupied slots are the first `m`. */
  predicate FilledTo(t: Table, m: nat) {
    && m <= |t|
    && (forall i :: 0 <= i < m ==> t[i].Some?)
    && (forall i :: m <= i < |t| ==> t[i].None?)
  }

  ghost predicate GapFree(t: Table) {
    exists m :: FilledTo(t, m)
  }

  ghost predicate Sound(dev: Device, n: nat) {
    dev.flash.mounted && Tracks(TableOf(dev.flash, n), dev.ram.networks)
  }

  // ── Events ─────────────────────────────────────────────────────────────────

  /** The driver of a device that loses power once `limit` stores were attempted. */
  function Cutoff(d: Driver, limit: nat): Driver {
    (a: nat) => a < limit && d(a)
  }

  datatype Event =
    | Do(call: Call)
    | PowerCycle
    | Cut(during: Call, writes: nat)     // power lost after so many key writes of a call
    | CutBoot(writes: nat)               // or of `init` itself
    | AppWrite(key: Byte, v: Value)      // another store on the same flash

  function StepEvent(d: Driver, env: Env, dev: Device, e: Event, n: nat): Device {
    match e
    case Do(call) =>
      var r := Handle(d, dev, call, n);
      if r.outcome.SoftwareReset? then Reboot(d, env, r.dev, n) else r.dev
    case PowerCycle => Reboot(d, env, dev, n)
    case Cut(call, k) => Reboot(d, env, Handle(Cutoff(d, dev.flash.attempts + k), dev, call, n).dev, n)
    case CutBoot(k) => Reboot(d, env, Reboot(Cutoff(d, dev.flash.attempts + k), env, dev, n), n)
    case AppWrite(key, v) => dev.(flash := Put(d, dev.flash, key, v).0)
  }

  function RunEvents(d: Driver, env: Env, dev: Device, events: seq<Event>, n: nat): Device
    decreases |events|
  {
    if events == [] then dev
    else StepEvent(d, env, RunEvents(d, env, dev, events[..|events| - 1], n), events[|events| - 1], n)
  }

  /** Other stores keep off the slot keys. */
  predicate OffSlots(key: Byte, n: nat) {
    forall i :: 0 <= i < n ==> key != SsidKey(i) && key != PwKey(i)
  }

  predicate NamesNetwork(call: Call) {
    (call.AddNetwork? || call.AddAndConnect?) ==> call.name != ""
  }

  /** What a run may contain: non-empty SSIDs, and removals that succeed, or fail
      where `FailedRemovalSafeIff` says they may, or are cut short by power where
      `CutRemovalSafeIff` says they may. */
  predicate Admissible(d: Driver, dev: Device, e: Event, n: nat) {
    match e
    case Do(call) =>
      NamesNetwork(call) && (call.RemoveNetwork? && call.index < |dev.ram.networks| ==>
                               Remove(d, dev, call.index, n).1
                               || (!Stray(TableOf(dev.flash, n), dev.ram.networks) && EqualTail(dev.ram.networks, call.index)))
    case Cut(call, _) =>
      NamesNetwork(call) && (call.RemoveNetwork? && call.index < |dev.ram.networks| ==> !Stray(TableOf(dev.flash, n), dev.ram.networks))
    case AppWrite(key, _) => OffSlots(key, n)
    case PowerCycle => true
    case CutBoot(_) => true
  }

  predicate AllAdmissible(d: Driver, env: Env, dev: Device, events: seq<Event>, n: nat) {
    forall k :: 0 <= k < |events| ==> Admissible(d, RunEvents(d, env, dev, events[..k], n), events[k], n)
  }

  // ── Tables ─────────────────────────────────────────────────────────────────

  /** A tracked list reloads as itself normalised, plus the stray entry if any. */
  lemma {:induction false} CompactOfTracked(t: Table, nets: seq<Network>)
    requires Tracks(t, nets)
    ensures Compact(t) == Normalise(nets) + (if Stray(t, nets) then [t[|nets|].value] else [])
    decreases |t|
  {
    if t == [] {
    } else if |t| == |nets| {
      CompactOfTracked(t[..|t| - 1], nets[..|t| - 1]);
    } else {
      CompactOfTracked(t[..|t| - 1], nets);
    }
  }

  /** Reloading a gap-free table gives a tracked list without a stray entry. */
  lemma {:induction false} CompactOfFilled(t: Table, m: nat)
    requires Clean(t) && FilledTo(t, m)
    ensures Tracks(t, Compact(t)) && !Stray(t, Compact(t)) && |Compact(t)| == m
    decreases |t|
  {
    if t == [] {
    } else if m == |t| {
      CompactOfFilled(t[..|t| - 1], m - 1);
    } else {
      CompactOfFilled(t[..|t| - 1], m);
    }
  }

  lemma TrackedIsGapFree(t: Table, nets: seq<Network>)
    requires Tracks(t, nets)
    ensures GapFree(t)
  {
    assert FilledTo(t, if Stray(t, nets) then |nets| + 1 else |nets|);
  }

  // ── Flash ──────────────────────────────────────────────────────────────────

  lemma PutOffSlots(d: Driver, f: Image, key: Byte, v: Value, n: nat)
    requires OffSlots(key, n)
    ensures var g := Put(d, f, key, v).0; g.mounted == f.mounted && TableOf(g, n) == TableOf(f, n)
  {
  }

  lemma ScalarsOffSlots(n: nat)
    requires n <= MAX_SLOTS
    ensures OffSlots(KEY_AP_ENABLED, n) && OffSlots(KEY_STA_ENABLED, n)
    ensures forall field :: OffSlots(Key(field), n)
  {
    SlotKeysSeparateIff(n);
  }

  /** Neither the list nor any slot has changed. */
  predicate SameList(dev: Device, dev': Device, n: nat) {
    && dev'.flash.mounted == dev.flash.mounted && TableOf(dev'.flash, n) == TableOf(dev.flash, n)
    && dev'.ram.networks == dev.ram.networks
  }

  lemma SetFieldKeepsList(d: Driver, dev: Device, field: Field, v: Text, n: nat)
    requires n <= MAX_SLOTS
    ensures SameList(dev, SetField(d, dev, field, v).0, n)
  {
    ScalarsOffSlots(n);
    PutOffSlots(d, dev.flash, Key(field), Str(v), n);
  }

  /** A slot write changes that entry only, and a complete one sets it. */
  lemma {:induction false} WriteSlotTable(d: Driver, f: Image, i: nat, w: Network, n: nat)
    requires i < n <= MAX_SLOTS && f.mounted
    ensures var (g, ok) := WriteSlot(d, f, i, w);
            && g.mounted && TableOf(g, n) == TableOf(f, n)[i := Slot(g, i)]
            && (ok ==> Slot(g, i) == Loaded(w))
  {
    var (g, ok) := WriteSlot(d, f, i, w);
    SlotWriteFrame(d, f, i, w, n);
    forall j | 0 <= j < n && j != i ensures Slot(g, j) == Slot(f, j) {
      assert SameSlot(f, g, j);
    }
    if ok {
      SlotKeyValue(i);
      assert Holds(g, i, w);
      HeldSlotLoads(g, i, w);
    }
  }

  // ── Calls ──────────────────────────────────────────────────────────────────

  lemma {:induction false} AddKeepsSound(d: Driver, dev: Device, name: string, pw: Option<string>, n: nat)
    requires n <= MAX_SLOTS && Sound(dev, n) && name != ""
    ensures var dev' := Add(d, dev, name, pw, n).0; Sound(dev', n) && dev.ram.networks <= dev'.ram.networks
  {
    var at := |dev.ram.networks|;
    if TryText(name).Some? && (pw.Some? ==> TryText(pw.value).Some?) && at < n {
      WriteSlotTable(d, dev.flash, at, Network(name, if pw.Some? then TryText(pw.value) else None), n);
    }
  }

  /** From `index` on, the list's networks are all the same to flash. */
  predicate EqualTail(nets: seq<Network>, index: nat) {
    forall i :: index <= i < |nets| - 1 ==> NormNetwork(nets[i]) == NormNetwork(nets[i + 1])
  }

  /** A removal leaves flash tracking the shortened list if all its stores succeed,
      or if the slots already held that list. */
  lemma RemovedTracks(t: Table, t': Table, nets: seq<Network>, index: nat, p: nat)
    requires Tracks(t, nets) && index < |nets| && Rewritten(t, t', Without(nets, index), p)
    requires p == 2 * |t| || (!Stray(t, nets) && EqualTail(nets, index))
    ensures Tracks(t', Without(nets, index))
  {
    hide Without;
    var after := Without(nets, index);
    forall i | 0 <= i < |t| && i != |after| ensures t'[i] == Loaded(SlotContents(after, i)) {
      assert i < |after| ==> after[i] == nets[if i < index then i else i + 1];
    }
  }

  lemma RemoveKeepsSound(d: Driver, dev: Device, index: nat, n: nat)
    requires n <= MAX_SLOTS && Sound(dev, n)
    requires index < |dev.ram.networks| ==>
               Remove(d, dev, index, n).1 || (!Stray(TableOf(dev.flash, n), dev.ram.networks) && EqualTail(dev.ram.networks, index))
    ensures Sound(Remove(d, dev, index, n).0, n)
  {
    if index < |dev.ram.networks| {
      var p := RemovalRewrites(d, dev, index, n);
      RemovedTracks(TableOf(dev.flash, n), TableOf(Remove(d, dev, index, n).0.flash, n), dev.ram.networks, index, p);
    }
  }

  /** A removal whose stores may fail anywhere keeps RAM and flash together exactly
      when there is no stray slot and the networks from the removed one on are all
      alike; among distinct networks, exactly when it removes the last. */
  lemma {:induction false} FailedRemovalSafeIff(f: Image, nets: seq<Network>, index: nat, n: nat)
    requires n <= MAX_SLOTS && f.mounted && Tracks(TableOf(f, n), nets) && index < |nets|
    ensures (forall p: nat :: p <= 2 * n ==> Tracks(TableOf(AfterWrites(f, Without(nets, index), p), n), Without(nets, index)))
            <==> !Stray(TableOf(f, n), nets) && EqualTail(nets, index)
  {
    var after := Without(nets, index);
    var t := TableOf(f, n);
    if !Stray(t, nets) && EqualTail(nets, index) {
      forall p: nat | p <= 2 * n ensures Tracks(TableOf(AfterWrites(f, after, p), n), after) {
        RewritesTable(f, after, p, n);
        RemovedTracks(t, TableOf(AfterWrites(f, after, p), n), nets, index, p);
      }
    } else {
      AfterNoWrites(f, after);
      ShiftedNotTracked(t, nets, index);
    }
  }

  lemma ShiftedNotTracked(t: Table, nets: seq<Network>, index: nat)
    requires Tracks(t, nets) && index < |nets| && (Stray(t, nets) || !EqualTail(nets, index))
    ensures !Tracks(t, Without(nets, index))
  {
    hide NormNetwork;
    hide Without;
    var after := Without(nets, index);
    if !Stray(t, nets) {
      var i: nat :| index <= i < |nets| - 1 && NormNetwork(nets[i]) != NormNetwork(nets[i + 1]);
      assert t[i] != Some(NormNetwork(after[i]));
    }
  }

  /** What goes wrong otherwise: the first store of a removal fails, and the next
      add overwrites the last network of the list. A reload then loses that one
      and brings the removed one back. */
  lemma {:induction false} FailedRemovalThenAdd(d: Driver, dev: Device, index: nat, name: string, n: nat)
    requires n <= MAX_SLOTS && Sound(dev, n) && !Stray(TableOf(dev.flash, n), dev.ram.networks)
    requires index < |dev.ram.networks| && 0 < |name| <= 64
    requires var a := dev.flash.attempts; !d(a) && d(a + 1) && d(a + 2)
    ensures var nets := dev.ram.networks;
            var removed := Remove(d, dev, index, n).0;
            var added := Add(d, removed, name, None, n).0;
            && removed.ram.networks == Without(nets, index) && Reloaded(removed.flash, n) == Normalise(nets)
            && added.ram.networks == Without(nets, index) + [Network(name, None)]
            && Reloaded(added.flash, n) == Normalise(nets[..|nets| - 1] + [Network(name, None)])
  {
    hide Remove;
    hide Add;
    hide Without;
    hide Tracks;
    hide Stray;
    hide Normalise;
    hide Reloaded;
    var nets := dev.ram.networks;
    var w := Network(name, None);
    LastReplaced(TableOf(dev.flash, n), nets, w);
    var removed := RemovalFailsAtOnce(d, dev, index, n);
    ReloadOfTracked(removed.flash, nets, n);
    var added := AddSucceeds(d, removed, w, n);
    ReloadOfTracked(added.flash, nets[..|nets| - 1] + [w], n);
  }

  lemma ReloadOfTracked(f: Image, nets: seq<Network>, n: nat)
    requires Tracks(TableOf(f, n), nets) && !Stray(TableOf(f, n), nets)
    ensures Reloaded(f, n) == Normalise(nets)
  {
    ReloadIsCompact(f, n);
    CompactOfTracked(TableOf(f, n), nets);
  }

  lemma RemovalFailsAtOnce(d: Driver, dev: Device, index: nat, n: nat) returns (dev': Device)
    requires index < |dev.ram.networks| <= n && dev.flash.mounted && !d(dev.flash.attempts)
    ensures dev' == Remove(d, dev, index, n).0 && dev'.ram.networks == Without(dev.ram.networks, index)
    ensures dev'.flash == dev.flash.(attempts := dev.flash.attempts + 1) && TableOf(dev'.flash, n) == TableOf(dev.flash, n)
  {
    dev' := Remove(d, dev, index, n).0;
    SameCells(dev.flash, dev'.flash, n);
  }

  lemma AddSucceeds(d: Driver, dev: Device, w: Network, n: nat) returns (dev': Device)
    requires |dev.ram.networks| < n <= MAX_SLOTS && dev.flash.mounted && w.password.None?
    requires d(dev.flash.attempts) && d(dev.flash.attempts + 1)
    ensures dev' == Add(d, dev, w.ssid, None, n).0
    ensures dev'.flash.mounted && dev'.ram.networks == dev.ram.networks + [w]
    ensures TableOf(dev'.flash, n) == TableOf(dev.flash, n)[|dev.ram.networks| := Loaded(w)]
  {
    dev' := Add(d, dev, w.ssid, None, n).0;
    WriteSlotTable(d, dev.flash, |dev.ram.networks|, w, n);
  }

  lemma LastReplaced(t: Table, nets: seq<Network>, w: Network)
    requires Tracks(t, nets) && !Stray(t, nets) && nets != [] && w.ssid != ""
    ensures |nets| <= |t|
    ensures var t', kept := t[|nets| - 1 := Loaded(w)], nets[..|nets| - 1] + [w];
            Tracks(t', kept) && !Stray(t', kept)
  {
  }

  predicate OnList(call: Call) {
    call.AddNetwork? || call.AddAndConnect? || call.RemoveNetwork?
  }

  lemma {:induction false} SetTextKeepsList(d: Driver, dev: Device, field: Field, text: string, n: nat)
    requires n <= MAX_SLOTS
    ensures SameList(dev, SetText(d, dev, field, text).0, n)
  {
    if TryText(text).Some? {
      SetFieldKeepsList(d, dev, field, text, n);
    }
  }

  lemma ConfigureKeepsList(d: Driver, dev: Device, ssid: Option<string>, pw: Option<string>, n: nat)
    requires n <= MAX_SLOTS
    ensures SameList(dev, Configure(d, dev, ssid, pw).dev, n)
  {
    hide SetText;
    var d1 := if ssid.Some? then SetText(d, dev, ApSsid, ssid.value).0 else dev;
    if ssid.Some? {
      SetTextKeepsList(d, dev, ApSsid, ssid.value, n);
    }
    if pw.Some? {
      SetTextKeepsList(d, d1, ApPassword, pw.value, n);
    }
  }

  /** The settings' calls leave the list and its slots alone. */
  lemma SettingKeepsList(d: Driver, dev: Device, call: Call, n: nat)
    requires n <= MAX_SLOTS && !OnList(call)
    ensures SameList(dev, Handle(d, dev, call, n).dev, n)
  {
    hide SetText;
    ScalarsOffSlots(n);
    match call {
      case SetApEnabled(on) => PutOffSlots(d, dev.flash, KEY_AP_ENABLED, Bool(on), n);
      case SetStaEnabled(on) => PutOffSlots(d, dev.flash, KEY_STA_ENABLED, Bool(on), n);
      case SetApSsid(s) => SetTextKeepsList(d, dev, ApSsid, s, n);
      case SetApPassword(s) => SetTextKeepsList(d, dev, ApPassword, s, n);
      case SetApGatewayIp(s) => SetTextKeepsList(d, dev, ApGatewayIp, s, n);
      case SetHostname(s) => SetTextKeepsList(d, dev, Hostname, s, n);
      case SetCountryCode(s) => SetTextKeepsList(d, dev, CountryCode, s, n);
      case ConfigureAp(ssid, pw) => ConfigureKeepsList(d, dev, ssid, pw, n);
    }
  }

  /** Every call but a removal keeps the list tracked, however its stores fail,
      and never drops or reorders a network. */
  lemma OtherCallKeepsSound(d: Driver, dev: Device, call: Call, n: nat)
    requires n <= MAX_SLOTS && Sound(dev, n) && NamesNetwork(call) && !call.RemoveNetwork?
    ensures var dev' := Handle(d, dev, call, n).dev; Sound(dev', n) && dev.ram.networks <= dev'.ram.networks
  {
    if OnList(call) {
      AddKeepsSound(d, dev, call.name, call.pw, n);
    } else {
      SettingKeepsList(d, dev, call, n);
    }
  }

  // ── Reboots ────────────────────────────────────────────────────────────────

  lemma SeedFieldKeepsList(d: Driver, dev: Device, missing: bool, field: Field, env: Env, n: nat)
    requires n <= MAX_SLOTS
    ensures SameList(dev, SeedField(d, dev, missing, field, env), n)
  {
    var v := Default(env, field);
    if missing && v.Some? && TryText(v.value).Some? {
      SetFieldKeepsList(d, dev, field, v.value, n);
    }
  }

  lemma {:induction false} SeedNetworkKeepsSound(d: Driver, dev: Device, env: Env, n: nat)
    requires n <= MAX_SLOTS && env.staSsid != Some("")
    requires Sound(dev, n) && !Stray(TableOf(dev.flash, n), dev.ram.networks)
    ensures var dev' := SeedNetwork(d, dev, dev.ram.networks == [], env, n);
            && Sound(dev', n) && dev.ram.networks <= dev'.ram.networks
            && (dev.ram.networks != [] ==> dev'.ram.networks == dev.ram.networks)
  {
    if dev.ram.networks == [] && EnvNetwork(env).Some? {
      var w := EnvNetwork(env).value;
      var (f, ok) := WriteSlot(d, dev.flash, 0, w);
      if n > 0 {
        WriteSlotTable(d, dev.flash, 0, w, n);
      }
      ScalarsOffSlots(n);
      PutOffSlots(d, f, KEY_STA_ENABLED, Bool(true), n);
    }
  }

  /** A reboot of gap-free flash tracks a list that begins with what the loading
      phase returns; only to an empty one is the environment's network added. */
  lemma RebootIsSound(d: Driver, env: Env, dev: Device, n: nat)
    requires n <= MAX_SLOTS && env.staSsid != Some("") && dev.flash.mounted && GapFree(TableOf(dev.flash, n))
    ensures var dev' := Reboot(d, env, dev, n);
            && Sound(dev', n)
            && (Reloaded(dev.flash, n) != [] ==> dev'.ram.networks == Reloaded(dev.flash, n))
  {
    var t := TableOf(dev.flash, n);
    var m :| FilledTo(t, m);
    ReloadIsCompact(dev.flash, n);
    CompactOfFilled(t, m);
    SeedKeepsSound(d, env, Device(Load(Fresh(env), dev.flash, n), dev.flash), n);
  }

  lemma {:induction false} SeedFrontKeepsList(d: Driver, env: Env, loaded: Device, n: nat)
    requires n <= MAX_SLOTS
    ensures SameList(loaded, SeedFront(d, env, loaded), n)
  {
    hide SeedField;
    var r := loaded.ram;
    ScalarsOffSlots(n);
    var d1 := SeedBool(d, loaded, FetchBool(loaded.flash, KEY_AP_ENABLED).None?, KEY_AP_ENABLED, env.apSsid.Some?);
    PutOffSlots(d, loaded.flash, KEY_AP_ENABLED, Bool(env.apSsid.Some?), n);
    var d2 := SeedBool(d, d1, FetchBool(loaded.flash, KEY_STA_ENABLED).None?, KEY_STA_ENABLED, env.staSsid.Some?);
    PutOffSlots(d, d1.flash, KEY_STA_ENABLED, Bool(env.staSsid.Some?), n);
    var d3 := SeedField(d, d2, r.apSsid.None?, ApSsid, env);
    SeedFieldKeepsList(d, d2, r.apSsid.None?, ApSsid, env, n);
    var d4 := SeedField(d, d3, r.apPassword.None?, ApPassword, env);
    SeedFieldKeepsList(d, d3, r.apPassword.None?, ApPassword, env, n);
    SeedFieldKeepsList(d, d4, r.apGatewayIp.None?, ApGatewayIp, env, n);
  }

  lemma {:induction false} SeedKeepsSound(d: Driver, env: Env, loaded: Device, n: nat)
    requires n <= MAX_SLOTS && env.staSsid != Some("")
    requires Sound(loaded, n) && !Stray(TableOf(loaded.flash, n), loaded.ram.networks)
    ensures var dev' := Seed(d, env, loaded, n);
            Sound(dev', n) && (loaded.ram.networks != [] ==> dev'.ram.networks == loaded.ram.networks)
  {
    hide SeedFront;
    hide SeedField;
    hide SeedNetwork;
    var r := loaded.ram;
    var d5 := SeedFront(d, env, loaded);
    SeedFrontKeepsList(d, env, loaded, n);
    var d6 := SeedNetwork(d, d5, r.networks == [], env, n);
    SeedNetworkKeepsSound(d, d5, env, n);
    var d7 := SeedField(d, d6, r.hostname.None?, Hostname, env);
    SeedFieldKeepsList(d, d6, r.hostname.None?, Hostname, env, n);
    SeedFieldKeepsList(d, d7, r.countryCode.None?, CountryCode, env, n);
  }

  // ── Power cuts during a removal ────────────────────────────────────────────

  /** With no stray slot at the start, no prefix of a removal leaves a gap. */
  lemma CutRemovalLeavesNoGap(t: Table, t': Table, nets: seq<Network>, index: nat, p: nat)
    requires Tracks(t, nets) && !Stray(t, nets) && index < |nets| && Rewritten(t, t', Without(nets, index), p)
    ensures GapFree(t')
  {
    hide Without;
    var after := Without(nets, index);
    var m := if 2 * |after| < p then |after| else |nets|;
    forall i | 0 <= i < |t| ensures t'[i].Some? <==> i < m {
      assert i < |after| ==> after[i] == nets[if i < index then i else i + 1];
      assert t[i].Some? <==> i < |nets|;
    }
    assert FilledTo(t', m);
  }

  /** With a stray slot present, some power cut during the removal does leave a
      gap; the absence of a stray slot is exactly what a caller must check. */
  lemma {:induction false} CutRemovalSafeIff(f: Image, nets: seq<Network>, index: nat, n: nat)
    requires n <= MAX_SLOTS && f.mounted && Tracks(TableOf(f, n), nets) && index < |nets|
    ensures (forall p: nat :: p <= 2 * n ==> GapFree(TableOf(AfterWrites(f, Without(nets, index), p), n)))
            <==> !Stray(TableOf(f, n), nets)
  {
    var after := Without(nets, index);
    if Stray(TableOf(f, n), nets) {
      var p: nat := 2 * |after| + 1;
      var t := TableOf(AfterWrites(f, after, p), n);
      RewritesTable(f, after, p, n);
      assert t[|after|].None? && t[|nets|].Some?;
      assert !GapFree(t);
    } else {
      forall p: nat | p <= 2 * n ensures GapFree(TableOf(AfterWrites(f, after, p), n)) {
        RewritesTable(f, after, p, n);
        CutRemovalLeavesNoGap(TableOf(f, n), TableOf(AfterWrites(f, after, p), n), nets, index, p);
      }
    }
  }

  // ── Whole runs ─────────────────────────────────────────────────────────────

  /** Whatever stores of a call fail or are cut off, what is left has no gap. */
  lemma CutCallLeavesNoGap(d: Driver, dev: Device, call: Call, n: nat)
    requires n <= MAX_SLOTS && Sound(dev, n) && NamesNetwork(call)
    requires call.RemoveNetwork? && call.index < |dev.ram.networks| ==> !Stray(TableOf(dev.flash, n), dev.ram.networks)
    ensures var f := Handle(d, dev, call, n).dev.flash; f.mounted && GapFree(TableOf(f, n))
  {
    if call.RemoveNetwork? && call.index < |dev.ram.networks| {
      var p := RemovalRewrites(d, dev, call.index, n);
      CutRemovalLeavesNoGap(TableOf(dev.flash, n), TableOf(Handle(d, dev, call, n).dev.flash, n), dev.ram.networks, call.index, p);
    } else if call.RemoveNetwork? {
      TrackedIsGapFree(TableOf(dev.flash, n), dev.ram.networks);
    } else {
      OtherCallKeepsSound(d, dev, call, n);
      var dev' := Handle(d, dev, call, n).dev;
      TrackedIsGapFree(TableOf(dev'.flash, n), dev'.ram.networks);
    }
  }

  lemma {:induction false} CutKeepsSound(d: Driver, env: Env, dev: Device, call: Call, k: nat, n: nat)
    requires n <= MAX_SLOTS && env.staSsid != Some("") && Sound(dev, n) && Admissible(d, dev, Cut(call, k), n)
    ensures Sound(StepEvent(d, env, dev, Cut(call, k), n), n)
  {
    hide Handle;
    hide Reboot;
    var d' := Cutoff(d, dev.flash.attempts + k);
    CutCallLeavesNoGap(d', dev, call, n);
    RebootIsSound(d, env, Handle(d', dev, call, n).dev, n);
  }

  lemma {:induction false} CutBootKeepsSound(d: Driver, env: Env, dev: Device, k: nat, n: nat)
    requires n <= MAX_SLOTS && env.staSsid != Some("") && Sound(dev, n)
    ensures Sound(StepEvent(d, env, dev, CutBoot(k), n), n)
  {
    hide Reboot;
    var d' := Cutoff(d, dev.flash.attempts + k);
    TrackedIsGapFree(TableOf(dev.flash, n), dev.ram.networks);
    RebootIsSound(d', env, dev, n);
    var dev' := Reboot(d', env, dev, n);
    TrackedIsGapFree(TableOf(dev'.flash, n), dev'.ram.networks);
    RebootIsSound(d, env, dev', n);
  }

  lemma EventKeepsSound(d: Driver, env: Env, dev: Device, e: Event, n: nat)
    requires n <= MAX_SLOTS && env.staSsid != Some("") && Sound(dev, n) && Admissible(d, dev, e, n)
    ensures Sound(StepEvent(d, env, dev, e, n), n)
  {
    match e {
      case Do(call) => CallKeepsSound(d, env, dev, call, n);
      case Cut(call, k) => CutKeepsSound(d, env, dev, call, k, n);
      case CutBoot(k) => CutBootKeepsSound(d, env, dev, k, n);
      case AppWrite(key, v) => PutOffSlots(d, dev.flash, key, v, n);
      case PowerCycle =>
        TrackedIsGapFree(TableOf(dev.flash, n), dev.ram.networks);
        RebootIsSound(d, env, dev, n);
    }
  }

  lemma {:induction false} CallKeepsSound(d: Driver, env: Env, dev: Device, call: Call, n: nat)
    requires n <= MAX_SLOTS && env.staSsid != Some("") && Sound(dev, n) && Admissible(d, dev, Do(call), n)
    ensures Sound(StepEvent(d, env, dev, Do(call), n), n)
  {
    if call.RemoveNetwork? {
      RemoveKeepsSound(d, dev, call.index, n);
    } else {
      OtherCallKeepsSound(d, dev, call, n);
      var dev' := Handle(d, dev, call, n).dev;
      TrackedIsGapFree(TableOf(dev'.flash, n), dev'.ram.networks);
      RebootIsSound(d, env, dev', n);
    }
  }

  /** Over every admissible run, the RAM list matches flash slot by slot with at
      most one stray slot, so the loading phase returns the normalised RAM list
      plus at most that one entry. */
  lemma {:induction false} RunRefinement(d: Driver, env: Env, dev: Device, events: seq<Event>, n: nat)
    requires n <= MAX_SLOTS && env.staSsid != Some("") && Sound(dev, n)
    requires AllAdmissible(d, env, dev, events, n)
    ensures var s := RunEvents(d, env, dev, events, n);
            && Sound(s, n)
            && Reloaded(s.flash, n) == Normalise(s.ram.networks)
               + (if Stray(TableOf(s.flash, n), s.ram.networks) then [TableOf(s.flash, n)[|s.ram.networks|].value] else [])
    decreases |events|
  {
    if events == [] {
    } else {
      var prior := events[..|events| - 1];
      PriorAdmissible(d, env, dev, events, n);
      RunRefinement(d, env, dev, prior, n);
      EventKeepsSound(d, env, RunEvents(d, env, dev, prior, n), events[|events| - 1], n);
    }
    var s := RunEvents(d, env, dev, events, n);
    ReloadIsCompact(s.flash, n);
    CompactOfTracked(TableOf(s.flash, n), s.ram.networks);
  }

  /** In particular every run that begins by booting from gap-free flash. */
  lemma {:induction false} RebootRefinement(d: Driver, env: Env, dev: Device, events: seq<Event>, n: nat)
    requires n <= MAX_SLOTS && env.staSsid != Some("") && dev.flash.mounted && GapFree(TableOf(dev.flash, n))
    requires AllAdmissible(d, env, Reboot(d, env, dev, n), events, n)
    ensures var s := RunEvents(d, env, Reboot(d, env, dev, n), events, n);
            && Sound(s, n)
            && (Reloaded(s.flash, n) == Normalise(s.ram.networks)
                || exists w :: Reloaded(s.flash, n) == Normalise(s.ram.networks) + [w])
  {
    hide Reboot;
    RebootIsSound(d, env, dev, n);
    RunRefinement(d, env, Reboot(d, env, dev, n), events, n);
  }

  lemma {:induction false} PriorAdmissible(d: Driver, env: Env, start: Device, events: seq<Event>, n: nat)
    requires events != [] && AllAdmissible(d, env, start, events, n)
    ensures var prior := events[..|events| - 1];
            && AllAdmissible(d, env, start, prior, n)
            && Admissible(d, RunEvents(d, env, start, prior, n), events[|events| - 1], n)
  {
    var prior := events[..|events| - 1];
    forall k | 0 <= k < |prior| ensures Admissible(d, RunEvents(d, env, start, prior[..k], n), prior[k], n) {
      assert prior[..k] == events[..k];
    }
  }
}
