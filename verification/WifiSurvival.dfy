/** Saved networks survive: over every run of calls, failed and interrupted
    removals, gaps, reboots and power cuts, what is not removed is not lost. */
module WifiSurvival {
  import opened Prelude
  import opened Flash
  import opened WifiSpec
  import opened WifiKeys
  import opened WifiSlots
  import opened WifiRuns

  /** Strictly increasing slots that hold the list's networks one by one. */
  predicate EmbedsBy(nets: seq<Network>, t: Table, pos: seq<nat>) {
    && |pos| == |nets|
    && (forall j :: 0 <= j < |pos| ==> pos[j] < |t| && t[pos[j]] == Some(NormNetwork(nets[j])))
    && (forall j, k :: 0 <= j < k < |pos| ==> pos[j] < pos[k])
  }

  /** Every network of the list sits in flash, in the order of the list. */
  ghost predicate Covers(t: Table, nets: seq<Network>) {
    exists pos :: EmbedsBy(nets, t, pos)
  }

  /** Slot `i` holds network `i` of the list, whatever lies beyond. */
  predicate InSync(t: Table, nets: seq<Network>) {
    |nets| <= |t| && forall i :: 0 <= i < |nets| ==> t[i] == Some(NormNetwork(nets[i]))
  }

  ghost predicate Kept(dev: Device, n: nat) {
    dev.flash.mounted && Covers(TableOf(dev.flash, n), dev.ram.networks)
  }

  /** The list holds network `w`, up to what flash can represent. */
  predicate Saved(nets: seq<Network>, w: Network) {
    exists i :: 0 <= i < |nets| && NormNetwork(nets[i]) == w
  }

  lemma InSyncCovers(t: Table, nets: seq<Network>)
    requires InSync(t, nets)
    ensures Covers(t, nets)
  {
    assert EmbedsBy(nets, t, seq(|nets|, (i: nat) => i));
  }

  lemma {:induction false} PositionFloor(nets: seq<Network>, t: Table, pos: seq<nat>, j: nat)
    requires EmbedsBy(nets, t, pos) && j < |pos|
    ensures j <= pos[j]
    decreases j
  {
    if j > 0 {
      PositionFloor(nets, t, pos, j - 1);
    }
  }

  lemma {:induction false} PositionCeiling(nets: seq<Network>, t: Table, pos: seq<nat>, j: nat)
    requires EmbedsBy(nets, t, pos) && j < |pos|
    ensures pos[j] + (|pos| - 1 - j) <= pos[|pos| - 1]
    decreases |pos| - j
  {
    if j < |pos| - 1 {
      PositionCeiling(nets, t, pos, j + 1);
    }
  }

  // ── Removals ───────────────────────────────────────────────────────────────

  /** After any prefix of a removal's writes, the networks it keeps are still in
      flash and in order: those rewritten in their new slots, the rest where they
      were. Stray slots and gaps do not matter. */
  lemma {:induction false} RemovalKeepsCover(t: Table, t': Table, nets: seq<Network>, index: nat, p: nat)
    requires Clean(t) && Covers(t, nets) && index < |nets| && Rewritten(t, t', Without(nets, index), p)
    ensures Covers(t', Without(nets, index))
  {
    hide EmbedsBy;
    hide Rewritten;
    hide Clean;
    var pos: seq<nat> :| EmbedsBy(nets, t, pos);
    var rest := WithoutEmbeds(t, nets, pos, index);
    var home := RewrittenEmbeds(t, t', Without(nets, index), rest, p);
  }

  lemma WithoutEmbeds(t: Table, nets: seq<Network>, pos: seq<nat>, index: nat) returns (rest: seq<nat>)
    requires EmbedsBy(nets, t, pos) && index < |nets|
    ensures EmbedsBy(Without(nets, index), t, rest)
  {
    rest := pos[..index] + pos[index + 1..];
  }

  lemma {:induction false} RewrittenEmbeds(t: Table, t': Table, nets: seq<Network>, pos: seq<nat>, p: nat) returns (home: seq<nat>)
    requires Clean(t) && EmbedsBy(nets, t, pos) && Rewritten(t, t', nets, p)
    ensures EmbedsBy(nets, t', home)
  {
    hide Clean;
    hide SlotContents;
    hide Loaded;
    home := seq(|nets|, (j: nat) requires j < |nets| => if 2 * j + 2 <= p then j else pos[j]);
    forall j | 0 <= j < |nets| ensures j <= pos[j] && t'[home[j]] == Some(NormNetwork(nets[j])) {
      PositionFloor(nets, t, pos, j);
      RewrittenAt(t, t', nets, p, j, pos[j]);
    }
  }

  lemma RewrittenAt(t: Table, t': Table, nets: seq<Network>, p: nat, j: nat, q: nat)
    requires Clean(t) && Rewritten(t, t', nets, p) && j < |nets| && j <= q < |t|
    requires t[q] == Some(NormNetwork(nets[j]))
    ensures t'[if 2 * j + 2 <= p then j else q] == Some(NormNetwork(nets[j]))
  {
    assert t[q].value.ssid != "";
    assert Loaded(SlotContents(nets, j)) == Some(NormNetwork(nets[j]));
  }

  // ── Adds ───────────────────────────────────────────────────────────────────

  /** Adding a network that flash does not hold keeps the list covered exactly when
      it was in step with the slots: the condition a caller must check. */
  lemma {:induction false} AddKeepsCoverIff(t: Table, nets: seq<Network>, w: Network)
    requires Covers(t, nets) && |nets| < |t| && Some(NormNetwork(w)) !in t
    ensures Covers(t[|nets| := Some(NormNetwork(w))], nets + [w]) <==> InSync(t, nets)
  {
    var m := |nets|;
    var t' := t[m := Some(NormNetwork(w))];
    if InSync(t, nets) {
      InSyncCovers(t', nets + [w]);
    }
    if Covers(t', nets + [w]) {
      var pos: seq<nat> :| EmbedsBy(nets + [w], t', pos);
      assert t'[pos[m]] == Some(NormNetwork((nets + [w])[m]));
      assert pos[m] == m;
      forall i | 0 <= i < m ensures t[i] == Some(NormNetwork(nets[i])) {
        PositionFloor(nets + [w], t', pos, i);
        PositionCeiling(nets + [w], t', pos, i);
        assert pos[i] == i && (nets + [w])[i] == nets[i];
      }
    }
  }

  lemma {:induction false} AddKeepsInSync(d: Driver, dev: Device, name: string, pw: Option<string>, n: nat)
    requires n <= MAX_SLOTS && dev.flash.mounted && name != "" && InSync(TableOf(dev.flash, n), dev.ram.networks)
    ensures var dev' := Add(d, dev, name, pw, n).0;
            && dev'.flash.mounted && InSync(TableOf(dev'.flash, n), dev'.ram.networks)
            && dev.ram.networks <= dev'.ram.networks
  {
    var at := |dev.ram.networks|;
    if TryText(name).Some? && (pw.Some? ==> TryText(pw.value).Some?) && at < n {
      WriteSlotTable(d, dev.flash, at, Network(name, if pw.Some? then TryText(pw.value) else None), n);
    }
  }

  // ── Boots ──────────────────────────────────────────────────────────────────

  lemma {:induction false} CompactEmbeds(t: Table) returns (pos: seq<nat>)
    requires Clean(t)
    ensures EmbedsBy(Compact(t), t, pos)
    decreases |t|
  {
    if t == [] {
      pos := [];
    } else {
      var front := CompactEmbeds(t[..|t| - 1]);
      pos := if t[|t| - 1].Some? then front + [|t| - 1] else front;
    }
  }

  lemma {:induction false} BootOfOccupied(d: Driver, env: Env, dev: Device, n: nat)
    requires n <= MAX_SLOTS && Reloaded(dev.flash, n) != []
    ensures var dev' := Reboot(d, env, dev, n);
            && dev'.flash.mounted == dev.flash.mounted && TableOf(dev'.flash, n) == TableOf(dev.flash, n)
            && dev'.ram.networks == Reloaded(dev.flash, n)
  {
    hide SeedFront;
    hide SeedField;
    var loaded := Device(Load(Fresh(env), dev.flash, n), dev.flash);
    var r := loaded.ram;
    SeedFrontKeepsList(d, env, loaded, n);
    var front := SeedFront(d, env, loaded);
    SeedFieldKeepsList(d, front, r.hostname.None?, Hostname, env, n);
    SeedFieldKeepsList(d, SeedField(d, front, r.hostname.None?, Hostname, env), r.countryCode.None?, CountryCode, env, n);
  }

  /** Whatever flash holds, gaps included, a boot's list is covered by it, and
      contains every network that sat in a slot. */
  lemma {:induction false} BootCovers(d: Driver, env: Env, dev: Device, n: nat)
    requires n <= MAX_SLOTS && env.staSsid != Some("") && dev.flash.mounted
    ensures var dev' := Reboot(d, env, dev, n);
            Kept(dev', n) && forall w :: Some(w) in TableOf(dev.flash, n) ==> Saved(dev'.ram.networks, w)
  {
    hide Reboot;
    var t := TableOf(dev.flash, n);
    var dev' := Reboot(d, env, dev, n);
    ReloadIsCompact(dev.flash, n);
    if Reloaded(dev.flash, n) == [] {
      forall i | 0 <= i < n ensures t[i].None? {
        EmptyCompact(t, i);
      }
      assert FilledTo(t, 0);
      RebootIsSound(d, env, dev, n);
      InSyncCovers(TableOf(dev'.flash, n), dev'.ram.networks);
    } else {
      BootOfOccupied(d, env, dev, n);
      var pos := CompactEmbeds(t);
      forall w | Some(w) in t ensures Saved(dev'.ram.networks, w) {
        OccupiedIsSaved(t, w);
      }
    }
  }

  lemma EmptyCompact(t: Table, i: nat)
    requires Compact(t) == [] && i < |t|
    ensures t[i].None?
  {
    if t[i].Some? {
      CompactFinds(t, t[i].value);
    }
  }

  lemma OccupiedIsSaved(t: Table, w: Network)
    requires Clean(t) && Some(w) in t
    ensures Saved(Compact(t), w)
  {
    CompactFinds(t, w);
    var j :| 0 <= j < |Compact(t)| && Compact(t)[j] == w;
    assert NormNetwork(Compact(t)[j]) == w;
  }

  lemma SavedIsInFlash(t: Table, nets: seq<Network>, w: Network)
    requires Covers(t, nets) && Saved(nets, w)
    ensures Some(w) in t
  {
    var pos: seq<nat> :| EmbedsBy(nets, t, pos);
    var i :| 0 <= i < |nets| && NormNetwork(nets[i]) == w;
    assert t[pos[i]] == Some(w);
  }

  lemma {:induction false} BootKeepsSaved(d: Driver, env: Env, dev: Device, w: Network, n: nat)
    requires n <= MAX_SLOTS && env.staSsid != Some("") && Kept(dev, n) && Saved(dev.ram.networks, w)
    ensures var dev' := Reboot(d, env, dev, n); Kept(dev', n) && Saved(dev'.ram.networks, w)
  {
    hide Reboot;
    hide Saved;
    SavedIsInFlash(TableOf(dev.flash, n), dev.ram.networks, w);
    BootCovers(d, env, dev, n);
  }

  // ── Runs ───────────────────────────────────────────────────────────────────

  /** The call an event makes, if any. */
  function CallOf(e: Event): Option<Call> {
    match e
    case Do(call) => Some(call)
    case Cut(call, _) => Some(call)
    case _ => None
  }

  /** Adds have a name and, unless the list is full, find it in step with the
      slots; other stores keep off the slot keys. Nothing is asked of removals. */
  predicate CarefulCall(dev: Device, call: Call, n: nat) {
    call.AddNetwork? || call.AddAndConnect? ==>
      call.name != "" && (|dev.ram.networks| < n ==> InSync(TableOf(dev.flash, n), dev.ram.networks))
  }

  predicate Careful(dev: Device, e: Event, n: nat) {
    && (CallOf(e).Some? ==> CarefulCall(dev, CallOf(e).value, n))
    && (e.AppWrite? ==> OffSlots(e.key, n))
  }

  /** A removal of network `w` itself. */
  predicate RemovesIt(nets: seq<Network>, call: Call, w: Network) {
    call.RemoveNetwork? && call.index < |nets| && NormNetwork(nets[call.index]) == w
  }

  ghost predicate SparesAll(d: Driver, env: Env, start: Device, events: seq<Event>, w: Network, n: nat) {
    forall k :: 0 <= k < |events| ==>
      var s := RunEvents(d, env, start, events[..k], n);
      && Careful(s, events[k], n)
      && (CallOf(events[k]).Some? ==> !RemovesIt(s.ram.networks, CallOf(events[k]).value, w))
  }

  /** Every call, whichever of its stores fail or are cut off. */
  lemma {:induction false} CallKeepsSaved(d: Driver, dev: Device, call: Call, w: Network, n: nat)
    requires n <= MAX_SLOTS && Kept(dev, n) && CarefulCall(dev, call, n)
    requires Saved(dev.ram.networks, w) && !RemovesIt(dev.ram.networks, call, w)
    ensures var dev' := Handle(d, dev, call, n).dev; Kept(dev', n) && Saved(dev'.ram.networks, w)
  {
    if !OnList(call) {
      hide Handle;
      SettingKeepsList(d, dev, call, n);
    } else if call.RemoveNetwork? {
      if call.index < |dev.ram.networks| {
        RemovalKeepsSaved(d, dev, call.index, w, n);
      }
    } else if |dev.ram.networks| < n {
      AddKeepsInSync(d, dev, call.name, call.pw, n);
      var dev' := Handle(d, dev, call, n).dev;
      InSyncCovers(TableOf(dev'.flash, n), dev'.ram.networks);
    }
  }

  lemma {:induction false} RemovalKeepsSaved(d: Driver, dev: Device, index: nat, w: Network, n: nat)
    requires n <= MAX_SLOTS && Kept(dev, n) && Saved(dev.ram.networks, w)
    requires index < |dev.ram.networks| && NormNetwork(dev.ram.networks[index]) != w
    ensures var dev' := Remove(d, dev, index, n).0; Kept(dev', n) && Saved(dev'.ram.networks, w)
  {
    hide Remove;
    hide Saved;
    hide Rewritten;
    hide Without;
    var p := RemovalRewrites(d, dev, index, n);
    RemovalKeepsCover(TableOf(dev.flash, n), TableOf(Remove(d, dev, index, n).0.flash, n), dev.ram.networks, index, p);
    WithoutKeepsOthers(dev.ram.networks, index, w);
  }

  lemma WithoutKeepsOthers(nets: seq<Network>, index: nat, w: Network)
    requires index < |nets| && Saved(nets, w) && NormNetwork(nets[index]) != w
    ensures Saved(Without(nets, index), w)
  {
    hide Without;
    var i: nat :| i < |nets| && NormNetwork(nets[i]) == w;
    var home := if i < index then i else i - 1;
    assert Without(nets, index)[home] == nets[i];
  }

  lemma {:induction false} EventKeepsSaved(d: Driver, env: Env, dev: Device, e: Event, w: Network, n: nat)
    requires n <= MAX_SLOTS && env.staSsid != Some("") && Kept(dev, n) && Careful(dev, e, n)
    requires Saved(dev.ram.networks, w) && (CallOf(e).Some? ==> !RemovesIt(dev.ram.networks, CallOf(e).value, w))
    ensures var s := StepEvent(d, env, dev, e, n); Kept(s, n) && Saved(s.ram.networks, w)
  {
    hide Handle;
    hide Reboot;
    hide Saved;
    match e {
      case Do(call) =>
        CallKeepsSaved(d, dev, call, w, n);
        BootKeepsSaved(d, env, Handle(d, dev, call, n).dev, w, n);
      case Cut(call, k) =>
        var d' := Cutoff(d, dev.flash.attempts + k);
        CallKeepsSaved(d', dev, call, w, n);
        BootKeepsSaved(d, env, Handle(d', dev, call, n).dev, w, n);
      case CutBoot(k) =>
        var d' := Cutoff(d, dev.flash.attempts + k);
        BootKeepsSaved(d', env, dev, w, n);
        BootKeepsSaved(d, env, Reboot(d', env, dev, n), w, n);
      case PowerCycle => BootKeepsSaved(d, env, dev, w, n);
      case AppWrite(key, v) => PutOffSlots(d, dev.flash, key, v, n);
    }
  }

  /** A saved network survives every run that does not remove it: failed removals
      of others, removals cut anywhere by power, stray slots and gaps included. At
      every moment it is in the list, and a reload would find it. */
  lemma {:induction false} SavedNetworkSurvives(d: Driver, env: Env, dev: Device, events: seq<Event>, w: Network, n: nat)
    requires n <= MAX_SLOTS && env.staSsid != Some("") && Kept(dev, n) && Saved(dev.ram.networks, w)
    requires SparesAll(d, env, dev, events, w, n)
    ensures var s := RunEvents(d, env, dev, events, n);
            Kept(s, n) && Saved(s.ram.networks, w) && w in Reloaded(s.flash, n)
    decreases |events|
  {
    if events == [] {
    } else {
      var prior := events[..|events| - 1];
      assert forall k :: 0 <= k < |prior| ==> prior[..k] == events[..k];
      SavedNetworkSurvives(d, env, dev, prior, w, n);
      EventKeepsSaved(d, env, RunEvents(d, env, dev, prior, n), events[|events| - 1], w, n);
    }
    var s := RunEvents(d, env, dev, events, n);
    SavedIsInFlash(TableOf(s.flash, n), s.ram.networks, w);
    ReloadIsCompact(s.flash, n);
    CompactFinds(TableOf(s.flash, n), w);
  }

  /** In particular every run that `RunRefinement` admits. */
  lemma {:induction false} AdmissibleRunsKeepSaved(d: Driver, env: Env, dev: Device, events: seq<Event>, w: Network, n: nat)
    requires n <= MAX_SLOTS && env.staSsid != Some("") && Sound(dev, n) && Saved(dev.ram.networks, w)
    requires AllAdmissible(d, env, dev, events, n)
    requires forall k :: 0 <= k < |events| && CallOf(events[k]).Some? ==>
               !RemovesIt(RunEvents(d, env, dev, events[..k], n).ram.networks, CallOf(events[k]).value, w)
    ensures var s := RunEvents(d, env, dev, events, n);
            Sound(s, n) && Saved(s.ram.networks, w) && w in Reloaded(s.flash, n)
  {
    hide RunEvents;
    forall k | 0 <= k < |events|
      ensures var s := RunEvents(d, env, dev, events[..k], n); Careful(s, events[k], n)
    {
      assert forall i :: 0 <= i < k ==> events[..k][..i] == events[..i];
      RunRefinement(d, env, dev, events[..k], n);
    }
    RunRefinement(d, env, dev, events, n);
    InSyncCovers(TableOf(dev.flash, n), dev.ram.networks);
    SavedNetworkSurvives(d, env, dev, events, w, n);
  }
}
