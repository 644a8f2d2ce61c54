/** Recovery from a failed removal: until the next add, any boot and any removal
    that succeeds brings list and slots back together. */
module WifiRecovery {
  import opened Prelude
  import opened Flash
  import opened WifiSpec
  import opened WifiKeys
  import opened WifiSlots
  import opened WifiRuns

  /** Flash has no gap, and the list could be written back, but the two may differ. */
  ghost predicate Mendable(dev: Device, n: nat) {
    && dev.flash.mounted && GapFree(TableOf(dev.flash, n))
    && |dev.ram.networks| <= n && forall i :: 0 <= i < |dev.ram.networks| ==> dev.ram.networks[i].ssid != ""
  }

  predicate RemovesAny(dev: Device, call: Call) {
    call.RemoveNetwork? && call.index < |dev.ram.networks|
  }

  predicate Adds(call: Call) {
    call.AddNetwork? || call.AddAndConnect?
  }

  /** Beyond what `RunRefinement` admits: from a tracked list without a stray slot a
      removal may fail anywhere; until list and slots are together again nothing
      is added and no removal fails. */
  ghost predicate Tolerable(d: Driver, dev: Device, e: Event, n: nat) {
    || (Sound(dev, n) && Admissible(d, dev, e, n))
    || (Sound(dev, n) && !Stray(TableOf(dev.flash, n), dev.ram.networks) && e.Do? && e.call.RemoveNetwork?)
    || match e
       case Do(call) => !Adds(call) && (RemovesAny(dev, call) ==> Remove(d, dev, call.index, n).1)
       case Cut(call, _) => !Adds(call) && !RemovesAny(dev, call)
       case AppWrite(key, _) => OffSlots(key, n)
       case _ => true
  }

  /** A boot, or a removal that returns true. */
  predicate Mends(d: Driver, dev: Device, e: Event, n: nat) {
    match e
    case Do(call) =>
      Handle(d, dev, call, n).outcome.SoftwareReset? || (RemovesAny(dev, call) && Remove(d, dev, call.index, n).1)
    case AppWrite(_, _) => false
    case _ => true
  }

  lemma SoundIsMendable(dev: Device, n: nat)
    requires Sound(dev, n)
    ensures Mendable(dev, n)
  {
    TrackedIsGapFree(TableOf(dev.flash, n), dev.ram.networks);
  }

  /** A complete rewrite, whatever the slots held, makes them track the list. */
  lemma {:induction false} RemovalMends(d: Driver, dev: Device, index: nat, n: nat)
    requires n <= MAX_SLOTS && Mendable(dev, n) && index < |dev.ram.networks| && Remove(d, dev, index, n).1
    ensures Sound(Remove(d, dev, index, n).0, n)
  {
    hide Remove;
    hide Without;
    var p := RemovalRewrites(d, dev, index, n);
    var t := TableOf(Remove(d, dev, index, n).0.flash, n);
    var after := Without(dev.ram.networks, index);
    assert forall i :: 0 <= i < n ==> t[i] == Loaded(SlotContents(after, i));
  }

  /** A failed one, from a tracked list without a stray slot, leaves no gap. */
  lemma {:induction false} FailedRemovalIsMendable(d: Driver, dev: Device, index: nat, n: nat)
    requires n <= MAX_SLOTS && Sound(dev, n) && !Stray(TableOf(dev.flash, n), dev.ram.networks) && index < |dev.ram.networks|
    ensures Mendable(Remove(d, dev, index, n).0, n)
  {
    hide Remove;
    hide Without;
    var p := RemovalRewrites(d, dev, index, n);
    var after := Without(dev.ram.networks, index);
    CutRemovalLeavesNoGap(TableOf(dev.flash, n), TableOf(Remove(d, dev, index, n).0.flash, n), dev.ram.networks, index, p);
  }

  lemma BootMends(d: Driver, env: Env, dev: Device, n: nat)
    requires n <= MAX_SLOTS && env.staSsid != Some("") && Mendable(dev, n)
    ensures Sound(Reboot(d, env, dev, n), n) && Mendable(Reboot(d, env, dev, n), n)
  {
    hide Reboot;
    RebootIsSound(d, env, dev, n);
    SoundIsMendable(Reboot(d, env, dev, n), n);
  }

  /** A call that neither adds nor removes leaves things as they are. */
  lemma {:induction false} OtherCallIsMendable(d: Driver, dev: Device, call: Call, n: nat)
    requires n <= MAX_SLOTS && Mendable(dev, n) && !Adds(call) && !RemovesAny(dev, call)
    ensures Mendable(Handle(d, dev, call, n).dev, n)
  {
    if call.RemoveNetwork? {
      assert Handle(d, dev, call, n).dev == dev;
    } else {
      hide Handle;
      SettingKeepsList(d, dev, call, n);
    }
  }

  lemma {:induction false} CallMends(d: Driver, env: Env, dev: Device, call: Call, n: nat)
    requires n <= MAX_SLOTS && env.staSsid != Some("") && Mendable(dev, n)
    requires !Adds(call) && (RemovesAny(dev, call) ==> Remove(d, dev, call.index, n).1)
    ensures var s := StepEvent(d, env, dev, Do(call), n);
            Mendable(s, n) && (Mends(d, dev, Do(call), n) ==> Sound(s, n))
  {
    hide Reboot;
    hide Remove;
    hide Mendable;
    hide Sound;
    if RemovesAny(dev, call) {
      RemovalMends(d, dev, call.index, n);
      SoundIsMendable(Remove(d, dev, call.index, n).0, n);
    } else {
      OtherCallIsMendable(d, dev, call, n);
      BootMends(d, env, Handle(d, dev, call, n).dev, n);
    }
  }

  lemma {:induction false} BootEventMends(d: Driver, env: Env, dev: Device, e: Event, n: nat)
    requires n <= MAX_SLOTS && env.staSsid != Some("") && Mendable(dev, n)
    requires e.PowerCycle? || e.CutBoot? || (e.Cut? && !Adds(e.during) && !RemovesAny(dev, e.during))
    ensures Sound(StepEvent(d, env, dev, e, n), n) && Mendable(StepEvent(d, env, dev, e, n), n)
  {
    hide Handle;
    hide Reboot;
    hide Mendable;
    hide Sound;
    match e {
      case PowerCycle => BootMends(d, env, dev, n);
      case CutBoot(k) =>
        var d' := Cutoff(d, dev.flash.attempts + k);
        BootMends(d', env, dev, n);
        BootMends(d, env, Reboot(d', env, dev, n), n);
      case Cut(call, k) =>
        var d' := Cutoff(d, dev.flash.attempts + k);
        OtherCallIsMendable(d', dev, call, n);
        BootMends(d, env, Handle(d', dev, call, n).dev, n);
    }
  }

  lemma {:induction false} EventMends(d: Driver, env: Env, dev: Device, e: Event, n: nat)
    requires n <= MAX_SLOTS && env.staSsid != Some("") && Mendable(dev, n) && Tolerable(d, dev, e, n)
    ensures var s := StepEvent(d, env, dev, e, n); Mendable(s, n) && (Mends(d, dev, e, n) ==> Sound(s, n))
  {
    hide StepEvent;
    hide Mendable;
    hide Sound;
    hide Stray;
    hide Remove;
    hide Mends;
    if Sound(dev, n) && Admissible(d, dev, e, n) {
      EventKeepsSound(d, env, dev, e, n);
      SoundIsMendable(StepEvent(d, env, dev, e, n), n);
    } else if e.Do? && RemovesAny(dev, e.call) && !Remove(d, dev, e.call.index, n).1 {
      FailedRemovalEvent(d, env, dev, e.call.index, n);
    } else if e.Do? {
      CallMends(d, env, dev, e.call, n);
    } else if e.AppWrite? {
      AppWriteIsMendable(d, env, dev, e, n);
    } else {
      BootEventMends(d, env, dev, e, n);
    }
  }

  lemma FailedRemovalEvent(d: Driver, env: Env, dev: Device, index: nat, n: nat)
    requires n <= MAX_SLOTS && Sound(dev, n) && !Stray(TableOf(dev.flash, n), dev.ram.networks)
    requires index < |dev.ram.networks| && !Remove(d, dev, index, n).1
    ensures Mendable(StepEvent(d, env, dev, Do(RemoveNetwork(index)), n), n) && !Mends(d, dev, Do(RemoveNetwork(index)), n)
  {
    hide Remove;
    hide Mendable;
    FailedRemovalIsMendable(d, dev, index, n);
  }

  lemma AppWriteIsMendable(d: Driver, env: Env, dev: Device, e: Event, n: nat)
    requires Mendable(dev, n) && e.AppWrite? && OffSlots(e.key, n)
    ensures Mendable(StepEvent(d, env, dev, e, n), n) && !Mends(d, dev, e, n)
  {
    PutOffSlots(d, dev.flash, e.key, e.v, n);
  }

  /** Over every run in which removals may fail, but nothing is added and no second
      removal fails before list and slots are together again: each boot and each
      removal that returns true brings them together, and then `RunRefinement`
      speaks of what follows. */
  lemma {:induction false} FailedRemovalsRecover(d: Driver, env: Env, dev: Device, events: seq<Event>, n: nat)
    requires n <= MAX_SLOTS && env.staSsid != Some("") && Mendable(dev, n)
    requires forall k :: 0 <= k < |events| ==> Tolerable(d, RunEvents(d, env, dev, events[..k], n), events[k], n)
    ensures Mendable(RunEvents(d, env, dev, events, n), n)
    ensures events != [] && Mends(d, RunEvents(d, env, dev, events[..|events| - 1], n), events[|events| - 1], n) ==>
              Sound(RunEvents(d, env, dev, events, n), n)
    decreases |events|
  {
    hide StepEvent;
    hide Mendable;
    hide Mends;
    hide Tolerable;
    if events == [] {
    } else {
      var prior := events[..|events| - 1];
      assert forall k :: 0 <= k < |prior| ==> prior[..k] == events[..k] && prior[k] == events[k];
      FailedRemovalsRecover(d, env, dev, prior, n);
      EventMends(d, env, RunEvents(d, env, dev, prior, n), events[|events| - 1], n);
    }
  }
}
