/** Empty SSIDs: which saved lists reload with a gap, and what the next add then
    does to the slots. */
module WifiBlanks {
  import opened Prelude
  import opened Flash
  import opened WifiSpec
  import opened WifiKeys
  import opened WifiSlots
  import opened WifiRuns
  import opened WifiSurvival

  /** Slot by slot the table is what loading makes of the list, then blanks. The
      list may hold empty SSIDs. */
  predicate Mirrors(t: Table, nets: seq<Network>) {
    |nets| <= |t| && forall i :: 0 <= i < |t| ==> t[i] == Loaded(SlotContents(nets, i))
  }

  /** Every empty SSID stands after all the others. */
  predicate BlanksLast(nets: seq<Network>) {
    forall i, j :: 0 <= i < j < |nets| && nets[i].ssid == "" ==> nets[j].ssid == ""
  }

  /** Any list a caller adds, name by name, is mirrored so; empty names too. */
  lemma {:induction false} AddKeepsMirrors(d: Driver, dev: Device, name: string, pw: Option<string>, n: nat)
    requires n <= MAX_SLOTS && dev.flash.mounted && Mirrors(TableOf(dev.flash, n), dev.ram.networks)
    requires Add(d, dev, name, pw, n).1
    ensures var dev' := Add(d, dev, name, pw, n).0;
            dev'.flash.mounted && Mirrors(TableOf(dev'.flash, n), dev'.ram.networks)
  {
    WriteSlotTable(d, dev.flash, |dev.ram.networks|, Network(name, if pw.Some? then TryText(pw.value) else None), n);
  }

  /** So is the list after a removal that returns true, whatever flash held. */
  lemma RemovalMirrors(d: Driver, dev: Device, index: nat, n: nat)
    requires n <= MAX_SLOTS && dev.flash.mounted && |dev.ram.networks| <= n && Remove(d, dev, index, n).1
    ensures var dev' := Remove(d, dev, index, n).0;
            dev'.flash.mounted && Mirrors(TableOf(dev'.flash, n), dev'.ram.networks)
  {
    var p := RemovalRewrites(d, dev, index, n);
  }

  // ── Gaps ───────────────────────────────────────────────────────────────────

  /** A reloaded list is in step with its slots only if they have no gap. */
  lemma {:induction false} InStepIsFilled(t: Table)
    requires Clean(t) && InSync(t, Compact(t))
    ensures FilledTo(t, |Compact(t)|)
    decreases |t|
  {
    if t != [] {
      var front := t[..|t| - 1];
      var c := Compact(front);
      if |c| < |front| || t[|t| - 1].None? {
        FrontInStep(t);
        InStepIsFilled(front);
      }
    }
  }

  lemma FrontInStep(t: Table)
    requires t != [] && InSync(t, Compact(t))
    ensures var front := t[..|t| - 1];
            var c := Compact(front);
            InSync(front, c) && (t[|t| - 1].Some? && |c| < |front| ==> front[|c|].Some?)
  {
    var front := t[..|t| - 1];
    var c := Compact(front);
    assert forall i :: 0 <= i < |c| ==> Compact(t)[i] == c[i] && front[i] == t[i];
    if t[|t| - 1].Some? && |c| < |front| {
      assert t[|c|] == Some(NormNetwork(Compact(t)[|c|]));
    }
  }

  lemma ReloadInStepIff(t: Table)
    requires Clean(t)
    ensures InSync(t, Compact(t)) <==> GapFree(t)
  {
    if InSync(t, Compact(t)) {
      InStepIsFilled(t);
    }
    if GapFree(t) {
      var m :| FilledTo(t, m);
      CompactOfFilled(t, m);
    }
  }

  /** A table with nothing after its first empty entry is filled up to there. */
  lemma FilledPrefix(t: Table) returns (m: nat)
    requires forall i, j :: 0 <= i < j < |t| && t[i].None? ==> t[j].None?
    ensures FilledTo(t, m)
  {
    m := 0;
    while m < |t| && t[m].Some?
      invariant m <= |t| && forall i :: 0 <= i < m ==> t[i].Some?
    {
      m := m + 1;
    }
  }

  lemma MirrorGapFreeIff(t: Table, nets: seq<Network>)
    requires Mirrors(t, nets)
    ensures GapFree(t) <==> BlanksLast(nets)
  {
    assert forall i :: 0 <= i < |nets| ==> (t[i].None? <==> nets[i].ssid == "");
    assert forall i :: |nets| <= i < |t| ==> t[i].None?;
    if BlanksLast(nets) {
      var m := FilledPrefix(t);
    }
  }

  /** Which lists are safe. Let a list that may hold empty SSIDs be in the slots,
      and be loaded at the next boot. Adding a network then keeps the list in
      flash and in order exactly if no empty SSID stood before another name. */
  lemma {:induction false} BlankSsidSafeIff(f: Image, nets: seq<Network>, w: Network, n: nat)
    requires Mirrors(TableOf(f, n), nets) && |Reloaded(f, n)| < n && Some(NormNetwork(w)) !in TableOf(f, n)
    ensures var r := Reloaded(f, n);
            Covers(TableOf(f, n)[|r| := Some(NormNetwork(w))], r + [w]) <==> BlanksLast(nets)
  {
    hide Mirrors;
    hide BlanksLast;
    hide Clean;
    var t := TableOf(f, n);
    ReloadIsCompact(f, n);
    var pos := CompactEmbeds(t);
    AddKeepsCoverIff(t, Compact(t), w);
    ReloadInStepIff(t);
    MirrorGapFreeIff(t, nets);
  }

  /** Which of the others lose a network: those with a name in the slot the add
      takes, which the reload had counted past, and no second copy of it. */
  lemma {:induction false} BlankSsidLosesIff(f: Image, nets: seq<Network>, w: Network, n: nat)
    requires Mirrors(TableOf(f, n), nets) && |Reloaded(f, n)| < n && Some(NormNetwork(w)) !in TableOf(f, n)
    ensures var r := Reloaded(f, n);
            var t' := TableOf(f, n)[|r| := Some(NormNetwork(w))];
            (exists v :: v in r && Some(v) !in t') <==>
              |r| < |nets| && nets[|r|].ssid != ""
              && forall i :: 0 <= i < |nets| && i != |r| && nets[i].ssid != "" ==> NormNetwork(nets[i]) != NormNetwork(nets[|r|])
  {
    var t := TableOf(f, n);
    ReloadIsCompact(f, n);
    var m := |Compact(t)|;
    forall v ensures v in Compact(t) <==> Some(v) in t {
      CompactFinds(t, v);
    }
    OverwriteLosesIff(t, m, NormNetwork(w));
    assert forall i :: |nets| <= i < n ==> t[i].None?;
    assert forall i :: 0 <= i < |nets| ==> t[i] == Loaded(nets[i]);
  }

  lemma {:induction false} OverwriteLosesIff(t: Table, m: nat, w: Network)
    requires m < |t| && Some(w) !in t
    ensures (exists v :: Some(v) in t && Some(v) !in t[m := Some(w)]) <==>
              t[m].Some? && forall i :: 0 <= i < |t| && i != m ==> t[i] != t[m]
  {
    var t' := t[m := Some(w)];
    if v :| Some(v) in t && Some(v) !in t' {
      forall i | 0 <= i < |t| && i != m ensures t[i] != Some(v) {
        assert t'[i] == t[i];
      }
    }
    if t[m].Some? && forall i :: 0 <= i < |t| && i != m ==> t[i] != t[m] {
      var v := t[m].value;
      assert forall i :: 0 <= i < |t| ==> t'[i] != Some(v);
    }
  }

  /** The shortest such run: an added blank entry becomes a gap when the list is
      next loaded, and the add after that overwrites network `b`. */
  lemma {:induction false} BlankSsidLosesNetwork(d: Driver, ram: Ram, b: string, c: string)
    requires ram.networks == [] && (forall a: nat :: d(a)) && 0 < |b| <= 64 && 0 < |c| <= 64
    ensures var d1 := Add(d, Device(ram, Image(true, map[], 0)), "", None, 3).0;
            var d2 := Add(d, d1, b, None, 3).0;
            var d3 := Device(ram.(networks := Reloaded(d2.flash, 3)), d2.flash);
            var d4 := Add(d, d3, c, None, 3).0;
            && d3.ram.networks == [Network(b, None)]
            && d4.ram.networks == [Network(b, None), Network(c, None)]
            && Reloaded(d4.flash, 3) == [Network(c, None)]
  {
    hide SsidKey;
    hide PwKey;
    var d0 := Device(ram, Image(true, map[], 0));
    assert TableOf(d0.flash, 3) == [None, None, None];
    var d1 := AddSucceeds(d, d0, Network("", None), 3);
    assert TableOf(d1.flash, 3) == [None, None, None];
    var d2 := AddSucceeds(d, d1, Network(b, None), 3);
    var t2 := TableOf(d2.flash, 3);
    assert t2 == [None, Some(Network(b, None)), None];
    CompactOfThree(d2.flash, Network(b, None));
    var d4 := AddSucceeds(d, Device(ram.(networks := Reloaded(d2.flash, 3)), d2.flash), Network(c, None), 3);
    assert TableOf(d4.flash, 3) == [None, Some(Network(c, None)), None];
    CompactOfThree(d4.flash, Network(c, None));
  }

  lemma CompactOfThree(f: Image, w: Network)
    requires TableOf(f, 3) == [None, Some(w), None]
    ensures Reloaded(f, 3) == [w]
  {
  }
}
