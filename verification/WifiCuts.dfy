/** What a removal cut short by power can put into the list that was never saved:
    the SSID of one network with the password of another. */
module WifiCuts {
  import opened Prelude
  import opened Flash
  import opened WifiSpec
  import opened WifiKeys
  import opened WifiSlots
  import opened WifiSurvival

  /** The network of slot `k` while network `k + 1` moves into it: the new SSID is
      written, the old password still there. */
  function Mixed(nets: seq<Network>, k: nat): Network
    requires k + 1 < |nets|
  {
    Network(nets[k + 1].ssid, NonEmpty(nets[k].password))
  }

  /** After `p` writes slot `k` is in that state. */
  predicate Halfway(nets: seq<Network>, index: nat, p: nat, k: nat) {
    p == 2 * k + 1 && index <= k < |nets| - 1
  }

  lemma {:induction false} HalfwaySlot(f: Image, nets: seq<Network>, index: nat, n: nat, k: nat)
    requires n <= MAX_SLOTS && f.mounted && InSync(TableOf(f, n), nets) && index <= k < |nets| - 1
    ensures Slot(AfterWrites(f, Without(nets, index), 2 * k + 1), k) == Some(Mixed(nets, k))
  {
    hide SsidKey;
    hide PwKey;
    hide AfterWrites;
    hide Without;
    var after := Without(nets, index);
    var t := TableOf(f, n);
    AfterWritesAt(f, after, 2 * k + 1, k, n);
    assert SlotContents(after, k) == nets[k + 1];
    assert t[k] == Some(NormNetwork(nets[k])) && t[k + 1] == Some(NormNetwork(nets[k + 1]));
  }

  /** Every other slot holds what flash held somewhere before, or nothing. */
  lemma {:induction false} OtherSlots(t: Table, t': Table, nets: seq<Network>, index: nat, p: nat, i: nat)
    requires InSync(t, nets) && Clean(t) && index < |nets| && Rewritten(t, t', Without(nets, index), p)
    requires i < |t| && t'[i].Some? && !Halfway(nets, index, p, i)
    ensures t'[i] in t
  {
    hide Without;
    var after := Without(nets, index);
    var from := if i < index then i else i + 1;
    if i < |after| {
      assert after[i] == nets[from] && t[from] == Some(NormNetwork(nets[from]));
      assert Loaded(SlotContents(after, i)) == t[from];
    }
  }

  /** Cut after `p` of its key writes, a removal leaves flash from which a reload
      finds only networks it would have found before, exactly unless the cut fell
      between the SSID and the password of a moved network and the mixture is not
      by chance one of them. */
  lemma {:induction false} CutInventsNothingIff(f: Image, nets: seq<Network>, index: nat, n: nat, p: nat)
    requires n <= MAX_SLOTS && f.mounted && InSync(TableOf(f, n), nets) && index < |nets| && p <= 2 * n
    ensures var g := AfterWrites(f, Without(nets, index), p);
            (forall v :: v in Reloaded(g, n) ==> v in Reloaded(f, n)) <==>
              (forall k: nat :: Halfway(nets, index, p, k) ==> Mixed(nets, k) in Reloaded(f, n))
  {
    hide AfterWrites;
    hide Reloaded;
    hide Rewritten;
    var g := AfterWrites(f, Without(nets, index), p);
    var t, t' := TableOf(f, n), TableOf(g, n);
    RewritesTable(f, Without(nets, index), p, n);
    ReloadIsCompact(f, n);
    ReloadIsCompact(g, n);
    forall v ensures (v in Reloaded(f, n) <==> Some(v) in t) && (v in Reloaded(g, n) <==> Some(v) in t') {
      CompactFinds(t, v);
      CompactFinds(t', v);
    }
    forall k: nat | Halfway(nets, index, p, k) ensures t'[k] == Some(Mixed(nets, k)) {
      HalfwaySlot(f, nets, index, n, k);
    }
    forall i | 0 <= i < n && t'[i].Some? && !Halfway(nets, index, p, i) ensures t'[i] in t {
      OtherSlots(t, t', nets, index, p, i);
    }
  }

  /** No cut of a removal can invent a network exactly if each network after the
      removed one, with the password of the one before it, is in flash already:
      if they share a password, for instance, or the last one is removed. */
  lemma {:induction false} RemovalInventsNothingIff(f: Image, nets: seq<Network>, index: nat, n: nat)
    requires n <= MAX_SLOTS && f.mounted && InSync(TableOf(f, n), nets) && index < |nets|
    ensures (forall p: nat, v :: p <= 2 * n && v in Reloaded(AfterWrites(f, Without(nets, index), p), n) ==> v in Reloaded(f, n))
            <==> (forall k: nat :: index <= k < |nets| - 1 ==> Mixed(nets, k) in Reloaded(f, n))
  {
    hide AfterWrites;
    hide Reloaded;
    assert |nets| <= n;
    if forall k: nat :: index <= k < |nets| - 1 ==> Mixed(nets, k) in Reloaded(f, n) {
      forall p: nat, v | p <= 2 * n && v in Reloaded(AfterWrites(f, Without(nets, index), p), n) ensures v in Reloaded(f, n) {
        CutInventsNothingIff(f, nets, index, n, p);
      }
    } else {
      var k: nat :| index <= k < |nets| - 1 && Mixed(nets, k) !in Reloaded(f, n);
      CutInventsNothingIff(f, nets, index, n, 2 * k + 1);
      assert Halfway(nets, index, 2 * k + 1, k);
    }
  }
}
