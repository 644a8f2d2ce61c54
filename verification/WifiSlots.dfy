/** The saved-network list over its flash slots: what the loading phase makes of
    them, and what each prefix of a removal's key writes leaves in them. */
module WifiSlots {
  import opened Prelude
  import opened Flash
  import opened WifiSpec
  import opened WifiKeys

  // ── Normalised lists ───────────────────────────────────────────────────────

  /** A network as flash can represent it. */
  function NormNetwork(w: Network): Network {
    w.(password := NonEmpty(w.password))
  }

  /** What a reload makes of a list: empty SSIDs vanish, empty passwords become `None`. */
  function Normalise(nets: seq<Network>): seq<Network> {
    if nets == [] then []
    else
      var rest := Normalise(nets[..|nets| - 1]);
      var w := nets[|nets| - 1];
      if w.ssid == "" then rest else rest + [NormNetwork(w)]
  }

  /** Slot `i` holds network `w` whole, SSID and password. */
  predicate Holds(f: Image, i: nat, w: Network) {
    && FetchText(f, SsidKey(i)) == Some(w.ssid)
    && FetchText(f, PwKey(i)).GetOr("") == w.password.GetOr("")
  }

  /** What the loading phase makes of a slot holding `w`. */
  function Loaded(w: Network): Option<Network> {
    if w.ssid == "" then None else Some(NormNetwork(w))
  }

  lemma HeldSlotLoads(f: Image, i: nat, w: Network)
    requires Holds(f, i, w)
    ensures Slot(f, i) == Loaded(w)
  {
  }

  // ── Loading ────────────────────────────────────────────────────────────────

  /** The slots as the loading phase sees them. */
  type Table = seq<Option<Network>>

  /** Flash yields no empty SSID and no empty password. */
  predicate Clean(t: Table) {
    forall i :: 0 <= i < |t| && t[i].Some? ==> t[i].value.ssid != "" && NormNetwork(t[i].value) == t[i].value
  }

  function TableOf(f: Image, n: nat): (t: Table)
    ensures |t| == n && (forall i :: 0 <= i < n ==> t[i] == Slot(f, i))
    ensures Clean(t)
  {
    seq(n, (i: nat) => Slot(f, i))
  }

  /** The occupied entries of a table, in order. */
  function Compact(t: Table): (nets: seq<Network>)
    ensures |nets| <= |t|
  {
    if t == [] then []
    else
      var s := t[|t| - 1];
      if s.Some? then Compact(t[..|t| - 1]) + [s.value] else Compact(t[..|t| - 1])
  }

  /** The list the loading phase builds from flash alone. */
  function Reloaded(f: Image, n: nat): seq<Network> {
    LoadSlots([], f, 0, n)
  }

  /** Starting from an empty list, the loading loop never hits its capacity. */
  lemma {:induction false} LoadIsCompact(f: Image, i: nat, n: nat)
    requires i <= n
    ensures LoadSlots(Compact(TableOf(f, n)[..i]), f, i, n) == Compact(TableOf(f, n))
    decreases n - i
  {
    hide Slot;
    var t := TableOf(f, n);
    if i < n {
      assert t[..i + 1][..i] == t[..i] && t[..i + 1][i] == Slot(f, i);
      LoadIsCompact(f, i + 1, n);
    } else {
      assert t[..i] == t;
    }
  }

  lemma ReloadIsCompact(f: Image, n: nat)
    ensures Reloaded(f, n) == Compact(TableOf(f, n))
  {
    assert TableOf(f, n)[..0] == [];
    LoadIsCompact(f, 0, n);
  }

  /** A reload finds every occupied slot, and nothing else. */
  lemma {:induction false} CompactFinds(t: Table, w: Network)
    ensures w in Compact(t) <==> Some(w) in t
    decreases |t|
  {
    if t != [] {
      CompactFinds(t[..|t| - 1], w);
      assert t == t[..|t| - 1] + [t[|t| - 1]];
    }
  }

  /** Slots holding a list, then blanks, reload as that list normalised. */
  lemma {:induction false} CompactIsNormalised(t: Table, nets: seq<Network>)
    requires |nets| <= |t|
    requires forall i :: 0 <= i < |nets| ==> t[i] == Loaded(nets[i])
    requires forall i :: |nets| <= i < |t| ==> t[i].None?
    ensures Compact(t) == Normalise(nets)
    decreases |t|
  {
    if t == [] {
    } else if |t| == |nets| {
      CompactIsNormalised(t[..|t| - 1], nets[..|t| - 1]);
    } else {
      CompactIsNormalised(t[..|t| - 1], nets);
    }
  }

  // ── The writes of a removal ────────────────────────────────────────────────

  /** Flash after the first `p` key writes that put `nets` and blanks into the
      slots: slot by slot, the SSID before the password. */
  function AfterWrites(f: Image, nets: seq<Network>, p: nat): Image {
    if p == 0 then f
    else
      var g := AfterWrites(f, nets, p - 1);
      var i := (p - 1) / 2;
      var w := SlotContents(nets, i);
      if (p - 1) % 2 == 0 then g.(cells := g.cells[SsidKey(i) := Str(w.ssid)])
      else g.(cells := g.cells[PwKey(i) := Str(w.password.GetOr(""))])
  }

  /** What each slot key holds after `p` writes. */
  lemma {:induction false} AfterWritesAt(f: Image, nets: seq<Network>, p: nat, i: nat, n: nat)
    requires i < n <= MAX_SLOTS && p <= 2 * n && f.mounted
    ensures var g := AfterWrites(f, nets, p);
            var w := SlotContents(nets, i);
            && g.mounted
            && (if 2 * i < p then FetchText(g, SsidKey(i)) == Some(w.ssid) else SameAt(f, g, SsidKey(i)))
            && (if 2 * i + 1 < p then FetchText(g, PwKey(i)) == Some(w.password.GetOr("")) else SameAt(f, g, PwKey(i)))
    decreases p
  {
    hide SsidKey;
    hide PwKey;
    hide SlotContents;
    if p > 0 {
      AfterWritesAt(f, nets, p - 1, i, n);
      var k := (p - 1) / 2;
      assert p - 1 == 2 * k || p - 1 == 2 * k + 1;
      SlotKeyValue(i);
      SlotKeyValue(k);
    }
  }

  /** The two writes of slot `i`. */
  lemma SlotWrites(f: Image, nets: seq<Network>, i: nat)
    ensures var w := SlotContents(nets, i);
            var c := AfterWrites(f, nets, 2 * i).cells;
            && AfterWrites(f, nets, 2 * i + 1).cells == c[SsidKey(i) := Str(w.ssid)]
            && AfterWrites(f, nets, 2 * (i + 1)).cells == c[SsidKey(i) := Str(w.ssid)][PwKey(i) := Str(w.password.GetOr(""))]
  {
  }

  /** Rewriting the slots performs a prefix of those writes; it reports success
      exactly when the prefix is everything. */
  lemma {:induction false} WriteSlotsIsPrefix(d: Driver, f: Image, g: Image, nets: seq<Network>, i: nat, n: nat) returns (p: nat)
    requires i <= n && f.mounted && g.cells == AfterWrites(f, nets, 2 * i).cells && g.mounted
    ensures 2 * i <= p <= 2 * n
    ensures var (h, ok) := WriteSlots(d, g, nets, i, n);
            h.mounted && h.cells == AfterWrites(f, nets, p).cells && (ok <==> p == 2 * n)
    decreases n - i
  {
    hide AfterWrites;
    hide SlotContents;
    hide SsidKey;
    hide PwKey;
    p := 2 * i;
    if i < n {
      SlotWrites(f, nets, i);
      var w := SlotContents(nets, i);
      var (g1, ok1) := Put(d, g, SsidKey(i), Str(w.ssid));
      if ok1 {
        p := 2 * i + 1;
        var (g2, ok2) := Put(d, g1, PwKey(i), Str(w.password.GetOr("")));
        if ok2 {
          p := WriteSlotsIsPrefix(d, f, g2, nets, i + 1, n);
        }
      }
    }
  }

  /** Table `t'` is `t` after `p` of the key writes that put `nets` and blanks into
      the slots. A slot rewritten with what it held is never disturbed. */
  predicate Rewritten(t: Table, t': Table, nets: seq<Network>, p: nat) {
    && |t'| == |t| && p <= 2 * |t|
    && forall i :: 0 <= i < |t| ==>
         var content := Loaded(SlotContents(nets, i));
         && (p <= 2 * i ==> t'[i] == t[i])
         && (2 * i < p ==> (t'[i].Some? <==> content.Some?))
         && (2 * i + 1 < p || t[i] == content ==> t'[i] == content)
  }

  lemma {:induction false} SlotRewritten(f: Image, nets: seq<Network>, p: nat, n: nat, i: nat)
    requires i < n <= MAX_SLOTS && p <= 2 * n && f.mounted
    ensures var g := AfterWrites(f, nets, p);
            var content := Loaded(SlotContents(nets, i));
            && g.mounted
            && (p <= 2 * i ==> Slot(g, i) == Slot(f, i))
            && (2 * i < p ==> (Slot(g, i).Some? <==> content.Some?))
            && (2 * i + 1 < p || Slot(f, i) == content ==> Slot(g, i) == content)
  {
    AfterWritesAt(f, nets, p, i, n);
  }

  lemma RewritesTable(f: Image, nets: seq<Network>, p: nat, n: nat)
    requires n <= MAX_SLOTS && p <= 2 * n && f.mounted
    ensures Rewritten(TableOf(f, n), TableOf(AfterWrites(f, nets, p), n), nets, p)
  {
    hide Slot;
    hide AfterWrites;
    hide SlotContents;
    hide Loaded;
    forall i | 0 <= i < n
      ensures var content := Loaded(SlotContents(nets, i));
              var t, t' := TableOf(f, n), TableOf(AfterWrites(f, nets, p), n);
              && (p <= 2 * i ==> t'[i] == t[i])
              && (2 * i < p ==> (t'[i].Some? <==> content.Some?))
              && (2 * i + 1 < p || t[i] == content ==> t'[i] == content)
    {
      SlotRewritten(f, nets, p, n, i);
    }
  }

  lemma SameCells(f: Image, g: Image, n: nat)
    requires f.mounted && g.mounted && f.cells == g.cells
    ensures TableOf(f, n) == TableOf(g, n)
  {
  }

  lemma {:induction false} AfterWritesMounted(f: Image, nets: seq<Network>, p: nat)
    requires f.mounted
    ensures AfterWrites(f, nets, p).mounted
    decreases p
  {
    if p > 0 {
      AfterWritesMounted(f, nets, p - 1);
    }
  }

  /** A removal, however it ends, is the list's removal in RAM and a prefix of the
      rewrite in flash, the whole of it exactly if it returns true. */
  lemma RemovalRewrites(d: Driver, dev: Device, index: nat, n: nat) returns (p: nat)
    requires n <= MAX_SLOTS && dev.flash.mounted && index < |dev.ram.networks|
    ensures var (dev', ok) := Remove(d, dev, index, n);
            && dev'.flash.mounted && dev'.ram.networks == Without(dev.ram.networks, index)
            && Rewritten(TableOf(dev.flash, n), TableOf(dev'.flash, n), dev'.ram.networks, p)
            && (ok <==> p == 2 * n)
  {
    hide AfterWrites;
    hide Rewritten;
    var nets := Without(dev.ram.networks, index);
    p := WriteSlotsIsPrefix(d, dev.flash, dev.flash, nets, 0, n) by { AfterNoWrites(dev.flash, nets); }
    RewritesTable(dev.flash, nets, p, n);
    AfterWritesMounted(dev.flash, nets, p);
    SameCells(AfterWrites(dev.flash, nets, p), WriteSlots(d, dev.flash, nets, 0, n).0, n);
  }

  lemma AfterNoWrites(f: Image, nets: seq<Network>)
    ensures AfterWrites(f, nets, 0) == f
  {
  }

  /** Removal is safe against a power cut: with the list in the first slots,
      after any prefix of the key writes every network but the removed one still
      sits whole in some slot, and a reload finds it unless its SSID is empty. */
  lemma {:induction false} RemovalSurvivesPowerCut(f: Image, nets: seq<Network>, index: nat, n: nat, p: nat, j: nat)
    requires f.mounted && index < |nets| <= n <= MAX_SLOTS && p <= 2 * n
    requires forall i :: 0 <= i < |nets| ==> Holds(f, i, nets[i])
    requires j < |nets| && j != index
    ensures var g := AfterWrites(f, Without(nets, index), p);
            && (exists i :: 0 <= i < n && Holds(g, i, nets[j]))
            && (nets[j].ssid != "" ==> NormNetwork(nets[j]) in Reloaded(g, n))
  {
    var after := Without(nets, index);
    var g := AfterWrites(f, after, p);
    var home := if j < index then j else j - 1;   // where the removal puts nets[j]
    assert after[home] == nets[j];
    AfterWritesAt(f, after, p, home, n);
    AfterWritesAt(f, after, p, j, n);
    var i := if p >= 2 * home + 2 then home else j;
    assert Holds(g, i, nets[j]);
    HeldSlotLoads(g, i, nets[j]);
    ReloadIsCompact(g, n);
    CompactFinds(TableOf(g, n), NormNetwork(nets[j]));
  }

  /** All the writes done, every slot encodes the list. */
  lemma {:induction false} FullRewriteEncodes(f: Image, g: Image, nets: seq<Network>, n: nat)
    requires f.mounted && g.mounted && |nets| <= n <= MAX_SLOTS
    requires g.cells == AfterWrites(f, nets, 2 * n).cells
    ensures forall i :: 0 <= i < n ==> Holds(g, i, SlotContents(nets, i))
    ensures Reloaded(g, n) == Normalise(nets)
  {
    forall i | 0 <= i < n
      ensures Holds(g, i, SlotContents(nets, i))
      ensures TableOf(g, n)[i] == Loaded(SlotContents(nets, i))
    {
      AfterWritesAt(f, nets, 2 * n, i, n);
      HeldSlotLoads(g, i, SlotContents(nets, i));
    }
    ReloadIsCompact(g, n);
    CompactIsNormalised(TableOf(g, n), nets);
  }

  /** Whenever a removal returns true, every slot encodes exactly the RAM list,
      whatever flash held before, and a reload returns that list normalised. */
  lemma RemovalResynchronises(d: Driver, dev: Device, index: nat, n: nat)
    requires dev.flash.mounted && |dev.ram.networks| <= n <= MAX_SLOTS
    requires Remove(d, dev, index, n).1
    ensures var dev' := Remove(d, dev, index, n).0;
            && index < |dev.ram.networks| && dev'.ram.networks == Without(dev.ram.networks, index)
            && (forall i :: 0 <= i < n ==> Holds(dev'.flash, i, SlotContents(dev'.ram.networks, i)))
            && Reloaded(dev'.flash, n) == Normalise(dev'.ram.networks)
  {
    var nets := Without(dev.ram.networks, index);
    var p := WriteSlotsIsPrefix(d, dev.flash, dev.flash, nets, 0, n);
    FullRewriteEncodes(dev.flash, WriteSlots(d, dev.flash, nets, 0, n).0, nets, n);
  }
}
