/** The key layout of the WiFi configuration, and what a store leaves alone. */
module WifiKeys {
  import opened Prelude
  import opened Flash
  import opened WifiSpec

  /** The largest list whose slot keys neither collide nor wrap onto a setting. */
  const MAX_SLOTS: nat := 123

  /** The keys documented as reserved for WiFi are those below this one. */
  const RESERVED: Byte := 50

  predicate IsScalarKey(k: Byte) {
    k == KEY_AP_ENABLED || k == KEY_STA_ENABLED || exists field :: k == Key(field)
  }

  /** Slot keys are pairwise distinct and distinct from every setting's key. */
  predicate SlotKeysSeparate(n: nat) {
    && (forall i, j :: 0 <= i < n && 0 <= j < n ==> SsidKey(i) != PwKey(j))
    && (forall i, j :: 0 <= i < j < n ==> SsidKey(i) != SsidKey(j) && PwKey(i) != PwKey(j))
    && (forall i :: 0 <= i < n ==> !IsScalarKey(SsidKey(i)) && !IsScalarKey(PwKey(i)))
  }

  lemma SlotKeyValue(i: nat)
    requires i < MAX_SLOTS
    ensures SsidKey(i) == 10 + 2 * i && PwKey(i) == 11 + 2 * i
  {
  }

  /** The layout is sound exactly up to `MAX_SLOTS`: slot 123 wraps onto key 0. */
  lemma SlotKeysSeparateIff(n: nat)
    ensures SlotKeysSeparate(n) <==> n <= MAX_SLOTS
  {
    if n <= MAX_SLOTS {
      forall i | 0 <= i < n ensures SsidKey(i) == 10 + 2 * i && PwKey(i) == 11 + 2 * i {
        SlotKeyValue(i);
      }
    } else {
      assert SsidKey(MAX_SLOTS) == KEY_AP_ENABLED;
    }
  }

  /** Every WiFi key lies in the reserved range exactly for lists of up to 20. */
  lemma ReservedRangeIff(n: nat)
    ensures (forall i :: 0 <= i < n ==> SsidKey(i) < RESERVED && PwKey(i) < RESERVED) <==> n <= 20
  {
    if n <= 20 {
      forall i | 0 <= i < n ensures SsidKey(i) < RESERVED && PwKey(i) < RESERVED {
        SlotKeyValue(i);
      }
    } else {
      assert SsidKey(20) == 50;
    }
  }

  /** The two images hold the same under key `k`. */
  predicate SameAt(f: Image, g: Image, k: Byte) {
    && f.mounted == g.mounted
    && (k in f.cells <==> k in g.cells)
    && (k in f.cells ==> f.cells[k] == g.cells[k])
  }

  predicate SameSlot(f: Image, g: Image, i: nat) {
    SameAt(f, g, SsidKey(i)) && SameAt(f, g, PwKey(i))
  }

  /** The two images agree on every setting. */
  predicate SameScalars(f: Image, g: Image) {
    && SameAt(f, g, KEY_AP_ENABLED) && SameAt(f, g, KEY_STA_ENABLED)
    && forall field :: SameAt(f, g, Key(field))
  }

  lemma SlotWriteFrame(d: Driver, f: Image, i: nat, w: Network, n: nat)
    requires i < n <= MAX_SLOTS
    ensures var g := WriteSlot(d, f, i, w).0;
            && SameScalars(f, g)
            && (forall j :: 0 <= j < n && j != i ==> SameSlot(f, g, j))
  {
    SlotKeysSeparateIff(n);
    var g := WriteSlot(d, f, i, w).0;
    forall j | 0 <= j < n && j != i ensures SameSlot(f, g, j) {
      SlotKeyValue(i);
      SlotKeyValue(j);
    }
  }
}
