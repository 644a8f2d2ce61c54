/** The in-memory session store: a fixed array with holes, least-recently-used
    eviction, and the bounded map it implements. */
module Sessions {
  import opened Prelude

  datatype Expiry = OnInactivity(duration: nat) | AtDateTime(instant: nat)

  datatype Record<D> = Record(id: U64, data: D, expiry: Expiry, lastActive: U64)

  predicate IsExpired<D>(r: Record<D>, now: U64) {
    match r.expiry
    case OnInactivity(duration) => now > r.lastActive + duration
    case AtDateTime(instant) => now > instant
  }

  type Slots<D> = seq<Option<Record<D>>>

  /** `Instant::MAX`. */
  const INSTANT_MAX: U64 := TWO_64 - 1

  // ── What the loops compute ─────────────────────────────────────────────────

  predicate HasId<D>(slot: Option<Record<D>>, id: U64) {
    slot.Some? && slot.value.id == id
  }

  /** The first slot holding `id`, or the length. */
  function Find<D>(slots: Slots<D>, id: U64): (i: nat)
    ensures i <= |slots| && (i < |slots| ==> HasId(slots[i], id))
    ensures forall j :: 0 <= j < i ==> !HasId(slots[j], id)
  {
    if slots == [] then 0
    else if HasId(slots[0], id) then 0
    else 1 + Find(slots[1..], id)
  }

  /** The first slot that is empty or holds `id`, or the length. */
  function FindPlace<D>(slots: Slots<D>, id: U64): (i: nat)
    ensures i <= |slots| && (i < |slots| ==> slots[i].None? || HasId(slots[i], id))
    ensures forall j :: 0 <= j < i ==> slots[j].Some? && !HasId(slots[j], id)
  {
    if slots == [] then 0
    else if slots[0].None? || HasId(slots[0], id) then 0
    else 1 + FindPlace(slots[1..], id)
  }

  /** Slot `i` is the first with the least last activity. */
  predicate IsOldest<D>(slots: Slots<D>, i: nat) {
    && i < |slots| && (forall j :: 0 <= j < |slots| ==> slots[j].Some?)
    && (forall j :: 0 <= j < |slots| ==> slots[i].value.lastActive <= slots[j].value.lastActive)
    && (forall j :: 0 <= j < i ==> slots[i].value.lastActive < slots[j].value.lastActive)
  }

  function LoadAt<D>(slots: Slots<D>, id: U64, now: U64): (Slots<D>, Option<Record<D>>) {
    var i := Find(slots, id);
    if i == |slots| then (slots, None)
    else if IsExpired(slots[i].value, now) then (slots[i := None], None)
    else
      var r := slots[i].value.(lastActive := now);
      (slots[i := Some(r)], Some(r))
  }

  function DeleteAt<D>(slots: Slots<D>, id: U64): (Slots<D>, bool) {
    var i := Find(slots, id);
    if i == |slots| then (slots, false) else (slots[i := None], true)
  }

  /** The state of the store after `save`. */
  ghost predicate Saves<D>(slots: Slots<D>, record: Record<D>, slots': Slots<D>) {
    var i := FindPlace(slots, record.id);
    if i < |slots| then slots' == slots[i := Some(record)]
    else exists j: nat :: IsOldest(slots, j) && slots' == slots[j := Some(record)]
  }

  // ── The store ──────────────────────────────────────────────────────────────

  class LruMemoryStore<D(0)> {
    const records: array<Option<Record<D>>>

    constructor (n: nat)
      ensures fresh(records) && records.Length == n
      ensures forall i :: 0 <= i < n ==> records[i] == None
    {
      records := new Option<Record<D>>[n](_ => None);
    }

    method Load(id: U64, now: U64) returns (r: Option<Record<D>>)
      modifies records
      ensures (records[..], r) == LoadAt(old(records[..]), id, now)
    {
      for i := 0 to records.Length
        invariant records[..] == old(records[..])
        invariant forall j :: 0 <= j < i ==> !HasId(records[j], id)
      {
        if records[i].Some? && records[i].value.id == id {
          assert Find(records[..], id) == i;
          if IsExpired(records[i].value, now) {
            records[i] := None;
            return None;
          }
          var record := records[i].value.(lastActive := now);
          records[i] := Some(record);
          return Some(record);
        }
      }
      r := None;
    }

    /** Updates in place, fills the first hole, or evicts the least recently used. */
    method Save(record: Record<D>) returns (ok: bool)
      requires records.Length > 0
      modifies records
      ensures ok && Saves(old(records[..]), record, records[..])
    {
      var oldestIdx := 0;
      var earliest := INSTANT_MAX;
      for i := 0 to records.Length
        invariant records[..] == old(records[..])
        invariant forall j :: 0 <= j < i ==> records[j].Some? && !HasId(records[j], record.id)
        invariant oldestIdx < records.Length
        invariant forall j :: 0 <= j < i ==> earliest <= records[j].value.lastActive
        invariant (oldestIdx < i && records[oldestIdx].value.lastActive == earliest)
                  || (oldestIdx == 0 && earliest == INSTANT_MAX)
        invariant oldestIdx < i ==> forall j :: 0 <= j < oldestIdx ==> earliest < records[j].value.lastActive
      {
        if records[i].Some? {
          if records[i].value.id == record.id {
            assert FindPlace(records[..], record.id) == i;
            records[i] := Some(record);
            return true;
          }
          if records[i].value.lastActive < earliest {
            earliest := records[i].value.lastActive;
            oldestIdx := i;
          }
        } else {
          assert FindPlace(records[..], record.id) == i;
          records[i] := Some(record);
          return true;
        }
      }
      assert FindPlace(records[..], record.id) == records.Length;
      assert IsOldest(records[..], oldestIdx);
      records[oldestIdx] := Some(record);
      ok := true;
    }

    method Delete(id: U64) returns (ok: bool)
      modifies records
      ensures (records[..], ok) == DeleteAt(old(records[..]), id)
    {
      for i := 0 to records.Length
        invariant records[..] == old(records[..])
        invariant forall j :: 0 <= j < i ==> !HasId(records[j], id)
      {
        if records[i].Some? && records[i].value.id == id {
          assert Find(records[..], id) == i;
          records[i] := None;
          return true;
        }
      }
      ok := false;
    }

    method Exists(id: U64) returns (found: bool)
      ensures found <==> exists i :: 0 <= i < records.Length && HasId(records[i], id)
    {
      for i := 0 to records.Length
        invariant forall j :: 0 <= j < i ==> !HasId(records[j], id)
      {
        if records[i].Some? && records[i].value.id == id {
          return true;
        }
      }
      found := false;
    }
  }

  // ── The bounded map ────────────────────────────────────────────────────────

  predicate UniqueIds<D>(slots: Slots<D>) {
    forall i, j :: 0 <= i < j < |slots| && slots[i].Some? && slots[j].Some? ==> slots[i].value.id != slots[j].value.id
  }

  function Ids<D>(slots: Slots<D>): set<U64> {
    set i | 0 <= i < |slots| && slots[i].Some? :: slots[i].value.id
  }

  /** The map a store stands for. */
  function Live<D>(slots: Slots<D>): (m: map<U64, Record<D>>)
    ensures m.Keys == Ids(slots)
    ensures forall id :: id in m ==> Find(slots, id) < |slots| && m[id] == slots[Find(slots, id)].value
  {
    map id | id in Ids(slots) :: slots[Find(slots, id)].value
  }

  lemma LiveAt<D>(slots: Slots<D>, i: nat)
    requires UniqueIds(slots) && i < |slots| && slots[i].Some?
    ensures slots[i].value.id in Live(slots) && Live(slots)[slots[i].value.id] == slots[i].value
  {
  }

  /** Ids after one slot changed: the others keep theirs. */
  lemma IdsUpdated<D>(slots: Slots<D>, i: nat, v: Option<Record<D>>, id: U64)
    requires UniqueIds(slots) && i < |slots|
    ensures id in Ids(slots[i := v]) <==> HasId(v, id) || (id in Ids(slots) && !HasId(slots[i], id))
  {
    var s' := slots[i := v];
    if HasId(v, id) {
      assert s'[i].value.id == id;
    }
    if id in Ids(slots) && !HasId(slots[i], id) {
      var j :| 0 <= j < |slots| && slots[j].Some? && slots[j].value.id == id;
      assert s'[j] == slots[j];
    }
    if id in Ids(s') && !HasId(v, id) {
      var j :| 0 <= j < |s'| && s'[j].Some? && s'[j].value.id == id;
      assert j != i && slots[j] == s'[j];
    }
  }

  /** One slot changed, keeping ids unique. */
  lemma UniqueUpdated<D>(slots: Slots<D>, i: nat, v: Option<Record<D>>)
    requires UniqueIds(slots) && i < |slots|
    requires v.Some? ==> (v.value.id in Ids(slots) ==> HasId(slots[i], v.value.id))
    ensures UniqueIds(slots[i := v])
  {
  }

  /** The map after one slot changed: at the two ids involved. */
  function LiveChanged<D>(slots: Slots<D>, i: nat, v: Option<Record<D>>): map<U64, Record<D>>
    requires i < |slots|
  {
    var rest := if slots[i].Some? then Live(slots) - {slots[i].value.id} else Live(slots);
    if v.Some? then rest[v.value.id := v.value] else rest
  }

  lemma LiveUpdated<D>(slots: Slots<D>, i: nat, v: Option<Record<D>>)
    requires UniqueIds(slots) && i < |slots|
    requires v.Some? ==> (v.value.id in Ids(slots) ==> HasId(slots[i], v.value.id))
    ensures UniqueIds(slots[i := v]) && Live(slots[i := v]) == LiveChanged(slots, i, v)
  {
    hide Live;
    hide LiveChanged;
    hide Ids;
    hide UniqueIds;
    UniqueUpdated(slots, i, v);
    var s' := slots[i := v];
    forall id ensures id in Live(s') <==> id in LiveChanged(slots, i, v) {
      ChangedKeys(slots, i, v, id);
    }
    forall id | id in Live(s') ensures Live(s')[id] == LiveChanged(slots, i, v)[id] {
      ChangedKeys(slots, i, v, id);
      ChangedEntry(slots, i, v, id);
    }
  }

  lemma ChangedKeys<D>(slots: Slots<D>, i: nat, v: Option<Record<D>>, id: U64)
    requires UniqueIds(slots) && i < |slots|
    ensures id in Live(slots[i := v]) <==> id in LiveChanged(slots, i, v)
  {
    hide Live;
    hide Ids;
    IdsUpdated(slots, i, v, id);
  }

  lemma {:induction false} ChangedEntry<D>(slots: Slots<D>, i: nat, v: Option<Record<D>>, id: U64)
    requires i < |slots| && UniqueIds(slots) && UniqueIds(slots[i := v])
    requires id in Live(slots[i := v]) && id in LiveChanged(slots, i, v)
    ensures Live(slots[i := v])[id] == LiveChanged(slots, i, v)[id]
  {
    hide Live;
    hide Ids;
    hide UniqueIds;
    LiveEntry(slots, i, v, id);
  }

  lemma LiveEntry<D>(slots: Slots<D>, i: nat, v: Option<Record<D>>, id: U64)
    requires UniqueIds(slots) && i < |slots| && UniqueIds(slots[i := v]) && id in Ids(slots[i := v])
    ensures var s' := slots[i := v];
            if HasId(v, id) then Live(s')[id] == v.value else id in Live(slots) && Live(s')[id] == Live(slots)[id]
  {
    var s' := slots[i := v];
    var j := Find(s', id);
    assert j < |s'|;
    LiveAt(s', j);
    if j == i {
    } else {
      LiveAt(slots, j);
      if HasId(v, id) {
        LiveAt(s', i);
      }
    }
  }

  /** `load` is a lookup with expiry: it drops an expired record and touches a
      live one, wherever it sits among holes. */
  lemma {:induction false} LoadRefinesMap<D>(slots: Slots<D>, id: U64, now: U64)
    requires UniqueIds(slots)
    ensures var (slots', r) := LoadAt(slots, id, now);
            var m := Live(slots);
            && UniqueIds(slots') && |slots'| == |slots|
            && (if id !in m then r == None && Live(slots') == m
                else if IsExpired(m[id], now) then r == None && Live(slots') == m - {id}
                else r == Some(m[id].(lastActive := now)) && Live(slots') == m[id := m[id].(lastActive := now)])
  {
    hide IsExpired;
    var i := Find(slots, id);
    if i < |slots| {
      LiveAt(slots, i);
      hide Live;
      if IsExpired(slots[i].value, now) {
        LiveUpdated(slots, i, None);
      } else {
        ReplaceRecord(slots, slots[i].value.(lastActive := now), i);
      }
    }
  }

  lemma {:induction false} DeleteRefinesMap<D>(slots: Slots<D>, id: U64)
    requires UniqueIds(slots)
    ensures var (slots', ok) := DeleteAt(slots, id);
            && UniqueIds(slots') && |slots'| == |slots|
            && Live(slots') == Live(slots) - {id} && (ok <==> id in Live(slots))
  {
    var i := Find(slots, id);
    if i < |slots| {
      LiveAt(slots, i);
      LiveUpdated(slots, i, None);
    } else {
      assert Live(slots) - {id} == Live(slots);
    }
  }

  /** The set of ids in a full store has one member per slot. */
  lemma {:induction false} IdsCount<D>(slots: Slots<D>)
    requires UniqueIds(slots)
    ensures |Ids(slots)| <= |slots|
    ensures (forall i :: 0 <= i < |slots| ==> slots[i].Some?) <==> |Ids(slots)| == |slots|
    decreases |slots|
  {
    if slots != [] {
      var n := |slots| - 1;
      var prior := slots[..n];
      IdsCount(prior);
      if slots[n].Some? {
        assert slots[n].value.id !in Ids(prior);
        assert Ids(slots) == Ids(prior) + {slots[n].value.id};
      } else {
        assert Ids(slots) == Ids(prior);
      }
    }
  }

  /** Saving a fresh id into a map of at most `N` records: it is added if there is
      room; otherwise it displaces exactly one record, of minimal last activity. */
  lemma SaveRefinesMap<D>(slots: Slots<D>, record: Record<D>, slots': Slots<D>) returns (victim: U64)
    requires UniqueIds(slots) && record.id !in Live(slots) && Saves(slots, record, slots')
    ensures UniqueIds(slots') && |slots'| == |slots|
    ensures |Live(slots)| < |slots| ==> Live(slots') == Live(slots)[record.id := record]
    ensures |Live(slots)| >= |slots| ==>
              && |Live(slots)| == |slots| && victim in Live(slots)
              && (forall id :: id in Live(slots) ==> Live(slots)[victim].lastActive <= Live(slots)[id].lastActive)
              && Live(slots') == (Live(slots) - {victim})[record.id := record]
  {
    hide Live;
    hide Ids;
    hide UniqueIds;
    victim := record.id;
    IdsCount(slots);
    assert |Live(slots)| == |Live(slots).Keys|;
    var i := FindPlace(slots, record.id);
    if i < |slots| {
      FreshPlace(slots, record.id, i);
      LiveUpdated(slots, i, Some(record));
    } else {
      var j: nat :| IsOldest(slots, j) && slots' == slots[j := Some(record)];
      victim := slots[j].value.id;
      OldestIsLeast(slots, j);
      LiveUpdated(slots, j, Some(record));
    }
  }

  lemma FreshPlace<D>(slots: Slots<D>, id: U64, i: nat)
    requires id !in Ids(slots) && i == FindPlace(slots, id) && i < |slots|
    ensures slots[i].None?
  {
  }

  lemma OldestIsLeast<D>(slots: Slots<D>, j: nat)
    requires UniqueIds(slots) && IsOldest(slots, j)
    ensures slots[j].value.id in Live(slots)
    ensures forall id :: id in Live(slots) ==> Live(slots)[slots[j].value.id].lastActive <= Live(slots)[id].lastActive
  {
  }

  /** Saving an id that is already stored keeps ids unique exactly when no hole
      precedes its copy; otherwise the store then holds it twice. */
  lemma {:induction false} SaveStoredIdIff<D>(slots: Slots<D>, record: Record<D>, slots': Slots<D>)
    requires UniqueIds(slots) && record.id in Live(slots) && Saves(slots, record, slots')
    ensures UniqueIds(slots') <==> FindPlace(slots, record.id) == Find(slots, record.id)
    ensures UniqueIds(slots') ==> Live(slots') == Live(slots)[record.id := record]
  {
    var i := Find(slots, record.id);
    var p := FindPlace(slots, record.id);
    if p == i {
      ReplaceRecord(slots, record, i);
    } else {
      PlaceBefore(slots, record, slots');
    }
  }

  lemma ReplaceRecord<D>(slots: Slots<D>, r: Record<D>, i: nat)
    requires UniqueIds(slots) && i < |slots| && HasId(slots[i], r.id)
    ensures UniqueIds(slots[i := Some(r)]) && Live(slots[i := Some(r)]) == Live(slots)[r.id := r]
  {
    hide Live;
    hide Ids;
    hide UniqueIds;
    LiveUpdated(slots, i, Some(r));
    Overwrite(Live(slots), r.id, r);
  }

  lemma Overwrite<K, V>(m: map<K, V>, k: K, v: V)
    ensures (m - {k})[k := v] == m[k := v]
  {
  }

  lemma PlaceBefore<D>(slots: Slots<D>, record: Record<D>, slots': Slots<D>)
    requires record.id in Live(slots) && Saves(slots, record, slots')
    requires FindPlace(slots, record.id) != Find(slots, record.id)
    ensures !UniqueIds(slots')
  {
    hide Live;
    hide Ids;
    var i := Find(slots, record.id);
    var p := FindPlace(slots, record.id);
    assert p < i && HasId(slots'[p], record.id) && HasId(slots'[i], record.id);
  }
}
