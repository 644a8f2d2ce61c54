/** Runs of the session store: least-recently-used eviction, expiry by last use,
    and the finality of a failed load. */
module SessionRuns {
  import opened Prelude
  import opened Sessions

  datatype Op<D> = Load(id: U64, now: U64) | Save(record: Record<D>) | Delete(id: U64)

  /** A session was saved, or successfully loaded, at a time. */
  datatype Use = Use(id: U64, at: U64)

  datatype State<D> = State(slots: Slots<D>, uses: seq<Use>, clock: U64)

  function Empty<D>(n: nat): State<D> {
    State(seq(n, _ => None), [], 0)
  }

  /** Fresh ids, a clock that does not run backwards, and saves stamped with it. */
  predicate Permitted<D>(s: State<D>, op: Op<D>) {
    match op
    case Load(_, now) => s.clock <= now
    case Save(r) => s.clock <= r.lastActive && r.id !in Ids(s.slots)
    case Delete(_) => true
  }

  ghost predicate Next<D>(s: State<D>, op: Op<D>, s': State<D>) {
    match op
    case Load(id, now) =>
      var (slots', r) := LoadAt(s.slots, id, now);
      s' == State(slots', if r.Some? then s.uses + [Use(id, now)] else s.uses, now)
    case Save(r) =>
      Saves(s.slots, r, s'.slots) && s'.uses == s.uses + [Use(r.id, r.lastActive)] && s'.clock == r.lastActive
    case Delete(id) => s' == s.(slots := DeleteAt(s.slots, id).0)
  }

  ghost predicate IsRun<D>(n: nat, states: seq<State<D>>, ops: seq<Op<D>>) {
    && |states| == |ops| + 1 && states[0] == Empty<D>(n)
    && forall k :: 0 <= k < |ops| ==> Permitted(states[k], ops[k]) && Next(states[k], ops[k], states[k + 1])
  }

  /** When a session was last saved or loaded. */
  function LastUse(uses: seq<Use>, id: U64): Option<U64> {
    if uses == [] then None
    else if uses[|uses| - 1].id == id then Some(uses[|uses| - 1].at)
    else LastUse(uses[..|uses| - 1], id)
  }

  /** Every record's last activity is the time of its last use. */
  predicate Stamped<D>(s: State<D>) {
    forall id :: id in Live(s.slots) ==> LastUse(s.uses, id) == Some(Live(s.slots)[id].lastActive)
  }

  /** No use lies in the future. */
  predicate Timely<D>(s: State<D>) {
    forall u :: u in s.uses ==> u.at <= s.clock
  }

  predicate Inv<D>(s: State<D>) {
    UniqueIds(s.slots) && Stamped(s) && Timely(s)
  }

  lemma LastUseAppend(uses: seq<Use>, u: Use, id: U64)
    ensures LastUse(uses + [u], id) == if u.id == id then Some(u.at) else LastUse(uses, id)
  {
  }

  lemma StepKeepsTimely<D>(s: State<D>, op: Op<D>, s': State<D>)
    requires Timely(s) && Permitted(s, op) && Next(s, op, s')
    ensures Timely(s')
  {
    hide Saves;
    hide LoadAt;
    hide DeleteAt;
    hide Ids;
  }

  lemma LoadKeepsStamped<D>(s: State<D>, id: U64, now: U64, s': State<D>)
    requires Inv(s) && Next(s, Load(id, now), s')
    ensures UniqueIds(s'.slots) && Stamped(s') && |s'.slots| == |s.slots|
  {
    hide LastUse;
    hide IsExpired;
    hide UniqueIds;
    hide Live;
    hide Timely;
    LoadRefinesMap(s.slots, id, now);
    forall k | k in Live(s'.slots) ensures LastUse(s'.uses, k) == Some(Live(s'.slots)[k].lastActive) {
      LastUseAppend(s.uses, Use(id, now), k);
    }
  }

  lemma SaveKeepsStamped<D>(s: State<D>, r: Record<D>, s': State<D>)
    requires Inv(s) && r.id !in Ids(s.slots) && Next(s, Save(r), s')
    ensures UniqueIds(s'.slots) && Stamped(s') && |s'.slots| == |s.slots|
  {
    hide LastUse;
    hide UniqueIds;
    hide Live;
    hide Saves;
    hide Timely;
    var victim := SaveRefinesMap(s.slots, r, s'.slots);
    forall k | k in Live(s'.slots) ensures LastUse(s'.uses, k) == Some(Live(s'.slots)[k].lastActive) {
      LastUseAppend(s.uses, Use(r.id, r.lastActive), k);
    }
  }

  lemma {:induction false} StepKeepsInv<D>(s: State<D>, op: Op<D>, s': State<D>)
    requires Inv(s) && Permitted(s, op) && Next(s, op, s')
    ensures Inv(s') && |s'.slots| == |s.slots|
  {
    hide LastUse;
    hide UniqueIds;
    hide Live;
    hide Saves;
    StepKeepsTimely(s, op, s');
    match op {
      case Load(id, now) => LoadKeepsStamped(s, id, now, s');
      case Save(r) => SaveKeepsStamped(s, r, s');
      case Delete(id) => DeleteRefinesMap(s.slots, id);
    }
  }

  lemma {:induction false} RunKeepsInv<D>(n: nat, states: seq<State<D>>, ops: seq<Op<D>>, k: nat)
    requires IsRun(n, states, ops) && k < |states|
    ensures Inv(states[k]) && |states[k].slots| == n
    decreases k
  {
    if k > 0 {
      RunKeepsInv(n, states, ops, k - 1);
      StepKeepsInv(states[k - 1], ops[k - 1], states[k]);
    }
  }

  /** The sessions other than `victim` were all used at or after its last use. */
  predicate UsedSince(uses: seq<Use>, others: set<U64>, victim: U64) {
    && LastUse(uses, victim).Some?
    && forall id :: id in others ==> LastUse(uses, id).Some? && LastUse(uses, id).value >= LastUse(uses, victim).value
  }

  lemma {:induction false} SaveEvictsLeastRecent<D>(s: State<D>, record: Record<D>, slots': Slots<D>, victim: U64)
    requires Inv(s) && record.id !in Ids(s.slots) && Saves(s.slots, record, slots')
    requires victim in Ids(s.slots) && victim !in Ids(slots')
    ensures var others := Ids(s.slots) - {victim};
            && |others| == |s.slots| - 1 && UsedSince(s.uses, others, victim)
            && Ids(slots') == others + {record.id}
  {
    hide Saves;
    hide LastUse;
    hide Ids;
    hide UniqueIds;
    hide Live;
    var v := SaveRefinesMap(s.slots, record, slots');
    var m, m' := Live(s.slots), Live(slots');
    assert m.Keys == Ids(s.slots) && m'.Keys == Ids(slots');
    DisplacedKey(m, m', record, v, |s.slots|, victim);
    OldestUsedFirst(s, victim);
  }

  lemma OldestUsedFirst<D>(s: State<D>, victim: U64)
    requires Stamped(s) && victim in Live(s.slots)
    requires forall id :: id in Live(s.slots) ==> Live(s.slots)[victim].lastActive <= Live(s.slots)[id].lastActive
    ensures UsedSince(s.uses, Live(s.slots).Keys - {victim}, victim)
  {
  }

  /** A key that a save lost is the one it displaced. */
  lemma DisplacedKey<D>(m: map<U64, Record<D>>, m': map<U64, Record<D>>, r: Record<D>, v: U64, n: nat, lost: U64)
    requires |m| < n ==> m' == m[r.id := r]
    requires |m| >= n ==> |m| == n && v in m && m' == (m - {v})[r.id := r]
    requires lost in m && lost !in m'
    ensures |m.Keys - {lost}| == n - 1 && lost == v && m'.Keys == m.Keys - {lost} + {r.id}
  {
  }

  /** The eviction guarantee over every run: a save drops a session only when the
      store is full, and then the other `n - 1` sessions were each saved or loaded
      at or after the dropped one's own last use. */
  lemma EvictionIsLeastRecent<D>(n: nat, states: seq<State<D>>, ops: seq<Op<D>>, k: nat, victim: U64)
    requires IsRun(n, states, ops) && k < |ops| && ops[k].Save?
    requires victim in Ids(states[k].slots) && victim !in Ids(states[k + 1].slots)
    ensures var others := Ids(states[k].slots) - {victim};
            && |others| == n - 1 && UsedSince(states[k].uses, others, victim)
            && Ids(states[k + 1].slots) == others + {ops[k].record.id}
  {
    hide Ids;
    hide Saves;
    RunKeepsInv(n, states, ops, k);
    SaveEvictsLeastRecent(states[k], ops[k].record, states[k + 1].slots, victim);
  }

  /** The sessions other than `id` saved or loaded at or after its own last use. */
  function OthersSince(uses: seq<Use>, id: U64): set<U64> {
    set u | u in uses && u.id != id && LastUse(uses, id).Some? && u.at >= LastUse(uses, id).value :: u.id
  }

  lemma {:induction false} LastUseIsUse(uses: seq<Use>, id: U64)
    requires LastUse(uses, id).Some?
    ensures Use(id, LastUse(uses, id).value) in uses
    decreases |uses|
  {
    if uses[|uses| - 1].id == id {
      assert uses[|uses| - 1] == Use(id, LastUse(uses, id).value);
    } else {
      LastUseIsUse(uses[..|uses| - 1], id);
    }
  }

  /** An eviction is preceded by uses of as many others as the store has slots, the
      session being saved among them. */
  lemma {:induction false} EvictionIsCrowded<D>(s: State<D>, record: Record<D>, s': State<D>, victim: U64)
    requires Inv(s) && Permitted(s, Save(record)) && Next(s, Save(record), s')
    requires victim in Ids(s.slots) && victim !in Ids(s'.slots)
    ensures |OthersSince(s'.uses, victim)| >= |s.slots|
  {
    hide Saves;
    hide Ids;
    hide Live;
    hide LastUse;
    hide UniqueIds;
    SaveEvictsLeastRecent(s, record, s'.slots, victim);
    var others := Ids(s.slots) - {victim};
    LastUseAppend(s.uses, Use(record.id, record.lastActive), victim);
    assert Use(record.id, record.lastActive) in s'.uses;
    LastUseIsUse(s.uses, victim);
    assert record.id in OthersSince(s'.uses, victim);
    forall id | id in others ensures id in OthersSince(s'.uses, victim) {
      LastUseIsUse(s.uses, id);
      assert Use(id, LastUse(s.uses, id).value) in s'.uses;
    }
    assert others + {record.id} <= OthersSince(s'.uses, victim);
    SubsetSize(others + {record.id}, OthersSince(s'.uses, victim));
  }

  lemma {:induction false} SubsetSize<T>(a: set<T>, b: set<T>)
    requires a <= b
    ensures |a| <= |b|
    decreases a
  {
    if x :| x in a {
      SubsetSize(a - {x}, b - {x});
    }
  }

  /** Saving a new session would displace this one: no slot is free, and it is in the
      first of those least recently active. */
  predicate Displaces<D>(slots: Slots<D>, id: U64) {
    exists j :: 0 <= j < |slots|
      && (forall i :: 0 <= i < |slots| ==> slots[i].Some?)
      && slots[j].value.id == id
      && (forall i :: 0 <= i < |slots| ==> slots[j].value.lastActive <= slots[i].value.lastActive)
      && (forall i :: 0 <= i < j ==> slots[j].value.lastActive < slots[i].value.lastActive)
  }

  /** A save of a fresh id drops exactly that session. */
  lemma {:induction false} SaveDropsIff<D>(slots: Slots<D>, record: Record<D>, slots': Slots<D>, id: U64)
    requires UniqueIds(slots) && record.id !in Ids(slots) && Saves(slots, record, slots') && id in Ids(slots)
    ensures id !in Ids(slots') <==> Displaces(slots, id)
  {
    hide Ids;
    hide UniqueIds;
    var i := FindPlace(slots, record.id);
    if i < |slots| {
      FreshPlace(slots, record.id, i);
      IdsUpdated(slots, i, Some(record), id);
    } else {
      var j: nat :| IsOldest(slots, j) && slots' == slots[j := Some(record)];
      IdsUpdated(slots, j, Some(record), id);
      OldestIsOne(slots, j);
    }
  }

  lemma OldestIsOne<D>(slots: Slots<D>, j: nat)
    requires IsOldest(slots, j)
    ensures forall i: nat :: IsOldest(slots, i) ==> i == j
  {
    forall i: nat | IsOldest(slots, i) ensures i == j {
      assert slots[i].Some? && slots[j].Some?;
    }
  }

  /** What may end a session that is stored: its deletion, a load that comes too
      late, or a save after which as many others as there are slots have been
      used since its own last use. */
  ghost predicate MayEnd<D>(s: State<D>, op: Op<D>, s': State<D>, id: U64) {
    match op
    case Load(other, now) => other == id && LoadAt(s.slots, id, now).1.None?
    case Save(_) => |OthersSince(s'.uses, id)| >= |s.slots|
    case Delete(other) => other == id
  }

  lemma {:induction false} StoredUnlessEnded<D>(s: State<D>, op: Op<D>, s': State<D>, id: U64)
    requires Inv(s) && Permitted(s, op) && Next(s, op, s') && id in Live(s.slots) && !MayEnd(s, op, s', id)
    ensures id in Live(s'.slots)
  {
    hide Live;
    hide Saves;
    hide OthersSince;
    hide IsExpired;
    hide Inv;
    match op {
      case Load(other, now) => LoadKeepsOthers(s, other, now, id);
      case Save(r) =>
        if id !in Live(s'.slots) {
          EvictionIsCrowded(s, r, s', id);
        }
      case Delete(other) => DeleteKeepsOthers(s, other, id);
    }
  }

  lemma LoadKeepsOthers<D>(s: State<D>, other: U64, now: U64, id: U64)
    requires Inv(s) && id in Live(s.slots) && !(other == id && LoadAt(s.slots, id, now).1.None?)
    ensures id in Live(LoadAt(s.slots, other, now).0)
  {
    hide Live;
    hide LoadAt;
    LoadRefinesMap(s.slots, other, now);
  }

  lemma DeleteKeepsOthers<D>(s: State<D>, other: U64, id: U64)
    requires Inv(s) && id in Live(s.slots) && other != id
    ensures id in Live(DeleteAt(s.slots, other).0)
  {
    hide Live;
    hide DeleteAt;
    DeleteRefinesMap(s.slots, other);
  }

  /** The converse of the eviction guarantee, over every run: a session stays stored
      while it is not deleted, is loaded in time, and fewer others than there
      are slots are used since its own last use. */
  lemma {:induction false} UncrowdedSessionStays<D>(n: nat, states: seq<State<D>>, ops: seq<Op<D>>, k: nat, m: nat, id: U64)
    requires IsRun(n, states, ops) && k <= m < |states| && id in Live(states[k].slots)
    requires forall i :: k <= i < m ==> !MayEnd(states[i], ops[i], states[i + 1], id)
    ensures id in Live(states[m].slots)
    decreases m
  {
    hide Live;
    hide MayEnd;
    hide Inv;
    hide Next;
    hide Permitted;
    if k < m {
      UncrowdedSessionStays(n, states, ops, k, m - 1, id);
      RunKeepsInv(n, states, ops, m - 1);
      StoredUnlessEnded(states[m - 1], ops[m - 1], states[m], id);
    }
  }

  predicate PolicyHolds(expiry: Expiry, lastUse: U64, now: U64) {
    match expiry
    case OnInactivity(d) => now - lastUse <= d
    case AtDateTime(t) => now <= t
  }

  /** A load succeeds exactly for a stored session whose policy still holds at
      that moment, measured for inactivity from its last use in the run. */
  lemma LoadObeysPolicy<D>(n: nat, states: seq<State<D>>, ops: seq<Op<D>>, k: nat, id: U64, now: U64)
    requires IsRun(n, states, ops) && k < |states|
    ensures var s := states[k];
            var r := LoadAt(s.slots, id, now).1;
            && (id in Live(s.slots) ==> LastUse(s.uses, id).Some?)
            && (r.Some? <==> (id in Live(s.slots) && PolicyHolds(Live(s.slots)[id].expiry, LastUse(s.uses, id).value, now)))
            && (r.Some? ==> r.value == Live(s.slots)[id].(lastActive := now) && !IsExpired(r.value, now))
  {
    hide Live;
    RunKeepsInv(n, states, ops, k);
    LoadRefinesMap(states[k].slots, id, now);
  }

  lemma AbsentStaysAbsent<D>(s: State<D>, op: Op<D>, s': State<D>, id: U64)
    requires Inv(s) && Permitted(s, op) && Next(s, op, s')
    requires id !in Live(s.slots) && (op.Save? ==> op.record.id != id)
    ensures id !in Live(s'.slots)
  {
    hide Live;
    hide Saves;
    match op {
      case Load(other, now) => LoadRefinesMap(s.slots, other, now);
      case Save(r) => var victim := SaveRefinesMap(s.slots, r, s'.slots);
      case Delete(other) => DeleteRefinesMap(s.slots, other);
    }
  }

  /** Session death is permanent: once a load returns `None`, every later load of
      that id does, until the id is saved again. */
  lemma {:induction false} FailedLoadIsFinal<D>(n: nat, states: seq<State<D>>, ops: seq<Op<D>>, k: nat, m: nat, now: U64)
    requires IsRun(n, states, ops) && k < m < |states| && ops[k].Load?
    requires LoadAt(states[k].slots, ops[k].id, ops[k].now).1 == None
    requires forall j :: k < j < m && ops[j].Save? ==> ops[j].record.id != ops[k].id
    ensures ops[k].id !in Live(states[m].slots)
    ensures LoadAt(states[m].slots, ops[k].id, now).1 == None
    decreases m
  {
    hide Next;
    hide Permitted;
    hide Inv;
    hide Live;
    var id := ops[k].id;
    RunKeepsInv(n, states, ops, m - 1);
    if m == k + 1 {
      FailedLoadClears(states[k], ops[k], states[m]);
    } else {
      FailedLoadIsFinal(n, states, ops, k, m - 1, now);
      AbsentStaysAbsent(states[m - 1], ops[m - 1], states[m], id);
    }
    AbsentLoadsNone(states[m].slots, id, now);
  }

  lemma FailedLoadClears<D>(s: State<D>, op: Op<D>, s': State<D>)
    requires Inv(s) && op.Load? && Next(s, op, s') && LoadAt(s.slots, op.id, op.now).1 == None
    ensures op.id !in Live(s'.slots)
  {
  }

  lemma AbsentLoadsNone<D>(slots: Slots<D>, id: U64, now: U64)
    requires id !in Live(slots)
    ensures LoadAt(slots, id, now).1 == None
  {
  }
}
