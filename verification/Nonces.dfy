/** The nonce store: a ring of the last `N` insertions, each usable once. */
module Nonces {
  import opened Prelude

  const NONCE_LIFETIME: nat := 30 * TICK_HZ

  datatype Entry = Entry(nonce: U64, at: U64)

  datatype Ring = Ring(slots: seq<Entry>, next: nat)

  /** `saturating_duration_since`. */
  function Since(now: U64, at: U64): nat {
    if now >= at then now - at else 0
  }

  /** The first slot holding `nonce`, or the length. */
  function FindNonce(slots: seq<Entry>, nonce: U64): (i: nat)
    ensures i <= |slots| && (i < |slots| ==> slots[i].nonce == nonce)
    ensures forall j :: 0 <= j < i ==> slots[j].nonce != nonce
  {
    if slots == [] then 0
    else if slots[0].nonce == nonce then 0
    else 1 + FindNonce(slots[1..], nonce)
  }

  function Blank(n: nat): Ring {
    Ring(seq(n, _ => Entry(0, 0)), 0)
  }

  function Inserted(r: Ring, nonce: U64, now: U64): Ring
    requires r.next < |r.slots|
  {
    Ring(r.slots[r.next := Entry(nonce, now)], (r.next + 1) % |r.slots|)
  }

  /** A nonce found is consumed, in time or not; its slot keeps the time. */
  function Verified(r: Ring, nonce: U64, now: U64): (Ring, bool) {
    var i := FindNonce(r.slots, nonce);
    if i == |r.slots| then (r, false)
    else (r.(slots := r.slots[i := r.slots[i].(nonce := 0)]), Since(now, r.slots[i].at) < NONCE_LIFETIME)
  }

  class NonceStore {
    const nonces: array<Entry>
    var nextIdx: nat

    ghost function View(): Ring
      reads this, nonces
    {
      Ring(nonces[..], nextIdx)
    }

    ghost predicate Valid()
      reads this
    {
      nextIdx < nonces.Length
    }

    constructor (n: nat)
      requires n > 0
      ensures Valid() && fresh(nonces) && View() == Blank(n)
    {
      nonces := new Entry[n](_ => Entry(0, 0));
      nextIdx := 0;
      new;
      assert nonces[..] == seq(n, _ => Entry(0, 0));
    }

    method Insert(nonce: U64, now: U64)
      requires Valid()
      modifies this, nonces
      ensures Valid() && View() == Inserted(old(View()), nonce, now)
    {
      nonces[nextIdx] := Entry(nonce, now);
      nextIdx := (nextIdx + 1) % nonces.Length;
    }

    method Verify(nonce: U64, now: U64) returns (valid: bool)
      requires Valid()
      modifies nonces
      ensures Valid() && (View(), valid) == Verified(old(View()), nonce, now)
    {
      for i := 0 to nonces.Length
        invariant nonces[..] == old(nonces[..])
        invariant forall j :: 0 <= j < i ==> nonces[j].nonce != nonce
      {
        if nonces[i].nonce == nonce {
          assert FindNonce(nonces[..], nonce) == i;
          valid := Since(now, nonces[i].at) < NONCE_LIFETIME;
          nonces[i] := nonces[i].(nonce := 0);
          return;
        }
      }
      valid := false;
    }
  }

  // ── Insertion history ──────────────────────────────────────────────────────

  datatype Op = Insert(nonce: U64, at: U64) | Verify(nonce: U64, at: U64)

  /** One insertion, and whether its nonce has been presented for verification since. */
  datatype Issue = Issue(nonce: U64, at: U64, presented: bool)

  function Present(h: seq<Issue>, nonce: U64): (r: seq<Issue>)
    ensures |r| == |h|
    ensures forall k :: 0 <= k < |h| ==> r[k] == if h[k].nonce == nonce then h[k].(presented := true) else h[k]
  {
    seq(|h|, (k: nat) requires k < |h| => if h[k].nonce == nonce then h[k].(presented := true) else h[k])
  }

  /** Everything inserted so far, oldest first. */
  function History(log: seq<Op>): seq<Issue>
    decreases |log|
  {
    if log == [] then []
    else
      var h := History(log[..|log| - 1]);
      match log[|log| - 1]
      case Insert(nonce, at) => h + [Issue(nonce, at, false)]
      case Verify(nonce, _) => Present(h, nonce)
  }

  function RunRing(n: nat, log: seq<Op>): (r: Ring)
    requires n > 0
    ensures |r.slots| == n && r.next < n
    decreases |log|
  {
    if log == [] then Blank(n)
    else
      var r := RunRing(n, log[..|log| - 1]);
      match log[|log| - 1]
      case Insert(nonce, at) => Inserted(r, nonce, at)
      case Verify(nonce, at) => Verified(r, nonce, at).0
  }

  /** Insertion `k` is among the last `n`. */
  predicate InWindow(h: seq<Issue>, n: nat, k: int) {
    0 <= k < |h| && |h| - n <= k
  }

  /** The last `n` nonces are non-zero and distinct. */
  ghost predicate FreshWindow(h: seq<Issue>, n: nat) {
    && (forall k :: InWindow(h, n, k) ==> h[k].nonce != 0)
    && (forall j, k :: InWindow(h, n, j) && InWindow(h, n, k) && j < k ==> h[j].nonce != h[k].nonce)
  }

  /** They are so throughout the run. */
  ghost predicate FreshRun(log: seq<Op>, n: nat) {
    forall m :: 0 <= m <= |log| ==> FreshWindow(History(log[..m]), n)
  }

  function SlotOf(i: Issue): Entry {
    Entry(if i.presented then 0 else i.nonce, i.at)
  }

  /** Slot `k mod N` holds insertion `k` of the last `N`; later slots are still blank. */
  ghost predicate Refines(r: Ring, h: seq<Issue>) {
    var n := |r.slots|;
    && n > 0 && r.next == |h| % n
    && (forall k :: InWindow(h, n, k) ==> r.slots[k % n] == SlotOf(h[k]))
    && (forall i :: |h| <= i < n ==> r.slots[i] == Entry(0, 0))
  }

  /** The latest of `total` insertions that went to slot `i`. */
  function Latest(total: nat, n: nat, i: nat): (k: int)
    requires i < n && i < total
  {
    var r := (total - 1) % n;
    total - 1 - (if i <= r then r - i else r + n - i)
  }

  lemma SlotIssue(h: seq<Issue>, n: nat, i: nat)
    requires 0 < n && i < n && i < |h|
    ensures var k := Latest(|h|, n, i); InWindow(h, n, k) && k % n == i
  {
    var last := |h| - 1;
    var k := Latest(|h|, n, i);
    var r := last % n;
    var q := last / n;
    assert last == n * q + r;
    if i <= r {
      ModIs(k, n, q, i);
    } else {
      assert n * q > 0;
      ModIs(k, n, q - 1, i);
    }
  }

  /** Two insertions of one window never share a slot. */
  lemma {:induction false} WindowInjective(n: nat, j: nat, k: nat)
    requires 0 < n && j < k < j + n
    ensures j % n != k % n
  {
    var r := j % n;
    var q := j / n;
    assert j == n * q + r;
    if r + (k - j) < n {
      ModIs(k, n, q, r + (k - j));
    } else {
      ModIs(k, n, q + 1, r + (k - j) - n);
    }
  }

  lemma {:induction false} InsertRefines(r: Ring, h: seq<Issue>, nonce: U64, at: U64)
    requires Refines(r, h)
    ensures Refines(Inserted(r, nonce, at), h + [Issue(nonce, at, false)])
  {
    var n := |r.slots|;
    var r' := Inserted(r, nonce, at);
    var h' := h + [Issue(nonce, at, false)];
    ModSucc(|h|, n);
    ModSucc(r.next, n);
    if r.next < n {
      ModIs(r.next, n, 0, r.next);
    }
    forall k | InWindow(h', n, k) ensures r'.slots[k % n] == SlotOf(h'[k]) {
      if k < |h| {
        WindowInjective(n, k, |h|);
        assert InWindow(h, n, k);
      }
    }
    forall i | |h'| <= i < n ensures r'.slots[i] == Entry(0, 0) {
      ModIs(|h|, n, 0, |h|);
    }
  }

  /** With the window's nonces non-zero and distinct, verifying one finds its
      insertion exactly if it has not been presented before; verifying 0 can only
      hit a blank or spent slot, and changes nothing. */
  lemma {:induction false} VerifyRefines(r: Ring, h: seq<Issue>, nonce: U64, now: U64)
    requires Refines(r, h) && FreshWindow(h, |r.slots|)
    ensures var (r', ok) := Verified(r, nonce, now);
            && Refines(r', Present(h, nonce))
            && (nonce != 0 ==> (ok <==> exists k :: InWindow(h, |r.slots|, k) && h[k].nonce == nonce && !h[k].presented
                                               && now < h[k].at + 30_000_000))
  {
    var n := |r.slots|;
    var i := FindNonce(r.slots, nonce);
    var (r', ok) := Verified(r, nonce, now);
    if i == n {
      forall k | InWindow(h, n, k) ensures h[k].nonce == nonce ==> h[k].presented {
        assert r.slots[k % n] == SlotOf(h[k]);
      }
    } else if nonce == 0 {
      assert r' == r;
      forall k | InWindow(h, n, k) ensures Present(h, nonce)[k] == h[k] {
        assert h[k].nonce != 0;
      }
    } else {
      assert i < |h|;
      var k0 := Latest(|h|, n, i);
      SlotIssue(h, n, i);
      forall k | InWindow(h, n, k) ensures r'.slots[k % n] == SlotOf(Present(h, nonce)[k]) {
        if k < k0 {
          WindowInjective(n, k, k0);
        } else if k0 < k {
          WindowInjective(n, k0, k);
        }
      }
    }
  }

  /** Over every run whose insertions are non-zero and distinct within the last
      `N`, whatever is verified in between, the ring refines the history. */
  lemma {:induction false} RingRefinesHistory(n: nat, log: seq<Op>)
    requires n > 0 && FreshRun(log, n)
    ensures Refines(RunRing(n, log), History(log))
    decreases |log|
  {
    if log == [] {
      ModIs(0, n, 0, 0);
    } else {
      var prior := log[..|log| - 1];
      PriorFresh(log, n);
      RingRefinesHistory(n, prior);
      match log[|log| - 1]
      case Insert(nonce, at) => InsertRefines(RunRing(n, prior), History(prior), nonce, at);
      case Verify(nonce, at) => VerifyRefines(RunRing(n, prior), History(prior), nonce, at);
    }
  }

  lemma {:induction false} PriorFresh(log: seq<Op>, n: nat)
    requires log != [] && FreshRun(log, n)
    ensures FreshRun(log[..|log| - 1], n) && FreshWindow(History(log[..|log| - 1]), n) && FreshWindow(History(log), n)
  {
    var prior := log[..|log| - 1];
    assert log[..|log|] == log;
    forall m | 0 <= m <= |prior| ensures FreshWindow(History(prior[..m]), n) {
      assert prior[..m] == log[..m];
    }
    assert prior[..|prior|] == prior;
  }

  /** What `verify` answers after any such run: whether the nonce is among the
      last `N` inserted, has not been presented since, and is under 30 s old. */
  lemma VerifyMeansFreshAndUnused(n: nat, log: seq<Op>, nonce: U64, now: U64)
    requires n > 0 && FreshRun(log, n) && nonce != 0
    ensures var h := History(log);
            && RunRing(n, log).next == |h| % n
            && (Verified(RunRing(n, log), nonce, now).1 <==>
                  (exists k :: InWindow(h, n, k) && h[k].nonce == nonce && !h[k].presented && now < h[k].at + 30_000_000))
  {
    RingRefinesHistory(n, log);
    assert log[..|log|] == log;
    VerifyRefines(RunRing(n, log), History(log), nonce, now);
  }

  // ── Any run ────────────────────────────────────────────────────────────────

  /** Without any assumption on the nonces: slot `k mod N` holds insertion `k` of the
      last `N`, or is spent; it is not spent before its nonce is presented. */
  ghost predicate HoldsIssued(r: Ring, h: seq<Issue>) {
    var n := |r.slots|;
    && n > 0 && r.next == |h| % n
    && (forall k :: InWindow(h, n, k) ==>
          && r.slots[k % n].at == h[k].at
          && (r.slots[k % n].nonce == h[k].nonce || (h[k].presented && r.slots[k % n].nonce == 0)))
    && (forall i :: |h| <= i < n ==> r.slots[i] == Entry(0, 0))
  }

  lemma {:induction false} InsertHoldsIssued(r: Ring, h: seq<Issue>, nonce: U64, at: U64)
    requires HoldsIssued(r, h)
    ensures HoldsIssued(Inserted(r, nonce, at), h + [Issue(nonce, at, false)])
  {
    var n := |r.slots|;
    var r' := Inserted(r, nonce, at);
    var h' := h + [Issue(nonce, at, false)];
    ModSucc(|h|, n);
    ModSucc(r.next, n);
    if r.next < n {
      ModIs(r.next, n, 0, r.next);
    }
    forall k | InWindow(h', n, k)
      ensures r'.slots[k % n].at == h'[k].at
      ensures r'.slots[k % n].nonce == h'[k].nonce || (h'[k].presented && r'.slots[k % n].nonce == 0)
    {
      if k < |h| {
        WindowInjective(n, k, |h|);
        assert InWindow(h, n, k);
      }
    }
    forall i | |h'| <= i < n ensures r'.slots[i] == Entry(0, 0) {
      ModIs(|h|, n, 0, |h|);
    }
  }

  lemma {:induction false} VerifyHoldsIssued(r: Ring, h: seq<Issue>, nonce: U64, now: U64)
    requires HoldsIssued(r, h)
    ensures HoldsIssued(Verified(r, nonce, now).0, Present(h, nonce))
  {
    var n := |r.slots|;
    var r' := Verified(r, nonce, now).0;
    var h' := Present(h, nonce);
    forall k | InWindow(h', n, k)
      ensures r'.slots[k % n].at == h'[k].at
      ensures r'.slots[k % n].nonce == h'[k].nonce || (h'[k].presented && r'.slots[k % n].nonce == 0)
    {
      assert InWindow(h, n, k);
    }
  }

  lemma {:induction false} RingHoldsIssued(n: nat, log: seq<Op>)
    requires n > 0
    ensures HoldsIssued(RunRing(n, log), History(log))
    decreases |log|
  {
    if log == [] {
      ModIs(0, n, 0, 0);
    } else {
      var prior := log[..|log| - 1];
      RingHoldsIssued(n, prior);
      match log[|log| - 1]
      case Insert(nonce, at) => InsertHoldsIssued(RunRing(n, prior), History(prior), nonce, at);
      case Verify(nonce, at) => VerifyHoldsIssued(RunRing(n, prior), History(prior), nonce, at);
    }
  }

  lemma {:induction false} AnswersIssued(r: Ring, h: seq<Issue>, nonce: U64, now: U64) returns (k: nat)
    requires HoldsIssued(r, h) && nonce != 0 && Verified(r, nonce, now).1
    ensures InWindow(h, |r.slots|, k) && h[k].nonce == nonce && now < h[k].at + 30_000_000
  {
    hide Latest;
    var n := |r.slots|;
    var i := FindNonce(r.slots, nonce);
    assert i < |h|;
    k := Latest(|h|, n, i) by { SlotIssue(h, n, i); }
    SlotIssue(h, n, i);
    assert r.slots[k % n].nonce == nonce;
  }

  lemma SameIssue(h: seq<Issue>, n: nat, j: nat, k: nat)
    requires FreshWindow(h, n) && InWindow(h, n, j) && InWindow(h, n, k) && h[j].nonce == h[k].nonce
    ensures j == k
  {
  }

  /** Over any run at all, repeated and zero insertions included: a non-zero nonce is
      verified only if it is among the last `N` inserted, under 30 s ago; and if
      these are non-zero and distinct, only if it was not presented before. */
  lemma {:induction false} VerifiedWasIssued(n: nat, log: seq<Op>, nonce: U64, now: U64) returns (k: nat)
    requires n > 0 && nonce != 0 && Verified(RunRing(n, log), nonce, now).1
    ensures var h := History(log);
            && InWindow(h, n, k) && h[k].nonce == nonce && now < h[k].at + 30_000_000
            && (FreshRun(log, n) ==> !h[k].presented)
  {
    hide RunRing;
    hide History;
    hide FreshWindow;
    hide HoldsIssued;
    hide Verified;
    RingHoldsIssued(n, log);
    var h := History(log);
    k := AnswersIssued(RunRing(n, log), h, nonce, now);
    if FreshRun(log, n) {
      VerifyMeansFreshAndUnused(n, log, nonce, now);
      var q :| InWindow(h, n, q) && h[q].nonce == nonce && !h[q].presented;
      assert log[..|log|] == log;
      SameIssue(h, n, q, k);
    }
  }

  // ── Accounting ─────────────────────────────────────────────────────────────

  /** Slots whose nonce satisfies `p`. */
  function Held(slots: seq<Entry>, p: U64 -> bool): nat {
    if slots == [] then 0 else Held(slots[..|slots| - 1], p) + (if p(slots[|slots| - 1].nonce) then 1 else 0)
  }

  function InsertCount(log: seq<Op>, p: U64 -> bool): nat {
    if log == [] then 0
    else InsertCount(log[..|log| - 1], p) + (if log[|log| - 1].Insert? && p(log[|log| - 1].nonce) then 1 else 0)
  }

  /** Verifications that returned true. */
  function VerifyCount(n: nat, log: seq<Op>, p: U64 -> bool): nat
    requires n > 0
  {
    if log == [] then 0
    else
      var prior := log[..|log| - 1];
      var op := log[|log| - 1];
      VerifyCount(n, prior, p)
      + (if op.Verify? && p(op.nonce) && Verified(RunRing(n, prior), op.nonce, op.at).1 then 1 else 0)
  }

  lemma {:induction false} HeldUpdate(slots: seq<Entry>, i: nat, e: Entry, p: U64 -> bool)
    requires i < |slots|
    ensures Held(slots[i := e], p) == Held(slots, p) + (if p(e.nonce) then 1 else 0) - (if p(slots[i].nonce) then 1 else 0)
    decreases |slots|
  {
    var n := |slots| - 1;
    if i < n {
      assert slots[i := e][..n] == slots[..n][i := e];
      HeldUpdate(slots[..n], i, e, p);
    } else {
      assert slots[i := e][..n] == slots[..n];
    }
  }

  lemma {:induction false} HeldFresh(n: nat, p: U64 -> bool)
    requires !p(0)
    ensures Held(seq(n, _ => Entry(0, 0)), p) == 0
    decreases n
  {
    if n > 0 {
      var s := seq(n, _ => Entry(0, 0));
      assert s[..n - 1] == seq(n - 1, _ => Entry(0, 0));
      HeldFresh(n - 1, p);
    }
  }

  /** For any class of nonces not containing 0, over any run at all, successful
      verifications plus nonces still held never exceed insertions. One nonce and
      all non-zero nonces are the cases of interest. */
  lemma {:induction false} NoncesAreSpentAtMostOnce(n: nat, log: seq<Op>, p: U64 -> bool)
    requires n > 0 && !p(0)
    ensures VerifyCount(n, log, p) + Held(RunRing(n, log).slots, p) <= InsertCount(log, p)
    decreases |log|
  {
    if log == [] {
      HeldFresh(n, p);
    } else {
      var prior := log[..|log| - 1];
      var op := log[|log| - 1];
      var r := RunRing(n, prior);
      NoncesAreSpentAtMostOnce(n, prior, p);
      match op
      case Insert(nonce, at) => HeldUpdate(r.slots, r.next, Entry(nonce, at), p);
      case Verify(nonce, at) =>
        var i := FindNonce(r.slots, nonce);
        if i < n {
          HeldUpdate(r.slots, i, r.slots[i].(nonce := 0), p);
        }
    }
  }

  /** The accounting holds exactly for the classes that leave out 0: a blank store
      already holds that nonce. */
  lemma NoncesAccountedIff(n: nat, p: U64 -> bool)
    requires n > 0
    ensures (forall log :: VerifyCount(n, log, p) + Held(RunRing(n, log).slots, p) <= InsertCount(log, p)) <==> !p(0)
  {
    if p(0) {
      assert Held(RunRing(n, []).slots, p) > InsertCount([], p);
    } else {
      forall log ensures VerifyCount(n, log, p) + Held(RunRing(n, log).slots, p) <= InsertCount(log, p) {
        NoncesAreSpentAtMostOnce(n, log, p);
      }
    }
  }

  // ── Nonce zero ─────────────────────────────────────────────────────────────

  /** Slot `i` is still blank, or its nonce has been presented. */
  predicate Vacant(h: seq<Issue>, n: nat, i: nat)
    requires i < n
  {
    i < |h| ==> var k := Latest(|h|, n, i); 0 <= k < |h| && h[k].presented
  }

  /** The time a slot carries; a spent one keeps it. */
  function Stamp(h: seq<Issue>, n: nat, i: nat): U64
    requires i < n
  {
    if i >= |h| then 0
    else
      var k := Latest(|h|, n, i);
      if 0 <= k < |h| then h[k].at else 0
  }

  /** Zero marks a blank or spent slot and is never spent itself: verifying it
      changes nothing, so it answers the same as often as it is asked. */
  lemma ZeroIsNeverSpent(r: Ring, now: U64)
    ensures Verified(r, 0, now).0 == r
  {
    var i := FindNonce(r.slots, 0);
    if i < |r.slots| {
      assert r.slots[i].(nonce := 0) == r.slots[i];
    }
  }

  /** What `verify(0)` answers after any run with fresh insertions: true exactly if
      the first blank or spent slot is stamped under 30 s ago. After a start that
      is the first 30 s of the clock; once slot 0 is spent, the rest of its
      nonce's 30 s. */
  lemma {:induction false} ZeroIsTheBlankMark(n: nat, log: seq<Op>, now: U64)
    requires n > 0 && FreshRun(log, n)
    ensures var h := History(log);
            Verified(RunRing(n, log), 0, now).1 <==>
              (exists i :: 0 <= i < n && Vacant(h, n, i) && (forall j :: 0 <= j < i ==> !Vacant(h, n, j))
                           && now < Stamp(h, n, i) + 30_000_000)
  {
    hide RunRing;
    hide History;
    hide Refines;
    hide FreshWindow;
    hide Vacant;
    hide Stamp;
    var r := RunRing(n, log);
    RingRefinesHistory(n, log);
    assert log[..|log|] == log;
    forall i: nat | i < n
      ensures (r.slots[i].nonce == 0 <==> Vacant(History(log), n, i)) && r.slots[i].at == Stamp(History(log), n, i)
    {
      SlotReads(r, History(log), i);
    }
    var f := FindNonce(r.slots, 0);
    if f < n {
      assert Vacant(History(log), n, f);
    }
  }

  /** A slot's two fields, read from the history. */
  lemma SlotReads(r: Ring, h: seq<Issue>, i: nat)
    requires Refines(r, h) && FreshWindow(h, |r.slots|) && i < |r.slots|
    ensures (r.slots[i].nonce == 0 <==> Vacant(h, |r.slots|, i)) && r.slots[i].at == Stamp(h, |r.slots|, i)
  {
    if i < |h| {
      SlotIssue(h, |r.slots|, i);
      assert r.slots[i] == SlotOf(h[Latest(|h|, |r.slots|, i)]);
    }
  }
}
