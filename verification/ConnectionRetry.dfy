/** Fair retry: with the configuration left alone and every connection attempt
    failing, the loop goes round all saved networks. */
module ConnectionRetry {
  import opened Prelude
  import opened Connection
  import ConnectionSafety

  /** `net_idx` after `j` failures, from a starting value that may be out of range. */
  function IdxAfter(start: nat, n: nat, j: nat): nat
    requires n > 0
  {
    if j == 0 then start else NextIdx(IdxAfter(start, n, j - 1), n)
  }

  /** The network index of attempt `j`: `compute_state` clamps. */
  function Pick(start: nat, n: nat, j: nat): (i: nat)
    requires n > 0
    ensures i < n
  {
    Min(IdxAfter(start, n, j), n - 1)
  }

  /** The mode configuration under which attempt `j` runs. */
  function AttemptMode(c: Config, start: nat, j: nat): ModeConfig
    requires c.networks != []
  {
    BuildModeConfig(c.networks[Pick(start, |c.networks|, j)], c.apEnabled)
  }

  /** Radio calls succeed and connection attempts fail; nobody else acts. */
  predicate OnlyFailures(actions: seq<Action>) {
    forall i :: 0 <= i < |actions| ==> actions[i].Task? && actions[i].ok && (actions[i].poll.Some? ==> actions[i].poll.value.ConnFail?)
  }

  /** Waiting in the select with one signal latched, which decides the index the
      retries start from: a connection request names it, a toggle of the station
      resets it, and a reconfiguration of the access point keeps it. */
  predicate Signalled(s: State, start: nat) {
    && s.pc.Select?
    && (|| s.signals == Signals(false, false, Some(start))
        || (s.signals == Signals(false, true, None) && start == 0)
        || (s.signals == Signals(true, false, None) && start == s.netIdx))
  }

  /** The station is enabled with networks saved, and the loop is about to retry
      from index `start`: because of a signal, or after a pause with none. */
  predicate Starts(s: State, start: nat) {
    && s.config.staEnabled && s.config.networks != []
    && (Signalled(s, start) || (Quiet(s.signals) && (s.pc.ComputeSta? || s.pc.Delay?) && s.netIdx == start))
  }

  /** A branch or reconfiguration under way that leads to index `start`. */
  predicate LeadsTo(after: After, netIdx: nat, start: nat) {
    after.Recompute? && start == if after.clearIdx then 0 else netIdx
  }

  predicate BranchLeadsTo(branch: Branch, netIdx: nat, start: nat) {
    match branch
    case ConnectBranch(idx) => idx == start
    case StaBranch => start == 0
    case ApBranch => start == netIdx
  }

  /** After `base`, the attempts follow the picks. */
  predicate Recorded(base: seq<ModeConfig>, config: Config, start: nat, attempts: seq<ModeConfig>)
    requires config.networks != []
  {
    && |base| <= |attempts| && attempts[..|base|] == base
    && (forall j :: |base| <= j < |attempts| ==> attempts[j] == AttemptMode(config, start, j - |base|))
  }

  /** State and index are those for attempt `c`. */
  predicate Settled(config: Config, start: nat, c: nat, s: State)
    requires config.networks != []
  {
    && s.netIdx == IdxAfter(start, |config.networks|, c)
    && s.state == Connecting(Pick(start, |config.networks|, c))
  }

  /** Where the loop may stand after `c` attempts. */
  predicate Standing(config: Config, start: nat, c: nat, s: State)
    requires config.networks != []
  {
    && s.config == config && config.staEnabled
    && (Quiet(s.signals) || (Signalled(s, start) && c == 0))
    && match s.pc
       case ComputeSta(_) => s.netIdx == IdxAfter(start, |config.networks|, c)
       case ComputeNets(_) => s.netIdx == IdxAfter(start, |config.networks|, c)
       case Delay => s.netIdx == IdxAfter(start, |config.networks|, c)
       case FailReadNets => c > 0 && s.netIdx == IdxAfter(start, |config.networks|, c - 1)
       case Head => Settled(config, start, c, s)
       case HeadReadAp(w) => Settled(config, start, c, s) && BuildModeConfig(w, config.apEnabled) == AttemptMode(config, start, c)
       case HeadSetConfig(m) => Settled(config, start, c, s) && m == AttemptMode(config, start, c)
       case Select => Signalled(s, start) || (Settled(config, start, c, s) && s.radio.mode == AttemptMode(config, start, c))
       case Disconnecting(branch) => c == 0 && BranchLeadsTo(branch, s.netIdx, start)
       case ApplyStop(after) => c == 0 && LeadsTo(after, s.netIdx, start)
       case ApplyReadSta(after) => c == 0 && LeadsTo(after, s.netIdx, start)
       case ApplyReadAp(after, _) => c == 0 && LeadsTo(after, s.netIdx, start)
       case ApplySetConfig(after, _) => c == 0 && LeadsTo(after, s.netIdx, start)
       case ApplyStart(after) => c == 0 && LeadsTo(after, s.netIdx, start)
  }

  /** The run so far: the attempts made since `base`, and where the loop stands. */
  predicate Trying(base: seq<ModeConfig>, config: Config, start: nat, s: State)
    requires config.networks != []
  {
    Recorded(base, config, start, s.attempts) && Standing(config, start, |s.attempts| - |base|, s)
  }

  lemma ApplyKeepsStanding(config: Config, start: nat, c: nat, s: State)
    requires config.networks != [] && Standing(config, start, c, s) && ConnectionSafety.Applying(s.pc)
    ensures var t := TaskStep(s, true, None); t.attempts == s.attempts && Standing(config, start, c, t)
  {
    hide AttemptMode;
    hide Settled;
  }

  lemma LoopKeepsStanding(config: Config, start: nat, c: nat, s: State)
    requires config.networks != [] && Standing(config, start, c, s) && !ConnectionSafety.Applying(s.pc) && !s.pc.Select?
    ensures var t := TaskStep(s, true, None); t.attempts == s.attempts && Standing(config, start, c, t)
  {
    hide NextIdx;
    if s.pc.FailReadNets? {
      assert IdxAfter(start, |config.networks|, c) == NextIdx(IdxAfter(start, |config.networks|, c - 1), |config.networks|);
    }
  }

  /** A latched signal is taken at the next poll, and leads where it should. */
  lemma SignalKeepsStanding(config: Config, start: nat, c: nat, s: State, poll: Option<StateEvent>)
    requires config.networks != [] && Standing(config, start, c, s) && s.pc.Select? && !Quiet(s.signals)
    ensures var t := PollSelect(s, poll); t.attempts == s.attempts && Standing(config, start, c, t)
  {
    hide AttemptMode;
    hide Settled;
  }

  /** With none latched, a poll leaves things as they are or fails attempt `c`. */
  lemma FailureKeepsStanding(config: Config, start: nat, c: nat, s: State, poll: Option<StateEvent>)
    requires config.networks != [] && Standing(config, start, c, s) && s.pc.Select? && Quiet(s.signals)
    requires poll.Some? ==> poll.value.ConnFail?
    ensures var t := PollSelect(s, poll);
            if poll.Some? then t.attempts == s.attempts + [AttemptMode(config, start, c)] && Standing(config, start, c + 1, t)
            else t == s
  {
  }

  lemma {:induction false} StepKeepsTrying(base: seq<ModeConfig>, config: Config, start: nat, s: State, a: Action)
    requires config.networks != [] && Trying(base, config, start, s) && OnlyFailures([a])
    ensures Trying(base, config, start, Step(s, a))
  {
    hide Standing;
    hide AttemptMode;
    assert [a][0] == a;
    var c := |s.attempts| - |base|;
    if ConnectionSafety.Applying(s.pc) {
      ApplyKeepsStanding(config, start, c, s);
    } else if !s.pc.Select? {
      LoopKeepsStanding(config, start, c, s);
    } else if !Quiet(s.signals) {
      SignalKeepsStanding(config, start, c, s, a.poll);
    } else {
      FailureKeepsStanding(config, start, c, s, a.poll);
    }
  }

  lemma {:induction false} RetriesFollowPicks(s: State, start: nat, actions: seq<Action>)
    requires Starts(s, start)
    requires OnlyFailures(actions)
    ensures Trying(s.attempts, s.config, start, Run(s, actions))
    decreases |actions|
  {
    if actions == [] {
    } else {
      var last := |actions| - 1;
      RetriesFollowPicks(s, start, actions[..last]);
      StepKeepsTrying(s.attempts, s.config, start, Run(s, actions[..last]), actions[last]);
    }
  }

  /** Connected, with no signal latched, when the connection is lost. */
  predicate LosesConnection(s: State, actions: seq<Action>) {
    && s.config.staEnabled && s.config.networks != []
    && s.pc.Select? && Quiet(s.signals) && s.state.Connected?
    && actions != [] && actions[0].Task? && actions[0].poll == Some(Disconnected)
  }

  /** How a run of retries begins, and the index it starts from: with a signal, after
      a pause, or, always from the first network, with the loss of a connection. */
  predicate Retries(s: State, start: nat, actions: seq<Action>) {
    || (Starts(s, start) && OnlyFailures(actions))
    || (LosesConnection(s, actions) && OnlyFailures(actions[1..]) && start == 0)
  }

  lemma {:induction false} RunFromSecond(s: State, actions: seq<Action>)
    requires actions != []
    ensures Run(s, actions) == Run(Step(s, actions[0]), actions[1..])
    decreases |actions|
  {
    if |actions| > 1 {
      var last := |actions| - 1;
      RunFromSecond(s, actions[..last]);
      assert actions[..last][1..] == actions[1..][..last - 1];
    } else {
      assert actions[..0] == [];
    }
  }

  /** Attempt by attempt: whatever the interleaving of timers and polls, attempt
      `j` tries network `Pick(start, n, j)`. In particular the next attempt after a
      connection request tries the network asked for, clamped to the list, and the
      next after a toggle, or after a lost connection, the first network. */
  lemma {:induction false} AttemptsFollowPicks(s: State, start: nat, actions: seq<Action>)
    requires Retries(s, start, actions)
    ensures Trying(s.attempts, s.config, start, Run(s, actions))
  {
    if Starts(s, start) && OnlyFailures(actions) {
      RetriesFollowPicks(s, start, actions);
    } else {
      RunFromSecond(s, actions);
      RetriesFollowPicks(Step(s, actions[0]), 0, actions[1..]);
    }
  }

  /** The first attempt after a lost connection, or a toggle, is for the first network
      of the list, and the first after a request in range for the one asked for. */
  lemma {:induction false} FirstAttempt(s: State, start: nat, actions: seq<Action>)
    requires Retries(s, start, actions) && start < |s.config.networks| && |Run(s, actions).attempts| > |s.attempts|
    ensures Run(s, actions).attempts[|s.attempts|] == BuildModeConfig(s.config.networks[start], s.config.apEnabled)
  {
    hide Run;
    hide Standing;
    AttemptsFollowPicks(s, start, actions);
    assert Pick(start, |s.config.networks|, 0) == start;
  }

  /** From the second attempt on, or from the first with an index in range, the
      picks walk round the ring. */
  lemma {:induction false} PickWalks(start: nat, n: nat, j: nat)
    requires n > 0 && (j > 0 || start < n)
    ensures IdxAfter(start, n, j) == (start + j) % n == Pick(start, n, j)
    decreases j
  {
    if j == 0 {
      ModIs(start, n, 0, start);
    } else if j > 1 || start < n {
      PickWalks(start, n, j - 1);
      ModSucc(start + j - 1, n);
      ModSucc((start + j - 1) % n, n);
      ModIs((start + j - 1) % n, n, 0, (start + j - 1) % n);
    }
  }

  /** Every point of the ring lies fewer than `n` steps ahead. */
  lemma RingDistance(a: nat, n: nat, target: nat) returns (d: nat)
    requires n > 0 && target < n
    ensures d < n && (a + d) % n == target
  {
    var here := a % n;
    var q := a / n;
    assert a == n * q + here;
    if target >= here {
      d := target - here;
      ModIs(a + d, n, q, target);
    } else {
      d := target + n - here;
      ModIs(a + d, n, q + 1, target);
    }
  }

  /** A window of `n` picks on the ring meets every index. */
  lemma WindowMeets(start: nat, n: nat, from: nat, target: nat) returns (j: nat)
    requires n > 0 && target < n && (from > 0 || start < n)
    ensures from <= j < from + n && Pick(start, n, j) == target
  {
    hide Pick;
    hide IdxAfter;
    var d := RingDistance(start + from, n, target);
    j := from + d;
    assert start + from + d == start + j;
    PickWalks(start, n, j);
  }

  /** Any `n + 1` consecutive attempts try every saved network, from any starting
      index; any `n` suffice unless they begin with an out-of-range index. */
  lemma FairRetry(s: State, start: nat, actions: seq<Action>, from: nat, net: nat)
    requires Retries(s, start, actions)
    requires net < |s.config.networks|
    requires var need := if from > 0 || start < |s.config.networks| then |s.config.networks| else |s.config.networks| + 1;
             |Run(s, actions).attempts| >= |s.attempts| + from + need
    ensures var need := if from > 0 || start < |s.config.networks| then |s.config.networks| else |s.config.networks| + 1;
            exists j :: |s.attempts| + from <= j < |s.attempts| + from + need
              && Run(s, actions).attempts[j] == BuildModeConfig(s.config.networks[net], s.config.apEnabled)
  {
    hide Run;
    hide Pick;
    hide Standing;
    hide Retries;
    AttemptsFollowPicks(s, start, actions);
    var n := |s.config.networks|;
    var j := WindowMeets(start, n, if from > 0 || start < n then from else 1, net);
    assert Run(s, actions).attempts[|s.attempts| + j] == AttemptMode(s.config, start, j);
  }

  // ── Progress ───────────────────────────────────────────────────────────────

  /** Every step is the loop's own, its radio calls succeed, and a polled attempt fails. */
  predicate AllFail(actions: seq<Action>) {
    forall i :: 0 <= i < |actions| ==> actions[i] == Task(true, Some(ConnFail))
  }

  /** At most so many steps to the next attempt. */
  function Ahead(s: State): nat {
    match s.pc
    case Select => if Quiet(s.signals) then 1 else 13
    case HeadSetConfig(_) => 2
    case HeadReadAp(_) => 3
    case Head => 4
    case ComputeNets(_) => 5
    case ComputeSta(_) => 6
    case Delay => 7
    case FailReadNets => 8
    case ApplyStart(_) => 7
    case ApplySetConfig(_, _) => 8
    case ApplyReadAp(_, _) => 9
    case ApplyReadSta(_) => 10
    case ApplyStop(_) => 11
    case Disconnecting(_) => 12
  }

  lemma StepGoesAhead(config: Config, start: nat, c: nat, s: State)
    requires config.networks != [] && Standing(config, start, c, s)
    ensures var t := TaskStep(s, true, Some(ConnFail)); 8 * |t.attempts| - Ahead(t) > 8 * |s.attempts| - Ahead(s)
  {
    hide AttemptMode;
    hide IdxAfter;
    if s.pc.Select? {
      SelectGoesAhead(config, start, c, s);
    } else if ConnectionSafety.Applying(s.pc) {
      ApplyGoesAhead(s);
    }
  }

  lemma SelectGoesAhead(config: Config, start: nat, c: nat, s: State)
    requires config.networks != [] && Standing(config, start, c, s) && s.pc.Select?
    ensures var t := TaskStep(s, true, Some(ConnFail)); 8 * |t.attempts| - Ahead(t) > 8 * |s.attempts| - Ahead(s)
  {
    hide AttemptMode;
    hide IdxAfter;
  }

  lemma ApplyGoesAhead(s: State)
    requires ConnectionSafety.Applying(s.pc)
    ensures var t := TaskStep(s, true, Some(ConnFail)); t.attempts == s.attempts && Ahead(t) < Ahead(s)
  {
  }

  /** Every eight steps bring an attempt. */
  lemma {:induction false} RunGoesAhead(s: State, start: nat, actions: seq<Action>)
    requires Starts(s, start) && AllFail(actions)
    ensures 8 * |Run(s, actions).attempts| - Ahead(Run(s, actions)) >= 8 * |s.attempts| - Ahead(s) + |actions|
    decreases |actions|
  {
    hide Signalled;
    hide Standing;
    hide Ahead;
    if actions != [] {
      var prior := actions[..|actions| - 1];
      RunGoesAhead(s, start, prior);
      RetriesFollowPicks(s, start, prior);
      var p := Run(s, prior);
      StepGoesAhead(s.config, start, |p.attempts| - |s.attempts|, p);
    }
  }

  /** The retries do come: with `n` networks saved, `8 n + 21` steps of the loop try
      every one of them. */
  lemma {:induction false} EveryNetworkIsTried(s: State, start: nat, actions: seq<Action>, net: nat)
    requires Starts(s, start) && AllFail(actions) && net < |s.config.networks|
    requires |actions| >= 8 * |s.config.networks| + 21
    ensures exists j :: |s.attempts| <= j < |Run(s, actions).attempts|
              && Run(s, actions).attempts[j] == BuildModeConfig(s.config.networks[net], s.config.apEnabled)
  {
    hide Run;
    hide Starts;
    assert OnlyFailures(actions) by {
      assert forall i :: 0 <= i < |actions| ==> actions[i].Task?;
    }
    RunGoesAhead(s, start, actions);
    assert |Run(s, actions).attempts| >= |s.attempts| + |s.config.networks| + 1;
    FairRetry(s, start, actions, 0, net);
  }

  /** The extra attempt is needed: an out-of-range start clamps to the last
      network, and the next `n - 1` picks then miss exactly one index, unless it
      is that last one again. */
  lemma OutOfRangeStartMissesOne(start: nat, n: nat, target: nat)
    requires n > 0 && start >= n && target < n
    ensures (exists j :: 0 <= j < n && Pick(start, n, j) == target) <==> target == n - 1 || target != start % n
  {
    assert Pick(start, n, 0) == n - 1;
    if target != n - 1 {
      var j := WindowMeets(start, n, 1, target);
      PickWalks(start, n, j);
      PickWalks(start, n, n);
      NoReturnWithin(start, n, n);
      if target == start % n {
        forall k | 0 <= k < n ensures Pick(start, n, k) != target {
          if k > 0 {
            PickWalks(start, n, k);
            NoReturnWithin(start, n, k);
          }
        }
      }
    }
  }

  /** Along the ring, the first return comes after exactly `n` steps. */
  lemma {:induction false} NoReturnWithin(a: nat, n: nat, k: nat)
    requires 0 < k <= n
    ensures (a + k) % n == a % n <==> k == n
  {
    var r := a % n;
    var q := a / n;
    assert a == n * q + r;
    if r + k >= n {
      ModIs(a + k, n, q + 1, r + k - n);
    } else {
      ModIs(a + k, n, q, r + k);
    }
  }
}
