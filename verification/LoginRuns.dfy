/** Runs of the login protocol over both stores: who is authorised, and on which
    nonces, whatever requests arrive and however logins overlap. A login first
    verifies its nonce, and later, other requests having been served in between,
    compares the credentials and saves its session. */
module LoginRuns {
  import opened Prelude
  import opened Sessions
  import opened Nonces
  import opened Cookies
  import opened Login
  import Runs = SessionRuns

  datatype Request =
    | IssueNonce(nonce: U64, at: U64)
    | Check(login: nat, data: LoginData, at: U64)    // the first half of `handle_login`
    | Finish(login: nat, username: Option<string>, password: Option<string>, token: U64, savedAt: U64)
    | Visit(header: Option<string>, now: U64)
    | Forget(id: U64)                                // an application's own `delete`

  predicate Grants(digest: Digest, username: Option<string>, password: Option<string>, data: LoginData) {
    && username.Some? && password.Some? && username.value == data.user
    && digest(data.nonce, username.value, password.value) == data.response
  }

  /** The nonces, and the logins between their two halves. */
  datatype Front = Front(ring: Ring, waiting: map<nat, LoginData>)

  function NextFront(s: Front, r: Request): Front
    requires s.ring.next < |s.ring.slots|
  {
    match r
    case IssueNonce(nonce, at) => s.(ring := Inserted(s.ring, nonce, at))
    case Check(login, data, at) =>
      var (ring, ok) := Verified(s.ring, data.nonce, at);
      Front(ring, if ok then s.waiting[login := data] else s.waiting)
    case Finish(login, _, _, _, _) => s.(waiting := s.waiting - {login})
    case _ => s
  }

  /** This request completes a login: its nonce was good and its response matches. */
  predicate Granted(s: Front, r: Request, digest: Digest) {
    r.Finish? && r.login in s.waiting && Grants(digest, r.username, r.password, s.waiting[r.login])
  }

  /** What the nonce store sees of the requests. */
  function NonceOps(log: seq<Request>): (ops: seq<Op>) {
    if log == [] then []
    else
      var ops := NonceOps(log[..|log| - 1]);
      match log[|log| - 1]
      case IssueNonce(n, at) => ops + [Insert(n, at)]
      case Check(_, data, at) => ops + [Verify(data.nonce, at)]
      case _ => ops
  }

  function RunFront(n: nat, log: seq<Request>): (s: Front)
    requires n > 0
    ensures s.ring == RunRing(n, NonceOps(log))
    decreases |log|
  {
    if log == [] then Front(Blank(n), map[])
    else
      var prior := log[..|log| - 1];
      OpsFollow(log);
      NextFront(RunFront(n, prior), log[|log| - 1])
  }

  lemma OpsFollow(log: seq<Request>)
    requires log != []
    ensures var ops, before := NonceOps(log), NonceOps(log[..|log| - 1]);
            ops == before || (ops != [] && ops[..|ops| - 1] == before)
  {
    var ops, before := NonceOps(log), NonceOps(log[..|log| - 1]);
    assert ops != before ==> ops[..|ops| - 1] == before;
  }

  // ── Sessions and nonces ────────────────────────────────────────────────────

  /** Logins waiting on nonces satisfying `p`. */
  function WaitingOn(waiting: map<nat, LoginData>, p: U64 -> bool): set<nat> {
    set l | l in waiting && p(waiting[l].nonce)
  }

  /** Sessions created on nonces satisfying `p`. */
  function SessionsCreated(n: nat, log: seq<Request>, digest: Digest, p: U64 -> bool): nat
    requires n > 0
  {
    if log == [] then 0
    else
      var prior := log[..|log| - 1];
      var s, r := RunFront(n, prior), log[|log| - 1];
      SessionsCreated(n, prior, digest, p) + (if Granted(s, r, digest) && p(s.waiting[r.login].nonce) then 1 else 0)
  }

  lemma CheckWaits(s: Front, login: nat, data: LoginData, at: U64, p: U64 -> bool)
    requires s.ring.next < |s.ring.slots|
    ensures |WaitingOn(NextFront(s, Check(login, data, at)).waiting, p)|
            <= |WaitingOn(s.waiting, p)| + (if p(data.nonce) && Verified(s.ring, data.nonce, at).1 then 1 else 0)
  {
    hide Verified;
    var before, after := WaitingOn(s.waiting, p), WaitingOn(NextFront(s, Check(login, data, at)).waiting, p);
    if p(data.nonce) && Verified(s.ring, data.nonce, at).1 {
      Runs.SubsetSize(after, before + {login});
    } else {
      Runs.SubsetSize(after, before);
    }
  }

  lemma FinishWaits(s: Front, r: Request, digest: Digest, p: U64 -> bool)
    requires s.ring.next < |s.ring.slots| && r.Finish?
    ensures |WaitingOn(NextFront(s, r).waiting, p)| + (if Granted(s, r, digest) && p(s.waiting[r.login].nonce) then 1 else 0)
            <= |WaitingOn(s.waiting, p)|
  {
    hide Grants;
    assert WaitingOn(NextFront(s, r).waiting, p) == WaitingOn(s.waiting, p) - {r.login};
  }

  /** However logins overlap, each session created or still awaited on a class of
      nonces took one successful verification of its own. */
  lemma {:induction false} SessionsNeedVerifiedNonces(n: nat, log: seq<Request>, digest: Digest, p: U64 -> bool)
    requires n > 0
    ensures SessionsCreated(n, log, digest, p) + |WaitingOn(RunFront(n, log).waiting, p)| <= VerifyCount(n, NonceOps(log), p)
    decreases |log|
  {
    hide WaitingOn;
    hide Grants;
    hide Verified;
    if log == [] {
      NobodyWaits(p);
    } else {
      var prior := log[..|log| - 1];
      var s, r := RunFront(n, prior), log[|log| - 1];
      SessionsNeedVerifiedNonces(n, prior, digest, p);
      OpsFollow(log);
      match r {
        case Check(login, data, at) =>
          CheckWaits(s, login, data, at, p);
          var ops := NonceOps(log);
          assert ops[..|ops| - 1] == NonceOps(prior) && ops[|ops| - 1] == Verify(data.nonce, at);
        case IssueNonce(nonce, at) =>
          var ops := NonceOps(log);
          assert ops[..|ops| - 1] == NonceOps(prior) && ops[|ops| - 1] == Insert(nonce, at);
        case Finish(_, _, _, _, _) => FinishWaits(s, r, digest, p);
        case _ =>
      }
    }
  }

  lemma NobodyWaits(p: U64 -> bool)
    ensures WaitingOn(map[], p) == {}
  {
  }

  /** Whatever is attempted, sessions created on nonces of a class never outnumber
      the insertions of that class, exactly for the classes that leave out 0. One
      nonce and all non-zero nonces are the cases of interest. */
  lemma {:induction false} SessionsNeverOutnumberNonces(n: nat, digest: Digest, p: U64 -> bool)
    requires n > 0
    ensures (forall log :: SessionsCreated(n, log, digest, p) <= InsertCount(NonceOps(log), p)) <==> !p(0)
  {
    if p(0) {
      LoginOnZero(n, digest, p);
    } else {
      forall log ensures SessionsCreated(n, log, digest, p) <= InsertCount(NonceOps(log), p) {
        SessionsNeedVerifiedNonces(n, log, digest, p);
        NoncesAreSpentAtMostOnce(n, NonceOps(log), p);
      }
    }
  }

  /** A correct login on nonce 0 in the first 30 s of the clock, with none issued. */
  lemma {:induction false} LoginOnZero(n: nat, digest: Digest, p: U64 -> bool)
    requires n > 0 && p(0)
    ensures exists log :: SessionsCreated(n, log, digest, p) > InsertCount(NonceOps(log), p)
  {
    var check := Check(1, LoginData("u", digest(0, "u", "p"), 0), 0);
    var finish := Finish(1, Some("u"), Some("p"), 1, 0);
    ZeroCheckPasses(n, check);
    SessionsAfterFirst(n, check, finish, digest, p);
  }

  lemma ZeroCheckPasses(n: nat, check: Request)
    requires n > 0 && check.Check? && check.data.nonce == 0 && check.at == 0
    ensures NonceOps([check]) == [Verify(0, 0)] && RunFront(n, [check]).waiting == map[check.login := check.data]
  {
    assert [check][..0] == [];
    assert Verified(Blank(n), 0, 0).1;
  }

  lemma SessionsAfterFirst(n: nat, check: Request, finish: Request, digest: Digest, p: U64 -> bool)
    requires n > 0 && check.Check? && finish.Finish? && finish.login == check.login && p(check.data.nonce)
    requires NonceOps([check]) == [Verify(0, 0)] && RunFront(n, [check]).waiting == map[check.login := check.data]
    requires Grants(digest, finish.username, finish.password, check.data)
    ensures SessionsCreated(n, [check, finish], digest, p) > InsertCount(NonceOps([check, finish]), p)
  {
    hide RunFront;
    hide Grants;
    var log := [check, finish];
    assert log[..1] == [check];
    assert NonceOps(log) == [Verify(0, 0)] && NonceOps(log)[..0] == [];
    assert InsertCount([], p) == 0;
    assert Granted(RunFront(n, [check]), finish, digest);
  }

  // ── Runs of a site ─────────────────────────────────────────────────────────

  /** Both stores of a site. */
  datatype Site = Site(front: Front, store: Runs.State<string>)

  /** The session id a request's cookie header names, if any. */
  function CookieOf(header: Option<string>): Option<U64> {
    if header.Some? then CookieId(header.value) else None
  }

  /** What the session store sees of a request. */
  function SessionOp(s: Front, r: Request, digest: Digest): Option<Runs.Op<string>> {
    match r
    case Finish(_, username, _, token, savedAt) =>
      if Granted(s, r, digest) then Some(Runs.Save(NewSession(token, username.value, savedAt))) else None
    case Visit(header, now) => if CookieOf(header).Some? then Some(Runs.Load(CookieOf(header).value, now)) else None
    case Forget(id) => Some(Runs.Delete(id))
    case _ => None
  }

  ghost predicate Serves(s: Site, r: Request, digest: Digest, s': Site) {
    && s.front.ring.next < |s.front.ring.slots| && s'.front == NextFront(s.front, r)
    && match SessionOp(s.front, r, digest)
       case None => s'.store == s.store
       case Some(op) => Runs.Permitted(s.store, op) && Runs.Next(s.store, op, s'.store)
  }

  /** A run from blank stores of `n` nonces and `m` sessions. */
  ghost predicate IsSiteRun(n: nat, m: nat, sites: seq<Site>, log: seq<Request>, digest: Digest) {
    && n > 0 && |sites| == |log| + 1 && sites[0] == Site(Front(Blank(n), map[]), Runs.Empty(m))
    && forall k :: 0 <= k < |log| ==> Serves(sites[k], log[k], digest, sites[k + 1])
  }

  predicate IsLive(s: Site, id: U64) {
    id in Live(s.store.slots)
  }

  lemma {:induction false} SiteKeepsInv(n: nat, m: nat, sites: seq<Site>, log: seq<Request>, digest: Digest, k: nat)
    requires IsSiteRun(n, m, sites, log, digest) && k < |sites|
    ensures Runs.Inv(sites[k].store) && |sites[k].store.slots| == m && sites[k].front == RunFront(n, log[..k])
    decreases k
  {
    hide Runs.Inv;
    hide Runs.Next;
    hide Runs.Permitted;
    hide NextFront;
    if k == 0 {
      EmptyInv(m);
    } else {
      SiteKeepsInv(n, m, sites, log, digest, k - 1);
      assert log[..k][..k - 1] == log[..k - 1] && log[..k][k - 1] == log[k - 1];
      var s, r, s' := sites[k - 1], log[k - 1], sites[k];
      assert Serves(s, r, digest, s');
      if SessionOp(s.front, r, digest).Some? {
        Runs.StepKeepsInv(s.store, SessionOp(s.front, r, digest).value, s'.store);
      }
    }
  }

  lemma EmptyInv(m: nat)
    ensures Runs.Inv(Runs.Empty<string>(m)) && |Runs.Empty<string>(m).slots| == m
  {
  }

  /** The handler of a login that nothing interrupts serves its two halves in turn. */
  lemma HandlerServes(s: Site, login: nat, data: LoginData, username: Option<string>, password: Option<string>,
                      token: U64, at: U64, savedAt: U64, slots': Slots<string>, digest: Digest) returns (s1: Site, s2: Site)
    requires s.front.ring.next < |s.front.ring.slots| && login !in s.front.waiting
    requires s.store.clock <= savedAt && token !in Ids(s.store.slots)
    requires if Verified(s.front.ring, data.nonce, at).1 && username == Some(data.user) && password.Some?
                && data.response == digest(data.nonce, data.user, password.value)
             then Saves(s.store.slots, Record(token, data.user, OnInactivity(3_600_000_000), savedAt), slots')
             else slots' == s.store.slots
    ensures Serves(s, Check(login, data, at), digest, s1)
    ensures Serves(s1, Finish(login, username, password, token, savedAt), digest, s2)
    ensures s2.front == Front(Verified(s.front.ring, data.nonce, at).0, s.front.waiting) && s2.store.slots == slots'
  {
    var check, finish := Check(login, data, at), Finish(login, username, password, token, savedAt);
    s1 := Site(NextFront(s.front, check), s.store);
    var op := SessionOp(s1.front, finish, digest);
    var store := if op.None? then s.store else Runs.State(slots', s.store.uses + [Runs.Use(token, savedAt)], savedAt);
    s2 := Site(NextFront(s1.front, finish), store);
    assert s.front.waiting - {login} == s.front.waiting;
    assert s.front.waiting[login := data] - {login} == s.front.waiting;
  }

  // ── Where a session comes from ─────────────────────────────────────────────

  /** A session alive after a step was just saved, or alive before with the same
      owner and policy. */
  lemma {:induction false} LiveComesFrom(s: Runs.State<string>, op: Runs.Op<string>, s': Runs.State<string>, id: U64)
    requires Runs.Inv(s) && Runs.Permitted(s, op) && Runs.Next(s, op, s') && id in Live(s'.slots)
    ensures if op.Save? && op.record.id == id then Live(s'.slots)[id] == op.record
            else id in Live(s.slots) && Live(s'.slots)[id].(lastActive := 0) == Live(s.slots)[id].(lastActive := 0)
  {
    hide Live;
    hide Saves;
    hide IsExpired;
    match op {
      case Load(other, now) => LoadRefinesMap(s.slots, other, now);
      case Save(r) => var victim := SaveRefinesMap(s.slots, r, s'.slots);
      case Delete(other) => DeleteRefinesMap(s.slots, other);
    }
  }

  /** Apart from its last activity, the stored session is a login of `user`. */
  predicate OwnedBy(s: Site, id: U64, user: string) {
    IsLive(s, id) && Live(s.store.slots)[id].(lastActive := 0) == NewSession(id, user, 0)
  }

  /** Request `j` completed the login with token `id`. */
  predicate LoggedIn(sites: seq<Site>, log: seq<Request>, digest: Digest, id: U64, j: int) {
    0 <= j < |log| && j < |sites| && Granted(sites[j].front, log[j], digest) && log[j].token == id
  }

  lemma {:induction false} SessionComesFrom(s: Site, r: Request, digest: Digest, s': Site, id: U64)
    requires Runs.Inv(s.store) && Serves(s, r, digest, s') && IsLive(s', id)
    ensures || (Granted(s.front, r, digest) && r.token == id && OwnedBy(s', id, r.username.value))
            || (IsLive(s, id) && forall user :: OwnedBy(s, id, user) ==> OwnedBy(s', id, user))
  {
    hide Live;
    hide Runs.Inv;
    hide Runs.Next;
    hide Runs.Permitted;
    var op := SessionOp(s.front, r, digest);
    if op.Some? {
      LiveComesFrom(s.store, op.value, s'.store, id);
    }
  }

  /** That login's session has been stored since. */
  ghost predicate StoredSince(sites: seq<Site>, log: seq<Request>, digest: Digest, id: U64, j: int, k: int)
    requires k < |sites| == |log| + 1
  {
    j < k && LoggedIn(sites, log, digest, id, j) && forall i :: j < i <= k ==> IsLive(sites[i], id)
  }

  /** Every stored session has such a login, and is its user's. */
  lemma {:induction false} LiveHasLogin(n: nat, m: nat, sites: seq<Site>, log: seq<Request>, digest: Digest, k: nat, id: U64) returns (j: nat)
    requires IsSiteRun(n, m, sites, log, digest) && k < |sites| && IsLive(sites[k], id)
    ensures StoredSince(sites, log, digest, id, j, k) && OwnedBy(sites[k], id, log[j].username.value)
    decreases k
  {
    hide IsLive;
    hide OwnedBy;
    hide Serves;
    hide Runs.Inv;
    if k == 0 {
      EmptyIsDead(m, id);
    }
    SiteKeepsInv(n, m, sites, log, digest, k - 1);
    SessionComesFrom(sites[k - 1], log[k - 1], digest, sites[k], id);
    if Granted(sites[k - 1].front, log[k - 1], digest) && log[k - 1].token == id && OwnedBy(sites[k], id, log[k - 1].username.value) {
      j := k - 1;
    } else {
      j := LiveHasLogin(n, m, sites, log, digest, k - 1, id);
    }
  }

  lemma EmptyIsDead(m: nat, id: U64)
    ensures forall front :: !IsLive(Site(front, Runs.Empty(m)), id)
  {
  }

  /** Fresh tokens make that login the only one. */
  lemma LoginUnique(n: nat, m: nat, sites: seq<Site>, log: seq<Request>, digest: Digest, id: U64, i: nat, j: nat, k: nat)
    requires IsSiteRun(n, m, sites, log, digest) && k < |sites|
    requires StoredSince(sites, log, digest, id, i, k) && StoredSince(sites, log, digest, id, j, k)
    ensures i == j
  {
    hide Serves;
    hide IsLive;
    if i < j {
      LoginStarts(sites[j], log[j], digest, sites[j + 1]);
    } else if j < i {
      LoginStarts(sites[i], log[i], digest, sites[i + 1]);
    }
  }

  /** A completed login stores a session that was not there. */
  lemma LoginStarts(s: Site, r: Request, digest: Digest, s': Site)
    requires Serves(s, r, digest, s') && Granted(s.front, r, digest)
    ensures !IsLive(s, r.token) && (Runs.Inv(s.store) ==> IsLive(s', r.token))
  {
    hide Live;
    hide Saves;
    if Runs.Inv(s.store) {
      var victim := SaveRefinesMap(s.store.slots, NewSession(r.token, r.username.value, r.savedAt), s'.store.slots);
    }
  }

  /** A visit leaves the session store as the check in front of protected pages does. */
  lemma VisitIsAuthorized(s: Site, header: Option<string>, now: U64, digest: Digest, s': Site)
    requires Serves(s, Visit(header, now), digest, s')
    ensures s'.store.slots == Authorized(s.store.slots, header, now).0 && s'.front == s.front
  {
  }

  // ── What ends a session ────────────────────────────────────────────────────

  /** Last saved or loaded at most an hour ago. */
  predicate Recent(s: Runs.State<string>, id: U64, now: U64) {
    var last := Runs.LastUse(s.uses, id);
    last.Some? && now - last.value <= 3_600_000_000
  }

  /** The session is deleted, visited too late, or displaced by a new login. */
  predicate Ends(s: Site, r: Request, digest: Digest, id: U64) {
    match r
    case Forget(other) => other == id
    case Visit(header, now) => CookieOf(header) == Some(id) && !Recent(s.store, id, now)
    case Finish(_, _, _, _, _) => Granted(s.front, r, digest) && Runs.Displaces(s.store.slots, id)
    case _ => false
  }

  lemma LoadIffRecent(s: Runs.State<string>, id: U64, now: U64)
    requires Runs.Inv(s) && (id in Live(s.slots) ==> Live(s.slots)[id].expiry == OnInactivity(SESSION_LIFETIME))
    ensures var r := LoadAt(s.slots, id, now).1;
            && (r.Some? <==> id in Live(s.slots) && Recent(s, id, now))
            && (r.Some? ==> r.value == Live(s.slots)[id].(lastActive := now))
  {
    hide Live;
    LoadRefinesMap(s.slots, id, now);
  }

  lemma {:induction false} VisitEnds(s: Runs.State<string>, other: U64, now: U64, id: U64)
    requires Runs.Inv(s) && id in Live(s.slots) && Live(s.slots)[id].expiry == OnInactivity(SESSION_LIFETIME)
    ensures id in Live(LoadAt(s.slots, other, now).0) <==> !(other == id && !Recent(s, id, now))
  {
    hide Live;
    hide Recent;
    LoadRefinesMap(s.slots, other, now);
    if other == id {
      LoadIffRecent(s, id, now);
    }
  }

  /** A stored session is stored after a request exactly unless the request ends it. */
  lemma {:induction false} StoredUnlessEnded(s: Site, r: Request, digest: Digest, s': Site, id: U64, user: string)
    requires Runs.Inv(s.store) && Serves(s, r, digest, s') && OwnedBy(s, id, user)
    ensures IsLive(s', id) <==> !Ends(s, r, digest, id)
  {
    hide Live;
    hide Runs.Inv;
    hide Runs.Displaces;
    hide Recent;
    hide Saves;
    hide LoadAt;
    hide DeleteAt;
    match r {
      case Forget(other) => DeleteRefinesMapOf(s.store, other);
      case Visit(header, now) =>
        if CookieOf(header).Some? {
          VisitEnds(s.store, CookieOf(header).value, now, id);
        }
      case Finish(_, username, _, token, savedAt) =>
        if Granted(s.front, r, digest) {
          SaveEnds(s.store, NewSession(token, username.value, savedAt), s'.store.slots, id);
        }
      case _ =>
    }
  }

  lemma DeleteRefinesMapOf(s: Runs.State<string>, id: U64)
    requires Runs.Inv(s)
    ensures Live(DeleteAt(s.slots, id).0) == Live(s.slots) - {id}
  {
    hide Live;
    hide DeleteAt;
    DeleteRefinesMap(s.slots, id);
  }

  lemma SaveEnds(s: Runs.State<string>, r: Record<string>, slots': Slots<string>, id: U64)
    requires Runs.Inv(s) && r.id !in Ids(s.slots) && Saves(s.slots, r, slots') && id in Live(s.slots)
    ensures id in Live(slots') <==> !Runs.Displaces(s.slots, id)
  {
    hide Ids;
    hide Saves;
    hide Runs.Displaces;
    Runs.SaveDropsIff(s.slots, r, slots', id);
  }

  /** A login displaces a session only after as many others as there are slots, its
      own among them, were saved or loaded since that session's last use. */
  lemma {:induction false} DisplacedIsCrowded(s: Site, r: Request, digest: Digest, s': Site, id: U64)
    requires Runs.Inv(s.store) && Serves(s, r, digest, s') && IsLive(s, id)
    requires r.Finish? && Ends(s, r, digest, id)
    ensures |Runs.OthersSince(s'.store.uses, id)| >= |s.store.slots|
  {
    hide Runs.OthersSince;
    hide Runs.Displaces;
    hide Saves;
    hide Ids;
    hide Live;
    var record := NewSession(r.token, r.username.value, r.savedAt);
    SaveEnds(s.store, record, s'.store.slots, id);
    Runs.EvictionIsCrowded(s.store, record, s'.store, id);
  }

  // ── Authorisation ──────────────────────────────────────────────────────────

  /** Request `j` completed the login with token `id`, and no later request before
      `k` ended its session. */
  ghost predicate Origin(sites: seq<Site>, log: seq<Request>, digest: Digest, id: U64, j: int, k: int)
    requires k < |sites| == |log| + 1
  {
    j < k && LoggedIn(sites, log, digest, id, j) && forall i :: j < i < k ==> !Ends(sites[i], log[i], digest, id)
  }

  lemma {:induction false} OriginIffStored(n: nat, m: nat, sites: seq<Site>, log: seq<Request>, digest: Digest, id: U64, j: nat, k: nat)
    requires IsSiteRun(n, m, sites, log, digest) && j < k < |sites| && LoggedIn(sites, log, digest, id, j)
    ensures Origin(sites, log, digest, id, j, k) <==> StoredSince(sites, log, digest, id, j, k)
    decreases k
  {
    hide Ends;
    hide IsLive;
    hide LoggedIn;
    hide Serves;
    if k == j + 1 {
      StoredAtLogin(n, m, sites, log, digest, id, j);
    } else {
      OriginIffStored(n, m, sites, log, digest, id, j, k - 1);
      if IsLive(sites[k - 1], id) {
        StepStoredUnlessEnded(n, m, sites, log, digest, id, k - 1);
      }
    }
  }

  lemma StoredAtLogin(n: nat, m: nat, sites: seq<Site>, log: seq<Request>, digest: Digest, id: U64, j: nat)
    requires IsSiteRun(n, m, sites, log, digest) && LoggedIn(sites, log, digest, id, j)
    ensures IsLive(sites[j + 1], id)
  {
    hide Serves;
    hide IsLive;
    SiteKeepsInv(n, m, sites, log, digest, j);
    LoginStarts(sites[j], log[j], digest, sites[j + 1]);
  }

  lemma StepStoredUnlessEnded(n: nat, m: nat, sites: seq<Site>, log: seq<Request>, digest: Digest, id: U64, k: nat)
    requires IsSiteRun(n, m, sites, log, digest) && k < |log| && IsLive(sites[k], id)
    ensures IsLive(sites[k + 1], id) <==> !Ends(sites[k], log[k], digest, id)
  {
    hide Serves;
    hide IsLive;
    hide Ends;
    hide OwnedBy;
    SiteKeepsInv(n, m, sites, log, digest, k);
    var j := LiveHasLogin(n, m, sites, log, digest, k, id);
    StoredUnlessEnded(sites[k], log[k], digest, sites[k + 1], id, log[j].username.value);
  }

  /** Authentication is sound and complete. On every run with fresh tokens, logins
      overlapping in any way, a visit is authorised exactly if its cookie names the
      token of a completed login that no request has ended since, last used at most
      an hour ago; and then it is that login's user who is let in. */
  lemma {:induction false} VisitAuthorisedIff(n: nat, m: nat, sites: seq<Site>, log: seq<Request>, digest: Digest,
                                              k: nat, header: Option<string>, now: U64)
    requires IsSiteRun(n, m, sites, log, digest) && k < |sites|
    ensures var s := sites[k].store;
            var id := CookieOf(header);
            var r := Authorized(s.slots, header, now).1;
            && (r.Some? <==> id.Some? && (exists j :: Origin(sites, log, digest, id.value, j, k)) && Recent(s, id.value, now))
            && (r.Some? ==> forall j :: Origin(sites, log, digest, id.value, j, k) ==>
                              r.value == Record(id.value, log[j].username.value, OnInactivity(3_600_000_000), now))
  {
    hide Recent;
    hide LoadAt;
    hide Runs.Inv;
    hide IsLive;
    hide Live;
    hide Origin;
    hide StoredSince;
    if CookieOf(header).Some? {
      var id := CookieOf(header).value;
      SiteKeepsInv(n, m, sites, log, digest, k);
      OriginOfLive(n, m, sites, log, digest, k, id);
      LoadIffRecent(sites[k].store, id, now);
    }
  }

  /** A session is stored exactly if it has an origin, and then is that login's. */
  lemma {:induction false} OriginOfLive(n: nat, m: nat, sites: seq<Site>, log: seq<Request>, digest: Digest, k: nat, id: U64)
    requires IsSiteRun(n, m, sites, log, digest) && k < |sites|
    ensures id in Live(sites[k].store.slots) <==> exists j :: Origin(sites, log, digest, id, j, k)
    ensures forall j :: Origin(sites, log, digest, id, j, k) ==> OwnedBy(sites[k], id, log[j].username.value)
  {
    hide NextFront;
    hide Ends;
    hide Serves;
    hide Live;
    if IsLive(sites[k], id) {
      var j := LiveHasLogin(n, m, sites, log, digest, k, id);
      OriginIffStored(n, m, sites, log, digest, id, j, k);
    }
    forall i: int | Origin(sites, log, digest, id, i, k) ensures OwnedBy(sites[k], id, log[i].username.value) {
      OriginIffStored(n, m, sites, log, digest, id, i, k);
      var j := LiveHasLogin(n, m, sites, log, digest, k, id);
      LoginUnique(n, m, sites, log, digest, id, i, j, k);
    }
  }

  /** For the user: after a login, its cookie is good at request `k` if it was not
      forgotten, each visit with it came within an hour of the one before, and no
      login completed after `m` others had been active since its last use. */
  lemma {:induction false} UncrowdedLoginStays(n: nat, m: nat, sites: seq<Site>, log: seq<Request>, digest: Digest,
                                               j: nat, k: nat, header: Option<string>, now: U64)
    requires IsSiteRun(n, m, sites, log, digest) && j < k < |sites|
    requires Granted(sites[j].front, log[j], digest) && CookieOf(header) == Some(log[j].token)
    requires forall i :: j < i < k ==>
               && log[i] != Forget(log[j].token)
               && (log[i].Visit? && CookieOf(log[i].header) == Some(log[j].token) ==> Recent(sites[i].store, log[j].token, log[i].now))
               && (log[i].Finish? ==> |Runs.OthersSince(sites[i + 1].store.uses, log[j].token)| < m)
    requires Recent(sites[k].store, log[j].token, now)
    ensures Authorized(sites[k].store.slots, header, now).1
            == Some(Record(log[j].token, log[j].username.value, OnInactivity(3_600_000_000), now))
  {
    hide Recent;
    hide Serves;
    hide Runs.Displaces;
    hide Runs.OthersSince;
    hide IsLive;
    var id := log[j].token;
    UncrowdedIsOrigin(n, m, sites, log, digest, j, k);
    assert Origin(sites, log, digest, id, j, k);
    VisitAuthorisedIff(n, m, sites, log, digest, k, header, now);
  }

  lemma {:induction false} UncrowdedIsOrigin(n: nat, m: nat, sites: seq<Site>, log: seq<Request>, digest: Digest, j: nat, k: nat)
    requires IsSiteRun(n, m, sites, log, digest) && j < k < |sites| && Granted(sites[j].front, log[j], digest)
    requires forall i :: j < i < k ==>
               && log[i] != Forget(log[j].token)
               && (log[i].Visit? && CookieOf(log[i].header) == Some(log[j].token) ==> Recent(sites[i].store, log[j].token, log[i].now))
               && (log[i].Finish? ==> |Runs.OthersSince(sites[i + 1].store.uses, log[j].token)| < m)
    ensures Origin(sites, log, digest, log[j].token, j, k)
    decreases k
  {
    hide Recent;
    hide Serves;
    hide Runs.Displaces;
    hide Runs.OthersSince;
    hide IsLive;
    hide CookieOf;
    var id := log[j].token;
    if k > j + 1 {
      UncrowdedIsOrigin(n, m, sites, log, digest, j, k - 1);
      OriginIffStored(n, m, sites, log, digest, id, j, k - 1);
      SiteKeepsInv(n, m, sites, log, digest, k - 1);
      if log[k - 1].Finish? && Ends(sites[k - 1], log[k - 1], digest, id) {
        DisplacedIsCrowded(sites[k - 1], log[k - 1], digest, sites[k], id);
      }
    }
  }

  // ── The response and the nonce behind a login ───────────────────────────────────────────────

  lemma {:induction false} WaitingWasChecked(n: nat, log: seq<Request>, login: nat) returns (i: nat)
    requires n > 0 && login in RunFront(n, log).waiting
    ensures i < |log| && log[i].Check? && log[i].login == login && log[i].data == RunFront(n, log).waiting[login]
    ensures Verified(RunRing(n, NonceOps(log[..i])), log[i].data.nonce, log[i].at).1
    decreases |log|
  {
    hide Verified;
    hide Inserted;
    hide RunRing;
    hide NonceOps;
    var prior := log[..|log| - 1];
    var last := log[|log| - 1];
    if last.Check? && last.login == login && Verified(RunFront(n, prior).ring, last.data.nonce, last.at).1 {
      i := |log| - 1;
    } else {
      i := WaitingWasChecked(n, prior, login);
      assert prior[..i] == log[..i];
    }
  }

  /** The second half of a login saves a session exactly if its nonce had been
      verified, the stored name is the one given, and the response is the digest of
      that nonce with the stored name and password. Otherwise, a wrong response
      included, the session store is as before. */
  lemma FinishSavesIff(s: Site, r: Request, digest: Digest, s': Site)
    requires Serves(s, r, digest, s') && r.Finish?
    ensures s'.store != s.store <==>
              && r.login in s.front.waiting
              && (var data := s.front.waiting[r.login];
                  && r.username == Some(data.user) && r.password.Some?
                  && data.response == digest(data.nonce, data.user, r.password.value))
    ensures s'.store != s.store ==>
              Saves(s.store.slots, Record(r.token, r.username.value, OnInactivity(3_600_000_000), r.savedAt), s'.store.slots)
    ensures s'.front.waiting == s.front.waiting - {r.login}
  {
    hide Saves;
  }

  /** Every completed login answered the nonce of its first half with exactly that
      digest, and began with a nonce that was verified: 0, or one among the
      last `n` issued, under 30 s before; and if these were non-zero and distinct,
      one never presented before. */
  lemma {:induction false} GrantedAnswersIssuedNonce(n: nat, m: nat, sites: seq<Site>, log: seq<Request>, digest: Digest, j: nat)
      returns (i: nat, q: nat)
    requires IsSiteRun(n, m, sites, log, digest) && j < |log| && Granted(sites[j].front, log[j], digest)
    ensures i < j && log[i].Check? && log[i].login == log[j].login
    ensures log[j].username == Some(log[i].data.user) && log[j].password.Some?
    ensures log[i].data.response == digest(log[i].data.nonce, log[i].data.user, log[j].password.value)
    ensures var h := History(NonceOps(log[..i]));
            log[i].data.nonce != 0 ==>
              && InWindow(h, n, q) && h[q].nonce == log[i].data.nonce && log[i].at < h[q].at + 30_000_000
              && (FreshRun(NonceOps(log[..i]), n) ==> !h[q].presented)
  {
    hide RunFront;
    hide FreshRun;
    SiteKeepsInv(n, m, sites, log, digest, j);
    i := WaitingWasChecked(n, log[..j], log[j].login);
    assert log[..j][..i] == log[..i];
    q := 0;
    if log[i].data.nonce != 0 {
      q := VerifiedWasIssued(n, NonceOps(log[..i]), log[i].data.nonce, log[i].at);
    }
  }
}
