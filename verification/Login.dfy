/** Challenge-response login and the cookie check after it: the nonce store, the
    session store and the cookie format working together. */
module Login {
  import opened Prelude
  import opened Sessions
  import opened Nonces
  import opened Cookies

  datatype LoginData = LoginData(user: string, response: string, nonce: U64)

  datatype Reply = Reply(status: nat, body: string, setCookie: string)

  const SESSION_LIFETIME: U64 := 3600 * TICK_HZ

  /** The hexadecimal digest of nonce, user name and password. */
  type Digest = (U64, string, string) -> string

  function NewSession(token: U64, user: string, now: U64): Record<string> {
    Record(token, user, OnInactivity(SESSION_LIFETIME), now)
  }

  /** The cookie a login sets: its pair first, then its attributes. */
  predicate WebCookie(setCookie: string, token: U64) {
    Split(setCookie, ';') == ["session=" + Decimal(token), " Path=/", " Max-Age=3600", " SameSite=Strict", " HttpOnly"]
  }

  lemma WebCookieSplits(token: U64, user: string, now: U64)
    ensures WebCookie(Concat(SetCookiePieces(NewSession(token, user, now), WEB_CONFIG)), token)
  {
    hide Split;
    hide Concat;
    hide Decimal;
    hide MaxAge;
    var c := WEB_CONFIG;
    SetCookieSplits(NewSession(token, user, now), c);
    HourInSeconds(token, user, now);
    assert c.name + "=" + Decimal(token) == "session=" + Decimal(token);
    assert " Path=" + c.path == " Path=/" && " Max-Age=" + "3600" == " Max-Age=3600";
    assert " SameSite=" + c.sameSite == " SameSite=Strict";
  }

  lemma HourInSeconds(token: U64, user: string, now: U64)
    ensures Decimal(MaxAge(NewSession(token, user, now))) == "3600"
  {
    assert MaxAge(NewSession(token, user, now)) == 3600;
    assert Decimal(3) == "3";
    assert Decimal(36) == "36";
    assert Decimal(360) == "360";
  }

  class AppState {
    const nonceStore: NonceStore
    const sessionStore: LruMemoryStore<string>
    const digest: Digest

    constructor (nonceStore: NonceStore, sessionStore: LruMemoryStore<string>, digest: Digest)
      ensures this.nonceStore == nonceStore && this.sessionStore == sessionStore && this.digest == digest
    {
      this.nonceStore, this.sessionStore, this.digest := nonceStore, sessionStore, digest;
    }

    /** The nonce is spent first, whatever follows. The login succeeds exactly if the
        nonce was good, the stored user name is the one given, and the response is
        the digest of that nonce with the stored name and password; then a session
        of an hour is saved for that user and its cookie set. */
    method HandleLogin(username: Option<string>, password: Option<string>, data: LoginData,
                       token: U64, verifyAt: U64, savedAt: U64) returns (reply: Reply)
      requires nonceStore.Valid() && sessionStore.records.Length > 0
      modifies nonceStore.nonces, sessionStore.records
      ensures nonceStore.View() == Verified(old(nonceStore.View()), data.nonce, verifyAt).0
      ensures var nonceOk := Verified(old(nonceStore.View()), data.nonce, verifyAt).1;
              && (reply.status == 200 <==>
                    && nonceOk && username == Some(data.user) && password.Some?
                    && data.response == digest(data.nonce, data.user, password.value))
              && (reply.status != 200 ==> reply == Reply(401, if nonceOk then "Invalid credentials" else "Nonce expired or invalid", ""))
      ensures reply.status == 200 ==>
                && reply.body == "Login successful" && WebCookie(reply.setCookie, token)
                && Saves(old(sessionStore.records[..]), Record(token, data.user, OnInactivity(3_600_000_000), savedAt), sessionStore.records[..])
      ensures reply.status != 200 ==> sessionStore.records[..] == old(sessionStore.records[..])
    {
      hide Verified;
      hide Saves;
      hide WebCookie;
      hide Concat;
      var valid := nonceStore.Verify(data.nonce, verifyAt);
      if !valid {
        return Reply(401, "Nonce expired or invalid", "");
      }
      if username.Some? && password.Some? {
        if username.value == data.user {
          if digest(data.nonce, username.value, password.value) == data.response {
            var record := NewSession(token, username.value, savedAt);
            var _ := sessionStore.Save(record);
            SetCookieFits(record, WEB_CONFIG);
            WebCookieSplits(token, username.value, savedAt);
            var cookie, _ := FormatSetCookie(record, WEB_CONFIG, "");
            assert cookie == Concat(SetCookiePieces(record, WEB_CONFIG));
            return Reply(200, "Login successful", cookie);
          }
        }
      }
      reply := Reply(401, "Invalid credentials", "");
    }

    /** The check in front of protected pages: no header, or one that is not UTF-8,
        is `None`, and so is the result that redirects to the login page. */
    method Authorize(header: Option<string>, now: U64) returns (session: Option<Record<string>>)
      modifies sessionStore.records
      ensures (sessionStore.records[..], session) == Authorized(old(sessionStore.records[..]), header, now)
    {
      if header.None? {
        return None;
      }
      var id := CookieId(header.value);
      if id.None? {
        return None;
      }
      session := sessionStore.Load(id.value, now);
    }
  }

  function Authorized<D>(slots: Slots<D>, header: Option<string>, now: U64): (Slots<D>, Option<Record<D>>) {
    if header.None? || CookieId(header.value).None? then (slots, None)
    else LoadAt(slots, CookieId(header.value).value, now)
  }

  /** A saved record is the one its id finds, fresh or not. */
  lemma SavedIsFound<D>(slots: Slots<D>, r: Record<D>, slots': Slots<D>)
    requires Saves(slots, r, slots')
    ensures Find(slots', r.id) < |slots'| && slots'[Find(slots', r.id)] == Some(r)
  {
    var i := FindPlace(slots, r.id);
    var f := Find(slots', r.id);
    if i < |slots| {
      assert slots'[i] == Some(r);
      assert forall q :: 0 <= q < i ==> slots'[q] == slots[q];
    } else {
      var j: nat :| IsOldest(slots, j) && slots' == slots[j := Some(r)];
      assert slots'[j] == Some(r);
      assert forall q :: 0 <= q < |slots| && q != j ==> slots'[q] == slots[q];
    }
  }

  /** From login to a protected page: a browser keeps the pair of the cookie that a
      login set, and sends it among others, none before it named `session`. It
      then authorises that user at any time up to an hour after the login. */
  lemma {:induction false} LoginAuthorises(slots: Slots<string>, slots': Slots<string>, token: U64, user: string, savedAt: U64,
                        setCookie: string, pairs: seq<string>, k: nat, now: U64)
    requires Saves(slots, Record(token, user, OnInactivity(3_600_000_000), savedAt), slots') && WebCookie(setCookie, token)
    requires k < |pairs| && pairs[k] == Split(setCookie, ';')[0]
    requires forall i :: 0 <= i < |pairs| ==> Free(pairs[i], ';')
    requires forall i :: 0 <= i < k ==> OtherPair(pairs[i])
    ensures var r := Authorized(slots', Some(CookieHeader(pairs)), now).1;
            && (r.Some? <==> now <= savedAt + 3_600_000_000)
            && (r.Some? ==> r.value == Record(token, user, OnInactivity(3_600_000_000), now))
  {
    hide CookieId;
    hide OtherPair;
    BrowserHeaderReads(pairs, k, token);
    SavedIsFound(slots, Record(token, user, OnInactivity(3_600_000_000), savedAt), slots');
  }
}
