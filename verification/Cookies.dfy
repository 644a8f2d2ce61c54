/** The session cookie: its printed form, the header scan that reads it back,
    and the round trip between them. */
module Cookies {
  import opened Prelude
  import opened Sessions

  // ── Decimal numbers ────────────────────────────────────────────────────────

  function Digit(d: int): char
    requires 0 <= d < 10
  {
    '0' + d as char
  }

  predicate IsDigit(c: char) {
    '0' <= c <= '9'
  }

  predicate AllDigits(s: string) {
    forall i :: 0 <= i < |s| ==> IsDigit(s[i])
  }

  /** `{}` on an unsigned integer. */
  function Decimal(n: nat): (s: string)
    ensures s != [] && AllDigits(s)
  {
    if n < 10 then [Digit(n)] else Decimal(n / 10) + [Digit(n % 10)]
  }

  function DigitsValue(s: string): nat
    requires AllDigits(s)
  {
    if s == [] then 0
    else
      assert IsDigit(s[|s| - 1]);
      10 * DigitsValue(s[..|s| - 1]) + (s[|s| - 1] as int - '0' as int)
  }

  /** `str::parse::<u64>`: an optional plus sign, then digits, in range. */
  function ParseU64(s: string): Option<U64> {
    var digits := if s != [] && s[0] == '+' then s[1..] else s;
    if digits == [] || !AllDigits(digits) then None
    else if DigitsValue(digits) >= TWO_64 then None
    else Some(DigitsValue(digits))
  }

  lemma {:induction false} DecimalValue(n: nat)
    ensures DigitsValue(Decimal(n)) == n
    decreases n
  {
    if n < 10 {
      assert Decimal(n)[..0] == [];
    } else {
      DecimalValue(n / 10);
      var s := Decimal(n);
      assert s[..|s| - 1] == Decimal(n / 10);
    }
  }

  lemma DecimalParses(n: U64)
    ensures ParseU64(Decimal(n)) == Some(n)
  {
    var s := Decimal(n);
    assert IsDigit(s[0]);
    DecimalValue(n);
  }

  /** A power of ten. */
  function Pow10(k: nat): nat {
    if k == 0 then 1 else 10 * Pow10(k - 1)
  }

  /** A number below a power of ten prints in at most so many digits. */
  lemma {:induction false} DecimalLength(n: nat, k: nat)
    requires k > 0 && n < Pow10(k)
    ensures |Decimal(n)| <= k
    decreases n
  {
    if n >= 10 {
      assert k > 1 by {
        assert Pow10(1) == 10 * Pow10(0);
      }
      DecimalLength(n / 10, k - 1);
    }
  }

  lemma U64Digits(n: U64)
    ensures |Decimal(n)| <= 20
  {
    assert Pow10(5) == 100_000 by {
      assert Pow10(2) == 100 && Pow10(3) == 1000;
    }
    assert Pow10(10) == 10_000_000_000 by {
      assert Pow10(7) == 10_000_000;
    }
    assert Pow10(15) == 1_000_000_000_000_000 by {
      assert Pow10(12) == 1_000_000_000_000;
    }
    assert Pow10(17) == 100_000_000_000_000_000;
    assert Pow10(20) == 100_000_000_000_000_000_000;
    DecimalLength(n, 20);
  }

  // ── Printing ───────────────────────────────────────────────────────────────

  datatype CookieConfig = CookieConfig(name: string, httpOnly: bool, sameSite: string, secure: bool, path: string)

  /** `CookieConfig::default()` and the configuration of the web crate. */
  const DEFAULT_CONFIG := CookieConfig("session", true, "Strict", true, "/")
  const WEB_CONFIG := CookieConfig("session", true, "Strict", false, "/")

  /** `Max-Age`, in seconds; a past deadline gives 0. */
  function MaxAge<D>(r: Record<D>): nat {
    match r.expiry
    case OnInactivity(d) => d / TICK_HZ
    case AtDateTime(t) => (if t >= r.lastActive then t - r.lastActive else 0) / TICK_HZ
  }

  /** The printed age is the whole seconds that remain of the policy, at 1 MHz. */
  lemma MaxAgeRoundsDown<D>(r: Record<D>)
    ensures match r.expiry
            case OnInactivity(d) => 1_000_000 * MaxAge(r) <= d < 1_000_000 * (MaxAge(r) + 1)
            case AtDateTime(t) =>
              if t <= r.lastActive then MaxAge(r) == 0
              else 1_000_000 * MaxAge(r) <= t - r.lastActive < 1_000_000 * (MaxAge(r) + 1)
  {
  }

  /** The pieces handed to the buffer, in order. */
  function SetCookiePieces<D>(r: Record<D>, c: CookieConfig): seq<string> {
    [c.name, "=", Decimal(r.id), "; Path=", c.path, "; Max-Age=", Decimal(MaxAge(r)), "; SameSite=", c.sameSite,
     if c.httpOnly then "; HttpOnly" else "", if c.secure then "; Secure" else ""]
  }

  function ClearCookiePieces(c: CookieConfig): seq<string> {
    [c.name, "=", "", "; Path=", c.path, "; Max-Age=0; SameSite=", c.sameSite,
     if c.httpOnly then "; HttpOnly" else "", if c.secure then "; Secure" else ""]
  }

  function Concat(pieces: seq<string>): string {
    if pieces == [] then "" else Concat(pieces[..|pieces| - 1]) + pieces[|pieces| - 1]
  }

  /** The capacity of the cookie buffer. */
  const CAPACITY: nat := 128

  lemma {:induction false} ConcatGrows(pieces: seq<string>, m: nat)
    requires m <= |pieces|
    ensures Concat(pieces[..m]) <= Concat(pieces)
    decreases |pieces| - m
  {
    if m < |pieces| {
      assert pieces[..m + 1][..m] == pieces[..m];
      ConcatGrows(pieces, m + 1);
    } else {
      assert pieces[..m] == pieces;
    }
  }

  /** Writes pieces to the buffer until one does not fit; what was written stays. */
  method WritePieces(buf: string, pieces: seq<string>) returns (buf': string, ok: bool)
    requires |buf| <= CAPACITY
    ensures ok <==> |buf| + |Concat(pieces)| <= CAPACITY
    ensures ok ==> buf' == buf + Concat(pieces)
    ensures buf <= buf' <= buf + Concat(pieces) && |buf'| <= CAPACITY
  {
    buf' := buf;
    for i := 0 to |pieces|
      invariant buf' == buf + Concat(pieces[..i]) && |buf'| <= CAPACITY
    {
      assert pieces[..i + 1][..i] == pieces[..i];
      ConcatGrows(pieces, i);
      ConcatGrows(pieces, i + 1);
      if |buf'| + |pieces[i]| > CAPACITY {
        return buf', false;
      }
      buf' := buf' + pieces[i];
    }
    assert pieces[..|pieces|] == pieces;
    ok := true;
  }

  method FormatSetCookie<D>(r: Record<D>, c: CookieConfig, buf: string) returns (buf': string, ok: bool)
    requires |buf| <= 128
    ensures ok <==> |buf| + |Concat(SetCookiePieces(r, c))| <= 128
    ensures ok ==> buf' == buf + Concat(SetCookiePieces(r, c))
    ensures buf <= buf' <= buf + Concat(SetCookiePieces(r, c)) && |buf'| <= 128
  {
    buf', ok := WritePieces(buf, SetCookiePieces(r, c));
  }

  method FormatClearCookie(c: CookieConfig, buf: string) returns (buf': string, ok: bool)
    requires |buf| <= 128
    ensures ok <==> |buf| + |Concat(ClearCookiePieces(c))| <= 128
    ensures ok ==> buf' == buf + Concat(ClearCookiePieces(c))
    ensures buf <= buf' <= buf + Concat(ClearCookiePieces(c)) && |buf'| <= 128
  {
    buf', ok := WritePieces(buf, ClearCookiePieces(c));
  }

  // ── Reading ────────────────────────────────────────────────────────────────

  /** `char::is_whitespace`: the Unicode property White_Space. */
  predicate IsSpace(c: char) {
    var u := c as int;
    || 0x9 <= u <= 0xD || u == 0x20 || u == 0x85 || u == 0xA0 || u == 0x1680 || 0x2000 <= u <= 0x200A
    || u == 0x2028 || u == 0x2029 || u == 0x202F || u == 0x205F || u == 0x3000
  }

  function TrimStart(s: string): string {
    if s != [] && IsSpace(s[0]) then TrimStart(s[1..]) else s
  }

  function TrimEnd(s: string): string {
    if s != [] && IsSpace(s[|s| - 1]) then TrimEnd(s[..|s| - 1]) else s
  }

  function Trim(s: string): string {
    TrimEnd(TrimStart(s))
  }

  /** The index of the first `c`, or the length. */
  function IndexOf(s: string, c: char): (i: nat)
    ensures i <= |s| && (i < |s| ==> s[i] == c) && forall j :: 0 <= j < i ==> s[j] != c
  {
    if s == [] || s[0] == c then 0 else 1 + IndexOf(s[1..], c)
  }

  /** `split(c)`: never empty; an empty string has one empty segment. */
  function Split(s: string, c: char): (segments: seq<string>)
    ensures segments != []
    decreases |s|
  {
    var i := IndexOf(s, c);
    if i == |s| then [s] else [s[..i]] + Split(s[i + 1..], c)
  }

  /** What one segment contributes to the search. */
  function SegmentId(segment: string): Option<U64> {
    var t := Trim(segment);
    var i := IndexOf(t, '=');
    if i < |t| && t[..i] == "session" then ParseU64(t[i + 1..]) else None
  }

  function FirstId(segments: seq<string>): Option<U64> {
    if segments == [] then None
    else if SegmentId(segments[0]).Some? then SegmentId(segments[0])
    else FirstId(segments[1..])
  }

  /** The session id in a Cookie header. */
  function CookieId(header: string): Option<U64> {
    FirstId(Split(header, ';'))
  }

  // ── Round trip ─────────────────────────────────────────────────────────────

  predicate Free(s: string, c: char) {
    forall i :: 0 <= i < |s| ==> s[i] != c
  }

  function Join(segments: seq<string>, c: char): string
    requires segments != []
  {
    if |segments| == 1 then segments[0] else segments[0] + [c] + Join(segments[1..], c)
  }

  lemma IndexOfConcat(a: string, c: char, rest: string)
    requires Free(a, c)
    ensures IndexOf(a + [c] + rest, c) == |a|
    ensures IndexOf(a, c) == |a|
  {
    var s := a + [c] + rest;
    assert s[|a|] == c;
    assert forall i :: 0 <= i < |a| ==> s[i] == a[i];
  }

  lemma {:induction false} SplitJoins(segments: seq<string>, c: char)
    requires segments != [] && forall i :: 0 <= i < |segments| ==> Free(segments[i], c)
    ensures Split(Join(segments, c), c) == segments
    decreases |segments|
  {
    assert Free(segments[0], c);
    if |segments| == 1 {
      IndexOfConcat(segments[0], c, "");
    } else {
      SplitJoins(segments[1..], c);
      var rest := Join(segments[1..], c);
      IndexOfConcat(segments[0], c, rest);
      var s := segments[0] + [c] + rest;
      assert s[..|segments[0]|] == segments[0] && s[|segments[0]| + 1..] == rest;
    }
  }

  predicate AllSpace(s: string) {
    forall i :: 0 <= i < |s| ==> IsSpace(s[i])
  }

  lemma {:induction false} TrimStartPadded(pad: string, s: string)
    requires AllSpace(pad) && s != [] && !IsSpace(s[0])
    ensures TrimStart(pad + s) == s
    decreases |pad|
  {
    if pad != [] {
      assert (pad + s)[1..] == pad[1..] + s;
      TrimStartPadded(pad[1..], s);
    } else {
      assert pad + s == s;
    }
  }

  lemma {:induction false} TrimEndPadded(s: string, pad: string)
    requires AllSpace(pad) && s != [] && !IsSpace(s[|s| - 1])
    ensures TrimEnd(s + pad) == s
    decreases |pad|
  {
    if pad != [] {
      assert (s + pad)[..|s + pad| - 1] == s + pad[..|pad| - 1];
      TrimEndPadded(s, pad[..|pad| - 1]);
    } else {
      assert s + pad == s;
    }
  }

  /** The name-value pair a client sends back. */
  function Pair(id: U64): string {
    "session=" + Decimal(id)
  }

  lemma ConcatStep(pieces: seq<string>, m: nat)
    requires m < |pieces|
    ensures Concat(pieces[..m + 1]) == Concat(pieces[..m]) + pieces[m]
  {
    assert pieces[..m + 1][..m] == pieces[..m];
  }

  /** A cookie with its attributes, as one text. */
  function CookieText(value: string, age: string, c: CookieConfig): string {
    c.name + "=" + value + "; Path=" + c.path + "; Max-Age=" + age + "; SameSite=" + c.sameSite
    + (if c.httpOnly then "; HttpOnly" else "") + (if c.secure then "; Secure" else "")
  }

  lemma PiecesSpellText<D>(r: Record<D>, c: CookieConfig)
    ensures Concat(SetCookiePieces(r, c)) == CookieText(Decimal(r.id), Decimal(MaxAge(r)), c)
  {
    hide Concat;
    hide Decimal;
    hide MaxAge;
    var ps := SetCookiePieces(r, c);
    FirstSix(ps);
    ConcatStep(ps, 6);
    ConcatStep(ps, 7);
    ConcatStep(ps, 8);
    ConcatStep(ps, 9);
    ConcatStep(ps, 10);
    assert ps[..11] == ps;
  }

  lemma ClearPiecesSpellText(c: CookieConfig)
    ensures Concat(ClearCookiePieces(c)) == CookieText("", "0", c)
  {
    hide Concat;
    var ps := ClearCookiePieces(c);
    FirstSix(ps);
    ConcatStep(ps, 6);
    ConcatStep(ps, 7);
    ConcatStep(ps, 8);
    assert ps[..9] == ps;
    var front := c.name + "=" + "" + "; Path=" + c.path;
    assert front + "; Max-Age=0; SameSite=" == front + "; Max-Age=" + "0" + "; SameSite=";
  }

  lemma FirstSix(ps: seq<string>)
    requires |ps| >= 6
    ensures Concat(ps[..6]) == ps[0] + ps[1] + ps[2] + ps[3] + ps[4] + ps[5]
  {
    hide Concat;
    assert ps[..0] == [];
    ConcatEmpty();
    assert "" + ps[0] == ps[0];
    ConcatStep(ps, 0);
    ConcatStep(ps, 1);
    ConcatStep(ps, 2);
    ConcatStep(ps, 3);
    ConcatStep(ps, 4);
    ConcatStep(ps, 5);
  }

  lemma ConcatEmpty()
    ensures Concat([]) == ""
  {
  }

  /** The Set-Cookie text starts with that pair, ended by a semicolon. */
  lemma SetCookieStartsWithPair<D>(r: Record<D>, c: CookieConfig)
    requires c.name == "session"
    ensures Pair(r.id) + ";" <= Concat(SetCookiePieces(r, c))
  {
    PiecesSpellText(r, c);
    assert Pair(r.id) + "; Path=" <= CookieText(Decimal(r.id), Decimal(MaxAge(r)), c);
  }

  /** With either configuration the text fits its buffer, for all ids, durations
      and deadlines: it never takes more than 101 of the 128 bytes. */
  lemma SetCookieFits<D>(r: Record<D>, c: CookieConfig)
    requires c == DEFAULT_CONFIG || c == WEB_CONFIG
    requires match r.expiry case OnInactivity(d) => d < TWO_64 case AtDateTime(t) => t < TWO_64
    ensures |Concat(SetCookiePieces(r, c))| <= 101
  {
    PiecesSpellText(r, c);
    U64Digits(r.id);
    U64Digits(MaxAge(r));
  }

  /** What stands between the semicolons of a cookie's text. */
  function Attributes(value: string, age: string, c: CookieConfig): (segments: seq<string>)
    ensures segments != []
  {
    [c.name + "=" + value, " Path=" + c.path, " Max-Age=" + age, " SameSite=" + c.sameSite]
    + (if c.httpOnly then [" HttpOnly"] else []) + (if c.secure then [" Secure"] else [])
  }

  lemma {:induction false} JoinSnoc(segments: seq<string>, last: string, c: char)
    requires segments != []
    ensures Join(segments + [last], c) == Join(segments, c) + [c] + last
    decreases |segments|
  {
    var all := segments + [last];
    if |segments| == 1 {
      assert all[1..] == [last];
    } else {
      assert all[1..] == segments[1..] + [last];
      JoinSnoc(segments[1..], last, c);
      var rest := Join(segments[1..], c);
      assert segments[0] + [c] + (rest + [c] + last) == segments[0] + [c] + rest + [c] + last;
    }
  }

  /** One more attribute, `name` and `value`, on a joined text. */
  lemma JoinAttribute(segments: seq<string>, name: string, value: string, text: string)
    requires segments != [] && Join(segments, ';') == text
    ensures Join(segments + [name + value], ';') == text + (";" + name) + value
  {
    JoinSnoc(segments, name + value, ';');
    assert text + [';'] + (name + value) == text + (";" + name) + value;
  }

  lemma TextSplits(value: string, age: string, c: CookieConfig)
    requires Free(c.name, ';') && Free(c.path, ';') && Free(c.sameSite, ';') && Free(value, ';') && Free(age, ';')
    ensures Split(CookieText(value, age, c), ';') == Attributes(value, age, c)
  {
    hide Split;
    hide Join;
    AttributesSpellText(value, age, c);
    SplitJoins(Attributes(value, age, c), ';');
  }

  /** A client that splits the text at semicolons, as section 5.2 of RFC 6265
      does, finds exactly the pair, path, age, and flags that were configured. */
  lemma SetCookieSplits<D>(r: Record<D>, c: CookieConfig)
    requires Free(c.name, ';') && Free(c.path, ';') && Free(c.sameSite, ';')
    ensures Split(Concat(SetCookiePieces(r, c)), ';') ==
            [c.name + "=" + Decimal(r.id), " Path=" + c.path, " Max-Age=" + Decimal(MaxAge(r)), " SameSite=" + c.sameSite]
            + (if c.httpOnly then [" HttpOnly"] else []) + (if c.secure then [" Secure"] else [])
  {
    hide Decimal;
    hide MaxAge;
    hide Split;
    hide Concat;
    PiecesSpellText(r, c);
    DecimalIsFree(r.id);
    DecimalIsFree(MaxAge(r));
    TextSplits(Decimal(r.id), Decimal(MaxAge(r)), c);
  }

  /** And in the clearing text an empty value and an age of zero. */
  lemma ClearCookieSplits(c: CookieConfig)
    requires Free(c.name, ';') && Free(c.path, ';') && Free(c.sameSite, ';')
    ensures Split(Concat(ClearCookiePieces(c)), ';') ==
            [c.name + "=", " Path=" + c.path, " Max-Age=0", " SameSite=" + c.sameSite]
            + (if c.httpOnly then [" HttpOnly"] else []) + (if c.secure then [" Secure"] else [])
  {
    hide Split;
    hide Concat;
    ClearPiecesSpellText(c);
    TextSplits("", "0", c);
    assert c.name + "=" + "" == c.name + "=" && " Max-Age=" + "0" == " Max-Age=0";
  }

  lemma AttributesSpellText(value: string, age: string, c: CookieConfig)
    ensures Join(Attributes(value, age, c), ';') == CookieText(value, age, c)
  {
    var pair := c.name + "=" + value;
    var a1 := [pair];
    assert Join(a1, ';') == pair;
    hide Join;
    var a2 := a1 + [" Path=" + c.path];
    JoinAttribute(a1, " Path=", c.path, pair);
    var a3 := a2 + [" Max-Age=" + age];
    var t2 := pair + "; Path=" + c.path;
    assert ";" + " Path=" == "; Path=" && ";" + " Max-Age=" == "; Max-Age=" && ";" + " SameSite=" == "; SameSite=";
    JoinAttribute(a2, " Max-Age=", age, t2);
    var a4 := a3 + [" SameSite=" + c.sameSite];
    var t3 := t2 + "; Max-Age=" + age;
    JoinAttribute(a3, " SameSite=", c.sameSite, t3);
    AddFlags(a4, t3 + "; SameSite=" + c.sameSite, c.httpOnly, c.secure);
    assert a4 == [pair, " Path=" + c.path, " Max-Age=" + age, " SameSite=" + c.sameSite];
  }

  lemma AddFlags(segments: seq<string>, text: string, httpOnly: bool, secure: bool)
    requires segments != [] && Join(segments, ';') == text
    ensures Join(segments + (if httpOnly then [" HttpOnly"] else []) + (if secure then [" Secure"] else []), ';')
            == text + (if httpOnly then "; HttpOnly" else "") + (if secure then "; Secure" else "")
  {
    var s1 := segments + (if httpOnly then [" HttpOnly"] else []);
    if httpOnly {
      JoinSnoc(segments, " HttpOnly", ';');
      assert text + [';'] + " HttpOnly" == text + "; HttpOnly";
    } else {
      assert s1 == segments && text + "" == text;
    }
    var t1 := text + (if httpOnly then "; HttpOnly" else "");
    if secure {
      JoinSnoc(s1, " Secure", ';');
      assert t1 + [';'] + " Secure" == t1 + "; Secure";
    } else {
      assert s1 + [] == s1 && t1 + "" == t1;
    }
  }

  lemma DecimalIsFree(n: nat)
    ensures Free(Decimal(n), ';')
  {
    assert !IsDigit(';');
  }

  /** The pair of a cleared cookie, sent back by a client, is no session id. */
  lemma ClearedPairReadsNone(c: CookieConfig, before: string, after: string)
    requires c.name == "session" && AllSpace(before) && AllSpace(after)
    ensures "session=" + ";" <= Concat(ClearCookiePieces(c))
    ensures SegmentId(before + "session=" + after) == None
  {
    ClearCookieStart(c);
    hide TrimStart;
    hide TrimEnd;
    hide Concat;
    var p := "session" + ['='] + "";
    assert p == "session=";
    assert (p + after)[0] == p[0] == 's' && p[|p| - 1] == '=';
    TrimStartPadded(before, p + after);
    assert before + (p + after) == before + p + after;
    TrimEndPadded(p, after);
    IndexOfConcat("session", '=', "");
    assert p[..7] == "session" && p[8..] == "";
  }

  lemma ClearCookieStart(c: CookieConfig)
    requires c.name == "session"
    ensures "session=" + ";" <= Concat(ClearCookiePieces(c))
  {
    hide Concat;
    var ps := ClearCookiePieces(c);
    FirstSix(ps);
    ConcatGrows(ps, 6);
    assert "session=" + ";" <= ps[0] + ps[1] + ps[2] + ps[3] + ps[4] + ps[5];
  }

  /** The code points trimmed are those with the Unicode property White_Space. */
  lemma WhiteSpaceIs(c: char)
    requires c as int < 0xD800
    ensures var listed := [9, 10, 11, 12, 13, 32, 133, 160, 5760, 8192, 8193, 8194, 8195, 8196, 8197, 8198, 8199, 8200,
                           8201, 8202, 8232, 8233, 8239, 8287, 12288];
            IsSpace(c) <==> c as int in listed
  {
  }

  // ── What a header says ─────────────────────────────────────────────────────

  /** The segment's text writes a session id: white space, `session=`, perhaps a plus
      sign, the id in digits, white space. */
  predicate WrittenAs(segment: string, id: U64, before: string, sign: string, digits: string, after: string) {
    && AllSpace(before) && AllSpace(after) && (sign == "" || sign == "+")
    && digits != [] && AllDigits(digits) && DigitsValue(digits) == id
    && segment == before + "session=" + sign + digits + after
  }

  ghost predicate Writes(segment: string, id: U64) {
    exists before, sign, digits, after :: WrittenAs(segment, id, before, sign, digits, after)
  }

  /** The segment's text is for a cookie of that name, with whatever value. */
  ghost predicate NamesSession(segment: string) {
    exists before :: AllSpace(before) && before + "session=" <= segment
  }

  lemma Associates(a: string, b: string, c: string)
    ensures a + b + c == a + (b + c)
  {
  }

  lemma {:induction false} TrimStartSplits(s: string) returns (before: string)
    ensures AllSpace(before) && s == before + TrimStart(s)
    decreases |s|
  {
    hide IsSpace;
    before := "";
    if s != [] && IsSpace(s[0]) {
      var first, rest := s[..1], s[1..];
      var spaces := TrimStartSplits(rest);
      before := first + spaces;
      assert s == first + rest && TrimStart(s) == TrimStart(rest);
      Associates(first, spaces, TrimStart(rest));
    }
  }

  lemma {:induction false} TrimEndSplits(s: string) returns (after: string)
    ensures AllSpace(after) && s == TrimEnd(s) + after
    decreases |s|
  {
    hide IsSpace;
    after := "";
    if s != [] && IsSpace(s[|s| - 1]) {
      var front, last := s[..|s| - 1], s[|s| - 1..];
      var spaces := TrimEndSplits(front);
      after := spaces + last;
      assert s == front + last && TrimEnd(s) == TrimEnd(front);
      Associates(TrimEnd(front), spaces, last);
    }
  }

  lemma {:induction false} ParsedDigits(s: string, id: U64) returns (sign: string, digits: string)
    requires ParseU64(s) == Some(id)
    ensures (sign == "" || sign == "+") && s == sign + digits && digits != []
    ensures AllDigits(digits) && DigitsValue(digits) == id
  {
    digits := if s != [] && s[0] == '+' then s[1..] else s;
    sign := s[..|s| - |digits|];
    assert s == sign + digits;
  }

  lemma SignedParses(sign: string, digits: string, id: U64)
    requires (sign == "" || sign == "+") && digits != []
    requires AllDigits(digits) && DigitsValue(digits) == id
    ensures ParseU64(sign + digits) == Some(id)
  {
    assert IsDigit(digits[0]);
    if sign == "+" {
      assert (sign + digits)[1..] == digits;
    } else {
      assert sign + digits == digits;
    }
  }

  lemma {:induction false} ReadIsWritten(segment: string, id: U64)
    requires SegmentId(segment) == Some(id)
    ensures Writes(segment, id)
  {
    hide TrimStart;
    hide TrimEnd;
    hide ParseU64;
    hide DigitsValue;
    var before := TrimStartSplits(segment);
    var after := TrimEndSplits(TrimStart(segment));
    var t := Trim(segment);
    assert t[..7] == "session" && t == t[..7] + "=" + t[8..];
    var sign, digits := ParsedDigits(t[8..], id);
    assert segment == before + "session=" + sign + digits + after;
    assert WrittenAs(segment, id, before, sign, digits, after);
  }

  lemma {:induction false} WrittenIsRead(segment: string, id: U64, before: string, sign: string, digits: string, after: string)
    requires WrittenAs(segment, id, before, sign, digits, after)
    ensures SegmentId(segment) == Some(id)
  {
    hide TrimStart;
    hide TrimEnd;
    hide ParseU64;
    hide DigitsValue;
    var value := sign + digits;
    var p := "session=" + value;
    assert IsDigit(digits[|digits| - 1]) && p[|p| - 1] == digits[|digits| - 1];
    assert (p + after)[0] == p[0] == 's';
    TrimStartPadded(before, p + after);
    assert before + (p + after) == segment;
    TrimEndPadded(p, after);
    assert p == "session" + ['='] + value;
    IndexOfConcat("session", '=', value);
    assert p[..7] == "session" && p[8..] == value;
    SignedParses(sign, digits, id);
  }

  /** Which segments hold an id, told by their text. */
  lemma {:induction false} SegmentReadsIff(segment: string, id: U64)
    ensures SegmentId(segment) == Some(id) <==> Writes(segment, id)
  {
    if SegmentId(segment) == Some(id) {
      ReadIsWritten(segment, id);
    }
    if Writes(segment, id) {
      var before, sign, digits, after :| WrittenAs(segment, id, before, sign, digits, after);
      WrittenIsRead(segment, id, before, sign, digits, after);
    }
  }

  lemma WrittenNames(segment: string, id: U64)
    requires Writes(segment, id)
    ensures NamesSession(segment)
  {
    var before, sign, digits, after :| WrittenAs(segment, id, before, sign, digits, after);
    assert segment == (before + "session=") + (sign + digits + after);
  }

  /** Segment `k` is the first to write an id, and it is this one. */
  ghost predicate FirstWritten(segments: seq<string>, id: U64, k: int) {
    0 <= k < |segments| && Writes(segments[k], id) && forall i, other: U64 :: 0 <= i < k ==> !Writes(segments[i], other)
  }

  lemma {:induction false} FirstIdAt(segments: seq<string>, k: nat, id: U64)
    requires k < |segments| && SegmentId(segments[k]) == Some(id)
    requires forall i :: 0 <= i < k ==> SegmentId(segments[i]) == None
    ensures FirstId(segments) == Some(id)
    decreases k
  {
    hide SegmentId;
    if k > 0 {
      var rest := segments[1..];
      assert forall i :: 0 <= i < k - 1 ==> rest[i] == segments[i + 1];
      FirstIdAt(rest, k - 1, id);
    }
  }

  lemma {:induction false} FirstIdFound(segments: seq<string>, id: U64) returns (k: nat)
    requires FirstId(segments) == Some(id)
    ensures k < |segments| && SegmentId(segments[k]) == Some(id) && forall i :: 0 <= i < k ==> SegmentId(segments[i]) == None
    decreases |segments|
  {
    if SegmentId(segments[0]).Some? {
      k := 0;
    } else {
      k := FirstIdFound(segments[1..], id);
      k := k + 1;
    }
  }

  lemma NothingWritten(segment: string)
    ensures SegmentId(segment) == None <==> forall id: U64 :: !Writes(segment, id)
  {
    forall id: U64 ensures SegmentId(segment) == Some(id) <==> Writes(segment, id) {
      SegmentReadsIff(segment, id);
    }
    if SegmentId(segment).Some? {
      assert Writes(segment, SegmentId(segment).value);
    }
  }

  /** The search over a whole header, told by its text: the id read is the one that the
      first segment to write any id writes. */
  lemma {:induction false} HeaderReadsIff(segments: seq<string>, id: U64)
    requires segments != [] && forall i :: 0 <= i < |segments| ==> Free(segments[i], ';')
    ensures CookieId(Join(segments, ';')) == Some(id) <==> exists k :: FirstWritten(segments, id, k)
  {
    hide SegmentId;
    hide Writes;
    SplitJoins(segments, ';');
    forall i | 0 <= i < |segments|
      ensures SegmentId(segments[i]) == Some(id) <==> Writes(segments[i], id)
      ensures SegmentId(segments[i]) == None <==> forall other: U64 :: !Writes(segments[i], other)
    {
      SegmentReadsIff(segments[i], id);
      NothingWritten(segments[i]);
    }
    if CookieId(Join(segments, ';')) == Some(id) {
      var k := FirstIdFound(segments, id);
      assert FirstWritten(segments, id, k);
    }
    if k :| FirstWritten(segments, id, k) {
      FirstIdAt(segments, k, id);
    }
  }

  /** Every header is the join of its segments. */
  lemma {:induction false} SplitIsJoin(s: string, c: char)
    ensures Join(Split(s, c), c) == s && forall i :: 0 <= i < |Split(s, c)| ==> Free(Split(s, c)[i], c)
    decreases |s|
  {
    var i := IndexOf(s, c);
    if i < |s| {
      SplitIsJoin(s[i + 1..], c);
      assert Split(s, c)[1..] == Split(s[i + 1..], c);
      assert s == s[..i] + [c] + s[i + 1..];
    }
  }

  /** An id read from any header stands in it as text: in some segment, after white
      space and `session=`, in decimal, with no other session id written before. */
  lemma {:induction false} ReadIdIsFirst(header: string, id: U64) returns (segments: seq<string>, k: nat)
    requires CookieId(header) == Some(id)
    ensures segments != [] && Join(segments, ';') == header && forall i :: 0 <= i < |segments| ==> Free(segments[i], ';')
    ensures FirstWritten(segments, id, k)
  {
    segments := Split(header, ';');
    SplitIsJoin(header, ';');
    HeaderReadsIff(segments, id);
    k :| FirstWritten(segments, id, k);
  }

  lemma PairWrites(before: string, id: U64, after: string)
    requires AllSpace(before) && AllSpace(after)
    ensures Writes(before + Pair(id) + after, id)
  {
    hide Decimal;
    hide DigitsValue;
    var segment := before + Pair(id) + after;
    DecimalValue(id);
    assert segment == before + "session=" + "" + Decimal(id) + after;
    assert WrittenAs(segment, id, before, "", Decimal(id), after);
  }

  /** Round trip: for every id, the printed pair, padded or not and anywhere in a
      semicolon-separated header, reads back as that id if no earlier segment is
      white space followed by `session=`. */
  lemma {:induction false} CookieRoundTrip(segments: seq<string>, k: nat, id: U64, before: string, after: string)
    requires k < |segments| && segments[k] == before + Pair(id) + after && AllSpace(before) && AllSpace(after)
    requires forall i :: 0 <= i < |segments| ==> Free(segments[i], ';')
    requires forall i :: 0 <= i < k ==> !NamesSession(segments[i])
    ensures CookieId(Join(segments, ';')) == Some(id)
  {
    hide Writes;
    hide NamesSession;
    PairWrites(before, id, after);
    forall i, other: U64 | 0 <= i < k ensures !Writes(segments[i], other) {
      if Writes(segments[i], other) {
        WrittenNames(segments[i], other);
      }
    }
    assert FirstWritten(segments, id, k);
    HeaderReadsIff(segments, id);
  }

  // ── Browsers ───────────────────────────────────────────────────────────────

  /** Section 4.2.1 of RFC 6265: name-value pairs joined by a semicolon and a space. */
  function CookieHeader(pairs: seq<string>): string
    requires pairs != []
  {
    if |pairs| == 1 then pairs[0] else pairs[0] + "; " + CookieHeader(pairs[1..])
  }

  /** The pairs as segments: all but the first after a space. */
  function Spaced(pairs: seq<string>): seq<string> {
    seq(|pairs|, (i: nat) requires i < |pairs| => if i == 0 then pairs[0] else " " + pairs[i])
  }

  lemma {:induction false} HeaderIsJoin(pairs: seq<string>)
    requires pairs != []
    ensures CookieHeader(pairs) == Join(Spaced(pairs), ';')
    decreases |pairs|
  {
    if |pairs| > 1 {
      var rest := pairs[1..];
      HeaderIsJoin(rest);
      assert Spaced(pairs)[1..] == [" " + rest[0]] + Spaced(rest)[1..];
      JoinPrefixed(Spaced(rest), " ");
      assert pairs[0] + "; " + CookieHeader(rest) == pairs[0] + [';'] + (" " + CookieHeader(rest));
    }
  }

  lemma JoinPrefixed(segments: seq<string>, pad: string)
    requires segments != []
    ensures Join([pad + segments[0]] + segments[1..], ';') == pad + Join(segments, ';')
  {
    var padded := [pad + segments[0]] + segments[1..];
    assert padded[1..] == segments[1..];
    if |segments| > 1 {
      PrefixAssociates(pad, segments[0], Join(segments[1..], ';'));
    }
  }

  lemma PrefixAssociates(pad: string, first: string, rest: string)
    ensures pad + first + [';'] + rest == pad + (first + [';'] + rest)
  {
  }

  /** A pair that does not begin with `session=`, nor with white space. */
  predicate OtherPair(pair: string) {
    !("session=" <= pair) && (pair != [] ==> !IsSpace(pair[0]))
  }

  lemma {:induction false} OtherIsNotNamed(pair: string, pad: string)
    requires OtherPair(pair) && (pad == "" || pad == " ")
    ensures !NamesSession(pad + pair)
  {
    forall before | AllSpace(before) ensures !(before + "session=" <= pad + pair) {
      NotAfter(pair, pad, before);
    }
  }

  lemma NotAfter(pair: string, pad: string, before: string)
    requires OtherPair(pair) && (pad == "" || pad == " ") && AllSpace(before)
    ensures !(before + "session=" <= pad + pair)
  {
    var named, s := before + "session=", pad + pair;
    if |before| < |pad| {
      assert named[0] == 's' && s[0] == ' ';
    } else if |before| > |pad| {
      assert IsSpace(named[|pad|]) && (pair != [] ==> s[|pad|] == pair[0]);
    } else if |pair| >= 8 {
      assert named[|pad|..] == "session=" && s[|pad|..|pad| + 8] == pair[..8];
      PrefixSlice(named, s, |pad|);
    }
  }

  lemma PrefixSlice(a: string, b: string, i: nat)
    requires i <= |a| <= |b|
    ensures a <= b ==> a[i..] == b[i..|a|]
  {
  }

  /** The header a browser sends for its cookies, in its own form: the first pair
      named `session` is the one read. */
  lemma {:induction false} BrowserHeaderReads(pairs: seq<string>, k: nat, id: U64)
    requires k < |pairs| && pairs[k] == Pair(id)
    requires forall i :: 0 <= i < |pairs| ==> Free(pairs[i], ';')
    requires forall i :: 0 <= i < k ==> OtherPair(pairs[i])
    ensures CookieId(CookieHeader(pairs)) == Some(id)
  {
    hide NamesSession;
    hide OtherPair;
    hide CookieId;
    var segments := Spaced(pairs);
    HeaderIsJoin(pairs);
    forall i | 0 <= i < k ensures !NamesSession(segments[i]) {
      OtherIsNotNamed(pairs[i], if i == 0 then "" else " ");
      assert "" + pairs[0] == pairs[0];
    }
    var pad := if k == 0 then "" else " ";
    assert segments[k] == pad + Pair(id) + "";
    CookieRoundTrip(segments, k, id, pad, "");
  }
}
