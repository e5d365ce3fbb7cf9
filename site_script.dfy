/** The page script's security helpers: the HTML escaping used on form
    values, the contact-form validators, the submission rate limiter, the
    attribute blocklist and the trusted-host test of the redirect guard. */
module SiteScript {
  import opened JsString

  // ----- HTML escaping -----

  /** How the HTML serialiser writes one character of a text node ("escaping
      a string" in the HTML Standard's fragment serialisation): `&`, `<`,
      `>` and the no-break space become character references. */
  function EscapeChar(c: char): (r: string)
    ensures |r| >= 1
  {
    if c == '&' then "&amp;"
    else if c == '<' then "&lt;"
    else if c == '>' then "&gt;"
    else if c == '\U{00A0}' then "&nbsp;"
    else [c]
  }

  /** `sanitizeHTML` and `escapeHTML`: both put the text into a fresh element
      as a text node and read back `innerHTML`, which is this escaping. */
  function EscapeText(s: string): (r: string)
    ensures |r| >= |s|
  {
    if s == [] then [] else EscapeChar(s[0]) + EscapeText(s[1..])
  }

  /** Reads the four character references back. */
  function Unescape(t: string): string
    decreases |t|
  {
    if t == [] then []
    else if t[0] != '&' then [t[0]] + Unescape(t[1..])
    else if "&amp;" <= t then ['&'] + Unescape(t[5..])
    else if "&lt;" <= t then ['<'] + Unescape(t[4..])
    else if "&gt;" <= t then ['>'] + Unescape(t[4..])
    else if "&nbsp;" <= t then ['\U{00A0}'] + Unescape(t[6..])
    else [t[0]] + Unescape(t[1..])
  }

  lemma UnescapeChar(c: char, rest: string)
    ensures Unescape(EscapeChar(c) + rest) == [c] + Unescape(rest)
  {
    var t := EscapeChar(c) + rest;
    if c == '&' {
      assert "&amp;" <= t && t[5..] == rest;
    } else if c == '<' {
      assert t[1] == 'l';
      assert "&lt;" <= t && t[4..] == rest;
    } else if c == '>' {
      assert t[1] == 'g';
      assert "&gt;" <= t && t[4..] == rest;
    } else if c == '\U{00A0}' {
      assert t[1] == 'n';
      assert "&nbsp;" <= t && t[6..] == rest;
    } else {
      assert t[0] == c && t[1..] == rest;
    }
  }

  /** Escaping loses nothing: reading the references back gives the text. */
  lemma {:induction false} UnescapeEscape(s: string)
    ensures Unescape(EscapeText(s)) == s
  {
    if s != [] {
      UnescapeEscape(s[1..]);
      UnescapeChar(s[0], EscapeText(s[1..]));
      assert s == [s[0]] + s[1..];
    }
  }

  /** Escaped text opens or closes no tag. */
  lemma {:induction false} EscapedTextHasNoTags(s: string)
    ensures '<' !in EscapeText(s) && '>' !in EscapeText(s)
  {
    if s != [] {
      EscapedTextHasNoTags(s[1..]);
    }
  }

  /** Text without the four special characters is left as it is. */
  lemma {:induction false} PlainTextIsUnchanged(s: string)
    requires '&' !in s && '<' !in s && '>' !in s && '\U{00A0}' !in s
    ensures EscapeText(s) == s
  {
    if s != [] {
      assert s[0] in s;
      PlainTextIsUnchanged(s[1..]);
      assert s == [s[0]] + s[1..];
    }
  }

  // ----- Form validators -----

  /** The class `[A-Za-z\s\-\.]`. */
  predicate IsNameChar(c: char) {
    'A' <= c <= 'Z' || 'a' <= c <= 'z' || IsWhitespace(c) || c == '-' || c == '.'
  }

  /** `validators.name`: the trimmed value is 2 to 100 letters, spaces,
      hyphens and dots. Every character of the class is one UTF-16 code
      unit, so the repetition count is the number of characters. */
  predicate ValidName(value: string) {
    NameText(Trim(value))
  }

  /** What `validators.name` demands of the trimmed value. */
  predicate NameText(t: string) {
    2 <= |t| <= 100 && forall k :: 0 <= k < |t| ==> IsNameChar(t[k])
  }

  predicate IsAlphanumeric(c: char) {
    'a' <= c <= 'z' || 'A' <= c <= 'Z' || '0' <= c <= '9'
  }

  /** The class of the part before `@`. */
  predicate IsLocalChar(c: char) {
    IsAlphanumeric(c) || c in ".!#$%&'*+/=?^_`{|}~-"
  }

  predicate IsLocalPart(s: string) {
    |s| >= 1 && forall k :: 0 <= k < |s| ==> IsLocalChar(s[k])
  }

  /** `[a-zA-Z0-9](?:[a-zA-Z0-9-]{0,61}[a-zA-Z0-9])?`: 1 to 63 characters,
      alphanumeric at both ends, hyphens allowed inside. */
  predicate IsLabel(l: string) {
    1 <= |l| <= 63 && IsAlphanumeric(l[0]) && IsAlphanumeric(l[|l| - 1]) &&
    forall k :: 0 < k < |l| - 1 ==> IsAlphanumeric(l[k]) || l[k] == '-'
  }

  /** A label followed by any number of `.label`. */
  predicate IsDomain(d: string) {
    var labels := Split(d, '.');
    forall i :: 0 <= i < |labels| ==> IsLabel(labels[i])
  }

  /** The pattern of `validators.email`, read as a grammar: some `@` splits
      the text into a local part and a domain. */
  predicate MatchesEmailPattern(t: string) {
    exists i :: 0 <= i < |t| && t[i] == '@' && IsLocalPart(t[..i]) && IsDomain(t[i + 1..])
  }

  /** The same pattern, decided at the first `@`. */
  predicate EmailSyntax(t: string) {
    var at := IndexOf(t, '@');
    at >= 0 && IsLocalPart(t[..at]) && IsDomain(t[at + 1..])
  }

  /** The local part cannot hold an `@`, so the only split that can work is
      the one at the first `@`. */
  lemma EmailSplitsAtFirstAt(t: string)
    ensures EmailSyntax(t) <==> MatchesEmailPattern(t)
  {
    if MatchesEmailPattern(t) {
      var i :| 0 <= i < |t| && t[i] == '@' && IsLocalPart(t[..i]) && IsDomain(t[i + 1..]);
      FirstAtEndsTheLocalPart(t, i);
    }
    if EmailSyntax(t) {
      var at := IndexOf(t, '@');
      assert t[at] == '@' && IsLocalPart(t[..at]) && IsDomain(t[at + 1..]);
    }
  }

  /** An `@` after a local part is the first `@`. */
  lemma FirstAtEndsTheLocalPart(t: string, i: int)
    requires 0 <= i < |t| && t[i] == '@' && IsLocalPart(t[..i])
    ensures IndexOf(t, '@') == i
  {
    var at := IndexOf(t, '@');
    assert t[i] in t;
    forall j | 0 <= j < i
      ensures t[j] != '@'
    {
      assert IsLocalChar(t[..i][j]);
    }
    NotBefore(t, '@', at);
  }

  /** A character missing from a prefix occurs at no position of it. */
  lemma NotBefore(s: string, c: char, n: int)
    requires 0 <= n <= |s| && c !in s[..n]
    ensures forall j :: 0 <= j < n ==> s[j] != c
  {
    forall j | 0 <= j < n
      ensures s[j] != c
    {
      assert s[..n][j] == s[j];
    }
  }

  /** `validators.email`: the trimmed value matches, and the untrimmed value
      is at most 254 code units long. */
  predicate ValidEmail(value: string) {
    EmailSyntax(Trim(value)) && JsLength(value) <= 254
  }

  /** `validators.message`: 10 to 5000 code units once trimmed. */
  predicate ValidMessage(value: string) {
    MessageText(Trim(value))
  }

  /** What `validators.message` demands of the trimmed value. */
  predicate MessageText(t: string) {
    10 <= JsLength(t) <= 5000
  }

  /** Trimming twice trims nothing more. */
  lemma TrimIsIdempotent(s: string)
    ensures Trim(Trim(s)) == Trim(s)
  {
    var t := Trim(s);
    if t != [] {
      assert LeadingSpace(t) == 0;
      assert TrailingSpace(t) == 0;
    }
  }

  /** The validators look only at the trimmed value (the e-mail length limit
      aside), so surrounding whitespace never changes their answer. */
  lemma ValidatorsIgnoreSurroundingSpace(value: string)
    ensures ValidName(Trim(value)) <==> ValidName(value)
    ensures ValidMessage(Trim(value)) <==> ValidMessage(value)
    ensures EmailSyntax(Trim(Trim(value))) <==> EmailSyntax(Trim(value))
  {
    TrimIsIdempotent(value);
  }

  /** A valid name may hold no-break spaces, which sanitising turns into
      `&nbsp;`; any other valid name passes through sanitising unchanged. */
  lemma ValidNamesSurviveSanitising(value: string)
    requires ValidName(value) && '\U{00A0}' !in value
    ensures EscapeText(Trim(value)) == Trim(value)
  {
    var t := Trim(value);
    var start := LeadingSpace(value);
    assert t == value[start..][..|value[start..]| - TrailingSpace(value[start..])];
    forall c | c in t ensures c != '&' && c != '<' && c != '>' && c != '\U{00A0}' {
      var k :| 0 <= k < |t| && t[k] == c;
      assert IsNameChar(t[k]);
      assert c == value[start + k];
    }
    PlainTextIsUnchanged(t);
  }

  // ----- The submission rate limiter -----

  const MaxAttempts: nat := 3
  const TimeWindow: int := 60000

  /** `Math.ceil(x / d)` for a positive integer divisor. */
  function CeilDiv(x: int, d: int): (r: int)
    requires d > 0
  {
    -((-x) / d)
  }

  /** The quotient rounded up: the least `r` with `x <= r * d`. */
  lemma CeilDivBounds(x: int, d: int)
    requires d > 0
    ensures (CeilDiv(x, d) - 1) * d < x <= CeilDiv(x, d) * d
  {
    var q := (-x) / d;
    assert -x == q * d + (-x) % d;
    assert (-q - 1) * d == -(q * d) - d;
    assert -q * d == -(q * d);
  }

  /** The number of attempts `canSubmit` leaves: they are forgotten once more
      than a minute has passed since the last one. */
  function AttemptsAt(attempts: nat, lastAttempt: int, now: int): (n: nat)
    ensures n <= attempts
    ensures now - lastAttempt > TimeWindow ==> n == 0
    ensures now - lastAttempt <= TimeWindow ==> n == attempts
  {
    if now - lastAttempt > TimeWindow then 0 else attempts
  }

  /** `rateLimiter`: the attempts counted in the current window and the time
      of the last one. */
  class RateLimiter {
    var attempts: nat
    var lastAttempt: int

    constructor()
      ensures attempts == 0 && lastAttempt == 0
    {
      attempts := 0;
      lastAttempt := 0;
    }

    /** `canSubmit`: forgets stale attempts, then allows fewer than three. */
    method CanSubmit(now: int) returns (ok: bool)
      modifies this
      ensures attempts == AttemptsAt(old(attempts), old(lastAttempt), now)
      ensures lastAttempt == old(lastAttempt)
      ensures ok <==> attempts < MaxAttempts
    {
      if now - lastAttempt > TimeWindow {
        attempts := 0;
      }
      ok := attempts < MaxAttempts;
    }

    /** `recordAttempt`. */
    method RecordAttempt(now: int)
      modifies this
      ensures attempts == old(attempts) + 1 && lastAttempt == now
    {
      attempts := attempts + 1;
      lastAttempt := now;
    }

    /** `getRemainingTime`: the seconds left in the window, rounded up. */
    function RemainingTime(now: int): (seconds: int)
      reads this
      ensures seconds > 0 <==> now - lastAttempt < TimeWindow
      ensures now >= lastAttempt ==> seconds <= TimeWindow / 1000
    {
      CeilDivBounds(TimeWindow - (now - lastAttempt), 1000);
      CeilDiv(TimeWindow - (now - lastAttempt), 1000)
    }
  }

  /** Three submissions, each within a minute of the previous one, fill the
      window: `canSubmit` refuses until a minute after the third. */
  lemma ThirdAttemptFillsTheWindow(attempts: nat, lastAttempt: int, t1: int, t2: int, t3: int, now: int)
    requires t2 - t1 <= TimeWindow && t3 - t2 <= TimeWindow && now - t3 <= TimeWindow
    ensures var a1 := AttemptsAt(attempts, lastAttempt, t1) + 1;
      var a2 := AttemptsAt(a1, t1, t2) + 1;
      var a3 := AttemptsAt(a2, t2, t3) + 1;
      AttemptsAt(a3, t3, now) >= MaxAttempts
  {
  }

  /** The outcome of the contact form's submit handler. */
  datatype Submission = TooManyAttempts(waitSeconds: int) | Invalid(name: bool, email: bool, message: bool) | Sent

  /** The submit handler after its honeypot test: the rate limit first, then
      the three validators on the trimmed and sanitised values; only a valid
      form is counted as an attempt. A refusal reports `getRemainingTime`. */
  method SubmitContactForm(limiter: RateLimiter, name: string, email: string, message: string, now: int)
    returns (outcome: Submission)
    modifies limiter
    ensures var allowed := AttemptsAt(old(limiter.attempts), old(limiter.lastAttempt), now) < MaxAttempts;
      var nameOk := ValidName(EscapeText(Trim(name)));
      var emailOk := ValidEmail(EscapeText(Trim(email)));
      var messageOk := ValidMessage(EscapeText(Trim(message)));
      && (!allowed ==> outcome == TooManyAttempts(limiter.RemainingTime(now)) && unchanged(limiter`lastAttempt))
      && (allowed && (nameOk && emailOk && messageOk) ==> outcome == Sent && limiter.lastAttempt == now)
      && (allowed && !(nameOk && emailOk && messageOk) ==>
            outcome == Invalid(nameOk, emailOk, messageOk) && unchanged(limiter`lastAttempt))
    ensures limiter.attempts ==
      AttemptsAt(old(limiter.attempts), old(limiter.lastAttempt), now) + (if outcome == Sent then 1 else 0)
  {
    var ok := limiter.CanSubmit(now);
    if !ok {
      var wait := limiter.RemainingTime(now);
      return TooManyAttempts(wait);
    }
    var nameValue := EscapeText(Trim(name));
    var emailValue := EscapeText(Trim(email));
    var messageValue := EscapeText(Trim(message));
    var nameOk := ValidName(nameValue);
    var emailOk := ValidEmail(emailValue);
    var messageOk := ValidMessage(messageValue);
    if nameOk && emailOk && messageOk {
      limiter.RecordAttempt(now);
      return Sent;
    }
    return Invalid(nameOk, emailOk, messageOk);
  }

  // ----- The attribute blocklist -----

  const DangerousAttributes: seq<string> := ["onclick", "onload", "onerror", "onmouseover", "href", "src"]

  /** The blocklist test of `safelySetAttribute`, on the lower-cased name. */
  predicate IsDangerousAttribute(attribute: string) {
    Lower(attribute) in DangerousAttributes
  }

  /** The attributes of one HTML element. */
  class Element {
    var attributes: map<string, string>

    constructor()
      ensures attributes == map[]
    {
      attributes := map[];
    }

    /** `safelySetAttribute`: a blocked name changes nothing; any other name
        is set, as `setAttribute` does on an HTML element, under its ASCII
        lower-cased form and with the escaped value. The `safeAttributes`
        list is never consulted. */
    method SafelySetAttribute(attribute: string, value: string)
      modifies this
      ensures IsDangerousAttribute(attribute) ==> attributes == old(attributes)
      ensures !IsDangerousAttribute(attribute) ==>
        attributes == old(attributes)[Lower(attribute) := EscapeText(value)]
      ensures forall k :: k in DangerousAttributes ==>
        (k in attributes <==> k in old(attributes)) && (k in attributes ==> attributes[k] == old(attributes)[k])
    {
      if Lower(attribute) in DangerousAttributes {
        return;
      }
      attributes := attributes[Lower(attribute) := EscapeText(value)];
    }
  }

  // ----- The trusted-host test -----

  const TrustedDomains: seq<string> := ["github.com", "linkedin.com", "twitter.com", "facebook.com", "instagram.com"]

  /** `hostname === domain || hostname.endsWith('.' + domain)` for some
      trusted domain. */
  predicate UnderTrustedDomain(host: string) {
    exists i :: 0 <= i < |TrustedDomains| &&
      (host == TrustedDomains[i] || EndsWith(host, "." + TrustedDomains[i]))
  }

  /** The test as written: `hostname.replace('www.', '')` removes the first
      `www.` wherever it occurs, not only at the front. */
  predicate IsTrustedHostAsWritten(hostname: string) {
    UnderTrustedDomain(ReplaceFirst(hostname, "www.", ""))
  }

  /** So `github.www.com`, a name under `www.com`, passes as GitHub. */
  lemma InnerWwwPassesAsTrusted()
    ensures IsTrustedHostAsWritten("github.www.com")
    ensures !UnderTrustedDomain("github.www.com")
  {
    InnerWwwIsRemoved();
    assert UnderTrustedDomain("github.com") by {
      assert "github.com" == TrustedDomains[0];
    }
    forall i | 0 <= i < |TrustedDomains|
      ensures "github.www.com" != TrustedDomains[i] && !EndsWith("github.www.com", "." + TrustedDomains[i])
    {
      NotUnderTrustedDomain(i);
    }
  }

  lemma InnerWwwIsRemoved()
    ensures ReplaceFirst("github.www.com", "www.", "") == "github.com"
  {
    RemovesFirstWww("github.", "com");
    assert "github." + "www." + "com" == "github.www.com";
    assert "github." + "com" == "github.com";
  }

  /** `replace('www.', '')` on a text whose first `w` starts `www.` cuts
      exactly that `www.` out. */
  lemma RemovesFirstWww(x: string, y: string)
    requires 'w' !in x
    ensures ReplaceFirst(x + "www." + y, "www.", "") == x + y
  {
    var s := x + "www." + y;
    assert s[|x|..|x| + 4] == "www.";
    assert forall j :: 0 <= j < |x| ==> s[j] == x[j];
    FindFirst(s, "www.", |x|);
    ContainsIsFound(s, "www.");
    assert s[..|x|] == x && s[|x| + 4..] == y;
  }

  lemma NotUnderTrustedDomain(i: int)
    requires 0 <= i < |TrustedDomains|
    ensures "github.www.com" != TrustedDomains[i] && !EndsWith("github.www.com", "." + TrustedDomains[i])
  {
    var h := "github.www.com";
    var d := "." + TrustedDomains[i];
    if |d| <= |h| {
      assert h[|h| - |d|..] != d by {
        assert h[|h| - |d|..][|d| - 5] == 'w';
      }
    }
  }

  /** `indexOf` finds a pattern at `k` when its first character occurs
      nowhere before. */
  lemma FindFirst(s: string, pat: string, k: nat)
    requires |pat| > 0 && k + |pat| <= |s| && s[k..k + |pat|] == pat
    requires forall j :: 0 <= j < k ==> s[j] != pat[0]
    ensures Find(s, pat) == k
  {
    var i := Find(s, pat);
    assert pat <= s[k..];
  }

  /** The intended test: only a leading `www.` is dropped. */
  function StripWww(hostname: string): (r: string)
    ensures r == hostname || "www." + r == hostname
  {
    if StartsWith(hostname, "www.") then hostname[4..] else hostname
  }

  predicate IsTrustedHost(hostname: string) {
    UnderTrustedDomain(StripWww(hostname))
  }

  /** With only a leading `www.` dropped, a host is trusted exactly when it is
      a trusted domain or a name under one. */
  lemma TrustedHostIsUnderTrustedDomain(hostname: string)
    ensures IsTrustedHost(hostname) <==> UnderTrustedDomain(hostname)
  {
    var s := StripWww(hostname);
    if UnderTrustedDomain(s) {
      var i :| 0 <= i < |TrustedDomains| && (s == TrustedDomains[i] || EndsWith(s, "." + TrustedDomains[i]));
      SuffixOfStripped(hostname, "." + TrustedDomains[i]);
      if s == TrustedDomains[i] && s != hostname {
        assert EndsWith(hostname, "." + TrustedDomains[i]) by {
          assert hostname == "www" + ("." + s);
        }
      }
    }
    if UnderTrustedDomain(hostname) {
      var i :| 0 <= i < |TrustedDomains| &&
        (hostname == TrustedDomains[i] || EndsWith(hostname, "." + TrustedDomains[i]));
      var d := TrustedDomains[i];
      if s != hostname {
        assert hostname == "www." + s;
        if hostname == d {
          NoTrustedDomainStartsWithWww(i);
          assert false;
        }
        StrippedKeepsSuffix(s, d);
      }
    }
  }

  lemma NoTrustedDomainStartsWithWww(i: int)
    requires 0 <= i < |TrustedDomains|
    ensures !StartsWith(TrustedDomains[i], "www.")
  {
    var d := TrustedDomains[i];
    assert d[3] != '.' by {
      if i == 0 { assert d == "github.com"; }
      else if i == 1 { assert d == "linkedin.com"; }
      else if i == 2 { assert d == "twitter.com"; }
      else if i == 3 { assert d == "facebook.com"; }
      else { assert d == "instagram.com"; }
    }
  }

  /** A suffix of the stripped host is a suffix of the host. */
  lemma SuffixOfStripped(hostname: string, p: string)
    ensures EndsWith(StripWww(hostname), p) ==> EndsWith(hostname, p)
  {
    var s := StripWww(hostname);
    if EndsWith(s, p) && s != hostname {
      assert hostname[|hostname| - |p|..] == s[|s| - |p|..];
    }
  }

  /** `www.` followed by `s` ends with `.d` only when `s` is `d` or ends
      with `.d`. */
  lemma StrippedKeepsSuffix(s: string, d: string)
    requires EndsWith("www." + s, "." + d)
    ensures s == d || EndsWith(s, "." + d)
  {
    var h := "www." + s;
    var p := "." + d;
    if |p| <= |s| {
      assert s[|s| - |p|..] == h[|h| - |p|..];
    } else {
      var j := |h| - |p|;
      assert h[j..] == p;
      assert h[j] == p[0] == '.';
      assert h[j] == "www."[j];
      assert j == 3;
      assert h[|h| - |p|..] == "." + s;
      assert ("." + s)[1..] == s && ("." + d)[1..] == d;
    }
  }
}
