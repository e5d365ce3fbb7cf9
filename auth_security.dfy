/** The authentication helpers: the password policy and strength score, the
    brute-force login limiter, the session manager and the guards of
    `secureLogin` that run before the backend is asked. Storage is a map or
    an optional record held by a class; clocks, the backend's answer and the
    random tokens are parameters. */
module AuthSecurity {
  import opened Optional
  import opened JsString
  import opened JsArray
  import SiteScript

  // ----- Password policy -----

  const MinLength: nat := 12

  predicate HasUppercase(p: string) {
    exists k :: 0 <= k < |p| && 'A' <= p[k] <= 'Z'
  }

  predicate HasLowercase(p: string) {
    exists k :: 0 <= k < |p| && 'a' <= p[k] <= 'z'
  }

  /** `\d` matches the ASCII digits only. */
  predicate HasNumber(p: string) {
    exists k :: 0 <= k < |p| && IsDigit(p[k])
  }

  /** The class `[!@#$%^&*()_+\-=\[\]{};':"\\|,.<>\/?]`. */
  predicate IsSpecial(c: char) {
    c in "!@#$%^&*()_+-=[]{};':\"\\|,.<>/?"
  }

  predicate HasSpecial(p: string) {
    exists k :: 0 <= k < |p| && IsSpecial(p[k])
  }

  const CommonPasswords: seq<string> := [
    "password", "123456", "12345678", "qwerty", "abc123",
    "monkey", "1234567", "letmein", "trustno1", "dragon",
    "baseball", "iloveyou", "master", "sunshine", "ashley",
    "bailey", "passw0rd", "shadow", "123123", "654321"]

  /** `isCommonPassword`: the lower-cased password is on the list. */
  predicate IsCommonPassword(password: string) {
    Lower(password) in CommonPasswords
  }

  lemma {:induction false} LowerIsIdempotent(s: string)
    ensures Lower(Lower(s)) == Lower(s)
  {
    var l := Lower(s);
    assert forall k :: 0 <= k < |s| ==> Lower(l)[k] == LowerChar(LowerChar(s[k]));
  }

  /** The list test ignores case. */
  lemma CommonTestIgnoresCase(password: string)
    ensures IsCommonPassword(Lower(password)) <==> IsCommonPassword(password)
  {
    LowerIsIdempotent(password);
  }

  datatype PasswordError = TooShort | NoUppercase | NoLowercase | NoNumber | NoSpecialCharacter | TooCommon

  /** The message `validate` pushes for each error. */
  function PasswordMessage(e: PasswordError): string {
    match e
    case TooShort => "Password must be at least 12 characters"
    case NoUppercase => "Password must contain at least one uppercase letter"
    case NoLowercase => "Password must contain at least one lowercase letter"
    case NoNumber => "Password must contain at least one number"
    case NoSpecialCharacter => "Password must contain at least one special character"
    case TooCommon => "This password is too common. Please choose a stronger password"
  }

  /** The outcomes of the six rules, in the order `validate` checks them. */
  datatype PasswordChecks = PasswordChecks(long: bool, upper: bool, lower: bool, number: bool,
                                           special: bool, common: bool)

  function PasswordChecksOf(p: string): PasswordChecks {
    PasswordChecks(JsLength(p) >= MinLength, HasUppercase(p), HasLowercase(p), HasNumber(p),
                   HasSpecial(p), IsCommonPassword(p))
  }

  /** One error per broken rule, in order. */
  function ErrorsOf(c: PasswordChecks): (errors: seq<PasswordError>)
    ensures |errors| <= 6
    ensures |errors| == 0 <==> c.long && c.upper && c.lower && c.number && c.special && !c.common
    ensures c.common ==> errors[|errors| - 1] == TooCommon
  {
    Failing(c.long, TooShort) + Failing(c.upper, NoUppercase) + Failing(c.lower, NoLowercase) +
    Failing(c.number, NoNumber) + Failing(c.special, NoSpecialCharacter) + Failing(!c.common, TooCommon)
  }

  function PasswordErrors(p: string): seq<PasswordError> {
    ErrorsOf(PasswordChecksOf(p))
  }

  /** A password passes exactly when it keeps every rule. */
  predicate MeetsPolicy(p: string) {
    JsLength(p) >= MinLength && HasUppercase(p) && HasLowercase(p) && HasNumber(p) && HasSpecial(p) &&
    !IsCommonPassword(p)
  }

  lemma NoErrorsMeansPolicyMet(p: string)
    ensures |PasswordErrors(p)| == 0 <==> MeetsPolicy(p)
  {
  }

  /** Every common password fails validation with the "too common" error. */
  lemma CommonPasswordsFail(p: string)
    requires IsCommonPassword(p)
    ensures TooCommon in PasswordErrors(p) && !MeetsPolicy(p)
  {
    var errors := PasswordErrors(p);
    assert errors[|errors| - 1] == TooCommon;
  }

  /** `passwordPolicy.validate`. */
  method Validate(password: string) returns (valid: bool, errors: seq<PasswordError>)
    ensures errors == PasswordErrors(password)
    ensures valid <==> MeetsPolicy(password)
  {
    var checks := PasswordChecks(JsLength(password) >= MinLength, HasUppercase(password),
                                 HasLowercase(password), HasNumber(password), HasSpecial(password),
                                 IsCommonPassword(password));
    errors := ReportPasswordErrors(checks);
    valid := |errors| == 0;
  }

  /** The pushes of `validate`: one error for each broken rule. */
  method ReportPasswordErrors(c: PasswordChecks) returns (errors: seq<PasswordError>)
    ensures errors == ErrorsOf(c)
  {
    errors := [];
    if !c.long {
      errors := errors + [TooShort];
    }
    ghost var e1 := errors;
    assert e1 == Failing(c.long, TooShort);
    if !c.upper {
      errors := errors + [NoUppercase];
    }
    ghost var e2 := errors;
    assert e2 == e1 + Failing(c.upper, NoUppercase);
    if !c.lower {
      errors := errors + [NoLowercase];
    }
    ghost var e3 := errors;
    assert e3 == e2 + Failing(c.lower, NoLowercase);
    if !c.number {
      errors := errors + [NoNumber];
    }
    ghost var e4 := errors;
    assert e4 == e3 + Failing(c.number, NoNumber);
    if !c.special {
      errors := errors + [NoSpecialCharacter];
    }
    ghost var e5 := errors;
    assert e5 == e4 + Failing(c.special, NoSpecialCharacter);
    if c.common {
      errors := errors + [TooCommon];
    }
  }

  // ----- Strength score -----

  function Min(a: int, b: int): int {
    if a < b then a else b
  }

  /** `new Set(password).size`: a string iterates by code points, which are
      the characters here. */
  function DistinctCharacters(p: string): nat {
    |set k | 0 <= k < |p| :: p[k]|
  }

  function ClassBonus(p: string): (b: nat)
    ensures b <= 45
  {
    (if HasLowercase(p) then 10 else 0) + (if HasUppercase(p) then 10 else 0) +
    (if HasNumber(p) then 10 else 0) + (if HasSpecial(p) then 15 else 0)
  }

  /** The score `calculateStrength` computes: a length bonus of up to 40, the
      class bonuses and a variety bonus of up to 15, capped at 100. */
  function Strength(p: string): int {
    Min(Min(JsLength(p) * 4, 40) + ClassBonus(p) + Min(DistinctCharacters(p) * 2, 15), 100)
  }

  /** The score lies in [0, 100] and is 0 only for the empty password. */
  lemma StrengthBounds(p: string)
    ensures 0 <= Strength(p) <= 100
    ensures Strength(p) == 0 <==> p == []
  {
    if p != [] {
      assert JsLength(p) >= 1;
    } else {
      assert JsLength(p) == 0;
    }
  }

  /** `calculateStrength`, accumulating its score. */
  method CalculateStrength(password: string) returns (strength: int)
    ensures strength == Strength(password)
    ensures 0 <= strength <= 100 && (strength == 0 <==> password == [])
  {
    strength := 0;
    strength := strength + Min(JsLength(password) * 4, 40);
    if HasLowercase(password) {
      strength := strength + 10;
    }
    if HasUppercase(password) {
      strength := strength + 10;
    }
    if HasNumber(password) {
      strength := strength + 10;
    }
    if HasSpecial(password) {
      strength := strength + 15;
    }
    var uniqueChars := DistinctCharacters(password);
    strength := strength + Min(uniqueChars * 2, 15);
    strength := Min(strength, 100);
    StrengthBounds(password);
  }

  /** A password that meets the policy scores at least 93: the full length
      bonus, all four class bonuses, and at least four distinct characters. */
  lemma PolicyPasswordsAreStrong(p: string)
    requires MeetsPolicy(p)
    ensures Strength(p) >= 93
  {
    AtLeastFourDistinct(p);
    assert ClassBonus(p) == 45;
  }

  /** An uppercase letter, a lowercase letter, a digit and a special
      character are four different characters. */
  lemma AtLeastFourDistinct(p: string)
    requires HasUppercase(p) && HasLowercase(p) && HasNumber(p) && HasSpecial(p)
    ensures DistinctCharacters(p) >= 4
  {
    var u :| 0 <= u < |p| && 'A' <= p[u] <= 'Z';
    var l :| 0 <= l < |p| && 'a' <= p[l] <= 'z';
    var d :| 0 <= d < |p| && IsDigit(p[d]);
    var s :| 0 <= s < |p| && IsSpecial(p[s]);
    SpecialIsNotAlphanumeric(p[s]);
    var chars := set k | 0 <= k < |p| :: p[k];
    assert p[u] in chars && p[l] in chars && p[d] in chars && p[s] in chars;
    FourMembers(chars, p[u], p[l], p[d], p[s]);
  }

  lemma SpecialIsNotAlphanumeric(c: char)
    requires IsSpecial(c)
    ensures !('A' <= c <= 'Z') && !('a' <= c <= 'z') && !IsDigit(c)
  {
  }

  /** A set with four different members has at least four. */
  lemma FourMembers(chars: set<char>, a: char, b: char, c: char, d: char)
    requires a in chars && b in chars && c in chars && d in chars
    requires a != b && a != c && a != d && b != c && b != d && c != d
    ensures |chars| >= 4
  {
    var s1 := chars - {a};
    assert chars == s1 + {a};
    var s2 := s1 - {b};
    assert s1 == s2 + {b};
    var s3 := s2 - {c};
    assert s2 == s3 + {c};
    assert d in s3;
  }

  // ----- Login limiter -----

  const MaxLoginAttempts: nat := 5
  const LockoutDuration: nat := 15 * 60 * 1000

  /** The stored attempts record of one user name. */
  datatype Attempts = Attempts(count: nat, lastAttempt: Option<nat>, lockedUntil: Option<nat>)

  /** What `getAttempts` returns when nothing is stored. */
  const NoAttempts: Attempts := Attempts(0, None, None)

  /** `attempts.lockedUntil` is truthy: present and not 0. */
  predicate LockSet(a: Attempts) {
    a.lockedUntil.Some? && a.lockedUntil.value != 0
  }

  /** `getAttempts`: the stored record, or the empty one. The storage key
      `login_attempts_<username>` determines the user name, so the map is
      keyed by the name itself. */
  function Lookup(store: map<string, Attempts>, username: string): Attempts {
    if username in store then store[username] else NoAttempts
  }

  /** The record after one more failure at `now`: the count goes up by one,
      and from the fifth failure on every failure (re)starts a fifteen-minute
      lock. */
  function AfterFailure(a: Attempts, now: nat): (r: Attempts)
    ensures r.count == a.count + 1 && r.lastAttempt == Some(now)
    ensures r.count >= MaxLoginAttempts ==> r.lockedUntil == Some(now + LockoutDuration)
    ensures r.count < MaxLoginAttempts ==> r.lockedUntil == a.lockedUntil
  {
    var count := a.count + 1;
    Attempts(count, Some(now), if count >= MaxLoginAttempts then Some(now + LockoutDuration) else a.lockedUntil)
  }

  /** `Math.max(0, maxAttempts - count)`. */
  function RemainingAttempts(a: Attempts): (n: nat)
    ensures n <= MaxLoginAttempts
    ensures n == 0 <==> a.count >= MaxLoginAttempts
    ensures n > 0 ==> n == MaxLoginAttempts - a.count
  {
    if a.count >= MaxLoginAttempts then 0 else MaxLoginAttempts - a.count
  }

  /** Each failure uses up one remaining attempt, down to none. */
  lemma FailureUsesAnAttempt(a: Attempts, now: nat)
    ensures RemainingAttempts(AfterFailure(a, now)) == if RemainingAttempts(a) == 0 then 0 else RemainingAttempts(a) - 1
  {
  }

  datatype LockStatus = Locked(remainingMinutes: int) | Unlocked

  /** What `isLocked` answers: locked while the deadline is ahead, with the
      minutes left rounded up. */
  function LockStatusAt(a: Attempts, now: nat): (s: LockStatus)
    ensures s.Locked? <==> LockSet(a) && now < a.lockedUntil.value
    ensures s.Locked? ==> s.remainingMinutes >= 1
  {
    if LockSet(a) && now < a.lockedUntil.value then
      SiteScript.CeilDivBounds(a.lockedUntil.value - now, 60000);
      Locked(SiteScript.CeilDiv(a.lockedUntil.value - now, 60000))
    else Unlocked
  }

  /** What `isLocked` leaves in storage: a past deadline removes the record. */
  function AfterLockCheck(store: map<string, Attempts>, username: string, now: nat): map<string, Attempts> {
    var a := Lookup(store, username);
    if LockSet(a) && now >= a.lockedUntil.value then store - {username} else store
  }

  /** A lock started at `now` holds for fifteen minutes, and reports between
      1 and 15 minutes left. */
  lemma LockLastsFifteenMinutes(a: Attempts, now: nat, later: nat)
    requires a.count + 1 >= MaxLoginAttempts
    requires now <= later < now + LockoutDuration
    ensures LockStatusAt(AfterFailure(a, now), later).Locked?
    ensures LockStatusAt(AfterFailure(a, now), later).remainingMinutes <= 15
  {
    var d := now + LockoutDuration - later;
    SiteScript.CeilDivBounds(d, 60000);
  }

  /** Once the deadline has passed the check unlocks and forgets the record,
      so the user has all five attempts again. */
  lemma ExpiredLockIsCleared(store: map<string, Attempts>, username: string, now: nat)
    requires LockSet(Lookup(store, username)) && now >= Lookup(store, username).lockedUntil.value
    ensures LockStatusAt(Lookup(store, username), now) == Unlocked
    ensures Lookup(AfterLockCheck(store, username, now), username) == NoAttempts
    ensures RemainingAttempts(Lookup(AfterLockCheck(store, username, now), username)) == MaxLoginAttempts
  {
  }

  /** The record after a run of failures at the given times. */
  function AfterFailures(a: Attempts, times: seq<nat>): Attempts
    decreases |times|
  {
    if times == [] then a else AfterFailures(AfterFailure(a, times[0]), times[1..])
  }

  /** Failures add up, and once there have been five the lock runs fifteen
      minutes from the latest one. */
  lemma {:induction false} FailuresAddUp(a: Attempts, times: seq<nat>)
    requires times != []
    ensures AfterFailures(a, times).count == a.count + |times|
    ensures a.count + |times| >= MaxLoginAttempts ==>
      AfterFailures(a, times).lockedUntil == Some(times[|times| - 1] + LockoutDuration)
    decreases |times|
  {
    if |times| > 1 {
      FailuresAddUp(AfterFailure(a, times[0]), times[1..]);
    }
  }

  /** Every stored record has at least one failure, and a lock only after
      five. */
  predicate WellFormed(store: map<string, Attempts>) {
    forall u :: u in store ==> store[u].count >= 1 && (store[u].lockedUntil.Some? ==> store[u].count >= MaxLoginAttempts)
  }

  lemma FailureKeepsWellFormed(store: map<string, Attempts>, username: string, now: nat)
    requires WellFormed(store)
    ensures WellFormed(store[username := AfterFailure(Lookup(store, username), now)])
  {
  }

  /** `loginLimiter`, over its `localStorage` entries. `attempts` holds the
      records that read back; `unreadable` names the users whose item does
      not: `JSON.parse` throws on it, or it parses to `null`, so every method
      that reads it throws. */
  class LoginLimiter {
    var attempts: map<string, Attempts>
    var unreadable: set<string>

    constructor()
      ensures attempts == map[] && unreadable == {}
    {
      attempts := map[];
      unreadable := {};
    }

    /** `getAttempts`: the record, or `None` when reading it throws. */
    function GetAttempts(username: string): (r: Option<Attempts>)
      reads this
      ensures r == None <==> username in unreadable
      ensures r.Some? ==> r.value == Lookup(attempts, username)
    {
      if username in unreadable then None else Some(Lookup(attempts, username))
    }

    /** `recordFailedAttempt`: stores the record after one more failure and
        reports the attempts left and the lock deadline; an unreadable
        record makes it throw before anything is stored. */
    method RecordFailedAttempt(username: string, now: nat) returns (thrown: bool, remaining: nat, lockedUntil: Option<nat>)
      modifies this
      ensures thrown <==> username in old(unreadable)
      ensures thrown ==> attempts == old(attempts)
      ensures !thrown ==> attempts == old(attempts)[username := AfterFailure(Lookup(old(attempts), username), now)]
      ensures !thrown ==> remaining == RemainingAttempts(attempts[username])
      ensures !thrown ==> lockedUntil == attempts[username].lockedUntil
      ensures unreadable == old(unreadable)
    {
      var read := GetAttempts(username);
      if read == None {
        return true, 0, None;
      }
      thrown := false;
      var a := read.value;
      var count := a.count + 1;
      var until := a.lockedUntil;
      if count >= MaxLoginAttempts {
        until := Some(now + LockoutDuration);
      }
      var updated := Attempts(count, Some(now), until);
      attempts := attempts[username := updated];
      remaining := if MaxLoginAttempts - count > 0 then MaxLoginAttempts - count else 0;
      lockedUntil := until;
    }

    /** `isLocked`: reports the lock, and clears a lock whose time is up;
        `None` when reading the record throws, which changes nothing. */
    method IsLocked(username: string, now: nat) returns (status: Option<LockStatus>)
      modifies this
      ensures status == None <==> username in old(unreadable)
      ensures status == None ==> attempts == old(attempts)
      ensures status.Some? ==> status.value == LockStatusAt(Lookup(old(attempts), username), now)
      ensures status.Some? ==> attempts == AfterLockCheck(old(attempts), username, now)
      ensures unreadable == old(unreadable)
    {
      var read := GetAttempts(username);
      if read == None {
        return None;
      }
      var a := read.value;
      if LockSet(a) && now < a.lockedUntil.value {
        SiteScript.CeilDivBounds(a.lockedUntil.value - now, 60000);
        return Some(Locked(SiteScript.CeilDiv(a.lockedUntil.value - now, 60000)));
      }
      if LockSet(a) && now >= a.lockedUntil.value {
        ResetAttempts(username);
      }
      return Some(Unlocked);
    }

    /** `resetAttempts`: `removeItem` drops the item whether or not it reads
        back. */
    method ResetAttempts(username: string)
      modifies this
      ensures attempts == old(attempts) - {username}
      ensures unreadable == old(unreadable) - {username}
    {
      attempts := attempts - {username};
      unreadable := unreadable - {username};
    }

    /** `getRemainingAttempts`: always between 0 and 5, and `None` when
        reading the record throws. */
    function GetRemainingAttempts(username: string): (n: Option<nat>)
      reads this
      ensures n == None <==> username in unreadable
      ensures n.Some? ==> n.value <= MaxLoginAttempts
      ensures n.Some? ==> (n.value == MaxLoginAttempts <==> Lookup(attempts, username).count == 0)
    {
      match GetAttempts(username)
      case None => None
      case Some(a) => Some(RemainingAttempts(a))
    }
  }

  // ----- Session manager -----

  const SessionTimeout: nat := 30 * 60 * 1000

  datatype Session = Session(userId: string, userData: string, createdAt: nat, lastActivity: nat,
                             sessionId: string, csrfToken: string)

  /** The `sessionStorage` item: a session; a parsed object whose
      `lastActivity` is missing or not a number (`Untimed`, whose
      `session.lastActivity` stands for nothing); or text that `JSON.parse`
      rejects or that parses to `null`, so reading it throws. An empty item
      is falsy, so it counts as no item. */
  datatype StoredSession = SessionRecord(session: Session) | Untimed(session: Session) | Unreadable

  datatype SessionCheck = NoSession | Expired | InvalidData | Active(session: Session)

  /** What `validateSession` answers at `now`, and the item it leaves: an
      expired session is removed, an active one has its activity time moved
      to `now`. */
  function CheckSession(stored: Option<StoredSession>, now: nat): (r: (SessionCheck, Option<StoredSession>))
    ensures r.0.Active? ==> r.1 == Some(SessionRecord(r.0.session)) && r.0.session.lastActivity == now
    ensures r.0 == Expired ==> r.1 == None
    ensures r.0 == NoSession ==> stored == None && r.1 == None
    ensures r.0 == InvalidData ==> stored == r.1 == Some(Unreadable)
    ensures r.0 == Expired ==> stored.Some? && stored.value.SessionRecord?
  {
    match stored
    case None => (NoSession, None)
    case Some(Unreadable) => (InvalidData, stored)
    case Some(Untimed(s)) =>
      var touched := s.(lastActivity := now);
      (Active(touched), Some(SessionRecord(touched)))
    case Some(SessionRecord(s)) =>
      if now - s.lastActivity > SessionTimeout then (Expired, None)
      else
        var touched := s.(lastActivity := now);
        (Active(touched), Some(SessionRecord(touched)))
  }

  /** A session stays active exactly while no more than thirty minutes pass
      between two checks; each check restarts the thirty minutes. */
  lemma ActivityRestartsTheTimeout(s: Session, t1: nat, t2: nat)
    requires t1 - s.lastActivity <= SessionTimeout
    ensures var (c1, item) := CheckSession(Some(SessionRecord(s)), t1);
      c1.Active? && (CheckSession(item, t2).0.Active? <==> t2 - t1 <= SessionTimeout)
  {
  }

  /** A session without a numeric activity time is accepted whenever it is
      checked, since `now - lastActivity` is `NaN` and `NaN > timeout` is
      false; the check stores `now` as its activity time, and from then on
      it times out like any other. */
  lemma UntimedSessionIsAccepted(s: Session, t1: nat, t2: nat)
    requires t1 <= t2
    ensures var (c1, item) := CheckSession(Some(Untimed(s)), t1);
      c1.Active? && (CheckSession(item, t2).0.Active? <==> t2 - t1 <= SessionTimeout)
  {
  }

  /** After expiry the session is gone: the next check finds none. */
  lemma ExpiryIsFinal(stored: Option<StoredSession>, t1: nat, t2: nat)
    requires CheckSession(stored, t1).0 == Expired
    ensures CheckSession(CheckSession(stored, t1).1, t2).0 == NoSession
  {
  }

  /** Checking twice at the same moment gives the same answer and item. */
  lemma CheckIsIdempotent(stored: Option<StoredSession>, now: nat)
    requires CheckSession(stored, now).0.Active?
    ensures CheckSession(CheckSession(stored, now).1, now) == CheckSession(stored, now)
  {
  }

  /** `sessionManager`, over its `sessionStorage` item. */
  class SessionManager {
    var stored: Option<StoredSession>

    constructor()
      ensures stored == None
    {
      stored := None;
    }

    /** `createSession`: the identifiers are random in the source and
        parameters here. */
    method CreateSession(userId: string, userData: string, now: nat, sessionId: string, csrfToken: string)
      returns (session: Session)
      modifies this
      ensures session == Session(userId, userData, now, now, sessionId, csrfToken)
      ensures stored == Some(SessionRecord(session))
    {
      session := Session(userId, userData, now, now, sessionId, csrfToken);
      stored := Some(SessionRecord(session));
    }

    /** `validateSession`. */
    method ValidateSession(now: nat) returns (check: SessionCheck)
      modifies this
      ensures (check, stored) == CheckSession(old(stored), now)
    {
      if stored == None {
        return NoSession;
      }
      match stored.value
      case Unreadable =>
        return InvalidData;
      case Untimed(session) =>
        var touched := session.(lastActivity := now);
        stored := Some(SessionRecord(touched));
        return Active(touched);
      case SessionRecord(session) =>
        if now - session.lastActivity > SessionTimeout {
          DestroySession();
          return Expired;
        }
        var touched := session.(lastActivity := now);
        stored := Some(SessionRecord(touched));
        return Active(touched);
    }

    /** `destroySession`, also all `secureLogout` does to the state. */
    method DestroySession()
      modifies this
      ensures stored == None
    {
      stored := None;
    }
  }

  /** A new session is active for thirty minutes, the last millisecond
      included. */
  lemma NewSessionLastsThirtyMinutes(session: Session, later: nat)
    requires session.lastActivity <= later
    ensures CheckSession(Some(SessionRecord(session)), later).0.Active? <==>
      later <= session.lastActivity + SessionTimeout
  {
  }

  // ----- secureLogin -----

  /** What the backend answers to the login request (`data.success`). */
  datatype BackendReply = Accepted(userId: string, userData: string) | Rejected

  datatype LoginResult =
    | AccountLocked(remainingMinutes: int)
    | InvalidCredentials(remainingAttempts: Option<nat>)
    | LoginFailed
    | LoggedIn(session: Session)

  /** The name the request carries: `sanitizeHTML(username.trim())`. */
  function SanitizedUsername(username: string): string {
    SiteScript.EscapeText(Trim(username))
  }

  /** The new session of a successful login, with its random identifiers. */
  datatype Tokens = Tokens(sessionId: string, csrfToken: string)

  /** The steps of `secureLogin` once the lock check has passed: the password
      length guard, then the backend's answer (`None` when the request or
      its reply fails), which resets or records under the sanitised name.
      Recording a failure on an unreadable record throws, and the `catch`
      answers that the login failed. The result carries the new records and
      the new set of unreadable names. */
  function AfterLockPassed(store: map<string, Attempts>, unreadable: set<string>, name: string, password: string,
                           now: nat, reply: Option<BackendReply>, tokens: Tokens)
    : (LoginResult, map<string, Attempts>, set<string>)
  {
    if JsLength(password) < 8 then (InvalidCredentials(None), store, unreadable)
    else
      match reply
      case None => (LoginFailed, store, unreadable)
      case Some(Accepted(userId, userData)) =>
        (LoggedIn(Session(userId, userData, now, now, tokens.sessionId, tokens.csrfToken)),
         store - {name}, unreadable - {name})
      case Some(Rejected) =>
        if name in unreadable then (LoginFailed, store, unreadable)
        else
          var a := AfterFailure(Lookup(store, name), now);
          (InvalidCredentials(Some(RemainingAttempts(a))), store[name := a], unreadable)
  }

  /** `secureLogin` as written: the lock is looked up under the name as
      typed, while failures are recorded under the sanitised name. */
  function LoginAsWritten(store: map<string, Attempts>, unreadable: set<string>, username: string, password: string,
                          now: nat, reply: Option<BackendReply>, tokens: Tokens)
    : (LoginResult, map<string, Attempts>, set<string>)
  {
    if username in unreadable then (LoginFailed, store, unreadable)
    else
      var status := LockStatusAt(Lookup(store, username), now);
      var checked := AfterLockCheck(store, username, now);
      if status.Locked? then (AccountLocked(status.remainingMinutes), checked, unreadable)
      else AfterLockPassed(checked, unreadable, SanitizedUsername(username), password, now, reply, tokens)
  }

  /** `secureLogin` with the lock looked up under the sanitised name, the
      one failures are recorded under. */
  function Login(store: map<string, Attempts>, unreadable: set<string>, username: string, password: string,
                 now: nat, reply: Option<BackendReply>, tokens: Tokens)
    : (LoginResult, map<string, Attempts>, set<string>)
  {
    var name := SanitizedUsername(username);
    if name in unreadable then (LoginFailed, store, unreadable)
    else
      var status := LockStatusAt(Lookup(store, name), now);
      var checked := AfterLockCheck(store, name, now);
      if status.Locked? then (AccountLocked(status.remainingMinutes), checked, unreadable)
      else AfterLockPassed(checked, unreadable, name, password, now, reply, tokens)
  }

  /** As written, a name that sanitising changes is never locked: its own
      record is never written, so every attempt with it reaches the backend
      however many have failed. */
  lemma AsWrittenNeverLocksChangedNames(store: map<string, Attempts>, unreadable: set<string>, username: string,
                                        password: string, now: nat, reply: Option<BackendReply>, tokens: Tokens)
    requires SanitizedUsername(username) != username && username !in store
    ensures !LoginAsWritten(store, unreadable, username, password, now, reply, tokens).0.AccountLocked?
    ensures username !in LoginAsWritten(store, unreadable, username, password, now, reply, tokens).1
  {
  }

  /** A leading space is such a change: ` alice` is never locked, while the
      backend sees `alice`. */
  lemma LeadingSpaceIsSanitisedAway(name: string)
    ensures SanitizedUsername(" " + name) != " " + name
  {
    var u := " " + name;
    var t := Trim(u);
    var r := SiteScript.EscapeText(t);
    if t != [] {
      assert r[0] == SiteScript.EscapeChar(t[0])[0];
    }
  }

  /** With the lock looked up under the sanitised name, a locked account is
      refused under every spelling that sanitises to it. */
  lemma LockHoldsForEverySpelling(store: map<string, Attempts>, unreadable: set<string>, username: string,
                                  password: string, now: nat, reply: Option<BackendReply>, tokens: Tokens)
    requires SanitizedUsername(username) !in unreadable
    requires LockStatusAt(Lookup(store, SanitizedUsername(username)), now).Locked?
    ensures Login(store, unreadable, username, password, now, reply, tokens).0.AccountLocked?
    ensures Login(store, unreadable, username, password, now, reply, tokens).1 == store
    ensures Login(store, unreadable, username, password, now, reply, tokens).2 == unreadable
  {
  }

  /** An unreadable record makes the lock check throw, so every login under
      a spelling of that name fails and changes nothing, whatever the
      password and the backend. */
  lemma UnreadableRecordFailsEveryLogin(store: map<string, Attempts>, unreadable: set<string>, username: string,
                                        password: string, now: nat, reply: Option<BackendReply>, tokens: Tokens)
    requires SanitizedUsername(username) in unreadable
    ensures Login(store, unreadable, username, password, now, reply, tokens) == (LoginFailed, store, unreadable)
    ensures username in unreadable ==>
      LoginAsWritten(store, unreadable, username, password, now, reply, tokens) == (LoginFailed, store, unreadable)
  {
  }

  /** The rejected login of an unlocked account is recorded under the name
      the lock is looked up under. */
  lemma RejectionIsCountedWhereTheLockIsChecked(store: map<string, Attempts>, unreadable: set<string>,
                                                username: string, password: string, now: nat, tokens: Tokens)
    requires SanitizedUsername(username) !in unreadable
    requires !LockStatusAt(Lookup(store, SanitizedUsername(username)), now).Locked?
    requires JsLength(password) >= 8
    ensures var name := SanitizedUsername(username);
      Lookup(Login(store, unreadable, username, password, now, Some(Rejected), tokens).1, name) ==
      AfterFailure(Lookup(AfterLockCheck(store, name, now), name), now)
  {
  }

  /** For a name sanitising keeps, the two versions agree. */
  lemma VersionsAgreeOnPlainNames(store: map<string, Attempts>, unreadable: set<string>, username: string,
                                  password: string, now: nat, reply: Option<BackendReply>, tokens: Tokens)
    requires SanitizedUsername(username) == username
    ensures LoginAsWritten(store, unreadable, username, password, now, reply, tokens) ==
      Login(store, unreadable, username, password, now, reply, tokens)
  {
  }

  /** `secureLogin`, with the lock checked under the sanitised name; a
      record that does not read back makes it throw into the `catch`. */
  method SecureLogin(limiter: LoginLimiter, sessions: SessionManager, username: string, password: string,
                     now: nat, reply: Option<BackendReply>, tokens: Tokens)
    returns (result: LoginResult)
    modifies limiter, sessions
    ensures (result, limiter.attempts, limiter.unreadable) ==
      Login(old(limiter.attempts), old(limiter.unreadable), username, password, now, reply, tokens)
    ensures result.LoggedIn? ==> sessions.stored == Some(SessionRecord(result.session))
    ensures !result.LoggedIn? ==> sessions.stored == old(sessions.stored)
  {
    var name := SanitizedUsername(username);
    var status := limiter.IsLocked(name, now);
    if status == None {
      return LoginFailed;
    }
    if status.value.Locked? {
      return AccountLocked(status.value.remainingMinutes);
    }
    if JsLength(password) < 8 {
      return InvalidCredentials(None);
    }
    if reply == None {
      return LoginFailed;
    }
    match reply.value
    case Accepted(userId, userData) =>
      limiter.ResetAttempts(name);
      var session := sessions.CreateSession(userId, userData, now, tokens.sessionId, tokens.csrfToken);
      return LoggedIn(session);
    case Rejected =>
      var thrown, remaining, _ := limiter.RecordFailedAttempt(name, now);
      if thrown {
        return LoginFailed;
      }
      return InvalidCredentials(Some(remaining));
  }
}
