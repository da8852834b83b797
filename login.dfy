/** The /login handler's use of the key-value store: a per-email failure counter with a
    15-minute window, a lockout flag checked before the password, OTP re-issue for
    unverified accounts, and the refresh-token whitelist on success. */
module LoginLockout {

  import opened Wrappers
  import opened KeyValue
  import opened Accounts
  import opened OtpRateLimit
  import opened Sessions

  /** The failure that brings the count to five locks the account. */
  const MaxLoginFailures: nat := 5
  const FailureWindowSeconds: nat := 15 * 60
  const LockoutSeconds: nat := 15 * 60

  /** The OTP flow name the login handler uses. */
  const LoginFlow := "login"

  const FailuresNs := "login_failures:"
  const BlockedNs := "login_blocked:"

  function FailuresKey(email: string): (k: string)
    ensures StartsWith(k, FailuresNs)
  {
    FailuresNs + email
  }

  function BlockedKey(email: string): (k: string)
    ensures StartsWith(k, BlockedNs)
  {
    BlockedNs + email
  }

  /** The lockout keys are apart from each other and from the OTP and session keys. */
  lemma LoginKeysApart(email: string, userId: string, token: string)
    ensures FailuresKey(email) != BlockedKey(email)
    ensures WhitelistKey(userId, token) != FailuresKey(email) && WhitelistKey(userId, token) != BlockedKey(email)
    ensures FailuresKey(email) != FlowKey(email, LoginFlow) && FailuresKey(email) != DailyKey(email)
    ensures BlockedKey(email) != FlowKey(email, LoginFlow) && BlockedKey(email) != DailyKey(email)
    ensures FailuresKey(email) != CooldownKey(email) && FailuresKey(email) != OtpKey(email)
    ensures WhitelistKey(userId, token) != FlowKey(email, LoginFlow) && WhitelistKey(userId, token) != DailyKey(email)
  {
    PrefixesExclude(WhitelistKey(userId, token), WhitelistNs, FlowNs, 0);
    PrefixesExclude(WhitelistKey(userId, token), WhitelistNs, DailyNs, 0);
    PrefixesExclude(FailuresKey(email), FailuresNs, CooldownNs, 0);
    PrefixesExclude(FailuresKey(email), FailuresNs, OtpNs, 0);
    PrefixesExclude(FailuresKey(email), FailuresNs, BlockedNs, 6);
    PrefixesExclude(WhitelistKey(userId, token), WhitelistNs, FailuresNs, 0);
    PrefixesExclude(WhitelistKey(userId, token), WhitelistNs, BlockedNs, 0);
    PrefixesExclude(FailuresKey(email), FailuresNs, FlowNs, 0);
    PrefixesExclude(FailuresKey(email), FailuresNs, DailyNs, 0);
    PrefixesExclude(BlockedKey(email), BlockedNs, FlowNs, 0);
    PrefixesExclude(BlockedKey(email), BlockedNs, DailyNs, 0);
  }

  /** The answers of /login, with their HTTP status. */
  datatype LoginOutcome =
    | MissingFields                               // 400
    | NoAccount                                   // 404
    | GoogleAccount                               // 401: the account signs in with Google
    | TooManyAttempts                             // 429: locked out
    | OtpRefused(decision: Decision)              // 429: unverified, and no new code may be sent
    | NotVerified(flowCount: int, dailyCount: int) // 403: unverified, a new code was sent
    | WrongPassword                               // 401
    | LoggedIn(userId: string)                    // 200, cookies set

  /** One login request: the body's fields, the users row found by email, bcrypt's verdict
      on the password, and the values the handler generates (the hash of a fresh code and
      the signed refresh token). */
  datatype LoginRequest = LoginRequest(email: string, password: string, user: Option<User>,
                                       passwordMatches: bool, otpHash: string, refreshToken: string)

  /** Every counter /login may increment can be incremented. */
  predicate LoginCountable(s: Snapshot, email: string)
  {
    Countable(s, FailuresKey(email)) && CountersCountable(s, email, LoginFlow)
  }

  /** A wrong password: count it, open the 15-minute window on the first failure, and lock
      the account once the count reaches five. */
  function FailureRecorded(s: Snapshot, email: string): Step<LoginOutcome>
    requires Countable(s, FailuresKey(email))
  {
    var s1 := AfterIncr(s, FailuresKey(email));
    var failures := Count(s1, FailuresKey(email));
    var s2 := if failures == 1 then AfterExpire(s1, FailuresKey(email), FailureWindowSeconds) else s1;
    if failures >= MaxLoginFailures then
      Step(TooManyAttempts, AfterSet(s2, BlockedKey(email), Str("true"), LockoutSeconds))
    else
      Step(WrongPassword, s2)
  }

  /** A correct password: clear both lockout keys, then whitelist the new refresh token. */
  function LoginSucceeded(s: Snapshot, email: string, userId: string, refreshToken: string): Step<LoginOutcome>
  {
    var s1 := AfterDel(s, {FailuresKey(email)});
    var s2 := AfterDel(s1, {BlockedKey(email)});
    Step(LoggedIn(userId), SessionIssued(s2, userId, refreshToken))
  }

  /** /login in the handler's order: fields, account, provider, lockout flag, verification,
      password. */
  function LoginAttempt(s: Snapshot, req: LoginRequest): Step<LoginOutcome>
    requires LoginCountable(s, req.email)
  {
    if req.email == "" || req.password == "" then Step(MissingFields, s)
    else if req.user.None? then Step(NoAccount, s)
    else if req.user.value.provider == GoogleProvider then Step(GoogleAccount, s)
    else if Truthy(Read(s, BlockedKey(req.email))) then Step(TooManyAttempts, s)
    else if !req.user.value.verified then
      var r := OtpRequested(s, req.email, LoginFlow, req.otpHash);
      match r.outcome
      case Denied(d) => Step(OtpRefused(d), r.after)
      case Issued(f, d) => Step(NotVerified(f, d), r.after)
    else if !req.passwordMatches then FailureRecorded(s, req.email)
    else LoginSucceeded(s, req.email, req.user.value.userId, req.refreshToken)
  }

  /** A password account whose fields are present reaches the lockout check. */
  predicate ReachesLockout(req: LoginRequest)
  {
    req.email != "" && req.password != "" && req.user.Some? && req.user.value.provider == EmailProvider
  }

  /** While the lockout flag is live, /login refuses with 429 before looking at the password,
      whether it is right or wrong, and changes nothing. */
  lemma LockedOutBeforePassword(s: Snapshot, req: LoginRequest)
    requires LoginCountable(s, req.email) && ReachesLockout(req)
    requires Truthy(Read(s, BlockedKey(req.email)))
    ensures LoginAttempt(s, req) == Step(TooManyAttempts, s)
    ensures LoginAttempt(s, req.(passwordMatches := true)) == Step(TooManyAttempts, s)
  {
  }

  /** A wrong password adds one to the failure count; the first failure opens a 900-second
      window and later ones keep its end; the failure that brings the count to five or more
      sets the lockout flag for 900 seconds and answers 429, any earlier one answers 401 and
      leaves the flag alone. No other key changes. */
  lemma FailureEffects(s: Snapshot, email: string)
    requires Countable(s, FailuresKey(email))
    ensures var r := FailureRecorded(s, email);
      && r.after.now == s.now
      && Read(r.after, FailuresKey(email)) == Some(Int(Count(s, FailuresKey(email)) + 1))
      && (Count(s, FailuresKey(email)) == 0 ==> TtlOf(r.after, FailuresKey(email)) == FailureWindowSeconds)
      && (Count(s, FailuresKey(email)) != 0 ==>
            Lookup(r.after, FailuresKey(email)).value.expiresAt == Lookup(s, FailuresKey(email)).value.expiresAt)
      && (r.outcome == TooManyAttempts <==> Count(s, FailuresKey(email)) + 1 >= MaxLoginFailures)
      && (r.outcome == WrongPassword <==> Count(s, FailuresKey(email)) + 1 < MaxLoginFailures)
      && (r.outcome == TooManyAttempts ==>
            Read(r.after, BlockedKey(email)) == Some(Str("true")) && TtlOf(r.after, BlockedKey(email)) == LockoutSeconds)
      && (r.outcome == WrongPassword ==> Lookup(r.after, BlockedKey(email)) == Lookup(s, BlockedKey(email)))
      && forall j :: j != FailuresKey(email) && j != BlockedKey(email) ==> Lookup(r.after, j) == Lookup(s, j)
  {
    var k := FailuresKey(email);
    var b := BlockedKey(email);
    PrefixesExclude(k, FailuresNs, BlockedNs, 6);
    var s1 := AfterIncr(s, k);
    var s2 := if Count(s1, k) == 1 then AfterExpire(s1, k, FailureWindowSeconds) else s1;
    assert Read(s2, k) == Some(Int(Count(s, k) + 1));
    assert forall j :: j != k ==> Lookup(s2, j) == Lookup(s, j);
    if Count(s, k) + 1 >= MaxLoginFailures {
      assert Lookup(AfterSet(s2, b, Str("true"), LockoutSeconds), k) == Lookup(s2, k);
    }
  }

  /** A successful login deletes both lockout keys and whitelists the new refresh token;
      nothing else changes. */
  lemma SuccessEffects(s: Snapshot, email: string, userId: string, refreshToken: string)
    ensures var r := LoginSucceeded(s, email, userId, refreshToken);
      && r.outcome == LoggedIn(userId)
      && Read(r.after, FailuresKey(email)).None? && Read(r.after, BlockedKey(email)).None?
      && Whitelisted(r.after, userId, refreshToken)
      && TtlOf(r.after, WhitelistKey(userId, refreshToken)) == RefreshTokenSeconds
      && forall j :: j != FailuresKey(email) && j != BlockedKey(email) && j != WhitelistKey(userId, refreshToken) ==>
            Lookup(r.after, j) == Lookup(s, j)
  {
    LoginKeysApart(email, userId, refreshToken);
  }

  /** Every /login keeps its counters countable, also once the clock has moved on. */
  lemma LoginKeepsCountable(s: Snapshot, req: LoginRequest, gap: nat)
    requires LoginCountable(s, req.email)
    ensures LoginCountable(AfterTick(LoginAttempt(s, req).after, gap), req.email)
  {
    var r := LoginAttempt(s, req);
    assert LoginCountable(r.after, req.email) by {
      LoginKeysApart(req.email, "", "");
      if ReachesLockout(req) && !Truthy(Read(s, BlockedKey(req.email))) {
        if !req.user.value.verified {
          OtpRequestBounds(s, req.email, LoginFlow, req.otpHash);
          RequestKeepsCountable(s, req.email, LoginFlow, req.otpHash, 0);
          assert AfterTick(r.after, 0) == r.after;
          assert Lookup(r.after, FailuresKey(req.email)) == Lookup(s, FailuresKey(req.email));
        } else if !req.passwordMatches {
          FailureEffects(s, req.email);
          assert Lookup(r.after, FlowKey(req.email, LoginFlow)) == Lookup(s, FlowKey(req.email, LoginFlow));
          assert Lookup(r.after, DailyKey(req.email)) == Lookup(s, DailyKey(req.email));
        } else {
          SuccessEffects(s, req.email, req.user.value.userId, req.refreshToken);
          LoginKeysApart(req.email, req.user.value.userId, req.refreshToken);
          assert Lookup(r.after, FlowKey(req.email, LoginFlow)) == Lookup(s, FlowKey(req.email, LoginFlow));
          assert Lookup(r.after, DailyKey(req.email)) == Lookup(s, DailyKey(req.email));
        }
      }
    }
    TickKeepsCountable(r.after, FailuresKey(req.email), gap);
    TickKeepsCountable(r.after, FlowKey(req.email, LoginFlow), gap);
    TickKeepsCountable(r.after, DailyKey(req.email), gap);
  }

  /** The outcomes of a run of attempts on one account, `gap` seconds apart, the i-th
      with bcrypt's verdict `verdicts[i]`. */
  function AttemptsEvery(s: Snapshot, req: LoginRequest, gap: nat, verdicts: seq<bool>): seq<LoginOutcome>
    requires LoginCountable(s, req.email)
    decreases |verdicts|
  {
    if verdicts == [] then []
    else
      var attempt := req.(passwordMatches := verdicts[0]);
      LoginKeepsCountable(s, attempt, gap);
      [LoginAttempt(s, attempt).outcome] + AttemptsEvery(AfterTick(LoginAttempt(s, attempt).after, gap), req, gap, verdicts[1..])
  }

  /** A verified password account that the lockout check lets through. */
  predicate Verified(req: LoginRequest)
  {
    ReachesLockout(req) && req.user.value.verified
  }

  /** The store after `k` wrong passwords `gap` seconds apart from instant `t0`: the count
      reads `k`, the window closes 900 seconds after the first, and there is no lockout. */
  ghost predicate FailedSoFar(s: Snapshot, email: string, t0: nat, gap: nat, k: nat)
  {
    && s.now == t0 + k * gap
    && Read(s, BlockedKey(email)).None?
    && (k == 0 ==> Read(s, FailuresKey(email)).None?)
    && (k > 0 ==> Lookup(s, FailuresKey(email)) == Some(Entry(Int(k), Some(t0 + FailureWindowSeconds))))
  }

  /** Wrong passwords up to the fifth, then the right one. */
  function WrongThenRight(n: nat): seq<bool>
  {
    if n == 0 then [true] else [false] + WrongThenRight(n - 1)
  }

  /** What attempts k+1 up to the sixth answer. */
  function LockoutFrom(k: nat): seq<LoginOutcome>
    requires k < MaxLoginFailures
    decreases MaxLoginFailures - k
  {
    if k + 1 == MaxLoginFailures then [TooManyAttempts, TooManyAttempts]
    else [WrongPassword] + LockoutFrom(k + 1)
  }

  /** One failure in a quick series: before the fifth it answers "wrong password" and the
      store is that of k+1 failures; the fifth answers "too many attempts" and leaves the
      lockout set after the gap. */
  lemma WrongInSeries(s: Snapshot, email: string, t0: nat, gap: nat, k: nat)
    requires Countable(s, FailuresKey(email))
    requires k < MaxLoginFailures && FailedSoFar(s, email, t0, gap, k)
    requires (MaxLoginFailures - 1) * gap < FailureWindowSeconds
    ensures var r := FailureRecorded(s, email);
      && (k + 1 < MaxLoginFailures ==>
            r.outcome == WrongPassword && FailedSoFar(AfterTick(r.after, gap), email, t0, gap, k + 1))
      && (k + 1 == MaxLoginFailures ==>
            r.outcome == TooManyAttempts && Truthy(Read(AfterTick(r.after, gap), BlockedKey(email))))
  {
    var f := FailuresKey(email);
    var b := BlockedKey(email);
    FailureEffects(s, email);
    var r := FailureRecorded(s, email);
    var next := AfterTick(r.after, gap);
    assert Count(s, f) == k;
    if k + 1 < MaxLoginFailures {
      assert (k + 1) * gap <= (MaxLoginFailures - 1) * gap;
      assert next.now == t0 + (k + 1) * gap;
      assert Lookup(r.after, f) == Some(Entry(Int(k + 1), Some(t0 + FailureWindowSeconds)));
      assert Lookup(next, f) == Lookup(r.after, f);
      assert Lookup(r.after, b) == Lookup(s, b);
    } else {
      assert Lookup(r.after, b) == Some(Entry(Str("true"), Some(s.now + LockoutSeconds)));
      assert Lookup(next, b) == Lookup(r.after, b);
    }
  }

  /** A verified account without a live lockout answers a wrong password by recording a
      failure. */
  lemma WrongPasswordCounts(s: Snapshot, req: LoginRequest)
    requires Verified(req) && LoginCountable(s, req.email)
    requires !Truthy(Read(s, BlockedKey(req.email)))
    ensures LoginAttempt(s, req.(passwordMatches := false)) == FailureRecorded(s, req.email)
  {
  }

  /** The first attempt of a series and the rest, made `gap` seconds later. */
  lemma AttemptsEveryFirst(s: Snapshot, req: LoginRequest, gap: nat, verdicts: seq<bool>)
    requires LoginCountable(s, req.email) && verdicts != []
    ensures var r := LoginAttempt(s, req.(passwordMatches := verdicts[0]));
      && LoginCountable(AfterTick(r.after, gap), req.email)
      && AttemptsEvery(s, req, gap, verdicts) == [r.outcome] + AttemptsEvery(AfterTick(r.after, gap), req, gap, verdicts[1..])
  {
    LoginKeepsCountable(s, req.(passwordMatches := verdicts[0]), gap);
  }

  /** Once locked, the right password alone is refused. */
  lemma LockedRightAttempt(s: Snapshot, req: LoginRequest, gap: nat)
    requires Verified(req) && LoginCountable(s, req.email)
    requires Truthy(Read(s, BlockedKey(req.email)))
    ensures AttemptsEvery(s, req, gap, [true]) == [TooManyAttempts]
  {
    LockedOutBeforePassword(s, req);
    AttemptsEveryFirst(s, req, gap, [true]);
  }

  lemma {:induction false} LockoutAfter(s: Snapshot, req: LoginRequest, t0: nat, gap: nat, k: nat)
    requires Verified(req) && LoginCountable(s, req.email)
    requires k < MaxLoginFailures && FailedSoFar(s, req.email, t0, gap, k)
    requires (MaxLoginFailures - 1) * gap < FailureWindowSeconds
    ensures AttemptsEvery(s, req, gap, WrongThenRight(MaxLoginFailures - k)) == LockoutFrom(k)
    decreases MaxLoginFailures - k
  {
    var verdicts := WrongThenRight(MaxLoginFailures - k);
    assert verdicts[0] == false && verdicts[1..] == WrongThenRight(MaxLoginFailures - k - 1);
    AttemptsEveryFirst(s, req, gap, verdicts);
    WrongPasswordCounts(s, req);
    WrongInSeries(s, req.email, t0, gap, k);
    var next := AfterTick(FailureRecorded(s, req.email).after, gap);
    if k + 1 == MaxLoginFailures {
      LockedRightAttempt(next, req, gap);
    } else {
      LockoutAfter(next, req, t0, gap, k + 1);
    }
  }

  /** Five wrong passwords, each within 900 seconds of the first, lock the account: the first
      four answer 401, the fifth 429, and a sixth attempt `gap` seconds later answers 429
      even with the right password. */
  lemma LockoutScenario(s: Snapshot, req: LoginRequest, gap: nat)
    requires Verified(req) && LoginCountable(s, req.email)
    requires Read(s, FailuresKey(req.email)).None? && Read(s, BlockedKey(req.email)).None?
    requires (MaxLoginFailures - 1) * gap < FailureWindowSeconds
    ensures AttemptsEvery(s, req, gap, [false, false, false, false, false, true])
      == [WrongPassword, WrongPassword, WrongPassword, WrongPassword, TooManyAttempts, TooManyAttempts]
  {
    assert FailedSoFar(s, req.email, s.now, gap, 0);
    LockoutAfter(s, req, s.now, gap, 0);
    LockoutFromStart();
  }

  lemma LockoutFromStart()
    ensures WrongThenRight(MaxLoginFailures) == [false, false, false, false, false, true]
    ensures LockoutFrom(0) == [WrongPassword, WrongPassword, WrongPassword, WrongPassword, TooManyAttempts, TooManyAttempts]
  {
  }

  /** Wrong passwords spaced at least 900 seconds apart never lock the account: each one
      finds the previous window closed and counts as the first failure. */
  lemma {:induction false} SlowFailuresNeverLock(s: Snapshot, req: LoginRequest, gap: nat, n: nat)
    requires Verified(req) && LoginCountable(s, req.email)
    requires Read(s, FailuresKey(req.email)).None? && Read(s, BlockedKey(req.email)).None?
    requires FailureWindowSeconds <= gap
    ensures AttemptsEvery(s, req, gap, seq(n, i => false)) == seq(n, i => WrongPassword)
    decreases n
  {
    if n > 0 {
      LoginKeysApart(req.email, "", "");
      var wrong := req.(passwordMatches := false);
      var r := LoginAttempt(s, wrong);
      WrongPasswordCounts(s, req);
      FailureEffects(s, req.email);
      LoginKeepsCountable(s, wrong, gap);
      var next := AfterTick(r.after, gap);
      assert Read(next, FailuresKey(req.email)).None?;
      assert seq(n, i => false)[1..] == seq(n - 1, i => false);
      SlowFailuresNeverLock(next, req, gap, n - 1);
      assert seq(n, i => WrongPassword) == [WrongPassword] + seq(n - 1, i => WrongPassword);
    }
  }

  /** /login on the store itself. */
  method Login(store: Store, req: LoginRequest) returns (outcome: LoginOutcome)
    requires LoginCountable(store.State(), req.email)
    modifies store
    ensures Step(outcome, store.State()) == LoginAttempt(old(store.State()), req)
  {
    if req.email == "" || req.password == "" {
      return MissingFields;
    }
    if req.user.None? {
      return NoAccount;
    }
    var user := req.user.value;
    if user.provider == GoogleProvider {
      return GoogleAccount;
    }
    var isBlocked := store.Get(BlockedKey(req.email));
    if Truthy(isBlocked) {
      return TooManyAttempts;
    }
    if !user.verified {
      var r := RequestOtp(store, req.email, LoginFlow, req.otpHash);
      match r
      case Denied(d) => return OtpRefused(d);
      case Issued(f, d) => return NotVerified(f, d);
    }
    if !req.passwordMatches {
      var failures := store.Incr(FailuresKey(req.email));
      if failures == 1 {
        var _ := store.Expire(FailuresKey(req.email), FailureWindowSeconds);
      }
      if failures >= MaxLoginFailures {
        LoginKeysApart(req.email, "", "");
        store.Set(BlockedKey(req.email), Str("true"), LockoutSeconds);
        return TooManyAttempts;
      }
      return WrongPassword;
    }
    store.Del({FailuresKey(req.email)});
    store.Del({BlockedKey(req.email)});
    IssueSession(store, user.userId, req.refreshToken);
    outcome := LoggedIn(user.userId);
  }
}
