/** Password reset: the password_reset_tokens rows written by /forgot-password, the
    read-only /validate-reset-token test, and /reset-password, which spends a row, purges
    the user's refresh tokens and clears the OTP counters of the token's email. */
module PasswordReset {

  import opened Wrappers
  import opened KeyValue
  import opened Tokens
  import opened Accounts
  import opened OtpRateLimit
  import opened Sessions

  /** A reset link stays valid for one hour. */
  const ResetTokenSeconds: nat := 60 * 60
  const MinPasswordLength: nat := 6
  /** The OTP flow name the reset handlers use. */
  const ResetFlow := "reset"

  /** One row of password_reset_tokens (its created_at and used_at columns are never read). */
  datatype ResetTokenRow = ResetTokenRow(id: string, userId: string, token: string, expiresAt: nat, used: bool)

  /** The row filter of both reset queries: this token, `expires_at > now` and not used. */
  predicate Usable(row: ResetTokenRow, token: string, now: nat)
  {
    row.token == token && now < row.expiresAt && !row.used
  }

  /** The index of the row the query returns first, taken in insertion order. */
  function FirstUsable(rows: seq<ResetTokenRow>, token: string, now: nat): (i: Option<nat>)
    ensures i.Some? ==> i.value < |rows| && Usable(rows[i.value], token, now)
    ensures i.Some? ==> forall j :: 0 <= j < i.value ==> !Usable(rows[j], token, now)
    ensures i.None? <==> forall j :: 0 <= j < |rows| ==> !Usable(rows[j], token, now)
  {
    if |rows| == 0 then None
    else if Usable(rows[0], token, now) then Some(0)
    else
      match FirstUsable(rows[1..], token, now)
      case None => None
      case Some(i) => Some(i + 1)
  }

  /** UPDATE ... SET used = 'true' WHERE id = ?: exactly the rows with that id become used,
      and no other column or row changes. */
  function MarkedUsed(rows: seq<ResetTokenRow>, id: string): (r: seq<ResetTokenRow>)
    ensures |r| == |rows|
    ensures forall i :: 0 <= i < |r| ==> r[i].(used := rows[i].used) == rows[i]
    ensures forall i :: 0 <= i < |r| ==> r[i].used == (rows[i].used || rows[i].id == id)
  {
    seq(|rows|, i requires 0 <= i < |rows| => if rows[i].id == id then rows[i].(used := true) else rows[i])
  }

  /** The password_reset_tokens table, which the handlers update in place. */
  class ResetTokenTable {
    var rows: seq<ResetTokenRow>

    constructor ()
      ensures rows == []
    {
      rows := [];
    }

    /** INSERT: the row is appended after every existing one. */
    method Insert(row: ResetTokenRow)
      modifies this
      ensures rows == old(rows) + [row]
    {
      rows := rows + [row];
    }

    method MarkUsed(id: string)
      modifies this
      ensures rows == MarkedUsed(old(rows), id)
    {
      rows := MarkedUsed(rows, id);
    }
  }

  // ---------------------------------------------------------------------------------------
  // /forgot-password

  /** The request: the email, the users row found by it, whether that row has a password,
      and the values the handler generates (the signed reset token and the row's uuid). */
  datatype ForgotRequest = ForgotRequest(email: string, user: Option<User>, hasPassword: bool,
                                         resetToken: string, rowId: string)

  datatype ForgotOutcome =
    | EmailMissing                        // 400
    | UserNotFound                        // 404
    | GoogleUser                          // 400
    | NoPassword                          // 400
    | ResetLimited(decision: Decision)    // 429
    | LinkSent                            // 200

  datatype ForgotStep = ForgotStep(outcome: ForgotOutcome, after: Snapshot, rows: seq<ResetTokenRow>)

  /** /forgot-password: the checks in order, then the row expiring an hour from now, then
      the reset flow's OTP bookkeeping. */
  function ForgotRequested(s: Snapshot, rows: seq<ResetTokenRow>, req: ForgotRequest): ForgotStep
    requires CountersCountable(s, req.email, ResetFlow)
  {
    if req.email == "" then ForgotStep(EmailMissing, s, rows)
    else if req.user.None? then ForgotStep(UserNotFound, s, rows)
    else if req.user.value.provider == GoogleProvider then ForgotStep(GoogleUser, s, rows)
    else if !req.hasPassword then ForgotStep(NoPassword, s, rows)
    else
      var d := CheckOtpRateLimit(s, req.email, ResetFlow);
      if !d.Allowed? then ForgotStep(ResetLimited(d), s, rows)
      else
        var row := ResetTokenRow(req.rowId, req.user.value.userId, req.resetToken, s.now + ResetTokenSeconds, false);
        ForgotStep(LinkSent, Recorded(s, req.email, ResetFlow), rows + [row])
  }

  /** Only a sent link changes anything: it appends one unused row for the user, expiring in
      an hour, sets the email's cooldown, adds one to the reset flow's and the daily
      counter, and leaves every other key as it was. */
  lemma ForgotEffects(s: Snapshot, rows: seq<ResetTokenRow>, req: ForgotRequest)
    requires CountersCountable(s, req.email, ResetFlow)
    ensures var r := ForgotRequested(s, rows, req);
      && (!r.outcome.LinkSent? ==> r.after == s && r.rows == rows)
      && (r.outcome.LinkSent? ==>
            && CheckOtpRateLimit(s, req.email, ResetFlow).Allowed?
            && |r.rows| == |rows| + 1 && r.rows[..|rows|] == rows
            && r.rows[|rows|] == ResetTokenRow(req.rowId, req.user.value.userId, req.resetToken, s.now + ResetTokenSeconds, false)
            && Read(r.after, CooldownKey(req.email)) == Some(Str("true"))
            && r.after == Recorded(s, req.email, ResetFlow)
            && Read(r.after, FlowKey(req.email, ResetFlow)) == Some(Int(Count(s, FlowKey(req.email, ResetFlow)) + 1))
            && Read(r.after, DailyKey(req.email)) == Some(Int(Count(s, DailyKey(req.email)) + 1))
            && forall j :: j != CooldownKey(req.email) && j != FlowKey(req.email, ResetFlow) && j != DailyKey(req.email) ==>
                 Lookup(r.after, j) == Lookup(s, j))
  {
    if ForgotRequested(s, rows, req).outcome.LinkSent? {
      RecordOtpRequestEffects(s, req.email, ResetFlow);
    }
  }

  /** A second link for the same email within the cooldown is refused, with the seconds
      still to wait: two rows for one email are at least a minute apart. */
  lemma ForgotCooldown(s: Snapshot, rows: seq<ResetTokenRow>, req: ForgotRequest, again: ForgotRequest, wait: nat)
    requires CountersCountable(s, req.email, ResetFlow)
    requires ForgotRequested(s, rows, req).outcome.LinkSent?
    requires again.email == req.email && again.user.Some? && again.user.value.provider == EmailProvider && again.hasPassword
    requires wait < CooldownSeconds
    ensures CountersCountable(AfterTick(ForgotRequested(s, rows, req).after, wait), req.email, ResetFlow)
    ensures var r := ForgotRequested(s, rows, req);
      ForgotRequested(AfterTick(r.after, wait), r.rows, again).outcome == ResetLimited(Cooldown(CooldownSeconds - wait))
  {
    var r := ForgotRequested(s, rows, req);
    RecordOtpRequestEffects(s, req.email, ResetFlow);
    TickKeepsCountable(r.after, FlowKey(req.email, ResetFlow), wait);
    TickKeepsCountable(r.after, DailyKey(req.email), wait);
    var later := AfterTick(r.after, wait);
    assert Lookup(later, CooldownKey(req.email)) == Lookup(r.after, CooldownKey(req.email));
  }

  /** /forgot-password on the store and the table. */
  method ForgotPassword(store: Store, table: ResetTokenTable, req: ForgotRequest) returns (outcome: ForgotOutcome)
    requires CountersCountable(store.State(), req.email, ResetFlow)
    modifies store, table
    ensures ForgotStep(outcome, store.State(), table.rows) == ForgotRequested(old(store.State()), old(table.rows), req)
  {
    if req.email == "" {
      return EmailMissing;
    }
    if req.user.None? {
      return UserNotFound;
    }
    if req.user.value.provider == GoogleProvider {
      return GoogleUser;
    }
    if !req.hasPassword {
      return NoPassword;
    }
    var d := CheckRateLimit(store, req.email, ResetFlow);
    if !d.Allowed? {
      return ResetLimited(d);
    }
    table.Insert(ResetTokenRow(req.rowId, req.user.value.userId, req.resetToken, store.now + ResetTokenSeconds, false));
    var _, _ := RecordOtpRequest(store, req.email, ResetFlow);
    outcome := LinkSent;
  }

  // ---------------------------------------------------------------------------------------
  // /validate-reset-token

  datatype TokenCheck = TokenMissing | BadSignature | NotFound | Valid

  /** /validate-reset-token: signature and expiry first, then the row filter. It changes
      nothing. */
  function ValidateResetToken(rows: seq<ResetTokenRow>, jwt: Jwt, token: string, now: nat): (c: TokenCheck)
    ensures c == Valid <==>
      token != "" && Verify(jwt, token, ResetSecret, now).Some? &&
      exists i :: 0 <= i < |rows| && Usable(rows[i], token, now)
  {
    if token == "" then TokenMissing
    else if Verify(jwt, token, ResetSecret, now).None? then BadSignature
    else if FirstUsable(rows, token, now).None? then NotFound
    else Valid
  }

  /** A link just sent validates for the rest of the hour, as long as its token still
      verifies. */
  lemma SentLinkValidates(s: Snapshot, rows: seq<ResetTokenRow>, req: ForgotRequest, jwt: Jwt, later: nat)
    requires CountersCountable(s, req.email, ResetFlow)
    requires ForgotRequested(s, rows, req).outcome.LinkSent?
    requires req.resetToken != "" && later < ResetTokenSeconds
    requires Verify(jwt, req.resetToken, ResetSecret, s.now + later).Some?
    ensures ValidateResetToken(ForgotRequested(s, rows, req).rows, jwt, req.resetToken, s.now + later) == Valid
  {
    ForgotEffects(s, rows, req);
    var r := ForgotRequested(s, rows, req);
    assert Usable(r.rows[|rows|], req.resetToken, s.now + later);
  }

  // ---------------------------------------------------------------------------------------
  // /reset-password

  /** The length JavaScript reports for a string: its UTF-16 code units, of which a
      character outside the Basic Multilingual Plane takes two. */
  function Utf16Length(s: string): (n: nat)
    ensures |s| <= n <= 2 * |s|
    ensures n == |s| <==> forall i :: 0 <= i < |s| ==> (s[i] as int) < 0x10000
  {
    if s == [] then 0
    else (if (s[0] as int) < 0x10000 then 1 else 2) + Utf16Length(s[1..])
  }

  datatype ResetRequest = ResetRequest(token: string, newPassword: string, confirmPassword: string)

  datatype ResetOutcome =
    | FieldsMissing                   // 400
    | PasswordsDiffer                 // 400
    | PasswordTooShort                // 400
    | InvalidToken                    // 400: jwt.verify threw
    | TokenUnusable                   // 400: no usable row
    | PasswordChanged(userId: string) // 200

  datatype ResetStep = ResetStep(outcome: ResetOutcome, after: Snapshot, rows: seq<ResetTokenRow>)

  /** The minimum is counted in code units: a password of three emoji is long enough. */
  lemma ThreeEmojiLongEnough(token: string)
    requires token != ""
    ensures var p := "\U{1F600}\U{1F600}\U{1F600}";
      |p| == 3 && Utf16Length(p) == MinPasswordLength && FieldsAccepted(ResetRequest(token, p, p))
  {
  }

  /** The body's own checks, made before the token is looked at. */
  predicate FieldsAccepted(req: ResetRequest)
  {
    req.token != "" && req.newPassword != "" && req.confirmPassword != ""
      && req.newPassword == req.confirmPassword && Utf16Length(req.newPassword) >= MinPasswordLength
  }

  /** /reset-password: the field checks, jwt.verify, the row query; then the row is spent,
      the row's user loses every refresh token and the token's email its OTP counters. */
  function ResetApplied(s: Snapshot, rows: seq<ResetTokenRow>, jwt: Jwt, req: ResetRequest): ResetStep
  {
    if req.token == "" || req.newPassword == "" || req.confirmPassword == "" then ResetStep(FieldsMissing, s, rows)
    else if req.newPassword != req.confirmPassword then ResetStep(PasswordsDiffer, s, rows)
    else if Utf16Length(req.newPassword) < MinPasswordLength then ResetStep(PasswordTooShort, s, rows)
    else
      match Verify(jwt, req.token, ResetSecret, s.now)
      case None => ResetStep(InvalidToken, s, rows)
      case Some(claims) =>
        match FirstUsable(rows, req.token, s.now)
        case None => ResetStep(TokenUnusable, s, rows)
        case Some(i) =>
          var row := rows[i];
          ResetStep(PasswordChanged(row.userId),
                    CountersReset(SessionsPurged(s, row.userId), claims.email),
                    MarkedUsed(rows, row.id))
  }

  /** Past the field checks, /reset-password succeeds exactly when /validate-reset-token
      would call the token valid at that instant. */
  lemma ResetAgreesWithValidate(s: Snapshot, rows: seq<ResetTokenRow>, jwt: Jwt, req: ResetRequest)
    requires FieldsAccepted(req)
    ensures ResetApplied(s, rows, jwt, req).outcome.PasswordChanged? <==> ValidateResetToken(rows, jwt, req.token, s.now) == Valid
  {
  }

  /** A failed reset changes nothing. A successful one spends the first usable row, which
      names the user; afterwards the user has no whitelisted refresh token, the token's
      email has no cooldown and no flow counter, and its daily counter, its stored OTP and
      every key outside those namespaces are as they were. */
  lemma ResetEffects(s: Snapshot, rows: seq<ResetTokenRow>, jwt: Jwt, req: ResetRequest)
    ensures var r := ResetApplied(s, rows, jwt, req);
      && (!r.outcome.PasswordChanged? ==> r.after == s && r.rows == rows)
      && (r.outcome.PasswordChanged? ==>
            var i := FirstUsable(rows, req.token, s.now).value;
            var email := Verify(jwt, req.token, ResetSecret, s.now).value.email;
            && r.outcome.userId == rows[i].userId
            && r.after.now == s.now
            && r.rows == MarkedUsed(rows, rows[i].id) && r.rows[i].used
            && (forall j :: StartsWith(j, SessionPrefix(r.outcome.userId)) ==> Lookup(r.after, j).None?)
            && Read(r.after, CooldownKey(email)).None?
            && (forall flow :: Read(r.after, FlowKey(email, flow)).None?)
            && Lookup(r.after, DailyKey(email)) == Lookup(s, DailyKey(email))
            && Lookup(r.after, OtpKey(email)) == Lookup(s, OtpKey(email))
            && forall j ::
                 (!StartsWith(j, SessionPrefix(r.outcome.userId)) && !StartsWith(j, FlowPrefix(email)) && j != CooldownKey(email))
                 ==> Lookup(r.after, j) == Lookup(s, j))
  {
    var r := ResetApplied(s, rows, jwt, req);
    if r.outcome.PasswordChanged? {
      var i := FirstUsable(rows, req.token, s.now).value;
      var email := Verify(jwt, req.token, ResetSecret, s.now).value.email;
      var uid := rows[i].userId;
      var purged := SessionsPurged(s, uid);
      PurgeEffects(s, uid);
      ResetOtpCountersEffects(purged, email);
      PrefixesExclude(DailyKey(email), DailyNs, WhitelistNs, 0);
      PrefixesExclude(OtpKey(email), OtpNs, WhitelistNs, 0);
      if StartsWith(DailyKey(email), SessionPrefix(uid)) {
        StartsWithTransitive(DailyKey(email), SessionPrefix(uid), WhitelistNs);
      }
      if StartsWith(OtpKey(email), SessionPrefix(uid)) {
        StartsWithTransitive(OtpKey(email), SessionPrefix(uid), WhitelistNs);
      }
      forall j | StartsWith(j, SessionPrefix(uid))
        ensures Lookup(r.after, j).None?
      {
        StartsWithTransitive(j, SessionPrefix(uid), WhitelistNs);
        PrefixesExclude(j, WhitelistNs, CooldownNs, 0);
        PrefixesExclude(j, WhitelistNs, FlowNs, 0);
      }
    }
  }

  /** Every row carrying a token has the same id: reset tokens are never issued twice. */
  predicate TokensKeyed(rows: seq<ResetTokenRow>)
  {
    forall i, j :: 0 <= i < |rows| && 0 <= j < |rows| && rows[i].token == rows[j].token ==> rows[i].id == rows[j].id
  }

  /** A reset token works once: after a successful reset, the same request, at that instant
      or later, is refused and the token no longer validates. */
  lemma ResetSingleUse(s: Snapshot, rows: seq<ResetTokenRow>, jwt: Jwt, req: ResetRequest, later: nat)
    requires TokensKeyed(rows)
    requires ResetApplied(s, rows, jwt, req).outcome.PasswordChanged?
    ensures var r := ResetApplied(s, rows, jwt, req);
      && ValidateResetToken(r.rows, jwt, req.token, s.now + later) != Valid
      && !ResetApplied(AfterTick(r.after, later), r.rows, jwt, req).outcome.PasswordChanged?
  {
    var r := ResetApplied(s, rows, jwt, req);
    ResetEffects(s, rows, jwt, req);
    var i := FirstUsable(rows, req.token, s.now).value;
    forall j | 0 <= j < |r.rows|
      ensures !Usable(r.rows[j], req.token, s.now + later)
    {
      if rows[j].token == req.token {
        assert rows[j].id == rows[i].id;
      }
    }
    ResetAgreesWithValidate(AfterTick(r.after, later), r.rows, jwt, req);
  }

  /** /reset-password on the store and the table. */
  method ResetPassword(store: Store, table: ResetTokenTable, jwt: Jwt, req: ResetRequest) returns (outcome: ResetOutcome)
    modifies store, table
    ensures ResetStep(outcome, store.State(), table.rows) == ResetApplied(old(store.State()), old(table.rows), jwt, req)
  {
    if req.token == "" || req.newPassword == "" || req.confirmPassword == "" {
      return FieldsMissing;
    }
    if req.newPassword != req.confirmPassword {
      return PasswordsDiffer;
    }
    if Utf16Length(req.newPassword) < MinPasswordLength {
      return PasswordTooShort;
    }
    var decoded := Verify(jwt, req.token, ResetSecret, store.now);
    if decoded.None? {
      return InvalidToken;
    }
    var found := FirstUsable(table.rows, req.token, store.now);
    if found.None? {
      return TokenUnusable;
    }
    var row := table.rows[found.value];
    table.MarkUsed(row.id);
    var _ := PurgeSessions(store, row.userId);
    var _ := ResetOtpCounters(store, decoded.value.email);
    outcome := PasswordChanged(row.userId);
  }
}
