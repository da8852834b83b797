/** Session-token state in the key-value store: the refresh-token whitelist
    `rt:<userId>:<token>` and the access-token blacklist `bl_token:<token>`. */
module Sessions {

  import opened Wrappers
  import opened KeyValue
  import opened Tokens
  import opened Accounts

  /** Access tokens are signed for 15 minutes, refresh tokens for 7 days. */
  const AccessTokenSeconds: nat := 15 * 60
  const RefreshTokenSeconds: nat := 7 * 24 * 60 * 60

  const WhitelistNs := "rt:"
  const BlacklistNs := "bl_token:"

  /** The prefix shared by every whitelist entry of one user. */
  function SessionPrefix(userId: string): (p: string)
    ensures StartsWith(p, WhitelistNs)
  {
    WhitelistNs + userId + ":"
  }

  function WhitelistKey(userId: string, token: string): (k: string)
    ensures StartsWith(k, SessionPrefix(userId)) && StartsWith(k, WhitelistNs)
  {
    var k := SessionPrefix(userId) + token;
    assert k[..|SessionPrefix(userId)|] == SessionPrefix(userId);
    StartsWithTransitive(k, SessionPrefix(userId), WhitelistNs);
    k
  }

  function BlacklistKey(token: string): (k: string)
    ensures StartsWith(k, BlacklistNs)
  {
    BlacklistNs + token
  }

  /** No blacklist entry is ever a whitelist entry. */
  lemma ListsApart(k: string)
    ensures StartsWith(k, BlacklistNs) ==> !StartsWith(k, WhitelistNs)
  {
    if StartsWith(k, BlacklistNs) {
      PrefixesExclude(k, BlacklistNs, WhitelistNs, 0);
    }
  }

  /** The refresh token `token` of `userId` is on the whitelist. */
  predicate Whitelisted(s: Snapshot, userId: string, token: string)
  {
    Truthy(Read(s, WhitelistKey(userId, token)))
  }

  predicate Blacklisted(s: Snapshot, token: string)
  {
    Truthy(Read(s, BlacklistKey(token)))
  }

  // ---------------------------------------------------------------------------
  // Issuing a session
  // ---------------------------------------------------------------------------

  /** Every issued refresh token is whitelisted as 'valid' for the refresh-token lifetime. */
  function SessionIssued(s: Snapshot, userId: string, refreshToken: string): (r: Snapshot)
    ensures r.now == s.now
    ensures Whitelisted(r, userId, refreshToken)
    ensures TtlOf(r, WhitelistKey(userId, refreshToken)) == RefreshTokenSeconds
    ensures forall j :: j != WhitelistKey(userId, refreshToken) ==> Lookup(r, j) == Lookup(s, j)
  {
    AfterSet(s, WhitelistKey(userId, refreshToken), Str("valid"), RefreshTokenSeconds)
  }

  method IssueSession(store: Store, userId: string, refreshToken: string)
    modifies store
    ensures store.State() == SessionIssued(old(store.State()), userId, refreshToken)
  {
    store.Set(WhitelistKey(userId, refreshToken), Str("valid"), RefreshTokenSeconds);
  }

  // ---------------------------------------------------------------------------
  // /refresh-token
  // ---------------------------------------------------------------------------

  /** The answers of /refresh-token; every refusal is HTTP 401. */
  datatype RefreshOutcome = NoToken | BadToken | NotWhitelisted | UnknownUser | Refreshed(user: User)

  /** /refresh-token: a new access token is issued only for a refresh token that is present,
      verifies, is still on the whitelist and names a known user. A missing cookie is "". */
  function RefreshAccess(s: Snapshot, jwt: Jwt, refreshToken: string, users: map<string, User>): (r: RefreshOutcome)
    ensures r.Refreshed? <==>
      && refreshToken != ""
      && Verify(jwt, refreshToken, RefreshSecret, s.now).Some?
      && Whitelisted(s, Verify(jwt, refreshToken, RefreshSecret, s.now).value.userId, refreshToken)
      && Verify(jwt, refreshToken, RefreshSecret, s.now).value.userId in users
    ensures r.Refreshed? ==> r.user == users[Verify(jwt, refreshToken, RefreshSecret, s.now).value.userId]
    ensures r.NotWhitelisted? ==> Verify(jwt, refreshToken, RefreshSecret, s.now).Some?
  {
    if refreshToken == "" then NoToken
    else
      match Verify(jwt, refreshToken, RefreshSecret, s.now)
      case None => BadToken
      case Some(c) =>
        if !Truthy(Read(s, WhitelistKey(c.userId, refreshToken))) then NotWhitelisted
        else if c.userId !in users then UnknownUser
        else Refreshed(users[c.userId])
  }

  /** Issue, then refresh: while the refresh token verifies and its whitelist entry has not
      lapsed, refreshing with it succeeds. */
  lemma IssuedSessionRefreshes(s: Snapshot, jwt: Jwt, userId: string, refreshToken: string,
                               users: map<string, User>, later: nat)
    requires refreshToken != "" && userId in users && later < RefreshTokenSeconds
    requires Verify(jwt, refreshToken, RefreshSecret, s.now + later).Some?
    requires Verify(jwt, refreshToken, RefreshSecret, s.now + later).value.userId == userId
    ensures RefreshAccess(AfterTick(SessionIssued(s, userId, refreshToken), later), jwt, refreshToken, users)
            == Refreshed(users[userId])
  {
    var r := SessionIssued(s, userId, refreshToken);
    assert Lookup(r, WhitelistKey(userId, refreshToken)).value.expiresAt == Some(s.now + RefreshTokenSeconds);
  }

  // ---------------------------------------------------------------------------
  // /validate-session
  // ---------------------------------------------------------------------------

  /** The answers of /validate-session: the access token authenticated a verified user, the
      refresh token did (and a new access token is issued), or HTTP 401. */
  datatype SessionOutcome = ByAccessToken(user: User) | ByRefreshToken(user: User) | Rejected

  /** The access-token branch: the blacklist is consulted before the signature. */
  function AccessAuthenticates(s: Snapshot, jwt: Jwt, accessToken: string, users: map<string, User>): Option<User>
  {
    if accessToken == "" || Blacklisted(s, accessToken) then None
    else
      match Verify(jwt, accessToken, AccessSecret, s.now)
      case None => None
      case Some(c) => if c.userId in users && users[c.userId].verified then Some(users[c.userId]) else None
  }

  /** /validate-session: the access token when it passes, otherwise the refresh token under
      the same conditions as /refresh-token, for a verified user. */
  function ValidateSession(s: Snapshot, jwt: Jwt, accessToken: string, refreshToken: string,
                           users: map<string, User>): (r: SessionOutcome)
    ensures r.ByAccessToken? ==>
      && accessToken != "" && !Blacklisted(s, accessToken)
      && Verify(jwt, accessToken, AccessSecret, s.now).Some?
      && Verify(jwt, accessToken, AccessSecret, s.now).value.userId in users
      && r.user == users[Verify(jwt, accessToken, AccessSecret, s.now).value.userId]
      && r.user.verified
    ensures
      && accessToken != "" && !Blacklisted(s, accessToken)
      && Verify(jwt, accessToken, AccessSecret, s.now).Some?
      && Verify(jwt, accessToken, AccessSecret, s.now).value.userId in users
      && users[Verify(jwt, accessToken, AccessSecret, s.now).value.userId].verified
      ==> r == ByAccessToken(users[Verify(jwt, accessToken, AccessSecret, s.now).value.userId])
    ensures Blacklisted(s, accessToken) ==> !r.ByAccessToken?
    ensures r.ByRefreshToken? ==>
      && RefreshAccess(s, jwt, refreshToken, users) == Refreshed(r.user)
      && r.user.verified
    ensures
      && AccessAuthenticates(s, jwt, accessToken, users).None?
      && RefreshAccess(s, jwt, refreshToken, users).Refreshed?
      && RefreshAccess(s, jwt, refreshToken, users).user.verified
      ==> r == ByRefreshToken(RefreshAccess(s, jwt, refreshToken, users).user)
    ensures r.Rejected? ==>
      AccessAuthenticates(s, jwt, accessToken, users).None? &&
      (!RefreshAccess(s, jwt, refreshToken, users).Refreshed? || !RefreshAccess(s, jwt, refreshToken, users).user.verified)
  {
    match AccessAuthenticates(s, jwt, accessToken, users)
    case Some(u) => ByAccessToken(u)
    case None =>
      if refreshToken == "" then Rejected
      else
        match Verify(jwt, refreshToken, RefreshSecret, s.now)
        case None => Rejected
        case Some(c) =>
          if !Truthy(Read(s, WhitelistKey(c.userId, refreshToken))) then Rejected
          else if c.userId !in users || !users[c.userId].verified then Rejected
          else ByRefreshToken(users[c.userId])
  }

  // ---------------------------------------------------------------------------
  // /logout
  // ---------------------------------------------------------------------------

  /** The store after /logout: the presented refresh token's whitelist entry is deleted when
      the token verifies; the presented access token is blacklisted for exactly the seconds
      its (unverified) payload says it has left, when that is positive. */
  function LoggedOut(s: Snapshot, jwt: Jwt, refreshToken: string, accessToken: string): Snapshot
  {
    var s1 :=
      if refreshToken != "" && Verify(jwt, refreshToken, RefreshSecret, s.now).Some? then
        AfterDel(s, {WhitelistKey(Verify(jwt, refreshToken, RefreshSecret, s.now).value.userId, refreshToken)})
      else s;
    if accessToken != "" && jwt.decode(accessToken).Some? && jwt.decode(accessToken).value.exp - s.now > 0 then
      AfterSet(s1, BlacklistKey(accessToken), Str("true"), (jwt.decode(accessToken).value.exp - s.now) as nat)
    else s1
  }

  /** Logout touches at most two keys. A blacklist entry expires exactly when the token it
      revokes would have expired, so the blacklist shortens a token's life and never
      extends it. */
  lemma LogoutEffects(s: Snapshot, jwt: Jwt, refreshToken: string, accessToken: string)
    ensures var r := LoggedOut(s, jwt, refreshToken, accessToken);
      && r.now == s.now
      && (refreshToken != "" && Verify(jwt, refreshToken, RefreshSecret, s.now).Some? ==>
            Lookup(r, WhitelistKey(Verify(jwt, refreshToken, RefreshSecret, s.now).value.userId, refreshToken)).None?)
      && (accessToken != "" && jwt.decode(accessToken).Some? && s.now < jwt.decode(accessToken).value.exp ==>
            Lookup(r, BlacklistKey(accessToken)) == Some(Entry(Str("true"), Some(jwt.decode(accessToken).value.exp as nat))))
      && (accessToken == "" || jwt.decode(accessToken).None? || jwt.decode(accessToken).value.exp <= s.now ==>
            Lookup(r, BlacklistKey(accessToken)) == Lookup(s, BlacklistKey(accessToken)))
      && forall j :: StartsWith(j, BlacklistNs) && j != BlacklistKey(accessToken) ==> Lookup(r, j) == Lookup(s, j)
    ensures var r := LoggedOut(s, jwt, refreshToken, accessToken);
      && (refreshToken != "" && Verify(jwt, refreshToken, RefreshSecret, s.now).Some? ==>
            forall j :: j != BlacklistKey(accessToken)
                     && j != WhitelistKey(Verify(jwt, refreshToken, RefreshSecret, s.now).value.userId, refreshToken)
                     ==> Lookup(r, j) == Lookup(s, j))
      && (refreshToken == "" || Verify(jwt, refreshToken, RefreshSecret, s.now).None? ==>
            forall j :: j != BlacklistKey(accessToken) ==> Lookup(r, j) == Lookup(s, j))
  {
    forall j | StartsWith(j, BlacklistNs)
      ensures !StartsWith(j, WhitelistNs)
    {
      ListsApart(j);
    }
    ListsApart(BlacklistKey(accessToken));
  }

  /** After logout, the presented refresh token never refreshes again, however much later. */
  lemma LogoutEndsRefresh(s: Snapshot, jwt: Jwt, refreshToken: string, accessToken: string,
                          users: map<string, User>, later: nat)
    ensures !RefreshAccess(AfterTick(LoggedOut(s, jwt, refreshToken, accessToken), later), jwt, refreshToken, users).Refreshed?
  {
    var r := AfterTick(LoggedOut(s, jwt, refreshToken, accessToken), later);
    if refreshToken != "" && Verify(jwt, refreshToken, RefreshSecret, r.now).Some? {
      VerifiedEarlier(jwt, refreshToken, RefreshSecret, s.now, r.now);
      LogoutEffects(s, jwt, refreshToken, accessToken);
      ListsApart(BlacklistKey(accessToken));
      var c := Verify(jwt, refreshToken, RefreshSecret, s.now).value;
      assert Lookup(r, WhitelistKey(c.userId, refreshToken)).None?;
    }
  }

  /** After logout, the presented access token never authenticates /validate-session again:
      until its expiry it is blacklisted, and afterwards it no longer verifies. */
  lemma LogoutEndsAccess(s: Snapshot, jwt: Jwt, refreshToken: string, accessToken: string,
                         otherRefresh: string, users: map<string, User>, later: nat)
    ensures !ValidateSession(AfterTick(LoggedOut(s, jwt, refreshToken, accessToken), later), jwt, accessToken, otherRefresh, users).ByAccessToken?
  {
    var r := AfterTick(LoggedOut(s, jwt, refreshToken, accessToken), later);
    if accessToken != "" && Verify(jwt, accessToken, AccessSecret, r.now).Some? {
      LogoutEffects(s, jwt, refreshToken, accessToken);
      assert Lookup(r, BlacklistKey(accessToken)) == Some(Entry(Str("true"), Some(jwt.decode(accessToken).value.exp as nat)));
      assert Blacklisted(r, accessToken);
    }
  }

  /** /logout on the store itself. */
  method Logout(store: Store, jwt: Jwt, refreshToken: string, accessToken: string)
    modifies store
    ensures store.State() == LoggedOut(old(store.State()), jwt, refreshToken, accessToken)
  {
    if refreshToken != "" {
      var decoded := Verify(jwt, refreshToken, RefreshSecret, store.now);
      if decoded.Some? {
        store.Del({WhitelistKey(decoded.value.userId, refreshToken)});
      }
    }
    if accessToken != "" {
      var decoded := jwt.decode(accessToken);
      if decoded.Some? {
        var timeLeft := decoded.value.exp - store.now;
        if timeLeft > 0 {
          store.Set(BlacklistKey(accessToken), Str("true"), timeLeft as nat);
        }
      }
    }
  }

  // ---------------------------------------------------------------------------
  // Revoking every session of a user (password reset)
  // ---------------------------------------------------------------------------

  /** The store after the password-reset purge: every live whitelist entry of the user, found
      by prefix, is deleted when there are any. */
  function SessionsPurged(s: Snapshot, userId: string): Snapshot
  {
    var keys := KeysMatching(s, SessionPrefix(userId));
    if |keys| > 0 then AfterDel(s, keys) else s
  }

  /** The purge removes every whitelist entry of the user and nothing else. */
  lemma PurgeEffects(s: Snapshot, userId: string)
    ensures var r := SessionsPurged(s, userId);
      && r.now == s.now
      && (forall j :: StartsWith(j, SessionPrefix(userId)) ==> Lookup(r, j).None?)
      && (forall j :: !StartsWith(j, SessionPrefix(userId)) ==> Lookup(r, j) == Lookup(s, j))
  {
  }

  /** After the purge, no refresh token of the user refreshes again, however much later. */
  lemma PurgeEndsRefresh(s: Snapshot, jwt: Jwt, userId: string, refreshToken: string,
                         users: map<string, User>, later: nat)
    requires jwt.decode(refreshToken).Some? && jwt.decode(refreshToken).value.userId == userId
    ensures !RefreshAccess(AfterTick(SessionsPurged(s, userId), later), jwt, refreshToken, users).Refreshed?
  {
    PurgeEffects(s, userId);
    assert Lookup(SessionsPurged(s, userId), WhitelistKey(userId, refreshToken)).None?;
  }

  /** The purge on the store itself: the matching keys are collected one by one, as the scan
      yields them, and then deleted together. Returns the collected keys. */
  method PurgeSessions(store: Store, userId: string) returns (purged: seq<string>)
    modifies store
    ensures store.State() == SessionsPurged(old(store.State()), userId)
    ensures (set k | k in purged) == KeysMatching(old(store.State()), SessionPrefix(userId))
  {
    var matching := store.Keys(SessionPrefix(userId));
    var pending := matching;
    purged := [];
    while pending != {}
      invariant pending <= matching
      invariant (set k | k in purged) + pending == matching
      invariant |purged| + |pending| == |matching|
      invariant forall k :: k in purged ==> k !in pending
      decreases |pending|
    {
      var k :| k in pending;
      purged := purged + [k];
      pending := pending - {k};
    }
    if |purged| > 0 {
      store.Del(set k | k in purged);
    }
  }
}
