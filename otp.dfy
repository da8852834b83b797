/** The OTP rate limiter: a per-identity cooldown flag, a per-(identity, flow) issuance
    counter and a per-identity daily counter, all kept in the key-value store. */
module OtpRateLimit {

  import opened Wrappers
  import opened KeyValue

  // The limits of OTP_CONFIG.
  const MaxAttemptsPerFlow: nat := 5
  const MaxAttemptsPerDay: nat := 10
  const CooldownSeconds: nat := 60
  const OtpExpirySeconds: nat := 60
  const ResetWindowHours: nat := 24

  /** A flow counter lives from its first increment for the OTP validity plus a five-minute buffer. */
  const FlowCounterSeconds: nat := OtpExpirySeconds + 300
  /** A daily counter lives from its first increment for the whole reset window. */
  const DailyCounterSeconds: nat := ResetWindowHours * 60 * 60

  const FlowNs := "otp_flow:"
  const DailyNs := "otp_daily:"
  const CooldownNs := "otp_cooldown:"
  const OtpNs := "otp:"

  /** The prefix shared by every flow counter of one identity. */
  function FlowPrefix(email: string): (p: string)
    ensures StartsWith(p, FlowNs)
  {
    FlowNs + email + ":"
  }

  function FlowKey(email: string, flow: string): (k: string)
    ensures StartsWith(k, FlowPrefix(email)) && StartsWith(k, FlowNs)
  {
    var k := FlowPrefix(email) + flow;
    assert k[..|FlowPrefix(email)|] == FlowPrefix(email);
    StartsWithTransitive(k, FlowPrefix(email), FlowNs);
    k
  }

  function DailyKey(email: string): (k: string)
    ensures StartsWith(k, DailyNs)
  {
    DailyNs + email
  }

  function CooldownKey(email: string): (k: string)
    ensures StartsWith(k, CooldownNs)
  {
    CooldownNs + email
  }

  /** Where the hash of the identity's current one-time code is kept. */
  function OtpKey(email: string): (k: string)
    ensures StartsWith(k, OtpNs)
  {
    OtpNs + email
  }

  /** The four namespaces never share a key. */
  lemma NamespacesApart(k: string)
    ensures StartsWith(k, CooldownNs) ==> !StartsWith(k, FlowNs) && !StartsWith(k, DailyNs) && !StartsWith(k, OtpNs)
    ensures StartsWith(k, DailyNs) ==> !StartsWith(k, FlowNs) && !StartsWith(k, OtpNs)
    ensures StartsWith(k, OtpNs) ==> !StartsWith(k, FlowNs)
  {
    if StartsWith(k, CooldownNs) {
      PrefixesExclude(k, CooldownNs, FlowNs, 4);
      PrefixesExclude(k, CooldownNs, DailyNs, 4);
      PrefixesExclude(k, CooldownNs, OtpNs, 3);
    }
    if StartsWith(k, DailyNs) {
      PrefixesExclude(k, DailyNs, FlowNs, 4);
      PrefixesExclude(k, DailyNs, OtpNs, 3);
    }
    if StartsWith(k, OtpNs) {
      PrefixesExclude(k, OtpNs, FlowNs, 3);
    }
  }

  /** The keys one request touches are pairwise different, and only flow counters carry
      the flow prefix. */
  lemma KeysApart(email: string, flow: string)
    ensures CooldownKey(email) != FlowKey(email, flow) && CooldownKey(email) != DailyKey(email)
    ensures FlowKey(email, flow) != DailyKey(email)
    ensures OtpKey(email) != CooldownKey(email) && OtpKey(email) != FlowKey(email, flow) && OtpKey(email) != DailyKey(email)
    ensures !StartsWith(DailyKey(email), FlowPrefix(email)) && !StartsWith(CooldownKey(email), FlowPrefix(email))
    ensures !StartsWith(OtpKey(email), FlowPrefix(email))
  {
    NamespacesApart(CooldownKey(email));
    NamespacesApart(DailyKey(email));
    NamespacesApart(OtpKey(email));
    if StartsWith(DailyKey(email), FlowPrefix(email)) {
      StartsWithTransitive(DailyKey(email), FlowPrefix(email), FlowNs);
    }
    if StartsWith(CooldownKey(email), FlowPrefix(email)) {
      StartsWithTransitive(CooldownKey(email), FlowPrefix(email), FlowNs);
    }
    if StartsWith(OtpKey(email), FlowPrefix(email)) {
      StartsWithTransitive(OtpKey(email), FlowPrefix(email), FlowNs);
    }
  }

  // ---------------------------------------------------------------------------
  // checkOTPRateLimit
  // ---------------------------------------------------------------------------

  /** Why a request for a new code is refused, or that it is allowed. */
  datatype Decision = Allowed | Cooldown(retryAfter: int) | DailyLimit | FlowLimit

  predicate CoolingDown(s: Snapshot, email: string)
  {
    Truthy(Read(s, CooldownKey(email)))
  }

  predicate DailyCapReached(s: Snapshot, email: string)
  {
    Count(s, DailyKey(email)) >= MaxAttemptsPerDay
  }

  predicate FlowCapReached(s: Snapshot, email: string, flow: string)
  {
    Count(s, FlowKey(email, flow)) >= MaxAttemptsPerFlow
  }

  /** The three gates in their fixed order; the first one that refuses decides. */
  function CheckOtpRateLimit(s: Snapshot, email: string, flow: string): (d: Decision)
    ensures d.Cooldown? <==> CoolingDown(s, email)
    ensures d.Cooldown? ==> d.retryAfter == TtlOf(s, CooldownKey(email))
    ensures d.DailyLimit? <==> !CoolingDown(s, email) && DailyCapReached(s, email)
    ensures d.FlowLimit? <==> !CoolingDown(s, email) && !DailyCapReached(s, email) && FlowCapReached(s, email, flow)
    ensures d.Allowed? <==> !CoolingDown(s, email) && !DailyCapReached(s, email) && !FlowCapReached(s, email, flow)
  {
    if Truthy(Read(s, CooldownKey(email))) then
      Cooldown(TtlOf(s, CooldownKey(email)))
    else if Count(s, DailyKey(email)) >= MaxAttemptsPerDay then
      DailyLimit
    else if Count(s, FlowKey(email, flow)) >= MaxAttemptsPerFlow then
      FlowLimit
    else
      Allowed
  }

  /** The same check on the store itself: GET the cooldown flag, TTL it when it is set,
      then GET each counter and read an absent or non-integer reply as 0. */
  method CheckRateLimit(store: Store, email: string, flow: string) returns (d: Decision)
    ensures d == CheckOtpRateLimit(store.State(), email, flow)
  {
    var cooldownActive := store.Get(CooldownKey(email));
    if Truthy(cooldownActive) {
      var ttl := store.Ttl(CooldownKey(email));
      return Cooldown(ttl);
    }
    var dailyReply := store.Get(DailyKey(email));
    var dailyCount := match dailyReply case Some(Int(n)) => n case _ => 0;
    if dailyCount >= MaxAttemptsPerDay {
      return DailyLimit;
    }
    var flowReply := store.Get(FlowKey(email, flow));
    var flowCount := match flowReply case Some(Int(n)) => n case _ => 0;
    if flowCount >= MaxAttemptsPerFlow {
      return FlowLimit;
    }
    d := Allowed;
  }

  // ---------------------------------------------------------------------------
  // recordOTPRequest
  // ---------------------------------------------------------------------------

  /** Both counters a request increments can be incremented. */
  predicate CountersCountable(s: Snapshot, email: string, flow: string)
  {
    Countable(s, FlowKey(email, flow)) && Countable(s, DailyKey(email))
  }

  /** The store after recordOTPRequest, command by command. */
  function Recorded(s: Snapshot, email: string, flow: string): Snapshot
    requires CountersCountable(s, email, flow)
  {
    KeysApart(email, flow);
    var s1 := AfterSet(s, CooldownKey(email), Str("true"), CooldownSeconds);
    var s2 := AfterIncr(s1, FlowKey(email, flow));
    var s3 := if Count(s2, FlowKey(email, flow)) == 1 then AfterExpire(s2, FlowKey(email, flow), FlowCounterSeconds) else s2;
    var s4 := AfterIncr(s3, DailyKey(email));
    if Count(s4, DailyKey(email)) == 1 then AfterExpire(s4, DailyKey(email), DailyCounterSeconds) else s4
  }

  /** recordOTPRequest does exactly three things: it sets the cooldown for 60 seconds, and it
      adds one to the flow counter and one to the daily counter, giving a counter its
      lifetime only on the increment that creates it (reads 1). Every other key keeps its
      value and its expiry. */
  lemma RecordOtpRequestEffects(s: Snapshot, email: string, flow: string)
    requires CountersCountable(s, email, flow)
    ensures var r := Recorded(s, email, flow);
      && r.now == s.now
      && Read(r, CooldownKey(email)) == Some(Str("true")) && TtlOf(r, CooldownKey(email)) == CooldownSeconds
      && Read(r, FlowKey(email, flow)) == Some(Int(Count(s, FlowKey(email, flow)) + 1))
      && Read(r, DailyKey(email)) == Some(Int(Count(s, DailyKey(email)) + 1))
      && (Count(s, FlowKey(email, flow)) == 0 ==> TtlOf(r, FlowKey(email, flow)) == FlowCounterSeconds)
      && (Count(s, FlowKey(email, flow)) != 0 ==>
            Lookup(r, FlowKey(email, flow)).value.expiresAt == Lookup(s, FlowKey(email, flow)).value.expiresAt)
      && (Count(s, DailyKey(email)) == 0 ==> TtlOf(r, DailyKey(email)) == DailyCounterSeconds)
      && (Count(s, DailyKey(email)) != 0 ==>
            Lookup(r, DailyKey(email)).value.expiresAt == Lookup(s, DailyKey(email)).value.expiresAt)
      && forall j :: j != CooldownKey(email) && j != FlowKey(email, flow) && j != DailyKey(email) ==>
            Lookup(r, j) == Lookup(s, j)
  {
    KeysApart(email, flow);
  }

  /** recordOTPRequest on the store itself; it returns the counters' new values. */
  method RecordOtpRequest(store: Store, email: string, flow: string) returns (flowCount: int, dailyCount: int)
    requires CountersCountable(store.State(), email, flow)
    modifies store
    ensures store.State() == Recorded(old(store.State()), email, flow)
    ensures flowCount == Count(old(store.State()), FlowKey(email, flow)) + 1 == Count(store.State(), FlowKey(email, flow))
    ensures dailyCount == Count(old(store.State()), DailyKey(email)) + 1 == Count(store.State(), DailyKey(email))
  {
    KeysApart(email, flow);
    ghost var s := store.State();
    store.Set(CooldownKey(email), Str("true"), CooldownSeconds);
    flowCount := store.Incr(FlowKey(email, flow));
    if flowCount == 1 {
      var _ := store.Expire(FlowKey(email, flow), FlowCounterSeconds);
    }
    dailyCount := store.Incr(DailyKey(email));
    if dailyCount == 1 {
      var _ := store.Expire(DailyKey(email), DailyCounterSeconds);
    }
    RecordOtpRequestEffects(s, email, flow);
  }

  /** A request allowed by the check never pushes a counter past its limit, so the
      attempts-remaining figures the handlers report are never negative. */
  lemma AllowedRequestStaysWithinLimits(s: Snapshot, email: string, flow: string)
    requires CountersCountable(s, email, flow)
    requires CheckOtpRateLimit(s, email, flow).Allowed?
    ensures var r := Recorded(s, email, flow);
      && Count(r, FlowKey(email, flow)) <= MaxAttemptsPerFlow
      && Count(r, DailyKey(email)) <= MaxAttemptsPerDay
      && MaxAttemptsPerFlow - Count(r, FlowKey(email, flow)) >= 0
      && MaxAttemptsPerDay - Count(r, DailyKey(email)) >= 0
  {
    RecordOtpRequestEffects(s, email, flow);
  }

  /** Right after a request is recorded, every flow of the same identity is refused by the
      cooldown gate, which reports the full 60 seconds. */
  lemma CooldownFollowsRecord(s: Snapshot, email: string, flow: string, other: string)
    requires CountersCountable(s, email, flow)
    ensures CheckOtpRateLimit(Recorded(s, email, flow), email, other) == Cooldown(CooldownSeconds)
  {
    RecordOtpRequestEffects(s, email, flow);
  }

  /** Recording a request in one flow leaves the counter of every other flow alone, while
      the daily counter it shares with them goes up. */
  lemma FlowsCountApartDailyCountsAll(s: Snapshot, email: string, flow: string, other: string)
    requires CountersCountable(s, email, flow)
    requires other != flow
    ensures Lookup(Recorded(s, email, flow), FlowKey(email, other)) == Lookup(s, FlowKey(email, other))
    ensures Count(Recorded(s, email, flow), DailyKey(email)) == Count(s, DailyKey(email)) + 1
  {
    RecordOtpRequestEffects(s, email, flow);
    KeysApart(email, other);
    assert FlowKey(email, other) != FlowKey(email, flow) by {
      assert FlowKey(email, other)[|FlowPrefix(email)|..] == other;
      assert FlowKey(email, flow)[|FlowPrefix(email)|..] == flow;
    }
  }

  // ---------------------------------------------------------------------------
  // resetOTPCounters
  // ---------------------------------------------------------------------------

  /** The store after resetOTPCounters: the live flow counters found by prefix are deleted
      (only when there are any), then the cooldown flag. */
  function CountersReset(s: Snapshot, email: string): Snapshot
  {
    var keys := KeysMatching(s, FlowPrefix(email));
    var s1 := if |keys| > 0 then AfterDel(s, keys) else s;
    AfterDel(s1, {CooldownKey(email)})
  }

  /** resetOTPCounters removes every flow counter of the identity and its cooldown flag, and
      nothing else: the daily counter and the stored code in particular are untouched. */
  lemma ResetOtpCountersEffects(s: Snapshot, email: string)
    ensures var r := CountersReset(s, email);
      && r.now == s.now
      && (forall j :: StartsWith(j, FlowPrefix(email)) ==> Lookup(r, j).None?)
      && Lookup(r, CooldownKey(email)).None?
      && (forall j :: !StartsWith(j, FlowPrefix(email)) && j != CooldownKey(email) ==> Lookup(r, j) == Lookup(s, j))
      && Lookup(r, DailyKey(email)) == Lookup(s, DailyKey(email))
      && Lookup(r, OtpKey(email)) == Lookup(s, OtpKey(email))
  {
    KeysApart(email, "");
  }

  /** After a reset, a flow that had reached its limit is allowed again, unless the daily cap
      (which the reset keeps) has been reached. */
  lemma ResetReopensFlow(s: Snapshot, email: string, flow: string)
    ensures !DailyCapReached(s, email) ==> CheckOtpRateLimit(CountersReset(s, email), email, flow) == Allowed
    ensures DailyCapReached(s, email) ==> CheckOtpRateLimit(CountersReset(s, email), email, flow) == DailyLimit
  {
    ResetOtpCountersEffects(s, email);
    var r := CountersReset(s, email);
    assert Read(r, FlowKey(email, flow)).None?;
    assert Read(r, DailyKey(email)) == Read(s, DailyKey(email));
  }

  /** resetOTPCounters on the store itself. */
  method ResetOtpCounters(store: Store, email: string) returns (done: bool)
    modifies store
    ensures store.State() == CountersReset(old(store.State()), email)
    ensures done
  {
    var keys := store.Keys(FlowPrefix(email));
    if |keys| > 0 {
      store.Del(keys);
    }
    store.Del({CooldownKey(email)});
    done := true;
  }

  // ---------------------------------------------------------------------------
  // The issuing fragment of the OTP handlers: check, store the code, record
  // ---------------------------------------------------------------------------

  /** What an OTP request answers: refused by a gate (HTTP 429), or issued with the
      counters' new values. */
  datatype OtpRequest = Denied(decision: Decision) | Issued(flowCount: int, dailyCount: int)
  {
    /** The attempts-remaining figures of the response. */
    function AttemptsRemaining(): int
      requires Issued?
    {
      MaxAttemptsPerFlow - flowCount
    }

    function DailyAttemptsRemaining(): int
      requires Issued?
    {
      MaxAttemptsPerDay - dailyCount
    }
  }

  /** Check the limits; when allowed, keep the code's hash for the OTP lifetime and record
      the request. */
  function OtpRequested(s: Snapshot, email: string, flow: string, otpHash: string): Step<OtpRequest>
    requires CountersCountable(s, email, flow)
  {
    var d := CheckOtpRateLimit(s, email, flow);
    if !d.Allowed? then Step(Denied(d), s)
    else
      KeysApart(email, flow);
      var s1 := AfterSet(s, OtpKey(email), Str(otpHash), OtpExpirySeconds);
      var s2 := Recorded(s1, email, flow);
      Step(Issued(Count(s2, FlowKey(email, flow)), Count(s2, DailyKey(email))), s2)
  }

  /** An issued code always leaves non-negative attempts-remaining figures and counts at
      least one attempt more than before; a refused one changes nothing. */
  lemma OtpRequestBounds(s: Snapshot, email: string, flow: string, otpHash: string)
    requires CountersCountable(s, email, flow)
    ensures var r := OtpRequested(s, email, flow, otpHash);
      && (r.outcome.Denied? ==> r.after == s)
      && (r.outcome.Issued? ==>
            && r.outcome.flowCount == Count(s, FlowKey(email, flow)) + 1
            && r.outcome.dailyCount == Count(s, DailyKey(email)) + 1
            && r.outcome.AttemptsRemaining() >= 0
            && r.outcome.DailyAttemptsRemaining() >= 0
            && Read(r.after, OtpKey(email)) == Some(Str(otpHash))
            && TtlOf(r.after, OtpKey(email)) == OtpExpirySeconds)
      && r.after.now == s.now
      && forall j :: j != OtpKey(email) && j != CooldownKey(email) && j != FlowKey(email, flow) && j != DailyKey(email) ==>
            Lookup(r.after, j) == Lookup(s, j)
  {
    var d := CheckOtpRateLimit(s, email, flow);
    if d.Allowed? {
      KeysApart(email, flow);
      var s1 := AfterSet(s, OtpKey(email), Str(otpHash), OtpExpirySeconds);
      RecordOtpRequestEffects(s1, email, flow);
    }
  }

  /** The same fragment on the store itself. */
  method RequestOtp(store: Store, email: string, flow: string, otpHash: string) returns (r: OtpRequest)
    requires CountersCountable(store.State(), email, flow)
    modifies store
    ensures Step(r, store.State()) == OtpRequested(old(store.State()), email, flow, otpHash)
  {
    var d := CheckRateLimit(store, email, flow);
    if !d.Allowed? {
      return Denied(d);
    }
    KeysApart(email, flow);
    store.Set(OtpKey(email), Str(otpHash), OtpExpirySeconds);
    var flowCount, dailyCount := RecordOtpRequest(store, email, flow);
    r := Issued(flowCount, dailyCount);
  }

  // ---------------------------------------------------------------------------
  // Repeated requests for one identity and flow
  // ---------------------------------------------------------------------------

  /** A request, issued or refused, leaves both counters countable, however far the clock
      then moves. */
  lemma RequestKeepsCountable(s: Snapshot, email: string, flow: string, otpHash: string, gap: nat)
    requires CountersCountable(s, email, flow)
    ensures CountersCountable(AfterTick(OtpRequested(s, email, flow, otpHash).after, gap), email, flow)
  {
    OtpRequestBounds(s, email, flow, otpHash);
  }

  /** The outcomes of `n` requests for one identity and flow, the clock moving on `gap`
      seconds after each. */
  function RequestsEvery(s: Snapshot, email: string, flow: string, otpHash: string, gap: nat, n: nat): seq<OtpRequest>
    requires CountersCountable(s, email, flow)
    decreases n
  {
    if n == 0 then []
    else
      var step := OtpRequested(s, email, flow, otpHash);
      RequestKeepsCountable(s, email, flow, otpHash, gap);
      [step.outcome] + RequestsEvery(AfterTick(step.after, gap), email, flow, otpHash, gap, n - 1)
  }

  /** The store after `k` issued requests made `gap` seconds apart from instant `t0`: both
      counters read `k` and expire a fixed time after the first request; the last cooldown
      has run out. */
  ghost predicate RequestsMade(s: Snapshot, email: string, flow: string, t0: nat, gap: nat, k: nat)
  {
    && s.now == t0 + k * gap
    && Read(s, CooldownKey(email)).None?
    && (k == 0 ==> Read(s, FlowKey(email, flow)).None? && Read(s, DailyKey(email)).None?)
    && (k > 0 ==>
          && Lookup(s, FlowKey(email, flow)) == Some(Entry(Int(k), Some(t0 + FlowCounterSeconds)))
          && Lookup(s, DailyKey(email)) == Some(Entry(Int(k), Some(t0 + DailyCounterSeconds))))
  }

  /** What requests k+1 up to the sixth answer. */
  function OutcomesFrom(k: nat): seq<OtpRequest>
    requires k <= MaxAttemptsPerFlow
    decreases MaxAttemptsPerFlow - k
  {
    if k == MaxAttemptsPerFlow then [Denied(FlowLimit)] else [Issued(k + 1, k + 1)] + OutcomesFrom(k + 1)
  }

  /** Partway through the series no gate refuses. */
  lemma AllowedInSeries(s: Snapshot, email: string, flow: string, t0: nat, gap: nat, k: nat)
    requires RequestsMade(s, email, flow, t0, gap, k) && k < MaxAttemptsPerFlow
    ensures CheckOtpRateLimit(s, email, flow) == Allowed
  {
  }

  /** Recording the (k+1)-th request of the series brings both counters to k+1, and after the
      gap the store is that of k+1 requests made. */
  lemma RecordedInSeries(s: Snapshot, email: string, flow: string, t0: nat, gap: nat, k: nat)
    requires RequestsMade(s, email, flow, t0, gap, k) && k < MaxAttemptsPerFlow
    requires CountersCountable(s, email, flow)
    requires CooldownSeconds <= gap && MaxAttemptsPerFlow * gap < FlowCounterSeconds
    ensures var r := Recorded(s, email, flow);
      && Count(r, FlowKey(email, flow)) == k + 1 && Count(r, DailyKey(email)) == k + 1
      && RequestsMade(AfterTick(r, gap), email, flow, t0, gap, k + 1)
  {
    RecordOtpRequestEffects(s, email, flow);
    KeysApart(email, flow);
    var r := Recorded(s, email, flow);
    assert (k + 1) * gap <= MaxAttemptsPerFlow * gap;
    assert Read(AfterTick(r, gap), CooldownKey(email)).None?;
    if k == 0 {
      assert Lookup(r, FlowKey(email, flow)) == Some(Entry(Int(1), Some(t0 + FlowCounterSeconds)));
      assert Lookup(r, DailyKey(email)) == Some(Entry(Int(1), Some(t0 + DailyCounterSeconds)));
    }
  }

  /** One request in the series: the (k+1)-th is issued with both counts at k+1, and after
      the gap the store is that of k+1 requests made. */
  lemma IssuedInSeries(s: Snapshot, email: string, flow: string, otpHash: string, t0: nat, gap: nat, k: nat)
    requires RequestsMade(s, email, flow, t0, gap, k) && k < MaxAttemptsPerFlow
    requires CountersCountable(s, email, flow)
    requires CooldownSeconds <= gap && MaxAttemptsPerFlow * gap < FlowCounterSeconds
    ensures var step := OtpRequested(s, email, flow, otpHash);
      && step.outcome == Issued(k + 1, k + 1)
      && RequestsMade(AfterTick(step.after, gap), email, flow, t0, gap, k + 1)
  {
    AllowedInSeries(s, email, flow, t0, gap, k);
    KeysApart(email, flow);
    var s1 := AfterSet(s, OtpKey(email), Str(otpHash), OtpExpirySeconds);
    assert RequestsMade(s1, email, flow, t0, gap, k);
    RecordedInSeries(s1, email, flow, t0, gap, k);
  }

  lemma {:induction false} RequestsFrom(s: Snapshot, email: string, flow: string, otpHash: string, t0: nat, gap: nat, k: nat)
    requires RequestsMade(s, email, flow, t0, gap, k) && k <= MaxAttemptsPerFlow
    requires CountersCountable(s, email, flow)
    requires CooldownSeconds <= gap && MaxAttemptsPerFlow * gap < FlowCounterSeconds
    ensures RequestsEvery(s, email, flow, otpHash, gap, MaxAttemptsPerFlow + 1 - k) == OutcomesFrom(k)
    decreases MaxAttemptsPerFlow - k
  {
    var step := OtpRequested(s, email, flow, otpHash);
    if k == MaxAttemptsPerFlow {
      assert step.outcome == Denied(FlowLimit);
    } else {
      IssuedInSeries(s, email, flow, otpHash, t0, gap, k);
      RequestKeepsCountable(s, email, flow, otpHash, gap);
      RequestsFrom(AfterTick(step.after, gap), email, flow, otpHash, t0, gap, k + 1);
    }
  }

  /** From a store holding no cooldown and no counters for the identity, with a request every
      `gap` seconds (long enough for the cooldown to lapse, short enough for the flow counter
      to survive five gaps): requests one to five are issued with 4, 3, 2, 1 and 0 attempts
      remaining, and the sixth is refused by the flow limit. */
  lemma FlowLimitScenario(s: Snapshot, email: string, flow: string, otpHash: string, gap: nat)
    requires Read(s, CooldownKey(email)).None? && Read(s, FlowKey(email, flow)).None? && Read(s, DailyKey(email)).None?
    requires CooldownSeconds <= gap && MaxAttemptsPerFlow * gap < FlowCounterSeconds
    ensures RequestsEvery(s, email, flow, otpHash, gap, MaxAttemptsPerFlow + 1)
      == [Issued(1, 1), Issued(2, 2), Issued(3, 3), Issued(4, 4), Issued(5, 5), Denied(FlowLimit)]
  {
    assert RequestsMade(s, email, flow, s.now, gap, 0);
    RequestsFrom(s, email, flow, otpHash, s.now, gap, 0);
    OutcomesFromStart();
  }

  lemma OutcomesFromStart()
    ensures OutcomesFrom(0) == [Issued(1, 1), Issued(2, 2), Issued(3, 3), Issued(4, 4), Issued(5, 5), Denied(FlowLimit)]
  {
    assert OutcomesFrom(4) == [Issued(5, 5), Denied(FlowLimit)];
    assert OutcomesFrom(2) == [Issued(3, 3), Issued(4, 4)] + OutcomesFrom(4);
  }
}
