/** The ephemeral key-value store (Redis) as the authentication service uses it:
    string keys holding a string or an integer, each with an optional absolute expiry,
    read against a logical clock counted in whole seconds. */
module KeyValue {

  import opened Wrappers

  /** A stored value: INCR writes integers, SET writes strings. */
  datatype Value = Int(n: int) | Str(s: string)

  /** A stored value with its expiry instant; None means the key never expires. */
  datatype Entry = Entry(value: Value, expiresAt: Option<nat>)

  /** The whole store at one instant. */
  datatype Snapshot = Snapshot(table: map<string, Entry>, now: nat)

  predicate StartsWith(k: string, prefix: string)
  {
    |prefix| <= |k| && k[..|prefix|] == prefix
  }

  /** Keys that start with prefixes which differ at some position are different keys. */
  lemma PrefixesExclude(k: string, p: string, q: string, i: nat)
    requires i < |p| && i < |q| && p[i] != q[i]
    requires StartsWith(k, p)
    ensures !StartsWith(k, q)
  {
    assert k[..|p|][i] == k[i];
  }

  lemma StartsWithTransitive(k: string, p: string, q: string)
    requires StartsWith(k, p) && StartsWith(p, q)
    ensures StartsWith(k, q)
  {
    assert k[..|q|] == k[..|p|][..|q|];
  }

  /** The outcome of a handler step together with the store it leaves behind. */
  datatype Step<+T> = Step(outcome: T, after: Snapshot)

  /** An entry is visible while it has no expiry or its expiry lies strictly in the future:
      an entry whose expiry is at or before `now` reads as absent. */
  predicate LiveAt(e: Entry, now: nat)
  {
    e.expiresAt.None? || now < e.expiresAt.value
  }

  /** The entry a reader sees under `k`. */
  function Lookup(s: Snapshot, k: string): Option<Entry>
  {
    if k in s.table && LiveAt(s.table[k], s.now) then Some(s.table[k]) else None
  }

  /** GET: the value under `k`, or None when the key is absent or has expired. */
  function Read(s: Snapshot, k: string): (v: Option<Value>)
    ensures v.Some? <==> k in s.table && LiveAt(s.table[k], s.now)
    ensures v.Some? ==> v.value == s.table[k].value
  {
    match Lookup(s, k)
    case None => None
    case Some(e) => Some(e.value)
  }

  /** TTL: the seconds left before `k` expires; -1 for a live key without expiry and
      -2 for an absent key, as Redis answers. */
  function TtlOf(s: Snapshot, k: string): (t: int)
    ensures t == -2 <==> Lookup(s, k).None?
    ensures t == -1 <==> Lookup(s, k).Some? && Lookup(s, k).value.expiresAt.None?
    ensures t >= 1 <==> Lookup(s, k).Some? && Lookup(s, k).value.expiresAt.Some?
    ensures t >= 1 ==> s.now + t == Lookup(s, k).value.expiresAt.value
  {
    match Lookup(s, k)
    case None => -2
    case Some(e) => if e.expiresAt.None? then -1 else e.expiresAt.value - s.now
  }

  /** KEYS with a plain prefix pattern: every live key that starts with `prefix`. */
  function KeysMatching(s: Snapshot, prefix: string): (keys: set<string>)
    ensures forall k :: k in keys <==> Read(s, k).Some? && StartsWith(k, prefix)
  {
    set k | k in s.table && LiveAt(s.table[k], s.now) && StartsWith(k, prefix)
  }

  /** JavaScript truthiness of a GET reply: a missing key (null) and the empty string are
      falsy; every other reply, integers included (Redis returns them as non-empty decimal
      strings), is truthy. */
  predicate Truthy(v: Option<Value>)
  {
    v.Some? && v.value != Str("")
  }

  /** The integer a counter reads as: its value when it holds an integer, 0 otherwise.
      An absent or empty reply is falsy and the handlers substitute 0; a non-numeric string
      parses to NaN, which compares false against a positive limit exactly as 0 does. */
  function Count(s: Snapshot, k: string): int
  {
    match Read(s, k)
    case Some(Int(n)) => n
    case _ => 0
  }

  /** INCR is defined only on an absent key or one holding an integer (Redis refuses
      to increment any other value). */
  predicate Countable(s: Snapshot, k: string)
  {
    Read(s, k).None? || Read(s, k).value.Int?
  }

  /** SET k v EX ex: the key holds `v` for exactly `ex` seconds; nothing else changes. */
  function AfterSet(s: Snapshot, k: string, v: Value, ex: nat): (r: Snapshot)
    requires ex > 0
    ensures r.now == s.now
    ensures Read(r, k) == Some(v) && TtlOf(r, k) == ex
    ensures forall j :: j != k ==> Lookup(r, j) == Lookup(s, j)
  {
    Snapshot(s.table[k := Entry(v, Some(s.now + ex))], s.now)
  }

  /** INCR k: the counter goes up by one; a live key keeps its expiry, a missing one is
      created at 1 without expiry; nothing else changes. */
  function AfterIncr(s: Snapshot, k: string): (r: Snapshot)
    requires Countable(s, k)
    ensures r.now == s.now
    ensures Read(r, k) == Some(Int(Count(s, k) + 1))
    ensures Lookup(r, k).Some?
    ensures Lookup(s, k).Some? ==> Lookup(r, k).value.expiresAt == Lookup(s, k).value.expiresAt
    ensures Lookup(s, k).None? ==> Lookup(r, k).value.expiresAt.None?
    ensures forall j :: j != k ==> Lookup(r, j) == Lookup(s, j)
  {
    match Lookup(s, k)
    case None => Snapshot(s.table[k := Entry(Int(1), None)], s.now)
    case Some(e) => Snapshot(s.table[k := Entry(Int(Count(s, k) + 1), e.expiresAt)], s.now)
  }

  /** EXPIRE k secs: a live key keeps its value and now expires `secs` seconds from now;
      an absent key is left alone; nothing else changes. */
  function AfterExpire(s: Snapshot, k: string, secs: nat): (r: Snapshot)
    requires secs > 0
    ensures Lookup(s, k).None? ==> r == s
    ensures Lookup(s, k).Some? ==> Read(r, k) == Read(s, k) && TtlOf(r, k) == secs
    ensures r.now == s.now
    ensures forall j :: j != k ==> Lookup(r, j) == Lookup(s, j)
  {
    match Lookup(s, k)
    case None => s
    case Some(e) => Snapshot(s.table[k := Entry(e.value, Some(s.now + secs))], s.now)
  }

  /** DEL keys: every listed key is gone and the table loses exactly those keys. */
  function AfterDel(s: Snapshot, keys: set<string>): (r: Snapshot)
    ensures r.now == s.now
    ensures forall j :: j in keys ==> Lookup(r, j).None?
    ensures forall j :: j !in keys ==> Lookup(r, j) == Lookup(s, j)
  {
    Snapshot(s.table - keys, s.now)
  }

  /** The clock moves forward by `d` seconds; the table itself does not change. */
  function AfterTick(s: Snapshot, d: nat): (r: Snapshot)
    ensures r.now == s.now + d && r.table == s.table
    ensures forall j :: Lookup(r, j).Some? ==> Lookup(s, j) == Lookup(r, j)
  {
    Snapshot(s.table, s.now + d)
  }

  /** A key that INCR accepts still accepts it once the clock has moved on. */
  lemma TickKeepsCountable(s: Snapshot, k: string, d: nat)
    requires Countable(s, k)
    ensures Countable(AfterTick(s, d), k)
  {
  }

  /** The store itself, which the handlers update in place one command at a time. */
  class Store {
    var table: map<string, Entry>
    var now: nat

    function State(): Snapshot
      reads this
    {
      Snapshot(table, now)
    }

    constructor (start: nat)
      ensures State() == Snapshot(map[], start)
    {
      table := map[];
      now := start;
    }

    /** GET: the live entry's value, or nothing. */
    method Get(k: string) returns (v: Option<Value>)
      ensures v == Read(State(), k)
    {
      if k in table && LiveAt(table[k], now) {
        v := Some(table[k].value);
      } else {
        v := None;
      }
    }

    /** TTL: -2 for a missing or expired key, -1 for a key without expiry, otherwise the
        seconds left. */
    method Ttl(k: string) returns (t: int)
      ensures t == TtlOf(State(), k)
    {
      if k !in table || !LiveAt(table[k], now) {
        t := -2;
      } else if table[k].expiresAt.None? {
        t := -1;
      } else {
        t := table[k].expiresAt.value - now;
      }
    }

    /** KEYS prefix*: a pass over every stored key, keeping the live ones with the prefix. */
    method Keys(prefix: string) returns (keys: set<string>)
      ensures keys == KeysMatching(State(), prefix)
    {
      keys := {};
      var rest := table.Keys;
      while rest != {}
        invariant rest <= table.Keys
        invariant forall k :: k in keys <==> k in table && k !in rest && LiveAt(table[k], now) && StartsWith(k, prefix)
        decreases |rest|
      {
        var k :| k in rest;
        if LiveAt(table[k], now) && StartsWith(k, prefix) {
          keys := keys + {k};
        }
        rest := rest - {k};
      }
    }

    method Set(k: string, v: Value, ex: nat)
      requires ex > 0
      modifies this
      ensures State() == AfterSet(old(State()), k, v, ex)
    {
      table := table[k := Entry(v, Some(now + ex))];
    }

    method Incr(k: string) returns (n: int)
      requires Countable(State(), k)
      modifies this
      ensures State() == AfterIncr(old(State()), k)
      ensures n == Count(old(State()), k) + 1 == Count(State(), k)
    {
      if k in table && LiveAt(table[k], now) {
        n := table[k].value.n + 1;
        table := table[k := Entry(Int(n), table[k].expiresAt)];
      } else {
        n := 1;
        table := table[k := Entry(Int(1), None)];
      }
    }

    method Expire(k: string, secs: nat) returns (applied: bool)
      requires secs > 0
      modifies this
      ensures applied <==> Lookup(old(State()), k).Some?
      ensures State() == AfterExpire(old(State()), k, secs)
    {
      applied := k in table && LiveAt(table[k], now);
      if applied {
        table := table[k := Entry(table[k].value, Some(now + secs))];
      }
    }

    method Del(keys: set<string>)
      modifies this
      ensures State() == AfterDel(old(State()), keys)
    {
      table := table - keys;
    }

  }
}
