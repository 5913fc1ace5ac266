/**
 The per-invocation decision procedure of the GCP project billing check.

 A caller hands a session token over through the shared store and receives a
 random reference key; `Perform` later resolves that key, takes a short lease
 scoped to the token, asks the billing service which projects have billing
 enabled, counts a disabled-to-enabled transition and persists the new state.

 Process-local pieces are parameters: the SHA1 hex digest and Ruby's
 `String#hash` (seeded per process) are the two functions of `Env`, the
 billing service is a function from token to its answer, the UUID generator
 is the `freshKey` argument, and the clock is `now` in seconds.
 */
module CheckGcpProjectBillingWorker {
  import opened Wrappers
  import Decimal
  import opened Maps
  import opened SharedState
  import opened ExclusiveLease

  const LEASE_TIMEOUT: nat := 3
  const SESSION_KEY_TIMEOUT: nat := 5 * 60
  const BILLING_TIMEOUT: nat := 60 * 60

  /** The uninterpreted hashing of one worker process. */
  datatype Env = Env(digest: string -> string, hash: string -> int)

  /** Everything the worker can observe or change. */
  datatype Store = Store(db: Keyspace, leases: Leases)

  /** What the billing service answers for a token. */
  datatype ServiceResult = Projects(ids: set<string>) | Unavailable

  datatype SkipReason = NoKey | NoToken | LeaseHeld

  datatype Fault = StoreFault(error: SharedState.Error) | ServiceFault

  /** How one invocation ended: the check ran, was skipped, or raised. */
  datatype Outcome = Ran | Skipped(reason: SkipReason) | Failed(fault: Fault)

  predicate IsHexChar(c: char) {
    '0' <= c <= '9' || 'a' <= c <= 'f'
  }

  predicate IsHex(s: string) {
    forall i :: 0 <= i < |s| ==> IsHexChar(s[i])
  }

  /** A hex digest, as SHA1's `hexdigest` produces, for every input. */
  ghost predicate HexDigest(env: Env) {
    forall token :: IsHex(env.digest(token))
  }

  /** The session namespace followed by the reference key, which it keeps intact. */
  function GetRedisSessionKey(tokenKey: string): (key: string)
    ensures 19 <= |key| && key[..19] == "gitlab:gcp:session:" && key[19..] == tokenKey
  {
    "gitlab:gcp:session:" + tokenKey
  }

  /** The billing-state key: the token's digest between a fixed prefix and suffix. */
  function RedisSharedStateKeyFor(env: Env, token: string): (key: string)
    ensures 27 <= |key|
    ensures key[..11] == "gitlab:gcp:" && key[|key| - 16..] == ":billing_enabled"
    ensures key[11..|key| - 16] == env.digest(token)
  {
    "gitlab:gcp:" + env.digest(token) + ":billing_enabled"
  }

  const REDIS_BILLING_CHANGE_KEY: string := "gitlab:gcp:billing_enabled_changes"

  /**
   How the lease key is derived from the token: from the per-process
   `String#hash` as the worker does, or from the process-independent digest.
   */
  datatype LeaseKeying = ProcessHash | TokenDigest

  /** The lease name: a fixed prefix and a suffix from which the hash, or the digest, can be read back. */
  function LeaseKeyFor(keying: LeaseKeying, env: Env, token: string): (key: string)
    ensures 33 <= |key| && key[..33] == "check_gcp_project_billing_worker:"
    ensures keying == ProcessHash ==> Decimal.ParseInt(key[33..]) == Some(env.hash(token))
    ensures keying == TokenDigest ==> key[33..] == env.digest(token)
  {
    Decimal.ParseIntInvertsIntToDecimal(env.hash(token), Decimal.IntToDecimal(env.hash(token)));
    match keying
    case ProcessHash => "check_gcp_project_billing_worker:" + Decimal.IntToDecimal(env.hash(token))
    case TokenDigest => "check_gcp_project_billing_worker:" + env.digest(token)
  }

  /** How the Redis client serialises a Ruby boolean. */
  function BoolText(b: bool): string {
    if b then "true" else "false"
  }

  /**
   Stores `token` under the session key of `freshKey` for five minutes and
   returns `freshKey` as the reference key.
   */
  function StoreSessionToken(s: Store, token: string, freshKey: string, now: int): (r: (Store, string))
    ensures r.1 == freshKey
    ensures r.0.leases == s.leases
    ensures forall t :: Get(r.0.db, GetRedisSessionKey(r.1), t) == (if t < now + SESSION_KEY_TIMEOUT then Some(token) else None)
    ensures forall k :: k != GetRedisSessionKey(freshKey) ==> SameEntry(s.db, r.0.db, k)
  {
    (s.(db := SetEx(s.db, GetRedisSessionKey(freshKey), token, SESSION_KEY_TIMEOUT, now)), freshKey)
  }

  /** The token handed off under `tokenKey` while its entry lives; nil otherwise. */
  function GetSessionToken(s: Store, tokenKey: string, now: int): (r: Option<string>)
    ensures var key := GetRedisSessionKey(tokenKey);
      && (r.Some? <==> key in s.db && Live(s.db[key], now))
      && (r.Some? ==> r.value == s.db[key].value)
  {
    Get(s.db, GetRedisSessionKey(tokenKey), now)
  }

  /**
   Takes the token's lease for LEASE_TIMEOUT seconds when it is free; reports
   failure and changes nothing when it is held.
   */
  function TryObtainLeaseFor(keying: LeaseKeying, env: Env, s: Store, token: string, now: int): (r: (Leases, bool))
    ensures var lease := LeaseKeyFor(keying, env, token);
      && (r.1 <==> !Held(s.leases, lease, now))
      && (r.1 ==> r.0 == s.leases[lease := now + LEASE_TIMEOUT])
      && (!r.1 ==> r.0 == s.leases)
  {
    TryObtain(s.leases, LeaseKeyFor(keying, env, token), LEASE_TIMEOUT, now)
  }

  /** The raw previous billing state of `token`, whatever string it is, while it lives; nil otherwise. */
  function CheckPreviousState(env: Env, s: Store, token: string, now: int): (r: Option<string>)
    ensures var key := RedisSharedStateKeyFor(env, token);
      && (r.Some? <==> key in s.db && Live(s.db[key], now))
      && (r.Some? ==> r.value == s.db[key].value)
  {
    Get(s.db, RedisSharedStateKeyFor(env, token), now)
  }

  /**
   Increments the change counter when the stored previous state is exactly
   "false" and billing is now enabled; leaves the keyspace alone otherwise.
   An absent or "true" previous state never counts.
   */
  function UpdateBillingChangeCounter(db: Keyspace, previous: Option<string>, current: bool, now: int): (r: Result<Keyspace, SharedState.Error>)
    ensures !(previous == Some("false") && current) ==> r == Success(db)
    ensures previous == Some("false") && current ==>
      && (r.Success? <==> IntegerAt(db, REDIS_BILLING_CHANGE_KEY, now).Some? && IntegerAt(db, REDIS_BILLING_CHANGE_KEY, now).value < MAX_INT64)
      && (r.Success? ==> IntegerAt(r.value, REDIS_BILLING_CHANGE_KEY, now) == Some(IntegerAt(db, REDIS_BILLING_CHANGE_KEY, now).value + 1))
      && (r.Success? ==> forall k :: k != REDIS_BILLING_CHANGE_KEY ==> SameEntry(db, r.value, k))
      && (r.Success? && Get(db, REDIS_BILLING_CHANGE_KEY, now).None? ==>
            forall t :: IntegerAt(r.value, REDIS_BILLING_CHANGE_KEY, t) == Some(1))
      && (r.Success? && Get(db, REDIS_BILLING_CHANGE_KEY, now).Some? ==>
            && REDIS_BILLING_CHANGE_KEY in r.value
            && r.value[REDIS_BILLING_CHANGE_KEY].expiresAt == db[REDIS_BILLING_CHANGE_KEY].expiresAt)
  {
    if previous == Some("false") && current then Incr(db, REDIS_BILLING_CHANGE_KEY, now) else Success(db)
  }

  /**
   Whether an invocation gets past the three early exits: a reference key is
   given, a live session token stands behind it, and that token's lease is
   free.
   */
  predicate GateOpen(keying: LeaseKeying, env: Env, s: Store, tokenKey: Option<string>, now: int) {
    && tokenKey.Some?
    && GetSessionToken(s, tokenKey.value, now).Some?
    && !Held(s.leases, LeaseKeyFor(keying, env, GetSessionToken(s, tokenKey.value, now).value), now)
  }

  /**
   One invocation. Returns silently, changing nothing, when there is no
   reference key, no live session token behind it, or the token's lease is
   held. Otherwise the lease is taken for LEASE_TIMEOUT seconds, and if the
   service and the counter update succeed the new billing state is written
   for BILLING_TIMEOUT seconds.
   */
  function Perform(keying: LeaseKeying, env: Env, service: string -> ServiceResult, s: Store, tokenKey: Option<string>, now: int): (r: (Store, Outcome))
    ensures tokenKey.None? ==> r == (s, Skipped(NoKey))
    ensures tokenKey.Some? && GetSessionToken(s, tokenKey.value, now).None? ==> r == (s, Skipped(NoToken))
    ensures tokenKey.Some? && GetSessionToken(s, tokenKey.value, now).Some? ==>
      var lease := LeaseKeyFor(keying, env, GetSessionToken(s, tokenKey.value, now).value);
      && (r.1 == Skipped(LeaseHeld) <==> Held(s.leases, lease, now))
      && (Held(s.leases, lease, now) ==> r.0 == s)
      && (!Held(s.leases, lease, now) ==> r.0.leases == s.leases[lease := now + LEASE_TIMEOUT])
    ensures r.1.Skipped? <==> !GateOpen(keying, env, s, tokenKey, now)
    ensures r.1.Skipped? ==> r.0 == s
    ensures r.1.Failed? ==> r.0.db == s.db
    ensures GateOpen(keying, env, s, tokenKey, now) && service(GetSessionToken(s, tokenKey.value, now).value) == Unavailable ==>
      r.1 == Failed(ServiceFault) && r.0.db == s.db
  {
    if tokenKey.None? then (s, Skipped(NoKey))
    else
      match GetSessionToken(s, tokenKey.value, now)
      case None => (s, Skipped(NoToken))
      case Some(token) =>
        var (leases, obtained) := TryObtainLeaseFor(keying, env, s, token, now);
        if !obtained then (s, Skipped(LeaseHeld))
        else
          var locked := s.(leases := leases);
          match service(token)
          case Unavailable => (locked, Failed(ServiceFault))
          case Projects(projects) =>
            var enabled := projects != {};
            var previous := CheckPreviousState(env, locked, token, now);
            match UpdateBillingChangeCounter(locked.db, previous, enabled, now)
            case Failure(e) => (locked, Failed(StoreFault(e)))
            case Success(db) =>
              var key := RedisSharedStateKeyFor(env, token);
              (locked.(db := SetEx(db, key, BoolText(enabled), BILLING_TIMEOUT, now)), Ran)
  }
}
