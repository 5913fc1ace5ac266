/**
 Properties of the billing worker: how its derived keys relate, the session
 token round trip, and what one invocation of `Perform` does to the counter,
 the billing state and everything else in the store.
 */
module WorkerProperties {
  import opened Wrappers
  import Decimal
  import opened Maps
  import opened SharedState
  import opened ExclusiveLease
  import opened CheckGcpProjectBillingWorker

  /**
   The three key families never collide: a billing-state key is never the
   counter key, a session key is never the counter key, and a session key is
   never a billing-state key as long as the digest is hexadecimal.
   */
  lemma KeyFormatsDisjoint(env: Env, token: string, tokenKey: string)
    ensures RedisSharedStateKeyFor(env, token) != REDIS_BILLING_CHANGE_KEY
    ensures GetRedisSessionKey(tokenKey) != REDIS_BILLING_CHANGE_KEY
    ensures IsHex(env.digest(token)) ==> GetRedisSessionKey(tokenKey) != RedisSharedStateKeyFor(env, token)
  {
    var digest := env.digest(token);
    var billing := RedisSharedStateKeyFor(env, token);
    var session := GetRedisSessionKey(tokenKey);
    assert billing[|billing| - 1] == 'd';
    assert REDIS_BILLING_CHANGE_KEY[|REDIS_BILLING_CHANGE_KEY| - 1] == 's';
    assert session[11] == 's';
    assert REDIS_BILLING_CHANGE_KEY[11] == 'b';
    assert billing[11] == if |digest| > 0 then digest[0] else ':';
  }

  /** Distinct reference keys name distinct session entries. */
  lemma SessionKeyInjective(a: string, b: string)
    ensures GetRedisSessionKey(a) == GetRedisSessionKey(b) <==> a == b
  {
    if GetRedisSessionKey(a) == GetRedisSessionKey(b) {
      assert a == GetRedisSessionKey(a)[19..];
      assert b == GetRedisSessionKey(b)[19..];
    }
  }

  /** Two tokens share a billing-state key exactly when their digests agree. */
  lemma BillingKeyDeterminedByDigest(env: Env, a: string, b: string)
    ensures RedisSharedStateKeyFor(env, a) == RedisSharedStateKeyFor(env, b) <==> env.digest(a) == env.digest(b)
  {
    var ka, kb := RedisSharedStateKeyFor(env, a), RedisSharedStateKeyFor(env, b);
    if ka == kb {
      assert env.digest(a) == ka[11..|ka| - 16];
      assert env.digest(b) == kb[11..|kb| - 16];
    }
  }

  /**
   Under the worker's keying, two tokens contend for one lease exactly when
   their `String#hash` values agree; so two processes whose hashes of one
   token differ take two different leases for it.
   */
  lemma LeaseKeyDeterminedByHash(envA: Env, envB: Env, a: string, b: string)
    ensures LeaseKeyFor(ProcessHash, envA, a) == LeaseKeyFor(ProcessHash, envB, b) <==> envA.hash(a) == envB.hash(b)
  {
    var ka, kb := LeaseKeyFor(ProcessHash, envA, a), LeaseKeyFor(ProcessHash, envB, b);
    if ka == kb {
      assert Decimal.IntToDecimal(envA.hash(a)) == ka[33..];
      assert Decimal.IntToDecimal(envB.hash(b)) == kb[33..];
      Decimal.IntToDecimalInjective(envA.hash(a), envB.hash(b));
    }
  }

  /**
   Under digest keying, two tokens contend for one lease exactly when their
   digests agree, whichever processes derive the keys.
   */
  lemma LeaseKeyDeterminedByDigest(envA: Env, envB: Env, a: string, b: string)
    ensures LeaseKeyFor(TokenDigest, envA, a) == LeaseKeyFor(TokenDigest, envB, b) <==> envA.digest(a) == envB.digest(b)
  {
    var ka, kb := LeaseKeyFor(TokenDigest, envA, a), LeaseKeyFor(TokenDigest, envB, b);
    if ka == kb {
      assert envA.digest(a) == ka[33..];
      assert envB.digest(b) == kb[33..];
    }
  }

  /**
   The hand-off round trip: the stored token is readable under the returned
   reference key until SESSION_KEY_TIMEOUT has elapsed and absent afterwards,
   and no other reference key's token changes.
   */
  lemma SessionTokenRoundTrip(s: Store, token: string, freshKey: string, now: int, other: string, t: int)
    ensures var (s', key) := StoreSessionToken(s, token, freshKey, now);
      && GetSessionToken(s', key, t) == (if t < now + SESSION_KEY_TIMEOUT then Some(token) else None)
      && (other != freshKey ==> GetSessionToken(s', other, t) == GetSessionToken(s, other, t))
  {
    var (s', key) := StoreSessionToken(s, token, freshKey, now);
    if other != freshKey {
      SessionKeyInjective(other, freshKey);
      assert SameEntry(s.db, s'.db, GetRedisSessionKey(other));
    }
  }

  /**
   `Perform` never writes a session key: the hand-off stays readable for
   later invocations until it expires.
   */
  lemma PerformKeepsSessionTokens(keying: LeaseKeying, env: Env, service: string -> ServiceResult, s: Store, tokenKey: Option<string>, now: int, other: string)
    requires HexDigest(env)
    ensures SameEntry(s.db, Perform(keying, env, service, s, tokenKey, now).0.db, GetRedisSessionKey(other))
  {
    var r := Perform(keying, env, service, s, tokenKey, now);
    var key := GetRedisSessionKey(other);
    if r.1 == Ran {
      var token := GetSessionToken(s, tokenKey.value, now).value;
      KeyFormatsDisjoint(env, token, other);
      var projects := service(token).ids;
      var previous := CheckPreviousState(env, s, token, now);
      var counted := UpdateBillingChangeCounter(s.db, previous, projects != {}, now);
      assert SameEntry(s.db, counted.value, key);
      assert r.0.db == SetEx(counted.value, RedisSharedStateKeyFor(env, token), BoolText(projects != {}), BILLING_TIMEOUT, now);
    }
  }

  /**
   After the gate is passed and the service answers, the counter moves by
   exactly one when the stored previous state is the string "false" and some
   project has billing enabled; every other previous value (absent, "true",
   anything else) or an empty answer leaves the counter entry untouched. The
   only way the run can still fail is a counter that INCR refuses.
   */
  lemma PerformCountsTransitions(keying: LeaseKeying, env: Env, service: string -> ServiceResult, s: Store, tokenKey: string, token: string, projects: set<string>, now: int)
    requires GetSessionToken(s, tokenKey, now) == Some(token)
    requires !Held(s.leases, LeaseKeyFor(keying, env, token), now)
    requires service(token) == Projects(projects)
    ensures var r := Perform(keying, env, service, s, Some(tokenKey), now);
      var before := IntegerAt(s.db, REDIS_BILLING_CHANGE_KEY, now);
      var transition := Get(s.db, RedisSharedStateKeyFor(env, token), now) == Some("false") && projects != {};
      && (transition ==> (r.1 == Ran <==> before.Some? && before.value < MAX_INT64))
      && (transition && r.1 == Ran ==> IntegerAt(r.0.db, REDIS_BILLING_CHANGE_KEY, now) == Some(before.value + 1))
      && (!transition ==> r.1 == Ran && SameEntry(s.db, r.0.db, REDIS_BILLING_CHANGE_KEY))
  {
    KeyFormatsDisjoint(env, token, tokenKey);
  }

  /**
   After the gate is passed and the service answers: on success the token's
   billing-state key reads "true" when some project has billing enabled and
   "false" otherwise, for exactly BILLING_TIMEOUT seconds, and no key other
   than it and the counter changes; on failure no key changes at all.
   */
  lemma PerformPersistsBillingState(keying: LeaseKeying, env: Env, service: string -> ServiceResult, s: Store, tokenKey: string, token: string, projects: set<string>, now: int)
    requires GetSessionToken(s, tokenKey, now) == Some(token)
    requires !Held(s.leases, LeaseKeyFor(keying, env, token), now)
    requires service(token) == Projects(projects)
    ensures var r := Perform(keying, env, service, s, Some(tokenKey), now);
      var key := RedisSharedStateKeyFor(env, token);
      && (r.1 == Ran || r.1.Failed?)
      && (r.1 == Ran ==> forall t :: Get(r.0.db, key, t) == (if t < now + BILLING_TIMEOUT then Some(BoolText(projects != {})) else None))
      && (r.1 == Ran ==> forall k :: k != key && k != REDIS_BILLING_CHANGE_KEY ==> SameEntry(s.db, r.0.db, k))
      && (r.1.Failed? ==> r.0.db == s.db)
  {
  }

  /**
   No invocation lowers the counter: its entry is either untouched or an
   integer that went up by exactly one.
   */
  lemma PerformNeverDecreasesCounter(keying: LeaseKeying, env: Env, service: string -> ServiceResult, s: Store, tokenKey: Option<string>, now: int)
    ensures var r := Perform(keying, env, service, s, tokenKey, now);
      var before := IntegerAt(s.db, REDIS_BILLING_CHANGE_KEY, now);
      var after := IntegerAt(r.0.db, REDIS_BILLING_CHANGE_KEY, now);
      && (SameEntry(s.db, r.0.db, REDIS_BILLING_CHANGE_KEY) || (before.Some? && after == Some(before.value + 1)))
      && (before.Some? ==> after.Some? && before.value <= after.value)
  {
    var r := Perform(keying, env, service, s, tokenKey, now);
    if r.1 == Ran {
      var token := GetSessionToken(s, tokenKey.value, now).value;
      KeyFormatsDisjoint(env, token, tokenKey.value);
      var projects := service(token).ids;
      var previous := CheckPreviousState(env, s, token, now);
      var counted := UpdateBillingChangeCounter(s.db, previous, projects != {}, now);
      var key := RedisSharedStateKeyFor(env, token);
      assert r.0.db == SetEx(counted.value, key, BoolText(projects != {}), BILLING_TIMEOUT, now);
      assert SameEntry(counted.value, r.0.db, REDIS_BILLING_CHANGE_KEY);
      assert IntegerAt(r.0.db, REDIS_BILLING_CHANGE_KEY, now) == IntegerAt(counted.value, REDIS_BILLING_CHANGE_KEY, now);
    }
  }

  /**
   Reference key "R1" holds "tok-A", whose stored state is "false", and the
   service finds one project: the run counts one transition and stores "true".
   */
  lemma DisabledToEnabledScenario(keying: LeaseKeying, env: Env)
    requires HexDigest(env)
    ensures var s := Store(map[GetRedisSessionKey("R1") := Entry("tok-A", Some(300)),
                               RedisSharedStateKeyFor(env, "tok-A") := Entry("false", Some(3600))], map[]);
      var r := Perform(keying, env, _ => Projects({"proj-1"}), s, Some("R1"), 10);
      && r.1 == Ran
      && IntegerAt(r.0.db, REDIS_BILLING_CHANGE_KEY, 10) == Some(1)
      && Get(r.0.db, RedisSharedStateKeyFor(env, "tok-A"), 10) == Some("true")
  {
    var s := Store(map[GetRedisSessionKey("R1") := Entry("tok-A", Some(300)),
                       RedisSharedStateKeyFor(env, "tok-A") := Entry("false", Some(3600))], map[]);
    KeyFormatsDisjoint(env, "tok-A", "R1");
    assert GetSessionToken(s, "R1", 10) == Some("tok-A");
    assert IntegerAt(s.db, REDIS_BILLING_CHANGE_KEY, 10) == Some(0);
    PerformCountsTransitions(keying, env, _ => Projects({"proj-1"}), s, "R1", "tok-A", {"proj-1"}, 10);
    PerformPersistsBillingState(keying, env, _ => Projects({"proj-1"}), s, "R1", "tok-A", {"proj-1"}, 10);
  }

  /**
   Reference key "R2" holds "tok-B", which has no stored state, and the
   service finds no project: the counter stays as it was and "false" is
   stored.
   */
  lemma NoStateNoProjectsScenario(keying: LeaseKeying, env: Env, counter: Entry)
    requires HexDigest(env)
    ensures var s := Store(map[GetRedisSessionKey("R2") := Entry("tok-B", Some(300)),
                               REDIS_BILLING_CHANGE_KEY := counter], map[]);
      var r := Perform(keying, env, _ => Projects({}), s, Some("R2"), 10);
      && r.1 == Ran
      && REDIS_BILLING_CHANGE_KEY in r.0.db && r.0.db[REDIS_BILLING_CHANGE_KEY] == counter
      && Get(r.0.db, RedisSharedStateKeyFor(env, "tok-B"), 10) == Some("false")
  {
    var s := Store(map[GetRedisSessionKey("R2") := Entry("tok-B", Some(300)),
                       REDIS_BILLING_CHANGE_KEY := counter], map[]);
    KeyFormatsDisjoint(env, "tok-B", "R2");
    assert GetSessionToken(s, "R2", 10) == Some("tok-B");
    PerformCountsTransitions(keying, env, _ => Projects({}), s, "R2", "tok-B", {}, 10);
    PerformPersistsBillingState(keying, env, _ => Projects({}), s, "R2", "tok-B", {}, 10);
  }
}
