/**
 Runs of several invocations against one store, one after the other, and
 the guarantee the lease gives them: within one lease window at most one
 invocation whose token maps to a given lease gets past the gate, whichever
 reference key and process it runs under.
 */
module Invocations {
  import opened Wrappers
  import opened SharedState
  import opened ExclusiveLease
  import opened CheckGcpProjectBillingWorker
  import WorkerProperties

  /**
   One scheduled job: the process that runs it, its argument, its start time,
   and the service it sees.
   */
  datatype Invocation = Invocation(env: Env, tokenKey: Option<string>, now: int, service: string -> ServiceResult)

  /** The run got past the lease gate (whether or not it then finished). */
  predicate PassedGate(o: Outcome) {
    o.Ran? || o.Failed?
  }

  /** Performs the invocations in order, threading the store through. */
  function RunAll(keying: LeaseKeying, s: Store, calls: seq<Invocation>): (r: (Store, seq<Outcome>))
    ensures |r.1| == |calls|
    decreases |calls|
  {
    if |calls| == 0 then (s, [])
    else
      var c := calls[0];
      var (s1, o) := Perform(keying, c.env, c.service, s, c.tokenKey, c.now);
      var (s2, os) := RunAll(keying, s1, calls[1..]);
      (s2, [o] + os)
  }

  function CountPassed(os: seq<Outcome>): nat
    decreases |os|
  {
    if |os| == 0 then 0 else (if PassedGate(os[0]) then 1 else 0) + CountPassed(os[1..])
  }

  /**
   Whatever token the session entry of `c`'s reference key holds in `s`, the
   process running `c` derives `lease` from it. A call without a reference
   key, or whose entry is gone, never reaches the lease and qualifies.
   */
  predicate ResolvesToLease(keying: LeaseKeying, s: Store, c: Invocation, lease: string) {
    c.tokenKey.Some? && GetRedisSessionKey(c.tokenKey.value) in s.db ==>
      LeaseKeyFor(keying, c.env, s.db[GetRedisSessionKey(c.tokenKey.value)].value) == lease
  }

  /**
   While `lease` is held, every invocation whose token maps to that lease,
   under whatever reference key, is skipped and the store does not change.
   */
  lemma {:induction false} HeldLeaseSkipsAll(keying: LeaseKeying, s: Store, calls: seq<Invocation>, lease: string, until: int)
    requires forall i :: 0 <= i < |calls| ==> calls[i].now < until && ResolvesToLease(keying, s, calls[i], lease)
    requires lease in s.leases && until <= s.leases[lease]
    ensures RunAll(keying, s, calls).0 == s
    ensures CountPassed(RunAll(keying, s, calls).1) == 0
    decreases |calls|
  {
    if |calls| > 0 {
      var c := calls[0];
      var o := Perform(keying, c.env, c.service, s, c.tokenKey, c.now);
      assert o.0 == s && o.1.Skipped?;
      HeldLeaseSkipsAll(keying, s, calls[1..], lease, until);
    }
  }

  /**
   Mutual exclusion on the lease: of invocations that start, in order, within
   LEASE_TIMEOUT seconds of the first and whose tokens all map to one lease,
   whatever their reference keys and processes, at most one passes the gate,
   and exactly one when the gate is open for the first.
   */
  lemma {:induction false} AtMostOnePassesLeaseGate(keying: LeaseKeying, s: Store, calls: seq<Invocation>, lease: string)
    requires forall i :: 0 <= i < |calls| ==> HexDigest(calls[i].env)
    requires forall i :: 0 <= i < |calls| ==> ResolvesToLease(keying, s, calls[i], lease)
    requires forall i, j :: 0 <= i <= j < |calls| ==> calls[i].now <= calls[j].now
    requires forall i :: 0 <= i < |calls| ==> calls[i].now < calls[0].now + LEASE_TIMEOUT
    ensures CountPassed(RunAll(keying, s, calls).1) <= 1
    ensures 0 < |calls| && GateOpen(keying, calls[0].env, s, calls[0].tokenKey, calls[0].now) ==>
      CountPassed(RunAll(keying, s, calls).1) == 1
    decreases |calls|
  {
    if |calls| > 0 {
      var first := calls[0];
      var rest := calls[1..];
      var (s1, o) := Perform(keying, first.env, first.service, s, first.tokenKey, first.now);
      if PassedGate(o) {
        var token := GetSessionToken(s, first.tokenKey.value, first.now).value;
        assert LeaseKeyFor(keying, first.env, token) == lease;
        forall i | 0 <= i < |rest|
          ensures rest[i].now < first.now + LEASE_TIMEOUT && ResolvesToLease(keying, s1, rest[i], lease)
        {
          assert rest[i] == calls[i + 1];
          if rest[i].tokenKey.Some? {
            WorkerProperties.PerformKeepsSessionTokens(keying, first.env, first.service, s, first.tokenKey, first.now, rest[i].tokenKey.value);
          }
        }
        HeldLeaseSkipsAll(keying, s1, rest, lease, first.now + LEASE_TIMEOUT);
      } else {
        assert s1 == s;
        forall i | 0 <= i < |rest|
          ensures rest[i].now < rest[0].now + LEASE_TIMEOUT
          ensures HexDigest(rest[i].env) && ResolvesToLease(keying, s, rest[i], lease)
        {
          assert rest[i] == calls[i + 1];
          assert rest[0] == calls[1];
          assert calls[0].now <= calls[1].now;
        }
        AtMostOnePassesLeaseGate(keying, s, rest, lease);
      }
    }
  }

  /**
   Two reference keys handed off for one token, run one second apart by one
   process: the second run finds the lease the first took and is skipped.
   */
  lemma TwoReferenceKeysOneToken(keying: LeaseKeying, env: Env, service: string -> ServiceResult)
    requires HexDigest(env)
    ensures var s := Store(map[GetRedisSessionKey("R1") := Entry("tok-A", None),
                               GetRedisSessionKey("R2") := Entry("tok-A", None)], map[]);
      var calls := [Invocation(env, Some("R1"), 0, service), Invocation(env, Some("R2"), 1, service)];
      CountPassed(RunAll(keying, s, calls).1) == 1
  {
    var s := Store(map[GetRedisSessionKey("R1") := Entry("tok-A", None),
                       GetRedisSessionKey("R2") := Entry("tok-A", None)], map[]);
    var calls := [Invocation(env, Some("R1"), 0, service), Invocation(env, Some("R2"), 1, service)];
    var lease := LeaseKeyFor(keying, env, "tok-A");
    assert ResolvesToLease(keying, s, calls[0], lease);
    assert ResolvesToLease(keying, s, calls[1], lease);
    assert GetSessionToken(s, "R1", 0) == Some("tok-A");
    AtMostOnePassesLeaseGate(keying, s, calls, lease);
  }

  /** One token handed off under reference key "R". */
  const HANDED_OFF: Store := Store(map[GetRedisSessionKey("R") := Entry("tok-C", None)], map[])

  /**
   Two processes with equal digests but different `String#hash` seeds run the
   job for "R" one second apart; the service finds no projects.
   */
  const TWO_PROCESSES: seq<Invocation> :=
    [ Invocation(Env(t => "", t => 0), Some("R"), 0, t => Projects({}))
    , Invocation(Env(t => "", t => 1), Some("R"), 1, t => Projects({})) ]

  /**
   Two invocations for one token, under the same or different reference keys,
   whose processes derive different lease keys for it do not exclude each
   other: both pass the gate.
   */
  lemma DistinctLeaseKeysDoNotExclude(keying: LeaseKeying, s: Store, a: Invocation, b: Invocation, token: string)
    requires HexDigest(a.env)
    requires a.tokenKey.Some? && b.tokenKey.Some?
    requires GetSessionToken(s, a.tokenKey.value, a.now) == Some(token) && GetSessionToken(s, b.tokenKey.value, b.now) == Some(token)
    requires !Held(s.leases, LeaseKeyFor(keying, a.env, token), a.now)
    requires !Held(s.leases, LeaseKeyFor(keying, b.env, token), b.now)
    requires LeaseKeyFor(keying, a.env, token) != LeaseKeyFor(keying, b.env, token)
    ensures CountPassed(RunAll(keying, s, [a, b]).1) == 2
  {
    var (s1, o1) := Perform(keying, a.env, a.service, s, a.tokenKey, a.now);
    assert PassedGate(o1);
    WorkerProperties.PerformKeepsSessionTokens(keying, a.env, a.service, s, a.tokenKey, a.now, b.tokenKey.value);
    assert GetSessionToken(s1, b.tokenKey.value, b.now) == Some(token);
    var (s2, o2) := Perform(keying, b.env, b.service, s1, b.tokenKey, b.now);
    assert PassedGate(o2);
    assert [b][1..] == [];
    assert RunAll(keying, s1, [b]).1 == [o2];
    assert [a, b][1..] == [b];
    var outcomes := RunAll(keying, s, [a, b]).1;
    assert outcomes == [o1, o2];
    assert [o2][1..] == [];
    assert CountPassed([o2]) == 1;
    assert outcomes[1..] == [o2];
  }

  /**
   As the worker is written, the lease key comes from the per-process
   `String#hash`, so both processes pass the gate, although every other
   condition of the exclusion guarantee holds.
   */
  lemma ProcessHashLetsTwoProcessesPass()
    ensures forall i :: 0 <= i < |TWO_PROCESSES| ==> HexDigest(TWO_PROCESSES[i].env)
    ensures LeaseKeyFor(ProcessHash, TWO_PROCESSES[0].env, "tok-C") != LeaseKeyFor(ProcessHash, TWO_PROCESSES[1].env, "tok-C")
    ensures CountPassed(RunAll(ProcessHash, HANDED_OFF, TWO_PROCESSES).1) == 2
  {
    var a, b := TWO_PROCESSES[0], TWO_PROCESSES[1];
    WorkerProperties.LeaseKeyDeterminedByHash(a.env, b.env, "tok-C", "tok-C");
    assert TWO_PROCESSES == [a, b];
    DistinctLeaseKeysDoNotExclude(ProcessHash, HANDED_OFF, a, b, "tok-C");
  }

  /**
   With the lease key taken from the token's digest, there is one lease per
   token across processes: of invocations that start, in order, within
   LEASE_TIMEOUT seconds of the first, whose reference keys (any number of
   them) all hand off `token`, in processes sharing the digest function, at
   most one passes the gate, and exactly one when it is open for the first.
   */
  lemma DigestKeyingExcludesAcrossProcesses(s: Store, calls: seq<Invocation>, token: string)
    requires forall i :: 0 <= i < |calls| ==> HexDigest(calls[i].env)
    requires forall i, t :: 0 <= i < |calls| ==> calls[i].env.digest(t) == calls[0].env.digest(t)
    requires forall i :: 0 <= i < |calls| && calls[i].tokenKey.Some? && GetRedisSessionKey(calls[i].tokenKey.value) in s.db ==>
      s.db[GetRedisSessionKey(calls[i].tokenKey.value)].value == token
    requires forall i, j :: 0 <= i <= j < |calls| ==> calls[i].now <= calls[j].now
    requires forall i :: 0 <= i < |calls| ==> calls[i].now < calls[0].now + LEASE_TIMEOUT
    ensures CountPassed(RunAll(TokenDigest, s, calls).1) <= 1
    ensures 0 < |calls| && GateOpen(TokenDigest, calls[0].env, s, calls[0].tokenKey, calls[0].now) ==>
      CountPassed(RunAll(TokenDigest, s, calls).1) == 1
  {
    if 0 < |calls| {
      var lease := LeaseKeyFor(TokenDigest, calls[0].env, token);
      forall i | 0 <= i < |calls|
        ensures ResolvesToLease(TokenDigest, s, calls[i], lease)
      {
        assert LeaseKeyFor(TokenDigest, calls[i].env, token) == lease;
      }
      AtMostOnePassesLeaseGate(TokenDigest, s, calls, lease);
    }
  }
}
