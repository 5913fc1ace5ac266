/**
 A non-blocking, expiring lease: `try_obtain` succeeds only when nobody holds
 the key, and the holder keeps it until the timeout elapses. There is no
 renewal and no explicit release; expiry is the only way a lease ends.

 Acquisition is a sequential test-and-set on a map from lease key to the
 instant the lease lapses.
 */
module ExclusiveLease {
  import opened Maps

  type Leases = map<string, int>

  predicate Held(leases: Leases, key: string, now: int) {
    key in leases && now < leases[key]
  }

  /** Returns the new lease table and whether this call obtained the lease. */
  function TryObtain(leases: Leases, key: string, timeout: nat, now: int): (r: (Leases, bool))
    ensures r.1 <==> !Held(leases, key, now)
    ensures !r.1 ==> r.0 == leases
    ensures r.1 ==> forall t :: Held(r.0, key, t) <==> t < now + timeout
    ensures forall k :: k != key ==> SameEntry(leases, r.0, k)
  {
    if Held(leases, key, now) then (leases, false) else (leases[key := now + timeout], true)
  }

  /** While a lease is held, every further attempt on its key fails. */
  lemma HeldLeaseExcludes(leases: Leases, key: string, timeout: nat, now: int, later: int)
    requires TryObtain(leases, key, timeout, now).1
    requires now <= later < now + timeout
    ensures !TryObtain(TryObtain(leases, key, timeout, now).0, key, timeout, later).1
  {
  }
}
