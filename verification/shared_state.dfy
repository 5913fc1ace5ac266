/**
 The shared Redis keyspace the worker talks to, reduced to the three commands
 it issues: GET, SET with an expiry in seconds (`ex:`), and INCR.

 Time is an integer number of seconds passed in by the caller. A key written
 with an expiry of `seconds` at `now` is visible while the clock is below
 `now + seconds`; afterwards GET answers nil, as Redis does for expired keys.
 */
module SharedState {
  import opened Wrappers
  import Decimal
  import opened Maps

  /** A stored string and the instant it stops being visible (None: never). */
  datatype Entry = Entry(value: string, expiresAt: Option<int>)

  type Keyspace = map<string, Entry>

  predicate Live(e: Entry, now: int) {
    e.expiresAt.None? || now < e.expiresAt.value
  }

  /** GET: the value of a live key, nil for a missing or expired one. */
  function Get(db: Keyspace, key: string, now: int): Option<string> {
    if key in db && Live(db[key], now) then Some(db[key].value) else None
  }

  /** SET key value EX seconds: overwrites the value and restarts its expiry. */
  function SetEx(db: Keyspace, key: string, value: string, seconds: nat, now: int): (r: Keyspace)
    ensures forall t :: Get(r, key, t) == (if t < now + seconds then Some(value) else None)
    ensures forall k :: k != key ==> SameEntry(db, r, k)
  {
    db[key := Entry(value, Some(now + seconds))]
  }

  /** Redis counters are signed 64-bit integers. */
  const MIN_INT64: int := -0x8000_0000_0000_0000
  const MAX_INT64: int := 0x7fff_ffff_ffff_ffff

  /** How Redis reads a stored string as a counter: canonical decimal within 64 bits. */
  function StoredInteger(v: string): Option<int> {
    match Decimal.ParseInt(v)
    case Some(n) => if MIN_INT64 <= n <= MAX_INT64 then Some(n) else None
    case None => None
  }

  /**
   The integer INCR starts from: 0 for a missing or expired key, the stored
   integer otherwise, nil when the key holds something that is not one.
   */
  function IntegerAt(db: Keyspace, key: string, now: int): Option<int> {
    match Get(db, key, now)
    case None => Some(0)
    case Some(v) => StoredInteger(v)
  }

  /** Errors INCR replies with; the Ruby client raises them. */
  datatype Error = NotAnInteger | IncrementOverflow

  /**
   INCR: adds one to the counter under `key`, creating it (without expiry)
   when missing. An existing key keeps its expiry.
   */
  function Incr(db: Keyspace, key: string, now: int): (r: Result<Keyspace, Error>)
    ensures r.Success? <==> IntegerAt(db, key, now).Some? && IntegerAt(db, key, now).value < MAX_INT64
    ensures r.Success? ==> IntegerAt(r.value, key, now) == Some(IntegerAt(db, key, now).value + 1)
    ensures r.Failure? ==> (r.error == NotAnInteger <==> IntegerAt(db, key, now).None?)
    ensures r.Success? ==> forall k :: k != key ==> SameEntry(db, r.value, k)
    ensures r.Success? && Get(db, key, now).None? ==> forall t :: IntegerAt(r.value, key, t) == Some(1)
    ensures r.Success? && Get(db, key, now).Some? ==> key in r.value && r.value[key].expiresAt == db[key].expiresAt
    ensures r.Success? && Get(db, key, now).Some? ==>
      forall t :: Live(db[key], t) ==> IntegerAt(r.value, key, t) == Some(IntegerAt(db, key, now).value + 1)
  {
    match Get(db, key, now)
    case None =>
      Decimal.ParseIntInvertsIntToDecimal(1, "1");
      Success(db[key := Entry("1", None)])
    case Some(v) =>
      match StoredInteger(v)
      case None => Failure(NotAnInteger)
      case Some(n) =>
        if n == MAX_INT64 then Failure(IncrementOverflow)
        else
          var rendered := Decimal.IntToDecimal(n + 1);
          Decimal.ParseIntInvertsIntToDecimal(n + 1, rendered);
          Success(db[key := Entry(rendered, db[key].expiresAt)])
  }
}
