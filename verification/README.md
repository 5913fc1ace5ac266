# CheckGcpProjectBillingWorker, modelled in Dafny

This project models the decision procedure of GitLab's
`CheckGcpProjectBillingWorker`. A caller hands a GCP session token to the
worker through the shared Redis store and gets a random reference key back.
The job is later run with that key. It resolves the token, takes a 3-second
exclusive lease scoped to the token, and asks the billing service which
projects have billing enabled. It then bumps a global counter when the stored
state goes from `"false"` to enabled. Finally it writes the new state for one
hour.

The model is a pure state machine:

- `SharedState`: the Redis keyspace as a map from key to `Entry(value, expiresAt)`.
  It offers GET, SET with `ex:`, and INCR. A key written at `now` with `ex: n`
  is visible while the clock is below `now + n`. INCR follows Redis: a missing
  key becomes `"1"` with no expiry, and a canonical 64-bit decimal goes up by
  one and keeps its expiry. Anything else is an error, and the client raises it.
- `Maps`: the frame condition `SameEntry`, shared by the keyspace and the lease table.
- `Decimal`: canonical decimal rendering and parsing. It is used by the lease
  key (`Integer#to_s`) and by INCR.
- `ExclusiveLease`: a non-blocking test-and-set lease table from lease key to
  the time the lease lapses. There is no renewal and no release.
- `CheckGcpProjectBillingWorker`: the worker's constants, key derivations and
  the operations `StoreSessionToken`, `GetSessionToken`, `TryObtainLeaseFor`,
  `CheckPreviousState`, `UpdateBillingChangeCounter` and `Perform`.
  `Perform` returns the new store and an outcome: `Ran`,
  `Skipped(NoKey | NoToken | LeaseHeld)`, or `Failed(...)` when the service
  or INCR raises.
- `WorkerProperties` and `Invocations`: the properties, including at-most-one
  passage through the lease gate for a run of invocations.

Parameters stand in for what the model cannot see:

- `Env.digest` is `Digest::SHA1.hexdigest`. It is uninterpreted, and key
  disjointness assumes only that it outputs hex.
- `Env.hash` is Ruby's `String#hash`. It is uninterpreted and belongs to one
  process, because Ruby seeds it per process.
- The billing service is a function from a token to `Projects(ids)` or
  `Unavailable`.
- `SecureRandom.uuid` is the `freshKey` argument.
- The clock is `now`, in whole seconds.

`Perform` also takes a `LeaseKeying`. `ProcessHash` is the key as the worker
builds it (line 63). `TokenDigest` is the corrected key described under
Findings. Every property of `Perform` in `WorkerProperties` holds for both
keyings; `LeaseKeyDeterminedByHash` and `LeaseKeyDeterminedByDigest` each
describe one keying.

## Model

| member | source | states |
|---|---|---|
| `Decimal.ParseIntInvertsIntToDecimal` | app/workers/check_gcp_project_billing_worker.rb:63 | Parsing a string yields `n` exactly when the string is the canonical rendering of `n`. The integer in the lease key and in a Redis counter is recovered unambiguously. |
| `Decimal.IntToDecimalInjective` | app/workers/check_gcp_project_billing_worker.rb:63 | Two integers render to the same text only when they are equal. |
| `Decimal.DigitsValueOfNatToDecimal` | app/workers/check_gcp_project_billing_worker.rb:63 | Reading the digits of a rendered natural number gives the number back. |
| `SharedState.SetEx` | app/workers/check_gcp_project_billing_worker.rb:40-43 | After `SET key value ex: n` at `now`, GET returns the value exactly while the clock is below `now + n` and nil afterwards. Every other key keeps its entry. |
| `SharedState.Incr` | app/workers/check_gcp_project_billing_worker.rb:76-78 | INCR succeeds exactly when the key is missing or holds a 64-bit integer below the maximum. On success the key reads back one more than before, and every other key is unchanged. It fails with NotAnInteger exactly when the value is not an integer. A counter it creates has no expiry and reads 1 at every later instant. An existing counter keeps its expiry and reads the incremented value for as long as it lives. |
| `ExclusiveLease.TryObtain` | app/workers/check_gcp_project_billing_worker.rb:61-65 | Obtaining succeeds exactly when the lease is not held. On success it is held until `now + timeout` and not after. On failure nothing changes, and other leases never change. |
| `ExclusiveLease.HeldLeaseExcludes` | app/workers/check_gcp_project_billing_worker.rb:61-65 | A second attempt on an obtained lease within its timeout fails. |
| `CheckGcpProjectBillingWorker.GetRedisSessionKey` | app/workers/check_gcp_project_billing_worker.rb:53-55 | The session key is `"gitlab:gcp:session:"` followed by the reference key, which can be read back from it unchanged. |
| `CheckGcpProjectBillingWorker.RedisSharedStateKeyFor` | app/workers/check_gcp_project_billing_worker.rb:25-27 | The billing-state key is the token's digest between `"gitlab:gcp:"` and `":billing_enabled"`, and the digest can be read back from it. |
| `CheckGcpProjectBillingWorker.LeaseKeyFor` | app/workers/check_gcp_project_billing_worker.rb:63 | The lease key is `"check_gcp_project_billing_worker:"` followed by the decimal `String#hash` of the token, which parses back to that hash. Under the corrected keying the suffix is the token's digest. |
| `CheckGcpProjectBillingWorker.GetSessionToken` | app/workers/check_gcp_project_billing_worker.rb:11-15 | Returns the value stored under the reference key's session key exactly while that entry lives, and nil otherwise. |
| `CheckGcpProjectBillingWorker.TryObtainLeaseFor` | app/workers/check_gcp_project_billing_worker.rb:61-65 | Succeeds exactly when the token's lease is not held. On success that lease is held until `now + LEASE_TIMEOUT` (3 s) and no other lease changes. On failure the lease table is unchanged. |
| `CheckGcpProjectBillingWorker.CheckPreviousState` | app/workers/check_gcp_project_billing_worker.rb:67-71 | Returns the raw string stored under the token's billing-state key exactly while that entry lives, and nil otherwise. |
| `CheckGcpProjectBillingWorker.StoreSessionToken` | app/workers/check_gcp_project_billing_worker.rb:17-23 | Returns the generated key. The token is readable under that key's session key for exactly `SESSION_KEY_TIMEOUT` (300 s). No other key and no lease changes. |
| `CheckGcpProjectBillingWorker.UpdateBillingChangeCounter` | app/workers/check_gcp_project_billing_worker.rb:73-79 | The keyspace is left alone unless the previous value is exactly `"false"` and billing is now enabled. In that case the counter reads one more than before, or INCR's error is returned when the counter cannot be incremented. A counter created here has no expiry and reads 1 at every later instant; an existing one keeps its expiry. Other keys never change. |
| `CheckGcpProjectBillingWorker.Perform` | app/workers/check_gcp_project_billing_worker.rb:29-45 | With no key the outcome is `Skipped(NoKey)`. With no live token it is `Skipped(NoToken)`. With a held lease it is `Skipped(LeaseHeld)`. Each skip leaves the store unchanged, and a skip happens exactly when the gate is closed. Otherwise the lease becomes held until `now + LEASE_TIMEOUT`. Past the gate, an unavailable billing service makes the run fail with `ServiceFault`. A service or INCR failure writes no key. |
| `WorkerProperties.KeyFormatsDisjoint` | app/workers/check_gcp_project_billing_worker.rb:25-27 | A billing-state key is never the counter key. A session key is never the counter key. A session key is never a billing-state key while the digest is hex. |
| `WorkerProperties.SessionKeyInjective` | app/workers/check_gcp_project_billing_worker.rb:53-55 | Two reference keys share a session key exactly when they are equal. |
| `WorkerProperties.BillingKeyDeterminedByDigest` | app/workers/check_gcp_project_billing_worker.rb:25-27 | Two tokens share a billing-state key exactly when their digests agree. |
| `WorkerProperties.LeaseKeyDeterminedByHash` | app/workers/check_gcp_project_billing_worker.rb:61-65 | With the worker's keying, two tokens, possibly in two processes, share a lease key exactly when their `String#hash` values agree. |
| `WorkerProperties.LeaseKeyDeterminedByDigest` | app/workers/check_gcp_project_billing_worker.rb:61-65 | With digest keying, two tokens, in any processes, share a lease key exactly when their digests agree. |
| `WorkerProperties.SessionTokenRoundTrip` | app/workers/check_gcp_project_billing_worker.rb:11-23 | `get_session_token(store_session_token(t))` returns `t` before the 300 s expiry and nil after it. The token under every other reference key is unaffected. |
| `WorkerProperties.PerformKeepsSessionTokens` | app/workers/check_gcp_project_billing_worker.rb:29-45 | When the digest is hexadecimal, no invocation writes a session key. A handed-off token stays readable until it expires. |
| `WorkerProperties.PerformCountsTransitions` | app/workers/check_gcp_project_billing_worker.rb:36-38 | Once the gate is passed and the service answers, the counter goes up by exactly 1 if the previous state was exactly `"false"` and the project set is non-empty. That run fails only when INCR refuses the counter. The counter entry is untouched after an absent, `"true"` or other previous value, or after an empty set. |
| `WorkerProperties.PerformPersistsBillingState` | app/workers/check_gcp_project_billing_worker.rb:40-43 | Once the gate is passed and the service answers, the run either succeeds or fails. On success the token's state key reads `"true"` for a non-empty set and `"false"` otherwise, for exactly `BILLING_TIMEOUT` (3600 s). Only that key and the counter change. On failure no key changes. |
| `WorkerProperties.PerformNeverDecreasesCounter` | app/workers/check_gcp_project_billing_worker.rb:73-79 | Every invocation either leaves the counter entry untouched or raises an integer counter by exactly one. An integer counter never goes down. |
| `WorkerProperties.DisabledToEnabledScenario` | app/workers/check_gcp_project_billing_worker.rb:29-45 | Previous state `"false"` and one project found: the run completes, the counter reads 1 and the state reads `"true"`. |
| `WorkerProperties.NoStateNoProjectsScenario` | app/workers/check_gcp_project_billing_worker.rb:29-45 | No previous state and no project found: the run completes, the counter entry is unchanged and the state reads `"false"`. |
| `Invocations.HeldLeaseSkipsAll` | app/workers/check_gcp_project_billing_worker.rb:34 | While a lease is held, every invocation whose token maps to it is skipped and the store does not change. This holds under any reference key and in any process. |
| `Invocations.AtMostOnePassesLeaseGate` | app/workers/check_gcp_project_billing_worker.rb:34 | Take invocations that start in order within `LEASE_TIMEOUT` of the first, whose tokens all map to one lease. Their reference keys and processes may differ, and every process's digest is hexadecimal. At most one passes the lease gate, and exactly one does when the gate is open for the first. |
| `Invocations.TwoReferenceKeysOneToken` | app/workers/check_gcp_project_billing_worker.rb:61-65 | Reference keys R1 and R2 both hold `tok-A`, and one process runs them one second apart. Exactly one run passes the gate. |
| `Invocations.DistinctLeaseKeysDoNotExclude` | app/workers/check_gcp_project_billing_worker.rb:61-65 | Two invocations for the same token, under the same or different reference keys, whose processes derive different lease keys for it, both pass the gate. |
| `Invocations.ProcessHashLetsTwoProcessesPass` | app/workers/check_gcp_project_billing_worker.rb:63 | As written, two processes with different `String#hash` seeds both pass the gate for one reference key, one second apart. |
| `Invocations.DigestKeyingExcludesAcrossProcesses` | app/workers/check_gcp_project_billing_worker.rb:61-65 | With the lease key taken from the digest there is one lease per token. Take invocations within a lease window whose reference keys all hand off one token, in processes that share the digest. At most one passes the gate, and exactly one when it is open for the first. |

## Left out

- Redis connection handling (`Gitlab::Redis::SharedState.with`) and connection failures. The store is an in-memory map, and an unreachable Redis is I/O.
- `SecureRandom.uuid` (line 50): the generated key is the `freshKey` parameter. Its freshness is not assumed, because SET overwrites regardless.
- `Digest::SHA1` and `String#hash`: these are uninterpreted functions of `Env`. The digest is assumed hexadecimal only where key disjointness needs it.
- `CheckGcpProjectBillingService`: it is an external call. Its answer is a parameter, and its failure is the single `Unavailable` case.
- `Gitlab::ExclusiveLease` is not part of this model. Its behaviour is taken as Redis `SET NX EX` on a table kept apart from the worker's keyspace, so its own key prefix is not modelled.
- Concurrency: invocations are interleaved whole, one after another. The accepted race, where the lease lapses while the service call is still running and a second run then passes, is visible in the model only as a lease expiring at `now + LEASE_TIMEOUT`. The service call takes no time in the model.
- Time is whole seconds. Redis keeps millisecond expiries; the model treats a key as visible strictly before its expiry instant.
- `ApplicationWorker` and `ClusterQueue` (lines 4-5) are job-scheduling plumbing.
- Ruby truthiness: `token_key` and the token are options. An empty string counts as present, as it does in Ruby. A `false` argument is not modelled.

## Findings

| source | as written | input that shows it | evidently intended | confidence | as-written member | corrected member |
|---|---|---|---|---|---|---|
| app/workers/check_gcp_project_billing_worker.rb:63 | The lease key is `"check_gcp_project_billing_worker:#{token.hash}"`. Ruby seeds `String#hash` per process, so worker processes derive different lease keys for the same token. | Two worker processes whose hashes of `"tok-C"` are 0 and 1 each run the job for the same reference key one second apart. Both pass the gate. | One lease per token across all workers, for example a key taken from a process-independent digest of the token. | medium, not executed | `Invocations.ProcessHashLetsTwoProcessesPass` | `Invocations.DigestKeyingExcludesAcrossProcesses` |

Within one process `String#hash` is stable, so the exclusion guarantee
(`Invocations.AtMostOnePassesLeaseGate`) holds for both keyings among that
process's invocations for one token. The
corrected keying builds the suffix from the digest the worker already uses
for the billing-state key.
