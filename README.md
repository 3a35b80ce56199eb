# Load-generator state, modelled in Dafny

This project models the bookkeeping in the shared `State` of the WFE load generator
(`cmd/load-generator/wfe/state.go`). The model runs one call at a time and covers four
parts:

- **Nonce pool.** A FIFO queue of `Replay-Nonce` anti-replay tokens. `addNonce` appends a
  token. `getNonce` pops the oldest one, or sends a HEAD request when the pool is empty or
  a fresh token is demanded. `post` puts any token a response carries back into the pool.
  `signWithNonce` uses up one token to sign a payload.
- **Registration store.** The simulated client identities. `addReg` appends one.
  `getRandReg`/`getReg` pick one uniformly. `Restore` appends the registrations rebuilt
  from snapshot entries. `Snapshot` produces those entries.
- **Weighted selector.** `weightedCall` lays the profiles' weights out as consecutive
  integer ranges in a map and picks the owner of one random index in `[0, n)`.
- **Eligibility rule.** `sendCall` builds its action list from the registration it found.

Modules, one per part: `Wrappers` (Option and Result), `Weighted`, `Registrations`,
`Nonces`, `Actions` (the action list of `sendCall`), and `LoadState`. `LoadState` holds
the class `State`, whose methods update `noncePool` and `regs` in place. Each random draw
is an input constrained to its range. Each network outcome is an input too: the HEAD
request is a `Probe`, and what `client.Post` returned is an `Exchange`. The foreign key
calls become the predicates `parses` (for `x509.ParsePKCS1PrivateKey`) and `signerOk` (for
`jose.NewSigner`). A key is known by its PKCS#1 encoding.

`weightedCall` is modelled for every setup, including negative weights. A negative weight
moves the offset `n` back, so a later profile overwrites entries of an earlier one. The
map entry at an index is then the action of the *last* profile whose range covers it.
When the map is not empty but `n <= 0`, `rand.Intn` panics (`Pick.Panic`). The setups
`sendCall` builds have positive weights only. For them the ranges partition `[0, n)` in
list order.

## Model

| member | source | states |
|---|---|---|
| `Weighted.WeightedCall` | cmd/load-generator/wfe/state.go:299-313 | Result is nil iff no weight is positive. It panics iff some weight is positive but the weights sum to n <= 0. Otherwise it is the action of the last profile whose range covers the draw r. With no negative weight, every profile covering r has that action. |
| `Weighted.ChoicesAt` | cmd/load-generator/wfe/state.go:302-307 | After the first m profiles, index k is in the map iff one of them covers k. Its entry is the action of the last profile that covers k. |
| `Weighted.LastCoverIsLast` | cmd/load-generator/wfe/state.go:302-307 | The profile chosen as last cover really covers k, and no later profile covers k. |
| `Weighted.ChoicesNoGaps` | cmd/load-generator/wfe/state.go:302-312 | Every index 0 <= k < n is in the map, whatever the signs of the weights, so the draw always finds an entry. |
| `Weighted.PositiveWeightFills` | cmd/load-generator/wfe/state.go:303-305 | A profile with a positive weight writes the first index of its range. |
| `Weighted.FilledByPositiveWeight` | cmd/load-generator/wfe/state.go:303-305 | Every map entry was written by a profile with a positive weight. |
| `Weighted.ChoicesEmpty` | cmd/load-generator/wfe/state.go:308-310 | The map is empty (nil is returned) iff no weight is positive. |
| `Weighted.OffsetNotPositive` | cmd/load-generator/wfe/state.go:301-306 | With no positive weight, the offset n never becomes positive. |
| `Weighted.RangesInOrder` | cmd/load-generator/wfe/state.go:302-306 | With no negative weight, each profile's range ends before every later profile's range starts, so the ranges follow the list order. |
| `Weighted.RangesDisjoint` | cmd/load-generator/wfe/state.go:302-306 | With no negative weight, no index is covered by two profiles. |
| `Weighted.Partition` | cmd/load-generator/wfe/state.go:299-312 | With no negative weight, every index below n is in the map. A profile covers it iff that profile is its owner, and the entry is the owner's action. |
| `Weighted.DrawOutcome` | cmd/load-generator/wfe/state.go:308-312 | The map is empty iff no weight is positive, and then n <= 0. A draw in range finds the last covering profile's action, which is the only covering profile's action when no weight is negative. |
| `Actions.ActionList` | cmd/load-generator/wfe/state.go:316-329 | The list starts with newRegistration at weight 2. Then come newAuthorization at 4 iff a registration was found, newCertificate at 4 iff it has an authorization, and revokeCertificate at 3 iff it has a certificate. Its length counts exactly those entries, and every entry carries its action's weight. |
| `Actions.ActionListEligible` | cmd/load-generator/wfe/state.go:316-329 | An action is on the list iff it is eligible: registration always, authorization iff found, certificate iff found with an authorization, revocation iff found with a certificate. Each action appears once, with its weight, in that order. |
| `Actions.ActionListWeights` | cmd/load-generator/wfe/state.go:316-329 | The list is never empty and starts with newRegistration at weight 2. All weights are positive. The total is 2 + 4 + 4 + 3 over the eligible actions, so it is one of 2, 6, 9, 10, 13. |
| `Actions.FullListRanges` | cmd/load-generator/wfe/state.go:316-329 | With all four actions eligible, the draw ranges are [0,2), [2,6), [6,10) and [10,13). |
| `Actions.OwnerEligible` | cmd/load-generator/wfe/state.go:316-331 | The action that owns the draw is an eligible one. |
| `Actions.RestoredRegistrationUsable` | cmd/load-generator/wfe/state.go:102-107 | A registration restored as written has no lock, so the read lock in sendCall panics on it. One restored with a lock does not panic. |
| `Registrations.GetRandReg` | cmd/load-generator/wfe/state.go:278-284 | Not found iff the store is empty. Otherwise the result is the store member at the drawn index. |
| `Registrations.GetRandRegReachesAll` | cmd/load-generator/wfe/state.go:278-284 | Every member of a non-empty store is returned for some draw in range. |
| `Registrations.RestoredSingle` | cmd/load-generator/wfe/state.go:93-108 | One entry is rebuilt iff its key parses and its signer builds. |
| `Registrations.RestoredAppend` | cmd/load-generator/wfe/state.go:93-108 | Restoring a concatenation of entry lists restores each list in turn. |
| `Registrations.RestoredMembers` | cmd/load-generator/wfe/state.go:93-108 | A registration is restored iff it is rebuilt from some restorable entry, keeping that entry's key, certs and auths. |
| `Registrations.RestoredAllKept` | cmd/load-generator/wfe/state.go:93-108 | When every entry is restorable, each entry comes back rebuilt, in entry order. |
| `Registrations.SkipsUnrestorable` | cmd/load-generator/wfe/state.go:94-101 | An entry whose key or signer fails is skipped, and the result is the same as restoring the entries without it. |
| `Registrations.OneCorruptOfThree` | cmd/load-generator/wfe/state.go:93-108 | Three entries with one corrupt key give exactly the other two registrations. |
| `Registrations.RestoredAsWritten` | cmd/load-generator/wfe/state.go:102-107 | As written: the restorable entries, rebuilt in entry order with their key, signer, auths and certs, one for one with the corrected restore, none carrying a lock. |
| `Registrations.RestoredLocks` | cmd/load-generator/wfe/state.go:102-107 | Registrations restored as written carry no lock. Those restored with the correction carry one. |
| `Registrations.SnapshotRestoreRoundTrip` | cmd/load-generator/wfe/state.go:74-81 | Restoring the collected snapshot entries of a store of well-formed registrations gives back that same store. |
| `Registrations.SnapshotAsWrittenLosesStore` | cmd/load-generator/wfe/state.go:73-82 | Restoring the empty record that Snapshot marshals as written brings back nothing from a non-empty store. |
| `Nonces.ProbeNonce` | cmd/load-generator/wfe/state.go:239-255 | A fresh fetch succeeds iff the response has a non-empty Replay-Nonce, and returns that value. It fails with the transport error, or with "Nonce header not supplied!". |
| `Nonces.Acquire` | cmd/load-generator/wfe/state.go:237-262 | Pool not empty and no fresh token demanded: returns pool[0] and leaves the rest of the pool. Otherwise: the fetch result, with the pool unchanged. |
| `Nonces.Harvested` | cmd/load-generator/wfe/state.go:211-215 | At most one token is re-added. It is re-added iff there is a response whose Replay-Nonce is not empty, and it is that header. |
| `Nonces.PostResult` | cmd/load-generator/wfe/state.go:216-219 | post fails iff the transport reported an error, and returns the response otherwise. |
| `Nonces.StepFifo` | cmd/load-generator/wfe/state.go:237-268 | For each pool operation, the token it serves followed by the pool it leaves equals the old pool followed by the tokens it adds. |
| `Nonces.FifoTrace` | cmd/load-generator/wfe/state.go:256-268 | Over any sequence of addNonce, getNonce and post, the served tokens followed by the tokens left equal the initial pool followed by the added tokens. Tokens leave in insertion order. |
| `Nonces.SplitNoDuplicates` | cmd/load-generator/wfe/state.go:259-260 | When a concatenation has no duplicates, neither part has any, and the two parts share no element. |
| `Nonces.NoTokenServedTwice` | cmd/load-generator/wfe/state.go:256-261 | If the initial and added tokens are distinct, no token is served twice, and no served token is still in the pool. |
| `LoadState.SleepInterval` | cmd/load-generator/wfe/state.go:169 | The pause is undefined iff the rate is 0. For a positive rate it is the whole number of nanoseconds that fits rate times into one second. For a negative rate it is the truncated negative quotient. |
| `LoadState.State.Interval` | cmd/load-generator/wfe/state.go:169 | The pause at the state's stored rate is undefined iff that rate is 0. For a positive rate it is the whole number of nanoseconds that fits rate times into one second. |
| `LoadState.State.constructor` | cmd/load-generator/wfe/state.go:130-143 | A new state has an empty store, an empty pool and the given rate. |
| `LoadState.State.AddNonce` | cmd/load-generator/wfe/state.go:264-268 | The pool gains exactly the token at its end, and nothing else changes. |
| `LoadState.State.GetNonce` | cmd/load-generator/wfe/state.go:237-262 | From the pool: returns old pool[0] and the pool becomes old pool[1..]. Otherwise the pool is unchanged and the fetch result is returned. |
| `LoadState.State.Post` | cmd/load-generator/wfe/state.go:205-220 | The pool gains the harvested token before the transport error is reported, and whether or not there is one. The result is the error or the response. |
| `LoadState.State.SignWithNonce` | cmd/load-generator/wfe/state.go:225-235 | The nonce is taken as getNonce takes it, even when signing then fails. A nonce error or a signing error is returned. Otherwise the payload is signed with the taken nonce. |
| `LoadState.State.AddReg` | cmd/load-generator/wfe/state.go:272-276 | The store gains exactly the registration at its end, and the earlier ones are unchanged. |
| `LoadState.State.GetReg` | cmd/load-generator/wfe/state.go:286-290 | Not found iff the store is empty. Otherwise returns the member at the draw, and changes nothing. |
| `LoadState.State.Restore` | cmd/load-generator/wfe/state.go:85-110 | Corrected: each appended registration carries a lock of its own, where the source leaves it nil. On a decode error, returns it and leaves the store alone. Otherwise it appends, after the old store, the rebuilt restorable entries in order, and returns no error even when it skipped entries. |
| `LoadState.State.Snapshot` | cmd/load-generator/wfe/state.go:70-83 | Corrected: the record holds one entry per registration, in store order. |
| `LoadState.State.SnapshotAsWritten` | cmd/load-generator/wfe/state.go:70-83 | As written: the entries are collected, but the record returned for marshalling is empty. |
| `LoadState.State.SendCall` | cmd/load-generator/wfe/state.go:315-331 | The registration is getReg's pick. The call panics iff that registration has no lock. Otherwise the chosen action is eligible. It is the action of the last profile on the action list whose range covers the draw, and the only such profile. |

## Left out

- The dispatch loop of `Run` is left out: goroutines, the `stop` channel, the `WaitGroup`, `time.Sleep` pacing and the atomic read of `throughput`. This is concurrency and timing. Only the interval at line 169 is modelled, by `SleepInterval` and, at the stored rate, by `LoadState.State.Interval`.
- Starting and killing the challenge-server process is left out, because it is operating-system process handling. When `dontRunChallSrv` is set, line 180 calls `Kill` on a nil process.
- `New` is reduced to its bookkeeping. The RSA key, the HTTP/TLS client, the latency map and the other configuration fields are left out, as I/O and foreign calls. `Dump`, a file write, is left out.
- The locks `rMu`, `nMu` and `iMu` are left out because the model is sequential. A registration only records whether its `iMu` is set. The window between `RUnlock` and `Lock` in `getNonce` (lines 256-259) is not modelled. In it, two callers can both see a one-token pool, and the second then indexes an empty pool.
- The latency recording (`callLatency.Add`) is left out. It is an external collaborator whose outcome tags are only side data.
- `math/rand` is replaced by draws that the caller supplies, each constrained to its range.
- The action bodies `newRegistration`, `newAuthorization`, `newCertificate` and `revokeCertificate` are not part of this model. `LoadState.State.SendCall` stops at the chosen action and does not run it or call `wg.Done`.
- Registrations are values in the model, while in Go they are shared pointers. Updates an action makes to one registration's `auths`/`certs` through that pointer are not captured.
- RSA key parsing, signer construction, `Sign` and `json.Marshal`/`Unmarshal` are foreign calls. They become the `parses`/`signerOk` predicates, a signing-error input and the decode outcome. `Snapshot` returns the record it hands to `json.Marshal`.
- `getNonce` builds the request URL from `apiBase` and `from`. That formatting is left out, as part of the request the outcome stands for.
- `maxRegs` is declared but never set or read, so it is not modelled.
- Integer widths are left out. `n` in `weightedCall` and `throughput` are unbounded, so 64-bit overflow is not modelled. The weights `sendCall` uses are tiny.

## Findings

| source | as written | input that shows it | evidently intended | confidence | as-written member | corrected member |
|---|---|---|---|---|---|---|
| cmd/load-generator/wfe/state.go:73-82 | `Snapshot` collects `rawRegs` but marshals the empty `snap`, so the snapshot never holds a registration | a store with one registration: the record is empty, and restoring it restores nothing | marshal `snapshot{Registrations: rawRegs}`, so that restoring it gives back the store | high, not executed | `LoadState.State.SnapshotAsWritten`, `Registrations.SnapshotAsWrittenLosesStore` | `LoadState.State.Snapshot`, `Registrations.SnapshotRestoreRoundTrip` |
| cmd/load-generator/wfe/state.go:102-107 | `Restore` builds each registration without `iMu`, so the lock is nil, and `sendCall` calls `reg.iMu.RLock()` on it (line 321) | restore one entry whose key parses, then a `sendCall` whose draw picks it: `RLock` on a nil `*sync.RWMutex` panics | give each restored registration its own `RWMutex` | high, not executed | `Registrations.RestoredAsWritten`, `Actions.RestoredRegistrationUsable` | `LoadState.State.Restore`, `Registrations.RestoredLocks` |
