# A verified model of CA-ZTCF

CA-ZTCF decides, for every access request of a device, how far the device can be trusted after it has moved between
access domains (5G NR and WLAN). This project models the decision service, the MQTT 3.1.1 enforcement proxy in front of
a broker, and the arithmetic and bookkeeping of the evaluation campaign, and proves properties over all inputs, all runs
or all reachable states. `dafny verify dfyconfig.toml` checks everything.

## How it is organised

| module | models |
|---|---|
| `Base` | bytes, instants in microseconds, options and results |
| `Window`, `WindowRuns` | the pruned deque every counter uses, and what it holds after any run of calls |
| `Transitions`, `Collector` | one device's track as a value; the collector over all devices, as a value and in place |
| `Moves` | events, verdicts and contexts from the observations alone |
| `Bindings`, `Identity`, `Counters` | binding store, nonces, proof verification and proof store, failure counters |
| `Trust` | posture, evidence, predicates C1-C11, rules R0-R5, per-device state history |
| `Strategy`, `StrategyService` | `CAZTCFStrategy.decide` through all stores: as a step on values, and in place |
| `Provenance` | what stands behind trust over whole runs: proofs and the nonces they consumed |
| `Rates` | what the rate and failure limits count over whole runs |
| `Decisions` | state, context and answer of a decision from what has happened in the system |
| `StaticContinuity` | the session-token baseline over the same services |
| `Topics`, `TopicNames` | topic filters, scopes, and what granting a filter lets through |
| `Policy`, `Matrix`, `MemoryPep` | decisions, the policy matrix, the in-memory enforcement point |
| `Codec`, `Wire`, `Stream` | MQTT codec, the bytes it writes and reads, framing |
| `Gateway`, `GatewayRuns`, `Replies`, `ClientLoop` | the proxy's client loop as a value; what its runs keep towards the broker and towards the client; the loop in place |
| `Isolation` | from the policy matrix to the broker: one device's sessions against another's |
| `Holm`, `Cochran`, `Percentile` | the paired statistics, over the reals |
| `Campaign`, `Ledger` | the condition matrix and the resumable campaign |
| `Redaction` | audit redaction |

Code that updates objects is a class whose methods state their whole effect as one step of a function on values
(`View() == Step(old(View()), ...)`), or against a ghost log of everything that happened; runs of those steps are what
the lemmas quantify over. The clock, generated identifiers, signature checks, JSON, the decision service as the gateway
sees it, and the environment of a campaign session are parameters, so every statement holds for all of their behaviours.
A decision request names its own instant or takes the clock's; both are modelled, with a clock reading for each place that
takes one, because bindings and nonces are always judged by the clock. Text is UTF-8 bytes.

## What the proofs found

- A scope pattern that accepts a subscription filter does not always contain it. It does unless the filter's last level
  is `#`, standing where the pattern has `+`; of that family only `+/#` with `#` is contained after all
  (`Topics.GrantContainment`), or, over legal topic names alone, `#` and `/#` under patterns that go on with `#`
  (`TopicNames.GrantContainsNames`). `a/+` accepts `a/#`, which also selects `a` (`Topics.PlusAcceptsHash`).
- Device isolation by scope needs no condition on what precedes the device's level (`Topics.DevicesAreDisjoint`), and it
  carries through decisions and sessions to the broker (`Isolation.SessionsAreIsolated`). Patterns that do not name the
  device, such as `shared/telemetry/#`, are what devices have in common.
- Configuration validation checks that every rule's action has a lifetime, but not the default action's: where that has
  none, a state and context no rule covers raise an error instead of being denied (`Matrix.AnswersAlwaysIff`).
- The ledger's "one VALID row per condition" holds exactly when the plan's conditions are distinct
  (`Ledger.UniqueExactlyWhenDistinct`), so exactly when no scenario, strategy or seed is listed twice
  (`Campaign.DistinctConditions`). Scenario ids are checked for duplicates by the loader; seeds are not.
- Gaining a binding can worsen a device's state in one way only: from DEGRADED, by failing posture
  (`Trust.GainingABinding`).
- A claim attributes an address whether or not a proof verified (`Strategy.FirstClaimantOwns`), so ownership is not by
  itself evidence of a proof; trust at TRANSITIONAL or above is (`Provenance.TrustRestsOnNonce`).
- A step-up answer that is JSON but no object raises an error the gateway does not catch, and ends the session
  (`ClientLoop.Connection.HandleStepUpResponse`).
- `MemoryPEP.check` reports a revoked decision as an expired one, because only the grant is removed; C6 is the negation
  of C7. Both are modelled as the code has them.
- A query about a future instant prunes a device's transition window for good, and one about a past instant counts what
  lies after it (`Transitions.FutureQueryLoses`, `Transitions.PastQueryCountsAhead`). `Transitions.WindowIsExactIff` says
  exactly when the window is right; a query no earlier than the device's own earlier calls always is, in whatever order
  those came, and what other devices name never matters.
- The failure counter appends instants as they come, so a device that names instants out of order can have an old failure
  counted behind a younger one (`WindowRuns.OutOfOrder`); `Counters.ReportIsWindow` says exactly when.

## Model

| member | source | states |
|---|---|---|
| Provenance.TrustRestsOnNonce | src/ca_ztcf/strategies/ca_ztcf.py:31-79 | over every run from empty stores, clocks running any way, a TRANSITIONAL or STABLE decision rests on a proof its device presented within the proof lifetime, and that proof on a verified signature over a nonce issued to the device, unexpired when consumed, and neither tried nor reissued in between |
| Provenance.ProofConsumesNonce | src/ca_ztcf/identity/proof.py:73-83 | in any such run a proof verified only by consuming a nonce issued to its device, unexpired, and touched by nothing since |
| Provenance.NonceEarnsProof | src/ca_ztcf/identity/proof.py:64-88 | and the other way: a registered device's signed proof over such a nonce verifies, as long as no nonce was issued at a later instant, which would have purged it |
| Provenance.OneProofPerNonce | src/ca_ztcf/identity/proof.py:73-83 | two verified proofs with one nonce, from whichever devices, have an issue of that nonce between them |
| Provenance.TrustRestsOnProof | src/ca_ztcf/strategies/ca_ztcf.py:31-39 | over every run from an empty proof store, with clocks running any way, a TRANSITIONAL or STABLE decision traces back to a proof the same device presented at most one proof lifetime ago, whose signature held and whose nonce the table held for it, unexpired |
| Provenance.StoredProof | src/ca_ztcf/identity/proof.py:175-189 | in every run each stored proof is the success of a proof its own device presented in an earlier request |
| Provenance.NoncesTracked | src/ca_ztcf/identity/proof.py:64-88 | over every run of the whole system the nonce table is what the log of issues and tries makes it, purging aside |
| Provenance.NonceSource | src/ca_ztcf/identity/proof.py:64-83 | an outstanding nonce was issued by one action of the run and touched by none since |
| Strategy.AttributionIsSafe | src/ca_ztcf/strategies/ca_ztcf.py:46-79 | over every interleaving of decisions, upserts, releases, clears, nonces, registry changes and resets in which nothing ends the attribution (no release, clear, upsert from the other domain or upsert naming another device), any other device deciding from the attributed live address is UNKNOWN or UNTRUSTED |
| Strategy.ConflictIsTerminal | src/ca_ztcf/strategies/ca_ztcf.py:46-48 | a conflicting claim on a live attributed address decides UNKNOWN or UNTRUSTED and leaves the binding store as it was |
| Strategy.TrustNeedsEvidence | src/ca_ztcf/strategies/ca_ztcf.py:56-79 | TRANSITIONAL or better needs an active registered identity, a verified proof in its lifetime, a live fresh binding this device owns, accepted posture, and both counters within their limits |
| Strategy.ContextMatchesState | src/ca_ztcf/strategies/ca_ztcf.py:41-82 | under the validated configuration the context is NONE exactly when no transition is recent, STABLE comes with NONE, TRANSITIONAL never does, and a rate violation inside the window is REPEATED |
| Strategy.GatheredTransition | src/ca_ztcf/collectors/transition.py:303-333 | the recency and the window count the predicates see are those the context was derived from, although both queries prune |
| Strategy.FirstClaimantOwns | src/ca_ztcf/strategies/ca_ztcf.py:46 | the first device to decide from an unclaimed live address owns it, proof or no proof |
| Strategy.ActOnStore | src/ca_ztcf/strategies/ca_ztcf.py:46 | the only effect of a decision on the binding store is its claim |
| Strategy.ProofStepStores | src/ca_ztcf/strategies/ca_ztcf.py:31-39 | one request leaves in the proof store what was there or the success it just presented; failures displace nothing |
| Strategy.ProofStepResult | src/ca_ztcf/strategies/ca_ztcf.py:31-39 | a valid result comes from a proof verifying now or from the store |
| StrategyService.Service.constructor | src/ca_ztcf/strategies/ca_ztcf.py:17-20 | wires empty services of one deployment, the collector sharing the binding store |
| StrategyService.Service.Decide | src/ca_ztcf/strategies/ca_ztcf.py:22-91 | in place over six mutable services: the whole new state and the decision are those of one step of the value-level model |
| StrategyService.Service.Collect | src/ca_ztcf/strategies/ca_ztcf.py:22-74 | gathers the evidence in the source's order, each store mutated once, in place |
| StrategyService.Service.CheckProof | src/ca_ztcf/strategies/ca_ztcf.py:31-35 | verifies, records a success, counts a failure |
| StrategyService.Service.Prove | src/ca_ztcf/strategies/ca_ztcf.py:31-39 | fresh proof if one is presented, else the stored one, nothing for an unregistered device |
| StrategyService.Service.Move | src/ca_ztcf/strategies/ca_ztcf.py:41-44 | observes, then derives the context from the track just updated |
| StrategyService.Service.Attribute | src/ca_ztcf/strategies/ca_ztcf.py:46-48 | claims the address and counts a conflict |
| StrategyService.Service.Recent | src/ca_ztcf/strategies/ca_ztcf.py:66 | recency of the last transition |
| StrategyService.Service.ReadCounters | src/ca_ztcf/strategies/ca_ztcf.py:67-70 | both window counters, pruning them |
| StrategyService.Service.Judge | src/ca_ztcf/strategies/ca_ztcf.py:76-79 | predicates, rules, and the recorded outcome |
| Decisions.TrustFromHistory | src/ca_ztcf/strategies/ca_ztcf.py:22-82 | over every run, whatever other devices do: a request gets each of the six states exactly when the registry, the stores and the device's own history merit it, with all thresholds written out: registration and status; a live address of another device; moves and failed proofs counted in their windows, a foreign session, a missed posture constraint; a proof and a binding within their ages; a recent move. As long as the device names its instants in order |
| Decisions.StateMerited | src/ca_ztcf/strategies/ca_ztcf.py:22-82 | the same in any state of the system, from the counts gathered |
| Decisions.ContextFromHistory | src/ca_ztcf/strategies/ca_ztcf.py:41-44 | over every run, as long as the device named no later instant: a decision's context is the one that fits its moves, this request's included: NONE, REPEATED, or by the positions before and after the last move |
| Decisions.DecisionFollowsMatrix | src/ca_ztcf/policy/evaluator.py:37-52 | in any state, so after every run: the decision's action, lifetime, scope name and, pattern by pattern, its substituted allow and deny lists are the matrix's for its own state and context; it names the device, the request and the instant asked about |
| Decisions.DecisionsIsolateDevices | src/ca_ztcf/policy/evaluator.py:37-52 | over every run: what two decisions for different devices permit on their own account, topics or filters, has nothing in common, when the matrix names the device at one level in all patterns that are not shared |
| Decisions.FollowsConfines | src/ca_ztcf/policy/evaluator.py:37-52 | a decision under such a matrix permits only what has the device's id at that level or what a shared pattern accepts |
| Decisions.ProofServes | src/ca_ztcf/strategies/ca_ztcf.py:31-39 | over every run, the converse of what trust rests on: a verified proof serves its device at every later request up to its lifetime and at none after, as long as nothing replaces or invalidates it or asks for it too late |
| Decisions.ProofStaysStored | src/ca_ztcf/identity/proof.py:175-196 | until then the stored proof is that one |
| Decisions.GatheredProof | src/ca_ztcf/strategies/ca_ztcf.py:31-39 | the proof the evidence names: presented and verified now, nonce and signature included, or, none being presented, stored and within its lifetime |
| Decisions.GatheredBinding | src/ca_ztcf/collectors/base.py:244-260 | the binding the evidence names is live when claimed; it is taken over if nobody has it and inconsistent exactly when another device has |
| Decisions.SessionIsForeign | src/ca_ztcf/strategies/ca_ztcf.py:50-54 | a session is consistent exactly when absent, the device's own, or one of its sub-sessions, byte by byte |
| Decisions.ObservationMeans | src/ca_ztcf/strategies/ca_ztcf.py:41-44 | a decision observes the request's position at its instant, corroborated by the live binding of the claimed domain |
| Decisions.CountedMoves | src/ca_ztcf/collectors/transition.py:303-309 | the count behind C8 is the number of moves in the window |
| Decisions.ConflictsCounted | src/ca_ztcf/evidence/counters.py:36-42 | over every run a device's conflict counter is the number of its decisions at addresses taken by others |
| Moves.EventsAreMoves | src/ca_ztcf/collectors/transition.py:176-271 | over every run, in any order of times: the accepted events are exactly the moves among the observations, one for each, in order, and each says where, when, from where, since when and on what evidence |
| Moves.ContextFits | src/ca_ztcf/collectors/transition.py:319-333 | over every run, asked no earlier than any call so far: NONE iff no move is recent; REPEATED iff one is and the moves in the window reach the threshold; otherwise NR_TO_WLAN, WLAN_TO_NR or INTRA by the positions before and after the last move |
| Moves.RunStands | src/ca_ztcf/collectors/transition.py:188-271 | in every run the track's position and time are those of the last observation that no earlier one outdates |
| Moves.VerdictMeans | src/ca_ztcf/collectors/transition.py:188-232 | each verdict, from the observations alone |
| Moves.ReportMeans | src/ca_ztcf/collectors/transition.py:165-271 | what observe returns: the event of a move, nothing for a confirmation, the last event for a rejected observation |
| Moves.RunTallies | src/ca_ztcf/collectors/transition.py:335-343 | over every run the anomaly counters count the stale and the repeated observations and the moves without evidence |
| Moves.TimesAreMoves | src/ca_ztcf/collectors/transition.py:255-271 | the times of the accepted events are those of the moves |
| Rates.RateOkIff | src/ca_ztcf/evidence/predicates.py:227-236 | over any run, whatever instants other devices name: C8 fails iff the transitions accepted from the device in the window ending with its request exceed the limit, as long as the device itself named no later instant |
| Rates.FailuresOkIff | src/ca_ztcf/evidence/predicates.py:238-249 | over any run, whatever instants other devices name: C9 fails iff the device's failed proofs in the window ending with its request, this one's included, exceed the limit, as long as the device names its instants in order |
| Rates.ReportedFailures | src/ca_ztcf/strategies/ca_ztcf.py:69 | the count behind C9 is the window's iff nothing older is left behind a younger failure, as long as the device named no later instant |
| Rates.CountedIsWindow | src/ca_ztcf/strategies/ca_ztcf.py:66-68 | the count behind C8 is the window's in every run whose deque is exactly the window then |
| Rates.TrackIsRun | src/ca_ztcf/strategies/ca_ztcf.py:41-44 | in every run of the system a device's track is that of its own decisions since its last reset |
| Rates.BucketsHold | src/ca_ztcf/strategies/ca_ztcf.py:31-35 | in every run of the system a device's failure bucket is what its own failed proofs and requests leave |
| StaticContinuity.GrantsAreFarApart | src/ca_ztcf/strategies/static_continuity.py:71-86 | two tokens granted to one device, with no clear in between and request times not going back, are more than the token lifetime apart |
| StaticContinuity.HonouredUntilExpiry | src/ca_ztcf/strategies/static_continuity.py:35-36 | a granted token is honoured at the device's later requests exactly up to and including its expiry |
| StaticContinuity.TokenStands | src/ca_ztcf/strategies/static_continuity.py:71-86 | until a clear or a request past its expiry, a granted token stays in the table unchanged |
| StaticContinuity.StableIsBacked | src/ca_ztcf/strategies/static_continuity.py:108-132 | every STABLE decision traces back to a proof the device presented at most a token lifetime plus a proof lifetime ago |
| StaticContinuity.TokenSource | src/ca_ztcf/strategies/static_continuity.py:128-132 | every token in a reachable table was granted by a request of its device, with that request's expiry |
| StaticContinuity.ProofSource | src/ca_ztcf/strategies/static_continuity.py:108-114 | every stored proof was presented in a request that was granted a token |
| StaticContinuity.AccessIsIgnored | src/ca_ztcf/strategies/static_continuity.py:61-86 | position, bindings, conflicts and transition history play no part in the decision |
| StaticContinuity.DecisionMeans | src/ca_ztcf/strategies/static_continuity.py:58-143 | in any state of services and tokens: STABLE with an unexpired token or, registered and active, a proof that counts; UNKNOWN, UNTRUSTED and DEGRADED by which of these fails first; context NONE; the rest is the matrix's for the two, for this device, at the clock's instant |
| StaticContinuity.TokenOutlivesConflict | src/ca_ztcf/strategies/static_continuity.py:3-10 | where another device owns the live address, a held token still gives STABLE while CA-ZTCF gives UNKNOWN or UNTRUSTED |
| StaticContinuity.TokenStrategy.constructor | src/ca_ztcf/strategies/static_continuity.py:44-46 | no tokens at first |
| StaticContinuity.TokenStrategy.ClearTokens | src/ca_ztcf/strategies/static_continuity.py:55-56 | forgets every token |
| StaticContinuity.TokenStrategy.Observe | src/ca_ztcf/strategies/static_continuity.py:64-68 | the observation made for parity, on the shared collector |
| StaticContinuity.TokenStrategy.Admission | src/ca_ztcf/strategies/static_continuity.py:85-132 | registered, active and proved in that order, else no token |
| StaticContinuity.TokenStrategy.Decide | src/ca_ztcf/strategies/static_continuity.py:58-143 | in place: tokens, services and decision are those of one step of the value-level model |
| Transitions.WindowIsExact | src/ca_ztcf/collectors/transition.py:303-309 | with q no earlier than any call so far, in whatever order those came, rejected ones included, the pruned deque is exactly the accepted transitions of the closed window and its length their number |
| Transitions.WindowIsExactIff | src/ca_ztcf/collectors/transition.py:303-309 | for every run, in any order of times: a query at q finds exactly its window iff no accepted time of the window was passed by a later pruning call and every accepted time after q was |
| Transitions.RetainedIff | src/ca_ztcf/collectors/transition.py:355-358 | for every run, in any order of times: an accepted time is still in the deque iff no later accepted offer, count or recent context query has a window that begins after it |
| Transitions.EventCountIsExactIff | src/ca_ztcf/collectors/transition.py:229-255 | an event carries the exact count of its own instant, itself included, iff no earlier query about a later instant has cut a time of its window |
| Transitions.FutureQueryLoses | src/ca_ztcf/collectors/transition.py:303-309 | a concrete run: after a query about a future instant a later one counts 0 transitions where there was 1 |
| Transitions.PastQueryCountsAhead | src/ca_ztcf/collectors/transition.py:303-309 | a concrete run: a query about a past instant counts a transition that lies after it |
| Transitions.HistoryIsDeque | src/ca_ztcf/collectors/transition.py:188-231 | the deque of every run is what its accepted offers and pruning queries leave, rejected offers leaving no trace |
| Transitions.EventCountIsExact | src/ca_ztcf/collectors/transition.py:229-255 | an event carries the exact count of its own instant whenever no query so far was about a later one |
| Transitions.EveryRun | src/ca_ztcf/collectors/transition.py:176-271 | in every reachable track the deque is a sorted suffix of the accepted times, the dictionary is the last events with consecutive sequence numbers, events chain, and the device is in its first domain iff it crossed an even number of times |
| Transitions.HistoryRetains | src/ca_ztcf/collectors/transition.py:355-358 | whatever has been pruned is older than the window of any call that is no earlier than all calls so far |
| Transitions.RemembersStep | src/ca_ztcf/collectors/transition.py:229-271 | one offer extends the unbounded history and its bounded tail together |
| Transitions.LocatedStep | src/ca_ztcf/collectors/transition.py:210-263 | one offer keeps the chaining of events and the parity of crossings |
| Transitions.TimedStep | src/ca_ztcf/collectors/transition.py:188-231 | rejected offers never move time; accepted ones keep the deque sorted |
| Collector.EveryReachableState | src/ca_ztcf/collectors/transition.py:141-358 | in every reachable state the global index is exactly the disjoint union of the per-device dictionaries, and every track has all the properties above |
| Collector.IndexReachable | src/ca_ztcf/collectors/transition.py:264-271 | the index property over any run whose identifiers are fresh when drawn |
| Collector.ObserveKeepsIndex | src/ca_ztcf/collectors/transition.py:264-271 | acceptance and eviction keep the index the union of the dictionaries |
| Collector.ResetKeepsIndex | src/ca_ztcf/collectors/transition.py:345-353 | so does resetting one device |
| Collector.DevicesAreIndependent | src/ca_ztcf/collectors/transition.py:141-161 | a device's track is a function of the operations on that device since its last reset |
| Collector.DeviceTrack.constructor | src/ca_ztcf/collectors/transition.py:128-138 | a fresh track |
| Collector.DeviceTrack.PruneHistory | src/ca_ztcf/collectors/transition.py:355-358 | the popleft loop leaves what is not before the cutoff, in place |
| Collector.TransitionCollector.constructor | src/ca_ztcf/collectors/transition.py:144-161 | no tracks, empty index |
| Collector.TransitionCollector.Corroborate | src/ca_ztcf/collectors/transition.py:273-282 | evidence only from a live binding in the claimed domain |
| Collector.TransitionCollector.TrackFor | src/ca_ztcf/collectors/transition.py:186 | an existing track or a fresh one, shared with no other device |
| Collector.TransitionCollector.ObserveDetailed | src/ca_ztcf/collectors/transition.py:176-271 | in place: verdict, reported event and the whole new state, no other device's track touched |
| Collector.TransitionCollector.OfferTo | src/ca_ztcf/collectors/transition.py:188-271 | the four verdicts and what each changes |
| Collector.TransitionCollector.Accept | src/ca_ztcf/collectors/transition.py:229-271 | prune, append, number, corroborate, remember |
| Collector.TransitionCollector.Remember | src/ca_ztcf/collectors/transition.py:265-270 | insertion in both dictionaries and eviction of the oldest from both |
| Collector.TransitionCollector.TransitionsInWindow | src/ca_ztcf/collectors/transition.py:303-309 | prunes one track and counts it |
| Collector.TransitionCollector.LastTransition | src/ca_ztcf/collectors/transition.py:296-298 | the last accepted event |
| Collector.TransitionCollector.IsTransitionRecent | src/ca_ztcf/collectors/transition.py:311-317 | recency against the transition window |
| Collector.TransitionCollector.ContextOf | src/ca_ztcf/collectors/transition.py:319-333 | REPEATED before direction, and the prune it performs |
| Collector.TransitionCollector.ResetOne | src/ca_ztcf/collectors/transition.py:345-353 | forgets one device in both structures |
| Collector.TransitionCollector.ResetEverything | src/ca_ztcf/collectors/transition.py:345-353 | forgets all |
| Window.PopExpired | src/ca_ztcf/evidence/counters.py:52-55 | the pruning loop |
| WindowRuns.KeptIffStanding | src/ca_ztcf/collectors/transition.py:355-358 | over any run that adds in order: an instant is still in the deque iff no later call's window began after it |
| WindowRuns.ExactIff | src/ca_ztcf/collectors/transition.py:303-309 | a query at q finds exactly its window iff none of it was cut by a later call and every instant after q was |
| WindowRuns.ExactCounts | src/ca_ztcf/collectors/transition.py:303-309 | and then the length is the window's count |
| WindowRuns.LateCountIff | src/ca_ztcf/evidence/counters.py:23-34 | instants added in any order: a call no earlier than those before it counts its window iff nothing older is left in the deque behind a younger instant |
| WindowRuns.LateCount | src/ca_ztcf/evidence/counters.py:23-34 | added in order, it always does |
| WindowRuns.OutOfOrder | src/ca_ztcf/evidence/counters.py:52-55 | added out of order it need not: at 12, in a window of 3, 10 and then 5 count as 2 |
| WindowRuns.CountIffNoneLost | src/ca_ztcf/collectors/transition.py:229-255 | a query no earlier than any instant added counts its window iff none of it was cut |
| Bindings.AttributionEnds | src/ca_ztcf/collectors/base.py:220-279 | an attribution survives an event exactly when the event is not a release, a clear, an upsert from the other domain, or an upsert naming another device |
| Bindings.AttributionPersists | src/ca_ztcf/collectors/base.py:220-279 | over any sequence of other events, expiry and refreshes included, it survives |
| Bindings.ConflictingClaim | src/ca_ztcf/collectors/base.py:244-260 | another device's claim changes nothing, and is inconsistent exactly while the binding is live |
| Bindings.RefreshRestoresAttribution | src/ca_ztcf/collectors/base.py:220-242 | a refresh by the same domain revives an expired binding with its owner |
| Bindings.Lineage | src/ca_ztcf/collectors/base.py:220-234 | over any run of refreshes and claims a binding keeps identifier, domain and first sighting, and its last sighting, expiry and attributes are those of the last report |
| Bindings.HandoverReplaces | src/ca_ztcf/collectors/base.py:220-234 | a report from the other domain replaces the binding and touches no other |
| Bindings.BindingStore.constructor | src/ca_ztcf/collectors/base.py:216-218 | an empty store |
| Bindings.BindingStore.Put | src/ca_ztcf/collectors/base.py:220-234 | same-domain upserts keep identifier, first sighting and attribution |
| Bindings.BindingStore.Get | src/ca_ztcf/collectors/base.py:236-242 | expired bindings read as absent but stay |
| Bindings.BindingStore.Attribute | src/ca_ztcf/collectors/base.py:244-260 | first claim attributes, later ones compare |
| Bindings.BindingStore.DomainFor | src/ca_ztcf/collectors/base.py:262-270 | the domain of the live binding |
| Bindings.BindingStore.Release | src/ca_ztcf/collectors/base.py:272-273 | removes one address only |
| Bindings.BindingStore.Clear | src/ca_ztcf/collectors/base.py:278-279 | removes all |
| Identity.NonceIssuer.constructor | src/ca_ztcf/identity/proof.py:58-62 | nothing issued |
| Identity.NonceIssuer.Issue | src/ca_ztcf/identity/proof.py:64-71 | records the nonce and purges expired ones; the table still tracks the log |
| Identity.NonceIssuer.Consume | src/ca_ztcf/identity/proof.py:73-83 | with no nonce issued at a later instant, accepted iff issued to this device, not tried since, and unexpired, despite purging; gone after any try |
| Identity.NonceIsSingleUse | src/ca_ztcf/identity/proof.py:73-83 | once tried, a nonce is not outstanding again unless the same token is issued again |
| Identity.LookupIsLog | src/ca_ztcf/identity/proof.py:85-88 | purging is invisible to acceptance |
| Identity.Verify | src/ca_ztcf/identity/proof.py:102-153 | valid only if the nonce was issued to the identity, not tried since, and is unexpired when consumed; with no nonce issued later, valid iff so and the proof names the identity and the signature holds; a proof for another device consumes no nonce, any other try does |
| Identity.VerifyMeans | src/ca_ztcf/identity/proof.py:102-153 | valid iff the table holds the nonce for the device, unexpired, and the signature holds; the result speaks for the device asked about, at the verifier's time |
| Identity.ReasonMeans | src/ca_ztcf/identity/proof.py:102-150 | the reason given is the first thing wrong with the proof |
| Identity.VerifiesIsLog | src/ca_ztcf/identity/proof.py:73-88 | the same in terms of what was issued and tried, purging being invisible |
| Identity.VerifiesUsable | src/ca_ztcf/identity/proof.py:73-88 | whatever the clocks do, purging never makes a nonce valid |
| Identity.ProofStore.constructor | src/ca_ztcf/identity/proof.py:170-173 | nothing verified |
| Identity.ProofStore.Remember | src/ca_ztcf/identity/proof.py:175-178 | only successes are retained |
| Identity.ProofStore.Get | src/ca_ztcf/identity/proof.py:180-189 | with queries for that device not going back in time, returns its latest success exactly while it is within its lifetime, despite lazy deletion |
| Identity.ProofStore.Invalidate | src/ca_ztcf/identity/proof.py:191-193 | forgets one device's proof |
| Identity.StoreStep | src/ca_ztcf/identity/proof.py:175-196 | every event keeps every device's entry the latest success or discards it for good reason |
| Counters.SecurityCounters.constructor | src/ca_ztcf/evidence/counters.py:18-21 | no failures |
| Counters.SecurityCounters.RecordAuthnFailure | src/ca_ztcf/evidence/counters.py:23-27 | appends and prunes one bucket; as long as that device has named no later instant, whatever others named, the count returned is the window's iff nothing older is left behind a younger failure, so always when the device's failures came in order |
| Counters.SecurityCounters.AuthnFailures | src/ca_ztcf/evidence/counters.py:29-34 | prunes and counts one bucket, with the same meaning of the count |
| Counters.SecurityCounters.RecordIdentityConflict | src/ca_ztcf/evidence/counters.py:36-39 | one more conflict for one device |
| Counters.OperationHolds | src/ca_ztcf/evidence/counters.py:15-55 | any operation, at whatever instant, keeps every device's bucket what its own events leave |
| Counters.ReportIsWindow | src/ca_ztcf/evidence/counters.py:23-34 | what the reported number means, in terms of the device's own events |
| Trust.StateOfMeans | src/ca_ztcf/trust_engine/engine.py:68-116 | the six ordered rules partition the predicate vectors: a state is derived iff its order-free meaning holds |
| Trust.DerivedStateMeans | src/ca_ztcf/evidence/assembler.py:106-384 | evidence, predicates and rules together: each state from the gathered inputs alone, ages and limits written out; a missed posture constraint makes an identified device SUSPICIOUS whatever else holds |
| Trust.PostureMeans | src/ca_ztcf/evidence/assembler.py:54-96 | a binding is accepted iff every nonempty allow-list of its domain holds its attribute at some index and every demanded flag reads "true"; otherwise the first constraint missed gives the reason, and unauthorized is set iff it is a list |
| Trust.EvaluateRules | src/ca_ztcf/trust_engine/engine.py:130-161 | the loop returns the first matching rule's state |
| Trust.BetterEvidenceNeverHurts | src/ca_ztcf/evidence/assembler.py:106-384 | with the presence of a binding fixed, no improvement of any evidence worsens the state |
| Trust.GainingABinding | src/ca_ztcf/evidence/assembler.py:54-96 | gaining a binding worsens the state exactly when the device was DEGRADED and the binding fails posture |
| Trust.NoBindingIsAtMostDegraded | src/ca_ztcf/evidence/predicates.py:123-275 | without a binding the state is DEGRADED at best |
| Trust.TrustStateManager.constructor | src/ca_ztcf/trust_engine/engine.py:167-171 | no state for any device |
| Trust.TrustStateManager.Record | src/ca_ztcf/trust_engine/engine.py:176-186 | the current state, the start of its unbroken stretch and the bounded history stay those of the log, for every device |
| Policy.ScopeVerdictOf | src/ca_ztcf/enforcement/mqtt_gateway.py:162-170 | allowed iff no deny pattern matches and some allow pattern does; a deny names a matching pattern |
| Policy.FirstMatchIsFirst | src/ca_ztcf/enforcement/mqtt_gateway.py:162-170 | the pattern named is the first that matches |
| Policy.FindMatch | src/ca_ztcf/enforcement/mqtt_gateway.py:162-170 | the scan returns the first matching pattern |
| Policy.EvaluateScope | src/ca_ztcf/enforcement/mqtt_gateway.py:162-170 | deny wins, then allow, default deny |
| Topics.TopicMatchesIsCover | src/ca_ztcf/enforcement/interface.py:37-58 | the early-return scan decides the level-by-level relation of section 4.7.1 of MQTT 3.1.1 |
| Topics.GrantContainment | src/ca_ztcf/enforcement/mqtt_gateway.py:498-509 | over every byte string the wire may carry as a topic: a pattern that accepts a filter as the gateway tests it contains it iff the filter selects nothing, or its final # is not under a +, or the two are +/# and # |
| TopicNames.GrantContainsNames | src/ca_ztcf/enforcement/mqtt_gateway.py:498-509 | over the topic names sections 4.7.1 and 4.7.3 of MQTT 3.1.1 allow: such a pattern contains the filter iff the filter is not well formed, or its final # is not under a +, or the pattern goes on with # after that + and the filter is # or /# |
| Topics.PlusAcceptsHash | src/ca_ztcf/enforcement/interface.py:37-58 | a/+ accepts the filter a/#, which also selects a |
| Topics.SplitOfReplace | src/ca_ztcf/policy/models.py:58-65 | splitting a resolved pattern is resolving each level of the split one |
| Topics.ReplaceLeftmost | src/ca_ztcf/policy/models.py:58-65 | the leftmost placeholder is replaced first and the scan goes on behind it |
| Topics.ReplaceNothing | src/ca_ztcf/policy/models.py:58-65 | without a placeholder nothing changes |
| Topics.DevicesAreDisjoint | src/ca_ztcf/policy/models.py:58-65 | patterns naming the device at the same level never match one topic for two devices of the registry's charset |
| Topics.ScopesIsolateDevices | src/ca_ztcf/policy/models.py:48-65 | no topic is permitted to two devices by scopes whose allow patterns all name the device at one level |
| Topics.PermittedLevelIsId | src/ca_ztcf/policy/models.py:48-65 | whatever such a scope permits, topic or filter, has the device's id at that level |
| Topics.PermittedLevelOrShared | src/ca_ztcf/policy/models.py:48-65 | with shared patterns allowed: whatever such a scope permits has the device's id at the level or is accepted by a shared pattern |
| Topics.LevelsApart | src/ca_ztcf/enforcement/interface.py:37-58 | topics and filters with different ids at one level are different, neither selects the other, and no topic is selected by both |
| Topics.FiltersIsolateDevices | src/ca_ztcf/enforcement/mqtt_gateway.py:498-509 | isolation survives every granted filter: no topic a filter permitted to one device selects is permitted to another, or selected by a filter that is |
| Topics.IdIsConcrete | src/ca_ztcf/identity/models.py:61-67 | an accepted device id is a single topic level and neither wildcard |
| Topics.CharsetIs | src/ca_ztcf/identity/models.py:59-67 | the registry's alphabet, character by character |
| Matrix.Lookup | src/ca_ztcf/policy/matrix.py:151-169 | the rule loop |
| Matrix.FirstRuleDecides | src/ca_ztcf/policy/matrix.py:151-169 | the first matching rule decides, the default only where there is none |
| Matrix.AnswersAlwaysIff | src/ca_ztcf/config.py:254-272 | a validated matrix answers every state and context exactly when its rules cover them all or its default action has a lifetime, which validation does not check |
| Matrix.ScopesNameDevices | src/ca_ztcf/config.py:254-272 | configured scopes that name the device at one level, shared patterns aside, make a matrix that does |
| Isolation.SessionsAreIsolated | src/ca_ztcf/enforcement/mqtt_gateway.py:457-523 | end to end, over any runs of two devices' sessions, whatever their clients send: what one gets through to the broker on its own account is not and does not select what the other does, and no topic is selected by filters of both |
| Isolation.SessionSpeaksForItself | src/ca_ztcf/enforcement/mqtt_gateway.py:457-523 | over every run of a session, every such topic or filter has the device's id at the level |
| Isolation.DecisionsServe | src/ca_ztcf/policy/evaluator.py:37-52 | a service that decides as CA-ZTCF does meets what the isolation of sessions asks of it |
| Codec.EncodeRemainingLength | src/ca_ztcf/enforcement/mqtt_codec.py:72-85 | the loop emits the minimal digits, or refuses a value out of range |
| Codec.DecodeRemainingLength | src/ca_ztcf/enforcement/mqtt_codec.py:88-103 | the running-multiplier loop computes the positional value, the bytes consumed, or the error |
| Codec.DecodeOfEncode | src/ca_ztcf/enforcement/mqtt_codec.py:72-103 | decoding inverts encoding, whatever follows |
| Codec.EncodingIsMinimal | src/ca_ztcf/enforcement/mqtt_codec.py:72-103 | no other sequence of as few bytes decodes to the value, and nothing decodes out of range |
| Codec.VarIntLength | src/ca_ztcf/enforcement/mqtt_codec.py:72-85 | the encoding's length by range: one byte per seven bits |
| Wire.LengthMeans | src/ca_ztcf/enforcement/mqtt_codec.py:88-103 | what bytes spell a remaining length, digit by digit, and when the scan is truncated or malformed |
| Wire.PacketLayout | src/ca_ztcf/enforcement/mqtt_codec.py:321-323 | the first byte is the type's number in the standard and the flags; then the length in as few bytes as it takes; then the payload |
| Wire.FrameMeans | src/ca_ztcf/enforcement/mqtt_stream.py:28-68 | a packet is read exactly where the input begins with one; otherwise the length is cut off or runs over four bytes, the payload is cut off, or the type is none |
| Wire.CodeIs | src/ca_ztcf/enforcement/mqtt_codec.py:24-40 | the packet types have the standard's numbers |
| Wire.FieldMeans | src/ca_ztcf/enforcement/mqtt_codec.py:113-135 | a field is read exactly where two bytes, most significant first, count the bytes behind them; as a string if those are UTF-8 |
| Wire.FieldErrors | src/ca_ztcf/enforcement/mqtt_codec.py:113-135 | which error a field that cannot be read gives |
| Wire.SubscribeErrors | src/ca_ztcf/enforcement/mqtt_codec.py:280-294 | too short, or without a filter |
| Wire.PublishErrors | src/ca_ztcf/enforcement/mqtt_codec.py:262-277 | no identifier where the QoS asks for one, or the topic's own error |
| Wire.ConnectErrors | src/ca_ztcf/enforcement/mqtt_codec.py:223-259 | too short behind the protocol name, or the name's own error |
| Wire.PublishLayout | src/ca_ztcf/enforcement/mqtt_codec.py:351-361 | topic, identifier if there is a QoS, message; QoS in bits 1 and 2, retain in bit 0 |
| Wire.PublishFlagsRead | src/ca_ztcf/enforcement/mqtt_codec.py:152-163 | the flags as read back, the duplicate flag in bit 3 |
| Wire.ConnectLayout | src/ca_ztcf/enforcement/mqtt_codec.py:364-392 | name, level 4, flags, keep-alive and the fields announced |
| Wire.ConnectReads | src/ca_ztcf/enforcement/mqtt_codec.py:223-259 | any CONNECT, with or without a will, decodes to the fields its flags announce, in order |
| Wire.SubscribeLayout | src/ca_ztcf/enforcement/mqtt_codec.py:280-294 | identifier, then each filter and its QoS in order |
| Wire.Utf8Means | src/ca_ztcf/enforcement/mqtt_codec.py:124-132 | accepted text is exactly the encodings of sequences of Unicode scalar values |
| Codec.PublishRoundTrip | src/ca_ztcf/enforcement/mqtt_codec.py:262-361 | decode_publish inverts build_publish for qos 0 to 3 |
| Codec.ConnectRoundTrip | src/ca_ztcf/enforcement/mqtt_codec.py:223-387 | decode_connect inverts build_connect, credentials and flags included |
| Codec.SubscribeRoundTrip | src/ca_ztcf/enforcement/mqtt_codec.py:280-294 | decode_subscribe inverts the narrowed SUBSCRIBE body |
| Codec.ReadEntries | src/ca_ztcf/enforcement/mqtt_codec.py:280-294 | the entry loop reads the entries or fails |
| Codec.DecodeSubscribe | src/ca_ztcf/enforcement/mqtt_codec.py:280-294 | packet identifier, then at least one entry, or the error |
| Codec.DecodedEntries | src/ca_ztcf/enforcement/mqtt_codec.py:280-294 | decoded entries are encodable and take no more room than the payload |
| Stream.StreamRoundTrip | src/ca_ztcf/enforcement/mqtt_stream.py:28-70 | reading the concatenation of built packets returns those packets in order and then end of stream |
| Stream.RawIsThePrefix | src/ca_ztcf/enforcement/mqtt_stream.py:28-70 | for any input the raw bytes of the packets read are the input up to where reading stopped, and each frames itself again |
| Stream.RawFramesItself | src/ca_ztcf/enforcement/mqtt_stream.py:28-70 | a packet's raw bytes are one whole frame, the prefix it was read from, and frame to that packet again |
| Stream.FrameIgnoresRest | src/ca_ztcf/enforcement/mqtt_stream.py:28-70 | whatever follows a packet does not change how it frames |
| Stream.BuiltPacketFrames | src/ca_ztcf/enforcement/mqtt_codec.py:321-323 | what build_packet writes is read back as that packet, whatever follows |
| Stream.ScanStep | src/ca_ztcf/enforcement/mqtt_stream.py:35-51 | the reader's inlined length scan steps as decode_remaining_length does |
| Stream.PacketReader.constructor | src/ca_ztcf/enforcement/mqtt_stream.py:23-26 | nothing read yet |
| Stream.PacketReader.ReadByte | src/ca_ztcf/enforcement/mqtt_stream.py:30-32 | one byte or the end of the stream |
| Stream.PacketReader.ReadRemainingLength | src/ca_ztcf/enforcement/mqtt_stream.py:35-51 | the inlined loop returns what decode_remaining_length would, and its digits |
| Stream.PacketReader.ReadPacket | src/ca_ztcf/enforcement/mqtt_stream.py:28-69 | consumes exactly the frame at the head of the stream, or ends as the framing does; both counters advance by what was read |
| Stream.CountingWriter.constructor | src/ca_ztcf/enforcement/mqtt_stream.py:75-78 | nothing written |
| Stream.CountingWriter.Write | src/ca_ztcf/enforcement/mqtt_stream.py:80-84 | appends and counts |
| GatewayRuns.RunKeeps | src/ca_ztcf/enforcement/mqtt_gateway.py:424-562 | for every packet sequence and decision service, ended or not: the PUBLISHes and SUBSCRIBEs the broker gets are the client's, in order, a PUBLISH byte for byte and off the step-up topic, a SUBSCRIBE with exactly its permitted filters; each under the decision in force when the run reached it, shown unexpired by the next clock reading or given by the service for it; the decision in force is always the one the session started with or the service's last answer; and the counters are those of the packets handled |
| GatewayRuns.RunDelivers | src/ca_ztcf/enforcement/mqtt_gateway.py:447-533 | the other half: of the packets handled the broker has got exactly what it is owed, in order: every judged PUBLISH and every SUBSCRIBE with a filter permitted by the decision current for it, every PINGREQ, PUBACK, PUBREC, PUBREL, PUBCOMP and UNSUBSCRIBE unchanged; the denied counters are exactly the unpermitted PUBLISHes and filters; the pass that ends the session sends at most the DISCONNECT |
| GatewayRuns.StepDelivers | src/ca_ztcf/enforcement/mqtt_gateway.py:447-533 | one surviving pass sends exactly what it owes |
| Replies.RunGoverns | src/ca_ztcf/enforcement/mqtt_gateway.py:419-557 | over every run: a packet that needs judging asks the service exactly when the decision in force has no lifetime or is older than 1000 ttl_ms microseconds at the next clock reading; the session ends exactly when, and for the reason for which, the packet, the service's answer or a refusing action makes it; every relay on a clock reading is within its decision's lifetime |
| Replies.RunAnswers | src/ca_ztcf/enforcement/mqtt_gateway.py:455-523 | over every run, ended or not: the client has been sent exactly what it is owed, in order, each framing to one packet: a PUBACK with the identifier of each dropped QoS 1 PUBLISH and each QoS 1 step-up response; for each SUBSCRIBE with a refused filter a SUBACK with its identifier and, filter by filter, the QoS asked for or 0x80; the announcement PUBLISH of each step-up decision. Device ids are UTF-8 text |
| Replies.ClientReadsAnswers | src/ca_ztcf/enforcement/mqtt_gateway.py:419-523 | both from the client's bytes, and how the session ends with the client's stream when nothing ended it before |
| Replies.RunCountsStepUps | src/ca_ztcf/enforcement/mqtt_gateway.py:610-645 | in every run a step-up success is a decision that neither asks again nor refuses; a failure any other, or an unreadable response |
| Replies.StepGoverns | src/ca_ztcf/enforcement/mqtt_gateway.py:419-557 | one pass: when it asks and how it ends the session |
| Replies.StepAnswers | src/ca_ztcf/enforcement/mqtt_gateway.py:455-523 | one pass: what it writes to the client |
| Replies.SubackConveys | src/ca_ztcf/enforcement/mqtt_codec.py:335-336 | the SUBACK's bytes: identifier, then QoS or 0x80 for each filter |
| Replies.PubackConveys | src/ca_ztcf/enforcement/mqtt_codec.py:331-332 | the PUBACK's bytes |
| Replies.AnnouncementConveys | src/ca_ztcf/enforcement/mqtt_gateway.py:582-608 | the announcement frames to a PUBLISH on the device's control topic, or does not fit a packet and ends the session |
| Replies.RefreshInTime | src/ca_ztcf/enforcement/mqtt_gateway.py:403-406 | the refresh asks exactly when the decision in force is out of time |
| GatewayRuns.BrokerReceivesOnlyJustified | src/ca_ztcf/enforcement/mqtt_gateway.py:436-537 | both halves end to end, from the client's bytes to what the broker frames out of the bytes it receives |
| GatewayRuns.RefusalIsFinal | src/ca_ztcf/enforcement/mqtt_gateway.py:461-494 | once the decision in force is a refusing one the session is over for good and nothing was written to the broker since the last pass under another decision |
| GatewayRuns.StepHasEffect | src/ca_ztcf/enforcement/mqtt_gateway.py:442-537 | one pass: what may reach the broker and why, how the decision may change, what is counted, also by the pass that ends the session |
| GatewayRuns.RefreshEffect | src/ca_ztcf/enforcement/mqtt_gateway.py:539-557 | the result is the decision in force shown unexpired by one new clock reading, or the service's next answer |
| GatewayRuns.HandledAlive | src/ca_ztcf/enforcement/mqtt_gateway.py:436-537 | the session is alive after the packets counted as handled, and the next packet ended it for good |
| GatewayRuns.RunStopped | src/ca_ztcf/enforcement/mqtt_gateway.py:436-537 | after the loop has ended further packets change nothing |
| GatewayRuns.GrantedExactly | src/ca_ztcf/enforcement/mqtt_gateway.py:496-507 | the granted filters are the requested ones the scope permits, each as often as requested |
| GatewayRuns.BrokerSees | src/ca_ztcf/enforcement/mqtt_gateway.py:436-535 | the broker frames exactly the packets the loop wrote |
| ClientLoop.Pump | src/ca_ztcf/enforcement/mqtt_gateway.py:410-422 | left to run, relays the broker's packets verbatim, all of them in order, and every byte when the stream ends cleanly; both counters add up to the whole stream |
| Gateway.SubscribeOutcome | src/ca_ztcf/enforcement/mqtt_gateway.py:496-523 | what goes upstream decodes to exactly the permitted filters; the loop's own SUBACK is written iff some filter is refused and has one code per filter in order |
| Gateway.GrantedIsNoLonger | src/ca_ztcf/enforcement/mqtt_gateway.py:512-517 | the narrowed body is never longer than the original, so building it cannot fail |
| Gateway.UpstreamConnectCarriesNoCredential | src/ca_ztcf/enforcement/mqtt_gateway.py:309-316 | the upstream CONNECT decodes to the client's id, keep-alive and clean-session flag, device as user name, no password, no will |
| ClientLoop.NextPacket | src/ca_ztcf/enforcement/mqtt_stream.py:28-69 | reading one packet takes the head of the packets the stream holds |
| ClientLoop.Connection.constructor | src/ca_ztcf/enforcement/mqtt_gateway.py:424-434 | a session with nothing relayed and all counters 0 |
| ClientLoop.Connection.RequestDecision | src/ca_ztcf/enforcement/mqtt_gateway.py:375-401 | asks the service, counts, or fails the session |
| ClientLoop.Connection.RefreshIfNeeded | src/ca_ztcf/enforcement/mqtt_gateway.py:539-557 | re-decides exactly when the decision in force has expired |
| ClientLoop.Connection.AnnounceDecision | src/ca_ztcf/enforcement/mqtt_gateway.py:582-610 | writes the announcement to the client |
| ClientLoop.Connection.HandleStepUpResponse | src/ca_ztcf/enforcement/mqtt_gateway.py:612-645 | an unreadable proof changes nothing but the failure count, JSON that is no object ends the session, a readable proof replaces the decision |
| ClientLoop.Connection.HandleResponse | src/ca_ztcf/enforcement/mqtt_gateway.py:455-464 | answer, acknowledge, and stop on a refusal |
| ClientLoop.Connection.HandlePublish | src/ca_ztcf/enforcement/mqtt_gateway.py:452-485 | refresh, stop on a refusal, else judge |
| ClientLoop.Connection.JudgePublish | src/ca_ztcf/enforcement/mqtt_gateway.py:473-485 | relay the packet as it came, or drop it and acknowledge a QoS 1 publish |
| ClientLoop.Connection.JudgeFilters | src/ca_ztcf/enforcement/mqtt_gateway.py:496-507 | granted filters, codes and both counters, filter by filter |
| ClientLoop.Connection.BuildNarrowedBody | src/ca_ztcf/enforcement/mqtt_gateway.py:512-514 | the body loop concatenates the granted entries |
| ClientLoop.Connection.ReplySuback | src/ca_ztcf/enforcement/mqtt_gateway.py:509-523 | the loop's own SUBACK |
| ClientLoop.Connection.ForwardNarrowed | src/ca_ztcf/enforcement/mqtt_gateway.py:509-517 | the narrowed SUBSCRIBE upstream |
| ClientLoop.Connection.ApplySubscription | src/ca_ztcf/enforcement/mqtt_gateway.py:496-523 | judging, narrowing and answering one SUBSCRIBE |
| ClientLoop.Connection.HandleSubscribe | src/ca_ztcf/enforcement/mqtt_gateway.py:487-524 | decode, refresh, stop on a refusal, else apply |
| ClientLoop.Connection.HandlePacket | src/ca_ztcf/enforcement/mqtt_gateway.py:442-537 | dispatch on the packet type |
| ClientLoop.Connection.Serve | src/ca_ztcf/enforcement/mqtt_gateway.py:424-537 | in place over reader and writers: the session ends as the run of the value-level model over the packets of the input does, and the reader took those packets and no more, its counters saying so: all bytes of the input when every packet was read and the stream ended cleanly |
| MemoryPep.Pep.constructor | src/ca_ztcf/enforcement/memory_pep.py:25-31 | no decisions |
| MemoryPep.Pep.Apply | src/ca_ztcf/enforcement/memory_pep.py:35-43 | a terminating decision removes the grant, any other replaces it |
| MemoryPep.Pep.Revoke | src/ca_ztcf/enforcement/memory_pep.py:54-55 | removes the grant, keeps the last decision |
| MemoryPep.Pep.Reset | src/ca_ztcf/enforcement/memory_pep.py:57-59 | forgets everything |
| MemoryPep.Pep.ActiveDecision | src/ca_ztcf/enforcement/memory_pep.py:45-52 | with looks for that device not going back in time, the live grant of the log, despite lazy deletion |
| MemoryPep.Pep.Check | src/ca_ztcf/enforcement/memory_pep.py:63-118 | with looks for that device not going back in time, the outcome is a function of the log alone: last non-terminating, unrevoked, unexpired decision, else why not |
| MemoryPep.TerminationBlocks | src/ca_ztcf/enforcement/memory_pep.py:35-43 | after a terminating decision every request of the device is refused until a later grant |
| MemoryPep.PermittedIff | src/ca_ztcf/enforcement/memory_pep.py:63-142 | a request is permitted iff some grant to its device stands, neither terminated, replaced, revoked nor cleared since, with a positive lifetime not yet over at this instant, and the operation is CONNECT or its scope permits the resource; the reason and the decision reported |
| MemoryPep.RefusalMeans | src/ca_ztcf/enforcement/memory_pep.py:63-100 | why a request without a decision in force is refused, from the events |
| MemoryPep.GrantedIff | src/ca_ztcf/enforcement/memory_pep.py:35-59 | the grant in the log is an applied decision nothing has overridden since |
| MemoryPep.LastAppliedIff | src/ca_ztcf/enforcement/memory_pep.py:35-59 | the last decision is the last applied since everything was cleared |
| MemoryPep.AgreesWithGateway | src/ca_ztcf/enforcement/memory_pep.py:105-136 | under a live decision publish and subscribe are judged as scope_permits judges them |
| MemoryPep.LogGrows | src/ca_ztcf/enforcement/memory_pep.py:35-59 | what each event does to the log's answer for every device |
| Holm.Adjust | experiments/analysis/statistics.py:166-178 | the result is the order-free adjustment: for each key the maximum over p_j <= p_k of min(1, #{r : p_r >= p_j} p_j) |
| Holm.AdjustSorted | experiments/analysis/statistics.py:166-178 | the loop with its running maximum computes it, ties in any order |
| Holm.SortedItemsArrange | experiments/analysis/statistics.py:170 | sorting the items arranges the dictionary |
| Holm.AdjustmentIsUnique | experiments/analysis/statistics.py:166-178 | the result is independent of dictionary order and of how ties are sorted |
| Holm.AdjustmentBounds | experiments/analysis/statistics.py:166-178 | never below the raw p, within [0, 1], and order preserving |
| Holm.SignificantIffRejected | experiments/analysis/statistics.py:166-178 | below alpha exactly when the step-down procedure rejects |
| Holm.RunningMaximumStep | experiments/analysis/statistics.py:172-177 | each loop step yields the adjusted value of the item just read |
| Cochran.QBounded | experiments/analysis/statistics.py:440-452 | 0 <= Q <= n(k-1) for k >= 1 binary columns of length n |
| Cochran.DenominatorVanishes | experiments/analysis/statistics.py:447-450 | the denominator is never negative, is 0 iff every row is constant, and the numerator is 0 then |
| Cochran.QIsMcNemar | experiments/analysis/statistics.py:410-411 | with two columns Q is (b - c)^2 / (b + c) for the discordant counts |
| Cochran.SpreadIsLagrange | experiments/analysis/statistics.py:440-452 | Lagrange's identity behind both closed forms |
| Cochran.TotalsSpreadBound | experiments/analysis/statistics.py:440-452 | the spread of the totals is at most n times the summed row spreads |
| Cochran.ClosedForms | experiments/analysis/statistics.py:447-448 | numerator and denominator as spreads |
| Cochran.DoubleCounting | experiments/analysis/statistics.py:444-446 | row totals and column totals have one sum |
| Percentile.PercentilesAgree | experiments/runner/metrics.py:293-300 | the two implementations agree on every nonempty list and every fraction in [0, 1] |
| Percentile.PercentileIgnoresOrder | experiments/analysis/statistics.py:45-58 | invariant under permutation |
| Percentile.PercentileBetween | experiments/analysis/statistics.py:45-58 | between any bounds of the values |
| Percentile.PercentileMonotone | experiments/analysis/statistics.py:45-58 | monotone in the fraction |
| Percentile.PercentileInterpolates | experiments/analysis/statistics.py:45-58 | between two neighbouring ranks the percentile goes straight from one value to the other |
| Percentile.Median | experiments/analysis/statistics.py:45-58 | the median is the middle value, or the mean of the middle two |
| Percentile.InterquartileRange | experiments/analysis/statistics.py:61-88 | the interquartile range is never negative |
| Campaign.BuildConditions | scripts/run_final_campaign.py:250-272 | the four nested loops list the combinations |
| Campaign.ScenarioConditions | scripts/run_final_campaign.py:253-271 | the three inner loops for one scenario |
| Campaign.EveryCombination | scripts/run_final_campaign.py:250-272 | every combination occurs as often as the product of its parts' occurrences, and nothing else occurs |
| Campaign.DistinctConditions | scripts/run_final_campaign.py:250-272 | keys are distinct iff there are none or scenarios, strategies and seeds each are |
| Ledger.EveryCampaign | scripts/run_final_campaign.py:378-546 | over any series of sessions with distinct conditions, each stopped anywhere: row i carries attempt i + 1, rows are only appended, no condition ever has two VALID rows, and after exit 0 every condition of the plan has exactly one |
| Ledger.SessionDoes | scripts/run_final_campaign.py:378-546 | one session adds to a condition at most one VALID row and at most max_retries + 1 executed attempts, none if it was already VALID |
| Ledger.UniqueExactlyWhenDistinct | scripts/run_final_campaign.py:378-380 | a session can be trusted not to record a condition VALID twice exactly when the plan's conditions are distinct |
| Ledger.ResumeFinishes | scripts/run_final_campaign.py:378-546 | from any ledger, one undisturbed session exits 0 |
| Ledger.SweepDoes | scripts/run_final_campaign.py:410-512 | the loop over pending conditions leaves others alone and stays within budget |
| Ledger.AttemptsDo | scripts/run_final_campaign.py:437-503 | the retry loop adds rows of one condition only, at most one of them VALID, within its budget |
| Ledger.AttemptsAre | scripts/run_final_campaign.py:436-500 | the retry loop row by row: what each attempt came to, on after every infrastructure failure until the retries are used up, ended by the first success, or for good by the first suspicious failure |
| Ledger.ExitMeans | scripts/run_final_campaign.py:355-551 | what the exit code says: refused iff the tree is dirty, stopped by a defect iff one was recorded, which is then the last row; after an aborted row only aborted ones; still pending only with a condition not yet VALID |
| Ledger.SweepShape | scripts/run_final_campaign.py:405-515 | the same of the sweep, interrupted or not |
| Ledger.SmoothSweep | scripts/run_final_campaign.py:410-512 | an undisturbed sweep records one VALID row per pending entry, repeated or not |
| Ledger.CompletedIs | scripts/run_final_campaign.py:216-223 | a condition is completed iff it has a VALID row |
| Ledger.Book.constructor | scripts/run_final_campaign.py:193-198 | an empty ledger |
| Ledger.Book.Append | scripts/run_final_campaign.py:210-214 | appends one row |
| Ledger.Book.Done | scripts/run_final_campaign.py:216-223 | the keys recorded VALID |
| Ledger.Book.Attempt | scripts/run_final_campaign.py:437-503 | in place: the retry loop's rows, remaining environment and end |
| Ledger.Book.RunPending | scripts/run_final_campaign.py:410-512 | in place: the sweep with its interruption, deadline, defect and drift exits |
| Ledger.Book.RunSession | scripts/run_final_campaign.py:352-546 | in place: the ledger and exit code of one session |
| Ledger.Select | scripts/run_final_campaign.py:380 | the conditions not yet done, in order |
| Redaction.RedactIsComplete | src/ca_ztcf/telemetry/audit.py:35-51 | no string value that looks like key material and no value under a denied key survives |
| Redaction.CleanIsFixed | src/ca_ztcf/telemetry/audit.py:35-51 | a record is unchanged iff it holds nothing sensitive |
| Redaction.RedactTwice | src/ca_ztcf/telemetry/audit.py:35-51 | redaction is idempotent |
| Redaction.RedactAt | src/ca_ztcf/telemetry/audit.py:35-51 | where no denied key is crossed the shape is preserved and other scalars are untouched |
| Redaction.NothingBelowDenied | src/ca_ztcf/telemetry/audit.py:35-40 | below a denied key there is the marker and nothing deeper |

## Left out

- Concurrency: asyncio scheduling, locks, sockets, timeouts and cancellation. The client loop is sequential against an arbitrary decision service and the pump is a loop of its own, so how their writes to the client interleave is not seen: on a partial grant the broker's own SUBACK, which the pump relays, comes besides the loop's.
- Loading the policy matrix: unknown states, contexts or actions in the file are errors of its parser; rule ids and reason codes are not modelled.
- `_handle_client` outside the client loop: the first CONNECT's decision, the upstream connection and its CONNACK; only the rewritten CONNECT is modelled.
- Challenges and `_record_denial`: their messages and records; a challenge's nonce is a `NonceRequested` action of `Strategy`.
- Ed25519, PEM, base64, uuid, JSON text and Unicode case mapping: the outcome of a check, a fresh identifier or a function is a parameter.
- Floating point: `round(..., 6)` and rounding; statistics are over the reals.
- Reason-code text, evidence items that feed no predicate, trace ids, source modes, `gap_ms` and durations. Evidence is a record rather than a dictionary filled step by step, so the order in which items are put is not captured; a predicate vector likewise.
- `decode_unsubscribe` and `decode_packet_id`: they would repeat the SUBSCRIBE reader.
- Windows of negative length: the settings ask for at least a second, and the lemmas about exact windows for a window that is not negative.
- TopicNames.GrantContainsNames: a legal name's length limit and UTF-8 validity are not part of it.
- The `$`-topic rule of section 4.7.2 of MQTT 3.1.1, which the code does not implement; deny patterns against wildcard filters, which the code tests literally.
- Bootstrap, normality, rank-biserial, Friedman and chi-square p-values, confusion rates and the counters of `MetricsCollector`: library calls or counting without an invariant.
- The campaign's CSV text, git and YAML: a row is what the resume logic reads of it, a drift is an event, and a row torn by a crash in the middle of a write is not modelled.
- The independent-authentication baseline, HTTP routes, log collectors, testbed scripts and figures.
- Redaction.RedactIsComplete: keys are not values; key material used as a dictionary key is not redacted by the code either.
- StaticContinuity.StableIsBacked: the bound includes how far the instants that requests name may run ahead of the clock, because a proof is stamped by the clock and a token by the request.
- Codec.PublishRoundTrip: stated for qos up to 3, the two bits the flags have; the builder itself does not check.
