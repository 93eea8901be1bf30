/** `CAZTCFStrategy.decide` (strategies/ca_ztcf.py) over the services it mutates, each of them updated in place. */
module StrategyService {
  import opened Base
  import opened Topics
  import opened Policy
  import opened Identity
  import opened Counters
  import opened Bindings
  import opened Transitions
  import opened Collector
  import opened Trust
  import opened Strategy

  class Service {
    const cfg: Deployment
    const nonces: NonceIssuer
    const proofs: ProofStore
    const counters: SecurityCounters
    const transitions: TransitionCollector
    const bindings: BindingStore
    const states: TrustStateManager
    var registry: map<Text, DeviceIdentity>

    /** Every store keeps its own invariant, and all are configured by the one deployment. */
    ghost predicate Valid()
      reads this, nonces, proofs, counters, transitions, states
    {
      && nonces.Valid() && proofs.Valid() && counters.Valid() && transitions.Valid() && states.Valid()
      && nonces.ttl == cfg.nonceTtl && proofs.ttl == cfg.proofTtl && counters.window == cfg.failureWindow
      && transitions.cfg == cfg.transitions && transitions.bindings == bindings
    }

    ghost function View(): System
      reads this, nonces, proofs, counters, transitions, transitions.tracks.Values, bindings, states
    {
      System(registry, nonces.issued, proofs.verified, counters.failures, counters.conflicts,
             transitions.View(), bindings.byAddress, states.current)
    }

    constructor (cfg: Deployment, historyLimit: nat, registry: map<Text, DeviceIdentity>)
      ensures Valid() && this.cfg == cfg
      ensures View() == System(registry, map[], map[], map[], map[], State(map[], map[]), map[], map[])
      ensures fresh(nonces) && fresh(proofs) && fresh(counters)
      ensures fresh(transitions) && fresh(bindings) && fresh(states)
    {
      var store := new BindingStore();
      this.cfg, this.registry, bindings := cfg, registry, store;
      nonces := new NonceIssuer(cfg.nonceTtl);
      proofs := new ProofStore(cfg.proofTtl);
      counters := new SecurityCounters(cfg.failureWindow);
      transitions := new TransitionCollector(cfg.transitions, store);
      states := new TrustStateManager(historyLimit);
    }

    /** Verify a fresh proof, keep a success and count a failure. */
    method CheckProof(r: Request) returns (result: PoPResult)
      requires Valid() && r.deviceId in registry && r.proof.Some?
      modifies nonces, proofs, counters
      ensures Valid() && (View(), Some(result)) == ProofStep(old(View()), cfg, r)
    {
      hide VerifyProof, Identity.Record, AddFailure, AllHold, Retained, Tracks, Reflects, TransitionCollector.View;
      result := Verify(nonces, registry[r.deviceId].deviceId, r.proof.value, r.check, r.clock.verified,
                       r.clock.consumed);
      proofs.Remember(result);
      if !result.valid {
        var _ := counters.RecordAuthnFailure(r.deviceId, Now(r));
      }
    }

    /** A fresh proof is checked; without one the last verified proof is fetched. */
    method Prove(r: Request) returns (pop: Option<PoPResult>)
      requires Valid()
      modifies nonces, proofs, counters
      ensures Valid() && (View(), pop) == ProofStep(old(View()), cfg, r)
    {
      hide VerifyProof, Identity.Record, Identity.Lookup, AddFailure, AllHold, Retained, Tracks, Reflects,
           TransitionCollector.View;
      if r.deviceId !in registry {
        return None;
      }
      if r.proof.Some? {
        var result := CheckProof(r);
        pop := Some(result);
      } else {
        pop := proofs.Get(r.deviceId, Now(r));
      }
    }

    /** Observe the position, then ask for the context. */
    method Move(r: Request) returns (context: TransitionContext)
      requires Valid()
      modifies transitions, transitions.tracks.Values
      ensures Valid() && fresh(transitions.tracks.Values - old(transitions.tracks.Values))
      ensures (View(), context) == TransitionStep(old(View()), cfg, r)
    {
      hide ObserveIn, ContextIn, ContextFor, EvidenceFor, VerdictOf, Reported;
      var _, _ := transitions.ObserveDetailed(r.deviceId, r.domain, Some(r.address), Now(r), r.clock.corroborated,
                                               r.transitionId);
      context := transitions.ContextOf(r.deviceId, Now(r));
    }

    /** Claim the address, counting a conflict. */
    method Attribute(r: Request) returns (binding: Option<Binding>, consistent: bool)
      requires Valid()
      modifies bindings, counters
      ensures Valid() && (View(), binding, consistent) == ClaimStep(old(View()), r)
    {
      hide Claim, AllHold, Retained, Tracks, Reflects, TransitionCollector.View;
      binding, consistent := bindings.Attribute(r.address, r.deviceId, r.clock.claimed);
      if !consistent {
        var _ := counters.RecordIdentityConflict(r.deviceId);
      }
    }

    lemma RegistryInView()
      ensures View().registry == registry
    {}

    /** Whether the device's last transition is recent. */
    method Recent(r: Request) returns (recent: bool)
      requires Valid()
      ensures recent == IsRecent(TrackOf(View().collector, r.deviceId), cfg.transitions, Now(r))
    {
      hide IsRecent, TransitionCollector.View;
      recent := transitions.IsTransitionRecent(r.deviceId, Now(r));
    }

    /** Read both window counters. */
    method ReadCounters(r: Request) returns (count: nat, failures: nat)
      requires Valid()
      modifies counters, transitions.tracks.Values
      ensures Valid() && transitions.tracks == old(transitions.tracks)
      ensures (View(), count, failures) == CountStep(old(View()), cfg, r)
    {
      hide CountIn, PruneFailures, AllHold, Retained, Tracks, Reflects, TransitionCollector.View;
      count := transitions.TransitionsInWindow(r.deviceId, Now(r));
      failures := counters.AuthnFailures(r.deviceId, Now(r));
    }

    /** The evidence of one request, gathered in the order `decide` gathers it. */
    method Collect(r: Request) returns (context: TransitionContext, inputs: Inputs)
      requires Valid()
      modifies nonces, proofs, counters, transitions, transitions.tracks.Values, bindings
      ensures Valid() && fresh(transitions.tracks.Values - old(transitions.tracks.Values))
      ensures (View(), context, inputs) == Gather(old(View()), cfg, r)
    {
      hide ProofStep, TransitionStep, ClaimStep, CountStep, IsRecent, Valid, View;
      RegistryInView();
      var identity := if r.deviceId in registry then Some(registry[r.deviceId]) else None;
      var pop := Prove(r);
      context := Move(r);
      var binding, consistent := Attribute(r);
      var recent := Recent(r);
      var count, failures := ReadCounters(r);
      inputs := Inputs(identity, pop, binding, consistent, recent, count, failures, SessionConsistent(r), Now(r));
    }

    /** `decide`. */
    method Decide(r: Request) returns (decision: Decision)
      requires Valid()
      modifies nonces, proofs, counters, transitions, transitions.tracks.Values, bindings, states
      ensures Valid() && fresh(transitions.tracks.Values - old(transitions.tracks.Values))
      ensures (View(), decision) == Strategy.Decide(old(View()), cfg, r)
    {
      hide Gather, Derive, DecisionOf, Valid, View;
      GatherParts(View(), cfg, r);
      var context, inputs := Collect(r);
      var state := Judge(r.deviceId, inputs);
      decision := DecisionOf(state, context, cfg, r);
    }

    /** Evaluate the predicates and the rules, and record the outcome. */
    method Judge(deviceId: Text, inputs: Inputs) returns (state: TrustState)
      requires Valid()
      modifies states
      ensures Valid() && state == Derive(inputs, cfg.settings)
      ensures View() == old(View()).(states := old(View()).states[deviceId := state])
    {
      hide Assemble, Evaluate, StateOf, AllHold, Retained, Tracks, Reflects, TransitionCollector.View;
      state := EvaluateRules(Evaluate(Assemble(inputs, cfg.settings), cfg.settings));
      var _ := states.Record(deviceId, state, inputs.now);
    }
  }
}
