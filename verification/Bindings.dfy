/** Access bindings and their attribution to devices (collectors/base.py). */
module Bindings {
  import opened Base

  datatype AccessDomain = NR | WLAN

  /** An access domain's assertion about one network address. Ids stand for the generated `bnd-...` strings. */
  datatype Binding = Binding(
    id: nat, domain: AccessDomain, peerAddress: Text, deviceRef: Option<Text>,
    firstSeen: Instant, lastSeen: Instant, expiresAt: Option<Instant>, attributes: map<string, string>)
  {
    predicate IsExpired(now: Instant) {
      expiresAt.Some? && now > expiresAt.value
    }
  }

  type Store = map<Text, Binding>

  /** Python's `a or b` on an optional string: the empty string is falsy too. */
  function Or(a: Option<Text>, b: Option<Text>): Option<Text> {
    if a.Some? && a.value != [] then a else b
  }

  /** `upsert`: within a domain the identifier, the first sighting and the attribution survive. */
  function Upsert(store: Store, binding: Binding): Store {
    var address := binding.peerAddress;
    if address in store && store[address].domain == binding.domain then
      var existing := store[address];
      store[address := binding.(id := existing.id, firstSeen := existing.firstSeen,
                                deviceRef := Or(binding.deviceRef, existing.deviceRef))]
    else store[address := binding]
  }

  /** `get`: a binding past its expiry reads as absent but stays in the store. */
  function Live(store: Store, address: Text, now: Instant): Option<Binding> {
    if address in store && !store[address].IsExpired(now) then Some(store[address]) else None
  }

  /** `claim`: the store afterwards, the binding, and whether it is consistent with the claim. */
  function Claim(store: Store, address: Text, deviceId: Text, now: Instant): (Store, Option<Binding>, bool) {
    match Live(store, address, now)
    case None => (store, None, true)
    case Some(binding) =>
      match binding.deviceRef
      case None =>
        var claimed := binding.(deviceRef := Some(deviceId));
        (store[address := claimed], Some(claimed), true)
      case Some(owner) => (store, Some(binding), owner == deviceId)
  }

  class BindingStore {
    var byAddress: Store

    constructor ()
      ensures byAddress == map[]
    {
      byAddress := map[];
    }

    method Put(binding: Binding) returns (merged: Binding)
      modifies this
      ensures byAddress == Upsert(old(byAddress), binding)
      ensures merged == byAddress[binding.peerAddress]
    {
      merged := binding;
      if binding.peerAddress in byAddress {
        var existing := byAddress[binding.peerAddress];
        if existing.domain == binding.domain {
          merged := binding.(id := existing.id, firstSeen := existing.firstSeen,
                             deviceRef := Or(binding.deviceRef, existing.deviceRef));
        }
      }
      byAddress := byAddress[merged.peerAddress := merged];
    }

    method Get(address: Text, now: Instant) returns (r: Option<Binding>)
      ensures r == Live(byAddress, address, now)
    {
      if address !in byAddress {
        return None;
      }
      var binding := byAddress[address];
      if binding.IsExpired(now) {
        return None;
      }
      r := Some(binding);
    }

    method Attribute(address: Text, deviceId: Text, now: Instant) returns (binding: Option<Binding>, consistent: bool)
      modifies this
      ensures (byAddress, binding, consistent) == Claim(old(byAddress), address, deviceId, now)
    {
      binding := Get(address, now);
      consistent := true;
      if binding.None? {
        return;
      }
      if binding.value.deviceRef.None? {
        var claimed := binding.value.(deviceRef := Some(deviceId));
        byAddress := byAddress[address := claimed];
        return Some(claimed), true;
      }
      consistent := binding.value.deviceRef.value == deviceId;
    }

    method DomainFor(address: Text, now: Instant) returns (r: Option<AccessDomain>)
      ensures r == match Live(byAddress, address, now) { case Some(b) => Some(b.domain) case None => None }
    {
      var binding := Get(address, now);
      r := if binding.Some? then Some(binding.value.domain) else None;
    }

    method Release(address: Text)
      modifies this
      ensures byAddress == old(byAddress) - {address}
    {
      byAddress := byAddress - {address};
    }

    method Clear()
      modifies this
      ensures byAddress == map[]
    {
      byAddress := map[];
    }
  }

  // -- attribution over every interleaving ---------------------------------------------

  /** Everything that touches the store. Reading it, or time passing, changes nothing. */
  datatype Event =
    | Upserted(binding: Binding) | Claimed(address: Text, deviceId: Text, now: Instant)
    | Released(address: Text) | Cleared

  function Apply(store: Store, e: Event): Store {
    match e
    case Upserted(b) => Upsert(store, b)
    case Claimed(address, deviceId, now) => Claim(store, address, deviceId, now).0
    case Released(address) => store - {address}
    case Cleared => map[]
  }

  function ApplyAll(store: Store, events: seq<Event>): Store
    decreases |events|
  {
    if events == [] then store else ApplyAll(Apply(store, events[0]), events[1..])
  }

  predicate AttributedTo(store: Store, address: Text, deviceId: Text) {
    address in store && store[address].deviceRef == Some(deviceId)
  }

  /** The only events that can end an attribution: a release, a clear, an upsert from the other domain, or one that
      itself names another device. */
  predicate Ends(e: Event, store: Store, address: Text, deviceId: Text)
    requires address in store
  {
    match e
    case Upserted(b) =>
      && b.peerAddress == address
      && (if b.domain == store[address].domain
          then b.deviceRef.Some? && b.deviceRef.value != [] && b.deviceRef.value != deviceId
          else b.deviceRef != Some(deviceId))
    case Claimed(_, _, _) => false
    case Released(a) => a == address
    case Cleared => true
  }

  /** An attribution survives an event exactly when the event is not one of those that end it. */
  lemma AttributionEnds(store: Store, e: Event, address: Text, deviceId: Text)
    requires AttributedTo(store, address, deviceId)
    ensures AttributedTo(Apply(store, e), address, deviceId) <==> !Ends(e, store, address, deviceId)
  {}

  ghost predicate NoneEnds(store: Store, events: seq<Event>, address: Text, deviceId: Text)
    decreases |events|
  {
    events == [] || (
      && address in store && !Ends(events[0], store, address, deviceId)
      && NoneEnds(Apply(store, events[0]), events[1..], address, deviceId))
  }

  /** Whatever else happens, in whatever order, an attribution outlives everything but those events: expiry, refreshes
      by the same domain and claims by other devices included. */
  lemma {:induction false} AttributionPersists(store: Store, events: seq<Event>, address: Text, deviceId: Text)
    requires AttributedTo(store, address, deviceId) && NoneEnds(store, events, address, deviceId)
    ensures AttributedTo(ApplyAll(store, events), address, deviceId)
    decreases |events|
  {
    if events != [] {
      AttributionEnds(store, events[0], address, deviceId);
      AttributionPersists(Apply(store, events[0]), events[1..], address, deviceId);
    }
  }

  /** While the binding is live, another device's claim is inconsistent and changes nothing; once it is not live the
      claim finds no binding at all. */
  lemma ConflictingClaim(store: Store, address: Text, owner: Text, other: Text, now: Instant)
    requires AttributedTo(store, address, owner) && other != owner
    ensures var (after, binding, consistent) := Claim(store, address, other, now);
      && after == store
      && (Live(store, address, now).Some? ==> !consistent && binding == Some(store[address]))
      && (Live(store, address, now).None? ==> consistent && binding == None)
  {}

  /** Expiry hides a binding; a later refresh by the same domain brings it back with its attribution. */
  lemma RefreshRestoresAttribution(store: Store, refresh: Binding, address: Text, deviceId: Text, now: Instant)
    requires AttributedTo(store, address, deviceId)
    requires refresh.peerAddress == address && refresh.domain == store[address].domain && refresh.deviceRef == None
    requires !refresh.IsExpired(now)
    ensures var after := Upsert(store, refresh);
      Live(after, address, now).Some? && Live(after, address, now).value.deviceRef == Some(deviceId)
  {}

  // -- what a binding says over a run -----------------------------------------------------

  /** The event leaves a binding of the address, of this domain, in the store. */
  predicate Sustains(e: Event, address: Text, domain: AccessDomain) {
    match e
    case Upserted(b) => b.peerAddress == address ==> b.domain == domain
    case Claimed(_, _, _) => true
    case Released(a) => a != address
    case Cleared => false
  }

  /** The last report about the address, or else what was known before. */
  function LastReport(events: seq<Event>, address: Text, before: Binding): Binding
    decreases |events|
  {
    if events == [] then before
    else
      LastReport(events[1..], address,
                 if events[0].Upserted? && events[0].binding.peerAddress == address then events[0].binding else before)
  }

  /** Over any such run, refreshes and claims in any order, a binding keeps its identifier, its domain and its first
      sighting, and its last sighting, expiry and attributes are those of the last report. */
  lemma {:induction false} Lineage(store: Store, events: seq<Event>, address: Text, latest: Binding)
    requires address in store && forall i | 0 <= i < |events| :: Sustains(events[i], address, store[address].domain)
    requires store[address].lastSeen == latest.lastSeen && store[address].expiresAt == latest.expiresAt
    requires store[address].attributes == latest.attributes
    ensures var after, report := ApplyAll(store, events), LastReport(events, address, latest);
      && address in after && after[address].id == store[address].id
      && after[address].domain == store[address].domain && after[address].firstSeen == store[address].firstSeen
      && after[address].lastSeen == report.lastSeen && after[address].expiresAt == report.expiresAt
      && after[address].attributes == report.attributes
    decreases |events|
  {
    if events != [] {
      var next := Apply(store, events[0]);
      var e := events[0];
      var report := if e.Upserted? && e.binding.peerAddress == address then e.binding else latest;
      SustainedStep(store, e, address);
      Lineage(next, events[1..], address, report);
    }
  }

  /** What one such event leaves. */
  lemma SustainedStep(store: Store, e: Event, address: Text)
    requires address in store && Sustains(e, address, store[address].domain)
    ensures var next := Apply(store, e);
      && address in next && next[address].id == store[address].id && next[address].domain == store[address].domain
      && next[address].firstSeen == store[address].firstSeen
      && var report := if e.Upserted? && e.binding.peerAddress == address then e.binding else store[address];
      && next[address].lastSeen == report.lastSeen && next[address].expiresAt == report.expiresAt
      && next[address].attributes == report.attributes
  {}

  /** A report from the other domain starts afresh: nothing of the old binding survives, its owner included. */
  lemma HandoverReplaces(store: Store, b: Binding)
    requires b.peerAddress in store && store[b.peerAddress].domain != b.domain
    ensures Apply(store, Upserted(b))[b.peerAddress] == b
    ensures forall a | a != b.peerAddress :: a in Apply(store, Upserted(b)) <==> a in store
    ensures forall a | a != b.peerAddress && a in store :: Apply(store, Upserted(b))[a] == store[a]
  {}
}
