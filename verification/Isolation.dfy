/** From the policy matrix to the broker: what the gateway lets through for one device never reaches, and is never
    reached by, what it lets through for another (policy/evaluator.py, enforcement/mqtt_gateway.py). */
module Isolation {
  import opened Base
  import opened Codec
  import opened Topics
  import opened Policy
  import opened Gateway
  import opened GatewayRuns
  import Strategy
  import opened Decisions

  /** Every answer of the decision service, and the decision the session starts with, has a scope confined to the
      device, shared patterns aside. */
  ghost predicate Served(start: Session, env: Env, k: nat, shared: seq<Text>) {
    && Confined(start.decision.scope, env.deviceId, k, shared)
    && forall n: nat | env.decide(n).Some? :: Confined(env.decide(n).value.scope, env.deviceId, k, shared)
  }

  /** A decision service that decides as CA-ZTCF does, in whatever states its system happens to be. */
  ghost predicate DecidedBy(d: Decision, cfg: Strategy.Deployment, deviceId: Text) {
    exists s, r: Strategy.Request :: r.deviceId == deviceId && d == Strategy.Decide(s, cfg, r).1
  }

  /** Such a service serves its devices well whenever the policy matrix names them. */
  lemma DecisionsServe(start: Session, env: Env, cfg: Strategy.Deployment, k: nat, shared: seq<Text>)
    requires NamesDevices(cfg.matrix, k, shared) && RegistryCharset(env.deviceId)
    requires DecidedBy(start.decision, cfg, env.deviceId)
    requires forall n: nat | env.decide(n).Some? :: DecidedBy(env.decide(n).value, cfg, env.deviceId)
    ensures Served(start, env, k, shared)
  {
    hide NamesDevices, Confined, DecidedBy, RegistryCharset;
    DecisionConfines(start.decision, cfg, env.deviceId, k, shared);
    forall n: nat | env.decide(n).Some? ensures Confined(env.decide(n).value.scope, env.deviceId, k, shared) {
      DecisionConfines(env.decide(n).value, cfg, env.deviceId, k, shared);
    }
  }

  lemma DecisionConfines(d: Decision, cfg: Strategy.Deployment, deviceId: Text, k: nat, shared: seq<Text>)
    requires NamesDevices(cfg.matrix, k, shared) && RegistryCharset(deviceId) && DecidedBy(d, cfg, deviceId)
    ensures Confined(d.scope, deviceId, k, shared)
  {
    hide Strategy.Decide, Decisions.Follows, Confined, NamesDevices, RegistryCharset;
    var s, r: Strategy.Request :| r.deviceId == deviceId && d == Strategy.Decide(s, cfg, r).1;
    DecisionFollowsMatrix(s, cfg, r);
    FollowsConfines(d, cfg.matrix, r.decisionId, deviceId, Strategy.Now(r), k, shared);
  }

  /** The topics and filters in a packet the broker got. */
  ghost predicate Speaks(packet: Packet, topic: Text) {
    if packet.packetType == PUBLISH then DecodePublish(packet).Ok? && DecodePublish(packet).value.topic == topic
    else
      && packet.packetType == SUBSCRIBE && SubscribeOf(packet.payload).Ok?
      && exists i | 0 <= i < |SubscribeOf(packet.payload).value.subscriptions| ::
           SubscribeOf(packet.payload).value.subscriptions[i].0 == topic
  }

  lemma LetThroughSpeaks(packet: Packet, sent: Packet, scope: AccessScope, env: Env, topic: Text)
    requires LetThrough(packet, sent, scope, env) && Speaks(sent, topic)
    ensures ScopePermits(scope, topic)
  {
    hide ScopePermits, Granted, DecodePublish, SubscribeOf;
    if packet.packetType != PUBLISH {
      var entries, granted := SubscribeOf(packet.payload).value.subscriptions,
        SubscribeOf(sent.payload).value.subscriptions;
      var i :| 0 <= i < |granted| && granted[i].0 == topic;
      GrantedExactly(entries, scope, granted[i]);
    }
  }

  /** In every run: the decision a packet was let through under is the first one or an answer of the service. */
  lemma RelayIsConfined(start: Session, packets: seq<Packet>, n: nat, env: Env, i: nat, k: nat, shared: seq<Text>)
    requires Fresh(start) && Sized(packets) && n <= |packets| && Served(start, env, k, shared)
    requires i < |Run(start, packets, n, env).relayed|
    ensures var s := Run(start, packets, n, env);
      && Confined(s.relayed[i].decision.scope, env.deviceId, k, shared)
      && i < |Guarded(s.toBroker)| && s.relayed[i].index < |packets|
      && LetThrough(packets[s.relayed[i].index], Guarded(s.toBroker)[i], s.relayed[i].decision.scope, env)
  {
    hide Run, Confined, Counted, ReadingsInOrder, LetThrough;
    RunKeeps(start, packets, n, env);
    var s := Run(start, packets, n, env);
    var p := s.relayed[i].index;
    RunKeeps(start, packets, p, env);
    assert Justified(Run(start, packets, p, env), packets[p], Guarded(s.toBroker)[i], s.relayed[i], env);
  }

  /** The i-th PUBLISH or SUBSCRIBE the broker got from the session says this topic or filter, and not on the strength
      of a shared pattern. */
  ghost predicate Utters(s: Session, i: nat, env: Env, shared: seq<Text>, topic: Text) {
    i < |Guarded(s.toBroker)| && Speaks(Guarded(s.toBroker)[i], topic) && !InCommon(shared, env.deviceId, topic)
  }

  /** Over every run of one device's session: such a topic or filter has the device's id at the level. */
  lemma SessionSpeaksForItself(start: Session, packets: seq<Packet>, n: nat, env: Env, k: nat, shared: seq<Text>,
                               i: nat, topic: Text)
    requires Fresh(start) && Sized(packets) && n <= |packets| && Served(start, env, k, shared)
    requires Utters(Run(start, packets, n, env), i, env, shared, topic)
    ensures AtLevel(topic, k, env.deviceId)
  {
    hide Run, RunInvariant, Served, LetThrough, Speaks, ScopePermits, InCommon, Split;
    RunKeeps(start, packets, n, env);
    RelaysMatch(start, Run(start, packets, n, env), packets, n, Handled(start, packets, n, env), env);
    RelayIsConfined(start, packets, n, env, i, k, shared);
    var s := Run(start, packets, n, env);
    LetThroughSpeaks(packets[s.relayed[i].index], Guarded(s.toBroker)[i], s.relayed[i].decision.scope, env, topic);
  }

  lemma RelaysMatch(start: Session, s: Session, packets: seq<Packet>, n: nat, h: nat, env: Env)
    requires RunInvariant(start, s, packets, n, h, env)
    ensures |Guarded(s.toBroker)| == |s.relayed|
  {}

  /** End to end, over any runs of two devices' sessions, whatever their clients send: what one gets through to the
      broker on its own account, topic or filter, is not and does not select what the other gets through, and no topic
      at all is selected by filters of both. */
  lemma SessionsAreIsolated(start1: Session, packets1: seq<Packet>, n1: nat, env1: Env, i1: nat, topic1: Text,
                            start2: Session, packets2: seq<Packet>, n2: nat, env2: Env, i2: nat, topic2: Text,
                            k: nat, shared: seq<Text>)
    requires Fresh(start1) && Sized(packets1) && n1 <= |packets1| && Served(start1, env1, k, shared)
    requires Fresh(start2) && Sized(packets2) && n2 <= |packets2| && Served(start2, env2, k, shared)
    requires RegistryCharset(env1.deviceId) && RegistryCharset(env2.deviceId) && env1.deviceId != env2.deviceId
    requires Utters(Run(start1, packets1, n1, env1), i1, env1, shared, topic1)
    requires Utters(Run(start2, packets2, n2, env2), i2, env2, shared, topic2)
    ensures topic1 != topic2 && !TopicMatches(topic1, topic2)
    ensures forall topic: Text :: !(TopicMatches(topic1, topic) && TopicMatches(topic2, topic))
  {
    hide Run, Served, Utters, TopicMatches, Split, RegistryCharset;
    SessionSpeaksForItself(start1, packets1, n1, env1, k, shared, i1, topic1);
    SessionSpeaksForItself(start2, packets2, n2, env2, k, shared, i2, topic2);
    LevelsApart(topic1, env1.deviceId, topic2, env2.deviceId, k);
  }
}
