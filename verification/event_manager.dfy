/**
 * The beacon presence event manager (`EventManager`): consumes detected
 * clients, keeps one registered client per beacon address in the registry,
 * decides per detection whether a `clientIn` or `clientOut` message goes to
 * the outbound queue, and keeps two wrap-around audit counters.
 *
 * The registered-client policy (when to announce an arrival or a departure,
 * how a detection refreshes a client, what extended data a message carries)
 * lives in a class that is not part of this model; it is a parameter here,
 * so every property below holds whatever that policy is.
 */
module EventManager {
  import opened BeaconDecoder

  /** The `extended_data` of an outbound message. */
  type Payload = map<string, string>

  /** A registered client: the latest detection, when it was last registered, and the two notification flags. */
  datatype Client = Client(
    detected: DetectedClient,
    lastRegisteredTime: int,
    clientInSent: bool,
    clientOutSent: bool)

  /** The registered-client behaviour the manager consults but does not define. */
  datatype Policy = Policy(
    create: DetectedClient -> Client,
    refresh: (Client, DetectedClient) -> Client,
    shouldSendIn: Client -> bool,
    shouldSendOut: Client -> bool,
    sweepShouldSendOut: Client -> bool,
    extendedData: Client -> Payload)

  /** The collection-point settings the manager reads. */
  datatype CollectionPointConfig = CollectionPointConfig(
    interfaceType: string,
    collectionPointId: string,
    gatewayType: string)

  datatype EventType = ClientIn | ClientOut

  function Topic(e: EventType): string {
    match e
    case ClientIn => "clientIn"
    case ClientOut => "clientOut"
  }

  /** A lifecycle message put on the outbound queue. */
  datatype EventMessage = EventMessage(
    topic: string,
    senderId: string,
    senderType: string,
    extendedData: Payload,
    timestamp: int)

  /** The manager's state: the registry keyed by beacon address, the two audit counters, the outbound queue. */
  datatype Manager = Manager(
    registry: map<string, Client>,
    totalNewEvents: nat,
    totalRemoveEvents: nat,
    outbox: seq<EventMessage>)

  /** A new client under a non-`btle` interface type is never constructed, so the manager fails on an unbound name. */
  datatype ManagerError = UnboundRegisteredClient

  /** The state after a call, or the error it raised together with the state reached when it did. */
  datatype Outcome = Ok(state: Manager) | Raised(error: ManagerError, state: Manager)

  function Init(): Manager {
    Manager(map[], 0, 0, [])
  }

  // ---------------------------------------------------------------------
  // Audit counters
  // ---------------------------------------------------------------------

  const CounterLimit := 1000000

  /** One audit-counter step: back to 0 once the count exceeds the limit, otherwise one more. */
  function Bump(n: nat): (r: nat)
    ensures r == n + 1 || r == 0
    ensures r <= CounterLimit + 1
    ensures r == 0 <==> n > CounterLimit
  {
    if n > CounterLimit then 0 else n + 1
  }

  /** The counter after `k` events, starting from `n`. */
  function BumpTimes(n: nat, k: nat): nat {
    if k == 0 then n else Bump(BumpTimes(n, k - 1))
  }

  /** Started from zero, the counter is the number of events modulo 1000002. */
  lemma {:induction false} CounterFromZero(k: nat)
    ensures BumpTimes(0, k) == k % (CounterLimit + 2)
    ensures BumpTimes(0, k) <= CounterLimit + 1
  {
    if k > 0 {
      CounterFromZero(k - 1);
    }
  }

  // ---------------------------------------------------------------------
  // Registry primitives
  // ---------------------------------------------------------------------

  /** `updateRegisteredClient`: replaces the record under an existing key; an absent key is left absent. */
  function WriteBack(registry: map<string, Client>, key: string, c: Client): (r: map<string, Client>)
    ensures r.Keys == registry.Keys
    ensures key in registry ==> r[key] == c
    ensures forall k :: k in registry && k != key ==> r[k] == registry[k]
  {
    if key in registry then registry[key := c] else registry
  }

  /** Writing the same client back twice is the same as writing it once. */
  lemma WriteBackIdempotent(registry: map<string, Client>, key: string, c: Client)
    ensures WriteBack(WriteBack(registry, key, c), key, c) == WriteBack(registry, key, c)
  {}

  /** `newClientRegistered`: the callback the registry fires on insertion. */
  function NewClientRegistered(m: Manager): (r: Manager)
    ensures r.totalNewEvents == Bump(m.totalNewEvents)
    ensures r.registry == m.registry && r.outbox == m.outbox
    ensures r.totalRemoveEvents == m.totalRemoveEvents
  {
    m.(totalNewEvents := Bump(m.totalNewEvents))
  }

  /** `addNewRegisteredClient`: inserts the record and fires the added-callback. */
  function AddNewRegisteredClient(m: Manager, key: string, c: Client): (r: Manager)
    ensures r.registry.Keys == m.registry.Keys + {key}
    ensures r.registry[key] == c
    ensures forall k :: k in m.registry && k != key ==> r.registry[k] == m.registry[k]
    ensures r.totalNewEvents == Bump(m.totalNewEvents)
    ensures r.outbox == m.outbox && r.totalRemoveEvents == m.totalRemoveEvents
  {
    NewClientRegistered(m.(registry := m.registry[key := c]))
  }

  // ---------------------------------------------------------------------
  // Sending an event
  // ---------------------------------------------------------------------

  /** The message announcing `e` for client `c`. */
  function EventFor(cfg: CollectionPointConfig, p: Policy, c: Client, e: EventType): EventMessage {
    EventMessage(Topic(e), cfg.collectionPointId, cfg.gatewayType, p.extendedData(c), c.lastRegisteredTime)
  }

  /** A client with the flag of `e` set and nothing else changed. */
  function MarkSent(c: Client, e: EventType): Client {
    match e
    case ClientIn => c.(clientInSent := true)
    case ClientOut => c.(clientOutSent := true)
  }

  /** The client as flagged by a send, and the manager afterwards. */
  datatype Sent = Sent(client: Client, state: Manager)

  /** `sendEventToController`: builds the message, sets the client's flag, writes the client back, enqueues. */
  function SendEventToController(m: Manager, cfg: CollectionPointConfig, p: Policy, key: string, c: Client, e: EventType)
    : (r: Sent)
    ensures |r.state.outbox| == |m.outbox| + 1 && m.outbox <= r.state.outbox
    ensures var msg := r.state.outbox[|m.outbox|];
      && msg.topic == Topic(e)
      && msg.senderId == cfg.collectionPointId
      && msg.senderType == cfg.gatewayType
      && msg.timestamp == c.lastRegisteredTime
      && msg.extendedData == p.extendedData(c)
    ensures r.client.clientInSent == (c.clientInSent || e == ClientIn)
    ensures r.client.clientOutSent == (c.clientOutSent || e == ClientOut)
    ensures r.client.detected == c.detected && r.client.lastRegisteredTime == c.lastRegisteredTime
    ensures key in m.registry ==> r.state.registry == m.registry[key := r.client]
    ensures key !in m.registry ==> r.state.registry == m.registry
    ensures r.state.totalNewEvents == m.totalNewEvents && r.state.totalRemoveEvents == m.totalRemoveEvents
  {
    var msg := EventFor(cfg, p, c, e);
    var flagged := MarkSent(c, e);
    var m' := m.(registry := WriteBack(m.registry, key, flagged));
    Sent(flagged, m'.(outbox := m'.outbox + [msg]))
  }

  /** The `if shouldSendClientInEvent ... elif shouldSendClientOutEvent` choice shared by both branches. */
  function Announce(m: Manager, cfg: CollectionPointConfig, p: Policy, key: string, c: Client): (r: Sent)
    ensures r.state.outbox == m.outbox + Announcements(cfg, p, c)
    ensures r.client == Stored(p, c)
    ensures r.state.registry ==
      if key in m.registry && |Announcements(cfg, p, c)| == 1 then m.registry[key := r.client] else m.registry
    ensures r.state.totalNewEvents == m.totalNewEvents && r.state.totalRemoveEvents == m.totalRemoveEvents
  {
    if p.shouldSendIn(c) then SendEventToController(m, cfg, p, key, c, ClientIn)
    else if p.shouldSendOut(c) then SendEventToController(m, cfg, p, key, c, ClientOut)
    else Sent(c, m)
  }

  // ---------------------------------------------------------------------
  // Registering detections
  // ---------------------------------------------------------------------

  /** The client a detection is judged on: a fresh one for an unknown address, else the refreshed stored one. */
  function Candidate(m: Manager, p: Policy, d: DetectedClient): Client {
    if d.beaconMac in m.registry then p.refresh(m.registry[d.beaconMac], d) else p.create(d)
  }

  /** The messages one detection produces: an arrival if the policy asks for one, else a departure if asked, else none. */
  function Announcements(cfg: CollectionPointConfig, p: Policy, c: Client): seq<EventMessage> {
    if p.shouldSendIn(c) then [EventFor(cfg, p, c, ClientIn)]
    else if p.shouldSendOut(c) then [EventFor(cfg, p, c, ClientOut)]
    else []
  }

  /** The candidate as stored after the announcement: flagged for the one event sent, if any. */
  function Stored(p: Policy, c: Client): Client {
    if p.shouldSendIn(c) then MarkSent(c, ClientIn)
    else if p.shouldSendOut(c) then MarkSent(c, ClientOut)
    else c
  }

  /** `registerDetectedClient`. */
  function RegisterDetectedClient(m: Manager, cfg: CollectionPointConfig, p: Policy, d: DetectedClient): (r: Outcome)
    ensures r.Raised? <==> d.beaconMac !in m.registry && cfg.interfaceType != "btle"
    ensures r.Raised? ==> r.state == m
    ensures r.Ok? ==> r.state.registry.Keys == m.registry.Keys + {d.beaconMac}
    ensures r.Ok? ==> forall k :: k in m.registry && k != d.beaconMac ==> r.state.registry[k] == m.registry[k]
    ensures r.Ok? ==> m.outbox <= r.state.outbox && |r.state.outbox| <= |m.outbox| + 1
    ensures r.Ok? ==> r.state.totalNewEvents == (if d.beaconMac in m.registry then m.totalNewEvents else Bump(m.totalNewEvents))
    ensures r.state.totalRemoveEvents == m.totalRemoveEvents
  {
    var key := d.beaconMac;
    if key !in m.registry then
      if cfg.interfaceType != "btle" then Raised(UnboundRegisteredClient, m)
      else
        var rClient := p.create(d);
        var sent := Announce(m, cfg, p, key, rClient);
        Ok(AddNewRegisteredClient(sent.state, key, sent.client))
    else
      var eClient := p.refresh(m.registry[key], d);
      var sent := Announce(m, cfg, p, key, eClient);
      Ok(sent.state.(registry := WriteBack(sent.state.registry, key, sent.client)))
  }

  /**
   * At most one message per detection, and an arrival wins over a departure:
   * the outbox grows by exactly the announcement for the candidate client,
   * and the registry ends up holding the candidate flagged for that announcement.
   */
  lemma ArrivalBeforeDeparture(m: Manager, cfg: CollectionPointConfig, p: Policy, d: DetectedClient)
    requires RegisterDetectedClient(m, cfg, p, d).Ok?
    ensures var r := RegisterDetectedClient(m, cfg, p, d).state;
      var c := Candidate(m, p, d);
      && r.outbox == m.outbox + Announcements(cfg, p, c)
      && r.registry[d.beaconMac] == Stored(p, c)
      && (|r.outbox| > |m.outbox| ==> (r.outbox[|m.outbox|].topic == "clientIn" <==> p.shouldSendIn(c)))
  {}

  /**
   * For an unknown address the message is sent before the client is inserted:
   * the send's write-back finds no record to update, and the insertion then
   * stores the flagged client and bumps the new-client counter.
   */
  lemma NewClientAnnouncedBeforeInsert(m: Manager, cfg: CollectionPointConfig, p: Policy, d: DetectedClient)
    requires d.beaconMac !in m.registry && cfg.interfaceType == "btle"
    ensures var sent := Announce(m, cfg, p, d.beaconMac, p.create(d));
      && sent.state.registry == m.registry
      && sent.state.outbox == m.outbox + Announcements(cfg, p, p.create(d))
      && RegisterDetectedClient(m, cfg, p, d) == Ok(AddNewRegisteredClient(sent.state, d.beaconMac, sent.client))
  {}

  /** Detections of one address never touch the record of another (no cross-contamination). */
  lemma OtherAddressesUntouched(m: Manager, cfg: CollectionPointConfig, p: Policy, d: DetectedClient, k: string)
    requires RegisterDetectedClient(m, cfg, p, d).Ok?
    requires k != d.beaconMac
    ensures k in RegisterDetectedClient(m, cfg, p, d).state.registry <==> k in m.registry
    ensures k in m.registry ==> RegisterDetectedClient(m, cfg, p, d).state.registry[k] == m.registry[k]
  {}

  /** `registerClients`: the detections in list order; a raise stops the loop with the state reached so far. */
  function RegisterClients(m: Manager, cfg: CollectionPointConfig, p: Policy, ds: seq<DetectedClient>): (r: Outcome)
    ensures r.Ok? ==> m.outbox <= r.state.outbox && |r.state.outbox| <= |m.outbox| + |ds|
    ensures r.Ok? ==> m.registry.Keys <= r.state.registry.Keys
    ensures r.state.totalRemoveEvents == m.totalRemoveEvents
    decreases |ds|
  {
    if |ds| == 0 then Ok(m)
    else
      match RegisterDetectedClient(m, cfg, p, ds[0])
      case Raised(e, s) => Raised(e, s)
      case Ok(s) => RegisterClients(s, cfg, p, ds[1..])
  }

  /** Registering a list then one more detection is registering the extended list. */
  lemma {:induction false} RegisterClientsSnoc(m: Manager, cfg: CollectionPointConfig, p: Policy, ds: seq<DetectedClient>, d: DetectedClient)
    ensures RegisterClients(m, cfg, p, ds + [d]) ==
      match RegisterClients(m, cfg, p, ds)
      case Raised(e, s) => Raised(e, s)
      case Ok(s) => RegisterDetectedClient(s, cfg, p, d)
    decreases |ds|
  {
    if |ds| == 0 {
      assert ds + [d] == [d];
    } else {
      assert (ds + [d])[1..] == ds[1..] + [d];
      match RegisterDetectedClient(m, cfg, p, ds[0])
      case Raised(e, s) =>
      case Ok(s) => RegisterClientsSnoc(s, cfg, p, ds[1..], d);
    }
  }

  /** `registerClients` as the source writes it: a loop over the list. */
  method RegisterClientsLoop(m: Manager, cfg: CollectionPointConfig, p: Policy, ds: seq<DetectedClient>)
    returns (r: Outcome)
    ensures r == RegisterClients(m, cfg, p, ds)
  {
    var state := m;
    var i := 0;
    while i < |ds|
      invariant 0 <= i <= |ds|
      invariant RegisterClients(m, cfg, p, ds) == RegisterClients(state, cfg, p, ds[i..])
    {
      assert ds[i..][1..] == ds[i + 1..];
      match RegisterDetectedClient(state, cfg, p, ds[i])
      case Raised(e, s) =>
        return Raised(e, s);
      case Ok(s) =>
        state := s;
      i := i + 1;
    }
    return Ok(state);
  }

  // ---------------------------------------------------------------------
  // Removal callback and audit data
  // ---------------------------------------------------------------------

  /**
   * `removedRegisteredClient`: the callback the registry's sweep fires for a
   * record it has removed; announces a departure if the policy asks, and always
   * bumps the remove counter.
   */
  function RemovedRegisteredClient(m: Manager, cfg: CollectionPointConfig, p: Policy, key: string, c: Client): (r: Manager)
    ensures |r.outbox| == |m.outbox| + (if p.sweepShouldSendOut(c) then 1 else 0)
    ensures m.outbox <= r.outbox
    ensures p.sweepShouldSendOut(c) ==> r.outbox[|m.outbox|] == EventFor(cfg, p, c, ClientOut)
    ensures r.totalRemoveEvents == Bump(m.totalRemoveEvents)
    ensures r.totalNewEvents == m.totalNewEvents
    ensures key !in m.registry ==> r.registry == m.registry
    ensures key in m.registry ==>
      r.registry == (if p.sweepShouldSendOut(c) then m.registry[key := MarkSent(c, ClientOut)] else m.registry)
  {
    var m' := if p.sweepShouldSendOut(c) then SendEventToController(m, cfg, p, key, c, ClientOut).state else m;
    m'.(totalRemoveEvents := Bump(m'.totalRemoveEvents))
  }

  datatype AuditData = AuditData(newEvents: nat, removeEvents: nat)

  /** `getEventAuditData`: reads the two counters; the manager itself is a value and is not changed. */
  function GetEventAuditData(m: Manager): (r: AuditData)
    ensures r.newEvents == m.totalNewEvents && r.removeEvents == m.totalRemoveEvents
  {
    AuditData(m.totalNewEvents, m.totalRemoveEvents)
  }

  /** Both counters stay within [0, 1000001]. */
  predicate CountersBounded(m: Manager) {
    m.totalNewEvents <= CounterLimit + 1 && m.totalRemoveEvents <= CounterLimit + 1
  }

  lemma InitBounded()
    ensures CountersBounded(Init())
  {}

  /** Every operation of the manager keeps the counters bounded, whatever the policy. */
  lemma {:induction false} CountersStayBounded(m: Manager, cfg: CollectionPointConfig, p: Policy, ds: seq<DetectedClient>, key: string, c: Client)
    requires CountersBounded(m)
    ensures CountersBounded(RegisterClients(m, cfg, p, ds).state)
    ensures CountersBounded(RemovedRegisteredClient(m, cfg, p, key, c))
    decreases |ds|
  {
    if |ds| > 0 {
      match RegisterDetectedClient(m, cfg, p, ds[0])
      case Raised(e, s) =>
      case Ok(s) => CountersStayBounded(s, cfg, p, ds[1..], key, c);
    }
  }
}
