/** The notification relay (notification-service/server.js): events from the
    stream are normalised into display notifications, kept in a newest-first
    log of at most 100 entries, pushed to every open WebSocket client, and
    served over a small REST interface. Identifiers (`uuidv4()`) and
    timestamps (`new Date()`) are parameters. */
module Notifications {
  import opened Basics

  const MaxNotifications: nat := 100
  const DefaultListLimit: nat := 50
  const SnapshotSize: nat := 10

  const DefaultKind := "info"
  const DefaultIcon := "📢"

  /** A decoded stream message. Only `eventType` is inspected; the other
      fields are carried along untouched, their JSON values (numbers such
      as `petId`, strings) abstracted to strings. A missing or non-string
      `eventType` is `None`. */
  datatype Event = Event(eventType: Option<string>, fields: map<string, string>)

  /** The cases of the `switch (event.eventType)`. */
  datatype EventKind =
    | PetCreated | PetUpdated | PetDeleted
    | AppointmentCreated | AppointmentUpdated | AppointmentDeleted
    | OtherEvent

  /** Message text. The templates interpolate event fields into display
      prose; that prose is kept opaque as "the template of this kind,
      applied to this event". */
  datatype Message = Text(text: string) | Template(kind: EventKind, event: Event)

  datatype Notification = Notification(
    id: string,
    kind: string,
    icon: string,
    title: string,
    message: Message,
    timestamp: string,
    data: Option<Event>)

  /** What a WebSocket client receives: the `init` snapshot on connect, then
      one `notification` message per broadcast. */
  datatype Push = Init(snapshot: seq<Notification>) | Pushed(notification: Notification)

  datatype Client = Client(open: bool, received: seq<Push>)

  type ClientId = nat

  /** The process-wide state: the notification log (newest first) and the
      set of connected WebSocket clients. */
  datatype Relay = Relay(store: seq<Notification>, clients: map<ClientId, Client>)

  ghost predicate Valid(relay: Relay) {
    |relay.store| <= MaxNotifications
  }

  // ---------------------------------------------------------------------
  // Normalisation
  // ---------------------------------------------------------------------

  /** Strict equality against each `case` label; anything else is the
      `default` branch. */
  function Classify(eventType: Option<string>): EventKind {
    if eventType == Some("PET_CREATED") then PetCreated
    else if eventType == Some("PET_UPDATED") then PetUpdated
    else if eventType == Some("PET_DELETED") then PetDeleted
    else if eventType == Some("APPOINTMENT_CREATED") then AppointmentCreated
    else if eventType == Some("APPOINTMENT_UPDATED") then AppointmentUpdated
    else if eventType == Some("APPOINTMENT_DELETED") then AppointmentDeleted
    else OtherEvent
  }

  predicate IsCreated(eventType: Option<string>) {
    eventType == Some("PET_CREATED") || eventType == Some("APPOINTMENT_CREATED")
  }

  predicate IsDeleted(eventType: Option<string>) {
    eventType == Some("PET_DELETED") || eventType == Some("APPOINTMENT_DELETED")
  }

  function KindOf(k: EventKind): string {
    match k
    case PetCreated => "success"
    case AppointmentCreated => "success"
    case PetUpdated => "info"
    case AppointmentUpdated => "info"
    case PetDeleted => "warning"
    case AppointmentDeleted => "warning"
    case OtherEvent => "info"
  }

  function IconOf(k: EventKind): string {
    match k
    case PetCreated => "🐾"
    case PetUpdated => "📝"
    case PetDeleted => "🗑️"
    case AppointmentCreated => "📅"
    case AppointmentUpdated => "🔄"
    case AppointmentDeleted => "❌"
    case OtherEvent => "📢"
  }

  function TitleOf(k: EventKind): string {
    match k
    case PetCreated => "New Pet Registered"
    case PetUpdated => "Pet Updated"
    case PetDeleted => "Pet Removed"
    case AppointmentCreated => "Appointment Scheduled"
    case AppointmentUpdated => "Appointment Updated"
    case AppointmentDeleted => "Appointment Cancelled"
    case OtherEvent => "System Event"
  }

  /** `processEvent`: every event, known or not, yields one notification
      that embeds the event itself. */
  function ProcessEvent(event: Event, id: string, timestamp: string): (n: Notification)
    ensures n.id == id && n.timestamp == timestamp
    ensures n.data == Some(event)
    ensures n.kind == "success" <==> IsCreated(event.eventType)
    ensures n.kind == "warning" <==> IsDeleted(event.eventType)
    ensures n.kind == "info" <==> !IsCreated(event.eventType) && !IsDeleted(event.eventType)
    ensures event.eventType == Some("PET_CREATED") ==> n.icon == "🐾" && n.title == "New Pet Registered"
    ensures event.eventType == Some("PET_UPDATED") ==> n.icon == "📝" && n.title == "Pet Updated"
    ensures event.eventType == Some("PET_DELETED") ==> n.icon == "🗑️" && n.title == "Pet Removed"
    ensures event.eventType == Some("APPOINTMENT_CREATED") ==>
              n.icon == "📅" && n.title == "Appointment Scheduled"
    ensures event.eventType == Some("APPOINTMENT_UPDATED") ==>
              n.icon == "🔄" && n.title == "Appointment Updated"
    ensures event.eventType == Some("APPOINTMENT_DELETED") ==>
              n.icon == "❌" && n.title == "Appointment Cancelled"
    ensures Classify(event.eventType) == OtherEvent ==>
              n.icon == "📢" && n.title == "System Event"
    ensures n.message.Template? && n.message.event == event
    ensures n.message.kind == Classify(event.eventType)
  {
    var k := Classify(event.eventType);
    Notification(id, KindOf(k), IconOf(k), TitleOf(k), Template(k, event), timestamp, Some(event))
  }

  /** The title tells the event kind apart: no two `case` branches share a
      title, so a client can recover which branch produced a notification. */
  lemma TitleDeterminesKind(e1: Event, e2: Event, id: string, ts: string)
    requires ProcessEvent(e1, id, ts).title == ProcessEvent(e2, id, ts).title
    ensures Classify(e1.eventType) == Classify(e2.eventType)
  {
  }

  // ---------------------------------------------------------------------
  // The bounded store
  // ---------------------------------------------------------------------

  /** `addNotification`: `unshift`, then `pop` once the log exceeds 100. */
  function AddNotification(store: seq<Notification>, n: Notification): (r: seq<Notification>)
    ensures |r| >= 1 && r[0] == n
    ensures |store| < MaxNotifications ==> r[1..] == store
    ensures |store| >= MaxNotifications ==> r[1..] == store[..|store| - 1]
    ensures |store| <= MaxNotifications ==> |r| <= MaxNotifications
  {
    var grown := [n] + store;
    if |grown| > MaxNotifications then grown[..|grown| - 1] else grown
  }

  /** Below or at capacity, adding is "prepend, keep the newest 100". */
  lemma AddKeepsNewest(store: seq<Notification>, n: Notification)
    requires |store| <= MaxNotifications
    ensures AddNotification(store, n) == ([n] + store)[..Min(|store| + 1, MaxNotifications)]
  {
  }

  /** The notifications of `ns` (oldest first) listed newest first. */
  function NewestFirst(ns: seq<Notification>): (r: seq<Notification>)
    ensures |r| == |ns|
  {
    if |ns| == 0 then [] else NewestFirst(ns[1..]) + [ns[0]]
  }

  /** Adding `ns` one after the other, oldest first. */
  function AddAll(store: seq<Notification>, ns: seq<Notification>): seq<Notification>
    decreases |ns|
  {
    if |ns| == 0 then store else AddAll(AddNotification(store, ns[0]), ns[1..])
  }

  /** Any run of additions leaves the newest 100 of everything seen, newest
      first. */
  lemma {:induction false} AddAllKeepsNewest(store: seq<Notification>, ns: seq<Notification>)
    requires |store| <= MaxNotifications
    ensures AddAll(store, ns) ==
              (NewestFirst(ns) + store)[..Min(|ns| + |store|, MaxNotifications)]
    decreases |ns|
  {
    if |ns| == 0 {
      assert NewestFirst(ns) + store == store;
    } else {
      var n := ns[0];
      var added := AddNotification(store, n);
      AddKeepsNewest(store, n);
      AddAllKeepsNewest(added, ns[1..]);
      var a := NewestFirst(ns[1..]);
      var m := Min(|store| + 1, MaxNotifications);
      var k := Min(|ns| - 1 + m, MaxNotifications);
      assert added == ([n] + store)[..m];
      assert NewestFirst(ns) + store == a + ([n] + store);
      assert k == Min(|ns| + |store|, MaxNotifications);
      assert (a + ([n] + store)[..m])[..k] == (a + ([n] + store))[..k];
    }
  }

  /** Capacity invariant: no sequence of additions grows the log past 100. */
  lemma AddAllBounded(store: seq<Notification>, ns: seq<Notification>)
    requires |store| <= MaxNotifications
    ensures |AddAll(store, ns)| <= MaxNotifications
  {
    AddAllKeepsNewest(store, ns);
  }

  /** Recency order: up to 100 additions to an empty log come back newest
      first, nothing dropped. */
  lemma RecencyOrder(ns: seq<Notification>)
    requires |ns| <= MaxNotifications
    ensures AddAll([], ns) == NewestFirst(ns)
  {
    AddAllKeepsNewest([], ns);
    assert NewestFirst(ns) + [] == NewestFirst(ns);
  }

  /** Eviction: the 101st addition to an empty log evicts exactly the first
      notification added. */
  lemma EvictsOldest(ns: seq<Notification>)
    requires |ns| == MaxNotifications + 1
    ensures AddAll([], ns) == NewestFirst(ns[1..])
  {
    AddAllKeepsNewest([], ns);
    assert ns == [ns[0]] + ns[1..];
    assert NewestFirst(ns) == NewestFirst(ns[1..]) + [ns[0]];
    assert (NewestFirst(ns) + [])[..MaxNotifications] == NewestFirst(ns[1..]);
  }

  // ---------------------------------------------------------------------
  // Broadcast and the live clients
  // ---------------------------------------------------------------------

  /** `broadcastToClients`: every client whose socket is open receives the
      notification once; the others receive nothing. */
  function Broadcast(clients: map<ClientId, Client>, n: Notification): (r: map<ClientId, Client>)
    ensures r.Keys == clients.Keys
    ensures forall c :: c in clients && clients[c].open ==>
              r[c] == Client(true, clients[c].received + [Pushed(n)])
    ensures forall c :: c in clients && !clients[c].open ==> r[c] == clients[c]
  {
    map c | c in clients ::
      if clients[c].open then clients[c].(received := clients[c].received + [Pushed(n)])
      else clients[c]
  }

  /** Store, then broadcast: what both the stream consumer and the POST
      handler do with a new notification. */
  function Publish(relay: Relay, n: Notification): (r: Relay)
    ensures r.store == AddNotification(relay.store, n)
    ensures r.clients == Broadcast(relay.clients, n)
  {
    Relay(AddNotification(relay.store, n), Broadcast(relay.clients, n))
  }

  /** The stream consumer's per-message handler. A message that fails to
      decode (`decoded == None`) is logged and dropped. Otherwise the
      `if (notification)` guard always passes, because `ProcessEvent` is
      total: the message is stored at the head and broadcast. */
  function Consume(relay: Relay, decoded: Option<Event>, id: string, timestamp: string): (r: Relay)
    ensures decoded.None? ==> r == relay
    ensures decoded.Some? ==>
              |r.store| >= 1 && r.store[0].data == decoded && r.store[0].id == id
    ensures decoded.Some? ==> r.clients.Keys == relay.clients.Keys
    ensures decoded.Some? ==> r == Publish(relay, ProcessEvent(decoded.value, id, timestamp))
    ensures Valid(relay) ==> Valid(r)
  {
    match decoded
    case None => relay
    case Some(event) => Publish(relay, ProcessEvent(event, id, timestamp))
  }

  /** On connect the client joins the live set and is sent the ten most
      recent notifications. */
  function Connect(relay: Relay, client: ClientId): (r: Relay)
    requires client !in relay.clients
    ensures r.store == relay.store
    ensures client in r.clients && r.clients[client].open
    ensures r.clients[client].received == [Init(Snapshot(relay.store))]
    ensures forall c :: c in relay.clients ==> c in r.clients && r.clients[c] == relay.clients[c]
    ensures r.clients.Keys == relay.clients.Keys + {client}
  {
    Relay(relay.store, relay.clients[client := Client(true, [Init(Snapshot(relay.store))])])
  }

  /** The `init` snapshot: `notifications.slice(0, 10)`. */
  function Snapshot(store: seq<Notification>): (r: seq<Notification>)
    ensures |r| == Min(SnapshotSize, |store|)
    ensures r == store[..|r|]
  {
    store[..Min(SnapshotSize, |store|)]
  }

  /** On `close` or `error` the client leaves the live set. */
  function Disconnect(relay: Relay, client: ClientId): (r: Relay)
    ensures r.store == relay.store
    ensures r.clients.Keys == relay.clients.Keys - {client}
    ensures forall c :: c in r.clients ==> r.clients[c] == relay.clients[c]
  {
    Relay(relay.store, relay.clients - {client})
  }

  /** Removing an already-removed client changes nothing. */
  lemma DisconnectIdempotent(relay: Relay, client: ClientId)
    ensures Disconnect(Disconnect(relay, client), client) == Disconnect(relay, client)
  {
  }

  /** Broadcast fan-out: a client connected with `Connect` and still open
      sees the snapshot and then each broadcast notification exactly once,
      in broadcast order. */
  lemma {:induction false} FanOutInOrder(relay: Relay, client: ClientId, ns: seq<Notification>)
    requires client !in relay.clients
    ensures var after := PublishAll(Connect(relay, client), ns);
            client in after.clients &&
            after.clients[client].received ==
              [Init(Snapshot(relay.store))] + PushesOf(ns)
    decreases |ns|
  {
    if |ns| > 0 {
      var r0 := Connect(relay, client);
      FanOutStep(r0, client, [Init(Snapshot(relay.store))], ns);
    }
  }

  lemma {:induction false} FanOutStep(relay: Relay, client: ClientId, prefix: seq<Push>, ns: seq<Notification>)
    requires client in relay.clients
    requires relay.clients[client] == Client(true, prefix)
    ensures var after := PublishAll(relay, ns);
            client in after.clients &&
            after.clients[client] == Client(true, prefix + PushesOf(ns))
    decreases |ns|
  {
    if |ns| == 0 {
      assert prefix + [] == prefix;
    } else {
      var r1 := Publish(relay, ns[0]);
      assert r1.clients[client] == Client(true, prefix + [Pushed(ns[0])]);
      FanOutStep(r1, client, prefix + [Pushed(ns[0])], ns[1..]);
      assert PublishAll(relay, ns) == PublishAll(r1, ns[1..]);
      assert PushesOf(ns) == [Pushed(ns[0])] + PushesOf(ns[1..]);
      assert prefix + [Pushed(ns[0])] + PushesOf(ns[1..]) == prefix + PushesOf(ns);
    }
  }

  function PublishAll(relay: Relay, ns: seq<Notification>): Relay
    decreases |ns|
  {
    if |ns| == 0 then relay else PublishAll(Publish(relay, ns[0]), ns[1..])
  }

  function PushesOf(ns: seq<Notification>): (r: seq<Push>)
    ensures |r| == |ns|
  {
    if |ns| == 0 then [] else [Pushed(ns[0])] + PushesOf(ns[1..])
  }

  // ---------------------------------------------------------------------
  // REST handlers
  // ---------------------------------------------------------------------

  /** `parseInt(req.query.limit) || 50`, where `None` stands for a missing
      or non-numeric parameter (`NaN`). */
  function EffectiveLimit(limit: Option<int>): (k: int)
    ensures limit.None? || limit == Some(0) ==> k == DefaultListLimit
    ensures limit.Some? && limit.value != 0 ==> k == limit.value
  {
    match limit
    case None => DefaultListLimit
    case Some(l) => if l == 0 then DefaultListLimit else l
  }

  /** JavaScript `s.slice(0, end)`: a negative end counts back from the end. */
  function SlicePrefix<T>(s: seq<T>, end: int): (r: seq<T>)
    ensures |r| <= |s| && r == s[..|r|]
    ensures end >= 0 ==> |r| == Min(end, |s|)
    ensures end < 0 ==> |r| == (if |s| + end > 0 then |s| + end else 0)
  {
    if end >= 0 then s[..Min(end, |s|)]
    else if |s| + end > 0 then s[..|s| + end]
    else []
  }

  /** `GET /api/notifications`: the newest notifications, newest first. */
  function ListNotifications(store: seq<Notification>, limit: Option<int>): (r: seq<Notification>)
    ensures |r| <= |store| && r == store[..|r|]
    ensures limit.None? || limit == Some(0) ==> |r| == Min(DefaultListLimit, |store|)
    ensures limit.Some? && limit.value > 0 ==> |r| == Min(limit.value, |store|)
    ensures limit.Some? && limit.value < 0 ==>
              |r| == (if |store| + limit.value > 0 then |store| + limit.value else 0)
  {
    SlicePrefix(store, EffectiveLimit(limit))
  }

  /** `GET /api/notifications/count`. */
  function Count(relay: Relay): (c: nat)
    ensures c == |relay.store|
    ensures Valid(relay) ==> c <= MaxNotifications
  {
    |relay.store|
  }

  /** The body of `POST /api/notifications`; absent fields are `None`. */
  datatype PostBody = PostBody(
    kind: Option<string>, title: Option<string>, message: Option<string>, icon: Option<string>)

  datatype PostResponse = Created(notification: Notification) | BadRequest(error: string)

  /** JavaScript falsiness of an optional string field. */
  predicate Falsy(s: Option<string>) {
    s.None? || s.value == ""
  }

  function OrDefault(s: Option<string>, default: string): string {
    if Falsy(s) then default else s.value
  }

  /** `POST /api/notifications`: a missing or empty title or message is a
      400 that leaves everything as it was; otherwise the notification is
      created with `info`/📢 defaults, stored at the head and broadcast. */
  function PostNotification(relay: Relay, body: PostBody, id: string, timestamp: string): (out: (Relay, PostResponse))
    ensures out.1.BadRequest? <==> Falsy(body.title) || Falsy(body.message)
    ensures out.1.BadRequest? ==> out.0 == relay
    ensures out.1.Created? ==>
              var n := out.1.notification;
              && n.id == id && n.timestamp == timestamp && n.data.None?
              && n.title == body.title.value && n.message == Text(body.message.value)
              && (Falsy(body.kind) ==> n.kind == DefaultKind)
              && (!Falsy(body.kind) ==> n.kind == body.kind.value)
              && (Falsy(body.icon) ==> n.icon == DefaultIcon)
              && (!Falsy(body.icon) ==> n.icon == body.icon.value)
              && |out.0.store| >= 1 && out.0.store[0] == n
              && out.0 == Publish(relay, n)
    ensures Valid(relay) ==> Valid(out.0)
  {
    if Falsy(body.title) || Falsy(body.message) then
      (relay, BadRequest("Title and message are required"))
    else
      var n := Notification(id, OrDefault(body.kind, DefaultKind), OrDefault(body.icon, DefaultIcon),
                            body.title.value, Text(body.message.value), timestamp, None);
      (Publish(relay, n), Created(n))
  }

  /** `DELETE /api/notifications`: the log is emptied; clients stay. */
  function Clear(relay: Relay): (r: Relay)
    ensures Count(r) == 0
    ensures forall limit :: ListNotifications(r.store, limit) == []
    ensures r.clients == relay.clients
  {
    Relay([], relay.clients)
  }

  /** The notification added once the stream connection attempt is over. */
  function StartupNotification(id: string, timestamp: string): Notification {
    Notification(id, "success", "🚀", "Service Started",
                 Text("Notification service is now online and ready!"), timestamp, None)
  }

  /** The startup step after `listen`: by the time the stream connection
      attempt returns, events, POSTs and WebSocket clients may already have
      arrived, so it acts on whatever relay state there is. The startup
      notification is stored at the head but, unlike every other
      notification, never broadcast. */
  function Startup(relay: Relay, id: string, timestamp: string): (r: Relay)
    ensures |r.store| >= 1 && r.store[0] == StartupNotification(id, timestamp)
    ensures r.store[0].title == "Service Started" && r.store[0].kind == "success"
    ensures |relay.store| < MaxNotifications ==> r.store[1..] == relay.store
    ensures |relay.store| >= MaxNotifications ==> r.store[1..] == relay.store[..|relay.store| - 1]
    ensures r.clients == relay.clients
    ensures Valid(relay) ==> Valid(r)
    ensures relay.store == [] ==> Count(r) == 1
  {
    Relay(AddNotification(relay.store, StartupNotification(id, timestamp)), relay.clients)
  }

  /** A snapshot after `n` ≥ 10 additions holds exactly the ten newest, newest
      first. */
  lemma SnapshotIsNewestTen(ns: seq<Notification>)
    requires SnapshotSize <= |ns| <= MaxNotifications
    ensures Snapshot(AddAll([], ns)) == NewestFirst(ns)[..SnapshotSize]
  {
    RecencyOrder(ns);
  }
}
