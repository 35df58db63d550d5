/** The key service's Pub/Sub handler (the callback given to sub.Receive in
    cmd/key-service/main.go) and the end-to-end flow from a created reservation to its key. */
module KeyConsumer {
  import opened Wrappers
  import opened Uuids
  import opened Events
  import opened Database
  import opened KeyService
  import ReservationService

  /** msg.Ack() or msg.Nack(); a nacked message is redelivered by Pub/Sub. */
  datatype Disposition = Ack | Nack

  /** The key request built from a ReservationCreated payload: the stay's dates are the
      key's window. */
  function RequestOf(e: EventPayload): (g: GenerateKeyRequest)
    ensures g.reservationId == e.reservationId
    ensures g.validFrom == e.startDate && g.validUntil == e.endDate
  {
    GenerateKeyRequest(e.reservationId, e.startDate, e.endDate)
  }

  /** The message announces a reservation: it parses and its type is ReservationCreated. */
  predicate IsCreation(msg: Message)
  {
    Unmarshal(msg.data).Some? && Unmarshal(msg.data).value.eventType == EventTypeReservationCreated
  }

  /** One delivery: the keys table after the callback, and how it settles the message.
      `rows` are the reservations GenerateKey reads; `lookupFails`, `random`,
      `envDeviceId` and `storeFails` are GenerateKey's inputs. An unparsable body is nacked; a message of
      any other type is acked and ignored; a creation is acked exactly when GenerateKey
      stores a key, and nacked with no key otherwise. */
  function Deliver(rows: seq<ReservationRow>, keys: seq<KeyRow>, msg: Message, lookupFails: bool,
                   random: Option<int>, envDeviceId: string, storeFails: bool): (out: (seq<KeyRow>, Disposition))
    requires random.Some? ==> 0 <= random.value < PinRange
    ensures Unmarshal(msg.data) == None ==> out.1 == Nack
    ensures Unmarshal(msg.data).Some? && !IsCreation(msg) ==> out == (keys, Ack)
    ensures out.1 == Nack <==>
      Unmarshal(msg.data) == None
      || (IsCreation(msg) && IssueKey(rows, RequestOf(Unmarshal(msg.data).value), lookupFails, random, envDeviceId, storeFails).Failure?)
    ensures out.1 == Nack ==> out.0 == keys
    ensures out.0 != keys ==>
      && IsCreation(msg) && out.1 == Ack
      && out.0 == keys + [IssueKey(rows, RequestOf(Unmarshal(msg.data).value), lookupFails, random, envDeviceId, storeFails).value]
    ensures IsCreation(msg) && out.1 == Ack ==> |out.0| == |keys| + 1
  {
    match Unmarshal(msg.data)
    case None => (keys, Nack)
    case Some(event) =>
      if event.eventType != EventTypeReservationCreated then (keys, Ack)
      else
        match IssueKey(rows, RequestOf(event), lookupFails, random, envDeviceId, storeFails)
        case Failure(_) => (keys, Nack)
        case Success(row) => (keys + [row], Ack)
  }

  /** The callback itself, over the key server it closes over, specified by the function
      Deliver. */
  method OnMessage(keySvc: KeyServer, msg: Message, lookupFails: bool, random: Option<int>, envDeviceId: string,
                   storeFails: bool)
    returns (d: Disposition)
    requires random.Some? ==> 0 <= random.value < PinRange
    modifies keySvc.db
    ensures keySvc.db.reservations == old(keySvc.db.reservations)
    ensures old(keySvc.db.Valid()) ==> keySvc.db.Valid()
    ensures (keySvc.db.keys, d)
            == Deliver(old(keySvc.db.reservations), old(keySvc.db.keys), msg, lookupFails, random, envDeviceId, storeFails)
  {
    var event := Unmarshal(msg.data);
    if event.None? {
      return Nack;
    }
    if event.value.eventType == EventTypeReservationCreated {
      var r := keySvc.GenerateKey(RequestOf(event.value), lookupFails, random, envDeviceId, storeFails);
      if r.Failure? {
        return Nack;
      }
    }
    d := Ack;
  }

  /** The number of key rows issued for reservation `id`. */
  function KeysFor(keys: seq<KeyRow>, id: PgUuid): nat
  {
    if keys == [] then 0
    else (if keys[0].reservationId == id then 1 else 0) + KeysFor(keys[1..], id)
  }

  lemma {:induction false} KeysForAppend(a: seq<KeyRow>, b: seq<KeyRow>, id: PgUuid)
    ensures KeysFor(a + b, id) == KeysFor(a, id) + KeysFor(b, id)
  {
    if a != [] {
      assert (a + b)[1..] == a[1..] + b;
      KeysForAppend(a[1..], b, id);
    } else {
      assert a + b == b;
    }
  }

  /** Nothing deduplicates keys: a ReservationCreated message delivered twice (Pub/Sub
      delivers at least once) for a stored reservation leaves two more key rows for it. */
  lemma RedeliveryIssuesTwoKeys(rows: seq<ReservationRow>, keys: seq<KeyRow>, msg: Message,
                                r1: int, r2: int, envDeviceId: string)
    requires IsCreation(msg)
    requires ParseUuid(msg.data.payload.reservationId).Some?
    requires HasReservation(rows, ParseUuid(msg.data.payload.reservationId).value)
    requires 0 <= r1 < PinRange && 0 <= r2 < PinRange
    ensures var id := PgUuid(ParseUuid(msg.data.payload.reservationId).value, true);
      var first := Deliver(rows, keys, msg, false, Some(r1), envDeviceId, false);
      var second := Deliver(rows, first.0, msg, false, Some(r2), envDeviceId, false);
      first.1 == Ack && second.1 == Ack && KeysFor(second.0, id) == KeysFor(keys, id) + 2
  {
    var id := PgUuid(ParseUuid(msg.data.payload.reservationId).value, true);
    var req := RequestOf(msg.data.payload);
    var row1 := IssueKey(rows, req, false, Some(r1), envDeviceId, false).value;
    var row2 := IssueKey(rows, req, false, Some(r2), envDeviceId, false).value;
    KeysForAppend(keys, [row1], id);
    KeysForAppend(keys + [row1], [row2], id);
  }

  /** The saga end to end: the ReservationCreated message CreateReservation publishes for
      the row it inserts, delivered to the key service with a secure draw and a working
      store, is acked and adds one key whose reservation is the new row, whose user is the
      booking user, and whose window is the stay. Both dates must be instants json.Marshal
      can encode (UnencodableStayGetsNoKey is the other case). */
  lemma CreatedReservationGetsKey(rows: seq<ReservationRow>, keys: seq<KeyRow>, newId: UuidBytes,
                                  user: UuidBytes, req: ReservationService.CreateReservationRequest,
                                  random: int, envDeviceId: string)
    requires ParseUuid(req.userId) == Some(user)
    requires !HasReservation(rows, newId)
    requires ReservationService.JsonEncodable(req.startDate) && ReservationService.JsonEncodable(req.endDate)
    requires 0 <= random < PinRange
    ensures var msg := ReservationService.CreatedMessage(UuidToString(PgUuid(newId, true)), req);
      var out := Deliver(rows + [ReservationService.NewRow(newId, user, req)], keys, msg,
                         false, Some(random), envDeviceId, false);
      out.1 == Ack
      && out.0 == keys + [KeyRow(PgUuid(newId, true), PgUuid(user, true), KeyCode(random),
                                 DeviceId(envDeviceId), Some(req.startDate), Some(req.endDate))]
  {
    var row := ReservationService.NewRow(newId, user, req);
    FormatThenParse(PgUuid(newId, true));
    FindAfterInsert(rows, row, newId);
  }

  /** A stay json.Marshal cannot encode (a date outside years 0000..9999) is published as
      an empty body; the key service nacks that message on every delivery and never
      issues a key for the reservation, whatever GenerateKey's inputs. */
  lemma UnencodableStayGetsNoKey(rows: seq<ReservationRow>, keys: seq<KeyRow>, reservationId: string,
                                 req: ReservationService.CreateReservationRequest, lookupFails: bool,
                                 random: Option<int>, envDeviceId: string, storeFails: bool)
    requires !ReservationService.JsonEncodable(req.startDate) || !ReservationService.JsonEncodable(req.endDate)
    requires random.Some? ==> 0 <= random.value < PinRange
    ensures var msg := ReservationService.CreatedMessage(reservationId, req);
      Deliver(rows, keys, msg, lookupFails, random, envDeviceId, storeFails) == (keys, Nack)
  {
  }
}
