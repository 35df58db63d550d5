/** The message that travels from the reservation service to the key service over Pub/Sub
    (internal/events/payload.go). */
module Events {
  import opened Wrappers

  /** EventPayload; the two dates are instants in whole seconds. */
  datatype EventPayload = EventPayload(
    eventType: string,
    reservationId: string,
    userId: string,
    startDate: int,
    endDate: int)

  const EventTypeReservationCreated: string := "ReservationCreated"

  /** A message body. `Json(p)` is the encoding of payload `p` (json.Marshal of an
      EventPayload); `Unparsable` is any body json.Unmarshal rejects. Every body that
      does parse, however partial, decodes to some payload and is a `Json` value. */
  datatype Body = Json(payload: EventPayload) | Unparsable(raw: seq<int>)

  /** pubsub.Message: the body and the string attributes. */
  datatype Message = Message(data: Body, attributes: map<string, string>)

  /** json.Unmarshal into an EventPayload: it fails exactly on an unparsable body, and
      decoding the encoding of a payload gives that payload back. */
  function Unmarshal(b: Body): (r: Option<EventPayload>)
    ensures r.Some? <==> b.Json?
    ensures forall p :: b == Json(p) ==> r == Some(p)
  {
    match b
    case Json(p) => Some(p)
    case Unparsable(_) => None
  }
}
