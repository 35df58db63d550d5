/** The reservation ledger (cmd/reservation-service/service.go): prices and stores a
    reservation as PENDING, then publishes a ReservationCreated event. */
module ReservationService {
  import opened Wrappers
  import opened Uuids
  import opened Events
  import opened Database

  /** pb.ReservationStatus. */
  datatype Status = Pending | Confirmed | Cancelled | Completed

  /** pb.Reservation; a date of None is a nil timestamp. */
  datatype Reservation = Reservation(
    id: string,
    userId: string,
    roomId: int,
    startDate: Option<int>,
    endDate: Option<int>,
    totalPrice: int,
    status: Status)

  /** Instants are whole seconds. */
  datatype CreateReservationRequest = CreateReservationRequest(userId: string, roomId: int, startDate: int, endDate: int)
  datatype CreateReservationResponse = CreateReservationResponse(reservationId: string, status: Status)

  const NightlyRate: int := 50000
  const SecondsPerDay: int := 86400
  const NanosPerSecond: int := 1_000_000_000
  const MaxInt64: int := 0x7FFF_FFFF_FFFF_FFFF
  const MinInt64: int := -0x8000_0000_0000_0000
  /** The largest span, in seconds, that time.Duration holds without saturating. */
  const MaxSpanSeconds: int := MaxInt64 / NanosPerSecond
  const Origin: string := "reservation-service"

  /** time.Time.Sub in nanoseconds: time.Duration is an int64 and Sub saturates. */
  function Sub(end: int, start: int): (d: int)
    ensures MinInt64 <= d <= MaxInt64
    ensures MinInt64 <= (end - start) * NanosPerSecond <= MaxInt64 ==> d == (end - start) * NanosPerSecond
    ensures (end - start) * NanosPerSecond > MaxInt64 ==> d == MaxInt64
    ensures (end - start) * NanosPerSecond < MinInt64 ==> d == MinInt64
  {
    var d := (end - start) * 1_000_000_000;
    if d > MaxInt64 then MaxInt64 else if d < MinInt64 then MinInt64 else d
  }

  /** `int(d.Hours() / 24)`: whole days, truncated toward zero as Go's conversion does. */
  function WholeDays(d: int): (q: int)
    ensures d >= 0 ==> 0 <= q && q * 86_400_000_000_000 <= d < (q + 1) * 86_400_000_000_000
    ensures d < 0 ==> q <= 0 && (q - 1) * 86_400_000_000_000 < d <= q * 86_400_000_000_000
  {
    if d >= 0 then d / 86_400_000_000_000 else -((-d) / 86_400_000_000_000)
  }

  /** The nights charged: the whole days between the dates, at least 1. An end at or before
      the start is not rejected and costs one night. Within the span Duration can hold, the
      count is exactly the number of whole days elapsed; beyond it Sub saturates and the
      count is the whole days of the largest Duration, 106751. */
  function Nights(start: int, end: int): (n: int)
    ensures 1 <= n <= MaxInt64 / (SecondsPerDay * NanosPerSecond)
    ensures end - start < 2 * SecondsPerDay ==> n == 1
    ensures SecondsPerDay <= end - start <= MaxSpanSeconds ==>
      n * SecondsPerDay <= end - start < (n + 1) * SecondsPerDay
    ensures end - start > MaxSpanSeconds ==> n == MaxInt64 / (SecondsPerDay * NanosPerSecond)
  {
    var days := WholeDays(Sub(end, start));
    DaysOfSpan(start, end);
    if days < 1 then 1 else days
  }

  lemma DaysOfSpan(start: int, end: int)
    ensures WholeDays(Sub(end, start)) <= MaxInt64 / (SecondsPerDay * NanosPerSecond)
    ensures end - start < 2 * SecondsPerDay ==> WholeDays(Sub(end, start)) <= 1
    ensures SecondsPerDay <= end - start <= MaxSpanSeconds ==>
      WholeDays(Sub(end, start)) == (end - start) / SecondsPerDay
  {
    if 0 <= end - start <= MaxSpanSeconds {
      WholeDaysOfSeconds(end - start);
      assert Sub(end, start) == Sub(end - start, 0);
    }
  }

  /** For a non-negative span of seconds that fits a Duration, the whole days are the
      span divided by 86400. */
  lemma WholeDaysOfSeconds(s: int)
    requires 0 <= s <= MaxSpanSeconds
    ensures WholeDays(Sub(s, 0)) == s / SecondsPerDay
  {
    assert Sub(s, 0) == s * 1_000_000_000;
    assert (s * 1_000_000_000) / 86_400_000_000_000 == s / 86_400;
  }

  /** totalPrice: the nights times 50000; always between one night and the most nights a
      Duration can span, so it fits the int64 column. */
  function TotalPrice(start: int, end: int): (p: int)
    ensures p % NightlyRate == 0 && p / NightlyRate == Nights(start, end)
    ensures NightlyRate <= p <= MaxInt64
  {
    Nights(start, end) * NightlyRate
  }

  /** The example of a two-night stay: 2025-06-01 to 2025-06-03 (UTC midnights) costs
      two nights. */
  lemma TwoNightStay()
    ensures TotalPrice(1748736000, 1748908800) == 2 * NightlyRate
  {
    WholeDaysOfSeconds(172800);
    assert Sub(1748908800, 1748736000) == Sub(172800, 0);
  }

  /** dbReservationToProto's status switch: the three named states map to their values,
      every other string (including "PENDING") to PENDING. */
  function StatusFromDb(s: string): (k: Status)
    ensures k == Confirmed <==> s == "CONFIRMED"
    ensures k == Cancelled <==> s == "CANCELLED"
    ensures k == Completed <==> s == "COMPLETED"
  {
    match s
    case "CONFIRMED" => Confirmed
    case "CANCELLED" => Cancelled
    case "COMPLETED" => Completed
    case _ => Pending
  }

  /** The status column's text for each state. */
  function StatusName(k: Status): string
  {
    match k
    case Pending => "PENDING"
    case Confirmed => "CONFIRMED"
    case Cancelled => "CANCELLED"
    case Completed => "COMPLETED"
  }

  lemma StatusRoundTrip(k: Status)
    ensures StatusFromDb(StatusName(k)) == k
  {
  }

  /** dbReservationToProto: the ids in uuidToString's text form (a NULL id reads back as
      no id), the status by StatusFromDb, the room and price as stored, and each date as
      stored, a NULL column becoming a nil timestamp. */
  function ToProto(row: ReservationRow): (p: Reservation)
    ensures p.id == UuidToString(row.id) && p.userId == UuidToString(row.userId)
    ensures p.status == StatusFromDb(row.status)
    ensures p.startDate.None? <==> row.startDate.None?
    ensures p.endDate.None? <==> row.endDate.None?
    ensures p.startDate == row.startDate && p.endDate == row.endDate
    ensures p.roomId == row.roomId && p.totalPrice == row.totalPrice
  {
    Reservation(UuidToString(row.id), UuidToString(row.userId), row.roomId,
                row.startDate, row.endDate, row.totalPrice, StatusFromDb(row.status))
  }

  /** The ids of a reservation read back parse to the stored bytes; a NULL id reads
      back as text that parses to nothing. */
  lemma ToProtoIds(row: ReservationRow)
    ensures ParseUuid(ToProto(row).id) == (if row.id.valid then Some(row.id.bytes) else None)
    ensures ParseUuid(ToProto(row).userId) == (if row.userId.valid then Some(row.userId.bytes) else None)
  {
    ParseFormatted(row.id);
    ParseFormatted(row.userId);
  }

  /** The row CreateReservation inserts: the generated id and the booking user, both
      non-NULL, the request's room and dates, the priced nights and status PENDING. */
  function NewRow(id: UuidBytes, user: UuidBytes, req: CreateReservationRequest): (row: ReservationRow)
    ensures row.id == PgUuid(id, true) && row.userId == PgUuid(user, true)
    ensures row.roomId == req.roomId
    ensures row.startDate == Some(req.startDate) && row.endDate == Some(req.endDate)
    ensures row.totalPrice == NightlyRate * Nights(req.startDate, req.endDate)
    ensures StatusFromDb(row.status) == Pending && row.status == "PENDING"
  {
    ReservationRow(PgUuid(id, true), PgUuid(user, true), req.roomId, Some(req.startDate),
                   Some(req.endDate), TotalPrice(req.startDate, req.endDate), StatusName(Pending))
  }

  /** Reading back a freshly created row gives a PENDING reservation with the request's
      user, room and dates and the computed price. */
  lemma NewRowReadsBack(id: UuidBytes, req: CreateReservationRequest, user: UuidBytes)
    requires ParseUuid(req.userId) == Some(user)
    ensures var p := ToProto(NewRow(id, user, req));
      p.status == Pending && p.roomId == req.roomId
      && p.startDate == Some(req.startDate) && p.endDate == Some(req.endDate)
      && p.totalPrice == TotalPrice(req.startDate, req.endDate)
      && ParseUuid(p.id) == Some(id) && ParseUuid(p.userId) == Some(user)
  {
    FormatThenParse(PgUuid(id, true));
    FormatThenParse(PgUuid(user, true));
  }

  /** A leap year of the proleptic Gregorian calendar, which package time uses. */
  predicate IsLeapYear(y: int)
  {
    y % 4 == 0 && (y % 100 != 0 || y % 400 == 0)
  }

  /** The days from 0000-01-01 to January 1 of year `y`. */
  function DaysBeforeYear(y: nat): (d: int)
    ensures y == 0 ==> d == 0
  {
    365 * y + (y + 3) / 4 - (y + 99) / 100 + (y + 399) / 400
  }

  /** Each year adds 366 days when it is a leap year and 365 otherwise. */
  lemma DaysBeforeYearStep(y: nat)
    ensures DaysBeforeYear(y + 1) == DaysBeforeYear(y) + (if IsLeapYear(y) then 366 else 365)
  {
    QuarterStep(y);
    CenturyStep(y);
    FourCenturyStep(y);
    LeapDivisors(y);
    var q4, q100, q400 := (y + 3) / 4, (y + 99) / 100, (y + 399) / 400;
    assert DaysBeforeYear(y) == 365 * y + q4 - q100 + q400;
  }

  lemma LeapDivisors(y: nat)
    ensures y % 400 == 0 ==> y % 100 == 0
    ensures y % 100 == 0 ==> y % 4 == 0
  {
    if y % 400 == 0 {
      assert y == 100 * (4 * (y / 400));
    }
    if y % 100 == 0 {
      assert y == 4 * (25 * (y / 100));
    }
  }

  lemma QuarterStep(y: nat)
    ensures (y + 4) / 4 == (y + 3) / 4 + (if y % 4 == 0 then 1 else 0)
  {
  }

  lemma CenturyStep(y: nat)
    ensures (y + 100) / 100 == (y + 99) / 100 + (if y % 100 == 0 then 1 else 0)
  {
  }

  lemma FourCenturyStep(y: nat)
    ensures (y + 400) / 400 == (y + 399) / 400 + (if y % 400 == 0 then 1 else 0)
  {
  }

  /** The instant, in seconds since 1970-01-01T00:00:00Z, at which year `y` begins. */
  function StartOfYear(y: nat): int
  {
    (DaysBeforeYear(y) - DaysBeforeYear(1970)) * SecondsPerDay
  }

  /** 0000-01-01T00:00:00Z and 9999-12-31T23:59:59Z. */
  const MinJsonInstant: int := -62167219200
  const MaxJsonInstant: int := 253402300799

  /** time.Time.MarshalJSON succeeds exactly for years 0 through 9999: from the start of
      year 0 up to, not including, the start of year 10000. */
  function JsonEncodable(t: int): (b: bool)
    ensures b <==> MinJsonInstant <= t <= MaxJsonInstant
  {
    JsonYearBounds();
    StartOfYear(0) <= t < StartOfYear(10000)
  }

  lemma JsonYearBounds()
    ensures StartOfYear(0) == MinJsonInstant && StartOfYear(10000) == MaxJsonInstant + 1
  {
    assert (1970 + 3) / 4 == 493 && (1970 + 99) / 100 == 20 && (1970 + 399) / 400 == 5;
    assert DaysBeforeYear(1970) == 719528;
    assert (10000 + 3) / 4 == 2500 && (10000 + 99) / 100 == 100 && (10000 + 399) / 400 == 25;
    assert DaysBeforeYear(10000) == 3652425;
  }

  /** The message published for a new reservation, always with the origin attribute.
      When both dates can be encoded, the body is a ReservationCreated payload with the
      new id, the user id as the request spelled it and the request's dates. Otherwise
      json.Marshal fails, the error is only logged, and the message goes out with an
      empty body. */
  function CreatedMessage(reservationId: string, req: CreateReservationRequest): (m: Message)
    ensures m.attributes == map["origin" := Origin]
    ensures m.data.Json? <==> JsonEncodable(req.startDate) && JsonEncodable(req.endDate)
    ensures m.data.Json? ==>
      m.data.payload == EventPayload(EventTypeReservationCreated, reservationId, req.userId,
                                     req.startDate, req.endDate)
    ensures !m.data.Json? ==> m.data == Unparsable([])
  {
    var body :=
      if JsonEncodable(req.startDate) && JsonEncodable(req.endDate) then
        Json(EventPayload(EventTypeReservationCreated, reservationId, req.userId, req.startDate, req.endDate))
      else Unparsable([]);
    Message(body, map["origin" := Origin])
  }

  /** The loop of ListReservations: one reservation per row, in order. */
  method ProtosOf(rows: seq<ReservationRow>) returns (reservations: seq<Reservation>)
    ensures |reservations| == |rows|
    ensures forall i :: 0 <= i < |rows| ==> reservations[i] == ToProto(rows[i])
  {
    reservations := [];
    for i := 0 to |rows|
      invariant |reservations| == i
      invariant forall j :: 0 <= j < i ==> reservations[j] == ToProto(rows[j])
    {
      reservations := reservations + [ToProto(rows[i])];
    }
  }

  /** The Pub/Sub topic: the messages it has accepted, in order. */
  class Topic {
    var published: seq<Message>

    constructor()
      ensures published == []
    {
      published := [];
    }
  }

  class ReservationServer {
    const db: Db
    const topic: Topic

    constructor(db: Db, topic: Topic)
      ensures this.db == db && this.topic == topic
    {
      this.db := db;
      this.topic := topic;
    }

    /** CreateReservation. `newId` is the id the database generates, `storeFails` an insert
        failure, `publishOk` whether Pub/Sub acknowledged the publish. An unparsable user
        id or a failed insert returns an error and changes nothing. A successful insert
        appends one PENDING row and returns its id with status PENDING, whether or not the
        publish then succeeds; the one ReservationCreated message reaches the topic only
        when it does. */
    method CreateReservation(req: CreateReservationRequest, newId: UuidBytes, storeFails: bool, publishOk: bool)
      returns (r: Result<CreateReservationResponse, string>)
      requires db.Valid()
      modifies db, topic
      ensures db.Valid() && db.keys == old(db.keys)
      ensures ParseUuid(req.userId) == None ==> r == Failure("invalid user_id format")
      ensures ParseUuid(req.userId).Some? && (storeFails || old(HasReservation(db.reservations, newId)))
              ==> r == Failure("failed to create reservation")
      ensures r.Failure? ==> db.reservations == old(db.reservations) && topic.published == old(topic.published)
      ensures r.Success? <==>
        ParseUuid(req.userId).Some? && !storeFails && !old(HasReservation(db.reservations, newId))
      ensures r.Success? ==>
        && r.value == CreateReservationResponse(UuidToString(PgUuid(newId, true)), Pending)
        && db.reservations == old(db.reservations) + [NewRow(newId, ParseUuid(req.userId).value, req)]
        && topic.published == old(topic.published)
                              + (if publishOk then [CreatedMessage(r.value.reservationId, req)] else [])
    {
      var userUuid := ParseUuid(req.userId);
      if userUuid.None? {
        return Failure("invalid user_id format");
      }
      if storeFails || HasReservation(db.reservations, newId) {
        return Failure("failed to create reservation");
      }
      var row := NewRow(newId, userUuid.value, req);
      db.reservations := db.reservations + [row];
      var resId := UuidToString(row.id);
      var event := CreatedMessage(resId, req);
      if publishOk {
        topic.published := topic.published + [event];
      }
      r := Success(CreateReservationResponse(resId, Pending));
    }

    /** GetReservation: the stored reservation with that id, or an error for an
        unparsable id or a failed query, whether the row is missing (pgx.ErrNoRows) or the
        query itself fails (`lookupFails`): both read as "reservation not found". In a
        valid table the reservation returned is the one row with that id. */
    method GetReservation(reservationId: string, lookupFails: bool) returns (r: Result<Reservation, string>)
      ensures ParseUuid(reservationId) == None ==> r == Failure("invalid reservation_id format")
      ensures ParseUuid(reservationId).Some?
              && (lookupFails || !HasReservation(db.reservations, ParseUuid(reservationId).value))
              ==> r == Failure("reservation not found")
      ensures r.Success? <==>
        ParseUuid(reservationId).Some? && !lookupFails && HasReservation(db.reservations, ParseUuid(reservationId).value)
      ensures r.Success? ==> exists row :: row in db.reservations && row.id == PgUuid(ParseUuid(reservationId).value, true)
                                            && r.value == ToProto(row)
      ensures r.Success? && db.Valid() ==>
        forall k :: 0 <= k < |db.reservations| && db.reservations[k].id == PgUuid(ParseUuid(reservationId).value, true)
                    ==> r.value == ToProto(db.reservations[k])
    {
      var id := ParseUuid(reservationId);
      if id.None? {
        return Failure("invalid reservation_id format");
      }
      if lookupFails {
        return Failure("reservation not found");
      }
      var row := FindReservation(db.reservations, id.value);
      if row.None? {
        return Failure("reservation not found");
      }
      r := Success(ToProto(row.value));
      if db.Valid() {
        forall k | 0 <= k < |db.reservations| && db.reservations[k].id == PgUuid(id.value, true)
          ensures r.value == ToProto(db.reservations[k])
        {
          FindReservationUnique(db.reservations, id.value, k);
        }
      }
    }

    /** ListReservations: one reservation per row of the user's query result, in the
        query's order. `queryFails` is a failure of the query. */
    method ListReservations(userId: string, queryFails: bool) returns (r: Result<seq<Reservation>, string>)
      ensures ParseUuid(userId) == None ==> r == Failure("invalid user_id format")
      ensures ParseUuid(userId).Some? && queryFails ==> r == Failure("failed to list reservations")
      ensures r.Success? <==> ParseUuid(userId).Some? && !queryFails
      ensures r.Success? ==>
        var rows := ReservationsOfUser(db.reservations, ParseUuid(userId).value);
        |r.value| == |rows| && forall i :: 0 <= i < |rows| ==> r.value[i] == ToProto(rows[i])
    {
      var user := ParseUuid(userId);
      if user.None? {
        return Failure("invalid user_id format");
      }
      if queryFails {
        return Failure("failed to list reservations");
      }
      var rows := ReservationsOfUser(db.reservations, user.value);
      var reservations := ProtosOf(rows);
      r := Success(reservations);
    }
  }
}
