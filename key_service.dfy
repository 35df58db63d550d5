/** The key provisioner (cmd/key-service/service.go): issues a 4-digit PIN for a stored
    reservation and appends it to the keys table. */
module KeyService {
  import opened Wrappers
  import opened Uuids
  import opened Database

  /** Instants are whole seconds. */
  datatype GenerateKeyRequest = GenerateKeyRequest(reservationId: string, validFrom: int, validUntil: int)
  datatype GenerateKeyResponse = GenerateKeyResponse(keyCode: string, deviceId: string)
  datatype RevokeKeyResponse = RevokeKeyResponse(success: bool)

  /** pb.Key; a date of None is a nil timestamp. */
  datatype Key = Key(keyCode: string, deviceId: string, reservationId: string,
                     validFrom: Option<int>, validUntil: Option<int>)

  /** The bound given to crypto/rand.Int: the random number is in [0, 9000). */
  const PinRange: int := 9000
  const PinBase: int := 1000
  const DefaultDeviceId: string := "smart-lock-device-001"

  function Digit(d: int): (c: char)
    requires 0 <= d < 10
    ensures '0' <= c <= '9' && c as int - '0' as int == d
  {
    ('0' as int + d) as char
  }

  /** strconv.Itoa of a non-negative number: its decimal digits, without leading zeros. */
  function Itoa(n: nat): (s: string)
    ensures |s| >= 1 && forall i :: 0 <= i < |s| ==> '0' <= s[i] <= '9'
    ensures |s| > 1 ==> s[0] != '0'
  {
    if n < 10 then [Digit(n)] else Itoa(n / 10) + [Digit(n % 10)]
  }

  /** The number a string of decimal digits denotes. */
  function DecimalValue(s: string): nat
    requires forall i :: 0 <= i < |s| ==> '0' <= s[i] <= '9'
  {
    if s == [] then 0
    else DecimalValue(s[..|s| - 1]) * 10 + (s[|s| - 1] as int - '0' as int)
  }

  lemma {:induction false} ItoaRoundTrip(n: nat)
    ensures DecimalValue(Itoa(n)) == n
  {
    if n >= 10 {
      var s := Itoa(n);
      assert s[..|s| - 1] == Itoa(n / 10);
      ItoaRoundTrip(n / 10);
    }
  }

  lemma {:induction false} ItoaLength(n: nat, digits: nat)
    requires digits >= 1
    requires (if digits == 1 then 0 else Pow10(digits - 1)) <= n < Pow10(digits)
    ensures |Itoa(n)| == digits
  {
    if digits > 1 {
      if digits > 2 { Pow10Step(digits - 2); }
      Pow10Step(digits - 1);
      ItoaLength(n / 10, digits - 1);
    }
  }

  function Pow10(k: nat): nat
  {
    if k == 0 then 1 else 10 * Pow10(k - 1)
  }

  lemma Pow10Step(k: nat)
    ensures Pow10(k + 1) == 10 * Pow10(k)
  {
  }

  /** The key code: strconv.Itoa(1000 + r). It is four decimal digits, the first not zero,
      and denotes 1000 + r, so it lies in 1000..9999. */
  function KeyCode(r: int): (code: string)
    requires 0 <= r < PinRange
    ensures |code| == 4 && forall i :: 0 <= i < 4 ==> '0' <= code[i] <= '9'
    ensures code[0] != '0'
    ensures DecimalValue(code) == PinBase + r
  {
    var pin := PinBase + r;
    ItoaRoundTrip(pin);
    assert Pow10(3) == 1000 && Pow10(4) == 10000;
    ItoaLength(pin, 4);
    Itoa(pin)
  }

  /** The lock device: SMART_LOCK_DEVICE_ID when set and non-empty, else the default. */
  function DeviceId(envDeviceId: string): (d: string)
    ensures envDeviceId != "" ==> d == envDeviceId
    ensures envDeviceId == "" ==> d == DefaultDeviceId
  {
    if envDeviceId == "" then DefaultDeviceId else envDeviceId
  }

  /** What GenerateKey does with a request against the reservations it can read: the key
      row it stores, or its error. `lookupFails` is a failure of the reservation query,
      `random` crypto/rand's draw from [0, 9000) (None: the draw failed), `envDeviceId`
      the environment variable, `storeFails` a failed insert.
      The errors come in the source's order; a stored key takes its user from the
      reservation and its dates verbatim from the request, with no check of their order
      and no check for a key the reservation already has. */
  function IssueKey(rows: seq<ReservationRow>, req: GenerateKeyRequest, lookupFails: bool,
                    random: Option<int>, envDeviceId: string, storeFails: bool): (r: Result<KeyRow, string>)
    requires random.Some? ==> 0 <= random.value < PinRange
    ensures ParseUuid(req.reservationId) == None ==> r == Failure("invalid reservation_id format")
    ensures ParseUuid(req.reservationId).Some?
            && (lookupFails || !HasReservation(rows, ParseUuid(req.reservationId).value))
            ==> r == Failure("reservation not found")
    ensures ParseUuid(req.reservationId).Some? && !lookupFails
            && HasReservation(rows, ParseUuid(req.reservationId).value) && random == None
            ==> r == Failure("failed to generate secure key code")
    ensures ParseUuid(req.reservationId).Some? && !lookupFails
            && HasReservation(rows, ParseUuid(req.reservationId).value) && random.Some? && storeFails
            ==> r == Failure("failed to create key")
    ensures r.Success? <==>
      ParseUuid(req.reservationId).Some? && !lookupFails
      && HasReservation(rows, ParseUuid(req.reservationId).value) && random.Some? && !storeFails
    ensures r.Success? ==>
      var id := ParseUuid(req.reservationId).value;
      && r.value.reservationId == PgUuid(id, true)
      && r.value.userId == FindReservation(rows, id).value.userId
      && r.value.keyCode == KeyCode(random.value)
      && r.value.deviceId == DeviceId(envDeviceId)
      && r.value.validFrom == Some(req.validFrom) && r.value.validUntil == Some(req.validUntil)
  {
    match ParseUuid(req.reservationId)
    case None => Failure("invalid reservation_id format")
    case Some(id) =>
      match if lookupFails then None else FindReservation(rows, id)
      case None => Failure("reservation not found")
      case Some(reservation) =>
        match random
        case None => Failure("failed to generate secure key code")
        case Some(n) =>
          if storeFails then Failure("failed to create key")
          else Success(KeyRow(PgUuid(id, true), reservation.userId, KeyCode(n), DeviceId(envDeviceId),
                              Some(req.validFrom), Some(req.validUntil)))
  }

  /** dbKeyToProto: code and device as stored, the reservation id in text form (a NULL
      id reads back as no id), and each validity bound as stored, a NULL column becoming
      a nil timestamp. */
  function KeyToProto(k: KeyRow): (p: Key)
    ensures p.reservationId == UuidToString(k.reservationId)
    ensures p.keyCode == k.keyCode && p.deviceId == k.deviceId
    ensures p.validFrom.None? <==> k.validFrom.None?
    ensures p.validUntil.None? <==> k.validUntil.None?
    ensures p.validFrom == k.validFrom && p.validUntil == k.validUntil
  {
    Key(k.keyCode, k.deviceId, UuidToString(k.reservationId), k.validFrom, k.validUntil)
  }

  /** The reservation id of a key read back parses to the stored bytes, or to nothing
      for a NULL id. */
  lemma KeyToProtoId(k: KeyRow)
    ensures ParseUuid(KeyToProto(k).reservationId)
            == (if k.reservationId.valid then Some(k.reservationId.bytes) else None)
  {
    ParseFormatted(k.reservationId);
  }

  /** The loop of ListKeys: one key per row, in order. */
  method KeyProtosOf(rows: seq<KeyRow>) returns (keys: seq<Key>)
    ensures |keys| == |rows|
    ensures forall i :: 0 <= i < |rows| ==> keys[i] == KeyToProto(rows[i])
  {
    keys := [];
    for i := 0 to |rows|
      invariant |keys| == i
      invariant forall j :: 0 <= j < i ==> keys[j] == KeyToProto(rows[j])
    {
      keys := keys + [KeyToProto(rows[i])];
    }
  }

  class KeyServer {
    const db: Db

    constructor(db: Db)
      ensures this.db == db
    {
      this.db := db;
    }

    /** GenerateKey, specified by the function IssueKey: on success exactly one row, the
        one IssueKey describes, is appended to the keys table, and the response carries
        that row's code and device; on an error nothing is stored. */
    method GenerateKey(req: GenerateKeyRequest, lookupFails: bool, random: Option<int>, envDeviceId: string,
                       storeFails: bool)
      returns (r: Result<GenerateKeyResponse, string>)
      requires random.Some? ==> 0 <= random.value < PinRange
      modifies db
      ensures db.reservations == old(db.reservations)
      ensures old(db.Valid()) ==> db.Valid()
      ensures var issued := IssueKey(old(db.reservations), req, lookupFails, random, envDeviceId, storeFails);
        match issued
        case Success(row) =>
          db.keys == old(db.keys) + [row] && r == Success(GenerateKeyResponse(row.keyCode, row.deviceId))
        case Failure(e) =>
          db.keys == old(db.keys) && r == Failure(e)
    {
      var resUuid := ParseUuid(req.reservationId);
      if resUuid.None? {
        return Failure("invalid reservation_id format");
      }
      if lookupFails {
        return Failure("reservation not found");
      }
      var reservation := FindReservation(db.reservations, resUuid.value);
      if reservation.None? {
        return Failure("reservation not found");
      }
      if random.None? {
        return Failure("failed to generate secure key code");
      }
      var keyCode := KeyCode(random.value);
      var deviceId := DeviceId(envDeviceId);
      if storeFails {
        return Failure("failed to create key");
      }
      db.keys := db.keys + [KeyRow(PgUuid(resUuid.value, true), reservation.value.userId, keyCode, deviceId,
                                   Some(req.validFrom), Some(req.validUntil))];
      r := Success(GenerateKeyResponse(keyCode, deviceId));
    }

    /** RevokeKey: always reports success, and (having no modifies clause) changes nothing. */
    method RevokeKey(reservationId: string) returns (r: RevokeKeyResponse)
      ensures r.success
    {
      r := RevokeKeyResponse(true);
    }

    /** ListKeys: one key per row the active-keys query returns for the user at `now`.
        `queryFails` is a failure of the query. */
    method ListKeys(userId: string, now: int, queryFails: bool) returns (r: Result<seq<Key>, string>)
      ensures ParseUuid(userId) == None ==> r == Failure("invalid user_id format")
      ensures ParseUuid(userId).Some? && queryFails ==> r == Failure("failed to list keys")
      ensures r.Success? <==> ParseUuid(userId).Some? && !queryFails
      ensures r.Success? ==>
        var rows := ActiveKeysOfUser(db.keys, ParseUuid(userId).value, now);
        |r.value| == |rows| && forall i :: 0 <= i < |rows| ==> r.value[i] == KeyToProto(rows[i])
    {
      var user := ParseUuid(userId);
      if user.None? {
        return Failure("invalid user_id format");
      }
      if queryFails {
        return Failure("failed to list keys");
      }
      var rows := ActiveKeysOfUser(db.keys, user.value, now);
      var keys := KeyProtosOf(rows);
      r := Success(keys);
    }
  }
}
