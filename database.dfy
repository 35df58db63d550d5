/** The two PostgreSQL tables the reservation and key services share, and the queries
    they run on them. The query texts are not part of this model; each query is the
    function its name and use describe. */
module Database {
  import opened Wrappers
  import opened Uuids

  /** A row of the reservations table; a date of None is SQL NULL (pgtype.Timestamp with
      Valid false). */
  datatype ReservationRow = ReservationRow(
    id: PgUuid,
    userId: PgUuid,
    roomId: int,
    startDate: Option<int>,
    endDate: Option<int>,
    totalPrice: int,
    status: string)

  /** A row of the keys table. */
  datatype KeyRow = KeyRow(
    reservationId: PgUuid,
    userId: PgUuid,
    keyCode: string,
    deviceId: string,
    validFrom: Option<int>,
    validUntil: Option<int>)

  class Db {
    var reservations: seq<ReservationRow>
    var keys: seq<KeyRow>

    /** Reservation ids are the primary key: valid and pairwise distinct. */
    ghost predicate Valid()
      reads this
    {
      (forall i :: 0 <= i < |reservations| ==> reservations[i].id.valid)
      && (forall i, j :: 0 <= i < j < |reservations| ==> reservations[i].id != reservations[j].id)
    }

    constructor()
      ensures Valid() && reservations == [] && keys == []
    {
      reservations, keys := [], [];
    }
  }

  /** Some row of `rows` has primary key `id`. */
  predicate HasReservation(rows: seq<ReservationRow>, id: UuidBytes)
  {
    exists i :: 0 <= i < |rows| && rows[i].id == PgUuid(id, true)
  }

  /** GetReservation: the row whose primary key is `id`, if there is one. */
  function FindReservation(rows: seq<ReservationRow>, id: UuidBytes): (r: Option<ReservationRow>)
    ensures r.Some? <==> HasReservation(rows, id)
    ensures r.Some? ==> r.value in rows && r.value.id == PgUuid(id, true)
  {
    if rows == [] then None
    else if rows[0].id == PgUuid(id, true) then Some(rows[0])
    else
      var r := FindReservation(rows[1..], id);
      assert forall i :: 1 <= i < |rows| ==> rows[i] == rows[1..][i - 1];
      assert HasReservation(rows[1..], id) ==> HasReservation(rows, id) by {
        if HasReservation(rows[1..], id) {
          var i :| 0 <= i < |rows[1..]| && rows[1..][i].id == PgUuid(id, true);
          assert rows[i + 1] == rows[1..][i];
        }
      }
      r
  }

  /** When ids are distinct, the row found is the only one with that id. */
  lemma FindReservationUnique(rows: seq<ReservationRow>, id: UuidBytes, k: nat)
    requires forall i, j :: 0 <= i < j < |rows| ==> rows[i].id != rows[j].id
    requires k < |rows| && rows[k].id == PgUuid(id, true)
    ensures FindReservation(rows, id) == Some(rows[k])
  {
    var r := FindReservation(rows, id);
    var m :| 0 <= m < |rows| && rows[m] == r.value;
    assert rows[m].id == rows[k].id;
  }

  /** After inserting a row with a fresh id, GetReservation on that id finds the new row. */
  lemma {:induction false} FindAfterInsert(rows: seq<ReservationRow>, row: ReservationRow, id: UuidBytes)
    requires row.id == PgUuid(id, true) && !HasReservation(rows, id)
    ensures FindReservation(rows + [row], id) == Some(row)
  {
    if rows != [] {
      assert rows[0].id != PgUuid(id, true);
      assert !HasReservation(rows[1..], id) by {
        forall i | 0 <= i < |rows[1..]|
          ensures rows[1..][i].id != PgUuid(id, true)
        {
          assert rows[1..][i] == rows[i + 1];
        }
      }
      FindAfterInsert(rows[1..], row, id);
      assert (rows + [row])[1..] == rows[1..] + [row];
    }
  }

  /** ListReservationsByUserID: the user's rows, in table order. */
  function ReservationsOfUser(rows: seq<ReservationRow>, user: UuidBytes): (r: seq<ReservationRow>)
    ensures |r| <= |rows|
    ensures forall x :: x in r <==> x in rows && x.userId == PgUuid(user, true)
  {
    if rows == [] then []
    else
      var rest := ReservationsOfUser(rows[1..], user);
      assert forall x :: x in rows <==> x == rows[0] || x in rows[1..];
      if rows[0].userId == PgUuid(user, true) then [rows[0]] + rest else rest
  }

  /** A key is active at instant `now` while its end of validity is still ahead. */
  predicate ActiveAt(k: KeyRow, now: int)
  {
    k.validUntil.Some? && now < k.validUntil.value
  }

  /** ListActiveKeysByUserID: the user's keys that are active at `now`, in table order. */
  function ActiveKeysOfUser(keys: seq<KeyRow>, user: UuidBytes, now: int): (r: seq<KeyRow>)
    ensures |r| <= |keys|
    ensures forall k :: k in r <==> k in keys && k.userId == PgUuid(user, true) && ActiveAt(k, now)
  {
    if keys == [] then []
    else
      var rest := ActiveKeysOfUser(keys[1..], user, now);
      assert forall x :: x in keys <==> x == keys[0] || x in keys[1..];
      if keys[0].userId == PgUuid(user, true) && ActiveAt(keys[0], now) then [keys[0]] + rest else rest
  }

  /** Filtering goes row by row: a single row is kept exactly when it is the user's, and
      the rows of a concatenation are the rows of each part, in order. Together these fix
      the result completely, duplicates and order included. */
  lemma ReservationsOfUserOne(x: ReservationRow, user: UuidBytes)
    ensures ReservationsOfUser([x], user) == if x.userId == PgUuid(user, true) then [x] else []
  {
    assert [x][1..] == [];
  }

  lemma {:induction false} ReservationsOfUserAppend(a: seq<ReservationRow>, b: seq<ReservationRow>, user: UuidBytes)
    ensures ReservationsOfUser(a + b, user) == ReservationsOfUser(a, user) + ReservationsOfUser(b, user)
  {
    if a == [] {
      assert a + b == b;
    } else {
      assert (a + b)[0] == a[0];
      assert (a + b)[1..] == a[1..] + b;
      ReservationsOfUserAppend(a[1..], b, user);
    }
  }

  /** The same two facts for the active-keys query. */
  lemma ActiveKeysOfUserOne(k: KeyRow, user: UuidBytes, now: int)
    ensures ActiveKeysOfUser([k], user, now) == if k.userId == PgUuid(user, true) && ActiveAt(k, now) then [k] else []
  {
    assert [k][1..] == [];
  }

  lemma {:induction false} ActiveKeysOfUserAppend(a: seq<KeyRow>, b: seq<KeyRow>, user: UuidBytes, now: int)
    ensures ActiveKeysOfUser(a + b, user, now) == ActiveKeysOfUser(a, user, now) + ActiveKeysOfUser(b, user, now)
  {
    if a == [] {
      assert a + b == b;
    } else {
      assert (a + b)[0] == a[0];
      assert (a + b)[1..] == a[1..] + b;
      ActiveKeysOfUserAppend(a[1..], b, user, now);
    }
  }
}
