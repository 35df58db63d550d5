/** UUIDs as the services see them: pgtype.UUID values (16 bytes and a validity flag),
    the `uuidToString` formatter that all three services carry an identical copy of,
    and the text parser behind `stringToUUID` (pgtype.UUID.Scan on a string). */
module Uuids {
  import opened Wrappers

  newtype byte = x: int | 0 <= x < 256

  type UuidBytes = s: seq<byte> | |s| == 16
    witness [0, 0, 0, 0, 0, 0, 0, 0, 0, 0, 0, 0, 0, 0, 0, 0]

  /** pgtype.UUID: `valid == false` is SQL NULL. */
  datatype PgUuid = PgUuid(bytes: UuidBytes, valid: bool)

  predicate IsLowerHex(c: char)
  {
    '0' <= c <= '9' || 'a' <= c <= 'f'
  }

  function HexDigit(n: int): (c: char)
    requires 0 <= n < 16
    ensures IsLowerHex(c)
  {
    if n < 10 then ('0' as int + n) as char else ('a' as int + n - 10) as char
  }

  /** `%x` of a byte slice (and hex.EncodeToString): two lower-case digits per byte,
      high nibble first. */
  function Hex(bs: seq<byte>): (h: string)
    ensures |h| == 2 * |bs|
    ensures forall i :: 0 <= i < |h| ==> IsLowerHex(h[i])
  {
    if bs == [] then []
    else [HexDigit(bs[0] as int / 16), HexDigit(bs[0] as int % 16)] + Hex(bs[1..])
  }

  lemma {:induction false} HexAppend(a: seq<byte>, b: seq<byte>)
    ensures Hex(a + b) == Hex(a) + Hex(b)
  {
    if a != [] {
      assert (a + b)[1..] == a[1..] + b;
      HexAppend(a[1..], b);
    } else {
      assert a + b == b;
    }
  }

  /** The position of the four dashes in the canonical text form. */
  predicate IsDashPosition(i: int)
  {
    i == 8 || i == 13 || i == 18 || i == 23
  }

  /** uuidToString: "" for NULL, otherwise 8-4-4-4-12 lower-case hex digits.
      (The source's `hex.EncodeToString` fallback for a length other than 16 cannot
      run: pgtype.UUID always holds 16 bytes.) */
  function UuidToString(u: PgUuid): (s: string)
    ensures !u.valid ==> s == ""
    ensures u.valid ==> |s| == 36
    ensures u.valid ==> forall i :: 0 <= i < 36 ==>
      (IsDashPosition(i) ==> s[i] == '-') && (!IsDashPosition(i) ==> IsLowerHex(s[i]))
  {
    if !u.valid then ""
    else
      var b := u.bytes;
      Hex(b[0..4]) + "-" + Hex(b[4..6]) + "-" + Hex(b[6..8]) + "-" + Hex(b[8..10]) + "-" + Hex(b[10..16])
  }

  /** hex.DecodeString accepts both letter cases. */
  function HexValue(c: char): Option<int>
  {
    if '0' <= c <= '9' then Some(c as int - '0' as int)
    else if 'a' <= c <= 'f' then Some(c as int - 'a' as int + 10)
    else if 'A' <= c <= 'F' then Some(c as int - 'A' as int + 10)
    else None
  }

  lemma HexValueRange(c: char)
    ensures HexValue(c).Some? ==> 0 <= HexValue(c).value < 16
  {
  }

  /** hex.DecodeString: fails on an odd length or a non-hex digit. */
  function DecodeHex(s: string): (r: Option<seq<byte>>)
    ensures r.Some? ==> |s| % 2 == 0 && |r.value| == |s| / 2
    decreases |s|
  {
    if s == [] then Some([])
    else if |s| == 1 then None
    else
      var hi, lo, rest := HexValue(s[0]), HexValue(s[1]), DecodeHex(s[2..]);
      if hi.None? || lo.None? || rest.None? then None
      else
        HexValueRange(s[0]);
        HexValueRange(s[1]);
        Some([(hi.value * 16 + lo.value) as byte] + rest.value)
  }

  lemma HexValueOfDigit(n: int)
    requires 0 <= n < 16
    ensures HexValue(HexDigit(n)) == Some(n)
  {
  }

  lemma {:induction false} DecodeHexOfHex(bs: seq<byte>)
    ensures DecodeHex(Hex(bs)) == Some(bs)
  {
    if bs != [] {
      var h := Hex(bs);
      var b := bs[0] as int;
      assert h == [HexDigit(b / 16), HexDigit(b % 16)] + Hex(bs[1..]);
      assert h[2..] == Hex(bs[1..]);
      DecodeHexOfHex(bs[1..]);
      HexValueOfDigit(b / 16);
      HexValueOfDigit(b % 16);
      assert (b / 16 * 16 + b % 16) as byte == bs[0];
      assert [bs[0]] + bs[1..] == bs;
    }
  }

  /** The 36-character form with the four dash positions removed. The dash positions
      themselves are not inspected. */
  function StripDashes(s: string): (r: string)
    requires |s| == 36
    ensures |r| == 32
  {
    s[0..8] + s[9..13] + s[14..18] + s[19..23] + s[24..]
  }

  /** stringToUUID: pgtype's text form, either 36 characters with the dash positions
      skipped or 32 plain hex digits. Go's length is in bytes, so a string with any
      non-ASCII character is rejected (one non-ASCII character makes a 36-character
      string longer than 36 bytes, or puts a non-hex byte into the digits). */
  function ParseUuid(s: string): (r: Option<UuidBytes>)
    ensures r.Some? ==> |s| == 36 || |s| == 32
  {
    if exists i :: 0 <= i < |s| && s[i] >= '\U{80}' then None
    else
      var digits := if |s| == 36 then StripDashes(s) else s;
      if |digits| != 32 then None
      else
        match DecodeHex(digits)
        case Some(bs) => Some(bs)
        case None => None
  }

  /** Removing the dashes of the canonical form leaves the 32 hex digits of the bytes. */
  lemma StripDashesOfFormat(u: PgUuid)
    requires u.valid
    ensures StripDashes(UuidToString(u)) == Hex(u.bytes)
  {
    var b := u.bytes;
    var h0, h1, h2, h3, h4 := Hex(b[0..4]), Hex(b[4..6]), Hex(b[6..8]), Hex(b[8..10]), Hex(b[10..16]);
    var s := UuidToString(u);
    assert s == h0 + "-" + h1 + "-" + h2 + "-" + h3 + "-" + h4;
    assert s[0..8] == h0;
    assert s[9..13] == h1;
    assert s[14..18] == h2;
    assert s[19..23] == h3;
    assert s[24..] == h4;
    HexAppend(b[0..4], b[4..6]);
    HexAppend(b[0..6], b[6..8]);
    HexAppend(b[0..8], b[8..10]);
    HexAppend(b[0..10], b[10..16]);
    assert b[0..4] + b[4..6] == b[0..6];
    assert b[0..6] + b[6..8] == b[0..8];
    assert b[0..8] + b[8..10] == b[0..10];
    assert b[0..10] + b[10..16] == b;
  }

  /** The canonical form is parsed back to the same bytes. */
  lemma FormatThenParse(u: PgUuid)
    requires u.valid
    ensures ParseUuid(UuidToString(u)) == Some(u.bytes)
  {
    var s := UuidToString(u);
    assert !exists i :: 0 <= i < |s| && s[i] >= '\U{80}' by {
      forall i | 0 <= i < |s| ensures s[i] < '\U{80}' {
        if !IsDashPosition(i) { assert IsLowerHex(s[i]); }
      }
    }
    StripDashesOfFormat(u);
    DecodeHexOfHex(u.bytes);
  }

  /** Different valid UUIDs never share a text form. */
  lemma FormatInjective(u: PgUuid, v: PgUuid)
    requires u.valid && v.valid && UuidToString(u) == UuidToString(v)
    ensures u == v
  {
    FormatThenParse(u);
    FormatThenParse(v);
  }

  /** What the service's read path gives back for a stored id: the bytes of a valid
      UUID, and nothing for a NULL one, whose text form "" does not parse. */
  lemma ParseFormatted(u: PgUuid)
    ensures ParseUuid(UuidToString(u)) == if u.valid then Some(u.bytes) else None
  {
    if u.valid {
      FormatThenParse(u);
    }
  }
}
