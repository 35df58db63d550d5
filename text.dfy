/** The handful of Go `strings` operations the services rely on, over `seq<char>`. */
module Text {

  /** unicode.IsSpace, which strings.TrimSpace uses: the ASCII white space, U+0085, U+00A0
      and the other code points of Unicode's White_Space property. */
  predicate IsSpace(c: char)
  {
    var n := c as int;
    n == 0x20 || (0x09 <= n <= 0x0D) || n == 0x85 || n == 0xA0 || n == 0x1680
    || (0x2000 <= n <= 0x200A) || n == 0x2028 || n == 0x2029 || n == 0x202F
    || n == 0x205F || n == 0x3000
  }

  /** On ASCII, the white space is exactly Go's table: space, tab, newline, vertical tab,
      form feed and carriage return. */
  lemma AsciiSpaces(c: char)
    requires c < '\U{80}'
    ensures IsSpace(c) <==> c in " \t\n\U{b}\U{c}\r"
  {
    var ws := " \t\n\U{b}\U{c}\r";
    if IsSpace(c) {
      var n := c as int;
      if n == 0x20 { assert c == ws[0]; }
      else if n == 0x09 { assert c == ws[1]; }
      else if n == 0x0A { assert c == ws[2]; }
      else if n == 0x0B { assert c == ws[3]; }
      else if n == 0x0C { assert c == ws[4]; }
      else { assert c == ws[5]; }
    }
  }

  predicate AllSpace(s: string)
  {
    forall i :: 0 <= i < |s| ==> IsSpace(s[i])
  }

  /** The number of white-space characters `s` starts with. */
  function LeadingSpace(s: string): (n: nat)
    ensures n <= |s|
    ensures forall k :: 0 <= k < n ==> IsSpace(s[k])
    ensures n < |s| ==> !IsSpace(s[n])
  {
    if s == [] || !IsSpace(s[0]) then 0 else 1 + LeadingSpace(s[1..])
  }

  /** The number of white-space characters `s` ends with. */
  function TrailingSpace(s: string): (n: nat)
    ensures n <= |s|
    ensures forall k :: |s| - n <= k < |s| ==> IsSpace(s[k])
    ensures n < |s| ==> !IsSpace(s[|s| - n - 1])
  {
    if s == [] || !IsSpace(s[|s| - 1]) then 0 else 1 + TrailingSpace(s[..|s| - 1])
  }

  /** strings.TrimSpace: leading white space is cut first, then trailing white space
      from what is left. The result is the infix of `s` that starts at its first
      non-space character; everything outside it is white space, and it neither
      starts nor ends with white space. */
  function TrimSpace(s: string): (r: string)
    ensures LeadingSpace(s) + |r| <= |s| && r == s[LeadingSpace(s)..LeadingSpace(s) + |r|]
    ensures forall k :: 0 <= k < |s| && !(LeadingSpace(s) <= k < LeadingSpace(s) + |r|) ==> IsSpace(s[k])
    ensures r == [] || (!IsSpace(r[0]) && !IsSpace(r[|r| - 1]))
  {
    var t := s[LeadingSpace(s)..];
    var r := t[..|t| - TrailingSpace(t)];
    assert forall k :: LeadingSpace(s) + |r| <= k < |s| ==> s[k] == t[k - LeadingSpace(s)];
    r
  }

  /** A string is blank for the Go code when `strings.TrimSpace(s) == ""`: exactly when
      every character is white space. */
  lemma BlankIffAllSpace(s: string)
    ensures TrimSpace(s) == [] <==> AllSpace(s)
  {
    var r := TrimSpace(s);
    if r != [] {
      assert s[LeadingSpace(s)] == r[0];
    }
  }

  /** Trimming twice trims nothing more. */
  lemma TrimSpaceIdempotent(s: string)
    ensures TrimSpace(TrimSpace(s)) == TrimSpace(s)
  {
    var r := TrimSpace(s);
    if r != [] {
      assert LeadingSpace(r) == 0;
      assert TrailingSpace(r) == 0;
    }
  }

  /** strings.HasPrefix: `prefix` occurs at the start of `s`. */
  function HasPrefix(s: string, prefix: string): (b: bool)
    ensures b <==> OccursAt(s, prefix, 0)
  {
    |prefix| <= |s| && s[..|prefix|] == prefix
  }

  /** `sub` occurs in `s` at index `i`. */
  predicate OccursAt(s: string, sub: string, i: nat)
  {
    i + |sub| <= |s| && s[i..i + |sub|] == sub
  }

  /** strings.Contains: `sub` occurs somewhere in `s`. */
  function Contains(s: string, sub: string): (b: bool)
    ensures b <==> exists i: nat :: OccursAt(s, sub, i)
    decreases |s|
  {
    if |sub| > |s| then false
    else if s[..|sub|] == sub then (assert OccursAt(s, sub, 0); true)
    else
      var b := Contains(s[1..], sub);
      ContainsStep(s, sub);
      b
  }

  /** An occurrence past the first index is an occurrence in the tail. */
  lemma ContainsStep(s: string, sub: string)
    requires |sub| <= |s| && s[..|sub|] != sub
    ensures (exists i: nat :: OccursAt(s, sub, i)) <==> (exists i: nat :: OccursAt(s[1..], sub, i))
  {
    forall i: nat | OccursAt(s, sub, i) ensures i > 0 && OccursAt(s[1..], sub, i - 1) {
      assert s[1..][i - 1..i - 1 + |sub|] == s[i..i + |sub|];
    }
    forall i: nat | OccursAt(s[1..], sub, i) ensures OccursAt(s, sub, i + 1) {
      assert s[1..][i..i + |sub|] == s[i + 1..i + 1 + |sub|];
    }
  }

  /** The number of bytes of the UTF-8 encoding of one character. */
  function Utf8Width(c: char): (w: nat)
    ensures 1 <= w <= 4
    ensures w == 1 <==> c < '\U{80}'
    ensures w == 2 <==> '\U{80}' <= c < '\U{800}'
    ensures w == 3 <==> '\U{800}' <= c < '\U{10000}'
    ensures w == 4 <==> '\U{10000}' <= c
  {
    if c < '\U{80}' then 1
    else if c < '\U{800}' then 2
    else if c < '\U{10000}' then 3
    else 4
  }

  /** Go's `len` of a string: the length of its UTF-8 encoding. */
  function Utf8Length(s: string): (n: nat)
    ensures |s| <= n <= 4 * |s|
    ensures n == |s| <==> forall i :: 0 <= i < |s| ==> s[i] < '\U{80}'
  {
    if s == [] then 0
    else
      var n := Utf8Width(s[0]) + Utf8Length(s[1..]);
      assert forall i :: 1 <= i < |s| ==> s[i] == s[1..][i - 1];
      n
  }

  /** Byte lengths add up: the encoding of a concatenation is the two encodings in turn. */
  lemma {:induction false} Utf8LengthAppend(a: string, b: string)
    ensures Utf8Length(a + b) == Utf8Length(a) + Utf8Length(b)
  {
    if a == [] {
      assert a + b == b;
    } else {
      assert (a + b)[0] == a[0];
      assert (a + b)[1..] == a[1..] + b;
      Utf8LengthAppend(a[1..], b);
    }
  }

  /** A string of one repeated character takes that character's width per copy. */
  lemma {:induction false} Utf8LengthRepeat(s: string, c: char)
    requires forall i :: 0 <= i < |s| ==> s[i] == c
    ensures Utf8Length(s) == |s| * Utf8Width(c)
  {
    if s != [] {
      assert forall i :: 0 <= i < |s| - 1 ==> s[1..][i] == s[i + 1];
      Utf8LengthRepeat(s[1..], c);
    }
  }

  /** strings.Join. */
  function Join(parts: seq<string>, sep: string): (r: string)
    ensures parts == [] ==> r == []
    ensures |parts| == 1 ==> r == parts[0]
    ensures parts != [] ==> HasPrefix(r, parts[0])
  {
    if parts == [] then []
    else if |parts| == 1 then parts[0]
    else
      var r := parts[0] + sep + Join(parts[1..], sep);
      assert r[..|parts[0]|] == parts[0];
      r
  }

  /** The join splits at any boundary between parts: the parts before it joined, one
      separator, the parts after it joined. With the empty and one-part cases this fixes
      the join: the parts in order, one separator between each two. */
  lemma {:induction false} JoinSplit(parts: seq<string>, sep: string, k: nat)
    requires 0 < k < |parts|
    ensures Join(parts, sep) == Join(parts[..k], sep) + sep + Join(parts[k..], sep)
  {
    var front := parts[..k];
    assert front[0] == parts[0];
    if k == 1 {
      assert parts[k..] == parts[1..];
    } else {
      JoinSplit(parts[1..], sep, k - 1);
      assert front[1..] == parts[1..][..k - 1];
      assert parts[1..][k - 1..] == parts[k..];
    }
  }

  /** An occurrence inside `s` is an occurrence, shifted, inside `pre + s`. */
  lemma OccursAtShift(pre: string, s: string, sub: string, i: nat)
    requires OccursAt(s, sub, i)
    ensures OccursAt(pre + s, sub, |pre| + i)
  {
    assert (pre + s)[|pre| + i..|pre| + i + |sub|] == s[i..i + |sub|];
  }

  /** Every part of a join occurs in it. */
  lemma {:induction false} JoinContainsParts(parts: seq<string>, sep: string, k: nat)
    requires k < |parts|
    ensures Contains(Join(parts, sep), parts[k])
  {
    var joined := Join(parts, sep);
    if |parts| == 1 {
      assert OccursAt(joined, parts[k], 0);
    } else if k == 0 {
      assert joined[..|parts[0]|] == parts[0];
      assert OccursAt(joined, parts[k], 0);
    } else {
      JoinContainsParts(parts[1..], sep, k - 1);
      var i: nat :| OccursAt(Join(parts[1..], sep), parts[k], i);
      OccursAtShift(parts[0] + sep, Join(parts[1..], sep), parts[k], i);
      assert joined == (parts[0] + sep) + Join(parts[1..], sep);
    }
  }

  /** Whatever `s` contains, `pre + s` contains. */
  lemma ContainsAfterPrefix(pre: string, s: string, sub: string)
    requires Contains(s, sub)
    ensures Contains(pre + s, sub)
  {
    var i: nat :| OccursAt(s, sub, i);
    OccursAtShift(pre, s, sub, i);
  }
}
