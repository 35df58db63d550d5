/** The password-strength rule that the auth service and the gateway each carry a copy of
    (the two `validatePassword` functions are textually identical). */
module PasswordPolicy {
  import opened Wrappers
  import Text

  /** The four character classes, in the order the error message lists them. */
  datatype CharClass = Uppercase | Lowercase | Number | Special

  function Rank(k: CharClass): nat
  {
    match k
    case Uppercase => 0
    case Lowercase => 1
    case Number => 2
    case Special => 3
  }

  function ClassName(k: CharClass): string
  {
    match k
    case Uppercase => "uppercase letter"
    case Lowercase => "lowercase letter"
    case Number => "number"
    case Special => "special character"
  }

  /** The punctuation the `[!@#$%^&*()_+\-=\[\]{};':"\\|,.<>/?]` class accepts. */
  const SpecialChars: string := "!@#$%^&*()_+-=[]{};':\"\\|,.<>/?"

  predicate InClass(c: char, k: CharClass)
  {
    match k
    case Uppercase => 'A' <= c <= 'Z'
    case Lowercase => 'a' <= c <= 'z'
    case Number => '0' <= c <= '9'
    case Special => IsSpecial(c)
  }

  /** The same class as four ASCII ranges: `!`..`/`, `:`..`@`, `[`..`_` and `{`..`}`
      (back-quote and tilde are the two ASCII punctuation marks left out). */
  predicate IsSpecial(c: char)
  {
    ('!' <= c <= '/') || (':' <= c <= '@') || ('[' <= c <= '_') || ('{' <= c <= '}')
  }

  lemma SpecialRangesAreTheClass(c: char)
    ensures IsSpecial(c) <==> c in SpecialChars
  {
    if IsSpecial(c) {
      assert c in SpecialChars by {
        if '!' <= c <= '/' {
          assert SpecialChars[0] == '!';
        }
      }
    }
  }

  /** regexp.MatchString of a one-character class: some character of `s` is in it. */
  function HasClass(s: string, k: CharClass): (b: bool)
    ensures b <==> exists i :: 0 <= i < |s| && InClass(s[i], k)
  {
    if s == [] then false
    else
      var b := InClass(s[0], k) || HasClass(s[1..], k);
      assert forall i :: 1 <= i < |s| ==> s[i] == s[1..][i - 1];
      b
  }

  const MinLength: nat := 8

  datatype PolicyError = TooShort | MissingClasses(missing: seq<CharClass>)

  /** A list of classes in strictly increasing message order. */
  predicate InOrder(ks: seq<CharClass>)
  {
    forall i, j :: 0 <= i < j < |ks| ==> Rank(ks[i]) < Rank(ks[j])
  }

  /** The classes in the order validatePassword tests them. */
  const AllClasses: seq<CharClass> := [Uppercase, Lowercase, Number, Special]

  /** The classes of `ks` that `s` lacks, in the order of `ks`: the successive
      `missing = append(missing, ...)` steps. */
  function MissingFrom(s: string, ks: seq<CharClass>): (m: seq<CharClass>)
    ensures forall k :: k in m <==> k in ks && !HasClass(s, k)
    ensures InOrder(ks) ==> InOrder(m)
  {
    if ks == [] then []
    else
      var rest := MissingFrom(s, ks[1..]);
      assert forall k :: k in ks <==> k == ks[0] || k in ks[1..];
      if HasClass(s, ks[0]) then rest
      else
        assert InOrder(ks) ==> forall j :: 0 <= j < |rest| ==> Rank(ks[0]) < Rank(rest[j]) by {
          if InOrder(ks) {
            forall j | 0 <= j < |rest| ensures Rank(ks[0]) < Rank(rest[j]) {
              assert rest[j] in ks[1..];
              var i :| 0 <= i < |ks| - 1 && ks[1..][i] == rest[j];
              assert ks[i + 1] == rest[j];
            }
          }
        }
        [ks[0]] + rest
  }

  /** validatePassword. The length is Go's `len`, i.e. UTF-8 bytes. A short password gets
      the length error whatever classes it has; otherwise the error lists exactly the
      missing classes, in message order, and there is no error iff none is missing. */
  function ValidatePassword(password: string): (r: Option<PolicyError>)
    ensures r == Some(TooShort) <==> Text.Utf8Length(password) < MinLength
    ensures Text.Utf8Length(password) >= MinLength ==>
      (r == None <==> forall k: CharClass :: HasClass(password, k))
    ensures r.Some? && r.value.MissingClasses? ==>
      r.value.missing != [] && InOrder(r.value.missing) &&
      forall k: CharClass :: k in r.value.missing <==> !HasClass(password, k)
  {
    if Text.Utf8Length(password) < MinLength then Some(TooShort)
    else
      var missing := MissingFrom(password, AllClasses);
      AllClassesListed();
      if |missing| > 0 then
        assert !HasClass(password, missing[0]);
        Some(MissingClasses(missing))
      else
        assert forall k: CharClass :: HasClass(password, k) by {
          forall k: CharClass ensures HasClass(password, k) {
            assert k in AllClasses;
            assert k !in missing;
          }
        }
        None
  }

  /** Every class is tested, in message order. */
  lemma AllClassesListed()
    ensures InOrder(AllClasses)
    ensures forall k: CharClass :: k in AllClasses
  {
    forall k: CharClass ensures k in AllClasses {
      match k
      case Uppercase => assert AllClasses[0] == k;
      case Lowercase => assert AllClasses[1] == k;
      case Number => assert AllClasses[2] == k;
      case Special => assert AllClasses[3] == k;
    }
  }

  /** The membership and the order pin the list down: two in-order lists of the same
      classes are equal, so the contract of ValidatePassword fixes its error. */
  lemma {:induction false} InOrderUnique(a: seq<CharClass>, b: seq<CharClass>)
    requires InOrder(a) && InOrder(b)
    requires forall k: CharClass :: k in a <==> k in b
    ensures a == b
  {
    if a != [] || b != [] {
      assert a != [] ==> a[0] in b;
      assert b != [] ==> b[0] in a;
      HeadIsLeast(a, b[0]);
      HeadIsLeast(b, a[0]);
      assert a[0] == b[0] by { RankInjective(a[0], b[0]); }
      forall k: CharClass ensures k in a[1..] <==> k in b[1..] {
        TailMembers(a, k);
        TailMembers(b, k);
      }
      InOrderUnique(a[1..], b[1..]);
      assert a == [a[0]] + a[1..] && b == [b[0]] + b[1..];
    }
  }

  /** The head of an in-order list has the least rank of its members. */
  lemma HeadIsLeast(a: seq<CharClass>, k: CharClass)
    requires InOrder(a) && k in a
    ensures Rank(a[0]) <= Rank(k)
  {
    var i :| 0 <= i < |a| && a[i] == k;
  }

  /** The tail of an in-order list holds its members other than the head. */
  lemma TailMembers(a: seq<CharClass>, k: CharClass)
    requires InOrder(a) && a != []
    ensures k in a[1..] <==> k in a && k != a[0]
  {
    if k in a[1..] {
      var i :| 0 <= i < |a| - 1 && a[1..][i] == k;
      assert a[i + 1] == k;
    }
    if k in a && k != a[0] {
      var i :| 0 <= i < |a| && a[i] == k;
      assert a[1..][i - 1] == k;
    }
  }

  lemma RankInjective(j: CharClass, k: CharClass)
    requires Rank(j) == Rank(k)
    ensures j == k
  {
  }

  function ClassNames(ks: seq<CharClass>): (names: seq<string>)
    ensures |names| == |ks|
    ensures forall i :: 0 <= i < |ks| ==> names[i] == ClassName(ks[i])
  {
    if ks == [] then [] else [ClassName(ks[0])] + ClassNames(ks[1..])
  }

  const MissingPrefix: string := "password must contain at least one "

  /** The text of the Go error value. The length error has its own fixed text; a
      missing-classes message is its lead-in followed by the names of exactly the missing
      classes, in the list's order, joined by ", " (the layout Text.JoinSplit fixes), and
      so names every class missing. */
  function Message(e: PolicyError): (m: string)
    ensures e.TooShort? <==> m == "password must be at least 8 characters"
    ensures e.MissingClasses? ==> m == MissingPrefix + Text.Join(ClassNames(e.missing), ", ")
    ensures e.MissingClasses? ==> Text.HasPrefix(m, MissingPrefix)
    ensures e.MissingClasses? ==> forall k :: k in e.missing ==> Text.Contains(m, ClassName(k))
  {
    match e
    case TooShort => "password must be at least 8 characters"
    case MissingClasses(missing) =>
      var m := MissingPrefix + Text.Join(ClassNames(missing), ", ");
      assert m[14] == 'c';
      MessageNamesClasses(missing);
      m
  }

  lemma MessageNamesClasses(missing: seq<CharClass>)
    ensures forall k :: k in missing ==>
      Text.Contains(MissingPrefix + Text.Join(ClassNames(missing), ", "), ClassName(k))
  {
    forall k | k in missing
      ensures Text.Contains(MissingPrefix + Text.Join(ClassNames(missing), ", "), ClassName(k))
    {
      var i :| 0 <= i < |missing| && missing[i] == k;
      Text.JoinContainsParts(ClassNames(missing), ", ", i);
      Text.ContainsAfterPrefix(MissingPrefix, Text.Join(ClassNames(missing), ", "), ClassName(k));
    }
  }

  /** Two missing classes are named in check order, separated by a comma. */
  lemma TwoMissingMessage()
    ensures Message(MissingClasses([Uppercase, Number]))
            == "password must contain at least one uppercase letter, number"
  {
    var names := ClassNames([Uppercase, Number]);
    assert names[0] == "uppercase letter" && names[1] == "number";
    assert |names[1..]| == 1 && names[1..][0] == "number";
    var joined := Text.Join(names, ", ");
    assert joined == "uppercase letter, number";
    assert MissingPrefix + joined == "password must contain at least one uppercase letter, number";
  }

  /** The length limit counts bytes: three 2-byte characters ("ééé", 6 bytes) are too
      short, four ("éééé", 8 bytes) are long enough and are judged on their classes, of
      which é, outside every ASCII range, has none. */
  lemma MultiByteLength()
    ensures ValidatePassword("\U{e9}\U{e9}\U{e9}") == Some(TooShort)
    ensures ValidatePassword("\U{e9}\U{e9}\U{e9}\U{e9}") == Some(MissingClasses(AllClasses))
  {
    var pw := "\U{e9}\U{e9}\U{e9}\U{e9}";
    Text.Utf8LengthRepeat("\U{e9}\U{e9}\U{e9}", '\U{e9}');
    Text.Utf8LengthRepeat(pw, '\U{e9}');
    forall k: CharClass ensures !HasClass(pw, k) {
      forall i | 0 <= i < |pw| ensures !InClass(pw[i], k) {
        assert pw[i] == '\U{e9}';
      }
    }
    AllClassesListed();
    InOrderUnique(ValidatePassword(pw).value.missing, AllClasses);
  }

  /** A weak password of 3 letters gets only the length error, not the list of missing
      classes. */
  lemma ShortWeakPassword()
    ensures ValidatePassword("abc") == Some(TooShort)
    ensures Message(TooShort) == "password must be at least 8 characters"
  {
    assert Text.Utf8Length("abc") == 3;
  }

  /** No letter is special punctuation. */
  lemma LetterNotSpecial(c: char)
    requires 'a' <= c <= 'z' || 'A' <= c <= 'Z'
    ensures !InClass(c, Special)
  {
    forall i | 0 <= i < |SpecialChars| ensures SpecialChars[i] != c {
      assert !('a' <= SpecialChars[i] <= 'z') && !('A' <= SpecialChars[i] <= 'Z');
    }
  }

  /** A long enough password of lower-case letters only: the error names the three
      other classes, in order. */
  lemma LowercaseOnly(pw: string)
    requires |pw| >= MinLength
    requires forall i :: 0 <= i < |pw| ==> 'a' <= pw[i] <= 'z'
    ensures ValidatePassword(pw) == Some(MissingClasses([Uppercase, Number, Special]))
  {
    assert Text.Utf8Length(pw) == |pw|;
    assert HasClass(pw, Lowercase) by { assert InClass(pw[0], Lowercase); }
    assert !HasClass(pw, Special) by {
      forall i | 0 <= i < |pw| ensures !InClass(pw[i], Special) {
        LetterNotSpecial(pw[i]);
      }
    }
    assert !HasClass(pw, Uppercase) && !HasClass(pw, Number);
    var missing := ValidatePassword(pw).value.missing;
    var expected := [Uppercase, Number, Special];
    forall k: CharClass ensures k in missing <==> k in expected {
      match k
      case Uppercase => assert expected[0] == k;
      case Lowercase =>
      case Number => assert expected[1] == k;
      case Special => assert expected[2] == k;
    }
    InOrderUnique(missing, expected);
  }

  lemma LowercaseOnlyExample()
    ensures ValidatePassword("abcdefgh") == Some(MissingClasses([Uppercase, Number, Special]))
  {
    var pw := "abcdefgh";
    assert forall i | 0 <= i < |pw| :: 'a' <= pw[i] <= 'z';
    LowercaseOnly(pw);
  }
}
