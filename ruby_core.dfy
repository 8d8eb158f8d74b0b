/**
 * The Ruby core methods that the command-line handlers rely on, written out
 * as functions: `String#to_i` (base 10), `String#split` with a one-character
 * separator other than a space (a space makes Ruby split on runs of white
 * space instead), and `Integer#to_s`, which serves as the partner of `to_i`.
 */
module RubyCore {

  /** The characters C's isspace accepts: ' ', and '\t' through '\r'. */
  predicate IsSpace(c: char) {
    c == ' ' || ('\t' <= c <= '\r')
  }

  predicate IsDigit(c: char) {
    '0' <= c <= '9'
  }

  predicate AllDigits(d: string) {
    forall i :: 0 <= i < |d| ==> IsDigit(d[i])
  }

  function DigitValue(c: char): (v: nat)
    requires IsDigit(c)
    ensures v < 10
  {
    c as int - '0' as int
  }

  function DigitChar(k: nat): (c: char)
    requires k < 10
    ensures IsDigit(c) && DigitValue(c) == k
  {
    ('0' as int + k) as char
  }

  /** What is left of `s` once leading white space is skipped. */
  function SkipSpace(s: string): (t: string)
    ensures |t| <= |s| && t == s[|s| - |t|..]
    ensures t == [] || !IsSpace(t[0])
  {
    if s != [] && IsSpace(s[0]) then SkipSpace(s[1..]) else s
  }

  /**
   * The digits of the decimal numeral at the start of `s`, separators
   * removed: a single '_' may stand between two digits; a second '_', a
   * trailing '_' or any other character ends the numeral.
   */
  function Numeral(s: string): (d: string)
    ensures AllDigits(d) && |d| <= |s|
    ensures d == [] <==> (s == [] || !IsDigit(s[0]))
  {
    if s == [] || !IsDigit(s[0]) then []
    else if |s| >= 3 && s[1] == '_' && IsDigit(s[2]) then [s[0]] + Numeral(s[2..])
    else [s[0]] + Numeral(s[1..])
  }

  /** The number a string of decimal digits denotes. */
  function Value(d: string): nat
    requires AllDigits(d)
  {
    if d == [] then 0 else Value(d[..|d| - 1]) * 10 + DigitValue(d[|d| - 1])
  }

  /** The text after the optional sign of the (space-stripped) string. */
  function Unsigned(t: string): string {
    if t != [] && (t[0] == '-' || t[0] == '+') then t[1..] else t
  }

  /**
   * `String#to_i`: skip white space, read an optional sign and the leading
   * numeral; a string without a leading numeral is 0. Never an error.
   */
  function ToI(s: string): int {
    var t := SkipSpace(s);
    var n: int := Value(Numeral(Unsigned(t)));
    if t != [] && t[0] == '-' then -n else n
  }

  /** True when `s`, after white space and an optional sign, starts with a digit. */
  predicate HasNumeral(s: string) {
    var u := Unsigned(SkipSpace(s));
    u != [] && IsDigit(u[0])
  }

  /** A text that cannot continue a numeral it follows. */
  predicate EndsNumeral(t: string) {
    t == [] || (!IsDigit(t[0]) && t[0] != '_')
  }

  function ShowNat(n: nat): (d: string)
    ensures AllDigits(d) && d != []
  {
    if n < 10 then [DigitChar(n)] else ShowNat(n / 10) + [DigitChar(n % 10)]
  }

  /** `Integer#to_s`: the decimal rendering, with '-' for negative numbers. */
  function Show(n: int): (s: string)
    ensures s != [] && !IsSpace(s[0])
  {
    if n < 0 then "-" + ShowNat(-n) else ShowNat(n)
  }

  lemma {:induction false} ValueOfShowNat(n: nat)
    ensures Value(ShowNat(n)) == n
  {
    if n >= 10 {
      var d := ShowNat(n);
      assert d[..|d| - 1] == ShowNat(n / 10);
      ValueOfShowNat(n / 10);
    }
  }

  /** A numeral is read up to the first character that cannot extend it. */
  lemma {:induction false} NumeralOfDigits(d: string, t: string)
    requires AllDigits(d) && d != []
    requires EndsNumeral(t)
    ensures Numeral(d + t) == d
  {
    var s := d + t;
    if |d| == 1 {
      assert s[1..] == t;
      if |s| >= 3 {
        assert s[1] == t[0];
      }
    } else {
      assert s[1] == d[1];
      assert s[1..] == d[1..] + t;
      NumeralOfDigits(d[1..], t);
    }
  }

  /** The numeral of a rendered natural number, followed by text that ends it, has that value. */
  lemma NumeralValueOfShowNat(m: nat, t: string)
    requires EndsNumeral(t)
    ensures Value(Numeral(ShowNat(m) + t)) == m
  {
    NumeralOfDigits(ShowNat(m), t);
    ValueOfShowNat(m);
  }

  /** A string that starts with a digit converts to the value of its leading numeral. */
  lemma ToIOfDigitFirst(s: string)
    requires s != [] && IsDigit(s[0])
    ensures ToI(s) == Value(Numeral(s))
  {
    assert SkipSpace(s) == s;
    assert Unsigned(s) == s;
  }

  /** A string that starts with '-' then a digit converts to minus its numeral's value. */
  lemma ToIOfMinusFirst(s: string)
    requires |s| >= 2 && s[0] == '-' && IsDigit(s[1])
    ensures ToI(s) == -(Value(Numeral(s[1..])) as int)
  {
    assert SkipSpace(s) == s;
    assert Unsigned(s) == s[1..];
  }

  /** `to_i` reads back the rendering of a non-negative integer. */
  lemma ToIShowNonNegative(n: int, t: string)
    requires n >= 0 && EndsNumeral(t)
    ensures ToI(Show(n) + t) == n
  {
    var d := ShowNat(n);
    assert Show(n) + t == d + t;
    NumeralValueOfShowNat(n, t);
    assert (d + t)[0] == d[0];
    ToIOfDigitFirst(d + t);
  }

  /** `to_i` reads back the rendering of a negative integer: a minus sign, then its magnitude. */
  lemma ToIShowNegative(n: int, t: string)
    requires n < 0 && EndsNumeral(t)
    ensures ToI(Show(n) + t) == n
  {
    var d := ShowNat(-n);
    assert Show(n) == ['-'] + d;
    var s := Show(n) + t;
    assert s[0] == '-' && s[1] == d[0];
    assert s[1..] == d + t;
    NumeralValueOfShowNat(-n, t);
    ToIOfMinusFirst(s);
  }

  /** `to_i` inverts `to_s`, whatever non-numeral text follows. */
  lemma ToIShowRoundTrip(n: int, t: string)
    requires EndsNumeral(t)
    ensures ToI(Show(n) + t) == n
  {
    if n < 0 {
      ToIShowNegative(n, t);
    } else {
      ToIShowNonNegative(n, t);
    }
  }

  /** A string without a leading numeral converts to zero. */
  lemma NoNumeralIsZero(s: string)
    requires !HasNumeral(s)
    ensures ToI(s) == 0
  {
  }

  /** Every field of `s` between occurrences of `sep`, empty fields included. */
  function Fields(s: string, sep: char): (parts: seq<string>)
    ensures |parts| >= 1
    ensures forall i :: 0 <= i < |parts| ==> sep !in parts[i]
  {
    if s == [] then [[]]
    else
      var rest := Fields(s[1..], sep);
      if s[0] == sep then [[]] + rest else [[s[0]] + rest[0]] + rest[1..]
  }

  /** The fields put back together, `sep` between each two. */
  function Join(parts: seq<string>, sep: char): string
    requires |parts| >= 1
  {
    if |parts| == 1 then parts[0] else parts[0] + [sep] + Join(parts[1..], sep)
  }

  lemma {:induction false} JoinFields(s: string, sep: char)
    ensures Join(Fields(s, sep), sep) == s
  {
    if s != [] {
      var rest := Fields(s[1..], sep);
      JoinFields(s[1..], sep);
      if s[0] != sep {
        var parts := Fields(s, sep);
        if |rest| > 1 {
          assert parts[1..] == rest[1..];
          assert Join(rest, sep) == rest[0] + [sep] + Join(rest[1..], sep);
        }
      }
    }
  }

  /** Text without a separator extends the first field of what follows it. */
  lemma {:induction false} FieldsOfPrefix(p: string, x: string, sep: char)
    requires sep !in p
    ensures Fields(p + x, sep) == [p + Fields(x, sep)[0]] + Fields(x, sep)[1..]
  {
    if p != [] {
      assert (p + x)[0] == p[0];
      assert (p + x)[1..] == p[1..] + x;
      FieldsOfPrefix(p[1..], x, sep);
      assert [p[0]] + (p[1..] + Fields(x, sep)[0]) == p + Fields(x, sep)[0];
    } else {
      var f := Fields(x, sep);
      assert p + x == x && p + f[0] == f[0];
      assert f == [f[0]] + f[1..];
    }
  }

  lemma {:induction false} FieldsJoin(parts: seq<string>, sep: char)
    requires |parts| >= 1
    requires forall i :: 0 <= i < |parts| ==> sep !in parts[i]
    ensures Fields(Join(parts, sep), sep) == parts
  {
    if |parts| == 1 {
      FieldsOfPrefix(parts[0], [], sep);
      assert parts[0] + [] == parts[0];
    } else {
      var j := Join(parts[1..], sep);
      FieldsJoin(parts[1..], sep);
      assert parts[0] + [sep] + j == parts[0] + ([sep] + j);
      FieldsOfPrefix(parts[0], [sep] + j, sep);
      assert ([sep] + j)[1..] == j;
      assert Fields([sep] + j, sep) == [[]] + parts[1..];
      assert parts[0] + [] == parts[0];
    }
  }

  /** The longest prefix of `parts` that does not end in an empty field. */
  function DropTrailingEmpty(parts: seq<string>): (r: seq<string>)
    ensures |r| <= |parts| && r == parts[..|r|]
    ensures r == [] || r[|r| - 1] != []
    ensures forall i :: |r| <= i < |parts| ==> parts[i] == []
  {
    if parts == [] || parts[|parts| - 1] != [] then parts
    else DropTrailingEmpty(parts[..|parts| - 1])
  }

  /**
   * `String#split` with a one-character separator other than a space:
   * trailing empty fields are dropped.
   */
  function Split(s: string, sep: char): seq<string>
    requires sep != ' '
  {
    DropTrailingEmpty(Fields(s, sep))
  }

  /** A separator-free, non-empty string splits into itself. */
  lemma SplitOne(a: string, sep: char)
    requires sep != ' '
    requires a != [] && sep !in a
    ensures Split(a, sep) == [a]
  {
    FieldsJoin([a], sep);
  }

  /** Two separator-free strings joined by `sep` split back into the two, when the second is not empty. */
  lemma SplitTwo(a: string, b: string, sep: char)
    requires sep != ' '
    requires sep !in a && sep !in b && b != []
    ensures Split(a + [sep] + b, sep) == [a, b]
  {
    FieldsJoin([a, b], sep);
    assert Join([a, b], sep) == a + [sep] + b;
  }

  /** Some field is non-empty exactly when some character is not the separator. */
  lemma {:induction false} SomeFieldNonEmpty(s: string, sep: char)
    ensures (exists k :: 0 <= k < |Fields(s, sep)| && Fields(s, sep)[k] != []) <==>
            (exists j :: 0 <= j < |s| && s[j] != sep)
  {
    if s != [] {
      var f := Fields(s, sep);
      var rest := Fields(s[1..], sep);
      SomeFieldNonEmpty(s[1..], sep);
      if s[0] == sep {
        assert f == [[]] + rest;
        if exists j :: 0 <= j < |s| && s[j] != sep {
          var j :| 0 <= j < |s| && s[j] != sep;
          assert s[1..][j - 1] != sep;
          var k :| 0 <= k < |rest| && rest[k] != [];
          assert f[k + 1] != [];
        }
        if exists k :: 0 <= k < |f| && f[k] != [] {
          var k :| 0 <= k < |f| && f[k] != [];
          assert rest[k - 1] != [];
          var j :| 0 <= j < |s[1..]| && s[1..][j] != sep;
          assert s[j + 1] != sep;
        }
      } else {
        assert f[0] != [];
      }
    }
  }

  /** A separator is followed, somewhere later, by another character. */
  predicate SeparatorThenOther(s: string, sep: char) {
    exists i, j :: 0 <= i < j < |s| && s[i] == sep && s[j] != sep
  }

  /** Some field after the first is non-empty. */
  predicate LaterNonEmpty(parts: seq<string>) {
    exists k :: 1 <= k < |parts| && parts[k] != []
  }

  /** The step of `LaterFieldNonEmpty` when `s` starts with the separator. */
  lemma LaterFieldAfterSeparator(s: string, sep: char)
    requires s != [] && s[0] == sep
    ensures LaterNonEmpty(Fields(s, sep)) <==> SeparatorThenOther(s, sep)
  {
    var f := Fields(s, sep);
    var rest := Fields(s[1..], sep);
    assert f == [[]] + rest;
    SomeFieldNonEmpty(s[1..], sep);
    if SeparatorThenOther(s, sep) {
      var i, j :| 0 <= i < j < |s| && s[i] == sep && s[j] != sep;
      assert s[1..][j - 1] != sep;
      var k :| 0 <= k < |rest| && rest[k] != [];
      assert f[k + 1] != [];
    }
    if LaterNonEmpty(f) {
      var k :| 1 <= k < |f| && f[k] != [];
      assert rest[k - 1] != [];
      var j :| 0 <= j < |s[1..]| && s[1..][j] != sep;
      assert s[0] == sep && s[j + 1] != sep;
    }
  }

  /** Past a first character that is not the separator, the fields after the first are those of the rest. */
  lemma LaterFieldsAfterOther(s: string, sep: char)
    requires s != [] && s[0] != sep
    ensures |Fields(s, sep)| == |Fields(s[1..], sep)|
    ensures forall k :: 1 <= k < |Fields(s, sep)| ==> Fields(s, sep)[k] == Fields(s[1..], sep)[k]
  {
  }

  /**
   * The step of `LaterFieldNonEmpty` when `s` starts with another character:
   * the fields `f` of `s` after the first are the fields `rest` of `s[1..]`
   * after the first, and a separator in `s` can only occur in `s[1..]`.
   */
  lemma LaterFieldAfterOther(s: string, sep: char, f: seq<string>, rest: seq<string>)
    requires s != [] && s[0] != sep
    requires |f| == |rest| && forall k :: 1 <= k < |f| ==> f[k] == rest[k]
    requires LaterNonEmpty(rest) <==> SeparatorThenOther(s[1..], sep)
    ensures LaterNonEmpty(f) <==> SeparatorThenOther(s, sep)
  {
    if SeparatorThenOther(s, sep) {
      var i, j :| 0 <= i < j < |s| && s[i] == sep && s[j] != sep;
      assert s[1..][i - 1] == sep && s[1..][j - 1] != sep;
      var k :| 1 <= k < |rest| && rest[k] != [];
      assert f[k] != [];
    }
    if LaterNonEmpty(f) {
      var k :| 1 <= k < |f| && f[k] != [];
      assert rest[k] != [];
      var i, j :| 0 <= i < j < |s[1..]| && s[1..][i] == sep && s[1..][j] != sep;
      assert s[i + 1] == sep && s[j + 1] != sep;
    }
  }

  /** A field after the first is non-empty exactly when a separator is followed, somewhere later, by another character. */
  lemma {:induction false} LaterFieldNonEmpty(s: string, sep: char)
    ensures LaterNonEmpty(Fields(s, sep)) <==> SeparatorThenOther(s, sep)
  {
    if s != [] {
      if s[0] == sep {
        LaterFieldAfterSeparator(s, sep);
      } else {
        LaterFieldNonEmpty(s[1..], sep);
        LaterFieldsAfterOther(s, sep);
        LaterFieldAfterOther(s, sep, Fields(s, sep), Fields(s[1..], sep));
      }
    }
  }

  /** `split` yields a second field exactly when a separator is followed, somewhere later, by another character. */
  lemma SplitHasSecondField(s: string, sep: char)
    requires sep != ' '
    ensures |Split(s, sep)| > 1 <==> exists i, j :: 0 <= i < j < |s| && s[i] == sep && s[j] != sep
  {
    var f := Fields(s, sep);
    var r := Split(s, sep);
    LaterFieldNonEmpty(s, sep);
    if |r| > 1 {
      assert f[|r| - 1] == r[|r| - 1] != [];
    }
    if LaterNonEmpty(f) {
      var k :| 1 <= k < |f| && f[k] != [];
      assert k < |r|;
    }
  }
}
