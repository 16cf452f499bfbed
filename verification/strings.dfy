/**
 * The few pieces of Python's `str` and `int` the line formats rely on:
 * `strip()`, `startswith('#')`, `split(c)`, `c.join(...)`, `int(...)` and
 * the decimal rendering of an `int` inside an f-string.
 */
module Strings {
  import opened Wrappers

  /** The characters `str.strip()` with no argument removes. */
  predicate IsSpace(c: char) {
    var n := c as int;
    || (9 <= n <= 13) || (28 <= n <= 32) || n == 0x85 || n == 0xA0
    || n == 0x1680 || (0x2000 <= n <= 0x200A) || n == 0x2028 || n == 0x2029
    || n == 0x202F || n == 0x205F || n == 0x3000
  }

  function TrimLeft(s: string): (r: string)
    ensures |r| <= |s| && r == s[|s| - |r|..]
    ensures r == [] || !IsSpace(r[0])
    ensures forall i :: 0 <= i < |s| - |r| ==> IsSpace(s[i])
  {
    if |s| > 0 && IsSpace(s[0]) then TrimLeft(s[1..]) else s
  }

  function TrimRight(s: string): (r: string)
    ensures |r| <= |s| && r == s[..|r|]
    ensures r == [] || !IsSpace(r[|r| - 1])
    ensures forall i :: |r| <= i < |s| ==> IsSpace(s[i])
  {
    if |s| > 0 && IsSpace(s[|s| - 1]) then TrimRight(s[..|s| - 1]) else s
  }

  /** Python's `s.strip()`. */
  function Strip(s: string): (r: string)
    ensures r == [] || (!IsSpace(r[0]) && !IsSpace(r[|r| - 1]))
    ensures |r| <= |s|
  {
    TrimRight(TrimLeft(s))
  }

  /** A string `strip()` leaves unchanged. */
  predicate Trimmed(s: string) {
    s == [] || (!IsSpace(s[0]) && !IsSpace(s[|s| - 1]))
  }

  lemma StripTrimmed(s: string)
    requires Trimmed(s)
    ensures Strip(s) == s
  {
  }

  /** `line.strip().startswith("#")`: the test every loader uses to skip a line. */
  predicate IsComment(line: string) {
    var t := Strip(line);
    |t| > 0 && t[0] == '#'
  }

  /** A line whose first character is `#` is a comment. */
  lemma HashLedIsComment(s: string)
    requires |s| > 0 && s[0] == '#'
    ensures IsComment(s)
  {
    assert TrimLeft(s) == s;
    var r := TrimRight(s);
    assert |r| >= 1 by {
      assert !IsSpace(s[0]);
    }
  }

  /** Python's `s.split(sep)` for a one-character separator. */
  function Split(s: string, sep: char): (r: seq<string>)
    ensures |r| >= 1
    ensures forall i :: 0 <= i < |r| ==> sep !in r[i]
  {
    if |s| == 0 then [""]
    else
      var rest := Split(s[1..], sep);
      if s[0] == sep then [""] + rest else [[s[0]] + rest[0]] + rest[1..]
  }

  /** Python's `sep.join(xs)`. */
  function Join(xs: seq<string>, sep: char): string {
    if |xs| == 0 then ""
    else if |xs| == 1 then xs[0]
    else xs[0] + [sep] + Join(xs[1..], sep)
  }

  lemma {:induction false} JoinSplit(s: string, sep: char)
    ensures Join(Split(s, sep), sep) == s
    decreases |s|
  {
    if |s| > 0 {
      var rest := Split(s[1..], sep);
      JoinSplit(s[1..], sep);
      if s[0] == sep {
        assert Split(s, sep) == [""] + rest;
        assert Join([""] + rest, sep) == "" + [sep] + Join(rest, sep);
      } else {
        var r := [[s[0]] + rest[0]] + rest[1..];
        assert Split(s, sep) == r;
        if |rest| == 1 {
          assert Join(r, sep) == [s[0]] + rest[0];
        } else {
          assert rest == [rest[0]] + rest[1..];
          assert Join(rest, sep) == rest[0] + [sep] + Join(rest[1..], sep);
          assert Join(r, sep) == [s[0]] + rest[0] + [sep] + Join(rest[1..], sep);
        }
      }
    }
  }

  /** Splitting what `join` wrote gives back the parts, when no part contains the separator. */
  lemma {:induction false} SplitJoin(xs: seq<string>, sep: char)
    requires |xs| >= 1
    requires forall i :: 0 <= i < |xs| ==> sep !in xs[i]
    ensures Split(Join(xs, sep), sep) == xs
    decreases xs
  {
    if |xs| == 1 {
      SplitNoSep(xs[0], sep);
    } else {
      SplitJoin(xs[1..], sep);
      SplitAppend(xs[0], Join(xs[1..], sep), sep);
    }
  }

  lemma {:induction false} SplitNoSep(s: string, sep: char)
    requires sep !in s
    ensures Split(s, sep) == [s]
    decreases |s|
  {
    if |s| > 0 {
      SplitNoSep(s[1..], sep);
      assert [s[0]] + s[1..] == s;
    }
  }

  /** Splitting `a + sep + b` when `a` holds no separator. */
  lemma {:induction false} SplitAppend(a: string, b: string, sep: char)
    requires sep !in a
    ensures Split(a + [sep] + b, sep) == [a] + Split(b, sep)
    decreases |a|
  {
    if |a| == 0 {
      assert a + [sep] + b == [sep] + b;
      assert ([sep] + b)[1..] == b;
    } else {
      SplitAppend(a[1..], b, sep);
      assert (a + [sep] + b)[1..] == a[1..] + [sep] + b;
      assert [a[0]] + a[1..] == a;
    }
  }

  /** Does not start with the comment marker. */
  predicate NotHashLed(s: string) {
    |s| == 0 || s[0] != '#'
  }

  /**
   * A field the line formats can carry unchanged: `strip()` leaves it alone,
   * it cannot turn its line into a comment, it holds no field separator and
   * no line break.
   */
  predicate FieldOk(s: string) {
    Trimmed(s) && NotHashLed(s) && forall i :: 0 <= i < |s| ==> s[i] != '|' && s[i] != '\n' && s[i] != '\r'
  }

  /** An AS id or country code that also holds no `,` (the list separator). */
  predicate CleanId(s: string) {
    FieldOk(s) && forall i :: 0 <= i < |s| ==> s[i] != ','
  }

  lemma {:induction false} JoinTrimmed(xs: seq<string>, sep: char)
    requires !IsSpace(sep)
    requires forall i :: 0 <= i < |xs| ==> Trimmed(xs[i])
    ensures Trimmed(Join(xs, sep))
    decreases |xs|
  {
    if |xs| > 1 {
      JoinTrimmed(xs[1..], sep);
      var a, b := xs[0], Join(xs[1..], sep);
      var j := a + [sep] + b;
      assert j[0] == if |a| > 0 then a[0] else sep;
      assert j[|j| - 1] == if |b| > 0 then b[|b| - 1] else sep;
    }
  }

  lemma {:induction false} JoinNotHashLed(xs: seq<string>, sep: char)
    requires sep != '#'
    requires forall i :: 0 <= i < |xs| ==> NotHashLed(xs[i])
    ensures NotHashLed(Join(xs, sep))
  {
    if |xs| > 1 {
      var a, b := xs[0], Join(xs[1..], sep);
      assert (a + [sep] + b)[0] == if |a| > 0 then a[0] else sep;
    }
  }

  /** A character in neither the parts nor the separator is not in the join. */
  lemma {:induction false} JoinAvoids(xs: seq<string>, sep: char, c: char)
    requires c != sep
    requires forall i, k :: 0 <= i < |xs| && 0 <= k < |xs[i]| ==> xs[i][k] != c
    ensures forall k :: 0 <= k < |Join(xs, sep)| ==> Join(xs, sep)[k] != c
    decreases |xs|
  {
    if |xs| > 1 {
      JoinAvoids(xs[1..], sep, c);
      var a, b := xs[0], Join(xs[1..], sep);
      assert forall k :: |a| < k < |a| + 1 + |b| ==> (a + [sep] + b)[k] == b[k - |a| - 1];
    }
  }

  /** Joining good fields with `sep` gives a good field. */
  lemma JoinFieldOk(xs: seq<string>, sep: char)
    requires sep != '|' && sep != '#' && sep != '\n' && sep != '\r' && !IsSpace(sep)
    requires forall i :: 0 <= i < |xs| ==> FieldOk(xs[i])
    ensures FieldOk(Join(xs, sep))
  {
    JoinTrimmed(xs, sep);
    JoinNotHashLed(xs, sep);
    JoinAvoids(xs, sep, '|');
    JoinAvoids(xs, sep, '\n');
    JoinAvoids(xs, sep, '\r');
  }

  /**
   * A data line written as `'|'.join(fields)` from good fields reads back
   * as exactly those fields and is not taken for a comment.
   */
  lemma DataLine(xs: seq<string>)
    requires |xs| >= 1
    requires forall i :: 0 <= i < |xs| ==> FieldOk(xs[i])
    ensures !IsComment(Join(xs, '|'))
    ensures Split(Strip(Join(xs, '|')), '|') == xs
  {
    var j := Join(xs, '|');
    JoinTrimmed(xs, '|');
    JoinNotHashLed(xs, '|');
    StripTrimmed(j);
    SplitJoin(xs, '|');
  }

  // ---------------------------------------------------------------------------
  // Integers
  // ---------------------------------------------------------------------------

  predicate IsDigit(c: char) { '0' <= c <= '9' }

  function DigitValue(c: char): nat
    requires IsDigit(c)
  {
    (c as int) - ('0' as int)
  }

  function DigitChar(d: nat): (c: char)
    requires d < 10
    ensures IsDigit(c) && DigitValue(c) == d
  {
    (('0' as int) + d) as char
  }

  predicate AllDigits(s: string) {
    forall i :: 0 <= i < |s| ==> IsDigit(s[i])
  }

  /** The value of a run of decimal digits, most significant first. */
  function DigitsValue(s: string): nat
    requires AllDigits(s)
  {
    if |s| == 0 then 0 else 10 * DigitsValue(s[..|s| - 1]) + DigitValue(s[|s| - 1])
  }

  /** The decimal rendering `f'{n}'` of a natural number. */
  function NatToString(n: nat): (s: string)
    ensures |s| >= 1 && AllDigits(s)
    ensures DigitsValue(s) == n
  {
    if n < 10 then [DigitChar(n)]
    else
      var s := NatToString(n / 10) + [DigitChar(n % 10)];
      assert s[..|s| - 1] == NatToString(n / 10);
      s
  }

  /** The decimal rendering `f'{i}'` of an integer. */
  function IntToString(i: int): string {
    if i < 0 then "-" + NatToString(-i) else NatToString(i)
  }

  /**
   * Python's `int(s)` on ASCII text: surrounding whitespace is ignored, then
   * an optional sign and at least one digit `0`-`9`. Everything else is taken
   * as a ValueError, including the underscore-separated digits (`1_000`) and
   * the non-ASCII decimal digits that Python itself accepts.
   */
  function ParseInt(s: string): (r: Result<int>)
    ensures r.Ok? ==> |Strip(s)| >= 1
  {
    var t := Strip(s);
    if |t| >= 1 && (t[0] == '-' || t[0] == '+') then
      var ds := t[1..];
      if |ds| >= 1 && AllDigits(ds) then
        var v: int := DigitsValue(ds);
        Ok(if t[0] == '-' then -v else v)
      else Err(NotAnInteger)
    else if |t| >= 1 && AllDigits(t) then Ok(DigitsValue(t))
    else Err(NotAnInteger)
  }

  /** Reading back what an f-string wrote recovers the integer. */
  lemma ParseIntToString(i: int)
    ensures ParseInt(IntToString(i)) == Ok(i)
  {
    var s := IntToString(i);
    assert Trimmed(s);
    StripTrimmed(s);
    if i < 0 {
      assert s[1..] == NatToString(-i);
    }
  }

  /** The rendering of an integer is a clean, non-empty field. */
  lemma IntToStringShape(i: int)
    ensures |IntToString(i)| >= 1 && CleanId(IntToString(i))
  {
    var s := IntToString(i);
    if i < 0 {
      assert s == "-" + NatToString(-i);
      assert forall k :: 1 <= k < |s| ==> s[k] == NatToString(-i)[k - 1];
    }
  }
}
