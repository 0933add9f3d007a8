/** The Python behaviour the py-win core relies on: the values a YAML loader
    produces, the exceptions the core raises or lets escape, and the `str`
    operations `split`, `strip`, `int(...)` and `str(...)` on integers. */
module PyBuiltins {

  datatype Option<+T> = None | Some(value: T)

  /** The exceptions that can leave the modelled code. */
  datatype PyError =
    | InvalidWidgetError(message: string)
    | KeyError(key: string)
    | NameError(name: string)
    | AttributeError
    | TypeError
    | ValueError
    | IndexError
    | FileNotFoundError(path: string)

  /** A computation that either yields a value or raises a Python exception. */
  datatype Result<+T> = Success(value: T) | Failure(error: PyError) {
    predicate IsFailure() { Failure? }

    function PropagateFailure<U>(): Result<U>
      requires Failure?
    {
      Failure(error)
    }

    function Extract(): T
      requires Success?
    {
      value
    }
  }

  /** A value as the YAML loader hands it to the program: `None`, a bool,
      an int, a str, a list or a dict with string keys. */
  datatype Value =
    | VNone
    | VBool(b: bool)
    | VInt(i: int)
    | VStr(s: string)
    | VList(items: seq<Value>)
    | VMap(entries: map<string, Value>)

  // ---------------------------------------------------------------------
  // str.split(sep) with an explicit one-character separator

  /** `s.split(sep)`: the pieces between occurrences of `sep`, empty pieces
      included, so `"".split(sep) == [""]`. */
  function Split(s: string, sep: char): (parts: seq<string>)
    ensures |parts| >= 1
    ensures forall p <- parts :: sep !in p
    decreases |s|
  {
    if s == [] then [[]]
    else
      var rest := Split(s[1..], sep);
      if s[0] == sep then [[]] + rest else [[s[0]] + rest[0]] + rest[1..]
  }

  /** `sep.join(parts)`, the inverse of `Split`. */
  function Join(parts: seq<string>, sep: char): string
  {
    if parts == [] then []
    else if |parts| == 1 then parts[0]
    else parts[0] + [sep] + Join(parts[1..], sep)
  }

  /** Joining the pieces of a split gives back the original string. */
  lemma {:induction false} JoinSplit(s: string, sep: char)
    ensures Join(Split(s, sep), sep) == s
    decreases |s|
  {
    if s != [] {
      var rest := Split(s[1..], sep);
      JoinSplit(s[1..], sep);
      if s[0] == sep {
        assert Split(s, sep) == [[]] + rest;
        assert ([[]] + rest)[1..] == rest;
      } else {
        var parts := [[s[0]] + rest[0]] + rest[1..];
        assert Split(s, sep) == parts;
        if |rest| == 1 {
          assert Join(rest, sep) == rest[0];
        } else {
          assert parts[1..] == rest[1..];
          assert Join(rest, sep) == rest[0] + [sep] + Join(rest[1..], sep);
        }
      }
    }
  }

  /** A text without the separator splits into itself alone. */
  lemma {:induction false} SplitWithoutSeparator(p: string, sep: char)
    requires sep !in p
    ensures Split(p, sep) == [p]
    decreases |p|
  {
    if p != [] {
      SplitWithoutSeparator(p[1..], sep);
      assert [p[0]] + p[1..] == p;
    }
  }

  /** A separator-free text and a separator in front of `t` contribute
      one piece before the pieces of `t`. */
  lemma {:induction false} SplitAfterSeparator(p: string, t: string, sep: char)
    requires sep !in p
    ensures Split(p + [sep] + t, sep) == [p] + Split(t, sep)
    decreases |p|
  {
    var s := p + [sep] + t;
    if p == [] {
      assert s[1..] == t;
    } else {
      assert s[1..] == p[1..] + [sep] + t;
      SplitAfterSeparator(p[1..], t, sep);
      assert [p[0]] + p[1..] == p;
    }
  }

  /** A text with exactly one separator splits into the two texts around it. */
  lemma SplitAtSeparator(a: string, b: string, sep: char)
    requires sep !in a && sep !in b
    ensures Split(a + [sep] + b, sep) == [a, b]
  {
    SplitAfterSeparator(a, b, sep);
    SplitWithoutSeparator(b, sep);
  }

  /** Splitting a join of separator-free pieces gives back the pieces. */
  lemma {:induction false} SplitJoin(parts: seq<string>, sep: char)
    requires |parts| >= 1
    requires forall p <- parts :: sep !in p
    ensures Split(Join(parts, sep), sep) == parts
    decreases |parts|
  {
    if |parts| == 1 {
      SplitWithoutSeparator(parts[0], sep);
    } else {
      SplitAfterSeparator(parts[0], Join(parts[1..], sep), sep);
      SplitJoin(parts[1..], sep);
      assert [parts[0]] + parts[1..] == parts;
    }
  }

  // ---------------------------------------------------------------------
  // str.strip() with no argument

  /** The ASCII characters for which Python's `str.isspace()` holds. */
  predicate IsSpace(c: char)
  {
    9 <= c as int <= 13 || 28 <= c as int <= 32
  }

  /** Every character of `s` is whitespace. */
  predicate AllSpace(s: string)
  {
    forall i :: 0 <= i < |s| ==> IsSpace(s[i])
  }

  /** `s.lstrip()`: `s` without its leading whitespace. */
  function StripLeft(s: string): (r: string)
    ensures |r| <= |s| && r == s[|s| - |r|..]
    ensures forall i :: 0 <= i < |s| - |r| ==> IsSpace(s[i])
    ensures r == [] || !IsSpace(r[0])
    decreases |s|
  {
    if s != [] && IsSpace(s[0]) then
      var r := StripLeft(s[1..]);
      assert s[1..][|s| - 1 - |r|..] == s[|s| - |r|..];
      r
    else s
  }

  /** `s.rstrip()`: `s` without its trailing whitespace. */
  function StripRight(s: string): (r: string)
    ensures |r| <= |s| && r == s[..|r|]
    ensures forall i :: |r| <= i < |s| ==> IsSpace(s[i])
    ensures r == [] || !IsSpace(r[|r| - 1])
    decreases |s|
  {
    if s != [] && IsSpace(s[|s| - 1]) then
      var r := StripRight(s[..|s| - 1]);
      assert forall i :: |r| <= i < |s| - 1 ==> s[i] == s[..|s| - 1][i];
      r
    else s
  }

  /** `s.strip()`: `s` without leading and trailing whitespace. */
  function Strip(s: string): (r: string)
    ensures r == [] || (!IsSpace(r[0]) && !IsSpace(r[|r| - 1]))
  {
    StripRight(StripLeft(s))
  }

  /** `r` is the slice of `s` that starts at `k`, and everything before
      and after it is whitespace. */
  predicate PaddedSlice(s: string, r: string, k: nat)
  {
    && k + |r| <= |s| && r == s[k..k + |r|]
    && AllSpace(s[..k]) && AllSpace(s[k + |r|..])
  }

  /** Removing a whitespace prefix and then a whitespace suffix leaves a
      slice of the original with whitespace on both sides of it. */
  lemma PaddingAroundSlice(s: string, t: string, r: string)
    requires |t| <= |s| && t == s[|s| - |t|..]
    requires forall i :: 0 <= i < |s| - |t| ==> IsSpace(s[i])
    requires |r| <= |t| && r == t[..|r|]
    requires forall i :: |r| <= i < |t| ==> IsSpace(t[i])
    ensures PaddedSlice(s, r, |s| - |t|)
  {
    var k := |s| - |t|;
    assert s[k..k + |r|] == t[..|r|];
    forall i | 0 <= i < k
      ensures IsSpace(s[..k][i])
    {
      assert s[..k][i] == s[i];
    }
    var m := k + |r|;
    forall j | 0 <= j < |s| - m
      ensures IsSpace(s[m..][j])
    {
      assert s[m..][j] == t[|r| + j];
    }
  }

  /** `strip` removes whitespace at both ends and nothing else: the result
      is the slice of `s` that starts where `lstrip` stops, and everything
      before and after that slice is whitespace. */
  lemma StripRemovesOnlyPadding(s: string)
    ensures PaddedSlice(s, Strip(s), |s| - |StripLeft(s)|)
  {
    var t := StripLeft(s);
    PaddingAroundSlice(s, t, StripRight(t));
  }

  /** A string that neither starts nor ends with whitespace is left as it is. */
  lemma StripUnpadded(s: string)
    requires s == [] || (!IsSpace(s[0]) && !IsSpace(s[|s| - 1]))
    ensures Strip(s) == s
  {
  }

  /** Stripping twice is stripping once. */
  lemma StripIdempotent(s: string)
    ensures Strip(Strip(s)) == Strip(s)
  {
    StripUnpadded(Strip(s));
  }

  // ---------------------------------------------------------------------
  // Decimal integers: str(n) and int(s)

  /** An ASCII decimal digit. */
  predicate IsDigit(c: char)
  {
    '0' <= c <= '9'
  }

  /** Every character of `s` is a digit (true of the empty text). */
  predicate AllDigits(s: string)
  {
    forall i :: 0 <= i < |s| ==> IsDigit(s[i])
  }

  function DigitValue(c: char): nat
    requires IsDigit(c)
  {
    c as int - '0' as int
  }

  function DigitChar(d: nat): (c: char)
    requires d < 10
    ensures IsDigit(c) && DigitValue(c) == d
  {
    ('0' as int + d) as char
  }

  /** The number a string of decimal digits denotes. */
  function DigitsValue(s: string): nat
    requires AllDigits(s)
  {
    if s == [] then 0
    else 10 * DigitsValue(s[..|s| - 1]) + DigitValue(s[|s| - 1])
  }

  /** `str(n)` for a non-negative integer: its decimal digits, with no
      leading zero. */
  function NatToString(n: nat): (s: string)
    ensures |s| >= 1 && AllDigits(s)
    ensures s[0] == '0' ==> n == 0
  {
    if n < 10 then [DigitChar(n)]
    else NatToString(n / 10) + [DigitChar(n % 10)]
  }

  /** `str(-n)` for a positive `n`: a minus sign, then the digits of `n`.
      It is built from the right, like `NatToString`, rather than as
      `"-" + NatToString(n)`: a sign prepended to a sequence whose tail is
      also known as `NatToString(n)` sends the verifier's sequence axioms
      into a matching loop. The contract ties the two definitions. */
  function NegativeToString(n: nat): (s: string)
    requires n >= 1
    ensures |s| >= 2 && s[0] == '-' && s[1..] == NatToString(n)
  {
    if n < 10 then ['-', DigitChar(n)]
    else
      var s := NegativeToString(n / 10) + [DigitChar(n % 10)];
      assert s[1..] == NegativeToString(n / 10)[1..] + [DigitChar(n % 10)];
      s
  }

  /** `str(i)` for any integer: a minus sign for negatives, then the digits. */
  function IntToString(i: int): (s: string)
    ensures |s| >= 1 && IsDigit(s[|s| - 1])
    ensures s[0] == '-' <==> i < 0
    ensures IsDigit(s[0]) || s[0] == '-'
  {
    if i < 0 then NegativeToString(-i) else NatToString(i)
  }

  /** `int(s)` for a base-ten literal: surrounding whitespace is ignored,
      an optional sign, then one or more digits; anything else is `None`
      (Python raises ValueError). */
  function PyInt(s: string): (r: Option<int>)
    ensures r.Some? <==>
              var t := Strip(s);
              || (|t| >= 1 && AllDigits(t))
              || (|t| >= 2 && (t[0] == '-' || t[0] == '+') && AllDigits(t[1..]))
    ensures r.Some? && AllDigits(Strip(s)) ==> r.value == DigitsValue(Strip(s))
    ensures r.Some? && !AllDigits(Strip(s)) ==>
              var t := Strip(s);
              r.value == (if t[0] == '-' then -(DigitsValue(t[1..]) as int) else DigitsValue(t[1..]))
  {
    var t := Strip(s);
    if |t| >= 2 && (t[0] == '-' || t[0] == '+') && AllDigits(t[1..]) then
      Some(if t[0] == '-' then -(DigitsValue(t[1..]) as int) else DigitsValue(t[1..]))
    else if |t| >= 1 && AllDigits(t) then
      Some(DigitsValue(t))
    else
      None
  }

  /** Reading back the digits `str` writes gives the number. */
  lemma {:induction false} DigitsValueOfNatToString(n: nat)
    ensures DigitsValue(NatToString(n)) == n
  {
    if n >= 10 {
      var s := NatToString(n);
      assert s[..|s| - 1] == NatToString(n / 10);
      DigitsValueOfNatToString(n / 10);
    }
  }

  /** `int` reads a run of digits as its value. */
  lemma PyIntOfDigits(t: string)
    requires |t| >= 1 && AllDigits(t)
    ensures PyInt(t) == Some(DigitsValue(t))
  {
    assert IsDigit(t[0]) && IsDigit(t[|t| - 1]);
    StripUnpadded(t);
  }

  /** `int` reads a minus sign followed by digits as the negated value. */
  lemma PyIntOfNegated(s: string, t: string)
    requires |t| >= 1 && AllDigits(t)
    requires |s| >= 2 && s[0] == '-' && s[1..] == t
    ensures PyInt(s) == Some(-(DigitsValue(t) as int))
  {
    assert IsDigit(s[|s| - 1]) by {
      assert s[|s| - 1] == t[|t| - 1];
    }
    StripUnpadded(s);
  }

  /** Every character `str` writes for an integer is a digit or a minus
      sign. */
  lemma IntToStringCharacters(i: int)
    ensures forall k :: 0 <= k < |IntToString(i)| ==> IntToString(i)[k] == '-' || IsDigit(IntToString(i)[k])
  {
    if i < 0 {
      assert IntToString(i)[1..] == NatToString(-i);
    }
  }

  /** `int` rejects a text that ends in something other than a digit. */
  lemma PyIntRejectsLastChar(t: string)
    requires |t| >= 1 && !IsSpace(t[0]) && !IsSpace(t[|t| - 1]) && !IsDigit(t[|t| - 1])
    ensures PyInt(Strip(t)) == None
  {
    StripUnpadded(t);
    if |t| >= 2 {
      assert t[1..][|t| - 2] == t[|t| - 1];
    }
  }

  /** `int` reads a minus sign followed by `str(n)` as `-n`. */
  lemma PyIntOfMinusDigits(s: string, n: nat)
    requires |s| >= 2 && s[0] == '-' && s[1..] == NatToString(n)
    ensures PyInt(s) == Some(-(n as int))
  {
    DigitsValueOfNatToString(n);
    PyIntOfNegated(s, NatToString(n));
  }

  /** `int(str(i)) == i` for a negative `i`. */
  lemma PyIntOfNegativeString(i: int)
    requires i < 0
    ensures PyInt(IntToString(i)) == Some(i)
  {
    PyIntOfMinusDigits(IntToString(i), -i);
  }

  /** `int(str(i)) == i` for a non-negative `i`. */
  lemma PyIntOfNatString(i: int)
    requires i >= 0
    ensures PyInt(IntToString(i)) == Some(i)
  {
    DigitsValueOfNatToString(i);
    PyIntOfDigits(NatToString(i));
  }

  /** `int(str(i)) == i` for every integer. */
  lemma PyIntOfIntToString(i: int)
    ensures PyInt(IntToString(i)) == Some(i)
  {
    if i < 0 {
      PyIntOfNegativeString(i);
    } else {
      PyIntOfNatString(i);
    }
  }

  /** `str` never writes the same text for two different integers. */
  lemma IntToStringInjective(a: int, b: int)
    requires IntToString(a) == IntToString(b)
    ensures a == b
  {
    PyIntOfIntToString(a);
    PyIntOfIntToString(b);
  }
}
