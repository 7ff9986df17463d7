/** Decimal numerals: Python's str() of an int, "%02d" and "%06d", the int()
    constructor applied to text, and pandas' to_numeric applied to text. */
module Numeral {
  import opened Options

  predicate IsDigit(c: char) {
    '0' <= c <= '9'
  }

  predicate AllDigits(s: string) {
    forall i | 0 <= i < |s| :: IsDigit(s[i])
  }

  function DigitChar(d: int): char
    requires 0 <= d < 10
  {
    ('0' as int + d) as char
  }

  function DigitValue(c: char): int
    requires IsDigit(c)
  {
    c as int - '0' as int
  }

  /** The value of a string of decimal digits, most significant digit first. */
  function DigitsValue(s: string): nat
    requires AllDigits(s)
  {
    if s == [] then 0 else DigitsValue(s[..|s| - 1]) * 10 + DigitValue(s[|s| - 1])
  }

  lemma DigitsValueSnoc(s: string, c: char)
    requires AllDigits(s) && IsDigit(c)
    ensures AllDigits(s + [c]) && DigitsValue(s + [c]) == DigitsValue(s) * 10 + DigitValue(c)
  {
    assert (s + [c])[..|s|] == s;
  }

  /** Leading zeros do not change a numeral's value (int("07") == 7). */
  lemma {:induction false} DigitsValueLeadingZero(s: string)
    requires AllDigits(s)
    ensures AllDigits("0" + s) && DigitsValue("0" + s) == DigitsValue(s)
  {
    if s != [] {
      var p := s[..|s| - 1];
      DigitsValueLeadingZero(p);
      assert ("0" + s)[..|"0" + s| - 1] == "0" + p;
    }
  }

  /** str(n) for n >= 0: the decimal digits of n, without leading zeros. */
  function NatToString(n: nat): (s: string)
    ensures 1 <= |s| && AllDigits(s) && DigitsValue(s) == n
    ensures s[0] == '0' ==> n == 0
    ensures n < 10 <==> |s| == 1
  {
    if n < 10 then [DigitChar(n)]
    else
      var p := NatToString(n / 10);
      DigitsValueSnoc(p, DigitChar(n % 10));
      p + [DigitChar(n % 10)]
  }

  /** Different numbers have different numerals. */
  lemma NatToStringInjective(m: nat, n: nat)
    requires NatToString(m) == NatToString(n)
    ensures m == n
  {
  }

  /** str(n) for any int. */
  function IntToString(n: int): string {
    if n < 0 then "-" + NatToString(-n) else NatToString(n)
  }

  /** "%02d" of a number below 100. */
  function TwoDigits(n: int): (s: string)
    requires 0 <= n < 100
    ensures |s| == 2 && AllDigits(s) && DigitsValue(s) == n
  {
    if n < 10 then
      DigitsValueLeadingZero(NatToString(n));
      "0" + NatToString(n)
    else
      NatToString(n)
  }

  function Zeros(k: nat): (s: string)
    ensures |s| == k && AllDigits(s)
  {
    if k == 0 then "" else Zeros(k - 1) + "0"
  }

  /** "%06d" of a number below a million. */
  function SixDigits(n: nat): (s: string)
    ensures AllDigits(s)
  {
    var d := NatToString(n);
    if |d| < 6 then Zeros(6 - |d|) + d else d
  }

  /** The characters Python's str.strip() removes (the ASCII ones). */
  predicate IsSpace(c: char) {
    var k := c as int;
    k == 32 || 9 <= k <= 13 || 28 <= k <= 31
  }

  function TrimStart(s: string): (t: string)
    ensures |t| <= |s| && t == s[|s| - |t|..]
    ensures forall i | 0 <= i < |s| - |t| :: IsSpace(s[i])
    ensures t != [] ==> !IsSpace(t[0])
  {
    if s != [] && IsSpace(s[0]) then
      var t := TrimStart(s[1..]);
      assert t == s[|s| - |t|..] by {
        assert s[1..][|s| - 1 - |t|..] == s[|s| - |t|..];
      }
      assert forall i | 1 <= i < |s| - |t| :: s[i] == s[1..][i - 1];
      t
    else s
  }

  function TrimEnd(s: string): (t: string)
    ensures |t| <= |s| && t == s[..|t|]
    ensures forall i | |t| <= i < |s| :: IsSpace(s[i])
    ensures t != [] ==> !IsSpace(t[|t| - 1])
  {
    if s != [] && IsSpace(s[|s| - 1]) then
      var t := TrimEnd(s[..|s| - 1]);
      assert t == s[..|t|] by {
        assert s[..|s| - 1][..|t|] == s[..|t|];
      }
      assert forall i | |t| <= i < |s| - 1 :: s[i] == s[..|s| - 1][i];
      t
    else s
  }

  function Strip(s: string): string {
    TrimEnd(TrimStart(s))
  }

  /** Text that neither starts nor ends with white space is left as it is. */
  lemma StripUntouched(s: string)
    requires s != [] && !IsSpace(s[0]) && !IsSpace(s[|s| - 1])
    ensures Strip(s) == s
  {
  }

  /** Digits, optionally in groups joined by single underscores ("1_000"), as int() accepts them. */
  predicate GroupedDigits(b: string) {
    && |b| >= 1
    && IsDigit(b[0])
    && IsDigit(b[|b| - 1])
    && (forall i | 0 <= i < |b| :: IsDigit(b[i]) || b[i] == '_')
    && NoDoubleUnderscore(b)
  }

  predicate NoDoubleUnderscore(b: string) {
    |b| < 2 || (!(b[0] == '_' && b[1] == '_') && NoDoubleUnderscore(b[1..]))
  }

  function RemoveUnderscores(b: string): (d: string)
    requires forall i | 0 <= i < |b| :: IsDigit(b[i]) || b[i] == '_'
    ensures AllDigits(d) && |d| <= |b|
    ensures AllDigits(b) ==> d == b
  {
    if b == [] then []
    else if b[0] == '_' then RemoveUnderscores(b[1..])
    else [b[0]] + RemoveUnderscores(b[1..])
  }

  /** Removing the group marks works piece by piece. */
  lemma {:induction false} RemoveUnderscoresConcat(x: string, y: string)
    requires forall i | 0 <= i < |x| :: IsDigit(x[i]) || x[i] == '_'
    requires forall i | 0 <= i < |y| :: IsDigit(y[i]) || y[i] == '_'
    ensures RemoveUnderscores(x + y) == RemoveUnderscores(x) + RemoveUnderscores(y)
  {
    if x != [] {
      var rest := x[1..] + y;
      assert (x + y)[1..] == rest && (x + y)[0] == x[0];
      RemoveUnderscoresConcat(x[1..], y);
      if x[0] == '_' {
        assert RemoveUnderscores(x + y) == RemoveUnderscores(rest);
      } else {
        assert RemoveUnderscores(x + y) == [x[0]] + RemoveUnderscores(rest);
      }
    } else {
      assert x + y == y;
    }
  }

  /** A mark in front of digit groups: "_" + y is still marks and digits,
      and removing the marks from it is removing them from y. */
  lemma RemoveMarkFront(y: string)
    requires forall i | 0 <= i < |y| :: IsDigit(y[i]) || y[i] == '_'
    ensures forall i | 0 <= i < |"_" + y| :: IsDigit(("_" + y)[i]) || ("_" + y)[i] == '_'
    ensures RemoveUnderscores("_" + y) == RemoveUnderscores(y)
  {
    assert ("_" + y)[1..] == y;
  }

  /** "1_000" loses its mark and keeps its digits, in order. */
  lemma RemoveUnderscoresJoin(x: string, y: string)
    requires AllDigits(x) && AllDigits(y)
    ensures RemoveUnderscores(x + "_" + y) == x + y
  {
    var t := "_" + y;
    RemoveMarkFront(y);
    RemoveUnderscoresConcat(x, t);
    assert x + "_" + y == x + t;
    assert RemoveUnderscores(x) == x && RemoveUnderscores(y) == y;
  }

  /** Digits in front of text without a double mark add none. */
  lemma {:induction false} NoDoubleAfterDigits(x: string, r: string)
    requires AllDigits(x) && NoDoubleUnderscore(r)
    ensures NoDoubleUnderscore(x + r)
  {
    if x != [] {
      NoDoubleAfterDigits(x[1..], r);
      assert (x + r)[1..] == x[1..] + r;
    } else {
      assert x + r == r;
    }
  }

  /** Two digit groups joined by one '_' are a valid grouping. */
  lemma GroupsJoined(x: string, y: string)
    requires 1 <= |x| && 1 <= |y| && AllDigits(x) && AllDigits(y)
    ensures GroupedDigits(x + "_" + y)
  {
    var t := "_" + y;
    var b := x + t;
    assert x + "_" + y == b;
    NoDoubleAfterDigits(y, "");
    assert y + "" == y;
    assert t[1..] == y;
    assert NoDoubleUnderscore(t);
    NoDoubleAfterDigits(x, t);
    assert b[0] == x[0] && b[|b| - 1] == y[|y| - 1];
    forall i | 0 <= i < |b|
      ensures IsDigit(b[i]) || b[i] == '_'
    {
      if i < |x| {
        assert b[i] == x[i];
      } else if i > |x| {
        assert b[i] == y[i - |x| - 1];
      }
    }
  }

  /** int() of two digit groups joined by one '_' is the value of their
      digits: int("1_000") == int("1000"). */
  lemma PythonIntOfGroups(x: string, y: string, n: int)
    requires 1 <= |x| && 1 <= |y| && AllDigits(x) && AllDigits(y)
    requires AllDigits(x + y) && n == DigitsValue(x + y)
    ensures PythonInt(x + "_" + y) == Some(n)
  {
    UnsignedGroups(x + "_" + y);
    GroupedIntOfGroups(x, y, n);
  }

  /** Text that starts and ends with a digit is read without strip or sign. */
  lemma UnsignedGroups(b: string)
    requires 1 <= |b| && IsDigit(b[0]) && IsDigit(b[|b| - 1])
    ensures PythonInt(b) == GroupedInt(b)
  {
    StripUntouched(b);
  }

  lemma GroupedIntOfGroups(x: string, y: string, n: int)
    requires 1 <= |x| && 1 <= |y| && AllDigits(x) && AllDigits(y)
    requires AllDigits(x + y) && n == DigitsValue(x + y)
    ensures GroupedInt(x + "_" + y) == Some(n)
  {
    GroupsJoined(x, y);
    RemoveUnderscoresJoin(x, y);
  }

  /** Python's int(text): white space around an optionally signed run of
      decimal digits; None where int() raises ValueError. */
  function PythonInt(s: string): Option<int> {
    SignedInt(Strip(s))
  }

  function SignedInt(t: string): Option<int> {
    if |t| >= 1 && t[0] == '-' then Negated(GroupedInt(t[1..]))
    else if |t| >= 1 && t[0] == '+' then GroupedInt(t[1..])
    else GroupedInt(t)
  }

  function Negated(v: Option<int>): Option<int> {
    if v.Some? then Some(-v.value) else None
  }

  function GroupedInt(b: string): Option<int> {
    if GroupedDigits(b) then Some(DigitsValue(RemoveUnderscores(b)) as int) else None
  }

  lemma {:induction false} AllDigitsGrouped(s: string)
    requires 1 <= |s| && AllDigits(s)
    ensures GroupedDigits(s) && RemoveUnderscores(s) == s
  {
    if |s| >= 2 {
      AllDigitsGrouped(s[1..]);
    }
  }

  /** int() of a plain run of digits is its value. */
  lemma PythonIntOfDigits(d: string)
    requires 1 <= |d| && AllDigits(d)
    ensures PythonInt(d) == Some(DigitsValue(d) as int)
  {
    StripUntouched(d);
    AllDigitsGrouped(d);
    assert d[0] != '-' && d[0] != '+';
    assert SignedInt(d) == GroupedInt(d);
  }

  /** int() of a minus sign and a run of digits is the negated value. */
  lemma PythonIntOfNegative(d: string, n: int)
    requires 1 <= |d| && AllDigits(d) && n == DigitsValue(d)
    ensures PythonInt("-" + d) == Some(-n)
  {
    StripNegative(d);
    SignedNegative(d);
    GroupedIntOfDigits(d, n);
    NegatedSome(GroupedInt(d), n);
  }

  lemma StripNegative(d: string)
    requires 1 <= |d| && AllDigits(d)
    ensures PythonInt("-" + d) == SignedInt("-" + d)
  {
    var s := "-" + d;
    assert s[0] == '-' && s[|s| - 1] == d[|d| - 1];
    StripUntouched(s);
  }

  lemma SignedNegative(d: string)
    ensures SignedInt("-" + d) == Negated(GroupedInt(d))
  {
    assert ("-" + d)[1..] == d;
  }

  /** A plain run of digits is read as its value. */
  lemma GroupedIntOfDigits(d: string, n: int)
    requires 1 <= |d| && AllDigits(d) && n == DigitsValue(d)
    ensures GroupedInt(d) == Some(n)
  {
    AllDigitsGrouped(d);
  }

  lemma NegatedSome(v: Option<int>, x: int)
    requires v == Some(x)
    ensures Negated(v) == Some(-x)
  {
  }

  /** int(str(n)) == n for n >= 0. */
  lemma PythonIntOfNat(n: nat)
    ensures PythonInt(NatToString(n)) == Some(n)
  {
    PythonIntOfDigits(NatToString(n));
  }

  /** int(str(n)) == n. */
  lemma PythonIntOfIntToString(n: int)
    ensures PythonInt(IntToString(n)) == Some(n)
  {
    if n < 0 {
      PythonIntOfNegative(NatToString(-n), -n);
    } else {
      PythonIntOfDigits(NatToString(n));
    }
  }

  /** int() reads "%02d" back. */
  lemma PythonIntOfTwoDigits(n: int)
    requires 0 <= n < 100
    ensures PythonInt(TwoDigits(n)) == Some(n)
  {
    PythonIntOfDigits(TwoDigits(n));
  }

  /** int() fails on text with a character other than a digit or '_'
      inside its stripped, unsigned body. */
  lemma PythonIntRejects(s: string, k: int)
    requires s != [] && !IsSpace(s[0]) && !IsSpace(s[|s| - 1])
    requires 0 < k < |s| && !IsDigit(s[k]) && s[k] != '_'
    ensures PythonInt(s) == None
  {
    StripUntouched(s);
    if s[0] == '-' || s[0] == '+' {
      assert s[1..][k - 1] == s[k];
    }
  }

  /** The white space pandas skips around a number: blank, tab, newline,
      carriage return, vertical tab and form feed. */
  predicate IsBlank(c: char) {
    var k := c as int;
    k == 32 || 9 <= k <= 13
  }

  /** t is the slice of s from position i, and everything of s before and
      after it is blank. */
  predicate BlanksAround(s: string, t: string, i: int) {
    && 0 <= i <= |s| - |t|
    && t == s[i..i + |t|]
    && (forall k | 0 <= k < i :: IsBlank(s[k]))
    && (forall k | i + |t| <= k < |s| :: IsBlank(s[k]))
  }

  /** s without its leading and trailing blanks. */
  function TrimBlanks(s: string): (t: string)
    ensures |t| <= |s|
    ensures t != [] ==> !IsBlank(t[0]) && !IsBlank(t[|t| - 1])
  {
    if s != [] && IsBlank(s[0]) then TrimBlanks(s[1..])
    else if s != [] && IsBlank(s[|s| - 1]) then TrimBlanks(s[..|s| - 1])
    else s
  }

  /** What TrimBlanks keeps is a slice of s with only blanks before and
      after it, so it is s without its outer blanks. */
  lemma {:induction false} TrimBlanksSlice(s: string)
    ensures exists i :: BlanksAround(s, TrimBlanks(s), i)
    decreases |s|
  {
    if s != [] && IsBlank(s[0]) {
      TrimBlanksSlice(s[1..]);
      BlanksAroundFront(s, s[1..], TrimBlanks(s));
    } else if s != [] && IsBlank(s[|s| - 1]) {
      TrimBlanksSlice(s[..|s| - 1]);
      BlanksAroundBack(s, s[..|s| - 1], TrimBlanks(s));
    } else {
      assert TrimBlanks(s) == s && s[0..|s|] == s;
      assert BlanksAround(s, TrimBlanks(s), 0);
    }
  }

  /** A blank in front of s moves the kept slice one place on. */
  lemma BlanksAroundFront(s: string, tail: string, t: string)
    requires s != [] && IsBlank(s[0]) && tail == s[1..]
    requires exists i :: BlanksAround(tail, t, i)
    ensures exists i :: BlanksAround(s, t, i)
  {
    var i :| BlanksAround(tail, t, i);
    assert s[i + 1..i + 1 + |t|] == tail[i..i + |t|];
    forall k | 0 <= k < i + 1
      ensures IsBlank(s[k])
    {
      if k > 0 {
        assert s[k] == tail[k - 1];
      }
    }
    forall k | i + 1 + |t| <= k < |s|
      ensures IsBlank(s[k])
    {
      assert s[k] == tail[k - 1];
    }
    assert BlanksAround(s, t, i + 1);
  }

  /** A blank at the end of s leaves the kept slice where it is. */
  lemma BlanksAroundBack(s: string, init: string, t: string)
    requires s != [] && IsBlank(s[|s| - 1]) && init == s[..|s| - 1]
    requires exists i :: BlanksAround(init, t, i)
    ensures exists i :: BlanksAround(s, t, i)
  {
    var i :| BlanksAround(init, t, i);
    assert s[i..i + |t|] == init[i..i + |t|];
    forall k | 0 <= k < i
      ensures IsBlank(s[k])
    {
      assert s[k] == init[k];
    }
    forall k | i + |t| <= k < |s|
      ensures IsBlank(s[k])
    {
      if k < |s| - 1 {
        assert s[k] == init[k];
      }
    }
    assert BlanksAround(s, t, i);
  }

  /** pd.to_numeric(text, errors='coerce') for integer text: blanks around an
      optional sign and at least one digit; None stands for NaN. */
  function ParseDecimal(s: string): Option<int> {
    SignedDecimal(TrimBlanks(s))
  }

  function SignedDecimal(s: string): Option<int> {
    if |s| >= 1 && (s[0] == '-' || s[0] == '+') then
      var body := s[1..];
      if 1 <= |body| && AllDigits(body) then
        var v: int := DigitsValue(body);
        Some(if s[0] == '-' then -v else v)
      else
        None
    else if 1 <= |s| && AllDigits(s) then
      Some(DigitsValue(s))
    else
      None
  }

  /** Blanks before a text that starts with no blank are all dropped. */
  lemma {:induction false} TrimLeadingBlanks(p: string, s: string)
    requires forall i | 0 <= i < |p| :: IsBlank(p[i])
    requires s != [] && !IsBlank(s[0])
    ensures TrimBlanks(p + s) == TrimBlanks(s)
    decreases |p|
  {
    if p != [] {
      assert (p + s)[1..] == p[1..] + s;
      TrimLeadingBlanks(p[1..], s);
    } else {
      assert p + s == s;
    }
  }

  /** Blanks around a text that neither starts nor ends with one are all
      dropped. */
  lemma TrimPadded(p: string, s: string, q: string)
    requires forall i | 0 <= i < |p| :: IsBlank(p[i])
    requires forall i | 0 <= i < |q| :: IsBlank(q[i])
    requires s != [] && !IsBlank(s[0]) && !IsBlank(s[|s| - 1])
    ensures TrimBlanks(p + s + q) == s
  {
    assert p + s + q == p + (s + q);
    TrimLeadingBlanks(p, s + q);
    TrimTrailingBlanks(s, q);
  }

  /** Blanks after a text that neither starts nor ends with a blank are all
      dropped. */
  lemma {:induction false} TrimTrailingBlanks(s: string, q: string)
    requires forall i | 0 <= i < |q| :: IsBlank(q[i])
    requires s != [] && !IsBlank(s[0]) && !IsBlank(s[|s| - 1])
    ensures TrimBlanks(s + q) == s
    decreases |q|
  {
    if q != [] {
      assert (s + q)[..|s + q| - 1] == s + q[..|q| - 1];
      TrimTrailingBlanks(s, q[..|q| - 1]);
    } else {
      assert s + q == s;
    }
  }

  /** pd.to_numeric(str(n)) == n. */
  lemma ParseDecimalOfIntToString(n: int)
    ensures ParseDecimal(IntToString(n)) == Some(n)
  {
    ParsePaddedDecimal([], n, []);
    assert [] + IntToString(n) + [] == IntToString(n);
  }

  /** pd.to_numeric(" " + str(n) + " ") == n: blanks around the number, any
      number of them, are skipped. */
  lemma ParsePaddedDecimal(p: string, n: int, q: string)
    requires forall i | 0 <= i < |p| :: IsBlank(p[i])
    requires forall i | 0 <= i < |q| :: IsBlank(q[i])
    ensures ParseDecimal(p + IntToString(n) + q) == Some(n)
  {
    IntToStringEnds(n);
    TrimPadded(p, IntToString(n), q);
    SignedDecimalOfIntToString(n);
  }

  lemma IntToStringEnds(n: int)
    ensures var s := IntToString(n); s != [] && !IsBlank(s[0]) && !IsBlank(s[|s| - 1])
  {
    if n < 0 {
      assert IntToString(n)[1..] == NatToString(-n);
    }
  }

  lemma SignedDecimalOfIntToString(n: int)
    ensures SignedDecimal(IntToString(n)) == Some(n)
  {
    if n < 0 {
      assert IntToString(n)[1..] == NatToString(-n);
    }
  }
}
