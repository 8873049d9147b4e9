/**
 * The timestamp parser (`parseTimestamp`) and the `m:ss` renderer
 * (`formatTime`). A token is trimmed and then read by the first of three
 * shapes that matches it: plain seconds `\d+(\.\d+)?`, `M:S` with one or two
 * second digits, `H:MM:SS` with exactly two minute and second digits.
 */
module Timestamp {
  import opened Wrappers
  import opened Text

  /** `^\d+(\.\d+)?$` */
  predicate IsPlainNumber(t: string) {
    IsDigits(t) || (var f := Split(t, '.'); |f| == 2 && IsDigits(f[0]) && IsDigits(f[1]))
  }

  /** The value of the digits after a decimal point: 0.d1d2... = (d1 + 0.d2...) / 10. */
  function Fraction(d: string): (x: real)
    requires AllDigits(d)
    ensures 0.0 <= x < 1.0
  {
    if d == [] then 0.0 else (DigitValue(d[0]) as real + Fraction(d[1..])) / 10.0
  }

  /** The exact value `parseFloat` approximates for a plain number. */
  function PlainValue(t: string): real
    requires IsPlainNumber(t)
  {
    if IsDigits(t) then DigitsValue(t) as real
    else
      var f := Split(t, '.');
      DigitsValue(f[0]) as real + Fraction(f[1])
  }

  /** The fields of `^(\d+):(\d{1,2})$`, split at the colons. */
  predicate IsMinSec(f: seq<string>) {
    |f| == 2 && IsDigits(f[0]) && IsDigits(f[1]) && |f[1]| <= 2
  }

  /** The fields of `^(\d+):(\d{2}):(\d{2})$`, split at the colons. */
  predicate IsHourMinSec(f: seq<string>) {
    |f| == 3 && IsDigits(f[0]) && IsDigits(f[1]) && |f[1]| == 2 && IsDigits(f[2]) && |f[2]| == 2
  }

  /** Seconds of an `M:S` token: M*60 + S. */
  function MinSecSeconds(m: string, s: string): real
    requires AllDigits(m) && AllDigits(s)
  {
    (DigitsValue(m) * 60 + DigitsValue(s)) as real
  }

  /** Seconds of an `H:MM:SS` token: H*3600 + MM*60 + SS. */
  function HourMinSecSeconds(h: string, m: string, s: string): real
    requires AllDigits(h) && AllDigits(m) && AllDigits(s)
  {
    (DigitsValue(h) * 3600 + DigitsValue(m) * 60 + DigitsValue(s)) as real
  }

  /** `parseTimestamp(str)`: the number of seconds a token denotes, or `null`. */
  function ParseTimestamp(str: string): (r: Option<real>)
    ensures r.Some? ==> r.value >= 0.0
  {
    ParseToken(Trim(str))
  }

  /** The shape tests of `parseTimestamp`, in order, on an already trimmed token. */
  function ParseToken(t: string): Option<real> {
    if IsPlainNumber(t) then Some(PlainValue(t)) else ParseClock(Split(t, ':'))
  }

  /** The two clock shapes, on the colon-separated fields of a token. */
  function ParseClock(f: seq<string>): Option<real> {
    if IsMinSec(f) then Some(MinSecSeconds(f[0], f[1]))
    else if IsHourMinSec(f) then Some(HourMinSecSeconds(f[0], f[1], f[2]))
    else None
  }

  // ---------------------------------------------------------------------
  // The grammar, stated independently of the parser as concatenations

  ghost predicate DecimalForm(t: string, v: real) {
    exists a, b :: IsDigits(a) && IsDigits(b) && t == a + "." + b
      && v == DigitsValue(a) as real + Fraction(b)
  }

  ghost predicate MinSecForm(t: string, v: real) {
    exists m, s :: IsDigits(m) && IsDigits(s) && |s| <= 2 && t == m + ":" + s
      && v == MinSecSeconds(m, s)
  }

  ghost predicate HourMinSecForm(t: string, v: real) {
    exists h, m, s :: IsDigits(h) && IsDigits(m) && IsDigits(s) && |m| == 2 && |s| == 2
      && t == h + ":" + m + ":" + s && v == HourMinSecSeconds(h, m, s)
  }

  /** A trimmed token `t` denotes `v` seconds under one of the three shapes. */
  ghost predicate Denotes(t: string, v: real) {
    (IsDigits(t) && v == DigitsValue(t) as real)
    || DecimalForm(t, v) || MinSecForm(t, v) || HourMinSecForm(t, v)
  }

  lemma DigitsHaveNo(s: string, c: char)
    requires AllDigits(s) && !IsDigit(c)
    ensures c !in s
  {
  }

  lemma Join2(a: string, b: string, sep: char)
    ensures Join([a, b], sep) == a + [sep] + b
  {
    assert [a, b][1..] == [b];
  }

  lemma Join3(a: string, b: string, c: string, sep: char)
    ensures Join([a, b, c], sep) == a + [sep] + b + [sep] + c
  {
    assert [a, b, c][1..] == [b, c];
    Join2(b, c, sep);
  }

  lemma Join4(a: string, b: string, c: string, e: string, sep: char)
    ensures Join([a, b, c, e], sep) == a + [sep] + b + [sep] + c + [sep] + e
  {
    assert [a, b, c, e][1..] == [b, c, e];
    Join3(b, c, e, sep);
  }

  lemma TrimUnpadded(t: string)
    requires Trimmed(t)
    ensures Trim(t) == t
  {
    TrimOfPadded([], t, []);
    assert [] + t + [] == t;
  }

  /** A token with a colon and no point is not a plain number. */
  lemma NotPlain(t: string, a: string, b: string)
    requires IsDigits(a) && t == a + ":" + b
    requires '.' !in b
    ensures !IsPlainNumber(t)
  {
    assert t[|a|] == ':';
    DigitsHaveNo(a, '.');
    assert '.' !in t;
    SplitWithoutSep(t, '.');
  }

  lemma SplitPair(a: string, sep: char, b: string)
    requires sep !in a && sep !in b
    ensures Split(a + [sep] + b, sep) == [a, b]
  {
    Join2(a, b, sep);
    SplitJoin([a, b], sep);
  }

  lemma SplitTriple(a: string, sep: char, b: string, c: string)
    requires sep !in a && sep !in b && sep !in c
    ensures Split(a + [sep] + b + [sep] + c, sep) == [a, b, c]
  {
    Join3(a, b, c, sep);
    SplitJoin([a, b, c], sep);
  }

  lemma NotAllDigits(a: string, c: char, b: string)
    requires !IsDigit(c)
    ensures !IsDigits(a + [c] + b)
  {
    assert (a + [c] + b)[|a|] == c;
  }

  lemma DecimalToken(a: string, b: string)
    requires IsDigits(a) && IsDigits(b)
    ensures ParseToken(a + "." + b) == Some(DigitsValue(a) as real + Fraction(b))
  {
    DigitsHaveNo(a, '.');
    DigitsHaveNo(b, '.');
    SplitPair(a, '.', b);
    NotAllDigits(a, '.', b);
  }

  lemma MinSecToken(m: string, s: string)
    requires IsDigits(m) && IsDigits(s) && |s| <= 2
    ensures ParseToken(m + ":" + s) == Some(MinSecSeconds(m, s))
  {
    DigitsHaveNo(s, '.');
    NotPlain(m + ":" + s, m, s);
    DigitsHaveNo(m, ':');
    DigitsHaveNo(s, ':');
    SplitPair(m, ':', s);
  }

  lemma HourMinSecToken(h: string, m: string, s: string)
    requires IsDigits(h) && IsDigits(m) && IsDigits(s) && |m| == 2 && |s| == 2
    ensures ParseToken(h + ":" + m + ":" + s) == Some(HourMinSecSeconds(h, m, s))
  {
    var t := h + ":" + m + ":" + s;
    DigitsHaveNo(m, '.');
    DigitsHaveNo(s, '.');
    assert '.' !in m + ":" + s;
    assert t == h + ":" + (m + ":" + s);
    NotPlain(t, h, m + ":" + s);
    DigitsHaveNo(h, ':');
    DigitsHaveNo(m, ':');
    DigitsHaveNo(s, ':');
    SplitTriple(h, ':', m, s);
  }

  lemma PlainSound(t: string)
    requires IsPlainNumber(t)
    ensures Denotes(t, PlainValue(t))
  {
    if !IsDigits(t) {
      var f := Split(t, '.');
      SplitPieces(t, '.');
      assert f == [f[0], f[1]];
      Join2(f[0], f[1], '.');
      assert t == f[0] + "." + f[1];
      assert DecimalForm(t, PlainValue(t));
    }
  }

  lemma ClockSound(t: string)
    requires ParseClock(Split(t, ':')).Some?
    ensures Denotes(t, ParseClock(Split(t, ':')).value)
  {
    var f := Split(t, ':');
    var v := ParseClock(f).value;
    SplitPieces(t, ':');
    if IsMinSec(f) {
      assert f == [f[0], f[1]];
      Join2(f[0], f[1], ':');
      assert t == f[0] + ":" + f[1];
      assert MinSecForm(t, v);
    } else {
      assert f == [f[0], f[1], f[2]];
      Join3(f[0], f[1], f[2], ':');
      assert t == f[0] + ":" + f[1] + ":" + f[2];
      assert HourMinSecForm(t, v);
    }
  }

  /** Every result of the parser is accounted for by the grammar. */
  lemma ParseSound(str: string)
    requires ParseTimestamp(str).Some?
    ensures Denotes(Trim(str), ParseTimestamp(str).value)
  {
    var t := Trim(str);
    if IsPlainNumber(t) {
      PlainSound(t);
    } else {
      ClockSound(t);
    }
  }

  /** Every token of the grammar is read by the parser with its value. */
  lemma ParseComplete(str: string, v: real)
    requires Denotes(Trim(str), v)
    ensures ParseTimestamp(str) == Some(v)
  {
    var t := Trim(str);
    if IsDigits(t) && v == DigitsValue(t) as real {
    } else if DecimalForm(t, v) {
      var a, b :| IsDigits(a) && IsDigits(b) && t == a + "." + b
        && v == DigitsValue(a) as real + Fraction(b);
      DecimalToken(a, b);
    } else if MinSecForm(t, v) {
      var m, s :| IsDigits(m) && IsDigits(s) && |s| <= 2 && t == m + ":" + s
        && v == MinSecSeconds(m, s);
      MinSecToken(m, s);
    } else {
      var h, m, s :| IsDigits(h) && IsDigits(m) && IsDigits(s) && |m| == 2 && |s| == 2
        && t == h + ":" + m + ":" + s && v == HourMinSecSeconds(h, m, s);
      HourMinSecToken(h, m, s);
    }
  }

  /** The parser accepts exactly the grammar's tokens, with their values. */
  lemma ParseTimestampGrammar(str: string, v: real)
    ensures ParseTimestamp(str) == Some(v) <==> Denotes(Trim(str), v)
  {
    if ParseTimestamp(str) == Some(v) {
      ParseSound(str);
    }
    if Denotes(Trim(str), v) {
      ParseComplete(str, v);
    }
  }

  /** A run of digits is read as whole seconds. */
  lemma ParseSeconds(d: string)
    requires IsDigits(d)
    ensures ParseTimestamp(d) == Some(DigitsValue(d) as real)
  {
    TrimUnpadded(d);
  }

  /** `S.F` is read as S + F/10^|F| seconds. */
  lemma ParseDecimalSeconds(a: string, b: string)
    requires IsDigits(a) && IsDigits(b)
    ensures ParseTimestamp(a + "." + b)
         == Some(DigitsValue(a) as real + Fraction(b))
  {
    var t := a + "." + b;
    assert t[0] == a[0] && t[|t| - 1] == b[|b| - 1];
    TrimUnpadded(t);
    DecimalToken(a, b);
  }

  /** `M:S` gives M*60 + S. */
  lemma ParseMinSec(m: string, s: string)
    requires IsDigits(m) && IsDigits(s) && |s| <= 2
    ensures ParseTimestamp(m + ":" + s) == Some(MinSecSeconds(m, s))
  {
    var t := m + ":" + s;
    assert t[0] == m[0] && t[|t| - 1] == s[|s| - 1];
    TrimUnpadded(t);
    MinSecToken(m, s);
  }

  /** `H:MM:SS` gives H*3600 + MM*60 + SS. */
  lemma ParseHourMinSec(h: string, m: string, s: string)
    requires IsDigits(h) && IsDigits(m) && IsDigits(s) && |m| == 2 && |s| == 2
    ensures ParseTimestamp(h + ":" + m + ":" + s) == Some(HourMinSecSeconds(h, m, s))
  {
    var t := h + ":" + m + ":" + s;
    assert t[0] == h[0] && t[|t| - 1] == s[|s| - 1];
    TrimUnpadded(t);
    HourMinSecToken(h, m, s);
  }

  /** Surrounding spaces never change what a token parses to. */
  lemma ParseIgnoresSpaces(w1: string, str: string, w2: string)
    requires AllSpace(w1) && AllSpace(w2)
    ensures ParseTimestamp(w1 + str + w2) == ParseTimestamp(str)
  {
    TrimAbsorbsSpaces(w1, str, w2);
  }

  /** One token of each shape, and three tokens that are refused. */
  lemma ParseExamples()
    ensures ParseTimestamp("90") == Some(90.0)
    ensures ParseTimestamp("1:30") == Some(90.0)
    ensures ParseTimestamp("01:01:30") == Some(3690.0)
    ensures ParseTimestamp("abc") == None
    ensures ParseTimestamp("1:1:1:1") == None
    ensures ParseTimestamp("") == None
  {
    ExampleSeconds();
    ExampleMinSec();
    ExampleHourMinSec();
    ExampleWord();
    ExampleFourFields();
    ExampleEmpty();
  }

  // Each example names its token through a lemma's out-parameter, so that
  // the parser is unfolded on a variable rather than on the literal.

  lemma SecondsToken() returns (t: string)
    ensures t == "90" && IsDigits(t) && DigitsValue(t) == 90
  {
    t := "90";
    assert DigitsValue("9") == 9;
  }

  lemma ExampleSeconds()
    ensures ParseTimestamp("90") == Some(90.0)
  {
    var t := SecondsToken();
    ParseSeconds(t);
  }

  lemma MinSecFields() returns (m: string, s: string)
    ensures m == "1" && s == "30"
    ensures IsDigits(m) && IsDigits(s) && |s| <= 2 && MinSecSeconds(m, s) == 90.0
  {
    m, s := "1", "30";
    assert DigitsValue("3") == 3;
  }

  lemma ExampleMinSec()
    ensures ParseTimestamp("1:30") == Some(90.0)
  {
    var m, s := MinSecFields();
    ParseMinSec(m, s);
    assert "1:30" == m + ":" + s;
  }

  lemma HourMinSecFields() returns (h: string, m: string, s: string)
    ensures h == "01" && m == "01" && s == "30"
    ensures IsDigits(h) && IsDigits(m) && IsDigits(s) && |m| == 2 && |s| == 2
    ensures HourMinSecSeconds(h, m, s) == 3690.0
  {
    h, m, s := "01", "01", "30";
    assert DigitsValue("0") == 0;
    assert DigitsValue("3") == 3;
  }

  lemma ExampleHourMinSec()
    ensures ParseTimestamp("01:01:30") == Some(3690.0)
  {
    var h, m, s := HourMinSecFields();
    ParseHourMinSec(h, m, s);
    assert "01:01:30" == h + ":" + m + ":" + s;
  }

  lemma WordToken() returns (t: string)
    ensures t == "abc" && Trimmed(t) && !IsDigits(t)
    ensures Split(t, '.') == [t] && Split(t, ':') == [t]
  {
    t := "abc";
    assert !IsDigit(t[0]);
    SplitWithoutSep(t, '.');
    SplitWithoutSep(t, ':');
  }

  lemma ExampleWord()
    ensures ParseTimestamp("abc") == None
  {
    var t := WordToken();
    NoShapeRefused(t);
  }

  lemma FourFieldsToken() returns (t: string)
    ensures t == "1:1:1:1" && Trimmed(t) && !IsDigits(t)
    ensures Split(t, '.') == [t] && |Split(t, ':')| == 4
  {
    var one := "1";
    t := one + ":" + one + ":" + one + ":" + one;
    Join4(one, one, one, one, ':');
    assert Join([one, one, one, one], ':') == t;
    SplitJoin([one, one, one, one], ':');
    assert t[1] == ':';
    SplitWithoutSep(t, '.');
  }

  lemma ExampleFourFields()
    ensures ParseTimestamp("1:1:1:1") == None
  {
    var t := FourFieldsToken();
    NoShapeRefused(t);
  }

  /** A trimmed token that is no number and does not split into two or three fields is refused. */
  lemma NoShapeRefused(t: string)
    requires Trimmed(t) && !IsDigits(t) && Split(t, '.') == [t]
    requires |Split(t, ':')| != 2 && |Split(t, ':')| != 3
    ensures ParseTimestamp(t) == None
  {
    TrimUnpadded(t);
  }

  lemma ExampleEmpty()
    ensures ParseTimestamp("") == None
  {
    TrimUnpadded("");
  }

  // ---------------------------------------------------------------------
  // formatTime

  /** Truncation toward zero, as JavaScript's `%` uses it. */
  function Trunc(x: real): int {
    if x >= 0.0 then x.Floor else -((-x).Floor)
  }

  /** JavaScript's `x % y` on numbers: the remainder takes the sign of `x`. */
  function JsRemainder(x: real, y: real): real
    requires y != 0.0
  {
    x - y * Trunc(x / y) as real
  }

  /** `formatTime(seconds)`: whole minutes, a colon, whole seconds padded to two digits. */
  function FormatTime(seconds: real): string {
    var mins := (seconds / 60.0).Floor;
    var secs := JsRemainder(seconds, 60.0).Floor;
    IntToString(mins) + ":" + PadStart(IntToString(secs), 2, '0')
  }

  /** For a non-negative duration the rendering is `m:ss` with ss below 60 and m*60+ss the whole seconds. */
  lemma FormatTimeFields(seconds: real)
    requires seconds >= 0.0
    ensures exists m, s :: IsDigits(m) && IsDigits(s) && |s| == 2 && FormatTime(seconds) == m + ":" + s
                           && DigitsValue(s) < 60 && DigitsValue(m) * 60 + DigitsValue(s) == seconds.Floor
  {
    var mins := (seconds / 60.0).Floor;
    var rem := JsRemainder(seconds, 60.0);
    assert mins >= 0;
    assert rem == seconds - 60.0 * mins as real;
    assert 0.0 <= rem < 60.0;
    var secs := rem.Floor;
    assert secs == seconds.Floor - 60 * mins;
    var m := Decimal(mins);
    var s := PadStart(Decimal(secs), 2, '0');
    ZeroPaddedValue(secs, 2);
    assert |Decimal(secs)| <= 2 by {
      if |Decimal(secs)| > 2 {
        assert Pow10(|Decimal(secs)| - 1) >= 100 by { Pow10AtLeast(|Decimal(secs)| - 1); }
        DecimalLowerBound(secs);
      }
    }
    assert FormatTime(seconds) == m + ":" + s;
  }

  lemma {:induction false} Pow10AtLeast(n: nat)
    requires n >= 2
    ensures Pow10(n) >= 100
  {
    if n > 2 { Pow10AtLeast(n - 1); }
  }

  /** A numeral without a leading zero is at least 10^(length-1). */
  lemma DecimalLowerBound(n: nat)
    ensures |Decimal(n)| == 1 || n >= Pow10(|Decimal(n)| - 1)
  {
    if n >= 10 {
      DecimalLowerBound(n / 10);
    }
  }

  /** What `formatTime` prints, `parseTimestamp` reads back as the whole seconds. */
  lemma FormatTimeRoundTrip(seconds: real)
    requires seconds >= 0.0
    ensures ParseTimestamp(FormatTime(seconds)) == Some(seconds.Floor as real)
  {
    FormatTimeFields(seconds);
    var m, s :| IsDigits(m) && IsDigits(s) && |s| == 2 && FormatTime(seconds) == m + ":" + s
                && DigitsValue(s) < 60 && DigitsValue(m) * 60 + DigitsValue(s) == seconds.Floor;
    var r := FormatTime(seconds);
    ParseMinSec(m, s);
    assert ParseTimestamp(r) == Some(MinSecSeconds(m, s));
    assert MinSecSeconds(m, s) == seconds.Floor as real;
  }
}
