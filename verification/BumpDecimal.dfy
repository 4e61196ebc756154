/**
 The successor of a decimal, used as an exclusive lower bound of a range read
 (app/controllers/notification/utils.py, `bump_decimal`).
 */
module BumpDecimal {
  import opened Prelude
  import opened Strings

  /** coefficient * 10^exponent, as `decimal.Decimal` keeps it. */
  datatype Decimal = Decimal(coefficient: int, exponent: int)

  function Pow10(n: nat): (p: int)
    ensures p >= 1
  {
    if n == 0 then 1 else 10 * Pow10(n - 1)
  }

  function Unit(e: int): (u: real)
    ensures u > 0.0
  {
    if e >= 0 then Pow10(e) as real else 1.0 / (Pow10(-e) as real)
  }

  function Value(d: Decimal): real {
    d.coefficient as real * Unit(d.exponent)
  }

  /** Plain decimal notation: digits, optionally a point and more digits, optionally
      a minus sign. Every digit written counts, trailing zeros included. */
  function Parse(s: string): Option<Decimal> {
    if s != "" && s[0] == '-' then
      match ParseUnsigned(s[1..]) case None => None case Some(d) => Some(Decimal(0 - d.coefficient, d.exponent))
    else ParseUnsigned(s)
  }

  function ParseUnsigned(s: string): Option<Decimal> {
    var parts := SplitOn(s, '.');
    if |parts| == 1 then
      (match ParseNat(parts[0]) case None => None case Some(n) => Some(Decimal(n, 0)))
    else if |parts| == 2 then
      (match ParseNat(parts[0] + parts[1]) case None => None case Some(n) => Some(Decimal(n, 0 - |parts[1]|)))
    else None
  }

  /** Number of fractional digits kept by the bump. */
  function Precision(d: Decimal): (k: int)
    ensures k >= 0
  {
    if d.exponent < 0 then -d.exponent else 0
  }

  /** Significant digits of the default arithmetic context. */
  const CONTEXT_DIGITS := 28

  /** The incremented coefficient at the scale of the result. */
  function Incremented(d: Decimal): int {
    if d.exponent < 0 then d.coefficient + 1 else d.coefficient * Pow10(d.exponent) + 1
  }

  predicate InContext(c: int) {
    -Pow10(CONTEXT_DIGITS) < c < Pow10(CONTEXT_DIGITS)
  }

  /** None is the error raised when the result needs more digits than the context has. */
  function Bump(d: Decimal): Option<Decimal> {
    var c := Incremented(d);
    if InContext(c) then Some(Decimal(c, -Precision(d))) else None
  }

  // --------------------------------------------------------------------
  // The least larger decimal
  // --------------------------------------------------------------------

  lemma MulMonotone(x: int, y: int, u: real)
    requires u > 0.0
    ensures x < y <==> x as real * u < y as real * u
  {
    var d := (y - x) as real;
    assert y as real * u - x as real * u == d * u;
    if d > 0.0 { MulPositive(d, u); } else { MulNonPositive(d, u); }
  }

  /** At one scale values are ordered like coefficients. */
  lemma OrderAtScale(x: int, y: int, e: int)
    ensures x < y <==> Value(Decimal(x, e)) < Value(Decimal(y, e))
  {
    hide Unit;
    MulMonotone(x, y, Unit(e));
  }

  lemma MulPositive(d: real, u: real)
    requires d > 0.0 && u > 0.0
    ensures d * u > 0.0
  {
  }

  lemma MulNonPositive(d: real, u: real)
    requires d <= 0.0 && u > 0.0
    ensures d * u <= 0.0
  {
    if d < 0.0 { MulPositive(-d, u); assert (-d) * u == -(d * u); }
  }

  /** The value at the scale of the bump: one unit below the incremented coefficient. */
  lemma ValueAtScale(d: Decimal)
    ensures Value(d) == (Incremented(d) - 1) as real * Unit(-Precision(d))
  {
    if d.exponent >= 0 {
      assert Unit(0) == 1.0;
      assert (d.coefficient * Pow10(d.exponent)) as real == d.coefficient as real * (Pow10(d.exponent) as real);
    }
  }

  /** The bumped decimal keeps the number of fractional digits, is strictly larger,
      and no decimal with that many fractional digits lies in between. */
  lemma BumpIsLeast(d: Decimal, coefficient: int)
    requires Bump(d).Some?
    ensures
      var b := Bump(d).value;
      var k := Precision(d);
      && Precision(b) == k
      && Value(d) < Value(b)
      && (Value(Decimal(coefficient, -k)) > Value(d) <==> Value(Decimal(coefficient, -k)) >= Value(b))
  {
    hide Unit, Incremented, InContext, Pow10;
    var k, c := Precision(d), Incremented(d);
    var b, other := Bump(d).value, Decimal(coefficient, -k);
    ValueAtScale(d);
    assert b == Decimal(c, -k) && Precision(b) == k;
    OrderAtScale(c - 1, c, -k);
    OrderAtScale(c - 1, coefficient, -k);
    OrderAtScale(coefficient, c, -k);
    assert Value(d) == Value(Decimal(c - 1, -k));
  }

  predicate IsNumeral(s: string) {
    forall i :: 0 <= i < |s| ==> IsDigit(s[i])
  }

  /** The number that digits stand for. */
  lemma {:induction false} DigitsAppend(x: string, y: string)
    requires IsNumeral(x) && IsNumeral(y)
    ensures IsNumeral(x + y) && ParseDigits(x + y) == ParseDigits(x) * Pow10(|y|) + ParseDigits(y)
    decreases |y|
  {
    if y == [] {
      assert x + y == x;
      NoDigits(x);
    } else {
      var front := y[..|y| - 1];
      var last := y[|y| - 1];
      assert (x + y)[..|x + y| - 1] == x + front && (x + y)[|x + y| - 1] == last;
      DigitsAppend(x, front);
      LastDigit(y);
      LastDigit(x + y);
      hide ParseDigits, Pow10;
      Pow10Step(|y|);
      TimesTen(ParseDigits(x), Pow10(|front|));
    }
  }

  lemma NoDigits(x: string)
    requires IsNumeral(x)
    ensures ParseDigits(x) == ParseDigits(x) * Pow10(0) + ParseDigits([])
  {
  }

  lemma LastDigit(s: string)
    requires s != "" && IsNumeral(s)
    ensures ParseDigits(s) == 10 * ParseDigits(s[..|s| - 1]) + (s[|s| - 1] as int - '0' as int)
  {
  }

  lemma TimesTen(x: int, p: int)
    ensures 10 * (x * p) == x * (10 * p)
  {
  }

  /** Digits without a point are a whole number. */
  lemma ParseWhole(x: string)
    requires x != "" && IsNumeral(x)
    ensures Parse(x) == Some(Decimal(ParseDigits(x), 0))
  {
    SplitWhole(x, '.');
  }

  /** Digits after a point count as that many fractional digits. */
  lemma ParsePoint(x: string, y: string)
    requires x + y != "" && IsNumeral(x) && IsNumeral(y)
    ensures
      var d := Parse(x + "." + y);
      && d.Some? && d.value.exponent == -|y|
      && d.value.coefficient == ParseDigits(x) * Pow10(|y|) + ParseDigits(y)
  {
    hide ParseDigits, Pow10, SplitOn, Parse, ParseUnsigned, IsNumeral;
    PointStarts(x, y);
    DigitsAppend(x, y);
    ParseSigned(x + "." + y);
    UnsignedPoint(x, y);
  }

  lemma UnsignedPoint(x: string, y: string)
    requires x + y != "" && IsNumeral(x) && IsNumeral(y) && IsNumeral(x + y)
    ensures ParseUnsigned(x + "." + y) == Some(Decimal(ParseDigits(x + y), -|y|))
  {
    hide ParseDigits, SplitOn;
    assert x + "." + y == x + ['.'] + y;
    SplitFirst(x, '.', y);
    SplitWhole(y, '.');
  }

  /** A minus sign in front negates. */
  lemma ParseMinus(s: string)
    requires s != "" && s[0] != '-' && Parse(s).Some?
    ensures Parse("-" + s) == Some(Decimal(-Parse(s).value.coefficient, Parse(s).value.exponent))
  {
    assert ("-" + s)[1..] == s;
  }

  /** Digits, or digits with a point before, among or after them. */
  ghost predicate IsPlain(s: string) {
    (s != "" && IsNumeral(s)) || exists x, y :: s == x + "." + y && x + y != "" && IsNumeral(x) && IsNumeral(y)
  }

  /** Only such texts are read, with or without a minus sign in front. */
  lemma ParseIff(s: string)
    ensures Parse(s).Some? <==> IsPlain(s) || (s != "" && s[0] == '-' && IsPlain(s[1..]))
  {
    hide Parse, ParseUnsigned;
    UnsignedIff(s);
    if s != "" { UnsignedIff(s[1..]); }
    ParseSigned(s);
    PlainStarts(s);
  }

  lemma PlainStarts(s: string)
    ensures IsPlain(s) ==> s != "" && s[0] != '-'
  {
    forall x, y | s == x + "." + y && IsNumeral(x) && IsNumeral(y) ensures s[0] != '-' {
      assert s[0] == if x == "" then '.' else x[0];
    }
  }

  lemma ParseSigned(s: string)
    ensures Parse(s).Some? <==> ParseUnsigned(if s != "" && s[0] == '-' then s[1..] else s).Some?
    ensures s != "" && s[0] != '-' ==> Parse(s) == ParseUnsigned(s)
  {
  }

  lemma UnsignedIff(s: string)
    ensures ParseUnsigned(s).Some? <==> IsPlain(s)
  {
    hide SplitOn, ParseDigits;
    var parts := SplitOn(s, '.');
    SplitParts(s, '.');
    if |parts| == 2 && ParseNat(parts[0] + parts[1]).Some? {
      var rest :| s == parts[0] + ['.'] + rest && SplitOn(rest, '.') == parts[1..];
      SplitParts(rest, '.');
      var x, y := parts[0], parts[1];
      assert forall i :: 0 <= i < |x| ==> x[i] == (x + y)[i];
      assert forall i :: 0 <= i < |y| ==> y[i] == (x + y)[|x| + i];
      assert s == x + "." + y && x + y != "" && IsNumeral(x) && IsNumeral(y);
    }
    if s != "" && IsNumeral(s) { SplitWhole(s, '.'); }
    forall x, y | s == x + "." + y && x + y != "" && IsNumeral(x) && IsNumeral(y) ensures parts == [x, y] {
      assert s == x + ['.'] + y;
      SplitFirst(x, '.', y);
      SplitWhole(y, '.');
    }
  }

  /** Bumping the text of a number with `k` digits after the point raises it by one unit of
      the last of them, and the result has `k` such digits too. */
  lemma BumpText(x: string, y: string, negative: bool)
    requires x + y != "" && IsNumeral(x) && IsNumeral(y)
    ensures
      var d := Parse((if negative then "-" else "") + x + "." + y);
      var n := ParseDigits(x) * Pow10(|y|) + ParseDigits(y);
      && d.Some? && d.value == Decimal(if negative then -n else n, -|y|)
      && (Bump(d.value).Some? ==> Bump(d.value).value == Decimal((if negative then -n else n) + 1, -|y|))
  {
    hide ParseDigits, Pow10, Parse, Bump, IsNumeral;
    var s := x + "." + y;
    ParsePoint(x, y);
    PointStarts(x, y);
    ParseMinus(s);
    var sign := if negative then "-" else "";
    SignFirst(sign, x, y);
    BumpOneUnit(Parse(sign + s).value);
  }

  lemma SignFirst(sign: string, x: string, y: string)
    ensures sign + x + "." + y == sign + (x + "." + y)
    ensures sign == "" ==> sign + (x + "." + y) == x + "." + y
  {
  }

  lemma PointStarts(x: string, y: string)
    requires IsNumeral(x)
    ensures (x + "." + y)[0] != '-'
  {
    assert (x + "." + y)[0] == if x == "" then '.' else x[0];
  }

  /** With no more than fractional digits the coefficient goes up by one. */
  lemma BumpOneUnit(d: Decimal)
    requires d.exponent <= 0
    ensures Bump(d).Some? ==> Bump(d).value == Decimal(d.coefficient + 1, d.exponent)
  {
    assert Pow10(0) == 1;
  }

  /** With fractional digits, the bump fails exactly when the coefficient already
      fills the context from above or lies below it. */
  lemma BumpFailsIff(d: Decimal)
    requires d.exponent <= 0
    ensures Bump(d).None? <==>
            d.coefficient >= Pow10(28) - 1 || d.coefficient <= -Pow10(28) - 1
  {
    assert d.exponent == 0 ==> Pow10(d.exponent) == 1;
    hide Pow10;
  }

  // --------------------------------------------------------------------
  // The exclusive range read
  // --------------------------------------------------------------------

  datatype Entry = Entry(payload: string, score: Decimal)

  /** `zrangebyscore(min, +inf)` */
  function ReadFrom(entries: seq<Entry>, min: Decimal): seq<Entry> {
    if entries == [] then []
    else if Value(entries[0].score) >= Value(min) then [entries[0]] + ReadFrom(entries[1..], min)
    else ReadFrom(entries[1..], min)
  }

  function ReadAfter(entries: seq<Entry>, last: Decimal): seq<Entry> {
    if entries == [] then []
    else if Value(entries[0].score) > Value(last) then [entries[0]] + ReadAfter(entries[1..], last)
    else ReadAfter(entries[1..], last)
  }

  /** Scores strictly between a decimal and its bump. */
  predicate InGap(e: Entry, last: Decimal)
    requires Bump(last).Some?
  {
    Value(last) < Value(e.score) < Value(Bump(last).value)
  }

  lemma {:induction false} ReadSizes(entries: seq<Entry>, last: Decimal)
    requires Bump(last).Some?
    ensures |ReadFrom(entries, Bump(last).value)| <= |ReadAfter(entries, last)|
  {
    if entries != [] {
      ReadSizes(entries[1..], last);
      BumpIsLeast(last, 0);
    }
  }

  /** Reading from the bumped score returns exactly the entries after the last
      score if and only if no score lies strictly between the two. */
  lemma {:induction false} ReadIsExclusiveIff(entries: seq<Entry>, last: Decimal)
    requires Bump(last).Some?
    ensures ReadFrom(entries, Bump(last).value) == ReadAfter(entries, last)
            <==> forall i :: 0 <= i < |entries| ==> !InGap(entries[i], last)
  {
    if entries != [] {
      var rest := entries[1..];
      ReadIsExclusiveIff(rest, last);
      ReadSizes(rest, last);
      BumpIsLeast(last, 0);
      var from, after := ReadFrom(entries, Bump(last).value), ReadAfter(entries, last);
      if from == after && from != [] && from[0] == entries[0] {
        assert from[1..] == after[1..];
      }
      assert (forall i :: 0 <= i < |entries| ==> !InGap(entries[i], last)) <==>
             !InGap(entries[0], last) && forall i :: 0 <= i < |rest| ==> !InGap(rest[i], last) by {
        assert forall i :: 0 <= i < |rest| ==> rest[i] == entries[i + 1];
        if !InGap(entries[0], last) && forall i :: 0 <= i < |rest| ==> !InGap(rest[i], last) {
          forall i | 0 <= i < |entries| ensures !InGap(entries[i], last) {
            if i > 0 { assert entries[i] == rest[i - 1]; }
          }
        }
      }
    }
  }

  lemma {:induction false} Pow10Sum(m: nat, n: nat)
    ensures Pow10(m + n) == Pow10(m) * Pow10(n)
  {
    if m > 0 {
      Pow10Sum(m - 1, n);
      Pow10Step(m);
      Pow10Step(m + n);
      hide Pow10;
      assert Pow10(m - 1 + n) == Pow10(m - 1) * Pow10(n);
      Regroup(Pow10(m - 1), Pow10(n));
    }
  }

  lemma Pow10Step(n: nat)
    requires n > 0
    ensures Pow10(n) == 10 * Pow10(n - 1)
  {
  }

  lemma Regroup(x: int, y: int)
    ensures 10 * (x * y) == (10 * x) * y
  {
  }

  lemma UnitBelow(k: int)
    requires k >= 0
    ensures Unit(-k) == 1.0 / (Pow10(k) as real)
  {
    if k == 0 { assert Pow10(0) == 1; }
  }

  lemma UnitAbove(e: int)
    requires e >= 0
    ensures Unit(e) == Pow10(e) as real
  {
  }

  /** A coarser unit is a multiple of a finer one. */
  lemma UnitMultiple(e: int, k: int)
    requires k >= 0 && e >= -k
    ensures Unit(e) == Pow10(e + k) as real * Unit(-k)
  {
    if e >= 0 { CoarserThanOne(e, k); } else { FinerThanOne(e, k); }
  }

  lemma CoarserThanOne(e: int, k: int)
    requires k >= 0 && e >= 0
    ensures Unit(e) == Pow10(e + k) as real * Unit(-k)
  {
    hide Unit, Pow10;
    var x, f, p, u := Pow10(e), Pow10(k), Pow10(e + k), Unit(-k);
    assert u == 1.0 / (f as real) by { UnitBelow(k); }
    UnitAbove(e);
    assert x as real == p as real * u by { Pow10Sum(e, k); TimesOver(x, f, p, u); }
  }

  lemma FinerThanOne(e: int, k: int)
    requires k >= 0 && -k <= e < 0
    ensures Unit(e) == Pow10(e + k) as real * Unit(-k)
  {
    hide Unit, Pow10;
    var x, f, p, u, v := Pow10(-e), Pow10(k), Pow10(e + k), Unit(-k), Unit(e);
    assert f == x * p by { Pow10Sum(-e, e + k); }
    assert u == 1.0 / (f as real) by { UnitBelow(k); }
    assert v == 1.0 / (x as real) by { UnitBelow(-e); }
    OverOver(x, p, f, u, v);
  }

  lemma TimesOver(x: int, f: int, p: int, u: real)
    requires f >= 1 && p == x * f && u == 1.0 / (f as real)
    ensures x as real == p as real * u
  {
    assert p as real == x as real * (f as real);
  }

  lemma OverOver(x: int, p: int, f: int, u: real, v: real)
    requires x >= 1 && p >= 1 && f >= 1 && f == x * p
    requires u == 1.0 / (f as real) && v == 1.0 / (x as real)
    ensures v == p as real * u
  {
    var rx, rp, rf := x as real, p as real, f as real;
    assert rf == rx * rp;
    assert v * rx == 1.0 && u * rf == 1.0;
    assert (rp * u) * rx == 1.0;
    EqualQuotients(v, rp * u, rx);
  }

  lemma EqualQuotients(u: real, w: real, x: real)
    requires x > 0.0 && u * x == w * x
    ensures u == w
  {
  }

  /** A score with no more digits than the scale is a whole number of its units. */
  lemma AtScale(d: Decimal, k: int)
    requires k >= 0 && d.exponent >= -k
    ensures Value(d) == Value(Decimal(d.coefficient * Pow10(d.exponent + k), -k))
  {
    hide Unit;
    UnitMultiple(d.exponent, k);
    var c, p, u := d.coefficient, Pow10(d.exponent + k), Unit(-k);
    assert (c * p) as real == c as real * (p as real);
  }

  /** Among scores with no more fractional digits than the last one, the read is
      exactly the entries with a strictly greater score. */
  lemma {:induction false} SameDigitsReadIsExclusive(entries: seq<Entry>, last: Decimal)
    requires Bump(last).Some?
    requires forall i :: 0 <= i < |entries| ==> entries[i].score.exponent >= -Precision(last)
    ensures ReadFrom(entries, Bump(last).value) == ReadAfter(entries, last)
  {
    hide Value, Bump, ReadFrom, ReadAfter;
    forall i | 0 <= i < |entries| ensures !InGap(entries[i], last) {
      var d, k := entries[i].score, Precision(last);
      AtScale(d, k);
      BumpIsLeast(last, d.coefficient * Pow10(d.exponent + k));
    }
    ReadIsExclusiveIff(entries, last);
  }

  /** A score with more digits can fall in the gap: 1.05 after 1.0 is missed. */
  lemma FinerScoreIsMissed(payload: string)
    ensures
      var last, e := Decimal(10, -1), Entry(payload, Decimal(105, -2));
      && Bump(last) == Some(Decimal(11, -1))
      && ReadAfter([e], last) == [e] && ReadFrom([e], Bump(last).value) == []
  {
    assert Pow10(1) == 10 && Pow10(2) == 100;
    PowGrows(2, CONTEXT_DIGITS);
    var e := Entry(payload, Decimal(105, -2));
    assert [e][1..] == [];
    assert Unit(-1) == 0.1 && Unit(-2) == 0.01;
    hide Pow10, Unit;
  }

  lemma {:induction false} PowGrows(m: nat, n: nat)
    requires m <= n
    ensures Pow10(m) <= Pow10(n)
    decreases n
  {
    if m < n { PowGrows(m, n - 1); }
  }
}
