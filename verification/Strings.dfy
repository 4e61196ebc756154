/** Splitting text on a separator and printing natural numbers, as Python does. */
module Strings {
  import opened Prelude

  /** Position of the first `c`, or the length when there is none. */
  function IndexOf(s: string, c: char): (i: nat)
    ensures i <= |s| && c !in s[..i] && (i < |s| ==> s[i] == c)
  {
    if s == [] then 0 else if s[0] == c then 0
    else
      var j := IndexOf(s[1..], c);
      assert s[..j + 1] == [s[0]] + s[1..][..j];
      j + 1
  }

  /** `s.split(c)` */
  function SplitOn(s: string, c: char): (parts: seq<string>)
    ensures |parts| >= 1
    decreases |s|
  {
    var i := IndexOf(s, c);
    if i == |s| then [s] else [s[..i]] + SplitOn(s[i + 1..], c)
  }

  lemma {:induction false} IndexOfFirst(x: string, c: char, rest: string)
    requires c !in x
    ensures IndexOf(x + [c] + rest, c) == |x|
  {
    var s := x + [c] + rest;
    if x == [] {
      assert s[0] == c;
    } else {
      assert s[0] == x[0] && s[1..] == x[1..] + [c] + rest;
      IndexOfFirst(x[1..], c, rest);
    }
  }

  /** A part without the separator is split off whole. */
  lemma SplitFirst(x: string, c: char, rest: string)
    requires c !in x
    ensures SplitOn(x + [c] + rest, c) == [x] + SplitOn(rest, c)
  {
    var s := x + [c] + rest;
    IndexOfFirst(x, c, rest);
    assert s[..|x|] == x && s[|x| + 1..] == rest;
  }

  lemma SplitWhole(x: string, c: char)
    requires c !in x
    ensures SplitOn(x, c) == [x]
  {
  }

  /** A part without the separator is also split off the end. */
  lemma {:induction false} SplitLast(x: string, c: char, last: string)
    requires c !in last
    ensures SplitOn(x + [c] + last, c) == SplitOn(x, c) + [last]
    decreases |x|
  {
    var i := IndexOf(x, c);
    if i == |x| {
      assert x[..i] == x;
      SplitWhole(last, c);
      SplitFirst(x, c, last);
    } else {
      var first, rest := x[..i], x[i + 1..];
      assert x == first + [c] + rest;
      assert x + [c] + last == first + [c] + (rest + [c] + last);
      SplitLast(rest, c, last);
      SplitFirst(first, c, rest);
      SplitFirst(first, c, rest + [c] + last);
      Regroup([first], SplitOn(rest, c), [last]);
    }
  }

  function Digit(d: nat): char
    requires d < 10
  {
    "0123456789"[d]
  }

  predicate IsDigit(c: char) {
    '0' <= c <= '9'
  }

  /** Decimal notation. */
  function Print(n: nat): (s: string)
    ensures |s| >= 1 && forall i :: 0 <= i < |s| ==> IsDigit(s[i])
  {
    if n < 10 then [Digit(n)] else Print(n / 10) + [Digit(n % 10)]
  }

  function ParseDigits(s: string): nat
    requires forall i :: 0 <= i < |s| ==> IsDigit(s[i])
  {
    if s == [] then 0
    else
      var c := s[|s| - 1];
      assert IsDigit(c);
      10 * ParseDigits(s[..|s| - 1]) + (c as int - '0' as int)
  }

  /** `int(s)` on plain digit strings; anything else is an error here. */
  function ParseNat(s: string): Option<nat> {
    if s != [] && forall i :: 0 <= i < |s| ==> IsDigit(s[i]) then Some(ParseDigits(s)) else None
  }

  lemma {:induction false} ParsePrint(n: nat)
    ensures ParseNat(Print(n)) == Some(n)
  {
    if n >= 10 {
      ParsePrint(n / 10);
      var s := Print(n);
      assert s[..|s| - 1] == Print(n / 10);
    } else {
      assert ParseDigits([]) == 0;
      assert Print(n)[..0] == [];
    }
  }

  /** Only a text of digits, and not the empty one, is read as a number. */
  lemma ParseNatIff(s: string)
    ensures ParseNat(s).Some? <==> s != "" && forall i :: 0 <= i < |s| ==> '0' <= s[i] <= '9'
  {
  }

  /** The parts of a text stand in it in order, separated by `c`; the first has no `c`. */
  lemma SplitParts(s: string, c: char)
    ensures
      var parts := SplitOn(s, c);
      && c !in parts[0]
      && (|parts| == 1 ==> s == parts[0])
      && (|parts| > 1 ==> exists rest :: s == parts[0] + [c] + rest && SplitOn(rest, c) == parts[1..])
  {
    var i := IndexOf(s, c);
    if i < |s| {
      assert s == s[..i] + [c] + s[i + 1..];
      assert ([s[..i]] + SplitOn(s[i + 1..], c))[1..] == SplitOn(s[i + 1..], c);
    } else {
      assert s[..i] == s;
    }
  }

  lemma PrintHasNo(n: nat, c: char)
    requires !IsDigit(c)
    ensures c !in Print(n)
  {
  }
}
