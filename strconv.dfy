/** The delegate `strconv.ParseInt(value, 10, bitSize)` that `SafeParse`
    calls, for base 10 only: an optional `+` or `-`, then ASCII digits. It is
    written after Go's ParseInt, which strips the sign and hands the digits
    to ParseUint, whose loop reads them left to right into an accumulator.
    Beside it stands the specification it meets (well-formed text, its
    decimal value, the signed range of `bitSize`) and the plain decimal
    rendering of an integer. */
module Strconv {
  import opened IntTypes

  predicate IsDigit(c: char) {
    '0' <= c <= '9'
  }

  function DigitValue(c: char): (d: nat)
    requires IsDigit(c)
    ensures d < 10
  {
    (c as int) - ('0' as int)
  }

  predicate AllDigits(s: string) {
    forall i :: 0 <= i < |s| ==> IsDigit(s[i])
  }

  /** The positional value of a digit string, most significant digit first. */
  function DecimalValue(s: string): nat
    requires AllDigits(s)
  {
    if s == [] then 0 else DecimalValue(s[..|s| - 1]) * 10 + DigitValue(s[|s| - 1])
  }

  /** The value of the digits `s` appended, left to right, to the value `n`. */
  function Accumulate(n: nat, s: string): (r: nat)
    requires AllDigits(s)
    ensures r >= n
    ensures s != [] ==> r >= n * 10 + DigitValue(s[0])
    decreases |s|
  {
    if s == [] then n else Accumulate(n * 10 + DigitValue(s[0]), s[1..])
  }

  /** The longest prefix of `s` made of digits. */
  function DigitRun(s: string): (p: string)
    ensures |p| <= |s| && p == s[..|p|] && AllDigits(p)
    ensures |p| == |s| || !IsDigit(s[|p|])
  {
    if s == [] || !IsDigit(s[0]) then [] else [s[0]] + DigitRun(s[1..])
  }

  /** The smallest accumulator that ParseUint refuses to multiply by ten:
      `maxUint64/10 + 1`. */
  const Cutoff10: nat := 1844674407370955162

  /** The digit loop of ParseUint in base 10, with accumulator `n` and the
      largest value `maxVal` of the requested width. A non-digit is a syntax
      error; exceeding `maxVal` is a range error, reported at once, before
      any later character is looked at. Go's extra test for a wrapped uint64
      sum is covered by `n1 > maxVal`, since mathematical integers do not
      wrap and `maxVal` is at most the largest uint64. */
  function ScanDigits(s: string, n: nat, maxVal: nat): (r: Returned)
    requires maxVal <= MaxUint64
    decreases |s|
  {
    if s == [] then Returned(n, None)
    else if !IsDigit(s[0]) then Returned(0, Some(ParseSyntax))
    else if n >= Cutoff10 then Returned(maxVal, Some(ParseRange))
    else
      var n1 := n * 10 + DigitValue(s[0]);
      if n1 > maxVal then Returned(maxVal, Some(ParseRange))
      else ScanDigits(s[1..], n1, maxVal)
  }

  /** `strconv.ParseUint(s, 10, bitSize)`. */
  function ParseUint(s: string, bitSize: Width): Returned {
    if s == [] then Returned(0, Some(ParseSyntax))
    else ScanDigits(s, 0, Modulus(bitSize) - 1)
  }

  /** The text after an optional leading sign. */
  function Body(s: string): string {
    if s != [] && (s[0] == '+' || s[0] == '-') then s[1..] else s
  }

  predicate Negative(s: string) {
    s != [] && s[0] == '-'
  }

  /** `strconv.ParseInt(s, 10, bitSize)`: the value clamped to the signed
      range on a range error, 0 on a syntax error. */
  function ParseInt(s: string, bitSize: Width): Returned {
    if s == [] then Returned(0, Some(ParseSyntax))
    else
      var neg := Negative(s);
      var un := ParseUint(Body(s), bitSize);
      if un.err == Some(ParseSyntax) then Returned(0, Some(ParseSyntax))
      else
        var cutoff := Modulus(bitSize) / 2;
        if !neg && un.value >= cutoff then Returned(cutoff - 1, Some(ParseRange))
        else if neg && un.value > cutoff then Returned(-cutoff, Some(ParseRange))
        else Returned(if neg then -un.value else un.value, None)
  }

  // ---------------------------------------------------------------------
  // The specification

  /** The signed type of a width: the range ParseInt checks against. */
  function Signed(bitSize: Width): IntType {
    IntType(bitSize, true)
  }

  /** An optionally signed base-10 integer literal. */
  predicate WellFormed(s: string) {
    Body(s) != [] && AllDigits(Body(s))
  }

  /** The integer a well-formed text denotes. */
  function TextValue(s: string): int
    requires WellFormed(s)
  {
    if Negative(s) then -(DecimalValue(Body(s)) as int) else DecimalValue(Body(s))
  }

  /** Malformed text whose leading digits already exceed the largest
      unsigned value of the width: ParseUint reports those as out of range. */
  predicate RunOverflows(s: string, bitSize: Width) {
    DecimalValue(DigitRun(Body(s))) > Modulus(bitSize) - 1
  }

  /** What ParseInt returns, stated without its loop: well-formed text in
      the signed range of `bitSize` gives its value; well-formed text out of
      that range gives a range error and the bound on its side; malformed
      text gives a syntax error and 0, unless its leading digits overflow. */
  function ParseIntSpec(s: string, bitSize: Width): Returned {
    var t := Signed(bitSize);
    if WellFormed(s) then
      var v := TextValue(s);
      if v > MaxValue(t) then Returned(MaxValue(t), Some(ParseRange))
      else if v < MinValue(t) then Returned(MinValue(t), Some(ParseRange))
      else Returned(v, None)
    else if RunOverflows(s, bitSize) then
      Returned(if Negative(s) then MinValue(t) else MaxValue(t), Some(ParseRange))
    else Returned(0, Some(ParseSyntax))
  }

  // ---------------------------------------------------------------------
  // Proofs

  /** Appending a digit multiplies the accumulated value by ten. */
  lemma {:induction false} AccumulateSnoc(n: nat, s: string, c: char)
    requires AllDigits(s) && IsDigit(c)
    ensures AllDigits(s + [c])
    ensures Accumulate(n, s + [c]) == Accumulate(n, s) * 10 + DigitValue(c)
    decreases |s|
  {
    if s != [] {
      assert (s + [c])[1..] == s[1..] + [c];
      AccumulateSnoc(n * 10 + DigitValue(s[0]), s[1..], c);
    }
  }

  /** Reading digits left to right from 0 gives their positional value. */
  lemma {:induction false} AccumulateIsDecimalValue(s: string)
    requires AllDigits(s)
    ensures Accumulate(0, s) == DecimalValue(s)
  {
    if s != [] {
      var init := s[..|s| - 1];
      AccumulateIsDecimalValue(init);
      AccumulateSnoc(0, init, s[|s| - 1]);
      assert init + [s[|s| - 1]] == s;
    }
  }

  /** The digit loop stops with a range error as soon as the accumulated
      value of the leading digits exceeds `maxVal`; otherwise it stops with
      a syntax error at the first non-digit, or succeeds at the end. */
  lemma {:induction false} ScanDigitsMeetsSpec(s: string, n: nat, maxVal: nat)
    requires n <= maxVal <= MaxUint64
    ensures ScanDigits(s, n, maxVal) ==
      if Accumulate(n, DigitRun(s)) > maxVal then Returned(maxVal, Some(ParseRange))
      else if DigitRun(s) == s then Returned(Accumulate(n, s), None)
      else Returned(0, Some(ParseSyntax))
    decreases |s|
  {
    if s != [] && IsDigit(s[0]) {
      var run := DigitRun(s);
      assert run[1..] == DigitRun(s[1..]);
      var n1 := n * 10 + DigitValue(s[0]);
      if n < Cutoff10 && n1 <= maxVal {
        ScanDigitsMeetsSpec(s[1..], n1, maxVal);
        assert Accumulate(n, run) == Accumulate(n1, DigitRun(s[1..]));
        if DigitRun(s[1..]) == s[1..] {
          assert run == s;
        } else {
          assert run != s;
        }
      }
    }
  }

  /** The digit loop can be stopped after any prefix and resumed on the
      rest from the value accumulated so far. */
  lemma {:induction false} ScanDigitsResumes(a: string, b: string, n: nat, maxVal: nat)
    requires maxVal <= MaxUint64
    ensures ScanDigits(a + b, n, maxVal) ==
      var r := ScanDigits(a, n, maxVal);
      if r.err == None && r.value >= 0 then ScanDigits(b, r.value, maxVal) else r
    decreases |a|
  {
    if a != [] {
      assert (a + b)[0] == a[0];
      assert (a + b)[1..] == a[1..] + b;
      if IsDigit(a[0]) && n < Cutoff10 && n * 10 + DigitValue(a[0]) <= maxVal {
        ScanDigitsResumes(a[1..], b, n * 10 + DigitValue(a[0]), maxVal);
      }
    } else {
      assert a + b == b;
    }
  }

  /** ParseUint: the leading digits decide a range error; otherwise the text
      must be all digits, and then its value is returned. */
  lemma ParseUintMeetsSpec(s: string, bitSize: Width)
    ensures ParseUint(s, bitSize) ==
      if s == [] then Returned(0, Some(ParseSyntax))
      else if DecimalValue(DigitRun(s)) > Modulus(bitSize) - 1
      then Returned(Modulus(bitSize) - 1, Some(ParseRange))
      else if AllDigits(s) then Returned(DecimalValue(s), None)
      else Returned(0, Some(ParseSyntax))
  {
    if s != [] {
      ScanDigitsMeetsSpec(s, 0, Modulus(bitSize) - 1);
      AccumulateIsDecimalValue(DigitRun(s));
      if AllDigits(s) {
        assert DigitRun(s) == s;
      }
    }
  }

  /** ParseInt meets its specification on every input. */
  lemma ParseIntMeetsSpec(s: string, bitSize: Width)
    ensures ParseInt(s, bitSize) == ParseIntSpec(s, bitSize)
  {
    ParseUintMeetsSpec(Body(s), bitSize);
    if WellFormed(s) {
      assert DigitRun(Body(s)) == Body(s);
    }
  }

  /** ParseInt accepts exactly the well-formed texts whose value lies in the
      signed range of `bitSize`, and returns that value. */
  lemma ParseIntAccepts(s: string, bitSize: Width)
    ensures ParseInt(s, bitSize).err == None
            <==> WellFormed(s) && InRange(Signed(bitSize), TextValue(s))
    ensures ParseInt(s, bitSize).err == None ==> ParseInt(s, bitSize).value == TextValue(s)
  {
    ParseIntMeetsSpec(s, bitSize);
  }

  /** The plain decimal rendering of a natural number, without leading zeros. */
  function FormatNat(n: nat): (s: string)
    ensures s != [] && AllDigits(s) && DecimalValue(s) == n
    ensures s[0] != '0' || n == 0
  {
    var last := ['0' + ((n % 10) as char)];
    if n < 10 then last
    else
      var init := FormatNat(n / 10);
      assert (init + last)[..|init + last| - 1] == init;
      init + last
  }

  /** The plain decimal rendering of an integer: `-` before negatives. */
  function Format(v: int): (s: string)
    ensures WellFormed(s) && TextValue(s) == v
  {
    if v < 0 then "-" + FormatNat(-v) else FormatNat(v)
  }

  /** Parsing the rendering of any value of the signed width gives it back. */
  lemma FormatThenParse(v: int, bitSize: Width)
    requires InRange(Signed(bitSize), v)
    ensures ParseInt(Format(v), bitSize) == Returned(v, None)
  {
    ParseIntAccepts(Format(v), bitSize);
  }
}
