/** The concrete cases of the package's tests, and a few more at the edges
    of the delegate parser, derived from the model. Long texts are parameters
    pinned by a requires clause, so that the verifier reads them through the
    small lemmas about pieces of digits below instead of unfolding the digit
    loop on a whole literal. */
module PackageCases {
  import opened IntTypes
  import opened Strconv
  import opened DecimalParser

  const MaxUint32: nat := 0xFFFF_FFFF

  lemma Digits92233()
    ensures ScanDigits("92233", 0, MaxUint64) == Returned(92233, None)
  {
  }

  lemma Digits72036()
    ensures ScanDigits("72036", 92233, MaxUint64) == Returned(9223372036, None)
  {
  }

  lemma Digits85477()
    ensures ScanDigits("85477", 9223372036, MaxUint64) == Returned(922337203685477, None)
  {
  }

  /** The first 15 digits of 2^63. */
  lemma Leading15Digits()
    ensures ScanDigits("922337203685477", 0, MaxUint64) == Returned(922337203685477, None)
  {
    Digits92233();
    Digits72036();
    Digits85477();
    ScanDigitsResumes("92233", "72036", 0, MaxUint64);
    ScanDigitsResumes("92233" + "72036", "85477", 0, MaxUint64);
    assert "92233" + "72036" + "85477" == "922337203685477";
  }

  lemma Digits5807()
    ensures ScanDigits("5807", 922337203685477, MaxUint64) == Returned(0x7FFF_FFFF_FFFF_FFFF, None)
  {
  }

  lemma Digits5808()
    ensures ScanDigits("5808", 922337203685477, MaxUint64) == Returned(0x8000_0000_0000_0000, None)
  {
  }

  lemma Digits5809()
    ensures ScanDigits("5809", 922337203685477, MaxUint64) == Returned(0x8000_0000_0000_0001, None)
  {
  }

  /** The digits of 2^63 - 1, 2^63 and 2^63 + 1 at 64 bits. */
  lemma Digits63(s: string, last: string, v: nat)
    requires s == "922337203685477" + last
    requires (last == "5807" && v == 0x7FFF_FFFF_FFFF_FFFF)
          || (last == "5808" && v == 0x8000_0000_0000_0000)
          || (last == "5809" && v == 0x8000_0000_0000_0001)
    ensures ParseUint(s, W64) == Returned(v, None)
  {
    Leading15Digits();
    Digits5807();
    Digits5808();
    Digits5809();
    ScanDigitsResumes("922337203685477", last, 0, MaxUint64);
  }

  /** `int64`: both extremes parse, one past either extreme is a range error;
      `uint64` is held to the same signed bound. */
  lemma Int64Cases(max: string, min: string, over: string, under: string)
    requires max == "9223372036854775807" && min == "-9223372036854775808"
    requires over == "9223372036854775808" && under == "-9223372036854775809"
    ensures SafeParse(Predeclared(Int64), max) == Returned(0x7FFF_FFFF_FFFF_FFFF, None)
    ensures SafeParse(Predeclared(Int64), min) == Returned(-0x8000_0000_0000_0000, None)
    ensures SafeParse(Predeclared(Int64), over) == Returned(0, Some(ParseRange))
    ensures SafeParse(Predeclared(Int64), under) == Returned(0, Some(ParseRange))
    ensures SafeParse(Predeclared(Uint64), over) == Returned(0, Some(ParseRange))
  {
    Digits63(max, "5807", 0x7FFF_FFFF_FFFF_FFFF);
    assert Body(min) == "922337203685477" + "5808";
    Digits63(Body(min), "5808", 0x8000_0000_0000_0000);
    Digits63(over, "5808", 0x8000_0000_0000_0000);
    assert Body(under) == "922337203685477" + "5809";
    Digits63(Body(under), "5809", 0x8000_0000_0000_0001);
  }

  lemma Digits21474(maxVal: nat)
    requires maxVal == MaxUint32 || maxVal == MaxUint64
    ensures ScanDigits("21474", 0, maxVal) == Returned(21474, None)
  {
    if maxVal == MaxUint32 {
      assert ScanDigits("21474", 0, MaxUint32) == Returned(21474, None);
    } else {
      assert ScanDigits("21474", 0, MaxUint64) == Returned(21474, None);
    }
  }

  lemma Digits8364x(maxVal: nat)
    requires maxVal == MaxUint32 || maxVal == MaxUint64
    ensures ScanDigits("83647", 21474, maxVal) == Returned(0x7FFF_FFFF, None)
    ensures ScanDigits("83648", 21474, maxVal) == Returned(0x8000_0000, None)
    ensures ScanDigits("83649", 21474, maxVal) == Returned(0x8000_0001, None)
  {
    if maxVal == MaxUint32 {
      assert ScanDigits("83647", 21474, MaxUint32) == Returned(0x7FFF_FFFF, None);
      assert ScanDigits("83648", 21474, MaxUint32) == Returned(0x8000_0000, None);
      assert ScanDigits("83649", 21474, MaxUint32) == Returned(0x8000_0001, None);
    } else {
      assert ScanDigits("83647", 21474, MaxUint64) == Returned(0x7FFF_FFFF, None);
      assert ScanDigits("83648", 21474, MaxUint64) == Returned(0x8000_0000, None);
      assert ScanDigits("83649", 21474, MaxUint64) == Returned(0x8000_0001, None);
    }
  }

  /** The digits of 2^31 - 1, 2^31 and 2^31 + 1 at 32 or 64 bits. */
  lemma Digits31(s: string, last: string, v: nat, bitSize: Width)
    requires s == "21474" + last && (bitSize == W32 || bitSize == W64)
    requires (last == "83647" && v == 0x7FFF_FFFF)
          || (last == "83648" && v == 0x8000_0000)
          || (last == "83649" && v == 0x8000_0001)
    ensures ParseUint(s, bitSize) == Returned(v, None)
  {
    var maxVal := Modulus(bitSize) - 1;
    Digits21474(maxVal);
    Digits8364x(maxVal);
    ScanDigitsResumes("21474", last, 0, maxVal);
  }

  /** `int32`: both extremes parse, one past either extreme is a range error. */
  lemma Int32Cases(max: string, min: string, over: string, under: string)
    requires max == "2147483647" && min == "-2147483648"
    requires over == "2147483648" && under == "-2147483649"
    ensures SafeParse(Predeclared(Int32), max) == Returned(0x7FFF_FFFF, None)
    ensures SafeParse(Predeclared(Int32), min) == Returned(-0x8000_0000, None)
    ensures SafeParse(Predeclared(Int32), over) == Returned(0, Some(ParseRange))
    ensures SafeParse(Predeclared(Int32), under) == Returned(0, Some(ParseRange))
  {
    Digits31(max, "83647", 0x7FFF_FFFF, W32);
    assert Body(min) == "21474" + "83648";
    Digits31(Body(min), "83648", 0x8000_0000, W32);
    Digits31(over, "83648", 0x8000_0000, W32);
    assert Body(under) == "21474" + "83649";
    Digits31(Body(under), "83649", 0x8000_0001, W32);
  }

  /** Short texts. */
  lemma SmallCases()
    ensures SafeParse(Predeclared(Int64), "123") == Returned(123, None)
    ensures SafeParse(Predeclared(Int32), "123") == Returned(123, None)
    ensures SafeParse(Predeclared(Int32), "+7") == Returned(7, None)
  {
    assert ScanDigits("123", 0, MaxUint64) == Returned(123, None);
    assert ScanDigits("123", 0, MaxUint32) == Returned(123, None);
    assert ScanDigits("7", 0, MaxUint32) == Returned(7, None);
  }

  /** An unsigned target takes an in-range negative text and wraps it. */
  lemma NegativeIntoUnsigned()
    ensures SafeParse(Predeclared(Uint32), "-1") == Returned(0xFFFF_FFFF, None)
    ensures SafeParse(Predeclared(Uint64), "-1") == Returned(MaxUint64, None)
  {
    WrapUnique(KindType(Uint32), -1, 0xFFFF_FFFF);
    WrapUnique(KindType(Uint64), -1, MaxUint64);
  }

  /** Malformed texts are syntax errors. */
  lemma MalformedCases()
    ensures SafeParse(Predeclared(Int32), "") == Returned(0, Some(ParseSyntax))
    ensures SafeParse(Predeclared(Int32), "+") == Returned(0, Some(ParseSyntax))
    ensures SafeParse(Predeclared(Int32), "12a") == Returned(0, Some(ParseSyntax))
    ensures SafeParse(Predeclared(Int32), "1-2") == Returned(0, Some(ParseSyntax))
    ensures SafeParse(Predeclared(Int32), "--1") == Returned(0, Some(ParseSyntax))
    ensures SafeParse(Predeclared(Int32), " 1") == Returned(0, Some(ParseSyntax))
  {
  }

  /** Leading digits that fit the unsigned maximum of the bit size, then a
      bad character: a syntax error. Leading digits that do not fit: a range
      error, reported before the bad character is reached. */
  lemma OverflowBeforeBadCharacter(fits: string, big: string)
    requires fits == "2147483648x" && big == "4294967296x"
    ensures SafeParse(Predeclared(Int32), fits) == Returned(0, Some(ParseSyntax))
    ensures SafeParse(Predeclared(Int32), big) == Returned(0, Some(ParseRange))
  {
    Digits21474(MaxUint32);
    Digits8364x(MaxUint32);
    assert ScanDigits("x", 0x8000_0000, MaxUint32) == Returned(0, Some(ParseSyntax));
    assert fits == "21474" + ("83648" + "x");
    ScanDigitsResumes("83648", "x", 21474, MaxUint32);
    ScanDigitsResumes("21474", "83648" + "x", 0, MaxUint32);
    assert ScanDigits("42949", 0, MaxUint32) == Returned(42949, None);
    assert ScanDigits("67296x", 42949, MaxUint32) == Returned(MaxUint32, Some(ParseRange));
    assert big == "42949" + "67296x";
    ScanDigitsResumes("42949", "67296x", 0, MaxUint32);
  }

  /** For `type T int32`, the text "2147483648" is accepted and comes back
      as -2147483648; parsing at the type's width rejects it. */
  lemma DefinedInt32Wraps(s: string)
    requires s == "2147483648"
    ensures SafeParse(Defined(Int32), s) == Returned(-0x8000_0000, None)
    ensures SafeParseByWidth(Defined(Int32), s) == Returned(0, Some(ParseRange))
  {
    Digits31(s, "83648", 0x8000_0000, W64);
    Digits31(s, "83648", 0x8000_0000, W32);
    WrapUnique(KindType(Int32), 0x8000_0000, -0x8000_0000);
  }
}
