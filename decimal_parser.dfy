/** `SafeParse[T]` of string.go: pick a bit size from the type argument,
    call `strconv.ParseInt(value, 10, bitSize)`, and convert its int64
    result to `T`. */
module DecimalParser {
  import opened IntTypes
  import opened Strconv

  /** The `numericType` constraint: `~int | ~int32 | ~int64 | ~uint32 | ~uint64`. */
  predicate IsNumericType(t: GoType) {
    Underlying(t) in {Int, Int32, Int64, Uint32, Uint64}
  }

  /** The type switch on `any(T(0))`. Its cases name predeclared types, and
      a value of a defined type matches none of them, so every defined type
      takes the default branch. */
  function BitSize(t: GoType): (w: Width)
    ensures t.Predeclared? ==> w == Descriptor(t).width
    ensures t.Defined? ==> w == W64
  {
    match t
    case Predeclared(Int8) | Predeclared(Uint8) => W8
    case Predeclared(Int16) | Predeclared(Uint16) => W16
    case Predeclared(Int32) | Predeclared(Uint32) => W32
    case Predeclared(Int64) | Predeclared(Uint64) => W64
    case _ => W64
  }

  /** `SafeParse[T](value)`: on a delegate error, the zero value and that
      error; otherwise the parsed int64 converted to `T`. */
  function SafeParse(t: GoType, value: string): (r: Returned)
    requires IsNumericType(t)
    ensures r.err != None ==> r.value == 0 && r.err == ParseInt(value, BitSize(t)).err
    ensures r.err != Some(OutOfRange)
    ensures r.err == None ==> InRange(Descriptor(t), r.value)
  {
    var parsed := ParseInt(value, BitSize(t));
    if parsed.err != None then Returned(0, parsed.err)
    else Returned(Wrap(Descriptor(t), parsed.value), None)
  }

  /** For the predeclared types the constraint admits, the switch picks the
      type's own width, which is 32 or 64: the 8- and 16-bit cases are never
      taken. */
  lemma NumericBitSizes(t: GoType)
    requires IsNumericType(t)
    ensures BitSize(t) == W32 || BitSize(t) == W64
    ensures t.Predeclared? ==> BitSize(t) == Descriptor(t).width
  {
  }

  /** `SafeParse` with the bit size taken from the type's own width, so that
      a defined type is parsed at the width of its underlying type. */
  function SafeParseByWidth(t: GoType, value: string): (r: Returned)
    requires IsNumericType(t)
    ensures r.err != None ==> r.value == 0 && r.err != Some(OutOfRange)
    ensures r.err == None ==> InRange(Descriptor(t), r.value)
  {
    var parsed := ParseInt(value, Descriptor(t).width);
    if parsed.err != None then Returned(0, parsed.err)
    else Returned(Wrap(Descriptor(t), parsed.value), None)
  }

  /** The two agree on every predeclared type. */
  lemma SafeParseIsByWidthOnPredeclared(t: GoType, value: string)
    requires IsNumericType(t) && t.Predeclared?
    ensures SafeParse(t, value) == SafeParseByWidth(t, value)
  {
    NumericBitSizes(t);
  }

  /** Parsing at the type's width accepts exactly the well-formed texts
      whose value lies in the signed range of that width (also for the
      unsigned types) and returns that value converted to the type. */
  lemma SafeParseByWidthExact(t: GoType, value: string)
    requires IsNumericType(t)
    ensures SafeParseByWidth(t, value).err == None
            <==> WellFormed(value) && InRange(Signed(Descriptor(t).width), TextValue(value))
    ensures SafeParseByWidth(t, value).err == None
            ==> SafeParseByWidth(t, value).value == Wrap(Descriptor(t), TextValue(value))
  {
    ParseIntAccepts(value, Descriptor(t).width);
  }

  /** For every signed target, defined types included, the corrected parser
      accepts exactly the texts whose value the type holds, and returns that
      value: the range error the Findings row expects. */
  lemma SafeParseByWidthSigned(t: GoType, value: string)
    requires IsNumericType(t) && Descriptor(t).signed
    ensures SafeParseByWidth(t, value).err == None
            <==> WellFormed(value) && InRange(Descriptor(t), TextValue(value))
    ensures SafeParseByWidth(t, value).err == None
            ==> SafeParseByWidth(t, value).value == TextValue(value)
  {
    SafeParseByWidthExact(t, value);
    if SafeParseByWidth(t, value).err == None {
      WrapOfInRange(Descriptor(t), TextValue(value));
    }
  }

  /** The same for `SafeParse` on the predeclared types. */
  lemma SafeParseExact(t: GoType, value: string)
    requires IsNumericType(t) && t.Predeclared?
    ensures SafeParse(t, value).err == None
            <==> WellFormed(value) && InRange(Signed(Descriptor(t).width), TextValue(value))
    ensures SafeParse(t, value).err == None
            ==> SafeParse(t, value).value == Wrap(Descriptor(t), TextValue(value))
  {
    SafeParseIsByWidthOnPredeclared(t, value);
    SafeParseByWidthExact(t, value);
  }

  /** For a signed target, `SafeParse` accepts exactly the texts whose value
      the type holds, and returns that value. */
  lemma SafeParseSigned(t: GoType, value: string)
    requires IsNumericType(t) && t.Predeclared? && Descriptor(t).signed
    ensures SafeParse(t, value).err == None
            <==> WellFormed(value) && InRange(Descriptor(t), TextValue(value))
    ensures SafeParse(t, value).err == None ==> SafeParse(t, value).value == TextValue(value)
  {
    SafeParseExact(t, value);
    if SafeParse(t, value).err == None {
      WrapOfInRange(Descriptor(t), TextValue(value));
    }
  }

  /** Text that is not an optionally signed run of digits is always
      rejected, with the zero value. */
  lemma SafeParseRejectsMalformed(t: GoType, value: string)
    requires IsNumericType(t) && !WellFormed(value)
    ensures SafeParse(t, value).err != None && SafeParse(t, value).value == 0
  {
    ParseIntAccepts(value, BitSize(t));
  }

  /** Rendering any value of a signed target and parsing it back gives the
      value. A defined type is parsed at 64 bits, which also holds the value. */
  lemma SafeParseRoundTrip(t: GoType, v: int)
    requires IsNumericType(t) && Descriptor(t).signed
    requires InRange(Descriptor(t), v)
    ensures SafeParse(t, Format(v)) == Returned(v, None)
  {
    if t.Defined? {
      DefinedTypesParseAt64(t, Format(v));
      WrapOfInRange(Descriptor(t), v);
    } else {
      SafeParseSigned(t, Format(v));
    }
  }

  // ---------------------------------------------------------------------
  // A defined type misses every case of the type switch.

  /** As written: a defined type is parsed at 64 bits whatever its width, and
      the final conversion then wraps values its own width cannot hold. */
  lemma DefinedTypesParseAt64(t: GoType, value: string)
    requires IsNumericType(t) && t.Defined?
    ensures SafeParse(t, value).err == None
            <==> WellFormed(value) && InRange(Signed(W64), TextValue(value))
    ensures SafeParse(t, value).err == None
            ==> SafeParse(t, value).value == Wrap(Descriptor(t), TextValue(value))
  {
    ParseIntAccepts(value, W64);
  }
}
