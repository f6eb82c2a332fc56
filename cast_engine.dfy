/** The checked conversion `CastInt[From, To]` of int.go: a raw Go
    conversion followed by a sign check and a round-trip check. */
module CastEngine {
  import opened IntTypes

  /** The first check: the conversion kept the sign of the input. */
  predicate SignKept(value: int, converted: int) {
    (value >= 0) == (converted >= 0)
  }

  /** The second check: converting back to the source type gives the input. */
  predicate RoundTrips(from: IntType, value: int, converted: int) {
    Wrap(from, converted) == value
  }

  /** `CastInt[From, To](value)`, with `from` and `to` the descriptors of
      `From` and `To`. A failure returns the zero value and `OutOfRange`,
      never the truncated value. */
  function CastInt(from: IntType, to: IntType, value: int): (r: Returned)
    requires InRange(from, value)
    ensures r.err == None || r == Returned(0, Some(OutOfRange))
    ensures r.err == None ==> InRange(to, r.value) && Wrap(from, r.value) == value
  {
    var converted := Wrap(to, value);
    if !SignKept(value, converted) then
      Returned(0, Some(OutOfRange))
    else if !RoundTrips(from, value, converted) then
      Returned(0, Some(OutOfRange))
    else
      Returned(converted, None)
  }

  /** The two checks together pass exactly for the inputs the target type
      can represent: the cast is exact-or-rejected. */
  lemma ChecksPassIffInRange(from: IntType, to: IntType, value: int)
    requires InRange(from, value)
    ensures SignKept(value, Wrap(to, value)) && RoundTrips(from, value, Wrap(to, value))
            <==> InRange(to, value)
  {
    var c := Wrap(to, value);
    if InRange(to, value) {
      WrapOfInRange(to, value);
      WrapOfInRange(from, value);
    } else if InRange(from, c) {
      // c is a value of `to`, so it differs from `value`, and converting it
      // back to `from` leaves it unchanged: the round trip fails. A value of
      // `to` outside `from` has the wrong sign or lies beyond `from`'s
      // maximum, which no rejected input of `from` can reach.
      WrapOfInRange(from, c);
    }
  }

  /** The headline property: the cast succeeds exactly when the input is
      representable in the target type, and then returns the same value. */
  lemma CastIntExact(from: IntType, to: IntType, value: int)
    requires InRange(from, value)
    ensures CastInt(from, to, value).err == None <==> InRange(to, value)
    ensures InRange(to, value) ==> CastInt(from, to, value) == Returned(value, None)
  {
    ChecksPassIffInRange(from, to, value);
    if InRange(to, value) {
      WrapOfInRange(to, value);
    }
  }

  /** A successful cast, cast back, succeeds and gives the original input. */
  lemma CastRoundTrip(from: IntType, to: IntType, value: int)
    requires InRange(from, value)
    requires CastInt(from, to, value).err == None
    ensures CastInt(to, from, CastInt(from, to, value).value) == Returned(value, None)
  {
    CastIntExact(from, to, value);
    CastIntExact(to, from, value);
  }

  /** A negative input never converts to an unsigned type. */
  lemma NegativeToUnsignedFails(from: IntType, to: IntType, value: int)
    requires InRange(from, value) && value < 0 && !to.signed
    ensures CastInt(from, to, value) == Returned(0, Some(OutOfRange))
  {
    CastIntExact(from, to, value);
  }

  /** An input above the target's maximum, or below its minimum, is rejected. */
  lemma MagnitudeRejected(from: IntType, to: IntType, value: int)
    requires InRange(from, value) && (value > MaxValue(to) || value < MinValue(to))
    ensures CastInt(from, to, value) == Returned(0, Some(OutOfRange))
  {
    CastIntExact(from, to, value);
  }

  /** Casting a type to itself always succeeds with the input. */
  lemma IdentityCast(t: IntType, value: int)
    requires InRange(t, value)
    ensures CastInt(t, t, value) == Returned(value, None)
  {
    CastIntExact(t, t, value);
  }

  /** Widening: the target is at least as wide and of the same signedness,
      or strictly wider and signed while the source is unsigned. */
  predicate Widens(from: IntType, to: IntType) {
    (from.signed == to.signed && Bits(from.width) <= Bits(to.width))
    || (!from.signed && to.signed && Bits(from.width) < Bits(to.width))
  }

  /** Every widening cast succeeds and keeps the value. */
  lemma WideningSucceeds(from: IntType, to: IntType, value: int)
    requires InRange(from, value) && Widens(from, to)
    ensures CastInt(from, to, value) == Returned(value, None)
  {
    assert InRange(to, value) by {
      match from.width
      case W8 =>
      case W16 =>
      case W32 =>
      case W64 =>
    }
    CastIntExact(from, to, value);
  }

  /** The round-trip check is needed: `int` 300 converts to `int8` 44, which
      keeps the sign, and only converting back exposes the lost bits; the
      same for `uint16` 256, which converts to `int8` 0. */
  lemma RoundTripCheckNeeded()
    ensures Wrap(KindType(Int8), 300) == 44 && SignKept(300, 44)
    ensures !RoundTrips(KindType(Int), 300, 44)
    ensures Wrap(KindType(Int8), 256) == 0 && SignKept(256, 0)
    ensures !RoundTrips(KindType(Uint16), 256, 0)
    ensures CastInt(KindType(Int), KindType(Int8), 300).err == Some(OutOfRange)
    ensures CastInt(KindType(Uint16), KindType(Int8), 256).err == Some(OutOfRange)
  {
    WrapUnique(KindType(Int8), 300, 44);
    WrapUnique(KindType(Int8), 256, 0);
  }

  /** The sign check is needed: `uint8` 255 converts to `int8` -1, and -1
      converts back to `uint8` 255, so the round trip alone would accept it;
      the same for the largest `uint64` and `int64`. */
  lemma SignCheckNeeded()
    ensures Wrap(KindType(Int8), 255) == -1 && RoundTrips(KindType(Uint8), 255, -1)
    ensures !SignKept(255, -1)
    ensures Wrap(KindType(Int64), MaxUint64) == -1
    ensures RoundTrips(KindType(Uint64), MaxUint64, -1)
    ensures CastInt(KindType(Uint8), KindType(Int8), 255).err == Some(OutOfRange)
    ensures CastInt(KindType(Uint64), KindType(Int64), MaxUint64).err == Some(OutOfRange)
  {
    WrapUnique(KindType(Int8), 255, -1);
    WrapUnique(KindType(Uint8), -1, 255);
    WrapUnique(KindType(Int64), MaxUint64, -1);
    WrapUnique(KindType(Uint64), -1, MaxUint64);
  }

  /** The first part of the package's table of casts: widening casts, and
      narrowing casts that succeed or fail by the value. */
  lemma CastTableCases()
    ensures CastInt(KindType(Int), KindType(Uint), 42) == Returned(42, None)
    ensures CastInt(KindType(Uint), KindType(Int), 42) == Returned(42, None)
    ensures CastInt(KindType(Int8), KindType(Int16), 127) == Returned(127, None)
    ensures CastInt(KindType(Uint16), KindType(Uint32), 0xFFFF) == Returned(0xFFFF, None)
    ensures CastInt(KindType(Int32), KindType(Int64), 0x7FFF_FFFF) == Returned(0x7FFF_FFFF, None)
    ensures CastInt(KindType(Uint64), KindType(Uint), MaxUint64) == Returned(MaxUint64, None)
    ensures CastInt(KindType(Uint), KindType(Int8), 300) == Returned(0, Some(OutOfRange))
    ensures CastInt(KindType(Int8), KindType(Uint16), 127) == Returned(127, None)
    ensures CastInt(KindType(Uint16), KindType(Int8), 127) == Returned(127, None)
    ensures CastInt(KindType(Int8), KindType(Uint16), -128) == Returned(0, Some(OutOfRange))
  {
    CastIntExact(KindType(Int), KindType(Uint), 42);
    CastIntExact(KindType(Uint), KindType(Int), 42);
    CastIntExact(KindType(Int8), KindType(Int16), 127);
    CastIntExact(KindType(Uint16), KindType(Uint32), 0xFFFF);
    CastIntExact(KindType(Int32), KindType(Int64), 0x7FFF_FFFF);
    CastIntExact(KindType(Uint64), KindType(Uint), MaxUint64);
    CastIntExact(KindType(Uint), KindType(Int8), 300);
    CastIntExact(KindType(Int8), KindType(Uint16), 127);
    CastIntExact(KindType(Uint16), KindType(Int8), 127);
    CastIntExact(KindType(Int8), KindType(Uint16), -128);
  }

  /** The boundary cases of the package's table of casts: the extremes of
      each signed type cast to the unsigned type of its width and back, and
      the first value past a target's range. */
  lemma CastBoundaries()
    ensures CastInt(KindType(Int8), KindType(Uint8), 127) == Returned(127, None)
    ensures CastInt(KindType(Int8), KindType(Uint8), -128) == Returned(0, Some(OutOfRange))
    ensures CastInt(KindType(Int16), KindType(Uint16), 0x7FFF) == Returned(0x7FFF, None)
    ensures CastInt(KindType(Int16), KindType(Uint16), -0x8000) == Returned(0, Some(OutOfRange))
    ensures CastInt(KindType(Uint16), KindType(Int16), 0xFFFF) == Returned(0, Some(OutOfRange))
    ensures CastInt(KindType(Int32), KindType(Uint32), 0x7FFF_FFFF) == Returned(0x7FFF_FFFF, None)
    ensures CastInt(KindType(Int32), KindType(Uint32), -0x8000_0000) == Returned(0, Some(OutOfRange))
    ensures CastInt(KindType(Uint32), KindType(Int32), 0xFFFF_FFFF) == Returned(0, Some(OutOfRange))
    ensures CastInt(KindType(Int64), KindType(Uint64), 0x7FFF_FFFF_FFFF_FFFF) == Returned(0x7FFF_FFFF_FFFF_FFFF, None)
    ensures CastInt(KindType(Int64), KindType(Uint64), -0x8000_0000_0000_0000) == Returned(0, Some(OutOfRange))
    ensures CastInt(KindType(Int), KindType(Uint8), 0xFF) == Returned(0xFF, None)
    ensures CastInt(KindType(Int), KindType(Uint8), 0x100) == Returned(0, Some(OutOfRange))
    ensures CastInt(KindType(Int), KindType(Int8), -128) == Returned(-128, None)
    ensures CastInt(KindType(Int), KindType(Int8), -129) == Returned(0, Some(OutOfRange))
    ensures CastInt(KindType(Uint), KindType(Int), 0x7FFF_FFFF) == Returned(0x7FFF_FFFF, None)
    ensures CastInt(KindType(Int64), KindType(Uint32), 0xFFFF_FFFF) == Returned(0xFFFF_FFFF, None)
    ensures CastInt(KindType(Int64), KindType(Uint32), 0x1_0000_0000) == Returned(0, Some(OutOfRange))
  {
    CastIntExact(KindType(Int8), KindType(Uint8), 127);
    CastIntExact(KindType(Int8), KindType(Uint8), -128);
    CastIntExact(KindType(Int16), KindType(Uint16), 0x7FFF);
    CastIntExact(KindType(Int16), KindType(Uint16), -0x8000);
    CastIntExact(KindType(Uint16), KindType(Int16), 0xFFFF);
    CastIntExact(KindType(Int32), KindType(Uint32), 0x7FFF_FFFF);
    CastIntExact(KindType(Int32), KindType(Uint32), -0x8000_0000);
    CastIntExact(KindType(Uint32), KindType(Int32), 0xFFFF_FFFF);
    CastIntExact(KindType(Int64), KindType(Uint64), 0x7FFF_FFFF_FFFF_FFFF);
    CastIntExact(KindType(Int64), KindType(Uint64), -0x8000_0000_0000_0000);
    CastIntExact(KindType(Int), KindType(Uint8), 0xFF);
    CastIntExact(KindType(Int), KindType(Uint8), 0x100);
    CastIntExact(KindType(Int), KindType(Int8), -128);
    CastIntExact(KindType(Int), KindType(Int8), -129);
    CastIntExact(KindType(Uint), KindType(Int), 0x7FFF_FFFF);
    CastIntExact(KindType(Int64), KindType(Uint32), 0xFFFF_FFFF);
    CastIntExact(KindType(Int64), KindType(Uint32), 0x1_0000_0000);
  }
}
