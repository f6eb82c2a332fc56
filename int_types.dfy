/** Go's fixed-width integer types, described by width and signedness, and
    Go's conversion between them ("Conversions between numeric types" in the
    Go Programming Language Specification): sign- or zero-extend, then
    truncate to the target width. Values are mathematical integers that lie
    in their type's range. The native `int` and `uint` are taken as 64 bits. */
module IntTypes {

  datatype Option<+T> = None | Some(value: T)

  /** The error values of the package and of the base-10 delegate parser,
      as tags: the cast's out-of-range error, and strconv's syntax and range
      errors. */
  datatype Error = OutOfRange | ParseSyntax | ParseRange

  /** The pair `(T, error)` a Go function returns; `err == None` is `nil`. */
  datatype Returned = Returned(value: int, err: Option<Error>)

  datatype Width = W8 | W16 | W32 | W64

  /** The descriptor of an integer type: its width and signedness. */
  datatype IntType = IntType(width: Width, signed: bool)

  /** The predeclared integer types listed in the `Integer` constraint. */
  datatype Kind = Int | Uint | Int8 | Uint8 | Int16 | Uint16 | Int32 | Uint32 | Int64 | Uint64

  /** A type argument: a predeclared type, or a type declared as
      `type X k` (admitted by the `~k` terms of the constraints). */
  datatype GoType = Predeclared(kind: Kind) | Defined(underlying: Kind)

  function Bits(w: Width): nat {
    match w
    case W8 => 8
    case W16 => 16
    case W32 => 32
    case W64 => 64
  }

  /** 2 to the power of the width. */
  function Modulus(w: Width): (m: nat)
    ensures m >= 0x100 && m % 2 == 0
  {
    match w
    case W8 => 0x100
    case W16 => 0x1_0000
    case W32 => 0x1_0000_0000
    case W64 => 0x1_0000_0000_0000_0000
  }

  /** The largest `uint64`, `math.MaxUint64`. */
  const MaxUint64: nat := 0xFFFF_FFFF_FFFF_FFFF

  /** The representation of a predeclared type: `int` and `uint` are 64 bits
      wide, and the `u` prefix marks the unsigned types. */
  function KindType(k: Kind): (r: IntType)
    ensures r.width == W64 <==> k in {Int, Uint, Int64, Uint64}
    ensures r.width == W8 <==> k in {Int8, Uint8}
    ensures r.width == W16 <==> k in {Int16, Uint16}
    ensures r.signed <==> k in {Int, Int8, Int16, Int32, Int64}
  {
    match k
    case Int => IntType(W64, true)
    case Uint => IntType(W64, false)
    case Int8 => IntType(W8, true)
    case Uint8 => IntType(W8, false)
    case Int16 => IntType(W16, true)
    case Uint16 => IntType(W16, false)
    case Int32 => IntType(W32, true)
    case Uint32 => IntType(W32, false)
    case Int64 => IntType(W64, true)
    case Uint64 => IntType(W64, false)
  }

  function Underlying(t: GoType): Kind {
    match t
    case Predeclared(k) => k
    case Defined(k) => k
  }

  /** A defined type has the representation of its underlying type. */
  function Descriptor(t: GoType): IntType {
    KindType(Underlying(t))
  }

  function MinValue(t: IntType): int {
    if t.signed then -(Modulus(t.width) / 2) else 0
  }

  function MaxValue(t: IntType): int {
    if t.signed then Modulus(t.width) / 2 - 1 else Modulus(t.width) - 1
  }

  /** The values of type `t`. */
  predicate InRange(t: IntType, v: int) {
    MinValue(t) <= v <= MaxValue(t)
  }

  /** The Go conversion `T(v)` into the type described by `t`: the unique
      value of `t` that agrees with `v` modulo 2^width. */
  function Wrap(t: IntType, v: int): (r: int)
    ensures InRange(t, r)
    ensures (r - v) % Modulus(t.width) == 0
  {
    var m := Modulus(t.width);
    var low := v % m;
    if t.signed && low >= m / 2 then low - m else low
  }

  /** Two values of one type that agree modulo 2^width are equal. */
  lemma SameResidueInRange(t: IntType, a: int, b: int)
    requires InRange(t, a) && InRange(t, b)
    requires (a - b) % Modulus(t.width) == 0
    ensures a == b
  {
    var m: int := Modulus(t.width);
    assert -m < a - b < m;
  }

  /** Converting a value the target type can hold leaves it unchanged. */
  lemma WrapOfInRange(t: IntType, v: int)
    requires InRange(t, v)
    ensures Wrap(t, v) == v
  {
    SameResidueInRange(t, Wrap(t, v), v);
  }

  /** `Wrap` is characterised by its contract: any value of `t` congruent to
      `v` is `Wrap(t, v)`. */
  lemma WrapUnique(t: IntType, v: int, r: int)
    requires InRange(t, r) && (r - v) % Modulus(t.width) == 0
    ensures r == Wrap(t, v)
  {
    var m := Modulus(t.width);
    var w := Wrap(t, v);
    assert (r - w) % m == 0 by {
      assert (r - v) % m == 0 && (w - v) % m == 0;
      assert r - v == m * ((r - v) / m);
      assert w - v == m * ((w - v) / m);
      assert r - w == m * ((r - v) / m - (w - v) / m);
    }
    SameResidueInRange(t, r, w);
  }
}
