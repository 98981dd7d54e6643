/** Values packed into the unused NaN patterns of a 64-bit word. */
module NanBox {

  import opened Options

  type Bits = bv64

  const BASE: Bits := 0xFFF8_0000_0000_0000
  const TAG_MASK: Bits := 0x0007_0000_0000_0000
  const PAYLOAD: Bits := 0x0000_FFFF_FFFF_FFFF
  const LOW32: Bits := 0x0000_0000_FFFF_FFFF

  const TAG_PTR: Bits := 0
  const TAG_I32: Bits := 0x0001_0000_0000_0000
  const TAG_BOOL: Bits := 0x0002_0000_0000_0000
  const TAG_U32: Bits := 0x0003_0000_0000_0000
  const TAG_F32: Bits := 0x0004_0000_0000_0000
  const TAG_I64: Bits := 0x0005_0000_0000_0000
  const TAG_NULL: Bits := 0x0006_0000_0000_0000
  const TAG_U64: Bits := 0x0007_0000_0000_0000

  const NULL_BITS: Bits := BASE | TAG_NULL
  const TRUE_BITS: Bits := BASE | TAG_BOOL | 1
  const FALSE_BITS: Bits := BASE | TAG_BOOL

  // Conversions between widths; signed numbers are in two's complement.

  function Wide(x: bv32): Bits { x as Bits }

  function SignExtend(x: bv32): Bits { ((x as Bits) ^ 0x8000_0000) - 0x8000_0000 }

  function Low(x: Bits): bv32 { (x & LOW32) as bv32 }

  // Constructors.

  function Null(): Bits { NULL_BITS }
  function Bool(b: bool): Bits { if b then TRUE_BITS else FALSE_BITS }
  function I32(i: bv32): Bits { BASE | TAG_I32 | (SignExtend(i) & PAYLOAD) }
  function F64(bits: Bits): Bits { bits }
  function U32(u: bv32): Bits { BASE | TAG_U32 | Wide(u) }
  function F32(bits: bv32): Bits { BASE | TAG_F32 | Wide(bits) }
  function I64(i: Bits): Bits { BASE | TAG_I64 | Wide(Low(i)) }
  function U64(u: Bits): Bits { BASE | TAG_U64 | (u & PAYLOAD) }
  function Ptr(address: Bits): Bits { BASE | TAG_PTR | (address & PAYLOAD) }

  // Type checks.

  predicate IsBoxed(x: Bits) { x & BASE == BASE }

  function Tag(x: Bits): Bits { (x & TAG_MASK) >> 48 }

  predicate IsNull(x: Bits) { x == NULL_BITS }
  predicate IsBool(x: Bits) { IsBoxed(x) && Tag(x) == 2 }
  predicate IsI32(x: Bits) { IsBoxed(x) && Tag(x) == 1 }
  predicate IsF64(x: Bits) { !IsBoxed(x) }
  predicate IsU32(x: Bits) { IsBoxed(x) && Tag(x) == 3 }
  predicate IsF32(x: Bits) { IsBoxed(x) && Tag(x) == 4 }
  predicate IsI64(x: Bits) { IsBoxed(x) && Tag(x) == 5 }
  predicate IsU64(x: Bits) { IsBoxed(x) && Tag(x) == 7 }
  predicate IsPtr(x: Bits) { IsBoxed(x) && Tag(x) == 0 }

  // Extractors.

  function AsBool(x: Bits): Option<bool> { if IsBool(x) then Some(x & PAYLOAD != 0) else None }
  function AsI32(x: Bits): Option<bv32> { if IsI32(x) then Some(Low(x & PAYLOAD)) else None }
  function AsF64(x: Bits): Option<Bits> { if IsF64(x) then Some(x) else None }
  function AsU32(x: Bits): Option<bv32> { if IsU32(x) then Some(Low(x)) else None }
  function AsF32(x: Bits): Option<bv32> { if IsF32(x) then Some(Low(x)) else None }
  function AsI64(x: Bits): Option<Bits> { if IsI64(x) then Some(SignExtend(Low(x))) else None }
  function AsU64(x: Bits): Option<Bits> { if IsU64(x) then Some(x & PAYLOAD) else None }
  function AsPtr(x: Bits): Option<Bits> { if IsPtr(x) then Some(x & PAYLOAD) else None }

  // Every pattern has one class.

  datatype Kind = Double | Pointer | Int | Boolean | Unsigned | Single | Long | Nothing | UnsignedLong

  /** The class of a pattern: a raw double, or what its tag says. */
  predicate HasKind(x: Bits, k: Kind)
  {
    match k
    case Double => IsF64(x)
    case Pointer => IsPtr(x)
    case Int => IsI32(x)
    case Boolean => IsBool(x)
    case Unsigned => IsU32(x)
    case Single => IsF32(x)
    case Long => IsI64(x)
    case Nothing => IsBoxed(x) && Tag(x) == 6
    case UnsignedLong => IsU64(x)
  }

  lemma {:induction false} TagRange(x: Bits)
    ensures Tag(x) == 0 || Tag(x) == 1 || Tag(x) == 2 || Tag(x) == 3 || Tag(x) == 4 || Tag(x) == 5 || Tag(x) == 6 || Tag(x) == 7
  {
  }

  /** Every 64-bit pattern has a class, and only one. */
  lemma {:induction false} OneKind(x: Bits) returns (k: Kind)
    ensures HasKind(x, k) && forall l :: HasKind(x, l) ==> l == k
  {
    TagRange(x);
    k := if IsF64(x) then Double
         else if Tag(x) == 0 then Pointer else if Tag(x) == 1 then Int else if Tag(x) == 2 then Boolean
         else if Tag(x) == 3 then Unsigned else if Tag(x) == 4 then Single else if Tag(x) == 5 then Long
         else if Tag(x) == 6 then Nothing else UnsignedLong;
  }

  lemma {:induction false} NotTwo(x: Bits, k: Kind, l: Kind)
    requires HasKind(x, k) && k != l
    ensures !HasKind(x, l)
  {
    var one := OneKind(x);
    assert one == k;
  }

  /** Some type check accepts the pattern. */
  predicate Checked(x: Bits)
  {
    IsNull(x) || IsF64(x) || (IsBoxed(x) && Tag(x) != 6)
  }

  lemma {:induction false} CheckedMeans(x: Bits)
    ensures Checked(x) <==>
      IsNull(x) || IsBool(x) || IsI32(x) || IsF64(x) || IsU32(x) || IsF32(x) || IsI64(x) || IsU64(x) || IsPtr(x)
  {
    TagRange(x);
  }

  /** The check for null asks for one pattern. */
  lemma {:induction false} NullExact(x: Bits)
    ensures IsNull(x) <==> IsBoxed(x) && Tag(x) == 6 && x & PAYLOAD == 0
  {
    NullBits(x);
  }

  /** The other patterns with its tag, and only those, pass no check at all. */
  lemma {:induction false} UncheckedExact(x: Bits, payload: Bits)
    requires payload == x & PAYLOAD
    ensures !Checked(x) <==> HasKind(x, Nothing) && payload != 0
  {
    NullExact(x);
  }

  lemma {:induction false} NullBits(x: Bits)
    ensures x == 0xFFFE_0000_0000_0000 <==>
            x & 0xFFF8_0000_0000_0000 == 0xFFF8_0000_0000_0000
            && (x & 0x0007_0000_0000_0000) >> 48 == 6 && x & 0x0000_FFFF_FFFF_FFFF == 0
  {
  }

  // Constructors and extractors.

  /** All extractors but the one for this class refuse a value of it. */
  lemma {:induction false} OthersRefuse(x: Bits, k: Kind)
    requires HasKind(x, k)
    ensures k != Boolean ==> AsBool(x) == None
    ensures k != Int ==> AsI32(x) == None
    ensures k != Double ==> AsF64(x) == None
    ensures k != Unsigned ==> AsU32(x) == None
    ensures k != Single ==> AsF32(x) == None
    ensures k != Long ==> AsI64(x) == None
    ensures k != UnsignedLong ==> AsU64(x) == None
    ensures k != Pointer ==> AsPtr(x) == None
  {
    if k != Boolean { NotTwo(x, k, Boolean); }
    if k != Int { NotTwo(x, k, Int); }
    if k != Double { NotTwo(x, k, Double); }
    if k != Unsigned { NotTwo(x, k, Unsigned); }
    if k != Single { NotTwo(x, k, Single); }
    if k != Long { NotTwo(x, k, Long); }
    if k != UnsignedLong { NotTwo(x, k, UnsignedLong); }
    if k != Pointer { NotTwo(x, k, Pointer); }
  }

  lemma {:induction false} BoolRoundTrip(b: bool)
    ensures HasKind(Bool(b), Boolean) && AsBool(Bool(b)) == Some(b)
  {
  }

  lemma {:induction false} I32RoundTrip(i: bv32)
    ensures HasKind(I32(i), Int) && AsI32(I32(i)) == Some(i)
  {
  }

  lemma {:induction false} U32RoundTrip(u: bv32)
    ensures HasKind(U32(u), Unsigned) && AsU32(U32(u)) == Some(u)
  {
  }

  lemma {:induction false} F32RoundTrip(bits: bv32)
    ensures HasKind(F32(bits), Single) && AsF32(F32(bits)) == Some(bits)
  {
  }

  lemma {:induction false} LowBits(i: Bits)
    ensures ((i & 0xFFFF_FFFF) as bv32) as Bits == i & 0xFFFF_FFFF
  {
  }

  lemma {:induction false} ExtendFits(i: Bits, low: bv32)
    requires low as Bits == i & 0xFFFF_FFFF
    ensures ((low as Bits) ^ 0x8000_0000) - 0x8000_0000 == i <==> i < 0x8000_0000 || i >= 0xFFFF_FFFF_8000_0000
  {
  }

  lemma {:induction false} LowIs(i: Bits)
    ensures Low(i) as Bits == i & 0xFFFF_FFFF
  {
    assert Low(i) == (i & 0xFFFF_FFFF) as bv32;
    LowBits(i);
  }

  lemma {:induction false} SignFits(i: Bits, low: bv32)
    requires low as Bits == i & 0xFFFF_FFFF
    ensures SignExtend(low) == i <==> i < 0x8000_0000 || i >= 0xFFFF_FFFF_8000_0000
  {
    ExtendFits(i, low);
  }

  lemma {:induction false} LongFits(i: Bits)
    ensures SignExtend(Low(i)) == i <==> i < 0x8000_0000 || i >= 0xFFFF_FFFF_8000_0000
  {
    LowIs(i);
    SignFits(i, Low(i));
  }

  lemma {:induction false} I64Read(i: Bits)
    ensures HasKind(I64(i), Long)
    ensures AsI64(I64(i)) == Some(SignExtend(Low(i)))
  {
  }

  /** A long survives exactly when it fits in 32 bits, as a signed number in two's complement. */
  lemma {:induction false} I64RoundTrip(i: Bits)
    ensures HasKind(I64(i), Long)
    ensures AsI64(I64(i)) == Some(i) <==> i < 0x8000_0000 || i >= 0xFFFF_FFFF_8000_0000
  {
    I64Read(i);
    LongFits(i);
  }

  /** An unsigned long and a pointer survive exactly when they fit in 48 bits. */
  lemma {:induction false} U64RoundTrip(u: Bits)
    ensures HasKind(U64(u), UnsignedLong)
    ensures AsU64(U64(u)) == Some(u) <==> u < 0x1_0000_0000_0000
  {
  }

  lemma {:induction false} PtrRoundTrip(address: Bits)
    ensures HasKind(Ptr(address), Pointer)
    ensures AsPtr(Ptr(address)) == Some(address) <==> address < 0x1_0000_0000_0000
  {
  }

  /** The exponent is all ones and the fraction is not zero. */
  predicate IsNan(bits: Bits)
  {
    bits & 0x7FF0_0000_0000_0000 == 0x7FF0_0000_0000_0000 && bits & 0x000F_FFFF_FFFF_FFFF != 0
  }

  /** A double survives exactly when it is no quiet NaN with its sign set. */
  lemma {:induction false} F64RoundTrip(bits: Bits)
    ensures AsF64(F64(bits)) == Some(bits) <==> HasKind(F64(bits), Double)
    ensures HasKind(F64(bits), Double) <==> !(IsNan(bits) && bits & 0x8008_0000_0000_0000 == 0x8008_0000_0000_0000)
  {
    QuietNan(bits);
  }

  lemma {:induction false} QuietNan(x: Bits)
    ensures x & 0xFFF8_0000_0000_0000 == 0xFFF8_0000_0000_0000 <==>
            x & 0x7FF0_0000_0000_0000 == 0x7FF0_0000_0000_0000 && x & 0x000F_FFFF_FFFF_FFFF != 0
            && x & 0x8008_0000_0000_0000 == 0x8008_0000_0000_0000
  {
  }
}
