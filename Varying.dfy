// A value of one of a few run-time types (bytes, string, bool, 64-bit
// integer, double) with a type tag, type-aware comparisons and checked
// typed reads.
module Varyings {
  import opened Wrappers

  /** The run-time type tags. */
  datatype VaryingDataType = Void | ArbitraryBytes | String | Bool | Integer | Float

  /**
   * The stored value. Integers are stored as 64-bit signed values and floats
   * as doubles (modelled as reals); Void stands for a value of an
   * unsupported type.
   */
  datatype Datum =
    | VoidValue
    | BytesValue(bytes: seq<bv8>)
    | StringValue(str: string)
    | BoolValue(b: bool)
    | IntegerValue(i: int)
    | FloatValue(f: real)
  {
    function Type(): (t: VaryingDataType)
      ensures t == Void <==> VoidValue?
      ensures t == ArbitraryBytes <==> BytesValue?
      ensures t == String <==> StringValue?
      ensures t == Bool <==> BoolValue?
      ensures t == Integer <==> IntegerValue?
      ensures t == Float <==> FloatValue?
    {
      match this
      case VoidValue => Void
      case BytesValue(_) => ArbitraryBytes
      case StringValue(_) => String
      case BoolValue(_) => Bool
      case IntegerValue(_) => Integer
      case FloatValue(_) => Float
    }
  }

  // ---------------------------------------------------------------------------
  // Fixed-width integers
  // ---------------------------------------------------------------------------

  /** A C++ integer type: signedness and width in bits (8, 16, 32 or 64). */
  datatype IntType = IntType(signed: bool, bits: nat)

  predicate IsWidth(bits: nat)
  {
    bits == 8 || bits == 16 || bits == 32 || bits == 64
  }

  /** 2^bits for the supported widths. */
  function Modulus(bits: nat): (m: nat)
    requires IsWidth(bits)
    ensures m >= 256 && m % 2 == 0
  {
    if bits == 8 then 0x100
    else if bits == 16 then 0x1_0000
    else if bits == 32 then 0x1_0000_0000
    else 0x1_0000_0000_0000_0000
  }

  /** `v` is representable in `t`. */
  predicate Fits(v: int, t: IntType)
    requires IsWidth(t.bits)
  {
    if t.signed then -(Modulus(t.bits) / 2) <= v < Modulus(t.bits) / 2
    else 0 <= v < Modulus(t.bits)
  }

  /** A static_cast of `v` to `t`: reduction modulo 2^bits. */
  function Cast(v: int, t: IntType): (r: int)
    requires IsWidth(t.bits)
    ensures Fits(r, t)
    ensures (r - v) % Modulus(t.bits) == 0
  {
    var m := Modulus(t.bits);
    var u := v % m;
    if t.signed && u >= m / 2 then u - m else u
  }

  /** The 64-bit signed storage type. */
  const Int64 := IntType(true, 64)

  /** Casting a representable value leaves it unchanged. */
  lemma CastFits(v: int, t: IntType)
    requires IsWidth(t.bits) && Fits(v, t)
    ensures Cast(v, t) == v
  {
    var m := Modulus(t.bits);
    if v < 0 {
      assert (v + m) % m == v % m;
      assert 0 <= v + m < m;
    }
  }

  // ---------------------------------------------------------------------------
  // Lexicographic order
  // ---------------------------------------------------------------------------

  /** std::lexicographical_compare on codes. */
  function LexLess(s: seq<int>, t: seq<int>): bool
  {
    if |s| == 0 then |t| > 0
    else if |t| == 0 then false
    else if s[0] != t[0] then s[0] < t[0]
    else LexLess(s[1..], t[1..])
  }

  /** Exactly one of s < t, s == t, t < s. */
  lemma {:induction false} LexTrichotomy(s: seq<int>, t: seq<int>)
    ensures LexLess(s, t) || s == t || LexLess(t, s)
    ensures !(LexLess(s, t) && LexLess(t, s))
    ensures !(LexLess(s, t) && s == t)
  {
    if |s| > 0 && |t| > 0 && s[0] == t[0] {
      LexTrichotomy(s[1..], t[1..]);
      if s[1..] == t[1..] {
        assert s == [s[0]] + s[1..] && t == [t[0]] + t[1..];
      }
    }
  }

  /** The lexicographic order is transitive. */
  lemma {:induction false} LexTransitive(s: seq<int>, t: seq<int>, u: seq<int>)
    requires LexLess(s, t) && LexLess(t, u)
    ensures LexLess(s, u)
  {
    if |s| > 0 && |t| > 0 && |u| > 0 && s[0] == t[0] && t[0] == u[0] {
      LexTransitive(s[1..], t[1..], u[1..]);
    }
  }

  /** The codes of a byte sequence. */
  function ByteCodes(b: seq<bv8>): (r: seq<int>)
    ensures |r| == |b|
  {
    seq(|b|, i requires 0 <= i < |b| => b[i] as int)
  }

  /** The codes of a string. */
  function CharCodes(s: string): (r: seq<int>)
    ensures |r| == |s|
  {
    seq(|s|, i requires 0 <= i < |s| => s[i] as int)
  }

  lemma ByteCodesInjective(a: seq<bv8>, b: seq<bv8>)
    ensures ByteCodes(a) == ByteCodes(b) <==> a == b
  {
    if ByteCodes(a) == ByteCodes(b) {
      assert |a| == |b|;
      forall i | 0 <= i < |a|
        ensures a[i] == b[i]
      {
        assert ByteCodes(a)[i] == ByteCodes(b)[i];
      }
    }
  }

  lemma CharCodesInjective(a: string, b: string)
    ensures CharCodes(a) == CharCodes(b) <==> a == b
  {
    if CharCodes(a) == CharCodes(b) {
      assert |a| == |b|;
      forall i | 0 <= i < |a|
        ensures a[i] == b[i]
      {
        assert CharCodes(a)[i] == CharCodes(b)[i];
      }
    }
  }

  // ---------------------------------------------------------------------------
  // Comparisons of stored values
  // ---------------------------------------------------------------------------

  /** operator==: false for different types and for Void. */
  function Equal(a: Datum, b: Datum): (r: bool)
    ensures r ==> a.Type() == b.Type() && !a.VoidValue? && !b.VoidValue?
  {
    if a.Type() != b.Type() then false
    else match a
      case VoidValue => false
      case BytesValue(x) => x == b.bytes
      case StringValue(x) => x == b.str
      case BoolValue(x) => x == b.b
      case IntegerValue(x) => x == b.i
      case FloatValue(x) => x == b.f
  }

  /** operator<: false for different types and for Void. */
  function Less(a: Datum, b: Datum): (r: bool)
    ensures r ==> a.Type() == b.Type() && !a.VoidValue? && !b.VoidValue?
  {
    if a.Type() != b.Type() then false
    else match a
      case VoidValue => false
      case BytesValue(x) => LexLess(ByteCodes(x), ByteCodes(b.bytes))
      case StringValue(x) => LexLess(CharCodes(x), CharCodes(b.str))
      case BoolValue(x) => !x && b.b
      case IntegerValue(x) => x < b.i
      case FloatValue(x) => x < b.f
  }

  /** operator>: false for different types and for Void. */
  function Greater(a: Datum, b: Datum): (r: bool)
    ensures r ==> a.Type() == b.Type() && !a.VoidValue? && !b.VoidValue?
  {
    if a.Type() != b.Type() then false
    else match a
      case VoidValue => false
      case BytesValue(x) => LexLess(ByteCodes(b.bytes), ByteCodes(x))
      case StringValue(x) => LexLess(CharCodes(b.str), CharCodes(x))
      case BoolValue(x) => x && !b.b
      case IntegerValue(x) => x > b.i
      case FloatValue(x) => x > b.f
  }

  /** operator!= is the negation of ==. */
  function NotEqual(a: Datum, b: Datum): (r: bool)
    ensures a.Type() != b.Type() || a.VoidValue? ==> r
  {
    !Equal(a, b)
  }

  /** operator>= is > or ==. */
  function GreaterEqual(a: Datum, b: Datum): (r: bool)
    ensures r ==> a.Type() == b.Type() && !a.VoidValue?
  {
    Greater(a, b) || Equal(a, b)
  }

  /** operator<= is < or ==. */
  function LessEqual(a: Datum, b: Datum): (r: bool)
    ensures r ==> a.Type() == b.Type() && !a.VoidValue?
  {
    Less(a, b) || Equal(a, b)
  }

  /**
   * Values of different types are never equal and never ordered, and a
   * Void value is related to nothing, not even itself.
   */
  lemma UnrelatedTypes(a: Datum, b: Datum)
    requires a.Type() != b.Type() || a.VoidValue?
    ensures !Equal(a, b) && !Less(a, b) && !Greater(a, b)
    ensures NotEqual(a, b) && !GreaterEqual(a, b) && !LessEqual(a, b)
  {
  }

  /** Equality of non-Void values is equality of the stored values. */
  lemma EqualIsIdentity(a: Datum, b: Datum)
    requires !a.VoidValue?
    ensures Equal(a, b) <==> a == b
  {
  }

  /** > is < with the operands swapped; so >= is <= swapped. */
  lemma GreaterIsConverse(a: Datum, b: Datum)
    ensures Greater(a, b) <==> Less(b, a)
    ensures GreaterEqual(a, b) <==> LessEqual(b, a)
  {
  }

  /**
   * For two non-Void values of the same type exactly one of <, ==, >
   * holds, so >= is the negation of < and <= the negation of >.
   */
  lemma Trichotomy(a: Datum, b: Datum)
    requires a.Type() == b.Type() && !a.VoidValue?
    ensures Less(a, b) || Equal(a, b) || Greater(a, b)
    ensures !(Less(a, b) && Equal(a, b)) && !(Less(a, b) && Greater(a, b))
    ensures !(Equal(a, b) && Greater(a, b))
    ensures GreaterEqual(a, b) <==> !Less(a, b)
    ensures LessEqual(a, b) <==> !Greater(a, b)
  {
    match a
    case BytesValue(x) =>
      LexTrichotomy(ByteCodes(x), ByteCodes(b.bytes));
      ByteCodesInjective(x, b.bytes);
    case StringValue(x) =>
      LexTrichotomy(CharCodes(x), CharCodes(b.str));
      CharCodesInjective(x, b.str);
    case _ =>
  }

  /** Trichotomy where it applies: nothing is claimed for Void or mixed types. */
  lemma TrichotomyComplements(a: Datum, b: Datum)
    ensures a.Type() == b.Type() && !a.VoidValue? ==>
      (GreaterEqual(a, b) <==> !Less(a, b)) && (LessEqual(a, b) <==> !Greater(a, b))
  {
    if a.Type() == b.Type() && !a.VoidValue? {
      Trichotomy(a, b);
    }
  }

  /** < is transitive. */
  lemma LessTransitive(a: Datum, b: Datum, c: Datum)
    requires Less(a, b) && Less(b, c)
    ensures Less(a, c)
  {
    match a
    case BytesValue(x) =>
      LexTransitive(ByteCodes(x), ByteCodes(b.bytes), ByteCodes(c.bytes));
    case StringValue(x) =>
      LexTransitive(CharCodes(x), CharCodes(b.str), CharCodes(c.str));
    case _ =>
  }

  // ---------------------------------------------------------------------------
  // Construction and typed reads
  // ---------------------------------------------------------------------------

  /** A value given to the generic constructor: bool, floating or integer. */
  datatype Scalar =
    | BoolArg(b: bool)
    | FloatArg(f: real)
    | IntegerArg(i: int, t: IntType)

  predicate ValidScalar(v: Scalar)
  {
    v.IntegerArg? ==> IsWidth(v.t.bits) && Fits(v.i, v.t)
  }

  /** The tag the generic constructor gives a value of each type category. */
  function Category(v: Scalar): (t: VaryingDataType)
    ensures t == Bool <==> v.BoolArg?
    ensures t == Float <==> v.FloatArg?
    ensures t == Integer <==> v.IntegerArg?
  {
    match v
    case BoolArg(_) => Bool
    case FloatArg(_) => Float
    case IntegerArg(_, _) => Integer
  }

  /** The stored form: integers are cast to 64-bit signed. */
  function Stored(v: Scalar): (d: Datum)
    requires ValidScalar(v)
    ensures d.Type() == Category(v)
    ensures v.BoolArg? ==> d == BoolValue(v.b)
    ensures v.FloatArg? ==> d == FloatValue(v.f)
    ensures v.IntegerArg? ==> Fits(d.i, Int64) && (d.i - v.i) % Modulus(64) == 0
  {
    match v
    case BoolArg(b) => BoolValue(b)
    case FloatArg(f) => FloatValue(f)
    case IntegerArg(i, _) => IntegerValue(Cast(i, Int64))
  }

  /** CheckTypeMatch: a tag other than the required one is a logic error. */
  function CheckTypeMatch(tag: VaryingDataType, required: VaryingDataType): (r: Result<()>)
    ensures r.Success? <==> tag == required
    ensures r.Failure? ==> r.error == LogicError
  {
    if tag == required then Success(()) else Failure(LogicError)
  }

  /**
   * GetValue for an integer type: the tag must be INTEGER; a negative value
   * read as an unsigned type is a logic error; otherwise the stored value
   * is cast to the type.
   */
  function ReadInteger(tag: VaryingDataType, d: Datum, t: IntType): (r: Result<int>)
    requires IsWidth(t.bits)
    requires tag == d.Type()
    ensures r.Success? ==> d.IntegerValue? && Fits(r.value, t) && (r.value - d.i) % Modulus(t.bits) == 0
    ensures r.Failure? ==> r.error == LogicError
    ensures r.Failure? <==> tag != Integer || (!t.signed && d.i < 0)
  {
    var _ :- CheckTypeMatch(tag, Integer);
    if !t.signed && d.i < 0 then Failure(LogicError)
    else Success(Cast(d.i, t))
  }

  /**
   * An integer that fits its type reads back unchanged as that type,
   * except an unsigned value at or above 2^63: it is stored as a negative
   * 64-bit value and reading it as unsigned is a logic error.
   */
  lemma IntegerRoundTrip(v: int, t: IntType)
    requires IsWidth(t.bits) && Fits(v, t)
    ensures var d := Stored(IntegerArg(v, t));
            !t.signed && v >= 0x8000_0000_0000_0000 ==>
              ReadInteger(Integer, d, t) == Failure(LogicError)
    ensures var d := Stored(IntegerArg(v, t));
            (t.signed || v < 0x8000_0000_0000_0000) ==>
              ReadInteger(Integer, d, t) == Success(v)
  {
    if t.signed || v < 0x8000_0000_0000_0000 {
      CastFits(v, Int64);
      CastFits(v, t);
    }
  }

  /** A signed value read as a narrower or equal signed type keeps its residue. */
  lemma SignedReadIsModular(tag: VaryingDataType, d: Datum, t: IntType)
    requires IsWidth(t.bits) && tag == d.Type() && tag == Integer && t.signed
    ensures ReadInteger(tag, d, t).Success?
    ensures (ReadInteger(tag, d, t).value - d.i) % Modulus(t.bits) == 0
  {
  }

  // ---------------------------------------------------------------------------
  // The variable
  // ---------------------------------------------------------------------------

  class Varying {
    var tag: VaryingDataType
    var data: Datum

    /** The tag of the variable agrees with the tag of its stored value. */
    predicate Valid()
      reads this
    {
      tag == data.Type()
    }

    /** The generic constructor for bool, floating and integer values. */
    constructor(value: Scalar)
      requires ValidScalar(value)
      ensures Valid() && tag == Category(value) && data == Stored(value)
    {
      tag := Category(value);
      data := Stored(value);
    }

    /** The string constructor. */
    constructor FromString(value: string)
      ensures Valid() && tag == String && data == StringValue(value)
    {
      tag := String;
      data := StringValue(value);
    }

    /** The C-string constructor: a null pointer gives the empty string. */
    constructor FromCString(value: Option<string>)
      ensures Valid() && tag == String
      ensures data == StringValue(if value.None? then "" else value.value)
    {
      tag := String;
      data := StringValue(if value.None? then "" else value.value);
    }

    /** The byte-sequence constructor. */
    constructor FromBytes(value: seq<bv8>)
      ensures Valid() && tag == ArbitraryBytes && data == BytesValue(value)
    {
      tag := ArbitraryBytes;
      data := BytesValue(value);
    }

    /** Assigning a bool makes the variable a BOOL. */
    method AssignBool(value: bool)
      modifies this
      ensures Valid() && tag == Bool && data == BoolValue(value)
    {
      tag := Bool;
      data := BoolValue(value);
    }

    /** Assigning an integer makes the variable an INTEGER, cast to 64 bits. */
    method AssignInteger(value: int, t: IntType)
      requires IsWidth(t.bits) && Fits(value, t)
      modifies this
      ensures Valid() && tag == Integer && data == IntegerValue(Cast(value, Int64))
    {
      tag := Integer;
      data := IntegerValue(Cast(value, Int64));
    }

    /** Assigning a floating value makes the variable a FLOAT. */
    method AssignFloat(value: real)
      modifies this
      ensures Valid() && tag == Float && data == FloatValue(value)
    {
      tag := Float;
      data := FloatValue(value);
    }

    /** Assigning a string makes the variable a STRING. */
    method AssignString(value: string)
      modifies this
      ensures Valid() && tag == String && data == StringValue(value)
    {
      tag := String;
      data := StringValue(value);
    }

    /** Assigning bytes makes the variable ARBITRARY_BYTES. */
    method AssignBytes(value: seq<bv8>)
      modifies this
      ensures Valid() && tag == ArbitraryBytes && data == BytesValue(value)
    {
      tag := ArbitraryBytes;
      data := BytesValue(value);
    }

    /** Comparison operators delegate to the stored values: two variables
      * are equal exactly when they hold the same non-Void value. */
    predicate Eq(that: Varying)
      reads this, that
      ensures Eq(that) <==> !data.VoidValue? && data == that.data
    {
      if !data.VoidValue? then EqualIsIdentity(data, that.data); Equal(data, that.data)
      else Equal(data, that.data)
    }

    predicate Ne(that: Varying)
      reads this, that
      ensures Ne(that) <==> data.VoidValue? || data != that.data
    {
      if !data.VoidValue? then EqualIsIdentity(data, that.data); NotEqual(data, that.data)
      else NotEqual(data, that.data)
    }

    /** Only variables holding values of the same type are ordered. */
    predicate Lt(that: Varying)
      reads this, that
      ensures Lt(that) ==> data.Type() == that.data.Type() && !data.VoidValue?
      ensures Lt(that) ==> !Equal(data, that.data) && !Greater(data, that.data)
    {
      if Less(data, that.data) then Trichotomy(data, that.data); true else false
    }

    predicate Gt(that: Varying)
      reads this, that
      ensures Gt(that) <==> Less(that.data, data)
    {
      GreaterIsConverse(data, that.data);
      Greater(data, that.data)
    }

    predicate Le(that: Varying)
      reads this, that
      ensures Le(that) <==> Less(data, that.data) || Equal(data, that.data)
      ensures data.Type() == that.data.Type() && !data.VoidValue? ==> (Le(that) <==> !Greater(data, that.data))
    {
      TrichotomyComplements(data, that.data);
      LessEqual(data, that.data)
    }

    predicate Ge(that: Varying)
      reads this, that
      ensures Ge(that) <==> LessEqual(that.data, data)
      ensures data.Type() == that.data.Type() && !data.VoidValue? ==> (Ge(that) <==> !Less(data, that.data))
    {
      GreaterIsConverse(data, that.data);
      TrichotomyComplements(data, that.data);
      GreaterEqual(data, that.data)
    }

    /** GetValue<bool>. */
    function GetBool(): (r: Result<bool>)
      requires Valid()
      reads this
      ensures r.Success? <==> tag == Bool
      ensures r.Failure? ==> r.error == LogicError
      ensures r.Success? ==> data == BoolValue(r.value)
    {
      var _ :- CheckTypeMatch(tag, Bool);
      Success(data.b)
    }

    /** GetValue for a floating type (precision of float is not modelled). */
    function GetFloat(): (r: Result<real>)
      requires Valid()
      reads this
      ensures r.Success? <==> tag == Float
      ensures r.Failure? ==> r.error == LogicError
      ensures r.Success? ==> data == FloatValue(r.value)
    {
      var _ :- CheckTypeMatch(tag, Float);
      Success(data.f)
    }

    /** GetValue for a string type. */
    function GetString(): (r: Result<string>)
      requires Valid()
      reads this
      ensures r.Success? <==> tag == String
      ensures r.Failure? ==> r.error == LogicError
      ensures r.Success? ==> data == StringValue(r.value)
    {
      var _ :- CheckTypeMatch(tag, String);
      Success(data.str)
    }

    /** GetValue for a signed or unsigned integer type. */
    function GetInteger(t: IntType): (r: Result<int>)
      requires Valid() && IsWidth(t.bits)
      reads this
      ensures r.Success? <==> tag == Integer && (t.signed || data.i >= 0)
      ensures r.Failure? ==> r.error == LogicError
      ensures r.Success? ==> Fits(r.value, t) && (r.value - data.i) % Modulus(t.bits) == 0
    {
      ReadInteger(tag, data, t)
    }
  }
}
