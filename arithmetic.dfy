/**
 * The one-byte descriptor of a primitive field type, `0WZZZYXX`:
 *   XX  (bits 0-1) category: 0 bool, 1 character, 2 integer, 3 floating point
 *   Y   (bit 2)    0 signed, 1 unsigned
 *   ZZZ (bits 3-5) size class: 1, 2, 4, 8, 16 bytes as 0 .. 4
 *   W   (bit 6)    1 for char16_t / char32_t, 0 otherwise
 * and the decoder that turns a descriptor back into a type name.
 */
module ArithmeticEncoding {

  /** The C++ arithmetic types. What the platform decides (the signedness of
      `char` and `wchar_t`, the widths of `wchar_t`, of the integer types and of
      `long double`) is carried by the constructor. `Qualified` is the const
      and/or volatile version of a type, as `decltype` reports a member
      declared `const bool b;`. */
  datatype Arith =
    | Bool
    | PlainChar(isSigned: bool)          // char
    | SignedChar
    | UnsignedChar
    | Char8                              // char8_t
    | WChar(bytes: nat, isSigned: bool)  // wchar_t
    | Char16
    | Char32
    | Int(bytes: nat, isSigned: bool)    // short .. long long, intN_t, uintN_t, 128-bit integers
    | Float
    | Double
    | LongDouble(bytes: nat)
    | Qualified(base: Arith)             // const T, volatile T, const volatile T

  /** std::remove_cv<T> */
  function Unqualified(t: Arith): Arith
  {
    if t.Qualified? then t.base else t
  }

  /** sizeof(T) */
  function SizeOf(t: Arith): nat {
    match t
    case Bool => 1
    case PlainChar(_) => 1
    case SignedChar => 1
    case UnsignedChar => 1
    case Char8 => 1
    case WChar(b, _) => b
    case Char16 => 2
    case Char32 => 4
    case Int(b, _) => b
    case Float => 4
    case Double => 8
    case LongDouble(b) => b
    case Qualified(b) => SizeOf(b)
  }

  predicate IsSizeClass(n: nat) {
    n == 1 || n == 2 || n == 4 || n == 8 || n == 16
  }

  /** The types for which the encoder compiles: every size has a size class
      (a 12-byte long double selects no overload); a wide character is 2 or
      4 bytes wide and a long double 8 or 16, as on the platforms the header
      targets. A type is qualified at most once. */
  predicate Valid(t: Arith) {
    var u := Unqualified(t);
    && !u.Qualified?
    && IsSizeClass(SizeOf(t))
    && (u.WChar? ==> u.bytes == 2 || u.bytes == 4)
    && (u.LongDouble? ==> u.bytes == 8 || u.bytes == 16)
  }

  /** std::is_signed<T> */
  predicate IsSigned(t: Arith) {
    match t
    case Bool => false
    case PlainChar(s) => s
    case SignedChar => true
    case UnsignedChar => false
    case Char8 => false
    case WChar(_, s) => s
    case Char16 => false
    case Char32 => false
    case Int(_, s) => s
    case Float => true
    case Double => true
    case LongDouble(_) => true
    case Qualified(b) => IsSigned(b)
  }

  /** std::is_floating_point<T> */
  predicate IsFloating(t: Arith) {
    var u := Unqualified(t);
    u.Float? || u.Double? || u.LongDouble?
  }

  /** std::is_integral<T>: the storage types a bit-field may have */
  predicate IsIntegral(t: Arith) {
    !IsFloating(t)
  }

  /** Category flags: only char, wchar_t, char16_t and char32_t are characters;
      signed char, unsigned char and char8_t count as integers. The bool and
      character tests compare the exact type, so a qualified bool or character
      fails them and is classified as an integer (`numeric_limits` of a
      qualified type is that of the type); a qualified floating point type
      stays floating point. */
  function CategoryFlags(t: Arith): bv8 {
    match t
    case Bool => 0
    case PlainChar(_) => 1
    case WChar(_, _) => 1
    case Char16 => 1
    case Char32 => 1
    case SignedChar => 2
    case UnsignedChar => 2
    case Char8 => 2
    case Int(_, _) => 2
    case Float => 3
    case Double => 3
    case LongDouble(_) => 3
    case Qualified(b) => if b.Float? || b.Double? || b.LongDouble? then 3 else 2
  }

  function SignFlags(t: Arith): bv8 {
    if IsSigned(t) then 0 else 1 << 2
  }

  function SizeFlags(t: Arith): bv8
    requires Valid(t)
  {
    match SizeOf(t)
    case 1 => 0 << 3
    case 2 => 1 << 3
    case 4 => 2 << 3
    case 8 => 3 << 3
    case 16 => 4 << 3
  }

  function CharFlags(t: Arith): bv8 {
    if t.Char16? || t.Char32? then 1 << 6 else 0
  }

  /** The size class of a width in bytes, as the 3-bit field holds it */
  function SizeClass(n: nat): bv8 {
    if n == 1 then 0 else if n == 2 then 1 else if n == 4 then 2 else if n == 8 then 3 else 4
  }

  /** get_encoded_arithmetic: each facet lands in its own bits and bit 7 stays clear */
  function Encode(t: Arith): (r: bv8)
    requires Valid(t)
    ensures r & 0x80 == 0
    ensures r & 0x03 == CategoryFlags(t)
    ensures (r >> 2) & 1 == (if IsSigned(t) then 0 else 1)
    ensures (r >> 3) & 0x07 == SizeClass(SizeOf(t))
    ensures (r >> 6) & 1 == (if t.Char16? || t.Char32? then 1 else 0)
  {
    CategoryFlags(t) | SignFlags(t) | SizeFlags(t) | CharFlags(t)
  }

  /** decode_arithmetic */
  function Decode(enc: bv8): (r: string)
    ensures r == "bool" <==> enc & 0x03 == 0
    ensures r in {"bool", "char8_t", "char", "unsigned char", "wchar_t", "char16_t", "char32_t",
                  "uint8_t", "int8_t", "uint16_t", "int16_t", "uint32_t", "int32_t", "uint64_t", "int64_t",
                  "float", "double", "long double", "undefined"}
  {
    var xx := enc & 0x03;
    var y := (enc & 0x04) >> 2;
    var zzz := (enc & 0x38) >> 3;
    var w := (enc & 0x40) >> 6;
    if xx == 0 then "bool"
    else if xx == 1 then
      if zzz == 0 then
        if w != 0 then "char8_t" else if y == 0 then "char" else "unsigned char"
      else if w == 0 then "wchar_t"
      else if zzz == 1 then "char16_t"
      else if zzz == 2 then "char32_t"
      else "undefined"
    else if xx == 2 then
      if zzz == 0 then (if y != 0 then "uint8_t" else "int8_t")
      else if zzz == 1 then (if y != 0 then "uint16_t" else "int16_t")
      else if zzz == 2 then (if y != 0 then "uint32_t" else "int32_t")
      else if zzz == 3 then (if y != 0 then "uint64_t" else "int64_t")
      else "undefined"
    else
      if zzz == 2 then "float"
      else if zzz == 3 then "double"
      else if zzz == 4 then "long double"
      else "undefined"
  }

  /** The fixed-width integer name of a width and sign; a 16-byte integer has none. */
  function IntName(bytes: nat, isSigned: bool): string {
    if bytes == 1 then (if isSigned then "int8_t" else "uint8_t")
    else if bytes == 2 then (if isSigned then "int16_t" else "uint16_t")
    else if bytes == 4 then (if isSigned then "int32_t" else "uint32_t")
    else if bytes == 8 then (if isSigned then "int64_t" else "uint64_t")
    else "undefined"
  }

  /** The fixed-width name each type stands for, written per type: integers
      by width and sign, characters by their own name, floating point types by
      width. A qualified bool or character type is named as the integer of its
      width and sign. */
  function CanonicalName(t: Arith): string {
    match t
    case Bool => "bool"
    case PlainChar(s) => if s then "char" else "unsigned char"
    case SignedChar => "int8_t"
    case UnsignedChar => "uint8_t"
    case Char8 => "uint8_t"
    case WChar(_, _) => "wchar_t"
    case Char16 => "char16_t"
    case Char32 => "char32_t"
    case Int(b, s) => IntName(b, s)
    case Float => "float"
    case Double => "double"
    case LongDouble(b) => if b == 8 then "double" else "long double"
    case Qualified(b) => if IsFloating(b) then CanonicalName(b) else IntName(SizeOf(b), IsSigned(b))
  }

  /** Decoding an encoding gives back the name of the type that was encoded. */
  lemma DecodeEncode(t: Arith)
    requires Valid(t)
    ensures Decode(Encode(t)) == CanonicalName(t)
  {
    var e := Encode(t);
    assert e & 0x03 == CategoryFlags(t);
    assert (e & 0x04) >> 2 == (e >> 2) & 1;
    assert (e & 0x38) >> 3 == (e >> 3) & 0x07;
    assert (e & 0x40) >> 6 == (e >> 6) & 1;
  }

  /** The fixed-width examples: every 1/2/4/8-byte integer, bool, float and double. */
  lemma DecodeFixedWidth(bytes: nat, isSigned: bool)
    requires bytes == 1 || bytes == 2 || bytes == 4 || bytes == 8
    ensures Decode(Encode(Int(bytes, isSigned))) == IntName(bytes, isSigned) != "undefined"
    ensures Decode(Encode(Bool)) == "bool"
    ensures Decode(Encode(Float)) == "float" && Decode(Encode(Double)) == "double"
  {
    DecodeEncode(Int(bytes, isSigned));
    DecodeEncode(Bool);
    DecodeEncode(Float);
    DecodeEncode(Double);
  }

  /** Two types share an encoding exactly when they agree on all four facets. */
  lemma EncodeSeparatesFacets(a: Arith, b: Arith)
    requires Valid(a) && Valid(b)
    ensures Encode(a) == Encode(b) <==>
      && CategoryFlags(a) == CategoryFlags(b)
      && IsSigned(a) == IsSigned(b)
      && SizeClass(SizeOf(a)) == SizeClass(SizeOf(b))
      && (a.Char16? || a.Char32?) == (b.Char16? || b.Char32?)
  {
    var ea, eb := Encode(a), Encode(b);
    if CategoryFlags(a) == CategoryFlags(b) && IsSigned(a) == IsSigned(b)
      && SizeClass(SizeOf(a)) == SizeClass(SizeOf(b))
      && (a.Char16? || a.Char32?) == (b.Char16? || b.Char32?)
    {
      assert SizeFlags(a) == SizeFlags(b);
    }
  }

  /** A const or volatile bool or character field is not recognised as one:
      its descriptor is that of the unsigned or signed integer of its width, so
      `const bool` decodes as `uint8_t` where `bool` decodes as `bool`. */
  lemma QualifiedDecodesAsInteger(t: Arith)
    requires Valid(Qualified(t)) && IsIntegral(t)
    ensures Decode(Encode(Qualified(t))) == IntName(SizeOf(t), IsSigned(t))
    ensures t == Bool ==> Decode(Encode(Qualified(t))) == "uint8_t" && Decode(Encode(t)) == "bool"
    ensures t == Char16 ==> Decode(Encode(Qualified(t))) == "uint16_t" && Decode(Encode(t)) == "char16_t"
    ensures t == Char32 ==> Decode(Encode(Qualified(t))) == "uint32_t" && Decode(Encode(t)) == "char32_t"
    ensures t.PlainChar? ==> Decode(Encode(Qualified(t))) == (if t.isSigned then "int8_t" else "uint8_t")
  {
    DecodeEncode(Qualified(t));
    DecodeEncode(t);
  }

  /** Qualifying a type changes its descriptor exactly when the type is bool
      or one of the four character types. */
  lemma QualifiedDescriptor(t: Arith)
    requires Valid(Qualified(t))
    ensures Encode(Qualified(t)) == Encode(t) <==>
      !(t == Bool || t.PlainChar? || t.WChar? || t == Char16 || t == Char32)
  {
    EncodeSeparatesFacets(Qualified(t), t);
  }

  /** Bit 7 is never read by the decoder. */
  lemma DecodeIgnoresBitSeven(enc: bv8)
    ensures Decode(enc) == Decode(enc & 0x7F)
  {
  }

  /** The decoder's `char8_t` answer is reached by no encoded type: char8_t is
      classified as an integer and decodes as `uint8_t`. */
  lemma CharEightNeverDecoded(t: Arith)
    requires Valid(t)
    ensures Decode(Encode(t)) != "char8_t"
    ensures t == Char8 ==> Decode(Encode(t)) == "uint8_t"
  {
    DecodeEncode(t);
  }

  /** A descriptor whose integer or floating point size class has no name
      decodes to `undefined`. */
  lemma UnlistedDecodesUndefined(enc: bv8)
    requires (enc & 0x03 == 2 && (enc & 0x38) >> 3 >= 4)
          || (enc & 0x03 == 3 && ((enc & 0x38) >> 3 < 2 || (enc & 0x38) >> 3 > 4))
          || (enc & 0x03 == 1 && (enc & 0x38) >> 3 >= 3 && enc & 0x40 != 0)
    ensures Decode(enc) == "undefined"
  {
  }
}
