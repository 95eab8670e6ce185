/** Extraction of typed values from little-endian payloads (internal/codec/codec.go). */
module Codec {
  import opened Bytes

  datatype DataType =
    | Bool | Int8 | Int16 | Int32 | Int64 | Uint8 | Uint16 | Uint32 | Uint64
    | Float32 | Float64 | ByteArray | VisibleString | Unsupported(name: string)

  /** Bits occupied by a fixed-width type, 0 for the others. */
  function BitWidth(t: DataType): nat {
    match t
    case Bool => 1
    case Int8 | Uint8 => 8
    case Int16 | Uint16 => 16
    case Int32 | Uint32 | Float32 => 32
    case Int64 | Uint64 | Float64 => 64
    case ByteArray | VisibleString | Unsupported(_) => 0
  }

  predicate Supported(t: DataType) {
    !t.Unsupported?
  }

  predicate SignedType(t: DataType) {
    t.Int8? || t.Int16? || t.Int32? || t.Int64?
  }

  predicate UnsignedType(t: DataType) {
    t.Uint8? || t.Uint16? || t.Uint32? || t.Uint64?
  }

  predicate ByteOriented(t: DataType) {
    t.ByteArray? || t.VisibleString?
  }

  /** Floating-point values are kept as their bit patterns. */
  datatype Value =
    | BoolValue(flag: bool)
    | IntValue(signed: int)
    | UintValue(unsigned: nat)
    | FloatBits(bits: nat)
    | BytesValue(bytes: seq<Byte>)
    | StringValue(text: seq<Byte>)

  /** `Crash` and `Crashed` stand for a run-time panic. */
  datatype Extraction = Bits(raw: nat) | OutOfBounds | Crash
  datatype Decoding = Decoded(value: Value) | Failed | Crashed

  // ---------------------------------------------------------------------
  // Meaning
  // ---------------------------------------------------------------------

  /** The `width` bits of the payload's number starting at bit `offset`. */
  ghost function Field(data: seq<Byte>, offset: nat, width: nat): nat {
    (LittleEndian(data) / Pow2(offset)) % Pow2(width)
  }

  /** The integer in [-2^(w-1), 2^(w-1)) that is congruent to `raw` modulo 2^w. */
  ghost function TwosComplement(raw: nat, width: nat): int
    requires width > 0
  {
    if raw < Pow2(width - 1) then raw else raw - Pow2(width)
  }

  /** Bit `pos` of a payload: bit `pos % 8` of byte `pos / 8`. */
  function BitAt(data: seq<Byte>, pos: nat): (bit: nat)
    requires pos < 8 * |data|
    ensures bit <= 1
  {
    (data[pos / 8] / Pow2(pos % 8)) % 2
  }

  ghost function ExtractionMeaning(data: seq<Byte>, bitOffset: int, width: nat): Extraction {
    if bitOffset < 0 || width == 0 then OutOfBounds
    else if bitOffset + width <= 8 * |data| then Bits(Field(data, bitOffset, width))
    else if bitOffset % 8 != 0 && bitOffset + width > MAX_INT64 then Crash
    else OutOfBounds
  }

  ghost function Interpret(t: DataType, raw: nat): Value
    requires BitWidth(t) > 0
  {
    if t.Bool? then BoolValue(raw == 1)
    else if SignedType(t) then IntValue(TwosComplement(raw, BitWidth(t)))
    else if UnsignedType(t) then UintValue(raw)
    else FloatBits(raw)
  }

  ghost function DecodeMeaning(data: seq<Byte>, t: DataType, bitOffset: int, byteLen: int): Decoding {
    if !Supported(t) then Failed
    else if ByteOriented(t) then
      var start := bitOffset / 8;
      if bitOffset % 8 != 0 || byteLen <= 0 || start < 0 then Failed
      else if start + byteLen <= |data| then
        var bytes := data[start..start + byteLen];
        Decoded(if t.VisibleString? then StringValue(bytes) else BytesValue(bytes))
      else if start + byteLen > MAX_INT64 then Crashed
      else Failed
    else
      match ExtractionMeaning(data, bitOffset, BitWidth(t))
      case Bits(raw) => Decoded(Interpret(t, raw))
      case OutOfBounds => Failed
      case Crash => Crashed
  }

  // ---------------------------------------------------------------------
  // The code
  // ---------------------------------------------------------------------

  method ExtractBits(data: seq<Byte>, bitOffset: Int64, width: nat) returns (r: Extraction)
    requires width in {0, 1, 8, 16, 32, 64}
    ensures r == ExtractionMeaning(data, bitOffset, width)
  {
    if bitOffset < 0 {
      return OutOfBounds;
    }
    if width == 0 {
      return OutOfBounds;
    }
    if bitOffset % 8 == 0 {
      var start := bitOffset / 8;
      var end := start + width / 8;
      if end > |data| {
        return OutOfBounds;
      }
      if width in {8, 16, 32, 64} {
        FieldOfSlice(data, start, end);
        return Bits(LittleEndian(data[start..end]));
      }
    }
    r := CollectBits(data, bitOffset, width);
  }

  /** The bit-level path of `ExtractBits`, for fields that start inside a byte. */
  method CollectBits(data: seq<Byte>, bitOffset: Int64, width: nat) returns (r: Extraction)
    requires bitOffset >= 0 && 1 <= width <= 64 && (width == 1 || bitOffset % 8 != 0)
    ensures r == ExtractionMeaning(data, bitOffset, width)
  {
    var totalBits := |data| * 8;
    if Wrap64(bitOffset + width) > totalBits {
      return OutOfBounds;
    }
    assert bitOffset + width <= totalBits || bitOffset + width > MAX_INT64;
    assert width == 1 && bitOffset + width > MAX_INT64 ==> bitOffset % 8 == 7;
    var result := 0;
    var i := 0;
    while i < width
      invariant 0 <= i <= width
      invariant i > 0 ==> bitOffset + i <= totalBits
      invariant result == Field(data, bitOffset, i)
    {
      var bitPos := bitOffset + i;
      if bitPos / 8 >= |data| {
        return Crash; // the bounds check above wrapped around
      }
      FieldStep(data, bitOffset, i);
      result := result + BitAt(data, bitPos) * Pow2(i);
      i := i + 1;
    }
    return Bits(result);
  }

  /** Conversion to a signed integer of `width` bits: the low bits, the top one weighing negatively. */
  function SignedCast(raw: nat, width: nat): int
    requires width > 0
  {
    var low := raw % Pow2(width);
    if low / Pow2(width - 1) == 0 then low else low - Pow2(width)
  }

  /** The conversion that closes `Decode`. */
  function Convert(t: DataType, raw: nat): Value
    requires BitWidth(t) > 0
  {
    if t.Bool? then BoolValue(raw % 2 != 0)
    else if SignedType(t) then IntValue(SignedCast(raw, BitWidth(t)))
    else if UnsignedType(t) then UintValue(raw)
    else FloatBits(raw)
  }

  /** The byte-range case of `Decode`. */
  method DecodeBytes(data: seq<Byte>, t: DataType, bitOffset: Int64, byteLen: Int64) returns (r: Decoding)
    requires ByteOriented(t)
    ensures r == DecodeMeaning(data, t, bitOffset, byteLen)
  {
    if bitOffset % 8 != 0 {
      return Failed;
    }
    var start := bitOffset / 8;
    if byteLen <= 0 {
      return Failed;
    }
    if start < 0 || Wrap64(start + byteLen) > |data| {
      return Failed;
    }
    if start + byteLen > |data| {
      return Crashed; // the bounds check above wrapped around
    }
    var raw := data[start..start + byteLen];
    return Decoded(if t.VisibleString? then StringValue(raw) else BytesValue(raw));
  }

  method Decode(data: seq<Byte>, t: DataType, bitOffset: Int64, byteLen: Int64) returns (r: Decoding)
    ensures r == DecodeMeaning(data, t, bitOffset, byteLen)
  {
    if !Supported(t) {
      return Failed;
    }
    if ByteOriented(t) {
      r := DecodeBytes(data, t, bitOffset, byteLen);
      return;
    }
    var width := BitWidth(t);
    var extracted := ExtractBits(data, bitOffset, width);
    match extracted {
      case OutOfBounds => return Failed;
      case Crash => return Crashed;
      case Bits(raw) =>
        BitsConverted(data, t, bitOffset, raw);
        return Decoded(Convert(t, raw));
    }
  }

  // ---------------------------------------------------------------------
  // Why the code has that meaning
  // ---------------------------------------------------------------------

  /** The aligned fast path: consecutive bytes are consecutive bits. */
  lemma FieldOfSlice(data: seq<Byte>, start: nat, end: nat)
    requires start <= end <= |data|
    ensures LittleEndian(data[start..end]) == Field(data, 8 * start, 8 * (end - start))
  {
    var low, mid, high := data[..start], data[start..end], data[end..];
    assert data == low + (mid + high);
    LittleEndianConcat(low, mid + high);
    LittleEndianConcat(mid, high);
    LittleEndianBound(low);
    LittleEndianBound(mid);
    MiddleDigit(LittleEndian(data), Pow2(8 * start), Pow2(8 * (end - start)),
                LittleEndian(low), LittleEndian(mid), LittleEndian(mid + high), LittleEndian(high));
  }

  lemma MiddleDigit(n: nat, p: nat, q: nat, low: nat, mid: nat, rest: nat, high: nat)
    requires low < p && mid < q && n == low + p * rest && rest == mid + q * high
    ensures (n / p) % q == mid
  {
    DivModUnique(n, p, rest, low);
    DivModUnique(rest, q, high, mid);
  }

  /** Bit `pos` of the payload's number is bit `pos % 8` of byte `pos / 8`. */
  lemma {:induction false} BitOfByte(data: seq<Byte>, pos: nat)
    requires pos < 8 * |data|
    ensures (data[pos / 8] / Pow2(pos % 8)) % 2 == (LittleEndian(data) / Pow2(pos)) % 2
  {
    var n := LittleEndian(data);
    if pos < 8 {
      BitOfLowByte(data[0], LittleEndian(data[1..]), pos);
    } else {
      BitOfByte(data[1..], pos - 8);
      assert Pow2(pos) == 256 * Pow2(pos - 8) by {
        Pow2Of8();
        Pow2Add(8, pos - 8);
      }
      DivDiv(n, 256, Pow2(pos - 8));
      assert n / 256 == LittleEndian(data[1..]);
      assert data[pos / 8] == data[1..][(pos - 8) / 8];
    }
  }

  lemma BitOfLowByte(d: Byte, m: nat, pos: nat)
    requires pos < 8
    ensures (d / Pow2(pos)) % 2 == ((d + 256 * m) / Pow2(pos)) % 2
  {
    var p, q := Pow2(pos), Pow2(7 - pos);
    assert p * (2 * q) == 256 by {
      Pow2Of8();
      Pow2Add(pos, 8 - pos);
    }
    ParityOfQuotient(d, m, p, q);
  }

  lemma ParityOfQuotient(d: nat, m: nat, p: nat, q: nat)
    requires p > 0 && p * (2 * q) == 256
    ensures (d / p) % 2 == ((d + 256 * m) / p) % 2
  {
    var e := d / p + 2 * (q * m);
    Regrouped(p, q, m);
    Distributed(d / p, 2 * (q * m), p);
    DivModUnique(d + 256 * m, p, e, d % p);
  }

  lemma Regrouped(p: int, q: int, m: int)
    ensures (2 * (q * m)) * p == (p * (2 * q)) * m
  {
  }

  lemma Distributed(a: int, b: int, p: int)
    ensures (a + b) * p == a * p + b * p
  {
  }

  lemma LowBits(x: nat, p: nat)
    requires p > 0
    ensures x % (2 * p) == x % p + ((x / p) % 2) * p
  {
    var h := x / p;
    assert x == h * p + x % p;
    var b := h % 2;
    assert x == (h / 2) * (2 * p) + (b * p + x % p) by {
      assert h == 2 * (h / 2) + b;
      assert (2 * (h / 2) + b) * p == (h / 2) * (2 * p) + b * p;
    }
    DivModUnique(x, 2 * p, h / 2, b * p + x % p);
  }

  lemma NextBit(n: nat, p: nat, q: nat)
    requires p > 0 && q > 0
    ensures p * q > 0 && (n / p) % (2 * q) == (n / p) % q + ((n / (p * q)) % 2) * q
  {
    DivDiv(n, p, q);
    LowBits(n / p, q);
  }

  /** The bit loop: one more bit of the field is the next bit of the payload. */
  lemma FieldStep(data: seq<Byte>, offset: nat, i: nat)
    requires offset + i < 8 * |data|
    ensures Field(data, offset, i + 1) == Field(data, offset, i) + BitAt(data, offset + i) * Pow2(i)
  {
    BitOfByte(data, offset + i);
    Pow2Add(offset, i);
    NextBit(LittleEndian(data), Pow2(offset), Pow2(i));
  }

  lemma FieldBound(data: seq<Byte>, offset: nat, width: nat)
    ensures Field(data, offset, width) < Pow2(width)
  {
  }

  lemma BitsConverted(data: seq<Byte>, t: DataType, bitOffset: int, raw: nat)
    requires BitWidth(t) > 0 && ExtractionMeaning(data, bitOffset, BitWidth(t)) == Bits(raw)
    ensures Convert(t, raw) == Interpret(t, raw)
  {
    FieldBound(data, bitOffset, BitWidth(t));
    ConvertMeaning(t, raw);
  }

  lemma ConvertMeaning(t: DataType, raw: nat)
    requires BitWidth(t) > 0 && raw < Pow2(BitWidth(t))
    ensures Convert(t, raw) == Interpret(t, raw)
  {
    SignedCastMeaning(raw, BitWidth(t));
  }

  lemma SignedCastMeaning(raw: nat, width: nat)
    requires width > 0 && raw < Pow2(width)
    ensures SignedCast(raw, width) == TwosComplement(raw, width)
  {
    var half := Pow2(width - 1);
    if raw < half {
      DivModUnique(raw, half, 0, raw);
    } else {
      DivModUnique(raw, half, 1, raw - half);
    }
    DivModUnique(raw, Pow2(width), 0, raw);
  }

  // ---------------------------------------------------------------------
  // Writing a field and reading it back
  // ---------------------------------------------------------------------

  /** The number that differs from `n` only in the `width` bits at `offset`, which hold `v`. */
  ghost function Patch(n: nat, offset: nat, width: nat, v: nat): int {
    Splice(n, Pow2(offset), Pow2(width), v)
  }

  /** `n` with its digit between `p` and `p * w` replaced by `v`. */
  ghost function Splice(n: nat, p: nat, w: nat, v: nat): int
    requires p > 0 && w > 0
  {
    ((n / p / w) * w + v) * p + n % p
  }

  /** A reference inserter: stores `v` in the `width` bits at `offset`. */
  ghost function Insert(data: seq<Byte>, offset: nat, width: nat, v: nat): (r: seq<Byte>)
    requires v < Pow2(width) && offset + width <= 8 * |data|
    ensures |r| == |data|
  {
    LittleEndianBound(data);
    PatchBound(LittleEndian(data), offset, width, v, 8 * |data|);
    ToBytes(Patch(LittleEndian(data), offset, width, v), |data|)
  }

  lemma SpliceParts(n: nat, p: nat, w: nat, v: nat)
    requires p > 0 && v < w
    ensures var n' := Splice(n, p, w, v);
      n' >= 0 && n' % p == n % p && (n' / p) % w == v && n' / p / w == n / p / w
  {
    var h := n / p / w;
    NonnegativeProduct(h, w);
    NonnegativeProduct(h * w + v, p);
    DivModUnique(Splice(n, p, w, v), p, h * w + v, n % p);
    DivModUnique(h * w + v, w, h, v);
  }

  lemma NonnegativeProduct(a: int, b: int)
    requires a >= 0 && b >= 0
    ensures a * b >= 0
  {
  }

  lemma SpliceBound(n: nat, p: nat, w: nat, v: nat, q: nat)
    requires p > 0 && v < w && q > 0 && n < (q * w) * p
    ensures Splice(n, p, w, v) < (q * w) * p
  {
    var h := n / p / w;
    QuotientBound(n, p, q * w);
    QuotientBound(n / p, w, q);
    DigitsBound(h, v, q, w);
    DigitsBound(h * w + v, n % p, q * w, p);
  }

  lemma DigitsBound(high: int, low: int, q: int, w: int)
    requires high < q && low < w && w > 0
    ensures high * w + low < q * w
  {
    var most := (q - 1) * w;
    assert most == q * w - w;
    Scale(high, q - 1, w);
  }

  lemma QuotientBound(n: nat, p: nat, q: nat)
    requires p > 0 && n < q * p
    ensures n / p < q
  {
    assert (n / p) * p <= n;
    if n / p >= q {
      Scale(q, n / p, p);
    }
  }

  lemma Scale(a: int, b: int, p: int)
    requires a <= b && p >= 0
    ensures a * p <= b * p
  {
    assert (b - a) * p >= 0;
    assert (b - a) * p == b * p - a * p;
  }

  lemma PatchBound(n: nat, offset: nat, width: nat, v: nat, bits: nat)
    requires v < Pow2(width) && offset + width <= bits && n < Pow2(bits)
    ensures 0 <= Patch(n, offset, width, v) < Pow2(bits)
  {
    var rest := bits - (offset + width);
    assert Pow2(bits) == (Pow2(rest) * Pow2(width)) * Pow2(offset) by {
      Pow2Add(rest, width);
      Pow2Add(rest + width, offset);
    }
    SpliceParts(n, Pow2(offset), Pow2(width), v);
    SpliceBound(n, Pow2(offset), Pow2(width), v, Pow2(rest));
  }

  lemma InsertValue(data: seq<Byte>, offset: nat, width: nat, v: nat)
    requires v < Pow2(width) && offset + width <= 8 * |data|
    ensures LittleEndian(Insert(data, offset, width, v)) == Patch(LittleEndian(data), offset, width, v)
  {
    LittleEndianBound(data);
    PatchBound(LittleEndian(data), offset, width, v, 8 * |data|);
    ToBytesValue(Patch(LittleEndian(data), offset, width, v), |data|);
  }

  /** Bits below bit `b` are determined by the number modulo 2^b. */
  lemma FieldBelow(n: nat, o: nat, w: nat, b: nat)
    requires o + w <= b
    ensures (n / Pow2(o)) % Pow2(w) == ((n % Pow2(b)) / Pow2(o)) % Pow2(w)
  {
    var rest := b - o - w;
    PowersOf(o, w, rest);
    LowDigits(n, Pow2(o), Pow2(w), Pow2(rest), Pow2(o + (w + rest)));
  }

  lemma PowersOf(o: nat, w: nat, rest: nat)
    ensures Pow2(o + (w + rest)) == Pow2(o) * (Pow2(w) * Pow2(rest))
  {
    Pow2Add(w, rest);
    Pow2Add(o, w + rest);
  }

  lemma LowDigits(n: nat, p: nat, w: nat, r: nat, all: nat)
    requires p > 0 && w > 0 && r > 0 && all == p * (w * r) && all > 0
    ensures (n / p) % w == ((n % all) / p) % w
  {
    NonzeroProduct(w, r);
    NonzeroProduct(p, w * r);
    ModDiv(n, p, w * r);
    ModMod(n / p, w, r);
  }

  lemma NonzeroProduct(a: int, b: int)
    requires a > 0 && b > 0
    ensures a * b > 0
  {
  }

  /** (n mod pq) / p == (n / p) mod q */
  lemma ModDiv(n: nat, p: nat, q: nat)
    requires p > 0 && q > 0 && p * q > 0
    ensures (n % (p * q)) / p == (n / p) % q
  {
    var x := n / p;
    var m := (x % q) * p + n % p;
    assert n == (x / q) * (p * q) + m by {
      assert x == (x / q) * q + x % q;
      assert ((x / q) * q + x % q) * p == (x / q) * (p * q) + (x % q) * p;
    }
    NonnegativeProduct(x % q, p);
    assert m < p * q by {
      Scale(x % q, q - 1, p);
      assert (q - 1) * p == p * q - p;
    }
    DivModUnique(n, p * q, x / q, m);
    DivModUnique(m, p, x % q, n % p);
  }

  /** Bits from bit `b` up are determined by the quotient by 2^b. */
  lemma FieldAbove(n: nat, o: nat, w: nat, above: nat)
    requires o + w <= above
    ensures n / Pow2(above) == (n / Pow2(o) / Pow2(w)) / Pow2(above - o - w)
  {
    Pow2Add(o, w);
    DivDiv(n, Pow2(o), Pow2(w));
    Pow2Add(o + w, above - o - w);
    DivDiv(n, Pow2(o + w), Pow2(above - o - w));
  }

  lemma InsertThenRead(data: seq<Byte>, offset: nat, width: nat, v: nat)
    requires v < Pow2(width) && offset + width <= 8 * |data|
    ensures Field(Insert(data, offset, width, v), offset, width) == v
  {
    InsertValue(data, offset, width, v);
    SpliceParts(LittleEndian(data), Pow2(offset), Pow2(width), v);
  }

  lemma InsertElsewhere(data: seq<Byte>, offset: nat, width: nat, v: nat, o: nat, w: nat)
    requires v < Pow2(width) && offset + width <= 8 * |data|
    requires o + w <= offset || offset + width <= o
    ensures Field(Insert(data, offset, width, v), o, w) == Field(data, o, w)
  {
    var n := LittleEndian(data);
    var n' := Patch(n, offset, width, v);
    InsertValue(data, offset, width, v);
    SpliceParts(n, Pow2(offset), Pow2(width), v);
    if o + w <= offset {
      FieldBelow(n, o, w, offset);
      FieldBelow(n', o, w, offset);
    } else {
      FieldAbove(n, offset, width, o);
      FieldAbove(n', offset, width, o);
    }
  }

  /** The integers a numeric type can hold. */
  ghost predicate InRange(t: DataType, v: int) {
    if SignedType(t) then 0 - Pow2(BitWidth(t) - 1) <= v < Pow2(BitWidth(t) - 1)
    else UnsignedType(t) && 0 <= v < Pow2(BitWidth(t))
  }

  /** The bits that represent `v`: two's complement for negative numbers. */
  ghost function Representation(t: DataType, v: int): nat
    requires InRange(t, v)
  {
    if v < 0 then v + Pow2(BitWidth(t)) else v
  }

  lemma RepresentationInterpreted(t: DataType, v: int)
    requires InRange(t, v)
    ensures BitWidth(t) > 0 && Representation(t, v) < Pow2(BitWidth(t))
    ensures Interpret(t, Representation(t, v)) == if SignedType(t) then IntValue(v) else UintValue(v)
  {
    var w := BitWidth(t);
    assert Pow2(w) == 2 * Pow2(w - 1);
  }

  /** Writing any representable integer at any bit offset and decoding it returns that integer. */
  lemma FieldRoundTrip(data: seq<Byte>, t: DataType, offset: nat, v: int, byteLen: int)
    requires InRange(t, v) && offset + BitWidth(t) <= 8 * |data|
    ensures DecodeMeaning(Insert(data, offset, BitWidth(t), Representation(t, v)), t, offset, byteLen)
         == Decoded(if SignedType(t) then IntValue(v) else UintValue(v))
  {
    RepresentationInterpreted(t, v);
    InsertThenRead(data, offset, BitWidth(t), Representation(t, v));
  }

  /** The bits a field of type `t` reads. */
  ghost function BitsRead(t: DataType, byteLen: int): int {
    if ByteOriented(t) then 8 * byteLen else BitWidth(t)
  }

  /** ... and every field whose bits are disjoint from the written ones decodes as before. */
  lemma DisjointFieldUnchanged(
      data: seq<Byte>, offset: nat, width: nat, v: nat, t: DataType, bitOffset: int, byteLen: int)
    requires v < Pow2(width) && offset + width <= 8 * |data|
    requires bitOffset + BitsRead(t, byteLen) <= offset || offset + width <= bitOffset
    ensures DecodeMeaning(Insert(data, offset, width, v), t, bitOffset, byteLen)
         == DecodeMeaning(data, t, bitOffset, byteLen)
  {
    var data' := Insert(data, offset, width, v);
    if ByteOriented(t) {
      var start := bitOffset / 8;
      if bitOffset % 8 == 0 && byteLen > 0 && start >= 0 && start + byteLen <= |data| {
        DisjointSliceUnchanged(data, offset, width, v, start, start + byteLen);
      }
    } else if BitWidth(t) > 0 && bitOffset >= 0 {
      InsertElsewhere(data, offset, width, v, bitOffset, BitWidth(t));
    }
    SameBitsSameValue(data, data', t, bitOffset, byteLen);
  }

  lemma SameBitsSameValue(data: seq<Byte>, data': seq<Byte>, t: DataType, bitOffset: int, byteLen: int)
    requires |data| == |data'|
    requires
      var start := bitOffset / 8;
      ByteOriented(t) && bitOffset % 8 == 0 && byteLen > 0 && start >= 0 && start + byteLen <= |data| ==>
        data[start..start + byteLen] == data'[start..start + byteLen]
    requires !ByteOriented(t) && BitWidth(t) > 0 && bitOffset >= 0 ==>
        Field(data, bitOffset, BitWidth(t)) == Field(data', bitOffset, BitWidth(t))
    ensures DecodeMeaning(data, t, bitOffset, byteLen) == DecodeMeaning(data', t, bitOffset, byteLen)
  {
  }

  lemma DisjointSliceUnchanged(data: seq<Byte>, offset: nat, width: nat, v: nat, start: nat, end: nat)
    requires v < Pow2(width) && offset + width <= 8 * |data| && start <= end <= |data|
    requires 8 * end <= offset || offset + width <= 8 * start
    ensures Insert(data, offset, width, v)[start..end] == data[start..end]
  {
    var data' := Insert(data, offset, width, v);
    forall k | start <= k < end ensures data'[k] == data[k] {
      ByteIsField(data, k);
      ByteIsField(data', k);
      InsertElsewhere(data, offset, width, v, 8 * k, 8);
    }
  }

  lemma ByteIsField(data: seq<Byte>, j: nat)
    requires j < |data|
    ensures data[j] == Field(data, 8 * j, 8)
  {
    FieldOfSlice(data, j, j + 1);
    assert data[j..j + 1] == [data[j]];
    assert LittleEndian([data[j]]) == data[j] + 256 * LittleEndian([]);
  }

  // ---------------------------------------------------------------------
  // Each type by its numbers
  // ---------------------------------------------------------------------

  /** The integer types: bits, number of values, and whether negative values are among them. */
  predicate LiteralInteger(t: DataType, bits: nat, values: nat, signed: bool) {
    match t
    case Int8 => bits == 8 && values == 0x100 && signed
    case Int16 => bits == 16 && values == 0x1_0000 && signed
    case Int32 => bits == 32 && values == 0x1_0000_0000 && signed
    case Int64 => bits == 64 && values == 0x1_0000_0000_0000_0000 && signed
    case Uint8 => bits == 8 && values == 0x100 && !signed
    case Uint16 => bits == 16 && values == 0x1_0000 && !signed
    case Uint32 => bits == 32 && values == 0x1_0000_0000 && !signed
    case Uint64 => bits == 64 && values == 0x1_0000_0000_0000_0000 && !signed
    case Bool | Float32 | Float64 | ByteArray | VisibleString | Unsupported(_) => false
  }

  /** The other types of fixed width. */
  predicate LiteralBits(t: DataType, bits: nat, values: nat) {
    match t
    case Bool => bits == 1 && values == 2
    case Float32 => bits == 32 && values == 0x1_0000_0000
    case Float64 => bits == 64 && values == 0x1_0000_0000_0000_0000
    case _ => false
  }

  lemma LiteralPowers()
    ensures Pow2(1) == 2 && Pow2(7) == 0x80 && Pow2(8) == 0x100 && Pow2(15) == 0x8000 && Pow2(16) == 0x1_0000
    ensures Pow2(31) == 0x8000_0000 && Pow2(32) == 0x1_0000_0000
    ensures Pow2(63) == 0x8000_0000_0000_0000 && Pow2(64) == 0x1_0000_0000_0000_0000
  {
    Pow2Of8();
    Pow2Add(8, 8);
    Pow2Add(16, 16);
    Pow2Add(32, 32);
    PowerBelow(8);
    PowerBelow(16);
    PowerBelow(32);
    PowerBelow(64);
  }

  lemma PowerBelow(n: nat)
    requires n > 0
    ensures Pow2(n) == 2 * Pow2(n - 1)
  {
  }

  /**
   * Every integer of a type's range, from -128..127 to 0..2^64-1, comes back
   * from the type's number of bits at any offset with room for them.
   */
  lemma IntegerRoundTrip(
      data: seq<Byte>, t: DataType, bits: nat, values: nat, signed: bool, offset: nat, v: int, byteLen: int)
    requires LiteralInteger(t, bits, values, signed) && offset + bits <= 8 * |data|
    requires if signed then 0 - values <= 2 * v < values else 0 <= v < values
    ensures Pow2(bits) == values
    ensures DecodeMeaning(Insert(data, offset, bits, if v < 0 then v + values else v), t, offset, byteLen)
         == Decoded(if signed then IntValue(v) else UintValue(v))
  {
    LiteralPowers();
    FieldRoundTrip(data, t, offset, v, byteLen);
  }

  /** A boolean is the bit itself, a float its 32 or 64 bits. */
  lemma BitsRoundTrip(data: seq<Byte>, t: DataType, bits: nat, values: nat, offset: nat, raw: nat, byteLen: int)
    requires LiteralBits(t, bits, values) && offset + bits <= 8 * |data| && raw < values
    ensures Pow2(bits) == values
    ensures DecodeMeaning(Insert(data, offset, bits, raw), t, offset, byteLen)
         == Decoded(if t == Bool then BoolValue(raw == 1) else FloatBits(raw))
  {
    LiteralPowers();
    InsertThenRead(data, offset, bits, raw);
  }

  /** At a byte boundary an unsigned integer is its bytes, least significant first. */
  lemma AlignedUnsigned(data: seq<Byte>, t: DataType, bits: nat, values: nat, start: nat, byteLen: int)
    requires LiteralInteger(t, bits, values, false) && start + bits / 8 <= |data|
    ensures DecodeMeaning(data, t, 8 * start, byteLen) == Decoded(UintValue(LittleEndian(data[start..start + bits / 8])))
  {
    var end := start + bits / 8;
    FieldOfSlice(data, start, end);
    assert 8 * (end - start) == bits;
    UnsignedMeaning(data, t, bits, values, 8 * start, byteLen);
  }

  lemma UnsignedMeaning(data: seq<Byte>, t: DataType, bits: nat, values: nat, offset: nat, byteLen: int)
    requires LiteralInteger(t, bits, values, false) && offset + bits <= 8 * |data|
    ensures DecodeMeaning(data, t, offset, byteLen) == Decoded(UintValue(Field(data, offset, bits)))
  {
  }

  /** ... so two bytes are the low one and 256 times the high one. */
  lemma TwoBytes(data: seq<Byte>, start: nat, byteLen: int)
    requires start + 2 <= |data|
    ensures DecodeMeaning(data, Uint16, 8 * start, byteLen) == Decoded(UintValue(data[start] as int + 256 * data[start + 1] as int))
  {
    AlignedUnsigned(data, Uint16, 16, 0x1_0000, start, byteLen);
    var low, high := data[start], data[start + 1];
    assert data[start..start + 2] == [low, high];
    assert [low, high][1..] == [high] && [high][1..] == [];
  }

  /** Byte ranges are themselves. */
  lemma BytesMeaning(data: seq<Byte>, start: nat, byteLen: nat)
    requires 0 < byteLen && start + byteLen <= |data|
    ensures DecodeMeaning(data, ByteArray, 8 * start, byteLen) == Decoded(BytesValue(data[start..start + byteLen]))
    ensures DecodeMeaning(data, VisibleString, 8 * start, byteLen) == Decoded(StringValue(data[start..start + byteLen]))
  {
  }

  /** A field without room for its bits does not decode. */
  lemma NoRoom(data: seq<Byte>, t: DataType, bits: nat, values: nat, signed: bool, offset: int, byteLen: int)
    requires LiteralInteger(t, bits, values, signed) || LiteralBits(t, bits, values)
    ensures DecodeMeaning(data, t, offset, byteLen).Decoded? <==> 0 <= offset <= 8 * |data| - bits
  {
  }
}
