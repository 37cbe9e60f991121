/**
  * Byte-level field decoding (mf_spark/utils/encoding.py): packed decimal (COMP-3),
  * zoned decimal (DISPLAY), big-endian binary integers, and the CCSID-to-codec table.
  *
  * Python's `Decimal` is exact; a decimal here is an integer coefficient and a
  * non-negative exponent of ten, `Decimal(unscaled, exponent)` = unscaled * 10^-exponent,
  * exactly what `Decimal("123.45")` holds (coefficient 12345, exponent -2).
  */
module Encoding {
  import opened Wrappers
  import opened Strings

  type Byte = x: int | 0 <= x < 256

  function High(b: Byte): (n: nat)
    ensures n < 16
  {
    b / 16
  }

  function Low(b: Byte): (n: nat)
    ensures n < 16
  {
    b % 16
  }

  /** The sign nibble 0xD, the only one either decoder reads as negative. */
  const MinusNibble: nat := 0xD

  datatype Decimal = Decimal(unscaled: int, exponent: nat)

  function Pow(b: nat, n: nat): (p: nat)
    requires b >= 1
    ensures p >= 1
  {
    if n == 0 then 1 else b * Pow(b, n - 1)
  }

  function Abs(x: int): nat { if x < 0 then -x else x }

  // ---------------------------------------------------------------------------
  // Digit strings and their values
  // ---------------------------------------------------------------------------

  /** The integer a sequence of digit values spells in base ten. */
  function DigitsValue(ds: seq<nat>): nat
  {
    if ds == [] then 0 else DigitsValue(ds[..|ds| - 1]) * 10 + ds[|ds| - 1]
  }

  /** `"".join(str(d) for d in ds)`: a nibble above 9 contributes two characters. */
  function JoinDigits(ds: seq<nat>): (s: string)
    ensures AllDigits(s)
    ensures |s| >= |ds|
  {
    if ds == [] then [] else JoinDigits(ds[..|ds| - 1]) + DecimalText(ds[|ds| - 1])
  }

  function DigitVal(c: char): (d: nat)
    requires IsDigit(c)
    ensures d <= 9
  {
    c as int - '0' as int
  }

  function Zeros(n: nat): (z: string)
    ensures |z| == n && AllDigits(z)
    ensures forall k :: 0 <= k < n ==> z[k] == '0'
  {
    seq(n, k => '0')
  }

  lemma {:induction false} NatOfAppend(a: string, b: string)
    requires AllDigits(a) && AllDigits(b)
    ensures AllDigits(a + b)
    ensures NatOf(a + b) == NatOf(a) * Pow(10, |b|) + NatOf(b)
    decreases |b|
  {
    if b == [] {
      assert a + b == a;
    } else {
      var b' := b[..|b| - 1];
      assert (a + b)[..|a + b| - 1] == a + b';
      NatOfAppend(a, b');
      assert b[..|b| - 1] == b';
      ShiftDigit(NatOf(a), Pow(10, |b'|), NatOf(b'), DigitVal(b[|b| - 1]));
    }
  }

  /** Appending a digit d to x * p + y multiplies by ten and adds d. */
  lemma ShiftDigit(x: nat, p: nat, y: nat, d: nat)
    ensures (x * p + y) * 10 + d == x * (10 * p) + (y * 10 + d)
  {
  }

  lemma {:induction false} NatOfZeros(n: nat)
    ensures NatOf(Zeros(n)) == 0
  {
    if n > 0 {
      assert Zeros(n)[..n - 1] == Zeros(n - 1);
      NatOfZeros(n - 1);
    }
  }

  /** Leading zeros do not change the value of a digit string. */
  lemma ZeroPaddingKeepsValue(n: nat, s: string)
    requires AllDigits(s)
    ensures AllDigits(Zeros(n) + s) && NatOf(Zeros(n) + s) == NatOf(s)
  {
    NatOfAppend(Zeros(n), s);
    NatOfZeros(n);
  }

  /** When every nibble is a decimal digit, the joined text spells exactly those digits. */
  lemma {:induction false} JoinDigitsValue(ds: seq<nat>)
    requires forall k :: 0 <= k < |ds| ==> ds[k] <= 9
    ensures |JoinDigits(ds)| == |ds|
    ensures NatOf(JoinDigits(ds)) == DigitsValue(ds)
  {
    if ds != [] {
      var init := ds[..|ds| - 1];
      JoinDigitsValue(init);
      var s := JoinDigits(ds);
      assert s == JoinDigits(init) + DecimalText(ds[|ds| - 1]);
      assert s[..|s| - 1] == JoinDigits(init);
    }
  }

  // ---------------------------------------------------------------------------
  // Decimal literals: what `Decimal(num_str)` accepts from the decoders
  // ---------------------------------------------------------------------------

  predicate UnsignedLiteral(u: string) {
    match Find(u, ".", 0)
    case None => u != [] && AllDigits(u)
    case Some(i) => 0 < i < |u| - 1 && AllDigits(u[..i]) && AllDigits(u[i + 1..])
  }

  predicate DecimalLiteral(t: string) {
    if t != [] && t[0] == '-' then UnsignedLiteral(t[1..]) else UnsignedLiteral(t)
  }

  function ParseUnsigned(u: string): Decimal
    requires UnsignedLiteral(u)
  {
    match Find(u, ".", 0)
    case None => Decimal(NatOf(u), 0)
    case Some(i) =>
      NatOfAppend(u[..i], u[i + 1..]);
      Decimal(NatOf(u[..i] + u[i + 1..]), |u| - i - 1)
  }

  /** Python's `Decimal(t)` for the literals built below (the sign of a negative zero is dropped). */
  function ParseDecimal(t: string): Decimal
    requires DecimalLiteral(t)
  {
    if t != [] && t[0] == '-' then
      var d := ParseUnsigned(t[1..]);
      Decimal(-d.unscaled, d.exponent)
    else ParseUnsigned(t)
  }

  /** The exponent the decoders give their result: `scale` when positive, otherwise none. */
  function ScaleExponent(scale: int): nat { if scale > 0 then scale else 0 }

  /**
    * The decimal-point insertion both decoders perform on the digit string:
    * left-pad with zeros to more than `scale` digits, then put a point `scale` places
    * from the right. The literal denotes the digit string's value over 10^scale.
    */
  method InsertPoint(numStr: string, scale: int) returns (t: string)
    requires numStr != [] && AllDigits(numStr)
    ensures t != [] && t[0] != '-' && UnsignedLiteral(t)
    ensures ParseUnsigned(t) == Decimal(NatOf(numStr), ScaleExponent(scale))
  {
    t := numStr;
    if scale > 0 {
      if |t| <= scale {
        ZeroPaddingKeepsValue(scale - |t| + 1, t);
        t := Zeros(scale - |t| + 1) + t;
      }
      assert NatOf(t) == NatOf(numStr) && AllDigits(t);
      var whole, frac := t[..|t| - scale], t[|t| - scale..];
      assert whole + frac == t;
      PointLiteral(whole, frac);
      t := whole + "." + frac;
    } else {
      DigitsLiteral(t);
    }
  }

  /** Digits, a point and digits form a literal of the joined digits over 10^|frac|. */
  lemma PointLiteral(whole: string, frac: string)
    requires whole != [] && frac != [] && AllDigits(whole) && AllDigits(frac)
    ensures var u := whole + "." + frac;
      u[0] != '-' && UnsignedLiteral(u) && ParseUnsigned(u) == Decimal(NatOf(whole + frac), |frac|)
  {
    var u := whole + "." + frac;
    assert LitAt(u, |whole|, ".");
    forall k | 0 <= k < |whole| ensures !LitAt(u, k, ".") {
      assert u[k] == whole[k];
    }
    assert Find(u, ".", 0) == Some(|whole|);
    assert u[..|whole|] == whole && u[|whole| + 1..] == frac;
  }

  /** A run of digits alone is a literal of its value with no exponent. */
  lemma DigitsLiteral(t: string)
    requires t != [] && AllDigits(t)
    ensures t[0] != '-' && UnsignedLiteral(t) && ParseUnsigned(t) == Decimal(NatOf(t), 0)
  {
    forall k | 0 <= k < |t| ensures !LitAt(t, k, ".") {
      assert IsDigit(t[k]);
    }
    assert Find(t, ".", 0).None?;
  }

  // ---------------------------------------------------------------------------
  // decode_packed_decimal
  // ---------------------------------------------------------------------------

  /** The high and low nibble of every byte, in order. */
  function Nibbles(bs: seq<Byte>): (ns: seq<nat>)
    ensures |ns| == 2 * |bs|
  {
    if bs == [] then [] else Nibbles(bs[..|bs| - 1]) + [High(bs[|bs| - 1]), Low(bs[|bs| - 1])]
  }

  /** The digit nibbles of a packed field: all nibbles but the final (sign) one. */
  function PackedNibbles(data: seq<Byte>): (ns: seq<nat>)
    requires data != []
    ensures |ns| == 2 * |data| - 1
  {
    Nibbles(data[..|data| - 1]) + [High(data[|data| - 1])]
  }

  /** The magnitude the packed decoder reads: the joined digit nibbles as a number. */
  function PackedMagnitude(data: seq<Byte>): nat
    requires data != []
  {
    NatOf(JoinDigits(PackedNibbles(data)))
  }

  /** What `decode_packed_decimal(data, scale)` returns. */
  function PackedValue(data: seq<Byte>, scale: int): Decimal
  {
    if data == [] then Decimal(0, 0)
    else
      var m: int := PackedMagnitude(data);
      Decimal(if Low(data[|data| - 1]) == MinusNibble then -m else m, ScaleExponent(scale))
  }

  method DecodePackedDecimal(data: seq<Byte>, scale: int) returns (r: Decimal)
    ensures r == PackedValue(data, scale)
  {
    if data == [] {
      return Decimal(0, 0);
    }
    var digits: seq<nat> := [];
    var i := 0;
    while i < |data| - 1
      invariant 0 <= i <= |data| - 1
      invariant digits == Nibbles(data[..i])
    {
      assert data[..i + 1][..i] == data[..i];
      digits := digits + [High(data[i]), Low(data[i])];
      i := i + 1;
    }
    digits := digits + [High(data[|data| - 1])];
    assert digits == PackedNibbles(data);
    var signNibble := Low(data[|data| - 1]);
    var numStr := JoinDigits(digits);
    var text := InsertPoint(numStr, scale);
    SignedLiteral(text, signNibble == MinusNibble);
    if signNibble == MinusNibble {
      text := "-" + text;
    }
    r := ParseDecimal(text);
  }

  /** Prefixing `-` to an unsigned literal negates its value. */
  lemma SignedLiteral(u: string, negative: bool)
    requires UnsignedLiteral(u) && u[0] != '-'
    ensures var t := if negative then "-" + u else u;
      DecimalLiteral(t)
      && ParseDecimal(t) == Decimal(if negative then -ParseUnsigned(u).unscaled else ParseUnsigned(u).unscaled, ParseUnsigned(u).exponent)
  {
    if negative {
      assert ("-" + u)[1..] == u;
    }
  }

  lemma {:induction false} NibblesAt(bs: seq<Byte>, k: nat)
    requires k < |bs|
    ensures Nibbles(bs)[2 * k] == High(bs[k]) && Nibbles(bs)[2 * k + 1] == Low(bs[k])
  {
    if k < |bs| - 1 {
      NibblesAt(bs[..|bs| - 1], k);
    }
  }

  /**
    * With decimal digit nibbles, a packed field of n bytes holds 2n-1 digits, read high
    * nibble then low nibble byte by byte and the high nibble of the last byte, and the
    * magnitude is those digits as a number.
    */
  lemma PackedMagnitudeIsDigits(data: seq<Byte>)
    requires data != []
    requires forall k :: 0 <= k < |data| - 1 ==> High(data[k]) <= 9 && Low(data[k]) <= 9
    requires High(data[|data| - 1]) <= 9
    ensures |PackedNibbles(data)| == 2 * |data| - 1
    ensures forall k :: 0 <= k < |data| - 1 ==>
      PackedNibbles(data)[2 * k] == High(data[k]) && PackedNibbles(data)[2 * k + 1] == Low(data[k])
    ensures PackedNibbles(data)[2 * |data| - 2] == High(data[|data| - 1])
    ensures PackedMagnitude(data) == DigitsValue(PackedNibbles(data))
  {
    var init := data[..|data| - 1];
    forall k | 0 <= k < |init|
      ensures PackedNibbles(data)[2 * k] == High(data[k]) && PackedNibbles(data)[2 * k + 1] == Low(data[k])
    {
      NibblesAt(init, k);
    }
    var ns := PackedNibbles(data);
    forall k | 0 <= k < |ns| ensures ns[k] <= 9 {
      if k < |ns| - 1 { NibblesAt(init, k / 2); }
    }
    JoinDigitsValue(ns);
  }

  /**
    * The sign: the result is negative exactly when the final nibble is 0xD and the
    * magnitude is not zero; every other final nibble, valid sign or not, gives a
    * non-negative result and no error.
    */
  lemma PackedSign(data: seq<Byte>, scale: int)
    requires data != []
    ensures PackedValue(data, scale).unscaled < 0 <==>
      Low(data[|data| - 1]) == MinusNibble && PackedMagnitude(data) != 0
    ensures Abs(PackedValue(data, scale).unscaled) == PackedMagnitude(data)
    ensures PackedValue(data, scale).exponent == ScaleExponent(scale)
  {
  }

  /** The documented example: 12 34 5C with scale 2 is 123.45. */
  lemma PackedExampleNibbles(data: seq<Byte>)
    requires data == [0x12, 0x34, 0x5C]
    ensures PackedNibbles(data) == [1, 2, 3, 4, 5]
  {
    assert data[..2] == [0x12, 0x34];
    assert data[..2][..1] == [0x12];
    assert [0x12, 0x34][..1] == [0x12];
    assert Nibbles([0x12]) == [1, 2];
    assert Nibbles([0x12, 0x34]) == [1, 2, 3, 4];
  }

  lemma PackedExampleDigits(ds: seq<nat>)
    requires ds == [1, 2, 3, 4, 5]
    ensures DigitsValue(ds) == 12345
  {
    assert DigitsValue([1]) == 1 by { assert [1][..0] == []; }
    assert DigitsValue([1, 2]) == 12 by { assert [1, 2][..1] == [1]; }
    assert DigitsValue([1, 2, 3]) == 123 by { assert [1, 2, 3][..2] == [1, 2]; }
    assert DigitsValue([1, 2, 3, 4]) == 1234 by { assert [1, 2, 3, 4][..3] == [1, 2, 3]; }
    assert ds[..4] == [1, 2, 3, 4];
  }

  lemma PackedExample()
    ensures PackedValue([0x12, 0x34, 0x5C], 2) == Decimal(12345, 2)
  {
    var data: seq<Byte> := [0x12, 0x34, 0x5C];
    PackedExampleNibbles(data);
    PackedMagnitudeIsDigits(data);
    PackedExampleDigits([1, 2, 3, 4, 5]);
  }

  // ---------------------------------------------------------------------------
  // decode_zoned_decimal
  // ---------------------------------------------------------------------------

  /** The low nibble of every byte, the last included. */
  function Lows(bs: seq<Byte>): (ds: seq<nat>)
    ensures |ds| == |bs|
    ensures forall k :: 0 <= k < |bs| ==> ds[k] == Low(bs[k])
  {
    seq(|bs|, k requires 0 <= k < |bs| => Low(bs[k]))
  }

  function ZonedMagnitude(data: seq<Byte>): nat
  {
    NatOf(JoinDigits(Lows(data)))
  }

  /** What `decode_zoned_decimal(data, scale)` returns. */
  function ZonedValue(data: seq<Byte>, scale: int): Decimal
  {
    if data == [] then Decimal(0, 0)
    else
      var m: int := ZonedMagnitude(data);
      Decimal(if High(data[|data| - 1]) == MinusNibble then -m else m, ScaleExponent(scale))
  }

  method DecodeZonedDecimal(data: seq<Byte>, scale: int) returns (r: Decimal)
    ensures r == ZonedValue(data, scale)
  {
    if data == [] {
      return Decimal(0, 0);
    }
    var numStr: string := [];
    var sign := 1;
    var i := 0;
    while i < |data|
      invariant 0 <= i <= |data|
      invariant numStr == JoinDigits(Lows(data[..i]))
      invariant sign == if i == |data| && High(data[|data| - 1]) == MinusNibble then -1 else 1
    {
      var zone, digit := High(data[i]), Low(data[i]);
      assert Lows(data[..i + 1])[..i] == Lows(data[..i]);
      numStr := numStr + DecimalText(digit);
      if i == |data| - 1 && zone == MinusNibble {
        sign := -1;
      }
      i := i + 1;
    }
    assert data[..i] == data;
    var text := InsertPoint(numStr, scale);
    var d := ParseDecimal(text);
    r := Decimal(d.unscaled * sign, d.exponent);
  }

  /**
    * Zoned decoding reads the low nibble of every byte as a digit, the last byte
    * included, and only a zone of 0xD on the last byte negates the value.
    */
  lemma ZonedDigitsAndSign(data: seq<Byte>, scale: int)
    requires data != []
    requires forall k :: 0 <= k < |data| ==> Low(data[k]) <= 9
    ensures Abs(ZonedValue(data, scale).unscaled) == DigitsValue(Lows(data))
    ensures ZonedValue(data, scale).unscaled < 0 <==>
      High(data[|data| - 1]) == MinusNibble && DigitsValue(Lows(data)) != 0
    ensures ZonedValue(data, scale).exponent == ScaleExponent(scale)
  {
    JoinDigitsValue(Lows(data));
  }

  // ---------------------------------------------------------------------------
  // decode_binary
  // ---------------------------------------------------------------------------

  /** The unsigned big-endian value of a byte string. */
  function BigEndian(data: seq<Byte>): nat
  {
    if data == [] then 0 else data[0] * Pow(256, |data| - 1) + BigEndian(data[1..])
  }

  lemma {:induction false} BigEndianBound(data: seq<Byte>)
    ensures BigEndian(data) < Pow(256, |data|)
    ensures data != [] ==> data[0] * Pow(256, |data| - 1) <= BigEndian(data) < (data[0] as int + 1) * Pow(256, |data| - 1)
  {
    if data != [] {
      var p := Pow(256, |data| - 1);
      var d: int := data[0];
      BigEndianBound(data[1..]);
      assert BigEndian(data) == d * p + BigEndian(data[1..]);
      assert d * p + p == (d + 1) * p;
      MulMonotone(d + 1, 256, p);
      assert Pow(256, |data|) == 256 * p;
    }
  }

  lemma MulMonotone(a: int, b: int, c: nat)
    requires a <= b
    ensures a * c <= b * c
  {
  }

  /** `int.from_bytes(data, "big", signed=signed)`, 0 for no bytes. */
  function DecodeBinary(data: seq<Byte>, signed: bool): (r: int)
    ensures data == [] ==> r == 0
    ensures !signed ==> 0 <= r < Pow(256, |data|)
    ensures signed && data != [] ==>
      -128 * Pow(256, |data| - 1) <= r < 128 * Pow(256, |data| - 1)
    ensures r >= 0 ==> r == BigEndian(data)
    ensures r < 0 ==> r + Pow(256, |data|) == BigEndian(data)
  {
    BigEndianBound(data);
    var u := BigEndian(data);
    if signed && data != [] && data[0] >= 128 then
      var p := Pow(256, |data| - 1);
      assert Pow(256, |data|) == 256 * p;
      MulMonotone(128, data[0], p);
      u - Pow(256, |data|)
    else
      if signed && data != [] then
        MulMonotone(data[0] as int + 1, 128, Pow(256, |data| - 1));
        u
      else u
  }

  // ---------------------------------------------------------------------------
  // encode_packed_decimal, as written
  // ---------------------------------------------------------------------------

  datatype EncodeError = IndexError

  /** `int(abs(value) * 10**scale)` (no multiplication when scale <= 0), truncating. */
  function ScaledMagnitude(v: Decimal, scale: int): nat
  {
    Abs(v.unscaled) * Pow(10, ScaleExponent(scale)) / Pow(10, v.exponent)
  }

  /** `s.zfill(width)` for an unsigned digit string. */
  function ZFill(s: string, width: int): (r: string)
    requires AllDigits(s)
    ensures AllDigits(r) && NatOf(r) == NatOf(s)
    ensures |r| == if |s| >= width then |s| else width
  {
    if |s| >= width then s
    else
      ZeroPaddingKeepsValue(width - |s|, s);
      Zeros(width - |s|) + s
  }

  /** `str(int_value).zfill(precision)`. */
  function EncodeDigits(v: Decimal, precision: int, scale: int): (t: string)
    ensures AllDigits(t) && |t| >= 1
    ensures NatOf(t) == ScaledMagnitude(v, scale)
  {
    ZFill(DecimalText(ScaledMagnitude(v, scale)), precision)
  }

  /** `high << 4 | low`. */
  function Pack(high: nat, low: nat): (b: Byte)
    requires high < 16 && low < 16
    ensures High(b) == high && Low(b) == low
  {
    high * 16 + low
  }

  function SignNibble(v: Decimal): nat { if v.unscaled >= 0 then 0xC else 0xD }

  /** Consecutive digit pairs packed high nibble first. */
  function PackPairs(t: string): (bs: seq<Byte>)
    requires AllDigits(t) && |t| % 2 == 0
    ensures |bs| == |t| / 2
  {
    if t == [] then []
    else PackPairs(t[..|t| - 2]) + [Pack(DigitVal(t[|t| - 2]), DigitVal(t[|t| - 1]))]
  }

  /**
    * The bytes the encoder packs digit string `t` into with sign nibble `sign`. With an
    * even digit count the last digit is packed twice; with an odd count the sign
    * overwrites the low nibble of the last pair and the last digit is dropped; one digit
    * raises IndexError.
    */
  function PackDigits(t: string, sign: nat): Result<seq<Byte>, EncodeError>
    requires AllDigits(t) && |t| >= 1 && sign < 16
  {
    if |t| % 2 == 0 then
      Ok(PackPairs(t) + [Pack(DigitVal(t[|t| - 1]), sign)])
    else if |t| == 1 then
      Err(IndexError)
    else
      var p := PackPairs(t[..|t| - 1]);
      Ok(p[|p| - 1 := Pack(High(p[|p| - 1]), sign)])
  }

  /** What `encode_packed_decimal(value, precision, scale)` returns. */
  function PackedEncoding(v: Decimal, precision: int, scale: int): Result<seq<Byte>, EncodeError>
  {
    PackDigits(EncodeDigits(v, precision, scale), SignNibble(v))
  }

  method EncodePackedDecimal(v: Decimal, precision: int, scale: int) returns (r: Result<seq<Byte>, EncodeError>)
    ensures r == PackedEncoding(v, precision, scale)
  {
    var sign := if v.unscaled >= 0 then 0xC else 0xD;
    var value := ScaledMagnitude(v, scale);
    var digits := ZFill(DecimalText(value), precision);
    assert digits == EncodeDigits(v, precision, scale) && sign == SignNibble(v);
    r := PackLoop(digits, sign);
  }

  /** The packing loop of the encoder and its final-byte fix-up. */
  method PackLoop(digits: string, sign: nat) returns (r: Result<seq<Byte>, EncodeError>)
    requires AllDigits(digits) && |digits| >= 1 && sign < 16
    ensures r == PackDigits(digits, sign)
  {
    var result: seq<Byte> := [];
    var i := 0;
    while i < |digits| - 1
      invariant 0 <= i <= |digits| && i % 2 == 0
      invariant i > |digits| - 1 ==> i == |digits|
      invariant result == PackPairs(digits[..i])
    {
      var high := DigitVal(digits[i]);
      var low := if i + 1 < |digits| then DigitVal(digits[i + 1]) else 0;
      PackPairsSnoc(digits, i);
      result := result + [Pack(high, low)];
      i := i + 2;
    }
    if |digits| % 2 == 0 {
      assert i == |digits| && digits[..i] == digits;
      var lastDigit := DigitVal(digits[|digits| - 1]);
      result := result + [Pack(lastDigit, sign)];
    } else if result == [] {
      return Err(IndexError);
    } else {
      assert i == |digits| - 1;
      result := result[|result| - 1 := Pack(High(result[|result| - 1]), sign)];
    }
    r := Ok(result);
  }

  /** One more pair of digits adds one byte to the packing. */
  lemma PackPairsSnoc(t: string, i: nat)
    requires AllDigits(t) && i % 2 == 0 && i + 2 <= |t|
    ensures PackPairs(t[..i + 2]) == PackPairs(t[..i]) + [Pack(DigitVal(t[i]), DigitVal(t[i + 1]))]
  {
    assert t[..i + 2][..i] == t[..i];
  }

  lemma {:induction false} PackPairsAt(t: string, k: nat)
    requires AllDigits(t) && |t| % 2 == 0 && k < |t| / 2
    ensures High(PackPairs(t)[k]) == DigitVal(t[2 * k]) && Low(PackPairs(t)[k]) == DigitVal(t[2 * k + 1])
  {
    if k < |t| / 2 - 1 {
      PackPairsAt(t[..|t| - 2], k);
    }
  }

  /**
    * What the packing produces: the sign nibble in the low nibble of the last byte,
    * digit pairs before it, and these lengths; it fails exactly on a single digit.
    */
  lemma PackDigitsShape(t: string, sign: nat)
    requires AllDigits(t) && |t| >= 1 && sign < 16
    ensures PackDigits(t, sign).Err? <==> |t| == 1
    ensures PackDigits(t, sign).Ok? ==>
      var bs := PackDigits(t, sign).value;
      && |bs| == (if |t| % 2 == 0 then |t| / 2 + 1 else (|t| - 1) / 2)
      && Low(bs[|bs| - 1]) == sign
      && (forall k :: 0 <= k < |bs| - 1 ==>
            High(bs[k]) == DigitVal(t[2 * k]) && Low(bs[k]) == DigitVal(t[2 * k + 1]))
      && High(bs[|bs| - 1]) == DigitVal(t[if |t| % 2 == 0 then |t| - 1 else |t| - 3])
  {
    if |t| % 2 == 0 {
      forall k | 0 <= k < |t| / 2 {
        PackPairsAt(t, k);
      }
    } else if |t| > 1 {
      var a := t[..|t| - 1];
      forall k | 0 <= k < |a| / 2
        ensures High(PackPairs(a)[k]) == DigitVal(t[2 * k]) && Low(PackPairs(a)[k]) == DigitVal(t[2 * k + 1])
      {
        PackPairsAt(a, k);
      }
    }
  }

  /**
    * The encoder's sign nibble is 0xC for a value >= 0 and 0xD for a negative one, and
    * it raises IndexError exactly when the scaled magnitude is a single digit and the
    * precision asks for at most one.
    */
  lemma PackedEncodingSign(v: Decimal, precision: int, scale: int)
    ensures PackedEncoding(v, precision, scale).Err? <==> ScaledMagnitude(v, scale) < 10 && precision <= 1
    ensures PackedEncoding(v, precision, scale).Ok? ==>
      var bs := PackedEncoding(v, precision, scale).value;
      bs != [] && Low(bs[|bs| - 1]) == (if v.unscaled >= 0 then 0xC else 0xD)
  {
    PackDigitsShape(EncodeDigits(v, precision, scale), SignNibble(v));
    var m := ScaledMagnitude(v, scale);
    if m >= 10 {
      assert DecimalText(m) == DecimalText(m / 10) + [('0' as int + m % 10) as char];
    }
  }

  // ---------------------------------------------------------------------------
  // The encoder is not the decoder's inverse, and the intended encoder
  // ---------------------------------------------------------------------------

  lemma MulDivCancel(a: nat, p: nat)
    requires p >= 1
    ensures a * p / p == a
  {
    var q, r := a * p / p, a * p % p;
    assert a * p == q * p + r && 0 <= r < p;
  }

  /** 12 with precision 2 and scale 0 encodes to 12 2C: the last digit is packed twice. */
  lemma EncodeEvenDigits()
    ensures PackedEncoding(Decimal(12, 0), 2, 0) == Ok([0x12, 0x2C])
  {
    var v := Decimal(12, 0);
    assert ScaledMagnitude(v, 0) == 12;
    assert DecimalText(12) == "12" by { assert DecimalText(1) == "1"; }
    var t := EncodeDigits(v, 2, 0);
    assert t == "12";
    assert PackPairs(t) == [Pack(1, 2)] by { assert "12"[..0] == []; }
    assert |t| == 2 && t[|t| - 1] == '2' && SignNibble(v) == 0xC;
    assert PackDigits(t, 0xC) == Ok(PackPairs(t) + [Pack(2, 0xC)]);
    assert Pack(1, 2) == 0x12 && Pack(2, 0xC) == 0x2C;
    assert PackedEncoding(v, 2, 0) == PackDigits(t, 0xC);
    assert PackPairs(t) + [Pack(2, 0xC)] == [0x12, 0x2C];
  }

  /** 12 2C decodes to 122. */
  lemma DecodeEvenDigits()
    ensures PackedValue([0x12, 0x2C], 0) == Decimal(122, 0)
  {
    var b: seq<Byte> := [0x12, 0x2C];
    assert b[..1] == [0x12];
    assert Nibbles([0x12]) == [1, 2] by { assert [0x12][..0] == []; }
    assert PackedNibbles(b) == [1, 2, 2];
    PackedMagnitudeIsDigits(b);
    assert DigitsValue([1]) == 1 by { assert [1][..0] == []; }
    assert DigitsValue([1, 2]) == 12 by { assert [1, 2][..1] == [1]; }
    assert DigitsValue([1, 2, 2]) == 122 by { assert [1, 2, 2][..2] == [1, 2]; }
  }

  /** 123 with precision 3 and scale 0 encodes to the single byte 1C: the digits 2 and 3 are lost. */
  lemma EncodeOddDigits()
    ensures PackedEncoding(Decimal(123, 0), 3, 0) == Ok([0x1C])
  {
    var v := Decimal(123, 0);
    assert ScaledMagnitude(v, 0) == 123;
    assert DecimalText(123) == "123" by {
      assert DecimalText(1) == "1";
      assert DecimalText(12) == "12";
    }
    var t := EncodeDigits(v, 3, 0);
    assert t == "123";
    assert t[..2] == "12";
    assert PackPairs("12") == [Pack(1, 2)] by { assert "12"[..0] == []; }
    assert |t| == 3 && t[..|t| - 1] == "12" && SignNibble(v) == 0xC;
    var p := PackPairs(t[..|t| - 1]);
    assert p == [Pack(1, 2)] && High(p[0]) == 1;
    assert PackDigits(t, 0xC) == Ok(p[0 := Pack(1, 0xC)]);
    assert Pack(1, 0xC) == 0x1C;
    assert PackedEncoding(v, 3, 0) == PackDigits(t, 0xC);
    assert p[0 := Pack(1, 0xC)] == [0x1C];
  }

  /** 1C decodes to 1. */
  lemma DecodeOddDigits()
    ensures PackedValue([0x1C], 0) == Decimal(1, 0)
  {
    var c: seq<Byte> := [0x1C];
    assert c[..0] == [];
    assert PackedNibbles(c) == [1];
    PackedMagnitudeIsDigits(c);
    assert DigitsValue([1]) == 1 by { assert [1][..0] == []; }
  }

  /** One more than an even length is odd. */
  lemma EvenPlusOne(n: nat)
    requires n % 2 != 1
    ensures (n + 1) % 2 == 1
  {
  }

  /** The digit string padded to an odd length, so that the sign fills the last byte exactly. */
  function OddDigits(v: Decimal, precision: int, scale: int): (t: string)
    ensures AllDigits(t) && |t| % 2 == 1
    ensures NatOf(t) == ScaledMagnitude(v, scale)
  {
    var t := EncodeDigits(v, precision, scale);
    if |t| % 2 == 1 then t
    else
      ZeroPaddingKeepsValue(1, t);
      EvenPlusOne(|t|);
      assert |Zeros(1) + t| == |t| + 1;
      Zeros(1) + t
  }

  /** An odd-length digit string packed two digits a byte, the last digit beside the sign nibble. */
  function PackOdd(t: string, sign: nat): (bs: seq<Byte>)
    requires AllDigits(t) && |t| % 2 == 1 && sign < 16
    ensures bs != [] && Low(bs[|bs| - 1]) == sign
  {
    PackPairs(t[..|t| - 1]) + [Pack(DigitVal(t[|t| - 1]), sign)]
  }

  /** The packing the decoder inverts: every digit once, then the sign nibble. */
  function PackedEncodingFixed(v: Decimal, precision: int, scale: int): (bs: seq<Byte>)
    ensures bs != [] && Low(bs[|bs| - 1]) == SignNibble(v)
  {
    PackOdd(OddDigits(v, precision, scale), SignNibble(v))
  }

  lemma {:induction false} NibblesOfPairs(t: string)
    requires AllDigits(t) && |t| % 2 == 0
    ensures Nibbles(PackPairs(t)) == DigitVals(t)
  {
    if t != [] {
      var a := t[..|t| - 2];
      NibblesOfPairs(a);
      var bs := PackPairs(t);
      assert bs[..|bs| - 1] == PackPairs(a);
    }
  }

  /** The digit values of a digit string. */
  function DigitVals(t: string): (ds: seq<nat>)
    requires AllDigits(t)
    ensures |ds| == |t|
  {
    seq(|t|, k requires 0 <= k < |t| => DigitVal(t[k]))
  }

  /** The odd packing carries every digit of the digit string, in order. */
  lemma PackOddNibbles(t: string, sign: nat)
    requires AllDigits(t) && |t| % 2 == 1 && sign < 16
    ensures PackedNibbles(PackOdd(t, sign)) == DigitVals(t)
  {
    var bs := PackOdd(t, sign);
    var a := t[..|t| - 1];
    NibblesOfPairs(a);
    assert bs[..|bs| - 1] == PackPairs(a);
    assert High(bs[|bs| - 1]) == DigitVal(t[|t| - 1]);
    assert PackedNibbles(bs) == DigitVals(a) + [DigitVal(t[|t| - 1])];
    DigitValsSnoc(t);
  }

  lemma DigitValsSnoc(t: string)
    requires AllDigits(t) && t != []
    ensures DigitVals(t) == DigitVals(t[..|t| - 1]) + [DigitVal(t[|t| - 1])]
  {
    var a := t[..|t| - 1];
    assert forall k :: 0 <= k < |a| ==> DigitVals(a)[k] == DigitVal(t[k]);
  }

  /** Decoding the fixed encoding at the same scale gives back the value. */
  lemma PackedRoundTrip(v: Decimal, precision: int, scale: int)
    requires scale >= 0 && v.exponent == scale
    ensures PackedValue(PackedEncodingFixed(v, precision, scale), scale) == v
  {
    var t := OddDigits(v, precision, scale);
    var bs := PackedEncodingFixed(v, precision, scale);
    assert PackedMagnitude(bs) == Abs(v.unscaled) by {
      PackOddNibbles(t, SignNibble(v));
      JoinDigitsOfDigits(t);
      assert ScaledMagnitude(v, scale) == Abs(v.unscaled) by {
        MulDivCancel(Abs(v.unscaled), Pow(10, v.exponent));
      }
    }
  }

  lemma {:induction false} JoinDigitsOfDigits(t: string)
    requires AllDigits(t)
    ensures JoinDigits(DigitVals(t)) == t
  {
    if t != [] {
      var ds := DigitVals(t);
      var init := t[..|t| - 1];
      JoinDigitsOfDigits(init);
      assert ds[..|ds| - 1] == DigitVals(init);
      assert DecimalText(ds[|ds| - 1]) == [t[|t| - 1]];
    }
  }

  // ---------------------------------------------------------------------------
  // CCSID table and EBCDICConverter
  // ---------------------------------------------------------------------------

  /** `CCSID_CODECS`, in its declaration order. */
  const CcsidCodecs: seq<(int, string)> := [
    (37, "cp037"), (500, "cp500"), (1047, "cp1047"), (1140, "cp1140"),
    (1200, "utf-16"), (1208, "utf-8"),
    (930, "cp930"), (935, "cp935"), (937, "cp937"),
    (273, "cp273"), (284, "cp284"), (285, "cp285"), (297, "cp297")
  ]

  const DefaultCodec: string := "cp037"

  /** First entry of a table with the given key, as a dictionary lookup finds it. */
  function LookupKey(table: seq<(int, string)>, key: int): (r: Option<string>)
    ensures r.Some? <==> exists k :: 0 <= k < |table| && table[k].0 == key
    ensures r.Some? ==> exists k :: 0 <= k < |table| && table[k] == (key, r.value)
  {
    if table == [] then None
    else if table[0].0 == key then Some(table[0].1)
    else
      var r := LookupKey(table[1..], key);
      assert forall k :: 1 <= k < |table| ==> table[k] == table[1..][k - 1];
      r
  }

  /** `CCSID_CODECS.get(ccsid, "cp037")`. */
  function CodecFor(ccsid: int): (r: string)
    ensures || (exists k :: 0 <= k < |CcsidCodecs| && CcsidCodecs[k] == (ccsid, r))
            || (r == DefaultCodec && forall k :: 0 <= k < |CcsidCodecs| ==> CcsidCodecs[k].0 != ccsid)
  {
    LookupKey(CcsidCodecs, ccsid).GetOr(DefaultCodec)
  }

  /** The first CCSID whose codec name is `codec`. */
  function CcsidOf(codec: string): (r: Option<int>)
    ensures r.Some? <==> exists k :: 0 <= k < |CcsidCodecs| && CcsidCodecs[k].1 == codec
  {
    FirstWithName(CcsidCodecs, codec)
  }

  function FirstWithName(table: seq<(int, string)>, name: string): (r: Option<int>)
    ensures r.Some? <==> exists k :: 0 <= k < |table| && table[k].1 == name
    ensures r.Some? ==> exists k :: 0 <= k < |table| && table[k] == (r.value, name)
  {
    if table == [] then None
    else if table[0].1 == name then Some(table[0].0)
    else
      var r := FirstWithName(table[1..], name);
      assert forall k :: 1 <= k < |table| ==> table[k] == table[1..][k - 1];
      r
  }

  /** `_get_ccsid`: scan the table in order for the codec name. */
  method GetCcsid(codec: string) returns (r: Option<int>)
    ensures r == CcsidOf(codec)
  {
    var i := 0;
    while i < |CcsidCodecs|
      invariant 0 <= i <= |CcsidCodecs|
      invariant FirstWithName(CcsidCodecs, codec) == FirstWithName(CcsidCodecs[i..], codec)
    {
      var (ccsid, name) := CcsidCodecs[i];
      if name == codec {
        return Some(ccsid);
      }
      assert CcsidCodecs[i..][1..] == CcsidCodecs[i + 1..];
      i := i + 1;
    }
    return None;
  }

  /** A lookup finds entry k when no earlier entry has its key. */
  lemma {:induction false} LookupKeyAt(table: seq<(int, string)>, k: nat)
    requires k < |table| && forall i :: 0 <= i < k ==> table[i].0 != table[k].0
    ensures LookupKey(table, table[k].0) == Some(table[k].1)
  {
    if k > 0 {
      assert forall i :: 0 <= i < k - 1 ==> table[1..][i] == table[i + 1];
      LookupKeyAt(table[1..], k - 1);
    }
  }

  /** A name search finds entry k when no earlier entry has its name. */
  lemma {:induction false} FirstWithNameAt(table: seq<(int, string)>, k: nat)
    requires k < |table| && forall i :: 0 <= i < k ==> table[i].1 != table[k].1
    ensures FirstWithName(table, table[k].1) == Some(table[k].0)
  {
    if k > 0 {
      assert forall i :: 0 <= i < k - 1 ==> table[1..][i] == table[i + 1];
      FirstWithNameAt(table[1..], k - 1);
    }
  }

  lemma CcsidKeysDistinct()
    ensures forall i, j :: 0 <= i < j < |CcsidCodecs| ==> CcsidCodecs[i].0 != CcsidCodecs[j].0
  {
  }

  lemma CcsidNamesDistinct()
    ensures forall i, j :: 0 <= i < j < |CcsidCodecs| ==> CcsidCodecs[i].1 != CcsidCodecs[j].1
  {
  }

  /** The table's keys and names are each distinct, so the lookups invert each other on it. */
  lemma CcsidTableInverse(k: nat)
    requires k < |CcsidCodecs|
    ensures CodecFor(CcsidCodecs[k].0) == CcsidCodecs[k].1
    ensures CcsidOf(CcsidCodecs[k].1) == Some(CcsidCodecs[k].0)
  {
    CcsidKeysDistinct();
    CcsidNamesDistinct();
    LookupKeyAt(CcsidCodecs, k);
    FirstWithNameAt(CcsidCodecs, k);
  }

  /** A codec name is a CCSID when it is a non-empty run of digits (`str.isdigit()`). */
  predicate IsDigitString(s: string) { s != [] && AllDigits(s) }

  class EbcdicConverter {
    var codec: string
    var ccsid: Option<int>

    constructor (codecName: string)
      ensures codec == if IsDigitString(codecName) then CodecFor(NatOf(codecName)) else codecName
      ensures ccsid == CcsidOf(codec)
      ensures ccsid.Some? ==> CodecFor(ccsid.value) == codec
    {
      var name := codecName;
      if IsDigitString(name) {
        name := CodecFor(NatOf(name));
      }
      var found := GetCcsid(name);
      if found.Some? {
        var k :| 0 <= k < |CcsidCodecs| && CcsidCodecs[k] == (found.value, name);
        CcsidTableInverse(k);
      }
      codec := name;
      ccsid := found;
    }
  }
}
