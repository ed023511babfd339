/** The trimming parameters of the sensor and their 24-byte little-endian
    layout in registers 0x88..0x9F (section 3.11.2 of the Bosch BMP280
    datasheet), as BMP280_Init decodes them (Core/Src/bmp280.c:80-106). */
module Calibration {

  /** Bytes of the block that hold the twelve coefficients. */
  const CalibLength: nat := 24

  /** Bytes BMP280_Init asks the transport for (Core/Src/bmp280.c:77):
      0x88..0xA1, of which the last two are not decoded. */
  const CalibReadLength: nat := 26

  /** The coefficients dig_T1..dig_T3 and dig_P1..dig_P9. */
  datatype Calib = Calib(
    T1: int, T2: int, T3: int,
    P1: int, P2: int, P3: int, P4: int, P5: int, P6: int, P7: int, P8: int, P9: int)

  /** T1 and P1 are unsigned 16-bit, all others signed 16-bit. */
  predicate IsUnsignedField(i: nat) {
    i == 0 || i == 3
  }

  predicate InField(i: nat, v: int) {
    if IsUnsignedField(i) then 0 <= v < 0x1_0000 else -0x8000 <= v < 0x8000
  }

  /** The i-th coefficient in register order. */
  function Field(c: Calib, i: nat): int
    requires i < 12
  {
    match i
    case 0 => c.T1
    case 1 => c.T2
    case 2 => c.T3
    case 3 => c.P1
    case 4 => c.P2
    case 5 => c.P3
    case 6 => c.P4
    case 7 => c.P5
    case 8 => c.P6
    case 9 => c.P7
    case 10 => c.P8
    case _ => c.P9
  }

  /** Every coefficient lies in the range of its C type. */
  ghost predicate ValidCalib(c: Calib) {
    forall i :: 0 <= i < 12 ==> InField(i, Field(c, i))
  }

  /** The all-zero record a static `bmx280_t` starts with. */
  const ZeroCalib: Calib := Calib(0, 0, 0, 0, 0, 0, 0, 0, 0, 0, 0, 0)

  /** A little-endian unsigned 16-bit word, as `*(uint16_t*)` reads it on
      a little-endian target. */
  function U16(lo: bv8, hi: bv8): (r: int)
    ensures 0 <= r < 0x1_0000
    ensures r % 0x100 == lo as int && r / 0x100 == hi as int
  {
    ByteRange(lo);
    ByteRange(hi);
    WordParts(lo as int, hi as int);
    lo as int + 0x100 * hi as int
  }

  /** A little-endian two's-complement 16-bit word, as `*(int16_t*)` reads
      it: negative exactly when bit 7 of the high byte is set. */
  function S16(lo: bv8, hi: bv8): (r: int)
    ensures -0x8000 <= r < 0x8000
    ensures Unsigned16(r) == U16(lo, hi)
    ensures r < 0 <==> hi & 0x80 != 0
  {
    var u := U16(lo, hi);
    HighBit(hi);
    ByteRange(hi);
    assert u < 0x8000 <==> hi as int < 0x80;
    if u < 0x8000 then u else u - 0x1_0000
  }

  /** The value of the i-th coefficient read from bytes 2i (low) and 2i+1
      (high) of the block, with the signedness of its C type. */
  function Word(block: seq<bv8>, i: nat): int
    requires i < 12 && |block| >= 2 * i + 2
  {
    if IsUnsignedField(i) then U16(block[2 * i], block[2 * i + 1])
    else S16(block[2 * i], block[2 * i + 1])
  }

  /** Decoding of the calibration block (Core/Src/bmp280.c:80-106). */
  function Decode(block: seq<bv8>): (c: Calib)
    requires |block| == CalibLength
    ensures ValidCalib(c)
    ensures forall i :: 0 <= i < 12 ==> Field(c, i) == Word(block, i)
  {
    var c := Calib(
      Word(block, 0), Word(block, 1), Word(block, 2), Word(block, 3),
      Word(block, 4), Word(block, 5), Word(block, 6), Word(block, 7),
      Word(block, 8), Word(block, 9), Word(block, 10), Word(block, 11));
    FieldsOfWords(block, c);
    c
  }

  lemma FieldsOfWords(block: seq<bv8>, c: Calib)
    requires |block| == CalibLength
    requires c == Calib(
      Word(block, 0), Word(block, 1), Word(block, 2), Word(block, 3),
      Word(block, 4), Word(block, 5), Word(block, 6), Word(block, 7),
      Word(block, 8), Word(block, 9), Word(block, 10), Word(block, 11))
    ensures forall i :: 0 <= i < 12 ==> Field(c, i) == Word(block, i)
    ensures ValidCalib(c)
  {
    forall i | 0 <= i < 12
      ensures Field(c, i) == Word(block, i) && InField(i, Field(c, i))
    {
      WordInField(block, i);
    }
  }

  lemma WordInField(block: seq<bv8>, i: nat)
    requires i < 12 && |block| >= 2 * i + 2
    ensures InField(i, Word(block, i))
  {
  }

  /** A 16-bit value as the unsigned word that holds it (two's complement
      for a negative value). */
  function Unsigned16(v: int): (u: int)
    requires -0x8000 <= v < 0x1_0000
    ensures 0 <= u < 0x1_0000
    ensures u == if v < 0 then v + 0x1_0000 else v
  {
    (v + 0x1_0000) % 0x1_0000
  }

  /** The low and high byte of a 16-bit value. */
  function LowByte(v: int): bv8
    requires -0x8000 <= v < 0x1_0000
  {
    (Unsigned16(v) % 0x100) as bv8
  }

  function HighByte(v: int): bv8
    requires -0x8000 <= v < 0x1_0000
  {
    (Unsigned16(v) / 0x100) as bv8
  }

  /** The block the sensor holds for a given record: each coefficient as
      its low byte followed by its high byte. The round-trip lemmas below
      show that it is the inverse of Decode. */
  function Encode(c: Calib): (block: seq<bv8>)
    requires ValidCalib(c)
    ensures |block| == CalibLength
  {
    seq(CalibLength, j requires 0 <= j < CalibLength =>
      if j % 2 == 0 then LowByte(Field(c, j / 2)) else HighByte(Field(c, j / 2)))
  }

  /** Bytes 2i and 2i+1 of the encoded block hold coefficient i. */
  lemma EncodeAt(c: Calib, i: nat)
    requires ValidCalib(c) && i < 12
    ensures Encode(c)[2 * i] == LowByte(Field(c, i))
    ensures Encode(c)[2 * i + 1] == HighByte(Field(c, i))
  {
    assert (2 * i) / 2 == i && (2 * i) % 2 == 0;
    assert (2 * i + 1) / 2 == i && (2 * i + 1) % 2 == 1;
  }

  lemma ByteRange(b: bv8)
    ensures 0 <= b as int < 0x100
  {
  }

  lemma HighBit(hi: bv8)
    ensures hi & 0x80 != 0 <==> hi as int >= 0x80
  {
  }

  lemma WordParts(lo: int, hi: int)
    requires 0 <= lo < 0x100 && 0 <= hi < 0x100
    ensures (lo + 0x100 * hi) % 0x100 == lo && (lo + 0x100 * hi) / 0x100 == hi
  {
  }

  lemma ByteOfInt(x: int)
    requires 0 <= x < 0x100
    ensures (x as bv8) as int == x
  {
    if x < 0x80 {
      if x < 0x40 {} else {}
    } else {
      if x < 0xC0 {} else {}
    }
  }

  lemma IntOfByte(b: bv8)
    ensures (b as int) as bv8 == b
  {
  }

  /** The two bytes of a 16-bit value, read back as a little-endian word,
      give the unsigned word that holds it. */
  lemma U16OfBytes(v: int)
    requires -0x8000 <= v < 0x1_0000
    ensures U16(LowByte(v), HighByte(v)) == Unsigned16(v)
  {
    var u := Unsigned16(v);
    ByteOfInt(u % 0x100);
    ByteOfInt(u / 0x100);
  }

  /** Reading back the two bytes of a coefficient with the signedness of
      its field gives the coefficient. */
  lemma WordOfBytes(i: nat, v: int)
    requires i < 12 && InField(i, v)
    ensures (if IsUnsignedField(i) then U16(LowByte(v), HighByte(v))
             else S16(LowByte(v), HighByte(v))) == v
  {
    U16OfBytes(v);
  }

  /** Each byte of a block is the matching byte of the unsigned word read
      from it. */
  lemma BytesOfU16(lo: bv8, hi: bv8)
    ensures LowByte(U16(lo, hi)) == lo && HighByte(U16(lo, hi)) == hi
  {
    var u := U16(lo, hi);
    assert Unsigned16(u) == u;
    assert u % 0x100 == lo as int && u / 0x100 == hi as int;
    IntOfByte(lo);
    IntOfByte(hi);
  }

  lemma BytesOfS16(lo: bv8, hi: bv8)
    ensures LowByte(S16(lo, hi)) == lo && HighByte(S16(lo, hi)) == hi
  {
    assert Unsigned16(S16(lo, hi)) == U16(lo, hi);
    BytesOfU16(lo, hi);
  }

  /** Two records with the same twelve coefficients are equal. */
  lemma FieldsDetermine(c: Calib, d: Calib)
    requires forall i :: 0 <= i < 12 ==> Field(c, i) == Field(d, i)
    ensures c == d
  {
    assert Field(c, 0) == Field(d, 0) && Field(c, 1) == Field(d, 1) && Field(c, 2) == Field(d, 2);
    assert Field(c, 3) == Field(d, 3) && Field(c, 4) == Field(d, 4) && Field(c, 5) == Field(d, 5);
    assert Field(c, 6) == Field(d, 6) && Field(c, 7) == Field(d, 7) && Field(c, 8) == Field(d, 8);
    assert Field(c, 9) == Field(d, 9) && Field(c, 10) == Field(d, 10) && Field(c, 11) == Field(d, 11);
  }

  /** Encoding a record and decoding the block gives the record back. */
  lemma {:induction false} DecodeEncode(c: Calib)
    requires ValidCalib(c)
    ensures Decode(Encode(c)) == c
  {
    var block := Encode(c);
    var d := Decode(block);
    forall i | 0 <= i < 12
      ensures Field(d, i) == Field(c, i)
    {
      assert Field(d, i) == Word(block, i);
      EncodeAt(c, i);
      WordOfBytes(i, Field(c, i));
    }
    FieldsDetermine(d, c);
  }

  /** Decoding a block and encoding the record gives the block back: no two
      blocks decode to the same record. */
  lemma {:induction false} EncodeDecode(block: seq<bv8>)
    requires |block| == CalibLength
    ensures Encode(Decode(block)) == block
  {
    var e := Encode(Decode(block));
    forall j | 0 <= j < CalibLength
      ensures e[j] == block[j]
    {
      ByteRoundTrip(block, j);
    }
  }

  lemma ByteRoundTrip(block: seq<bv8>, j: nat)
    requires |block| == CalibLength && j < CalibLength
    ensures Encode(Decode(block))[j] == block[j]
  {
    var i := j / 2;
    PairRoundTrip(block, i);
    if j % 2 == 0 {
      assert j == 2 * i;
    } else {
      assert j == 2 * i + 1;
    }
  }

  lemma PairRoundTrip(block: seq<bv8>, i: nat)
    requires |block| == CalibLength && i < 12
    ensures Encode(Decode(block))[2 * i] == block[2 * i]
    ensures Encode(Decode(block))[2 * i + 1] == block[2 * i + 1]
  {
    var c := Decode(block);
    EncodeAt(c, i);
    assert Field(c, i) == Word(block, i);
    if IsUnsignedField(i) {
      BytesOfU16(block[2 * i], block[2 * i + 1]);
    } else {
      BytesOfS16(block[2 * i], block[2 * i + 1]);
    }
  }
}
