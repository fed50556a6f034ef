/**
 * The arithmetic of am2302.c over the 5-byte receive buffer: shifting one
 * received bit into a byte (the capture handler), the checksum test and the
 * unpacking of humidity and temperature (am2302_get_result), and the
 * reversal between arrival order and storage order (am2302_get_raw_data).
 */
module Frame {
  import opened Api

  /** `am2302_data[5]`.  Bytes are stored backwards: the first byte received
      (humidity high byte) is at index 4, the checksum at index 0. */
  type Buffer = d: seq<Byte> | |d| == 5 witness [0, 0, 0, 0, 0]

  const Zeros: Buffer := [0, 0, 0, 0, 0]

  /** High periods longer than this many timer ticks are 1-bits. */
  const Threshold := 800

  // ---------------------------------------------------------------------
  // Bits: the capture handler shifts each bit into its byte, MSB first.
  // ---------------------------------------------------------------------

  /** `byte <<= 1` on a `char` followed by an optional `|= 1`: the old top
      bit falls off, the other seven move up, the new bit enters at the
      bottom. */
  function ShiftIn(b: Byte, bit: bool): (r: Byte)
    ensures r % 2 == (if bit then 1 else 0)
    ensures r / 2 == b % 0x80
  {
    (b as int * 2) % 0x100 + (if bit then 1 else 0)
  }

  /** The byte obtained by shifting `bits` into a zeroed byte, first bit
      first. */
  function Pack(bits: seq<bool>): Byte
    decreases |bits|
  {
    if bits == [] then 0
    else ShiftIn(Pack(bits[..|bits| - 1]), bits[|bits| - 1])
  }

  /** The eight bits of `b`, most significant first: the order in which the
      sensor transmits them. */
  function BitsOf(b: Byte): (bits: seq<bool>)
    ensures |bits| == 8
  {
    [ b / 0x80 % 2 == 1, b / 0x40 % 2 == 1, b / 0x20 % 2 == 1, b / 0x10 % 2 == 1,
      b / 0x08 % 2 == 1, b / 0x04 % 2 == 1, b / 0x02 % 2 == 1, b % 2 == 1 ]
  }

  /** Packing one more bit shifts it into the packed prefix. */
  lemma PackSnoc(bits: seq<bool>, k: nat)
    requires k < |bits|
    ensures Pack(bits[..k + 1]) == ShiftIn(Pack(bits[..k]), bits[k])
  {
    assert bits[..k + 1][..k] == bits[..k];
  }

  /** If the first k bits pack into the upper bits of q and bit k is the
      lowest bit of q, the first k + 1 bits pack into q. */
  lemma PackStep(bits: seq<bool>, k: nat, q: Byte)
    requires k < |bits|
    requires Pack(bits[..k]) == q / 2 && bits[k] == (q % 2 == 1)
    ensures Pack(bits[..k + 1]) == q
  {
    PackSnoc(bits, k);
  }

  /** The first four bits of a byte pack into its upper nibble. */
  lemma PackUpperNibble(b: Byte)
    ensures Pack(BitsOf(b)[..4]) == b / 0x10
  {
    var bs := BitsOf(b);
    assert bs[..0] == [];
    PackStep(bs, 0, b / 0x80);
    PackStep(bs, 1, b / 0x40);
    PackStep(bs, 2, b / 0x20);
    PackStep(bs, 3, b / 0x10);
  }

  /** Shifting in the bits of a byte, MSB first, rebuilds that byte. */
  lemma PackBitsOf(b: Byte)
    ensures Pack(BitsOf(b)) == b
  {
    var bs := BitsOf(b);
    PackUpperNibble(b);
    PackStep(bs, 4, b / 0x08);
    PackStep(bs, 5, b / 0x04);
    PackStep(bs, 6, b / 0x02);
    PackStep(bs, 7, b);
    assert bs[..8] == bs;
  }

  // ---------------------------------------------------------------------
  // Result decoding (am2302_get_result, after the timer checks).
  // ---------------------------------------------------------------------

  /** The checksum the received bytes call for: the sum of the four payload
      bytes truncated to 8 bits. */
  function Checksum(d: Buffer): Byte
  {
    (d[4] as int + d[3] + d[2] + d[1]) % 0x100
  }

  predicate ChecksumOk(d: Buffer)
  {
    Checksum(d) == d[0]
  }

  /** Relative humidity in 0.1 % r.h.: bytes 4 and 3, big-endian. */
  function Humidity(d: Buffer): Uint16
  {
    d[4] as int * 0x100 + d[3]
  }

  /** The 16-bit temperature field: bytes 2 and 1, big-endian; bit 15 is the
      sign, bits 14..0 the magnitude in 0.1 degrees Celsius. */
  function RawTemperature(d: Buffer): Uint16
  {
    d[2] as int * 0x100 + d[1]
  }

  /** The temperature field as the driver converts it.  The sign test is
      right, but the sign bit is "cleared" by masking with 0x8000 instead of
      0x7FFF, which keeps only the sign bit: every negative reading becomes
      -32768.  Modelled literally (`val & 0x8000` is `val / 0x8000 * 0x8000`
      for a 16-bit `val`). */
  function TemperatureAsWritten(val: Uint16): (t: Int16)
    ensures val < 0x8000 ==> t == val
    ensures val >= 0x8000 ==> t == -0x8000
  {
    if val / 0x8000 == 1 then
      var masked := val / 0x8000 * 0x8000;
      -masked
    else
      val
  }

  /** Sign-magnitude encoding of a temperature, as the sensor sends it. */
  function SignMagnitude(t: int): (val: Uint16)
    requires -0x8000 < t < 0x8000
  {
    if t < 0 then 0x8000 - t else t
  }

  /** The evidently intended conversion: clear the sign bit (mask 0x7FFF)
      and negate the magnitude.  Re-encoding the result gives the field
      back, except for "negative zero" 0x8000, which reads as 0. */
  function TemperatureSignMagnitude(val: Uint16): (t: Int16)
    ensures -0x8000 < t
    ensures SignMagnitude(t) == val || (val == 0x8000 && t == 0)
  {
    if val / 0x8000 == 1 then -(val % 0x8000) else val
  }

  /** Every temperature the sensor can encode is decoded back exactly by the
      sign-magnitude conversion. */
  lemma SignMagnitudeRoundTrip(t: int)
    requires -0x8000 < t < 0x8000
    ensures TemperatureSignMagnitude(SignMagnitude(t)) == t
  {
  }

  /** The as-written conversion is exact for non-negative temperatures and
      returns -32768 for every negative one. */
  lemma AsWrittenOnEncodedTemperature(t: int)
    requires -0x8000 < t < 0x8000
    ensures TemperatureAsWritten(SignMagnitude(t)) == if t < 0 then -0x8000 else t
  {
  }

  /** The decoded content of a finished buffer. */
  datatype Decoded = BadChecksum | Reading(temp: Int16, rh: Uint16)

  /** What am2302_get_result computes from the buffer once the timer has
      stopped without timeout. */
  function DecodeAsWritten(d: Buffer): (r: Decoded)
  {
    if !ChecksumOk(d) then BadChecksum
    else Reading(TemperatureAsWritten(RawTemperature(d)), Humidity(d))
  }

  /** The same decoding with the sign-magnitude conversion corrected. */
  function DecodeCorrected(d: Buffer): (r: Decoded)
  {
    if !ChecksumOk(d) then BadChecksum
    else Reading(TemperatureSignMagnitude(RawTemperature(d)), Humidity(d))
  }

  /** Both decoders reject exactly the buffers with a bad checksum, read the
      same humidity, and agree on every non-negative temperature. */
  lemma DecodersAgree(d: Buffer)
    ensures DecodeAsWritten(d).BadChecksum? <==> !ChecksumOk(d)
    ensures DecodeCorrected(d).BadChecksum? <==> !ChecksumOk(d)
    ensures ChecksumOk(d) ==> DecodeAsWritten(d).rh == DecodeCorrected(d).rh == Humidity(d)
    ensures ChecksumOk(d) && RawTemperature(d) < 0x8000 ==> DecodeAsWritten(d) == DecodeCorrected(d)
    ensures ChecksumOk(d) && RawTemperature(d) > 0x8000 ==>
              DecodeAsWritten(d).temp == -0x8000 != DecodeCorrected(d).temp
  {
  }

  /** Changing any one byte of a buffer whose checksum holds makes the
      checksum fail: a single corrupted byte is always reported. */
  lemma SingleByteCorruptionDetected(d: Buffer, i: int, b: Byte)
    requires ChecksumOk(d)
    requires 0 <= i < 5 && b != d[i]
    ensures !ChecksumOk(d[i := b])
  {
    var e: Buffer := d[i := b];
    if i != 0 {
      var s := d[4] as int + d[3] + d[2] + d[1];
      var s' := e[4] as int + e[3] + e[2] + e[1];
      assert s' == s + (b - d[i]);
      assert e[0] == d[0];
    }
  }

  // ---------------------------------------------------------------------
  // Storage order (am2302.c:175-178, am2302_get_raw_data).
  // ---------------------------------------------------------------------

  /** Converts between arrival order and storage order: index i of one is
      index 4 - i of the other. */
  function Reverse(d: Buffer): (r: Buffer)
    ensures forall i :: 0 <= i < 5 ==> r[i] == d[4 - i]
  {
    [d[4], d[3], d[2], d[1], d[0]]
  }

  /** The conversion is its own inverse. */
  lemma ReverseInvolution(d: Buffer)
    ensures Reverse(Reverse(d)) == d
  {
  }

  /** The worked example: bytes 0x02 0x8D 0x00 0xE7 0x76 arriving in that
      order are a valid frame for 65.3 % r.h. and 23.1 degrees Celsius. */
  lemma NominalFrame()
    ensures DecodeAsWritten(Reverse([0x02, 0x8D, 0x00, 0xE7, 0x76])) == Reading(231, 653)
  {
  }

  /** The literal mask at work: a frame for -0.1 degrees Celsius (field
      0x8001) passes the checksum and decodes to -32768 instead of -1. */
  lemma NegativeReadingCollapses()
    ensures DecodeAsWritten(Reverse([0x02, 0x8D, 0x80, 0x01, 0x10])) == Reading(-0x8000, 653)
    ensures DecodeCorrected(Reverse([0x02, 0x8D, 0x80, 0x01, 0x10])) == Reading(-1, 653)
  {
  }
}
