/**
 * The sensor's side of the single-wire protocol (am2302.c:33-47 and
 * 175-185), and the end-to-end property of the driver: a well-formed
 * conversion, fed edge by edge through the interrupt handlers, leaves the
 * transmitted bytes in the buffer and decodes to the transmitted reading.
 */
module Wire {
  import opened Api
  import opened Frame
  import opened Machine

  /** The five bytes of a measurement in the order the sensor sends them:
      humidity high, humidity low, temperature high, temperature low (sign
      and magnitude), checksum.  The receiver accepts every such frame. */
  function Transmitted(rh: Uint16, t: int): (w: Buffer)
    requires -0x8000 < t < 0x8000
    ensures ChecksumOk(Reverse(w))
    ensures Humidity(Reverse(w)) == rh && RawTemperature(Reverse(w)) == SignMagnitude(t)
  {
    var m := SignMagnitude(t);
    var b0, b1, b2, b3 := rh / 0x100, rh % 0x100, m / 0x100, m % 0x100;
    [b0, b1, b2, b3, (b0 + b1 + b2 + b3) % 0x100]
  }

  /** The worked example: 65.3 % r.h. and 23.1 degrees Celsius are sent as
      0x02 0x8D 0x00 0xE7 with checksum 0x76. */
  lemma NominalTransmission()
    ensures Transmitted(653, 231) == [0x02, 0x8D, 0x00, 0xE7, 0x76]
  {
  }

  /** The 40 data bits of a frame, in transmission order. */
  function FrameBits(w: Buffer): (bits: seq<bool>)
    ensures |bits| == 40
  {
    BitsOf(w[0]) + BitsOf(w[1]) + BitsOf(w[2]) + BitsOf(w[3]) + BitsOf(w[4])
  }

  /** Byte m of a frame is transmitted as bits 8m .. 8m+7. */
  lemma FrameBitsOfByte(w: Buffer, m: nat)
    requires m < 5
    ensures FrameBits(w)[8 * m .. 8 * m + 8] == BitsOf(w[m])
  {
    var b0, b1, b2, b3, b4 := BitsOf(w[0]), BitsOf(w[1]), BitsOf(w[2]), BitsOf(w[3]), BitsOf(w[4]);
    var bits := b0 + b1 + b2 + b3 + b4;
    if m == 0 {
      assert bits[0..8] == b0;
    } else if m == 1 {
      assert bits[8..16] == b1;
    } else if m == 2 {
      assert bits[16..24] == b2;
    } else if m == 3 {
      assert bits[24..32] == b3;
    } else {
      assert bits[32..40] == b4;
    }
  }

  /** One bit period as the capture unit sees it: the counter value at the
      rising edge that ends the low pulse and at the falling edge that ends
      the high period. */
  datatype Period = Period(low: Uint16, high: Uint16)

  function PeriodEvents(ps: seq<Period>): (evs: seq<Event>)
    ensures |evs| == 2 * |ps|
  {
    if ps == [] then [] else [Edge(ps[0].low), Edge(ps[0].high)] + PeriodEvents(ps[1..])
  }

  /** The high periods of `ps` encode `bits`: longer than the threshold
      exactly for the 1-bits. */
  predicate Carries(ps: seq<Period>, bits: seq<bool>)
  {
    |ps| == |bits| && forall k :: 0 <= k < |ps| ==> (ps[k].high > Threshold <==> bits[k])
  }

  /** The interrupt requests of one conversion after the trigger: the
      overflow that ends the start pulse; the falling edge that ends the
      line's release (no rising edge is captured before it, the capture
      unit being armed with falling-edge selection); the acknowledgement
      period; the data periods, the last falling edge being the sensor's
      final low pulse. */
  function Conversion(release: Uint16, ack: Period, ps: seq<Period>): seq<Event>
  {
    [Wrap, Edge(release), Edge(ack.low), Edge(ack.high)] + PeriodEvents(ps)
  }

  // ---------------------------------------------------------------------
  // The buffer while bits arrive.
  // ---------------------------------------------------------------------

  /** Byte m (in arrival order) after the first n bits were received: the
      bits received so far for it, shifted in MSB first. */
  function PartialByte(bits: seq<bool>, n: nat, m: nat): Byte
    requires |bits| == 40 && n <= 40 && m < 5
  {
    if n <= 8 * m then 0
    else if 8 * m + 8 <= n then Pack(bits[8 * m .. 8 * m + 8])
    else Pack(bits[8 * m .. n])
  }

  /** The receive buffer after the first n bits were received. */
  function Partial(bits: seq<bool>, n: nat): Buffer
    requires |bits| == 40 && n <= 40
  {
    [PartialByte(bits, n, 4), PartialByte(bits, n, 3), PartialByte(bits, n, 2),
     PartialByte(bits, n, 1), PartialByte(bits, n, 0)]
  }

  /** Bit n goes into byte n / 8 (arrival order), extending it by one bit. */
  lemma PartialByteStep(bits: seq<bool>, n: nat)
    requires |bits| == 40 && n < 40
    ensures PartialByte(bits, n + 1, n / 8) == ShiftIn(PartialByte(bits, n, n / 8), bits[n])
  {
    var m := n / 8;
    var grown := bits[8 * m .. n + 1];
    assert grown[..n - 8 * m] == bits[8 * m .. n];
    assert grown[n - 8 * m] == bits[n];
    assert Pack(grown) == ShiftIn(Pack(bits[8 * m .. n]), bits[n]);
    if n == 8 * m {
      assert bits[8 * m .. n] == [];
      assert PartialByte(bits, n, m) == 0 == Pack(bits[8 * m .. n]);
    } else {
      assert PartialByte(bits, n, m) == Pack(bits[8 * m .. n]);
    }
    assert PartialByte(bits, n + 1, m) == Pack(grown);
  }

  /** Receiving bit n, at bit count 39 - n, shifts it into the byte at
      index (39 - n) / 8 and leaves the other bytes as they were. */
  lemma PartialStep(bits: seq<bool>, n: nat)
    requires |bits| == 40 && n < 40
    ensures var i := (39 - n) / 8;
            Partial(bits, n + 1) == Partial(bits, n)[i := ShiftIn(Partial(bits, n)[i], bits[n])]
  {
    var m := n / 8;
    assert (39 - n) / 8 == 4 - m;
    PartialByteStep(bits, n);
    forall m' | 0 <= m' < 5 && m' != m
      ensures PartialByte(bits, n + 1, m') == PartialByte(bits, n, m')
    {
    }
  }

  /** Once all 40 bits of a frame are in, the buffer holds the frame in
      storage order. */
  lemma PartialComplete(w: Buffer)
    ensures Partial(FrameBits(w), 40) == Reverse(w)
  {
    var bits := FrameBits(w);
    forall m | 0 <= m < 5
      ensures PartialByte(bits, 40, m) == w[m]
    {
      FrameBitsOfByte(w, m);
      PackBitsOf(w[m]);
    }
  }

  /** Listening with capture and overflow armed, counter just reset. */
  function Listen(c: BitCount, d: Buffer, rising: bool): (s: State)
    ensures Coherent(s) && PhaseOf(s) == Listening
  {
    State(captureIrq := true, overflowIrq := true, risingEdge := rising, clockOn := true,
          counter := 0, pinLow := false, bitCtr := c, data := d)
  }

  /** Conversion finished: interrupts off, timer stopped. */
  function Done(d: Buffer): (s: State)
    ensures Coherent(s) && PhaseOf(s) == Stopped
  {
    State(captureIrq := false, overflowIrq := false, risingEdge := false, clockOn := false,
          counter := 0, pinLow := false, bitCtr := 0, data := d)
  }

  /** One data period: its rising edge only flips the edge selection, its
      falling edge shifts bit n in and counts down, or, for the last bit,
      ends the conversion. */
  lemma ReceiveOneBit(bits: seq<bool>, n: nat, p: Period)
    requires |bits| == 40 && n < 40
    requires p.high > Threshold <==> bits[n]
    ensures var s1 := Step(Listen(39 - n, Partial(bits, n), true), Edge(p.low));
            && s1 == Listen(39 - n, Partial(bits, n), false)
            && Step(s1, Edge(p.high))
               == if n == 39 then Done(Partial(bits, 40))
                  else Listen(38 - n, Partial(bits, n + 1), true)
  {
    PartialStep(bits, n);
  }

  /** The periods after the first carry the bits after the first. */
  lemma CarriesTail(ps: seq<Period>, bits: seq<bool>)
    requires ps != [] && Carries(ps, bits)
    ensures Carries(ps[1..], bits[1..])
  {
    forall k | 0 <= k < |ps[1..]|
      ensures ps[1..][k].high > Threshold <==> bits[1..][k]
    {
      assert ps[1..][k] == ps[k + 1];
    }
  }

  /** Data periods carrying bits n..39 take the listening state after n
      bits to the finished state holding all 40. */
  lemma {:induction false} ReceiveBits(bits: seq<bool>, n: nat, ps: seq<Period>)
    requires |bits| == 40 && n < 40
    requires Carries(ps, bits[n..])
    ensures Run(Listen(39 - n, Partial(bits, n), true), PeriodEvents(ps)) == Done(Partial(bits, 40))
    decreases 40 - n
  {
    var s := Listen(39 - n, Partial(bits, n), true);
    var s1 := Listen(39 - n, Partial(bits, n), false);
    var s2 := Step(s1, Edge(ps[0].high));
    assert bits[n..][0] == bits[n];
    ReceiveOneBit(bits, n, ps[0]);
    var tail := PeriodEvents(ps[1..]);
    assert PeriodEvents(ps) == [Edge(ps[0].low)] + ([Edge(ps[0].high)] + tail);
    RunCons(s, Edge(ps[0].low), [Edge(ps[0].high)] + tail);
    RunCons(s1, Edge(ps[0].high), tail);
    if n == 39 {
      assert ps[1..] == [];
    } else {
      CarriesTail(ps, bits[n..]);
      assert bits[n..][1..] == bits[n + 1..];
      ReceiveBits(bits, n + 1, ps[1..]);
    }
  }

  /** The frame round trip: trigger a conversion, let the start pulse end,
      and feed the 42 falling edges (the first two in the acknowledgement,
      the next 40 with high periods longer than the threshold exactly for
      the 1-bits) with the rising edges between them.  Whatever the state
      before, the timer ends stopped with the bit count at 0, the buffer
      holds the five bytes in storage order, each MSB first, and the raw
      data read back in arrival order is the frame itself. */
  lemma FrameRoundTrip(s: State, w: Buffer, release: Uint16, ack: Period, ps: seq<Period>)
    requires Carries(ps, FrameBits(w))
    ensures var f := Run(Trigger(s), Conversion(release, ack, ps));
            && f == Done(Reverse(w))
            && PhaseOf(f) == Stopped && f.bitCtr == 0
            && f.data == Reverse(w) && Reverse(f.data) == w
  {
    var bits := FrameBits(w);
    var rest := PeriodEvents(ps);
    var t := Trigger(s);
    var l0 := Listen(41, Zeros, false);
    var l1 := Listen(40, Zeros, true);
    var l2 := Listen(40, Zeros, false);
    var l3 := Listen(39, Zeros, true);
    assert Step(t, Wrap) == l0;
    assert Step(l0, Edge(release)) == l1;
    assert Step(l1, Edge(ack.low)) == l2;
    assert Step(l2, Edge(ack.high)) == l3;
    assert Conversion(release, ack, ps)
        == [Wrap] + ([Edge(release)] + ([Edge(ack.low)] + ([Edge(ack.high)] + rest)));
    RunCons(t, Wrap, [Edge(release)] + ([Edge(ack.low)] + ([Edge(ack.high)] + rest)));
    RunCons(l0, Edge(release), [Edge(ack.low)] + ([Edge(ack.high)] + rest));
    RunCons(l1, Edge(ack.low), [Edge(ack.high)] + rest);
    RunCons(l2, Edge(ack.high), rest);
    assert Partial(bits, 0) == Zeros;
    assert bits[0..] == bits;
    ReceiveBits(bits, 0, ps);
    PartialComplete(w);
    ReverseInvolution(w);
  }

  /** End to end: a measurement sent by the sensor and received edge by
      edge is reported by am2302_get_result as `ok` with the humidity sent
      and, as the driver is written, the temperature sent when it is not
      negative and -32768 when it is; the corrected conversion returns the
      temperature sent in every case. */
  lemma ReadingRoundTrip(s: State, rh: Uint16, t: int, release: Uint16, ack: Period,
                         ps: seq<Period>, temp0: Int16, rh0: Uint16)
    requires -0x8000 < t < 0x8000
    requires Carries(ps, FrameBits(Transmitted(rh, t)))
    ensures var f := Run(Trigger(s), Conversion(release, ack, ps));
            && Result(f, temp0, rh0) == Outcome(Ok, if t < 0 then -0x8000 else t, rh)
            && DecodeCorrected(f.data) == Reading(t, rh)
  {
    var w := Transmitted(rh, t);
    FrameRoundTrip(s, w, release, ack, ps);
    AsWrittenOnEncodedTemperature(t);
    SignMagnitudeRoundTrip(t);
  }
}
