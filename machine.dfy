/**
 * The driver of am2302.c as a state machine over values.  A `State` holds
 * the part of the timer/GPIO registers the driver uses together with the
 * static `am2302_bit_ctr` and `am2302_data[5]`; each public operation and
 * each interrupt handler is a function from state to state.  The class in
 * module Driver updates the same state in place and is proved to follow
 * these functions; the properties of the protocol are proved here, once.
 */
module Machine {
  import opened Api
  import opened Frame

  /** `am2302_bit_ctr`: 41 and 40 count the two acknowledgement periods,
      39..0 the data bits still to come. */
  type BitCount = x: int | 0 <= x <= 41

  /** Length of the start pulse in timer ticks (am2302.c:162-167). */
  const StartPulseTicks := 1280

  /** Counter value the overflow handler leaves behind on a timeout. */
  const TimeoutMark: Uint16 := 0xFFFF

  /** Value `am2302_bit_ctr` is reset to by a trigger. */
  const AckBits: BitCount := 41

  /** Registers and driver state.
      captureIrq  -- TIMSK1.ICIE1, the capture interrupt is enabled
      overflowIrq -- TIMSK1.TOIE1, the overflow interrupt is enabled
      risingEdge  -- TCCR1B.ICES1, the capture unit fires on a rising edge
      clockOn     -- TCCR1B.CS10, the timer is counting
      counter     -- TCNT1
      pinLow      -- DDRD bit 4, the data line is driven low */
  datatype State = State(
    captureIrq: bool,
    overflowIrq: bool,
    risingEdge: bool,
    clockOn: bool,
    counter: Uint16,
    pinLow: bool,
    bitCtr: BitCount,
    data: Buffer)

  /** The conversion phase, which the C code leaves implicit in the
      registers.  `Stopped` covers both "never started" and "frame
      complete": the registers do not tell them apart. */
  datatype Phase = Stopped | DrivingStartPulse | Listening | TimedOut

  /** Register combinations every operation keeps: the capture unit only
      fires on a rising edge while it is armed, it is only armed while the
      overflow interrupt is, the overflow interrupt is enabled exactly while
      the timer runs, and the line is driven low exactly during the start
      pulse. */
  predicate Coherent(s: State)
  {
    && (s.risingEdge ==> s.captureIrq)
    && (s.captureIrq ==> s.overflowIrq)
    && s.overflowIrq == s.clockOn
    && s.pinLow == (s.clockOn && !s.captureIrq)
  }

  function PhaseOf(s: State): Phase
  {
    if s.captureIrq then Listening
    else if s.clockOn then DrivingStartPulse
    else if s.counter == TimeoutMark then TimedOut
    else Stopped
  }

  /** State at reset: static storage is zero and so are TIMSK1, TCCR1B,
      TCNT1 and DDRD. */
  const PowerOn: State := State(false, false, false, false, 0, false, 0, Zeros)

  /** `TCCR1B != 0`, the test am2302_get_result makes for "still running". */
  predicate TimerControlSet(s: State)
  {
    s.risingEdge || s.clockOn
  }

  /** am2302_get_result, with the caller's `temp` and `rh` passed in so that
      "not written" can be stated.  Status precedence: ongoing, then
      timeout, then checksum, then ok. */
  function Result(s: State, temp0: Int16, rh0: Uint16): (r: Outcome)
    ensures r.status != Ok ==> r.temp == temp0 && r.rh == rh0
    ensures Coherent(s) ==>
              (r.status == Ongoing <==> PhaseOf(s) == DrivingStartPulse || PhaseOf(s) == Listening)
    ensures Coherent(s) ==> (r.status == Timeout <==> PhaseOf(s) == TimedOut)
    ensures Coherent(s) ==> (r.status == Crc <==> PhaseOf(s) == Stopped && !ChecksumOk(s.data))
    ensures r.status == Ok ==> ChecksumOk(s.data) && DecodeAsWritten(s.data) == Reading(r.temp, r.rh)
  {
    if TimerControlSet(s) then Outcome(Ongoing, temp0, rh0)
    else if s.counter == TimeoutMark then Outcome(Timeout, temp0, rh0)
    else
      match DecodeAsWritten(s.data)
      case BadChecksum => Outcome(Crc, temp0, rh0)
      case Reading(t, h) => Outcome(Ok, t, h)
  }

  /** am2302_init: both interrupts off, timer stopped (which also clears
      the edge selection), line released.  Counter, bit counter and buffer
      are left as they are. */
  function Reset(s: State): (r: State)
    ensures Coherent(r)
    ensures PhaseOf(r) == Stopped || PhaseOf(r) == TimedOut
    ensures r.counter == s.counter && r.bitCtr == s.bitCtr && r.data == s.data
    ensures forall t0, h0 :: Result(r, t0, h0).status != Ongoing
  {
    s.(captureIrq := false, overflowIrq := false, risingEdge := false, clockOn := false,
       pinLow := false)
  }

  /** am2302_init is idempotent. */
  lemma ResetIdempotent(s: State)
    ensures Reset(Reset(s)) == Reset(s)
  {
  }

  /** am2302_trigger_read: bit counter 41, buffer zeroed, capture off,
      overflow on, line driven low, falling-edge selection, counter preloaded
      so that it overflows after the start pulse, timer running.  It returns
      at once: afterwards a poll reports `ongoing`. */
  function Trigger(s: State): (r: State)
    ensures Coherent(r) && PhaseOf(r) == DrivingStartPulse
    ensures r.bitCtr == AckBits && r.data == Zeros
    ensures r.counter + StartPulseTicks == 0x1_0000
    ensures !r.risingEdge
    ensures forall t0, h0 :: Result(r, t0, h0).status == Ongoing
  {
    State(captureIrq := false, overflowIrq := true, risingEdge := false, clockOn := true,
          counter := 0x1_0000 - StartPulseTicks, pinLow := true, bitCtr := AckBits,
          data := Zeros)
  }

  /** A trigger discards whatever conversion was in flight: its outcome does
      not depend on the state it starts from. */
  lemma TriggerForgetsPast(s: State, s': State)
    ensures Trigger(s) == Trigger(s')
  {
  }

  /** TIMER1_OVF_vect.  With the capture interrupt still off it ends the
      start pulse: counter 0, line released, capture armed, timer left
      running.  With capture armed it is a timeout: both interrupts off,
      timer stopped, counter set to the timeout mark.  The bit counter and
      the buffer are never touched. */
  function Overflow(s: State): (r: State)
    requires s.overflowIrq
    ensures r.bitCtr == s.bitCtr && r.data == s.data
    ensures Coherent(s) ==> Coherent(r)
    ensures Coherent(s) && PhaseOf(s) == DrivingStartPulse ==>
              PhaseOf(r) == Listening && r.counter == 0 && !r.pinLow && r.clockOn
              && r.risingEdge == s.risingEdge
    ensures PhaseOf(s) == Listening ==>
              PhaseOf(r) == TimedOut && forall t0, h0 :: Result(r, t0, h0).status == Timeout
  {
    if !s.captureIrq then
      s.(counter := 0, pinLow := false, captureIrq := true)
    else
      s.(captureIrq := false, overflowIrq := false, risingEdge := false, clockOn := false,
         counter := TimeoutMark)
  }

  /** TIMER1_CAPT_vect, `cnt` being the value of TCNT1 when the edge was
      captured.  Every event resets the counter.  A rising-edge event only
      switches to falling-edge selection.  A falling-edge event switches to
      rising-edge selection; unless the counter is in the acknowledgement
      range it shifts one bit (1 iff `cnt` exceeds the threshold) into byte
      `bitCtr / 8` and leaves the other bytes alone; then it counts down, or,
      with the count already 0, stops the timer and disables both
      interrupts, which ends the conversion. */
  function Capture(s: State, cnt: Uint16): (r: State)
    requires s.captureIrq
    ensures Coherent(s) ==> Coherent(r)
    ensures r.counter == 0
    ensures s.risingEdge ==> r == s.(counter := 0, risingEdge := false)
    ensures !s.risingEdge ==>
              r.bitCtr == (if s.bitCtr == 0 then 0 else s.bitCtr - 1)
              && (PhaseOf(r) == Listening <==> s.bitCtr != 0)
              && (PhaseOf(r) == Listening ==> r.risingEdge)
              && (s.bitCtr == 0 ==> PhaseOf(r) == Stopped)
    ensures !s.risingEdge && s.bitCtr < 40 ==>
              r.data[s.bitCtr / 8] == ShiftIn(s.data[s.bitCtr / 8], cnt > Threshold)
    ensures forall i :: 0 <= i < 5 && (s.risingEdge || s.bitCtr >= 40 || i != s.bitCtr / 8) ==>
              r.data[i] == s.data[i]
  {
    var s1 := s.(counter := 0);
    if s.risingEdge then
      s1.(risingEdge := false)
    else
      var s2 := s1.(risingEdge := true);
      var s3 :=
        if s.bitCtr < 40 then
          var i := s.bitCtr / 8;
          s2.(data := s.data[i := ShiftIn(s.data[i], cnt > Threshold)])
        else s2;
      if s.bitCtr == 0 then
        // `goto disable_irqs`; `TCCR1B = 0` also clears ICES1 again
        s3.(captureIrq := false, overflowIrq := false, risingEdge := false, clockOn := false)
      else
        s3.(bitCtr := s.bitCtr - 1)
  }

  /** The classification threshold: a high period of exactly 800 ticks is a
      0-bit, one of 801 ticks a 1-bit. */
  lemma ThresholdBoundary(s: State)
    requires s.captureIrq && !s.risingEdge && s.bitCtr < 40
    ensures Capture(s, 800).data[s.bitCtr / 8] % 2 == 0
    ensures Capture(s, 801).data[s.bitCtr / 8] % 2 == 1
  {
  }

  // ---------------------------------------------------------------------
  // Runs of interrupt events.
  // ---------------------------------------------------------------------

  /** An interrupt request from the hardware: a captured edge, with the
      counter value at that moment, or a counter overflow. */
  datatype Event = Edge(cnt: Uint16) | Wrap

  /** The hardware only vectors to a handler whose interrupt is enabled;
      a request for a disabled one leaves the state alone. */
  function Step(s: State, e: Event): State
  {
    match e
    case Edge(cnt) => if s.captureIrq then Capture(s, cnt) else s
    case Wrap => if s.overflowIrq then Overflow(s) else s
  }

  /** The state after the handlers for `evs` have run in order.  Any run
      keeps the registers coherent and never raises the bit counter. */
  function Run(s: State, evs: seq<Event>): (r: State)
    ensures Coherent(s) ==> Coherent(r)
    ensures r.bitCtr <= s.bitCtr
    decreases |evs|
  {
    if evs == [] then s else Run(Step(s, evs[0]), evs[1..])
  }

  lemma RunCons(s: State, e: Event, rest: seq<Event>)
    ensures Run(s, [e] + rest) == Run(Step(s, e), rest)
  {
    assert ([e] + rest)[1..] == rest;
  }

  lemma {:induction false} RunAppend(s: State, a: seq<Event>, b: seq<Event>)
    ensures Run(s, a + b) == Run(Run(s, a), b)
    decreases |a|
  {
    if a != [] {
      assert (a + b)[0] == a[0];
      assert (a + b)[1..] == a[1..] + b;
      RunAppend(Step(s, a[0]), a[1..], b);
    } else {
      assert a + b == b;
    }
  }

  /** What holds from a trigger on: the registers are coherent, and the
      timer stops without the timeout mark only once all 40 bits are in. */
  predicate InConversion(s: State)
  {
    Coherent(s) && (PhaseOf(s) == Stopped ==> s.bitCtr == 0)
  }

  lemma StepKeepsConversion(s: State, e: Event)
    requires InConversion(s)
    ensures InConversion(Step(s, e))
  {
  }

  lemma {:induction false} RunKeepsConversion(s: State, evs: seq<Event>)
    requires InConversion(s)
    ensures InConversion(Run(s, evs))
    decreases |evs|
  {
    if evs != [] {
      StepKeepsConversion(s, evs[0]);
      RunKeepsConversion(Step(s, evs[0]), evs[1..]);
    }
  }

  /** Whatever edges and overflows follow a trigger -- missing, extra or
      mistimed ones included -- a poll that reports `ok` or `crc` comes
      after all 40 data bits were received, so the bit count read by
      am2302_get_raw_data is 0; an interrupted reception ends in `ongoing`
      or, after the next overflow, in `timeout`. */
  lemma CompletedOnlyWithAllBits(s: State, evs: seq<Event>, t0: Int16, h0: Uint16)
    ensures var r := Run(Trigger(s), evs);
            Result(r, t0, h0).status in {Ok, Crc} ==> r.bitCtr == 0
  {
    RunKeepsConversion(Trigger(s), evs);
  }

  /** Without a trigger the buffer still decodes: at power-on, and after
      am2302_init, a poll reports `ok` with 0 % r.h. and 0 degrees. */
  lemma ResultBeforeFirstTrigger(t0: Int16, h0: Uint16)
    ensures Result(PowerOn, t0, h0) == Outcome(Ok, 0, 0)
    ensures Result(Reset(PowerOn), t0, h0) == Outcome(Ok, 0, 0)
  {
  }
}
