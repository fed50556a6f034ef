/**
 * am2302.c as the C code runs it: the registers and the static bit counter
 * and buffer are fields updated in place by the two interrupt handlers and
 * the three foreground operations.  Each method is proved to take the state
 * exactly as the corresponding function of module Machine says, so every
 * property proved there holds of the driver.
 */
module Driver {
  import opened Api
  import opened Frame
  import opened Machine

  class Am2302 {
    var captureIrq: bool   // TIMSK1.ICIE1
    var overflowIrq: bool  // TIMSK1.TOIE1
    var risingEdge: bool   // TCCR1B.ICES1
    var clockOn: bool      // TCCR1B.CS10
    var counter: Uint16    // TCNT1
    var pinLow: bool       // DDRD bit 4
    var bitCtr: BitCount   // am2302_bit_ctr
    const data: array<Byte>  // am2302_data

    /** The whole driver state as a value. */
    function Snapshot(): State
      reads this, data
      requires data.Length == 5
    {
      State(captureIrq, overflowIrq, risingEdge, clockOn, counter, pinLow, bitCtr, data[..])
    }

    ghost predicate Valid()
      reads this, data
    {
      data.Length == 5 && Coherent(Snapshot())
    }

    /** Reset: zeroed statics, registers at their reset value. */
    constructor ()
      ensures Valid() && fresh(data)
      ensures Snapshot() == PowerOn
    {
      captureIrq, overflowIrq := false, false;
      risingEdge, clockOn := false, false;
      counter, pinLow, bitCtr := 0, false, 0;
      data := new Byte[5](_ => 0);
    }

    /** am2302_init. */
    method Init()
      requires Valid()
      modifies this
      ensures Valid() && Snapshot() == Reset(old(Snapshot()))
    {
      captureIrq, overflowIrq := false, false;
      risingEdge, clockOn := false, false;  // TCCR1B = 0
      pinLow := false;
    }

    /** am2302_trigger_read. */
    method TriggerRead()
      requires Valid()
      modifies this, data
      ensures Valid() && Snapshot() == Trigger(old(Snapshot()))
    {
      bitCtr := AckBits;
      var i := 0;
      while i < data.Length
        invariant 0 <= i <= data.Length
        invariant forall k :: 0 <= k < i ==> data[k] == 0
        modifies data
      {
        data[i] := 0;
        i := i + 1;
      }
      captureIrq, overflowIrq := false, false;
      risingEdge, clockOn := false, false;  // TCCR1B = 0
      counter := 0x1_0000 - StartPulseTicks;
      overflowIrq := true;
      pinLow := true;
      clockOn := true;  // TCCR1B = CS10, edge selection left falling
    }

    /** TIMER1_OVF_vect; the hardware runs it only while the overflow
        interrupt is enabled. */
    method OnOverflow()
      requires Valid() && overflowIrq
      modifies this
      ensures Valid() && Snapshot() == Overflow(old(Snapshot()))
    {
      if !captureIrq {
        // end of the start pulse
        counter := 0;
        pinLow := false;
        captureIrq := true;
        return;
      }
      // timeout
      captureIrq, overflowIrq := false, false;
      risingEdge, clockOn := false, false;  // TCCR1B = 0
      counter := TimeoutMark;
    }

    /** TIMER1_CAPT_vect; `cnt` is the value of TCNT1 read on entry.  The
        hardware runs it only while the capture interrupt is enabled. */
    method OnCapture(cnt: Uint16)
      requires Valid() && captureIrq
      modifies this, data
      ensures Valid() && Snapshot() == Capture(old(Snapshot()), cnt)
    {
      counter := 0;
      if risingEdge {
        risingEdge := false;
        return;
      }
      risingEdge := true;
      if bitCtr < 40 {
        var i := bitCtr / 8;
        var shifted := (data[i] as int * 2) % 0x100;  // `<<= 1` on a char
        if cnt > Threshold {
          shifted := shifted + 1;                      // `|= 1` on an even value
        }
        data[i] := shifted;
      }
      if bitCtr == 0 {
        // disable_irqs
        captureIrq, overflowIrq := false, false;
        risingEdge, clockOn := false, false;  // TCCR1B = 0
        return;
      }
      bitCtr := bitCtr - 1;
    }

    /** am2302_get_raw_data: copies the buffer into `buf` in arrival order
        and returns the number of bits still to be received. */
    method GetRawData(buf: array<Byte>) returns (remaining: BitCount)
      requires Valid() && buf.Length >= 5 && buf != data
      modifies buf
      ensures buf[..5] == Reverse(data[..])
      ensures buf[5..] == old(buf[5..])
      ensures remaining == bitCtr
    {
      var i := 0;
      while i < 5
        invariant 0 <= i <= 5
        invariant forall k :: 0 <= k < i ==> buf[k] == data[4 - k]
        invariant buf[5..] == old(buf[5..])
      {
        buf[i] := data[4 - i];
        i := i + 1;
      }
      remaining := bitCtr;
    }

    /** am2302_get_result; `temp0` and `rh0` are the values the caller's
        `*temp` and `*rh` hold before the call, and `temp`, `rh` the values
        they hold after it. */
    method GetResult(temp0: Int16, rh0: Uint16) returns (status: Status, temp: Int16, rh: Uint16)
      requires Valid()
      ensures Outcome(status, temp, rh) == Result(Snapshot(), temp0, rh0)
    {
      status, temp, rh := Ongoing, temp0, rh0;
      if risingEdge || clockOn {  // TCCR1B != 0
        return;
      }
      if counter == TimeoutMark {
        status := Timeout;
        return;
      }
      if (data[4] as int + data[3] + data[2] + data[1]) % 0x100 != data[0] {
        status := Crc;
        return;
      }
      rh := data[4] as int * 0x100 + data[3];
      var val := data[2] as int * 0x100 + data[1];
      if val / 0x8000 == 1 {      // val & 0x8000
        val := val / 0x8000 * 0x8000;  // val &= 0x8000, as written
        temp := -val;
      } else {
        temp := val;
      }
      status := Ok;
    }
  }

  /** A caller's view: trigger a read, let the start pulse end, and poll:
      the conversion is still in progress, and the caller's variables are
      left as they were. */
  method PollAfterTrigger(sensor: Am2302, temp0: Int16, rh0: Uint16)
      returns (status: Status, temp: Int16, rh: Uint16)
    requires sensor.Valid()
    modifies sensor, sensor.data
    ensures status == Ongoing && temp == temp0 && rh == rh0
  {
    sensor.TriggerRead();
    status, temp, rh := sensor.GetResult(temp0, rh0);
    assert status == Ongoing;
    sensor.OnOverflow();
    status, temp, rh := sensor.GetResult(temp0, rh0);
  }
}
