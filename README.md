# AM2302 single-wire sensor driver, modelled in Dafny

The driver (`am2302.c`, `am2302.h`) reads an AM2302 humidity/temperature
sensor through Timer/Counter 1 of an AVR and its input-capture unit. A
trigger drives the data line low for a start pulse of 1280 timer ticks. The
overflow interrupt then releases the line and arms edge capture. The capture
interrupt alternates between falling- and rising-edge selection. On every
falling edge it classifies the high period just ended: more than 800 ticks
is a 1-bit. The bits are shifted MSB first into a 5-byte buffer that is
filled backwards. A bit counter runs from 41 to 0; 41 and 40 are the
sensor's acknowledgement and store nothing. A second overflow while
listening is a timeout. It stops the timer and leaves 0xFFFF in the counter
as a mark. Polling `am2302_get_result` reports `ongoing` while the timer
runs, then `timeout`, then a checksum error, and otherwise unpacks humidity
and temperature.

The project has five modules:

- `Api` (`api.dfy`): the header. The result enumeration and its C values,
  the integer widths at the interface, and `Outcome` (status plus the two
  out-parameters).
- `Frame` (`frame.dfy`): buffer arithmetic. Shifting a bit into a byte,
  checksum, humidity, the temperature conversion as written and corrected,
  and storage order.
- `Machine` (`machine.dfy`): the driver as a state machine over a `State`
  value. It holds the registers the driver uses (ICIE1, TOIE1, ICES1, CS10,
  TCNT1, DDRD bit 4), the bit counter and the buffer. Each operation and
  each handler is a function, and runs of interrupt events are folds over
  them.
- `Driver` (`driver.dfy`): the same driver as a class. Its fields are
  updated in place, the buffer is an `array`, and the two index loops of the
  C code are `while` loops. Every method ensures
  `Snapshot() == Machine.<op>(old(Snapshot()))`, so the lemmas of `Machine`
  and `Wire` hold of it.
- `Wire` (`wire.dfy`): the sensor's side of the protocol and the end-to-end
  round trip through the handlers.

Facts that come from the code rather than from its comments:

- After the start pulse the capture unit is armed with falling-edge
  selection, because `TCCR1B = _BV(CS10)` clears ICES1. The first captured
  event is therefore the falling edge that ends the released line's high
  period, and no rising edge is captured before it. A conversion is 42
  falling edges with 41 rising edges between them (`Wire.Conversion`).
- The terminal falling edge sets ICES1, and `TCCR1B = 0` clears it again.
  On that event the edge selection does not toggle.
- `am2302_get_result` tests `TCCR1B != 0`. That is ICES1 or CS10, and the
  model keeps both bits. The invariant `Machine.Coherent`, kept by every operation, says that ICES1 is never set
  while the timer is stopped, so the test means "timer running".
- The comment at am2302.c:33 gives the start pulse as a nominal 1 ms. The
  code preloads the counter with 65536 - 1280, and the model uses 1280.
- Bytes are modelled as unsigned 0..255. The buffer is declared plain
  `char`, so this assumes a build in which `char` is unsigned. With a signed
  `char`, lines 196-204 would sign-extend bytes of 0x80 and above, and the
  comparison at line 197 would fail for every checksum of 0x80 or more.
- Before any trigger the statics are zero and so is TCNT1. A poll then
  reports `ok` with 0 and 0 (`Machine.ResultBeforeFirstTrigger`).

## Model

| member | source | states |
|---|---|---|
| `Api.StatusOfCode` | am2302.h:6-11 | exactly the C values 0..3 name an enumerator |
| `Api.StatusCode` | am2302.h:6-11 | the four outcomes are numbered 0..3 one-to-one, and decoding the number gives the outcome back |
| `Frame.ShiftIn` | am2302.c:94-98 | shift left then OR in the bit: the new bit is the lowest bit, the old top bit is lost, and the other seven bits move up |
| `Frame.PackStep` | am2302.c:94-98 | shifting the next bit into the byte packed so far extends the packed prefix by that bit |
| `Frame.PackUpperNibble` | am2302.c:90-97 | the first four bits of a byte, shifted in MSB first, give its upper nibble |
| `Frame.PackBitsOf` | am2302.c:90-97 | shifting in the eight bits of a byte, MSB first, rebuilds that byte |
| `Frame.TemperatureAsWritten` | am2302.c:204-210 | a field below 0x8000 is returned as is, and every field with bit 15 set becomes -32768 |
| `Frame.TemperatureSignMagnitude` | am2302.c:180-183 | the corrected conversion inverts the sensor's sign-magnitude encoding, except that negative zero reads as 0 |
| `Frame.SignMagnitudeRoundTrip` | am2302.c:180-183 | every encodable temperature decodes back exactly under the corrected conversion |
| `Frame.AsWrittenOnEncodedTemperature` | am2302.c:204-210 | the driver's conversion is exact for temperatures >= 0 and gives -32768 for every negative one |
| `Frame.DecodersAgree` | am2302.c:196-210 | both decoders reject exactly the bad checksums, read the same humidity, agree below bit 15, and differ above 0x8000 |
| `Frame.SingleByteCorruptionDetected` | am2302.c:196-198 | changing any single byte of a buffer whose checksum holds makes the checksum fail |
| `Frame.Reverse` | am2302.c:175-178 | storage index i holds arrival index 4 - i |
| `Frame.ReverseInvolution` | am2302.h:19-22 | reading the buffer back in arrival order undoes the storage order |
| `Frame.NominalFrame` | am2302.c:196-210 | 0x02 0x8D 0x00 0xE7 0x76 passes the checksum and decodes to 653 and 231 |
| `Frame.NegativeReadingCollapses` | am2302.c:204-207 | a valid frame for -0.1 degrees decodes to -32768 as written and to -1 when corrected |
| `Machine.Result` | am2302.c:187-213 | status precedence: `ongoing` exactly while the start pulse or listening is in progress, otherwise `timeout` exactly after a timeout, otherwise `crc` exactly when the checksum fails, otherwise `ok` with the decoded reading; `*temp` and `*rh` are written only on `ok` |
| `Machine.Reset` | am2302.c:216-226 | init leaves no conversion running and keeps the registers coherent; counter, bit counter and buffer are unchanged |
| `Machine.ResetIdempotent` | am2302.c:216-226 | init is idempotent |
| `Machine.Trigger` | am2302.c:147-173 | bit counter 41, zeroed buffer, falling-edge selection, counter 65536 - 1280, start pulse driven, and an immediate poll reports `ongoing` |
| `Machine.TriggerForgetsPast` | am2302.c:147-173 | a trigger discards any conversion in flight, because the new state does not depend on the old |
| `Machine.Overflow` | am2302.c:116-136 | with capture off it ends the start pulse: counter 0, line released, capture armed, timer running. With capture on it is a timeout that every poll reports. Bit counter and buffer are unchanged |
| `Machine.Capture` | am2302.c:75-110 | counter reset. A rising edge only clears ICES1. A falling edge below count 40 shifts bit `cnt > 800` into byte `bitCtr/8` and no other byte changes. The count drops by exactly 1, or at 0 the conversion stops. Coherence is kept |
| `Machine.ThresholdBoundary` | am2302.c:96-98 | a high period of 800 ticks stores 0, and one of 801 ticks stores 1 |
| `Machine.Run` | am2302.c:100-102 | no sequence of interrupts raises the bit counter or breaks register coherence |
| `Machine.RunAppend` | am2302.c:75-136 | running two event sequences one after the other is running their concatenation |
| `Machine.StepKeepsConversion` | am2302.c:100-135 | each handler keeps this invariant: the timer stops without the timeout mark only once the bit counter is 0 |
| `Machine.RunKeepsConversion` | am2302.c:100-135 | the same invariant holds over any run of interrupts |
| `Machine.CompletedOnlyWithAllBits` | am2302.h:19-24 | after a trigger and any interrupts, `ok` or `crc` is reported only with the bit count at 0, so an interrupted frame ends in `ongoing` or `timeout` |
| `Machine.ResultBeforeFirstTrigger` | am2302.c:63-64 | with zeroed statics, at power-on and after init, a poll reports `ok` with 0 and 0 |
| `Wire.Transmitted` | am2302.c:175-185 | the sensor's frame passes the checksum and carries the humidity and the sign-magnitude temperature |
| `Wire.NominalTransmission` | am2302.c:175-185 | 65.3 % and 23.1 degrees are sent as 0x02 0x8D 0x00 0xE7 0x76 |
| `Wire.FrameBitsOfByte` | am2302.c:38-45 | byte m of a frame is sent as bits 8m..8m+7 |
| `Wire.PartialStep` | am2302.c:94-102 | receiving bit n shifts it into byte (39 - n)/8 and leaves the other bytes alone |
| `Wire.PartialByteStep` | am2302.c:94-97 | bit n is shifted into byte n/8 in arrival order, extending the bits packed there by one |
| `Wire.PartialComplete` | am2302.c:175-178 | after 40 bits the buffer holds the frame in storage order |
| `Wire.ReceiveOneBit` | am2302.c:80-103 | one data period: the rising edge changes only the edge selection, and the falling edge stores the bit and counts down, or ends the conversion after the last bit |
| `Wire.CarriesTail` | am2302.c:94-98 | the data periods after the first carry the bits after the first |
| `Wire.ReceiveBits` | am2302.c:75-110 | data periods carrying bits n..39 take the listening state to the stopped state with all 40 bits stored |
| `Wire.FrameRoundTrip` | am2302.c:75-173 | from any state: trigger, end of the start pulse, then 42 falling edges (the first two acknowledgement, the next 40 above 800 exactly for the 1-bits). The timer ends stopped with count 0, the buffer holds the frame in storage order MSB first, and raw data gives the frame back |
| `Wire.ReadingRoundTrip` | am2302.c:187-213 | a reading sent and received edge by edge polls as `ok` with the humidity sent. The temperature is the one sent when >= 0 and -32768 when negative; the corrected decoder returns the one sent |
| `Driver.Am2302.constructor` | am2302.c:63-64 | power-on state: zeroed statics and zeroed registers |
| `Driver.Am2302.Init` | am2302.c:216-226 | the in-place update is exactly `Machine.Reset` |
| `Driver.Am2302.TriggerRead` | am2302.c:147-173 | the in-place update, including the zeroing loop, is exactly `Machine.Trigger` |
| `Driver.Am2302.OnOverflow` | am2302.c:116-136 | the in-place update is exactly `Machine.Overflow` |
| `Driver.Am2302.OnCapture` | am2302.c:75-110 | the in-place update, including the shift and OR on the array byte, is exactly `Machine.Capture` |
| `Driver.Am2302.GetRawData` | am2302.c:138-145 | the copy loop fills `buf[i]` with `data[4 - i]` and writes nothing past index 4. It returns the bit counter and changes no driver state |
| `Driver.Am2302.GetResult` | am2302.c:187-213 | the statement-level code returns exactly `Machine.Result` of the current state and changes nothing |
| `Driver.PollAfterTrigger` | am2302.h:16-17 | a trigger returns before the conversion is done: polls right after it and after the start pulse report `ongoing` and leave `*temp`, `*rh` alone |

## Left out

- `vserial-descriptors.c`: static USB descriptor tables and their lookup. They contain no algorithm, and vserial-descriptors.c is not part of this model.
- Real time and clock rates: the 16 MHz clock, the 4 ms overflow period, the conversion budget and the pulse lengths in microseconds. Counter values are integers, and interrupts are events supplied from outside.
- Hardware counting: TCNT1 advances while the timer runs, but the model sees it only through the value a capture handler reads (the `cnt` parameter). Between handler writes the counter field keeps the last value written. So `Init` during a conversion keeps that value, not whatever the hardware count happened to be.
- Interrupt flags: acknowledging pending interrupts through TIFR1 (e.g. am2302.c:108, 126) and pending requests that fire once an interrupt is enabled. The hardware delivers an interrupt only while it is enabled, and `Machine.Step` drops requests for a disabled one.
- Preemption and `volatile`: each handler is one atomic step, as on the AVR, where handlers do not nest.
- Electrical behaviour: the PORTD pull-up setting in `am2302_init` (am2302.c:224), line levels, and the sensor's reaction delays.
- Any main loop or USB serial output: neither is part of the core.
- Signed `char`: the buffer is modelled as unsigned bytes (see above). The sign-extending behaviour of a signed-`char` build is not modelled.

## Findings

| source | as written | input that shows it | evidently intended | confidence | as-written member | corrected member |
|---|---|---|---|---|---|---|
| am2302.c:206 | `val &= 0x8000` keeps only the sign bit, so `*temp = -val` is -32768 for every reading with the sign bit set | the valid frame 0x02 0x8D 0x80 0x01 0x10 (-0.1 degrees Celsius) polls as `ok` with temperature -32768 | mask with 0x7FFF, giving -(val & 0x7FFF) = -1 | high (the comment says "clear topmost bit"); not executed | `Frame.NegativeReadingCollapses` | `Frame.TemperatureSignMagnitude` |

The driver model (`Machine.Result`, `Driver.Am2302.GetResult`) keeps the
conversion as written, so that it describes the code. The corrected
conversion is proved to invert the sensor's encoding
(`Frame.SignMagnitudeRoundTrip`). It gives the end-to-end statement for
negative temperatures in `Wire.ReadingRoundTrip`.
