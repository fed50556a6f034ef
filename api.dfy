/**
 * The public interface of the AM2302 driver (am2302.h): the result
 * enumeration of a measurement poll, the integer widths that cross the
 * interface, and the outcome of a poll together with its two out-parameters.
 */
module Api {

  /** One cell of the 5-byte receive buffer.  The buffer is declared as plain
      `char`; it is modelled as unsigned 0..255, which assumes a build where
      `char` is unsigned (with a signed `char` the checksum and humidity
      arithmetic would sign-extend bytes >= 0x80). */
  type Byte = x: int | 0 <= x < 0x100

  /** `uint16_t`, the type of the relative-humidity out-parameter and of the
      hardware counter TCNT1. */
  type Uint16 = x: int | 0 <= x < 0x1_0000

  /** `int16_t`, the type of the temperature out-parameter. */
  type Int16 = x: int | -0x8000 <= x < 0x8000

  /** `enum am2302_result`: exactly four outcomes, in declaration order. */
  datatype Status = Ok | Ongoing | Crc | Timeout

  /** The enumerator with C value `c`, if there is one. */
  function StatusOfCode(c: int): (st: Option<Status>)
    ensures st.Some? <==> 0 <= c < 4
  {
    if c == 0 then Some(Ok)
    else if c == 1 then Some(Ongoing)
    else if c == 2 then Some(Crc)
    else if c == 3 then Some(Timeout)
    else None
  }

  /** The C value of an enumerator: they are numbered 0..3 in declaration
      order, and the numbering is one-to-one. */
  function StatusCode(st: Status): (c: int)
    ensures 0 <= c < 4
    ensures StatusOfCode(c) == Some(st)
  {
    match st
    case Ok => 0
    case Ongoing => 1
    case Crc => 2
    case Timeout => 3
  }

  datatype Option<T> = None | Some(value: T)

  /** What a call of `am2302_get_result(&temp, &rh)` leaves behind: the
      returned status and the values of `temp` and `rh` afterwards. */
  datatype Outcome = Outcome(status: Status, temp: Int16, rh: Uint16)
}
