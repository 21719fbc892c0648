/** Exit statuses and termination reasons, with the machine integers they are made of. */
module Termination {

  datatype Option<+T> = None | Some(value: T) {
    function UnwrapOr(default: T): T {
      if Some? then value else default
    }
  }

  /** `std::io::Result`, its errors kept apart only by a number. */
  datatype Result<+T> = Ok(value: T) | Err(error: int)

  /** A receiving half of a capacity-one channel: still empty with a living sender, holding the
      one message, or empty for good. */
  datatype Receiver<+T> = Open | Holds(message: T) | Closed

  type U32 = x: int | 0 <= x < 0x1_0000_0000
  type I32 = x: int | -0x8000_0000 <= x < 0x8000_0000
  type U64 = x: int | 0 <= x < 0x1_0000_0000_0000_0000

  /** A process id. */
  type Pid = U32

  /** The identity of a channel's sending half. */
  type Tx = nat

  /** The cast `x as i32`: the same 32 bits, read as two's complement. */
  function AsI32(x: U32): I32 {
    if x < 0x8000_0000 then x else x - 0x1_0000_0000
  }

  /** The cast `x as u32`. */
  function AsU32(x: I32): U32 {
    if 0 <= x then x else x + 0x1_0000_0000
  }

  /** Each cast yields the one number of its type that is congruent modulo 2 to the 32. */
  lemma {:induction false} CastsKeepBits(x: U32, y: I32)
    ensures (AsI32(x) - x) % 0x1_0000_0000 == 0 && (AsU32(y) - y) % 0x1_0000_0000 == 0
  {}

  /** `std::process::ExitStatus` on Windows wraps the raw 32-bit code. */
  datatype ExitStatus = ExitStatus(raw: U32) {
    /** `ExitStatus::code()` is always present on Windows, as a signed number. */
    function Code(): Option<I32> {
      Some(AsI32(raw))
    }
  }

  datatype TerminationReason =
    | CleanExit(status: ExitStatus)
    | Crash(code: U32, address: U64)
    | FastFail(code: U32)
    | ExternalKill(status: ExitStatus)
    | Unknown(status: ExitStatus)

  /** What a waiter is sent: the reason, or the error that kept it from being found. */
  type TerminationResult = Result<TerminationReason>
}
