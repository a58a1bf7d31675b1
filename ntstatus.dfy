// NTSTATUS codes used by the controller driver, as the 32-bit values the
// Windows headers give them.  A code is a success code when, read as a
// signed 32-bit integer, it is not negative (the NT_SUCCESS macro).
module NtStatus {

  type Code = bv32

  const Success: Code := 0x0000_0000
  const Unsuccessful: Code := 0xC000_0001
  const InfoLengthMismatch: Code := 0xC000_0004
  const InvalidParameter: Code := 0xC000_000D
  const NoSuchDevice: Code := 0xC000_000E
  const NotSupported: Code := 0xC000_00BB
  const Cancelled: Code := 0xC000_0120
  const NotFound: Code := 0xC000_0225

  /** NT_SUCCESS: the sign bit of the code is clear. */
  predicate NtSuccess(s: Code) {
    s < 0x8000_0000
  }
}
