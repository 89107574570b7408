/** The ways a setter or `configure` can fail: one validation error per check the
    driver makes before sending anything, and the failure of a device call. */
module Errors {
  import Usb

  datatype Error =
    | StringTooLong     // a descriptor string of more than 126 code units
    | NonAscii          // a code unit with bit 0x80 set
    | SerialTooLong     // a serial whose descriptor length byte exceeds 128
    | FlushOutOfRange   // a flush value outside [0, 0xFF]
    | ModeOutOfRange    // a mode value outside [0, 0xFFFF]
    | CallFailed(call: Usb.Call, status: Usb.Status)  // a device call that did not complete with Ok
}
