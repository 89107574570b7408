# cp210x-webusb in Dafny

A model of the core of the `cp210x-webusb` driver, `src/index.ts`. The driver configures a
Silicon Labs CP210x USB-to-UART bridge over WebUSB. It can write six configuration items:

- the USB vendor ID and product ID;
- the product name and serial number, written as USB string descriptors;
- the "flush" byte;
- the 16-bit "mode" word.

Each item is one vendor control-OUT transfer with request 0xFF and the item's code in
`value`. `configure` does the whole session:

1. It opens the device if it is closed.
2. It writes the requested items in the fixed order vid, pid, name, serial, flush, mode.
3. It resets the device.
4. It closes the device again if it opened it.

The first error ends the session.

The modules follow the program:

- `Wrappers` holds `Option`, `Result` and `Outcome`.
- `Usb` is the part of a WebUSB `USBDevice` the driver uses. The class `UsbDevice` has an
  `isOpen` flag and four calls: `Open`, `ControlTransferOut`, `Reset` and `Close`. What the
  hardware answers is a parameter: an *oracle* `nat -> Status` fixes the status of the n-th call
  issued on the device. A ghost log records every call with its status.
- `Errors` holds one validation error per check the driver makes, plus the failure of a device
  call.
- `Descriptor` is the string-descriptor encoding as the code does it:
  - a 256-byte buffer;
  - length byte `2 * len + 2`, then type 3;
  - one UTF-16LE code unit per character, with the high byte written as 0.

  It has a reference function `Encode`, a reader `Decode` for the round trip, and lemmas
  about both.
- `Protocol` holds the `CfgItem` codes and, for each setter, the request it sends or the
  validation error it throws.
- `Sequencer` is the reference semantics of `configure`:
  - the `Plan` of steps for a set of `Options`;
  - a `Run` of those steps against the oracle that stops at the first failure;
  - the lemmas about what `configure` does.
- `Cp210x` holds the class `CP210XDevice`. It is imperative like the source:
  - `EncodeDescriptorString` fills an `array` in a loop;
  - `SetCfg` and the six setters issue calls on the device;
  - `Configure` keeps the `closeAfterDone` flag and calls open, the setters, reset and close.

  Each method is proved against the matching function: `EncodeDescriptorString` against
  `Descriptor.Encode`, the setters against `Protocol`, and `Configure` against `Sequencer`.

A JavaScript `string` is a sequence of UTF-16 code units (`CodeUnit`, 0..0xFFFF), as
`charCodeAt` sees it. A `Uint8Array` store keeps the value modulo 256, and the model writes
that reduction out. An option left `undefined` is `None`.

## Model

| member | source | states |
|---|---|---|
| Protocol.CodeRoundTrip | src/index.ts:1-8 | The six item codes are distinct, so the `value` of a request names exactly one item. |
| Descriptor.Bit7SetIsMask | src/index.ts:39 | The model's bit test is the source's `charCodeAt(i) & 0x80` on a 16-bit code unit. |
| Descriptor.AsciiPassesCheck | src/index.ts:39-41 | Every string of code units below 0x80 passes the encoder's character check. |
| Descriptor.EncodeAccepts | src/index.ts:29-41 | A string encodes exactly when it has at most 126 code units and none has bit 7 set. A too-long string gets the length error, before any character is looked at. |
| Descriptor.UnitsAt | src/index.ts:38-45 | Character i lands at bytes 2+2i and 3+2i, as its low byte followed by 0. |
| Descriptor.EncodeLayout | src/index.ts:34-47 | The encoded buffer is 256 bytes. Byte 0 is `2*len+2` (at most 254) and byte 1 is 3. Each character is its low byte then 0, every byte after the string is 0, and every byte fits in 0..255. |
| Descriptor.DecodeEncode | src/index.ts:28-48 | An ASCII string of at most 126 characters encodes, and reading the descriptor back gives the string. |
| Descriptor.EncodeKeepsLowByte | src/index.ts:43 | Two accepted strings whose code units agree modulo 256 encode to the same buffer: only the low byte is kept. |
| Descriptor.WideCodeUnitBecomesNul | src/index.ts:39-43 | U+0100 passes the bit-7 test and is sent as a NUL byte, so it does not survive a round trip. |
| Cp210x.CP210XDevice.EncodeDescriptorString | src/index.ts:28-48 | The loop fills a fresh array equal to `Encode(str)`, or it returns the error `Encode` gives. `Encode`'s properties are the lemmas above. |
| Protocol.FieldRequestHeader | src/index.ts:50-57 | Every setter sends vendor request 0xFF to the device with its own item code as `value`. Vid and pid go in `index` with no payload; every other item uses index 0 and a payload. A setter's own errors are validation errors. |
| Protocol.FlushEncoding | src/index.ts:114-120 | `setFlush` accepts exactly 0..255 and sends that one byte; any other value is `FlushOutOfRange`. |
| Protocol.ModeEncoding | src/index.ts:122-131 | `setMode` accepts exactly 0..0xFFFF and sends two bytes, high then low, that recombine to the mode; any other value is `ModeOutOfRange`. |
| Protocol.ModeExamples | src/index.ts:122-131 | 0x1234 is sent as [0x12, 0x34] and 0 as [0, 0]; 0x10000 and -1 are rejected. |
| Protocol.DescriptorCeilings | src/index.ts:133-144 | `setName` takes every encodable string (at most 126 units). `setSerial` takes only those of at most 63 units and rejects 64..126 with `SerialTooLong`. On the strings both accept they send the same buffer. |
| Protocol.SerialBoundary | src/index.ts:137-141 | 63 characters are a valid serial; 64 are not a valid serial but are a valid name. |
| Cp210x.CP210XDevice.SetCfg | src/index.ts:50-64 | Issues exactly one transfer with the item's header and data. It fails with the call's status unless that status is Ok, and it leaves the open state alone. |
| Cp210x.CP210XDevice.SetVid | src/index.ts:106-108 | Logs exactly the call `FieldRequest(VidField(vid))` describes, and returns its outcome. |
| Cp210x.CP210XDevice.SetPid | src/index.ts:110-112 | Logs exactly the call `FieldRequest(PidField(pid))` describes, and returns its outcome. |
| Cp210x.CP210XDevice.SetFlush | src/index.ts:114-120 | An out-of-range flush makes no call and returns the validation error. Otherwise it logs the one-byte transfer and returns its outcome. |
| Cp210x.CP210XDevice.SetMode | src/index.ts:122-131 | An out-of-range mode makes no call and returns the validation error. Otherwise it logs the big-endian two-byte transfer and returns its outcome. |
| Cp210x.CP210XDevice.SetName | src/index.ts:133-135 | A name the encoder rejects makes no call. Otherwise it logs the transfer of the whole descriptor buffer and returns its outcome. |
| Cp210x.CP210XDevice.SetSerial | src/index.ts:137-144 | As `SetName`, except that a length byte above 128 makes no call and returns `SerialTooLong`. |
| Sequencer.OrderCovers | src/index.ts:73-97 | The order `configure` uses lists each of the six items exactly once, in increasing rank. |
| Sequencer.FieldsInOrder | src/index.ts:73-97 | `configure` writes exactly the requested items, each once, in the order vid, pid, name, serial, flush, mode. |
| Sequencer.PlanItems | src/index.ts:66-104 | The plan is the optional open, then one guarded block per item in order, then the reset, then the optional close. This is the shape of the method's body. |
| Sequencer.PlanAt | src/index.ts:66-104 | Position by position, the plan is: open (only for a closed device), the requested fields, the reset, and the close (only for a closed device). |
| Sequencer.RunLog | src/index.ts:66-104 | A session makes the calls of a prefix of its steps, in order, and the i-th call gets the i-th status the device reports. |
| Sequencer.RunStops | src/index.ts:59-104 | A session stops at its first failure. Every call but the last succeeded, and it succeeds exactly when every step ran and succeeded. A failure is the validation error of the first step not made, or the status of the last call. |
| Sequencer.ConfigureCalls | src/index.ts:66-104 | The i-th call `configure` makes is open, then one transfer per requested field in order, then reset, then close. |
| Sequencer.ConfigureStops | src/index.ts:66-104 | Every call of `configure` except the last succeeded. It succeeds exactly when every planned call was made and succeeded. |
| Sequencer.ConfigureOpensFirst | src/index.ts:67-71 | The first call is `open` exactly when the device was closed, and `open` is never called later. |
| Sequencer.ConfigureSendsFieldsInOrder | src/index.ts:75-97 | Transfers are only the requested fields' requests, at their positions after the open. On success, every requested field was sent and succeeded. |
| Sequencer.ConfigureResetsOnce | src/index.ts:99 | `reset` comes at most once, after all transfers. On success it was called and succeeded. A field that fails validation or transfer stops the session before reset and close. |
| Sequencer.ConfigureClosesOnlyWhatItOpened | src/index.ts:101-103 | `close` comes only for a device `configure` found closed, only as the last call and only after a successful reset. After such a reset, `close` always follows. |
| Sequencer.ConfigureRestoresOpenState | src/index.ts:67-103 | After a success the device is open exactly when it was before, and a device found open is never closed. A device found closed and left after a failure is open exactly when the `open` call succeeded. |
| Sequencer.EmptyOptionsOnlyReset | src/index.ts:66-104 | With no item requested, `configure` on an open device makes one call, `reset`, and its outcome is that call's. |
| Sequencer.SerialFailureSkipsFlush | src/index.ts:66-104 | With name, serial and flush requested, on a device found open or closed: if the serial transfer fails, the log is the open (only for a closed device), the name and the serial. Flush, reset and close never happen, and the device is left open. |
| Cp210x.CP210XDevice.SetIfRequested | src/index.ts:75-97 | One guarded block of `configure`: if the item is requested, its setter's call and outcome are logged; otherwise nothing happens. |
| Cp210x.CP210XDevice.ResetAndClose | src/index.ts:99-103 | The end of `configure`: the reset, then the close only if `configure` opened the device and the reset succeeded. |
| Cp210x.CP210XDevice.Configure | src/index.ts:66-104 | The calls logged, the outcome returned and the final open state are those of the reference run `ConfigureRun`, whose properties are the `Sequencer.Configure*` lemmas. |

## Left out

- `requestCP210XDevice` (the browser's device picker with the two CP210x vendor/product ID
  filters) is not modelled. It is user interaction through `navigator.usb`, outside the core.
- The WebUSB `USBDevice` itself is not modelled. Its answers are the oracle. Its
  `bytesWritten` count is not represented. A call made on a closed device is not rejected
  on its own account; such a call is simply one whose status the oracle makes non-Ok.
- A transfer's `"stall"` and `"babble"` statuses are `Stall` and `Babble`, and a rejected
  promise from any of the four calls is `Rejected`. Which statuses a call can really end with
  is not constrained: the proofs hold for any status the oracle gives.
- `async`/`await` is modelled as sequential calls. A thrown error or rejected promise is a
  `Fail` outcome that ends the method. The text of error messages is not modelled; each
  message is one `Error` constructor.
- JavaScript numbers are modelled as unbounded integers. Fractional values, `NaN` and numbers
  beyond 2^31 are not modelled. `setVid` and `setPid` check no range and pass any integer to
  `index`, as the code does; what WebUSB does with an `index` outside 0..0xFFFF is not modelled.
- The descriptor encoder returns the whole 256-byte buffer, and the name and serial setters
  send all 256 bytes. The model follows the code here, not a trimmed `2 + 2*len`-byte payload.
- The encoder's only character check is bit 7 of each code unit, so a code unit such as
  U+0100 is accepted and written as its low byte. The model follows the code here, not a
  "code point at most 127" rule (see `Descriptor.WideCodeUnitBecomesNul`).
- `Cp210x.CP210XDevice.SetIfRequested` and `Cp210x.CP210XDevice.ResetAndClose` are not
  functions of the source. They are the guarded blocks of `configure` (lines 75-97 and
  99-103) written as methods of their own; `Configure` calls them in the source's order.
