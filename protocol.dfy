/** The CP210x configuration protocol: every configuration item is written with one
    vendor control-OUT transfer to the device, request code 0xFF, `value` the item's
    code, and the item's data in `index` or in the payload. Each function here is the
    request one setter sends, or the validation error it throws before sending. */
module Protocol {
  import opened Wrappers
  import opened Usb
  import opened Errors
  import opened Descriptor

  /** The configuration items (`CfgItem`). */
  datatype CfgItem = Vid | Pid | Name | Serial | Flush | Mode

  function Code(item: CfgItem): int
  {
    match item
    case Vid => 0x3701
    case Pid => 0x3702
    case Name => 0x3703
    case Serial => 0x3704
    case Flush => 0x370d
    case Mode => 0x3711
  }

  /** Which item a `value` field names, if any. */
  function ItemOfCode(code: int): Option<CfgItem>
  {
    if code == 0x3701 then Some(Vid)
    else if code == 0x3702 then Some(Pid)
    else if code == 0x3703 then Some(Name)
    else if code == 0x3704 then Some(Serial)
    else if code == 0x370d then Some(Flush)
    else if code == 0x3711 then Some(Mode)
    else None
  }

  /** Item codes and `value` fields correspond one to one, so a request names exactly one item. */
  lemma CodeRoundTrip(item: CfgItem, code: int)
    ensures ItemOfCode(Code(item)) == Some(item)
    ensures ItemOfCode(code) == Some(item) ==> Code(item) == code
  {
  }

  const ConfigRequest := 0xFF
  const MaxFlush := 0xFF
  const MaxMode := 0xFFFF
  /** The largest descriptor length byte the serial item accepts. */
  const MaxSerialLength := 128

  /** `#setCfg`: the transfer that writes `item`, with the payload `data` if any. */
  function CfgCall(item: CfgItem, index: int, data: Option<seq<int>>): Call
  {
    TransferCall(Setup(Vendor, Device, ConfigRequest, Code(item), index), data)
  }

  /** `setVid`: the vendor ID travels in `index`; the driver itself checks no range. */
  function VidRequest(vid: int): Call
  {
    CfgCall(Vid, vid, None)
  }

  function PidRequest(pid: int): Call
  {
    CfgCall(Pid, pid, None)
  }

  /** `setFlush`: one payload byte, stored into a `Uint8Array`. */
  function FlushRequest(flush: int): Result<Call, Error>
  {
    if flush > MaxFlush || flush < 0 then Failure(FlushOutOfRange)
    else Success(CfgCall(Flush, 0, Some([flush % 0x100])))
  }

  /** `setMode`: `(mode >> 8) & 0xFF` then `mode & 0xFF`; on a non-negative number below
      2^31 the shift is a floor division by 256. */
  function ModeRequest(mode: int): Result<Call, Error>
  {
    if mode > MaxMode || mode < 0 then Failure(ModeOutOfRange)
    else Success(CfgCall(Mode, 0, Some([(mode / 0x100) % 0x100, mode % 0x100])))
  }

  /** `setName`: the whole 256-byte descriptor buffer is the payload. */
  function NameRequest(name: seq<CodeUnit>): Result<Call, Error>
  {
    match Encode(name)
    case Failure(e) => Failure(e)
    case Success(buffer) => Success(CfgCall(Name, 0, Some(buffer)))
  }

  /** `setSerial`: as `setName`, after a further check on the encoded length byte. */
  function SerialRequest(serial: seq<CodeUnit>): Result<Call, Error>
  {
    match Encode(serial)
    case Failure(e) => Failure(e)
    case Success(buffer) =>
      if buffer[0] > MaxSerialLength then Failure(SerialTooLong)
      else Success(CfgCall(Serial, 0, Some(buffer)))
  }

  /** One configuration item together with the value to write. */
  datatype Field =
    | VidField(vid: int)
    | PidField(pid: int)
    | NameField(name: seq<CodeUnit>)
    | SerialField(serial: seq<CodeUnit>)
    | FlushField(flush: int)
    | ModeField(mode: int)

  function ItemOf(f: Field): CfgItem
  {
    match f
    case VidField(_) => Vid
    case PidField(_) => Pid
    case NameField(_) => Name
    case SerialField(_) => Serial
    case FlushField(_) => Flush
    case ModeField(_) => Mode
  }

  /** The request the setter for `f` sends, or the validation error it throws first. */
  function FieldRequest(f: Field): Result<Call, Error>
  {
    match f
    case VidField(vid) => Success(VidRequest(vid))
    case PidField(pid) => Success(PidRequest(pid))
    case NameField(name) => NameRequest(name)
    case SerialField(serial) => SerialRequest(serial)
    case FlushField(flush) => FlushRequest(flush)
    case ModeField(mode) => ModeRequest(mode)
  }

  /** Every setter sends vendor request 0xFF to the device with its own item code as `value`;
      vendor and product ID travel in `index` without payload, every other item uses index 0
      and a payload; the only errors a setter raises itself are validation errors. */
  lemma FieldRequestHeader(f: Field)
    ensures FieldRequest(f).Success? ==>
      var call := FieldRequest(f).value;
      && call.TransferCall?
      && call.setup.requestType == Vendor && call.setup.recipient == Device
      && call.setup.request == 0xFF
      && call.setup.value == Code(ItemOf(f))
      && call.setup.index == (match f case VidField(v) => v case PidField(p) => p case _ => 0)
      && (call.data.None? <==> f.VidField? || f.PidField?)
    ensures FieldRequest(f).Failure? ==> !FieldRequest(f).error.CallFailed?
  {
  }

  /** `setFlush` accepts exactly the values of one byte and sends that byte. */
  lemma FlushEncoding(flush: int)
    ensures FlushRequest(flush).Success? <==> 0 <= flush <= 0xFF
    ensures FlushRequest(flush).Failure? ==> FlushRequest(flush).error == FlushOutOfRange
    ensures FlushRequest(flush).Success? ==> FlushRequest(flush).value.data == Some([flush])
  {
  }

  /** `setMode` accepts exactly the 16-bit values and sends them big-endian. */
  lemma ModeEncoding(mode: int)
    ensures ModeRequest(mode).Success? <==> 0 <= mode <= 0xFFFF
    ensures ModeRequest(mode).Failure? ==> ModeRequest(mode).error == ModeOutOfRange
    ensures ModeRequest(mode).Success? ==>
      var data := ModeRequest(mode).value.data;
      && data.Some? && |data.value| == 2
      && data.value == [mode / 0x100, mode % 0x100]
      && 0 <= data.value[0] < 0x100 && 0 <= data.value[1] < 0x100
      && data.value[0] * 0x100 + data.value[1] == mode
  {
    if 0 <= mode <= 0xFFFF {
      assert mode / 0x100 < 0x100;
    }
  }

  lemma ModeExamples()
    ensures ModeRequest(0x1234) == Success(CfgCall(Mode, 0, Some([0x12, 0x34])))
    ensures ModeRequest(0) == Success(CfgCall(Mode, 0, Some([0, 0])))
    ensures ModeRequest(0x10000) == Failure(ModeOutOfRange)
    ensures ModeRequest(-1) == Failure(ModeOutOfRange)
  {
  }

  /** The name item takes every string the encoder accepts, up to 126 code units; the serial
      item only those up to 63, whose length byte is at most 128. Both send the same buffer. */
  lemma {:induction false} DescriptorCeilings(s: seq<CodeUnit>)
    ensures NameRequest(s).Success? <==> |s| <= MaxLength && PassesAsciiCheck(s)
    ensures SerialRequest(s).Success? <==> |s| <= 63 && PassesAsciiCheck(s)
    ensures |s| > MaxLength ==> NameRequest(s) == SerialRequest(s) == Failure(StringTooLong)
    ensures 63 < |s| <= MaxLength && PassesAsciiCheck(s) ==> SerialRequest(s) == Failure(SerialTooLong)
    ensures SerialRequest(s).Success? ==>
      NameRequest(s).Success? && SerialRequest(s).value.data == NameRequest(s).value.data
  {
    EncodeAccepts(s);
    if Encode(s).Success? {
      EncodeLayout(s);
    }
  }

  /** 63 code units are accepted as a serial (length byte 128); 64 are not (130), although the
      same 64 are accepted as a name. */
  lemma SerialBoundary()
    ensures SerialRequest(seq(63, _ => 0x41)).Success?
    ensures SerialRequest(seq(64, _ => 0x41)) == Failure(SerialTooLong)
    ensures NameRequest(seq(64, _ => 0x41)).Success?
  {
    DescriptorCeilings(seq(63, _ => 0x41));
    DescriptorCeilings(seq(64, _ => 0x41));
  }
}
