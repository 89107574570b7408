/** The driver object, `CP210XDevice`: it wraps one WebUSB device, encodes descriptor
    strings, writes single configuration items, and runs a whole configuration session. */
module Cp210x {
  import opened Wrappers
  import opened Usb
  import opened Errors
  import opened Descriptor
  import opened Protocol
  import opened Sequencer

  class CP210XDevice {
    const device: UsbDevice

    constructor (device: UsbDevice)
      ensures this.device == device
    {
      this.device := device;
    }

    /** `#encodeDescriptorString`: fills a fresh zeroed 256-byte buffer, or throws before any
        byte is sent. */
    method EncodeDescriptorString(str: seq<CodeUnit>) returns (r: Result<array<int>, Error>)
      ensures r.Failure? ==> Encode(str) == Failure(r.error)
      ensures r.Success? ==> Encode(str).Success? && r.value[..] == Encode(str).value
      ensures r.Success? ==> fresh(r.value)
    {
      var len := |str|;
      if len > MaxLength {
        return Failure(StringTooLong);
      }
      var out := new int[BufferSize](_ => 0);
      out[0] := (len * 2 + 2) % 0x100;
      out[1] := StringDescriptorType;
      var i, o := 0, 2;
      while i < len
        invariant 0 <= i <= len && o == 2 + 2 * i
        invariant forall j :: 0 <= j < i ==> !Bit7Set(str[j])
        invariant out[0] == 2 * len + 2 && out[1] == StringDescriptorType
        invariant forall k :: 2 <= k < o ==> out[k] == if k % 2 == 0 then str[(k - 2) / 2] % 0x100 else 0
        invariant forall k :: o <= k < BufferSize ==> out[k] == 0
      {
        if Bit7Set(str[i]) {
          return Failure(NonAscii);
        }
        out[o] := str[i] % 0x100;
        out[o + 1] := 0;
        i, o := i + 1, o + 2;
      }
      EncodeLayout(str);
      var spec := Encode(str).value;
      forall k | 0 <= k < BufferSize
        ensures out[k] == spec[k]
      {
        if 2 <= k < 2 + 2 * len {
          var j := (k - 2) / 2;
          assert k == 2 + 2 * j || k == 3 + 2 * j;
        }
      }
      assert out[..] == spec;
      return Success(out);
    }

    /** `#setCfg`: one vendor control-OUT transfer; a status other than ok is an error. */
    method SetCfg(item: CfgItem, index: int, data: Option<seq<int>>) returns (r: Outcome<Error>)
      requires device.Valid()
      modifies device
      ensures device.Valid() && device.isOpen == old(device.isOpen)
      ensures device.log == old(device.log) + Issue(Success(CfgCall(item, index, data)), device.oracle, old(device.calls)).0
      ensures r == Issue(Success(CfgCall(item, index, data)), device.oracle, old(device.calls)).1
    {
      var call := CfgCall(item, index, data);
      var status := device.ControlTransferOut(call.setup, call.data);
      if status != Ok {
        return Fail(CallFailed(call, status));
      }
      return Pass;
    }

    method SetVid(vid: int) returns (r: Outcome<Error>)
      requires device.Valid()
      modifies device
      ensures device.Valid() && device.isOpen == old(device.isOpen)
      ensures device.log == old(device.log) + Issue(FieldRequest(VidField(vid)), device.oracle, old(device.calls)).0
      ensures r == Issue(FieldRequest(VidField(vid)), device.oracle, old(device.calls)).1
    {
      r := SetCfg(Vid, vid, None);
    }

    method SetPid(pid: int) returns (r: Outcome<Error>)
      requires device.Valid()
      modifies device
      ensures device.Valid() && device.isOpen == old(device.isOpen)
      ensures device.log == old(device.log) + Issue(FieldRequest(PidField(pid)), device.oracle, old(device.calls)).0
      ensures r == Issue(FieldRequest(PidField(pid)), device.oracle, old(device.calls)).1
    {
      r := SetCfg(Pid, pid, None);
    }

    method SetFlush(flush: int) returns (r: Outcome<Error>)
      requires device.Valid()
      modifies device
      ensures device.Valid() && device.isOpen == old(device.isOpen)
      ensures device.log == old(device.log) + Issue(FieldRequest(FlushField(flush)), device.oracle, old(device.calls)).0
      ensures r == Issue(FieldRequest(FlushField(flush)), device.oracle, old(device.calls)).1
    {
      if flush > MaxFlush || flush < 0 {
        return Fail(FlushOutOfRange);
      }
      r := SetCfg(Flush, 0, Some([flush % 0x100]));
    }

    method SetMode(mode: int) returns (r: Outcome<Error>)
      requires device.Valid()
      modifies device
      ensures device.Valid() && device.isOpen == old(device.isOpen)
      ensures device.log == old(device.log) + Issue(FieldRequest(ModeField(mode)), device.oracle, old(device.calls)).0
      ensures r == Issue(FieldRequest(ModeField(mode)), device.oracle, old(device.calls)).1
    {
      if mode > MaxMode || mode < 0 {
        return Fail(ModeOutOfRange);
      }
      r := SetCfg(Mode, 0, Some([(mode / 0x100) % 0x100, mode % 0x100]));
    }

    method SetName(name: seq<CodeUnit>) returns (r: Outcome<Error>)
      requires device.Valid()
      modifies device
      ensures device.Valid() && device.isOpen == old(device.isOpen)
      ensures device.log == old(device.log) + Issue(FieldRequest(NameField(name)), device.oracle, old(device.calls)).0
      ensures r == Issue(FieldRequest(NameField(name)), device.oracle, old(device.calls)).1
    {
      var encoded := EncodeDescriptorString(name);
      if encoded.Failure? {
        return Fail(encoded.error);
      }
      r := SetCfg(Name, 0, Some(encoded.value[..]));
    }

    method SetSerial(serial: seq<CodeUnit>) returns (r: Outcome<Error>)
      requires device.Valid()
      modifies device
      ensures device.Valid() && device.isOpen == old(device.isOpen)
      ensures device.log == old(device.log) + Issue(FieldRequest(SerialField(serial)), device.oracle, old(device.calls)).0
      ensures r == Issue(FieldRequest(SerialField(serial)), device.oracle, old(device.calls)).1
    {
      var encoded := EncodeDescriptorString(serial);
      if encoded.Failure? {
        return Fail(encoded.error);
      }
      if encoded.value[0] > MaxSerialLength {
        return Fail(SerialTooLong);
      }
      r := SetCfg(Serial, 0, Some(encoded.value[..]));
    }

    /** One of the guarded writes of `configure`: when `options` holds a value for `item`, the
        setter for that item writes it; otherwise nothing happens. */
    method SetIfRequested(options: Options, item: CfgItem) returns (r: Outcome<Error>)
      requires device.Valid()
      modifies device
      ensures device.Valid() && device.isOpen == old(device.isOpen)
      ensures Session(device.log, device.calls, r)
        == PerformAll(Session(old(device.log), old(device.calls), Pass), Item(options, item), device.oracle)
    {
      PerformItem(Session(device.log, device.calls, Pass), options, item, device.oracle);
      r := Pass;
      match item
      case Vid =>
        if options.vid.Some? {
          r := SetVid(options.vid.value);
        }
      case Pid =>
        if options.pid.Some? {
          r := SetPid(options.pid.value);
        }
      case Name =>
        if options.name.Some? {
          r := SetName(options.name.value);
        }
      case Serial =>
        if options.serial.Some? {
          r := SetSerial(options.serial.value);
        }
      case Flush =>
        if options.flush.Some? {
          r := SetFlush(options.flush.value);
        }
      case Mode =>
        if options.mode.Some? {
          r := SetMode(options.mode.value);
        }
    }

    /** The end of `configure`: the reset, then the close when `configure` opened the device. */
    method ResetAndClose(closeAfterDone: bool) returns (r: Outcome<Error>)
      requires device.Valid()
      modifies device
      ensures device.Valid()
      ensures Session(device.log, device.calls, r)
        == PerformAll(Session(old(device.log), old(device.calls), Pass),
                      [DoReset] + (if closeAfterDone then [DoClose] else []), device.oracle)
    {
      ghost var s := Session(device.log, device.calls, Pass);
      ghost var closing := if closeAfterDone then [DoClose] else [];
      PerformAllAppend(s, [DoReset], closing, device.oracle);
      PerformCall(s, DoReset, device.oracle);
      var status := device.Reset();
      s := PerformAll(s, [DoReset], device.oracle);
      if status != Ok {
        PerformAllFailed(s, closing, device.oracle);
        return Fail(CallFailed(ResetCall, status));
      }
      if closeAfterDone {
        PerformCall(s, DoClose, device.oracle);
        status := device.Close();
        if status != Ok {
          return Fail(CallFailed(CloseCall, status));
        }
      }
      r := Pass;
    }

    /** `configure`: opens the device if it is closed, writes the requested fields in order,
        resets, and closes the device again if it opened it; the first error ends the session. */
    method Configure(options: Options) returns (r: Outcome<Error>)
      requires device.Valid()
      modifies device
      ensures device.Valid()
      ensures device.log == old(device.log) + ConfigureRun(old(device.isOpen), options, device.oracle, old(device.calls)).0
      ensures r == ConfigureRun(old(device.isOpen), options, device.oracle, old(device.calls)).1
      ensures device.isOpen == OpenedAfter(old(device.isOpen), ConfigureRun(old(device.isOpen), options, device.oracle, old(device.calls)).0)
    {
      // `s` is the session so far; performing the steps still to come in it gives the session
      // of the whole reference run, `whole`.
      ghost var oracle := device.oracle;
      ghost var run := ConfigureRun(device.isOpen, options, oracle, device.calls);
      ghost var whole := Session(device.log + run.0, device.calls + |run.0|, run.1);
      ghost var closing := if device.isOpen then [] else [DoClose];
      ghost var ending := [DoReset] + closing;
      ghost var rest6 := Item(options, Mode) + ending;
      ghost var rest5 := Item(options, Flush) + rest6;
      ghost var rest4 := Item(options, Serial) + rest5;
      ghost var rest3 := Item(options, Name) + rest4;
      ghost var rest2 := Item(options, Pid) + rest3;
      ghost var rest1 := Item(options, Vid) + rest2;
      ghost var s := Session(device.log, device.calls, Pass);
      PlanItems(device.isOpen, options);
      PerformAllIsRun(device.log, device.calls, Plan(device.isOpen, options), oracle);
      OpenedAfterAppend(device.initiallyOpened, device.log, run.0);
      assert PerformAll(s, Plan(device.isOpen, options), oracle) == whole;
      assert device.isOpen ==> Plan(device.isOpen, options) == rest1;
      assert !device.isOpen ==> Plan(device.isOpen, options) == [DoOpen] + rest1;

      var closeAfterDone := false;
      if !device.isOpen {
        closeAfterDone := true;
        PerformAllAppend(s, [DoOpen], rest1, oracle);
        PerformCall(s, DoOpen, oracle);
        var status := device.Open();
        s := PerformAll(s, [DoOpen], oracle);
        if status != Ok {
          PerformAllFailed(s, rest1, oracle);
          return Fail(CallFailed(OpenCall, status));
        }
      }
      assert s == Session(device.log, device.calls, Pass) && PerformAll(s, rest1, oracle) == whole;
      assert closing == if closeAfterDone then [DoClose] else [];

      PerformAllAppend(s, Item(options, Vid), rest2, oracle);
      r := SetIfRequested(options, Vid);
      s := PerformAll(s, Item(options, Vid), oracle);
      if r.Fail? {
        PerformAllFailed(s, rest2, oracle);
        return;
      }

      PerformAllAppend(s, Item(options, Pid), rest3, oracle);
      r := SetIfRequested(options, Pid);
      s := PerformAll(s, Item(options, Pid), oracle);
      if r.Fail? {
        PerformAllFailed(s, rest3, oracle);
        return;
      }

      PerformAllAppend(s, Item(options, Name), rest4, oracle);
      r := SetIfRequested(options, Name);
      s := PerformAll(s, Item(options, Name), oracle);
      if r.Fail? {
        PerformAllFailed(s, rest4, oracle);
        return;
      }

      PerformAllAppend(s, Item(options, Serial), rest5, oracle);
      r := SetIfRequested(options, Serial);
      s := PerformAll(s, Item(options, Serial), oracle);
      if r.Fail? {
        PerformAllFailed(s, rest5, oracle);
        return;
      }

      PerformAllAppend(s, Item(options, Flush), rest6, oracle);
      r := SetIfRequested(options, Flush);
      s := PerformAll(s, Item(options, Flush), oracle);
      if r.Fail? {
        PerformAllFailed(s, rest6, oracle);
        return;
      }

      PerformAllAppend(s, Item(options, Mode), ending, oracle);
      r := SetIfRequested(options, Mode);
      s := PerformAll(s, Item(options, Mode), oracle);
      if r.Fail? {
        PerformAllFailed(s, ending, oracle);
        return;
      }
      assert s == Session(device.log, device.calls, Pass) && PerformAll(s, ending, oracle) == whole;

      r := ResetAndClose(closeAfterDone);
      s := PerformAll(s, ending, oracle);
    }
  }
}
