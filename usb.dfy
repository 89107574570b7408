/** The part of a WebUSB `USBDevice` that the CP210x driver uses: the `opened` flag
    (here `isOpen`, since `opened` is a Dafny keyword) and the four asynchronous calls `open`, `controlTransferOut`, `reset` and `close`.
    What the hardware answers is not modelled: every device carries an oracle that
    fixes the status of the n-th call issued on it, and a ghost log records every call
    with the status it got. */
module Usb {
  import opened Wrappers

  /** How a call on the device ends. `Ok`, `Stall` and `Babble` are the statuses a
      `USBOutTransferResult` reports for `controlTransferOut`; `Rejected` is the returned
      promise rejecting, which any of the four calls can do. For `open`, `reset` and `close`
      the oracle should give only `Ok` or `Rejected`, but every proof holds for any status. */
  datatype Status = Ok | Stall | Babble | Rejected

  datatype RequestType = Standard | Class | Vendor

  datatype Recipient = Device | Interface | Endpoint | Other

  /** The setup parameters of a control transfer (`USBControlTransferParameters`). */
  datatype Setup = Setup(requestType: RequestType, recipient: Recipient, request: int, value: int, index: int)

  /** One call issued on the device; a transfer carries its setup and its optional payload bytes. */
  datatype Call =
    | OpenCall
    | TransferCall(setup: Setup, data: Option<seq<int>>)
    | ResetCall
    | CloseCall

  datatype Event = Event(call: Call, status: Status)

  /** The open/closed state reached from `initial` after the calls in `log`:
      a successful `open` opens, a successful `close` closes, nothing else changes it. */
  function OpenedAfter(initial: bool, log: seq<Event>): bool
    decreases |log|
  {
    if log == [] then initial
    else
      var before := OpenedAfter(initial, log[..|log| - 1]);
      var last := log[|log| - 1];
      if last.status != Ok then before
      else if last.call == OpenCall then true
      else if last.call == CloseCall then false
      else before
  }

  /** Replaying a log in two parts gives the same state as replaying it whole. */
  lemma {:induction false} OpenedAfterAppend(initial: bool, a: seq<Event>, b: seq<Event>)
    ensures OpenedAfter(initial, a + b) == OpenedAfter(OpenedAfter(initial, a), b)
    decreases |b|
  {
    if b == [] {
      assert a + b == a;
    } else {
      var b' := b[..|b| - 1];
      assert (a + b)[..|a + b| - 1] == a + b';
      assert (a + b)[|a + b| - 1] == b[|b| - 1];
      OpenedAfterAppend(initial, a, b');
    }
  }

  /** Calls other than a successful `open` or `close` leave the open state alone. */
  lemma {:induction false} OpenedAfterNoLifecycle(initial: bool, log: seq<Event>)
    requires forall i :: 0 <= i < |log| ==> log[i].status != Ok || (log[i].call != OpenCall && log[i].call != CloseCall)
    ensures OpenedAfter(initial, log) == initial
    decreases |log|
  {
    if log != [] {
      OpenedAfterNoLifecycle(initial, log[..|log| - 1]);
    }
  }

  /** When no call after the first is a successful `open` or `close`, the open state is
      decided by the first call alone. */
  lemma OpenedAfterFirst(initial: bool, log: seq<Event>)
    requires |log| > 0
    requires forall i :: 0 < i < |log| ==> log[i].status != Ok || (log[i].call != OpenCall && log[i].call != CloseCall)
    ensures OpenedAfter(initial, log) == OpenedAfter(initial, [log[0]])
  {
    var rest := log[1..];
    forall i | 0 <= i < |rest|
      ensures rest[i].status != Ok || (rest[i].call != OpenCall && rest[i].call != CloseCall)
    {
      assert rest[i] == log[i + 1];
    }
    assert log == [log[0]] + rest;
    OpenedAfterAppend(initial, [log[0]], rest);
    OpenedAfterNoLifecycle(OpenedAfter(initial, [log[0]]), rest);
  }

  class UsbDevice {
    var isOpen: bool
    /** The status the n-th call issued on this device completes with. */
    const oracle: nat -> Status
    /** How many calls have been issued so far. */
    var calls: nat
    /** The open state the device had when this model of it was created. */
    ghost const initiallyOpened: bool
    ghost var log: seq<Event>

    ghost predicate Valid()
      reads this
    {
      |log| == calls && isOpen == OpenedAfter(initiallyOpened, log)
    }

    constructor (isOpen: bool, oracle: nat -> Status)
      ensures Valid()
      ensures this.isOpen == isOpen && this.oracle == oracle && log == []
    {
      this.isOpen := isOpen;
      this.oracle := oracle;
      calls := 0;
      initiallyOpened := isOpen;
      log := [];
    }

    method Open() returns (status: Status)
      requires Valid()
      modifies this
      ensures Valid()
      ensures status == oracle(old(calls))
      ensures log == old(log) + [Event(OpenCall, status)]
      ensures isOpen == (old(isOpen) || status == Ok)
    {
      status := oracle(calls);
      if status == Ok {
        isOpen := true;
      }
      Record(Event(OpenCall, status));
    }

    method ControlTransferOut(setup: Setup, data: Option<seq<int>>) returns (status: Status)
      requires Valid()
      modifies this
      ensures Valid()
      ensures status == oracle(old(calls))
      ensures log == old(log) + [Event(TransferCall(setup, data), status)]
      ensures isOpen == old(isOpen)
    {
      status := oracle(calls);
      Record(Event(TransferCall(setup, data), status));
    }

    method Reset() returns (status: Status)
      requires Valid()
      modifies this
      ensures Valid()
      ensures status == oracle(old(calls))
      ensures log == old(log) + [Event(ResetCall, status)]
      ensures isOpen == old(isOpen)
    {
      status := oracle(calls);
      Record(Event(ResetCall, status));
    }

    method Close() returns (status: Status)
      requires Valid()
      modifies this
      ensures Valid()
      ensures status == oracle(old(calls))
      ensures log == old(log) + [Event(CloseCall, status)]
      ensures isOpen == (old(isOpen) && status != Ok)
    {
      status := oracle(calls);
      if status == Ok {
        isOpen := false;
      }
      Record(Event(CloseCall, status));
    }

    /** Counts the call just issued and appends it to the log. */
    method Record(e: Event)
      requires |log| == calls
      requires e.status == oracle(calls)
      requires isOpen == OpenedAfter(OpenedAfter(initiallyOpened, log), [e])
      modifies this
      ensures Valid()
      ensures log == old(log) + [e] && isOpen == old(isOpen)
    {
      OpenedAfterAppend(initiallyOpened, log, [e]);
      calls := calls + 1;
      log := log + [e];
    }
  }
}
