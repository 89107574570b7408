/** What `configure` does, as a reference definition: the steps it plans for a set of
    options, and a run of those steps against the device's oracle that logs each call
    and stops at the first validation error or call that does not complete with Ok. */
module Sequencer {
  import opened Wrappers
  import opened Usb
  import opened Errors
  import opened Descriptor
  import opened Protocol

  /** The fields a caller asks `configure` to write (`CP210XOptions`); `None` is `undefined`. */
  datatype Options = Options(
    vid: Option<int>,
    pid: Option<int>,
    name: Option<seq<CodeUnit>>,
    serial: Option<seq<CodeUnit>>,
    flush: Option<int>,
    mode: Option<int>)

  /** The order in which `configure` applies the items. */
  const Order: seq<CfgItem> := [Vid, Pid, Name, Serial, Flush, Mode]

  /** The position of `item` in `Order`. */
  function Rank(item: CfgItem): (r: nat)
    ensures r < |Order| && Order[r] == item
  {
    match item
    case Vid => 0
    case Pid => 1
    case Name => 2
    case Serial => 3
    case Flush => 4
    case Mode => 5
  }

  /** The field `o` asks to write for `item`, if any. */
  function Requested(o: Options, item: CfgItem): Option<Field>
  {
    match item
    case Vid => if o.vid.Some? then Some(VidField(o.vid.value)) else None
    case Pid => if o.pid.Some? then Some(PidField(o.pid.value)) else None
    case Name => if o.name.Some? then Some(NameField(o.name.value)) else None
    case Serial => if o.serial.Some? then Some(SerialField(o.serial.value)) else None
    case Flush => if o.flush.Some? then Some(FlushField(o.flush.value)) else None
    case Mode => if o.mode.Some? then Some(ModeField(o.mode.value)) else None
  }

  /** The fields `o` requests for `items`, in the order of `items`. */
  function FieldsOf(o: Options, items: seq<CfgItem>): seq<Field>
    decreases |items|
  {
    if items == [] then []
    else (match Requested(o, items[0]) case Some(f) => [f] case None => []) + FieldsOf(o, items[1..])
  }

  /** The fields `configure` writes, in the order it writes them. */
  function Fields(o: Options): seq<Field>
  {
    FieldsOf(o, Order)
  }

  /** Items in strictly increasing rank. */
  predicate Ascending(items: seq<CfgItem>)
  {
    forall i, j :: 0 <= i < j < |items| ==> Rank(items[i]) < Rank(items[j])
  }

  /** Every field in `fs` is the one `o` requests for its item, an item among `items`. */
  predicate RequestedAmong(o: Options, items: seq<CfgItem>, fs: seq<Field>)
  {
    forall i :: 0 <= i < |fs| ==> ItemOf(fs[i]) in items && Requested(o, ItemOf(fs[i])) == Some(fs[i])
  }

  lemma {:induction false} FieldsOfRequested(o: Options, items: seq<CfgItem>)
    ensures RequestedAmong(o, items, FieldsOf(o, items))
    decreases |items|
  {
    if items != [] {
      var rest := FieldsOf(o, items[1..]);
      FieldsOfRequested(o, items[1..]);
      match Requested(o, items[0])
      case None =>
        assert FieldsOf(o, items) == rest;
        forall i | 0 <= i < |rest|
          ensures ItemOf(rest[i]) in items
        {
          assert ItemOf(rest[i]) in items[1..];
        }
      case Some(f) =>
        assert ItemOf(f) == items[0];
        var fs := [f] + rest;
        assert FieldsOf(o, items) == fs;
        forall i | 0 <= i < |fs|
          ensures ItemOf(fs[i]) in items && Requested(o, ItemOf(fs[i])) == Some(fs[i])
        {
          if i > 0 {
            assert fs[i] == rest[i - 1];
            assert ItemOf(rest[i - 1]) in items[1..];
          }
        }
    }
  }

  lemma {:induction false} FieldsOfSorted(o: Options, items: seq<CfgItem>)
    requires Ascending(items)
    ensures forall i, j :: 0 <= i < j < |FieldsOf(o, items)| ==>
      Rank(ItemOf(FieldsOf(o, items)[i])) < Rank(ItemOf(FieldsOf(o, items)[j]))
    decreases |items|
  {
    if items != [] {
      var rest := FieldsOf(o, items[1..]);
      FieldsOfSorted(o, items[1..]);
      match Requested(o, items[0])
      case None =>
        assert FieldsOf(o, items) == rest;
      case Some(f) =>
        assert ItemOf(f) == items[0];
        FieldsOfRequested(o, items[1..]);
        var fs := [f] + rest;
        assert FieldsOf(o, items) == fs;
        forall i, j | 0 <= i < j < |fs|
          ensures Rank(ItemOf(fs[i])) < Rank(ItemOf(fs[j]))
        {
          assert fs[j] == rest[j - 1];
          if i > 0 {
            assert fs[i] == rest[i - 1];
          } else {
            var later := ItemOf(rest[j - 1]);
            assert later in items[1..];
            var k :| 0 <= k < |items[1..]| && items[1..][k] == later;
            assert later == items[k + 1];
          }
        }
    }
  }

  lemma {:induction false} FieldsOfComplete(o: Options, items: seq<CfgItem>)
    ensures forall item :: item in items && Requested(o, item).Some? ==> Requested(o, item).value in FieldsOf(o, items)
    decreases |items|
  {
    if items != [] {
      FieldsOfComplete(o, items[1..]);
      var head := match Requested(o, items[0]) case Some(f) => [f] case None => [];
      assert FieldsOf(o, items) == head + FieldsOf(o, items[1..]);
      forall item | item in items && Requested(o, item).Some?
        ensures Requested(o, item).value in FieldsOf(o, items)
      {
        if item == items[0] {
          assert Requested(o, item).value in head;
        } else {
          assert item in items[1..];
        }
      }
    }
  }

  /** Items none of which is requested yield no field. */
  lemma {:induction false} FieldsOfNone(o: Options, items: seq<CfgItem>)
    requires forall item :: Requested(o, item).None?
    ensures FieldsOf(o, items) == []
    decreases |items|
  {
    if items != [] {
      FieldsOfNone(o, items[1..]);
    }
  }

  /** `Order` lists every item once, in increasing rank. */
  lemma OrderCovers()
    ensures Ascending(Order)
    ensures forall item :: item in Order
  {
    forall i | 0 <= i < |Order|
      ensures Rank(Order[i]) == i
    {
      assert i in {0, 1, 2, 3, 4, 5};
    }
    forall item
      ensures item in Order
    {
      assert Order[Rank(item)] == item;
    }
  }

  /** `configure` writes exactly the fields that are present, each once, in the order
      vid, pid, name, serial, flush, mode. */
  lemma FieldsInOrder(o: Options)
    ensures forall i :: 0 <= i < |Fields(o)| ==> Requested(o, ItemOf(Fields(o)[i])) == Some(Fields(o)[i])
    ensures forall item :: Requested(o, item).Some? ==> Requested(o, item).value in Fields(o)
    ensures forall i, j :: 0 <= i < j < |Fields(o)| ==> Rank(ItemOf(Fields(o)[i])) < Rank(ItemOf(Fields(o)[j]))
  {
    OrderCovers();
    FieldsOfRequested(o, Order);
    FieldsOfSorted(o, Order);
    FieldsOfComplete(o, Order);
  }

  /** One step of `configure`. */
  datatype Step = DoOpen | SetField(field: Field) | DoReset | DoClose

  /** One field-writing step per field, in order. */
  function Sends(fs: seq<Field>): (steps: seq<Step>)
    ensures |steps| == |fs|
    ensures forall i :: 0 <= i < |fs| ==> steps[i] == SetField(fs[i])
    decreases |fs|
  {
    if fs == [] then [] else [SetField(fs[0])] + Sends(fs[1..])
  }

  /** The steps `configure` takes on a device whose `opened` flag is `isOpen`: open it if it is
      closed, write the fields, reset, and close it again if it opened it. */
  function Plan(isOpen: bool, o: Options): seq<Step>
  {
    (if isOpen then [] else [DoOpen]) + Sends(Fields(o)) + [DoReset] + (if isOpen then [] else [DoClose])
  }

  /** The call a step makes, or the validation error it throws before making one. */
  function Prepare(s: Step): Result<Call, Error>
  {
    match s
    case DoOpen => Success(OpenCall)
    case SetField(f) => FieldRequest(f)
    case DoReset => Success(ResetCall)
    case DoClose => Success(CloseCall)
  }

  /** Making a prepared call as the n-th call on the device: the event it logs and whether it
      succeeded. A validation error makes no call. */
  function Issue(prepared: Result<Call, Error>, oracle: nat -> Status, n: nat): (seq<Event>, Outcome<Error>)
  {
    match prepared
    case Failure(e) => ([], Fail(e))
    case Success(call) =>
      var status := oracle(n);
      ([Event(call, status)], if status == Ok then Pass else Fail(CallFailed(call, status)))
  }

  /** Running steps in turn from the n-th call on: the calls made and the overall outcome. */
  function Run(plan: seq<Step>, oracle: nat -> Status, n: nat): (seq<Event>, Outcome<Error>)
    decreases |plan|
  {
    if plan == [] then ([], Pass)
    else
      var first := Issue(Prepare(plan[0]), oracle, n);
      if first.1.Fail? then first
      else
        var rest := Run(plan[1..], oracle, n + 1);
        (first.0 + rest.0, rest.1)
  }

  /** Reference definition of `configure`. */
  function ConfigureRun(isOpen: bool, o: Options, oracle: nat -> Status, n: nat): (seq<Event>, Outcome<Error>)
  {
    Run(Plan(isOpen, o), oracle, n)
  }

  /** The steps `configure` takes for `item`: its field step when the item is requested. */
  function Item(o: Options, item: CfgItem): seq<Step>
  {
    match Requested(o, item)
    case Some(f) => [SetField(f)]
    case None => []
  }

  /** The field steps for at most one field, then the rest. */
  lemma SendsCons(head: seq<Field>, rest: seq<Field>, tail: seq<Step>)
    requires |head| <= 1
    ensures Sends(head + rest) + tail == Sends(head) + (Sends(rest) + tail)
  {
    if head == [] {
      assert head + rest == rest;
    } else {
      assert (head + rest)[1..] == rest;
      assert Sends(head) == [SetField(head[0])];
    }
  }

  /** The field steps for `items`: the one for its first item, then the rest. */
  lemma SendsFrom(o: Options, items: seq<CfgItem>, tail: seq<Step>)
    requires items != []
    ensures Sends(FieldsOf(o, items)) + tail == Item(o, items[0]) + (Sends(FieldsOf(o, items[1..])) + tail)
  {
    var head := match Requested(o, items[0]) case Some(f) => [f] case None => [];
    assert FieldsOf(o, items) == head + FieldsOf(o, items[1..]);
    assert Item(o, items[0]) == Sends(head);
    SendsCons(head, FieldsOf(o, items[1..]), tail);
  }

  /** The field steps for serial, flush and mode, item by item. */
  lemma SendsLate(o: Options, tail: seq<Step>)
    ensures Sends(FieldsOf(o, [Serial, Flush, Mode])) + tail == Item(o, Serial) + (Item(o, Flush) + (Item(o, Mode) + tail))
  {
    var r6 := Sends(FieldsOf(o, [])) + tail;
    assert r6 == tail;
    assert [Mode][1..] == [];
    var r5 := Sends(FieldsOf(o, [Mode])) + tail;
    assert r5 == Item(o, Mode) + r6 by { SendsFrom(o, [Mode], tail); }
    assert [Flush, Mode][1..] == [Mode];
    var r4 := Sends(FieldsOf(o, [Flush, Mode])) + tail;
    assert r4 == Item(o, Flush) + r5 by { SendsFrom(o, [Flush, Mode], tail); }
    assert [Serial, Flush, Mode][1..] == [Flush, Mode];
    SendsFrom(o, [Serial, Flush, Mode], tail);
  }

  /** The field steps for vid, pid and name, item by item, followed by the rest. */
  lemma SendsEarly(o: Options, tail: seq<Step>)
    ensures Sends(Fields(o)) + tail == Item(o, Vid) + (Item(o, Pid) + (Item(o, Name) + (Sends(FieldsOf(o, [Serial, Flush, Mode])) + tail)))
  {
    assert Order[1..][1..][1..] == [Serial, Flush, Mode];
    var r2 := Sends(FieldsOf(o, Order[1..][1..])) + tail;
    assert r2 == Item(o, Name) + (Sends(FieldsOf(o, [Serial, Flush, Mode])) + tail) by { SendsFrom(o, Order[1..][1..], tail); }
    var r1 := Sends(FieldsOf(o, Order[1..])) + tail;
    assert r1 == Item(o, Pid) + r2 by { SendsFrom(o, Order[1..], tail); }
    SendsFrom(o, Order, tail);
  }

  /** The plan, item by item, nested the way `configure` works through it. */
  lemma PlanItems(isOpen: bool, o: Options)
    ensures Plan(isOpen, o) ==
      (if isOpen then [] else [DoOpen]) + (Item(o, Vid) + (Item(o, Pid) + (Item(o, Name) + (Item(o, Serial)
        + (Item(o, Flush) + (Item(o, Mode) + ([DoReset] + (if isOpen then [] else [DoClose]))))))))
  {
    var tail := [DoReset] + (if isOpen then [] else [DoClose]);
    SendsLate(o, tail);
    SendsEarly(o, tail);
    assert Plan(isOpen, o) == (if isOpen then [] else [DoOpen]) + (Sends(Fields(o)) + tail);
  }

  /** Where a session of calls on the device stands: the calls made, how many, and the outcome. */
  datatype Session = Session(log: seq<Event>, calls: nat, outcome: Outcome<Error>)

  /** Taking one step in a session; once the session has failed, nothing more happens. */
  function Perform(s: Session, step: Step, oracle: nat -> Status): Session
  {
    if s.outcome.Fail? then s
    else
      var (events, outcome) := Issue(Prepare(step), oracle, s.calls);
      Session(s.log + events, s.calls + |events|, outcome)
  }

  /** Taking the steps in turn. */
  function PerformAll(s: Session, steps: seq<Step>, oracle: nat -> Status): Session
    decreases |steps|
  {
    if steps == [] then s else PerformAll(Perform(s, steps[0], oracle), steps[1..], oracle)
  }

  lemma {:induction false} PerformAllAppend(s: Session, a: seq<Step>, b: seq<Step>, oracle: nat -> Status)
    ensures PerformAll(s, a + b, oracle) == PerformAll(PerformAll(s, a, oracle), b, oracle)
    decreases |a|
  {
    if a == [] {
      assert a + b == b;
    } else {
      assert (a + b)[0] == a[0] && (a + b)[1..] == a[1..] + b;
      PerformAllAppend(Perform(s, a[0], oracle), a[1..], b, oracle);
    }
  }

  lemma {:induction false} PerformAllFailed(s: Session, steps: seq<Step>, oracle: nat -> Status)
    requires s.outcome.Fail?
    ensures PerformAll(s, steps, oracle) == s
    decreases |steps|
  {
    if steps != [] {
      PerformAllFailed(s, steps[1..], oracle);
    }
  }

  lemma PerformAllOne(s: Session, step: Step, oracle: nat -> Status)
    ensures PerformAll(s, [step], oracle) == Perform(s, step, oracle)
  {
    assert [step][1..] == [];
  }

  /** A step that makes a call, taken alone in a session that has not failed: the session gains
      that call as its next one, and its status decides the outcome. */
  lemma PerformCall(s: Session, step: Step, oracle: nat -> Status)
    requires s.outcome.Pass? && Prepare(step).Success?
    ensures var call, status := Prepare(step).value, oracle(s.calls);
      PerformAll(s, [step], oracle) == Session(s.log + [Event(call, status)], s.calls + 1,
                                               if status == Ok then Pass else Fail(CallFailed(call, status)))
  {
    PerformAllOne(s, step, oracle);
  }

  /** Performing an item's steps: the field step when the item is requested, else nothing. */
  lemma PerformItem(s: Session, o: Options, item: CfgItem, oracle: nat -> Status)
    ensures PerformAll(s, Item(o, item), oracle) ==
      match Requested(o, item) case Some(f) => Perform(s, SetField(f), oracle) case None => s
    ensures s.outcome.Fail? ==> PerformAll(s, Item(o, item), oracle) == s
  {
    if Requested(o, item).Some? {
      PerformAllOne(s, SetField(Requested(o, item).value), oracle);
    }
  }

  /** Performing steps one at a time in a session that has not failed is `Run`: the session
      gains exactly the run's calls and ends with its outcome. */
  lemma {:induction false} PerformAllIsRun(log: seq<Event>, n: nat, plan: seq<Step>, oracle: nat -> Status)
    ensures var (events, out) := Run(plan, oracle, n);
      PerformAll(Session(log, n, Pass), plan, oracle) == Session(log + events, n + |events|, out)
    decreases |plan|
  {
    if plan == [] {
      assert log + [] == log;
    } else {
      var first := Issue(Prepare(plan[0]), oracle, n);
      var next := Perform(Session(log, n, Pass), plan[0], oracle);
      if first.1.Fail? {
        PerformAllFailed(next, plan[1..], oracle);
      } else {
        var rest := Run(plan[1..], oracle, n + 1);
        PerformAllIsRun(log + first.0, n + 1, plan[1..], oracle);
        assert log + first.0 + rest.0 == log + (first.0 + rest.0);
      }
    }
  }

  /** An error raised while writing a field: a validation error or a failed transfer. */
  predicate FromField(e: Error)
  {
    e.CallFailed? ==> e.call.TransferCall?
  }

  /** A run makes the calls of a prefix of its steps, in order, each step's call as the
      n+i-th call on the device. */
  lemma {:induction false} RunLog(plan: seq<Step>, oracle: nat -> Status, n: nat)
    ensures |Run(plan, oracle, n).0| <= |plan|
    ensures forall i :: 0 <= i < |Run(plan, oracle, n).0| ==>
      Prepare(plan[i]).Success? && Run(plan, oracle, n).0[i] == Event(Prepare(plan[i]).value, oracle(n + i))
    decreases |plan|
  {
    if plan != [] {
      var first := Issue(Prepare(plan[0]), oracle, n);
      if first.1.Pass? {
        RunLog(plan[1..], oracle, n + 1);
        var rest := Run(plan[1..], oracle, n + 1);
        var log := Run(plan, oracle, n).0;
        assert log == first.0 + rest.0;
        forall i | 1 <= i < |log|
          ensures Prepare(plan[i]).Success? && log[i] == Event(Prepare(plan[i]).value, oracle(n + i))
        {
          assert log[i] == rest.0[i - 1] && plan[i] == plan[1..][i - 1];
        }
      }
    }
  }

  /** A run stops at its first failure: every call but the last succeeded; it succeeds exactly
      when every step was made and succeeded; and when it fails, the failure is the
      validation error of the first step not made, or the status of the last call. */
  lemma {:induction false} RunStops(plan: seq<Step>, oracle: nat -> Status, n: nat)
    ensures var (log, out) := Run(plan, oracle, n);
      && (forall i :: 0 <= i < |log| - 1 ==> log[i].status == Ok)
      && (out.Pass? <==> |log| == |plan| && forall i :: 0 <= i < |log| ==> log[i].status == Ok)
      && (out.Fail? ==>
            || (|log| < |plan| && Prepare(plan[|log|]) == Failure(out.error)
                && forall i :: 0 <= i < |log| ==> log[i].status == Ok)
            || (|log| > 0 && log[|log| - 1].status != Ok
                && out.error == CallFailed(log[|log| - 1].call, log[|log| - 1].status)))
    decreases |plan|
  {
    RunLog(plan, oracle, n);
    if plan != [] {
      var first := Issue(Prepare(plan[0]), oracle, n);
      if first.1.Pass? {
        RunStops(plan[1..], oracle, n + 1);
        var rest := Run(plan[1..], oracle, n + 1);
        var log := Run(plan, oracle, n).0;
        assert log == first.0 + rest.0;
        assert |first.0| == 1 && first.0[0].status == Ok;
        assert forall i :: 1 <= i < |log| ==> log[i] == rest.0[i - 1];
        if rest.1.Fail? {
          if |rest.0| < |plan[1..]| && Prepare(plan[1..][|rest.0|]) == Failure(rest.1.error) {
            assert plan[|log|] == plan[1..][|rest.0|];
          } else {
            assert log[|log| - 1] == rest.0[|rest.0| - 1];
          }
        }
      }
    }
  }

  lemma PlanIndex(isOpen: bool, o: Options, i: int)
    requires 0 <= i < |Plan(isOpen, o)|
    ensures Plan(isOpen, o)[i] == (if i < (if isOpen then 0 else 1) then DoOpen
                          else if i < (if isOpen then 0 else 1) + |Fields(o)| then SetField(Fields(o)[i - (if isOpen then 0 else 1)])
                          else if i == (if isOpen then 0 else 1) + |Fields(o)| then DoReset
                          else DoClose)
  {
    BracketIndex(isOpen, Fields(o), i);
  }

  /** Indexing into the steps for `fs` bracketed by the open, reset and close. */
  lemma BracketIndex(isOpen: bool, fs: seq<Field>, i: int)
    requires 0 <= i < |(if isOpen then [] else [DoOpen]) + Sends(fs) + [DoReset] + (if isOpen then [] else [DoClose])|
    ensures ((if isOpen then [] else [DoOpen]) + Sends(fs) + [DoReset] + (if isOpen then [] else [DoClose]))[i]
      == (if i < (if isOpen then 0 else 1) then DoOpen
          else if i < (if isOpen then 0 else 1) + |fs| then SetField(fs[i - (if isOpen then 0 else 1)])
          else if i == (if isOpen then 0 else 1) + |fs| then DoReset
          else DoClose)
  {
    var opening, closing := (if isOpen then [] else [DoOpen]), (if isOpen then [] else [DoClose]);
    var steps := Sends(fs);
    var off, m := (if isOpen then 0 else 1), |fs|;
    var body := opening + steps;
    var plan := body + [DoReset] + closing;
    if i < off + m {
      assert plan[i] == body[i];
      if i >= off {
        assert body[i] == steps[i - off];
      }
    } else if i > off + m {
      assert plan[i] == closing[i - off - m - 1];
    }
  }

  lemma PlanAt(isOpen: bool, o: Options)
    ensures var plan, off, m := Plan(isOpen, o), (if isOpen then 0 else 1), |Fields(o)|;
      && |plan| == 2 * off + m + 1
      && (forall i :: 0 <= i < |plan| ==>
            plan[i] == (if i < off then DoOpen
                        else if i < off + m then SetField(Fields(o)[i - off])
                        else if i == off + m then DoReset
                        else DoClose))
  {
    forall i | 0 <= i < |Plan(isOpen, o)|
      ensures Plan(isOpen, o)[i] == (if i < (if isOpen then 0 else 1) then DoOpen
                          else if i < (if isOpen then 0 else 1) + |Fields(o)| then SetField(Fields(o)[i - (if isOpen then 0 else 1)])
                          else if i == (if isOpen then 0 else 1) + |Fields(o)| then DoReset
                          else DoClose)
    {
      PlanIndex(isOpen, o, i);
    }
  }

  lemma PrepareCall(s: Step)
    ensures Prepare(s).Success? ==>
      && (Prepare(s).value == OpenCall <==> s == DoOpen)
      && (Prepare(s).value.TransferCall? <==> s.SetField?)
      && (Prepare(s).value == ResetCall <==> s == DoReset)
      && (Prepare(s).value == CloseCall <==> s == DoClose)
    ensures Prepare(s).Failure? ==> s.SetField? && FromField(Prepare(s).error)
  {
    if s.SetField? {
      FieldRequestHeader(s.field);
    }
  }

  /** The i-th call `configure` makes: open (when it found the device closed), then one
      transfer per requested field, then the reset, then the close. */
  lemma ConfigureCalls(isOpen: bool, o: Options, oracle: nat -> Status, n: nat)
    ensures var log, off, m := ConfigureRun(isOpen, o, oracle, n).0, (if isOpen then 0 else 1), |Fields(o)|;
      && |Plan(isOpen, o)| == 2 * off + m + 1
      && |log| <= 2 * off + m + 1
      && (forall i :: 0 <= i < |log| ==>
            && log[i].status == oracle(n + i)
            && (i < off ==> log[i].call == OpenCall)
            && (off <= i < off + m ==>
                  FieldRequest(Fields(o)[i - off]) == Success(log[i].call) && log[i].call.TransferCall?)
            && (i == off + m ==> log[i].call == ResetCall)
            && (i > off + m ==> log[i].call == CloseCall && !isOpen))
  {
    var plan := Plan(isOpen, o);
    RunLog(plan, oracle, n);
    PlanAt(isOpen, o);
    var off := if isOpen then 0 else 1;
    var log := ConfigureRun(isOpen, o, oracle, n).0;
    forall i | off <= i < off + |Fields(o)| && i < |log|
      ensures log[i].call.TransferCall?
    {
      PlanIndex(isOpen, o, i);
      PrepareCall(plan[i]);
    }
  }

  /** Every step `configure` makes comes after the previous one succeeded, and it succeeds
      exactly when it made every planned call and each succeeded. */
  lemma ConfigureStops(isOpen: bool, o: Options, oracle: nat -> Status, n: nat)
    ensures var (log, out) := ConfigureRun(isOpen, o, oracle, n);
      && (forall i :: 0 <= i < |log| - 1 ==> log[i].status == Ok)
      && (out.Pass? <==> |log| == |Plan(isOpen, o)| && forall i :: 0 <= i < |log| ==> log[i].status == Ok)
  {
    RunStops(Plan(isOpen, o), oracle, n);
  }

  /** `configure` opens the device first if and only if it found it closed, and opens it at no other point. */
  lemma ConfigureOpensFirst(isOpen: bool, o: Options, oracle: nat -> Status, n: nat)
    ensures var log := ConfigureRun(isOpen, o, oracle, n).0;
      && ((|log| > 0 && log[0].call == OpenCall) <==> !isOpen)
      && (forall i :: 0 < i < |log| ==> log[i].call != OpenCall)
  {
    ConfigureCalls(isOpen, o, oracle, n);
    RunStops(Plan(isOpen, o), oracle, n);
    PlanAt(isOpen, o);
  }

  /** Transfers go out only for requested fields, in the fixed order and at the position after
      the open, each being the request that field's setter sends; when `configure` succeeds, every
      requested field was sent and succeeded. */
  lemma ConfigureSendsFieldsInOrder(isOpen: bool, o: Options, oracle: nat -> Status, n: nat)
    ensures var (log, out) := ConfigureRun(isOpen, o, oracle, n);
      var off, m := (if isOpen then 0 else 1), |Fields(o)|;
      && (forall i :: 0 <= i < |log| && log[i].call.TransferCall? ==>
            off <= i < off + m && FieldRequest(Fields(o)[i - off]) == Success(log[i].call))
      && (out.Pass? ==> off + m < |log| && forall k :: 0 <= k < m ==>
            FieldRequest(Fields(o)[k]) == Success(log[off + k].call) && log[off + k].status == Ok)
  {
    ConfigureCalls(isOpen, o, oracle, n);
    ConfigureStops(isOpen, o, oracle, n);
    var (log, out) := ConfigureRun(isOpen, o, oracle, n);
    var off, m := (if isOpen then 0 else 1), |Fields(o)|;
    if out.Pass? {
      forall k | 0 <= k < m
        ensures FieldRequest(Fields(o)[k]) == Success(log[off + k].call) && log[off + k].status == Ok
      {
        var i := off + k;
        assert i < |log| && i - off == k;
        assert log[i].status == Ok;
      }
    }
  }

  /** `configure` resets at most once, after every field transfer; it has reset successfully
      when it succeeds; and a field that fails validation or transfer stops it before the reset
      and the close. */
  lemma ConfigureResetsOnce(isOpen: bool, o: Options, oracle: nat -> Status, n: nat)
    ensures var (log, out) := ConfigureRun(isOpen, o, oracle, n);
      var off, m := (if isOpen then 0 else 1), |Fields(o)|;
      && (forall i :: 0 <= i < |log| && log[i].call == ResetCall ==> i == off + m)
      && (out.Pass? ==> off + m < |log| && log[off + m] == Event(ResetCall, Ok))
      && (out.Fail? && FromField(out.error) ==>
            forall i :: 0 <= i < |log| ==> log[i].call != ResetCall && log[i].call != CloseCall)
  {
    var plan := Plan(isOpen, o);
    ConfigureCalls(isOpen, o, oracle, n);
    RunStops(plan, oracle, n);
    PlanAt(isOpen, o);
    var (log, out) := ConfigureRun(isOpen, o, oracle, n);
    var off, m := (if isOpen then 0 else 1), |Fields(o)|;
    if out.Fail? && FromField(out.error) {
      if |log| < |plan| && Prepare(plan[|log|]) == Failure(out.error) {
        PrepareCall(plan[|log|]);
        assert |log| < off + m;
      } else {
        assert log[|log| - 1].call.TransferCall?;
        assert |log| - 1 < off + m;
      }
    }
  }

  /** `configure` closes the device only if it found it closed, only as its last call and only
      after a successful reset; and after a successful reset of a device it opened, it closes it. */
  lemma ConfigureClosesOnlyWhatItOpened(isOpen: bool, o: Options, oracle: nat -> Status, n: nat)
    ensures var (log, out) := ConfigureRun(isOpen, o, oracle, n);
      var off, m := (if isOpen then 0 else 1), |Fields(o)|;
      && (forall i :: 0 <= i < |log| && log[i].call == CloseCall ==>
            !isOpen && i == off + m + 1 == |log| - 1 && log[off + m] == Event(ResetCall, Ok))
      && (!isOpen && off + m < |log| && log[off + m] == Event(ResetCall, Ok) ==>
            |log| == off + m + 2 && log[off + m + 1].call == CloseCall)
  {
    var plan := Plan(isOpen, o);
    ConfigureCalls(isOpen, o, oracle, n);
    RunStops(plan, oracle, n);
    PlanAt(isOpen, o);
  }

  /** Open/close bracketing: after a successful `configure` the device is open exactly when it
      was before; a device found open is never closed; a device found closed and left after a
      failure is open exactly when the open call succeeded. */
  lemma ConfigureRestoresOpenState(isOpen: bool, o: Options, oracle: nat -> Status, n: nat)
    ensures var (log, out) := ConfigureRun(isOpen, o, oracle, n);
      && (out.Pass? ==> OpenedAfter(isOpen, log) == isOpen)
      && (isOpen ==> OpenedAfter(isOpen, log))
      && (!isOpen && out.Fail? ==> (OpenedAfter(isOpen, log) <==> |log| > 0 && log[0].status == Ok))
  {
    ConfigureCalls(isOpen, o, oracle, n);
    ConfigureStops(isOpen, o, oracle, n);
    var (log, out) := ConfigureRun(isOpen, o, oracle, n);
    if isOpen {
      OpenedAfterNoLifecycle(isOpen, log);
    } else if out.Pass? {
      assert log[|log| - 1] == Event(CloseCall, Ok);
    } else if |log| > 0 {
      assert [log[0]][..0] == [];
      OpenedAfterFirst(isOpen, log);
    }
  }

  /** With no field requested, `configure` on an open device makes one call, the reset. */
  lemma EmptyOptionsOnlyReset(o: Options, oracle: nat -> Status, n: nat)
    requires forall item :: Requested(o, item).None?
    ensures var status := oracle(n);
      ConfigureRun(true, o, oracle, n)
        == ([Event(ResetCall, status)], if status == Ok then Pass else Fail(CallFailed(ResetCall, status)))
  {
    FieldsOfNone(o, Order);
    assert Sends(Fields(o)) == [];
    assert Plan(true, o) == [DoReset];
    assert [DoReset][1..] == [];
    var first := Issue(Prepare(DoReset), oracle, n);
    assert first.0 + [] == first.0;
  }

  /** A name transfer that succeeds followed by a serial transfer that fails ends a run,
      whatever steps come after them. */
  lemma NameThenFailedSerial(name: seq<CodeUnit>, serial: seq<CodeUnit>, rest: seq<Step>, oracle: nat -> Status, m: nat)
    requires NameRequest(name).Success? && SerialRequest(serial).Success?
    requires oracle(m) == Ok && oracle(m + 1) != Ok
    ensures var nameCall, serialCall := NameRequest(name).value, SerialRequest(serial).value;
      Run([SetField(NameField(name)), SetField(SerialField(serial))] + rest, oracle, m)
        == ([Event(nameCall, Ok), Event(serialCall, oracle(m + 1))], Fail(CallFailed(serialCall, oracle(m + 1))))
  {
    var steps := [SetField(NameField(name)), SetField(SerialField(serial))] + rest;
    assert steps[1..] == [SetField(SerialField(serial))] + rest;
    assert steps[1..][0] == SetField(SerialField(serial));
    var nameCall, serialCall := NameRequest(name).value, SerialRequest(serial).value;
    var second := Run(steps[1..], oracle, m + 1);
    assert second == ([Event(serialCall, oracle(m + 1))], Fail(CallFailed(serialCall, oracle(m + 1))));
    assert steps[0] == SetField(NameField(name));
    assert Run(steps, oracle, m) == ([Event(nameCall, Ok)] + second.0, second.1);
    assert [Event(nameCall, Ok)] + second.0 == [Event(nameCall, Ok), Event(serialCall, oracle(m + 1))];
  }

  /** A run that starts with a successful open logs it and goes on with the remaining steps. */
  lemma RunAfterOpen(rest: seq<Step>, oracle: nat -> Status, n: nat)
    requires oracle(n) == Ok
    ensures var after := Run(rest, oracle, n + 1);
      Run([DoOpen] + rest, oracle, n) == ([Event(OpenCall, Ok)] + after.0, after.1)
  {
    assert ([DoOpen] + rest)[0] == DoOpen;
    assert ([DoOpen] + rest)[1..] == rest;
  }

  /** A device that was open, or that a successful open starts the log, is still open after
      any number of transfers. */
  lemma OpenAfterTransfers(isOpen: bool, transfers: seq<Event>)
    requires forall i :: 0 <= i < |transfers| ==> transfers[i].call.TransferCall?
    ensures OpenedAfter(isOpen, (if isOpen then [] else [Event(OpenCall, Ok)]) + transfers)
  {
    var opening := if isOpen then [] else [Event(OpenCall, Ok)];
    assert OpenedAfter(isOpen, opening) by {
      if !isOpen {
        assert opening[..0] == [];
      }
    }
    OpenedAfterAppend(isOpen, opening, transfers);
    OpenedAfterNoLifecycle(OpenedAfter(isOpen, opening), transfers);
  }

  /** The run of an optional open, a successful name transfer and a failed serial transfer,
      whatever steps follow: the log stops at the serial, and the device is left open. */
  lemma OpenNameThenFailedSerial(isOpen: bool, name: seq<CodeUnit>, serial: seq<CodeUnit>, rest: seq<Step>,
                                 oracle: nat -> Status, n: nat)
    requires NameRequest(name).Success? && SerialRequest(serial).Success?
    requires isOpen || oracle(n) == Ok
    requires var m := if isOpen then n else n + 1; oracle(m) == Ok && oracle(m + 1) != Ok
    ensures var m := if isOpen then n else n + 1;
      var nameCall, serialCall := NameRequest(name).value, SerialRequest(serial).value;
      var run := Run((if isOpen then [] else [DoOpen]) + ([SetField(NameField(name)), SetField(SerialField(serial))] + rest), oracle, n);
      run == ((if isOpen then [] else [Event(OpenCall, Ok)]) + [Event(nameCall, Ok), Event(serialCall, oracle(m + 1))],
              Fail(CallFailed(serialCall, oracle(m + 1))))
      && OpenedAfter(isOpen, run.0)
  {
    var m := if isOpen then n else n + 1;
    var body := [SetField(NameField(name)), SetField(SerialField(serial))] + rest;
    var nameCall, serialCall := NameRequest(name).value, SerialRequest(serial).value;
    var tailLog := [Event(nameCall, Ok), Event(serialCall, oracle(m + 1))];
    assert Run(body, oracle, m) == (tailLog, Fail(CallFailed(serialCall, oracle(m + 1)))) by {
      NameThenFailedSerial(name, serial, rest, oracle, m);
    }
    if isOpen {
      assert [] + body == body;
      assert [] + tailLog == tailLog;
    } else {
      RunAfterOpen(body, oracle, n);
    }
    assert nameCall.TransferCall? && serialCall.TransferCall?;
    OpenAfterTransfers(isOpen, tailLog);
  }

  /** The plan for a name, a serial and a flush and nothing else. */
  lemma NameSerialFlushPlan(isOpen: bool, o: Options)
    requires o.vid.None? && o.pid.None? && o.mode.None?
    requires o.name.Some? && o.serial.Some? && o.flush.Some?
    ensures Plan(isOpen, o) == (if isOpen then [] else [DoOpen])
      + ([SetField(NameField(o.name.value)), SetField(SerialField(o.serial.value))]
      + ([SetField(FlushField(o.flush.value)), DoReset] + (if isOpen then [] else [DoClose])))
  {
    PlanItems(isOpen, o);
  }

  /** Given a name, a serial and a flush and nothing else, when the serial's transfer fails
      `configure` has made the open it needed and sent the name, and stops there: no flush, no
      reset, no close. The device is left open, whether or not `configure` opened it. */
  lemma SerialFailureSkipsFlush(isOpen: bool, o: Options, oracle: nat -> Status, n: nat)
    requires o.vid.None? && o.pid.None? && o.mode.None?
    requires o.name.Some? && o.serial.Some? && o.flush.Some?
    requires NameRequest(o.name.value).Success? && SerialRequest(o.serial.value).Success?
    requires isOpen || oracle(n) == Ok
    requires var m := if isOpen then n else n + 1; oracle(m) == Ok && oracle(m + 1) != Ok
    ensures var m := if isOpen then n else n + 1;
      var nameCall, serialCall := NameRequest(o.name.value).value, SerialRequest(o.serial.value).value;
      ConfigureRun(isOpen, o, oracle, n)
        == ((if isOpen then [] else [Event(OpenCall, Ok)]) + [Event(nameCall, Ok), Event(serialCall, oracle(m + 1))],
            Fail(CallFailed(serialCall, oracle(m + 1))))
    ensures OpenedAfter(isOpen, ConfigureRun(isOpen, o, oracle, n).0)
  {
    NameSerialFlushPlan(isOpen, o);
    var rest := [SetField(FlushField(o.flush.value)), DoReset] + (if isOpen then [] else [DoClose]);
    OpenNameThenFailedSerial(isOpen, o.name.value, o.serial.value, rest, oracle, n);
  }
}
