/** Every report that the device delivers arrives, once and in order; and what ends the transfer and the event
    thread. */
module HidDelivery {
  import opened Reports
  import opened HidProtocol
  import opened HidReaders

  /** The reports of the completed transfers of a run. */
  function Delivered(run: seq<Action>): seq<Report> {
    if run == [] then []
    else
      var a := run[|run| - 1];
      Delivered(run[..|run| - 1]) + if a.Complete? then [a.report] else []
  }

  /** The report that the callback is busy with, before it is in the queue. */
  function Pending(pc: CallbackPc): seq<Report> {
    match pc
    case CbLocking(report) => [report]
    case CbAttaching(report) => [report]
    case _ => []
  }

  /** The event thread is in its loop. */
  predicate Handling(pc: EventPc) {
    pc.EvLoop? || pc.EvHandling?
  }

  /** What a step of the callback does to its own place and to the history of the queue. */
  function CallbackAfter(pc: CallbackPc, submitted: bool): CallbackPc {
    match pc
    case CbLocking(report) => CbAttaching(report)
    case CbAttaching(_) => CbUnlocking
    case CbUnlocking => Submitting
    case Submitting => if submitted then Quiet else Stopping
    case Stopping => Cancelling
    case _ => CbDone
  }

  lemma CallbackFrame(s: State, woken: set<nat>, submitted: bool)
    requires CallbackMay(s, woken)
    ensures var s' := CallbackNext(s, woken, submitted);
            && s'.event == s.event && s'.callback == CallbackAfter(s.callback, submitted) && !s.callback.Quiet?
            && !s.callback.CbDone?
            && s'.arrived == s.arrived + if s.callback.CbAttaching? then [s.callback.report] else []
  {
    hide Attached, WakeAll;
    if s.callback.CbAttaching? {
      WakeHasEffect(s, woken);
    }
  }

  lemma EventFrame(s: State, fatal: bool)
    requires EventMay(s)
    ensures var s' := EventNext(s, fatal);
            && s'.callback == s.callback && s'.arrived == s.arrived
            && (Handling(s'.event) <==> Handling(s.event) && !(if s.event == EvLoop then s.shutdown else fatal))
  {
    hide WakeAll;
    if s.event.EvWaking? {
      WakeHasEffect(s, Sleepers(s));
    }
  }

  /** What a step leaves alone. */
  lemma StepFrame(s: State, a: Action)
    requires Enabled(s, a)
    ensures var s' := Apply(s, a);
            match a
            case CallbackStep(woken, submitted) =>
              && s'.event == s.event && s'.callback == CallbackAfter(s.callback, submitted) && !s.callback.Quiet?
              && !s.callback.CbDone?
              && s'.arrived == s.arrived + if s.callback.CbAttaching? then [s.callback.report] else []
            case EventStep(fatal) =>
              && s'.callback == s.callback && s'.arrived == s.arrived
              && (Handling(s'.event) <==> Handling(s.event) && !(if s.event == EvLoop then s.shutdown else fatal))
            case Complete(report) =>
              s.callback == Quiet && s'.callback == CbLocking(report) && s'.event == s.event && s'.arrived == s.arrived
            case TransferTimeout =>
              s.callback == Quiet && s'.callback == Submitting && s'.event == s.event && s'.arrived == s.arrived
            case TransferStopped =>
              s.callback == Quiet && s'.callback == Stopping && s'.event == s.event && s'.arrived == s.arrived
            case _ => s'.callback == s.callback && s'.event == s.event && s'.arrived == s.arrived
  {
    hide CallbackNext, EventNext, ReaderStep, CallbackAfter;
    match a
    case Reader(r, op) => ReaderHasEffect(s, r, op);
    case CallbackStep(woken, submitted) => CallbackFrame(s, woken, submitted);
    case EventStep(fatal) => EventFrame(s, fatal);
    case _ =>
  }

  lemma StepDelivers(s: State, a: Action)
    requires Enabled(s, a)
    ensures var s' := Apply(s, a);
            s'.arrived + Pending(s'.callback)
            == s.arrived + Pending(s.callback) + if a.Complete? then [a.report] else []
  {
    StepFrame(s, a);
    hide Apply, Enabled;
  }

  /** In every run the reports in the queue's history are those delivered, in order, but for the one being attached. */
  lemma {:induction false} ArrivedIsDelivered(readers: set<nat>, run: seq<Action>)
    requires Possible(Start(readers), run)
    ensures var s := After(Start(readers), run); Delivered(run) == s.arrived + Pending(s.callback)
    decreases |run|
  {
    hide Apply, Enabled;
    if run != [] {
      var front := run[..|run| - 1];
      ArrivedIsDelivered(readers, front);
      StepDelivers(After(Start(readers), front), run[|run| - 1]);
    }
  }

  /** The transfer is on its way to its end. */
  predicate Ending(pc: CallbackPc) {
    pc.Stopping? || pc.Cancelling? || pc.CbDone?
  }

  /** The transfer ends only if libusb stops it or refuses to take it again; a timeout does not end it. Then it has
      ended for good, and nothing is delivered any more. */
  lemma EndsIff(s: State, a: Action)
    requires Enabled(s, a)
    ensures Ending(Apply(s, a).callback)
       <==> Ending(s.callback) || a == TransferStopped || (a.CallbackStep? && s.callback == Submitting && !a.submitted)
    ensures Ending(s.callback) ==> !a.Complete?
  {
    StepFrame(s, a);
    hide Apply, Enabled;
  }

  /** It leaves the loop only when it finds the device shut down or libusb fails for good, and never comes back. */
  lemma LeavesIff(s: State, a: Action)
    requires Enabled(s, a)
    ensures Handling(Apply(s, a).event)
       <==> Handling(s.event) && !(a.EventStep? && if s.event == EvLoop then s.shutdown else a.fatal)
  {
    StepFrame(s, a);
    hide Apply, Enabled;
  }
}
