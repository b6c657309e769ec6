/** What reads return, over all runs of the HIDAPI state machine: the first bytes of the report that was the oldest, as
    many as the caller asked for and the report has; or 0 or -1, and why. */
module HidResults {
  import opened Options
  import opened Reports
  import opened HidProtocol
  import opened HidReaders

  datatype Request = Request(mode: Mode, length: nat)

  /** The latest call of `hid_read_timeout` by reader `r`. */
  function LastCall(run: seq<Action>, r: nat): Option<Request> {
    if run == [] then None
    else
      var a := run[|run| - 1];
      if a.Reader? && a.r == r && a.op.Call? then Some(Request(a.op.mode, a.op.length))
      else LastCall(run[..|run| - 1], r)
  }

  function Min(a: nat, b: nat): nat {
    if a < b then a else b
  }

  /** `bytes` are what a caller with room for `length` bytes gets of a report. */
  predicate IsPrefix(bytes: Report, report: Report, length: nat) {
    |bytes| == Min(length, |report|) && bytes == report[..|bytes|]
  }

  /** What can be said of a result as long as the reader has not returned. */
  predicate ResultOk(result: Result, mode: Mode, length: nat, arrived: seq<Report>, gone: nat) {
    match result
    case Data(i, bytes) => i < gone && i < |arrived| && IsPrefix(bytes, arrived[i], length)
    case Zero => mode != Blocking
    case Failed(why) => why == Broken ==> mode == Timed
  }

  /** The reader acts on the arguments of its own call, and one that must not block does not wait. */
  predicate OwnPc(pc: ReaderPc, call: Option<Request>, arrived: seq<Report>, gone: nat) {
    pc.Out? || (
      && call.Some? && pc.mode == call.value.mode
      && (if pc.Leave? then ResultOk(pc.result, pc.mode, call.value.length, arrived, gone)
          else pc.length == call.value.length)
      && (pc.mode == NonBlocking ==> pc.Locking? || pc.Look? || pc.LookFlag? || pc.Leave?))
  }

  ghost predicate Own(run: seq<Action>, s: State) {
    forall r :: r in s.readers ==> OwnPc(s.readers[r], LastCall(run, r), s.arrived, s.gone)
  }

  lemma FirstIsPrefix(report: Report, length: nat)
    ensures IsPrefix(First(report, length), report, length)
  {
  }

  /** The head of the queue is the report that arrived as number `gone`. */
  lemma HeadArrived(s: State)
    requires QueueOk(s) && s.queue != []
    ensures s.gone < |s.arrived| && s.arrived[s.gone] == s.queue[0]
  {
  }

  /** One step of a reader: it goes on with its own arguments, or it comes to its result. */
  ghost predicate Comes(s: State, s': State, r: nat, length: nat, wake: Option<Wake>)
    requires r in s'.readers && s'.readers[r].Leave?
  {
    var mode := s'.readers[r].mode;
    match s'.readers[r].result
    case Data(i, bytes) =>
      && s.queue != [] && i == s.gone && IsPrefix(bytes, s.queue[0], length)
      && s'.queue == s.queue[1..] && s'.gone == s.gone + 1
    case Zero =>
      || (mode == NonBlocking && s.queue == [] && !s.shutdown)
      || (mode == Timed && wake == Some(TimedOut))
    case Failed(why) =>
      match why
      case Shutdown => s.queue == [] && s.shutdown
      case Broken => mode == Timed && wake == Some(WaitError)
  }

  /** What the wait has returned to a reader that has been woken. */
  function WakeOf(pc: ReaderPc): Option<Wake> {
    if pc.Woken? then Some(pc.wake) else None
  }

  lemma DecideComes(pc: ReaderPc, op: ReaderOp, queue: seq<Report>, shutdown: bool)
    requires !op.Call? && Known(queue, shutdown, pc) && !pc.Leave?
    requires match op case Call(_, _) => pc.Out? case Spurious(_) => pc.Asleep? case Continue => !pc.Out? && !pc.Asleep?
    ensures match Decide(pc, op, queue == [], shutdown)
            case Goto(pc') => DeedOk(pc, pc', queue, shutdown)
            case Lock(pc') => DeedOk(pc, pc', queue, shutdown)
            case Unlock(pc') => DeedOk(pc, pc', queue, shutdown)
            case Pop(m, n) => m == pc.mode && n == pc.length && queue != []
  {
  }

  /** A step that takes no report. */
  predicate DeedOk(pc: ReaderPc, pc': ReaderPc, queue: seq<Report>, shutdown: bool)
    requires !pc.Out? && !pc.Leave?
  {
    && !pc'.Out? && pc'.mode == pc.mode
    && (pc.mode == NonBlocking && (pc.Locking? || pc.Look? || pc.LookFlag?) ==>
          pc'.Look? || pc'.LookFlag? || pc'.Leave?)
    && if pc'.Leave? then
         match pc'.result
         case Data(_, _) => false
         case Zero =>
           || (pc.mode == NonBlocking && queue == [] && !shutdown)
           || (pc.mode == Timed && WakeOf(pc) == Some(TimedOut))
         case Failed(why) =>
           match why
           case Shutdown => queue == [] && shutdown
           case Broken => pc.mode == Timed && WakeOf(pc) == Some(WaitError)
       else pc'.length == pc.length
  }

  /** A step of a reader that is inside. */
  lemma StepInside(s: State, r: nat, op: ReaderOp)
    requires QueueOk(s) && KnownOk(s) && ReaderMay(s, r, op) && !s.readers[r].Out? && !s.readers[r].Leave?
    ensures var s' := ReaderStep(s, r, op);
            var pc, pc' := s.readers[r], s'.readers[r];
            && !pc'.Out? && pc'.mode == pc.mode
            && (pc.mode == NonBlocking && (pc.Locking? || pc.Look? || pc.LookFlag?) ==>
                  pc'.Look? || pc'.LookFlag? || pc'.Leave?)
            && (if pc'.Leave? then Comes(s, s', r, pc.length, WakeOf(pc)) else pc'.length == pc.length)
  {
    assert Known(s.queue, s.shutdown, s.readers[r]);
    DecideComes(s.readers[r], op, s.queue, s.shutdown);
    hide Decide, Known, KnownOk;
    if s.queue != [] {
      FirstIsPrefix(s.queue[0], s.readers[r].length);
    }
    hide First, IsPrefix;
  }

  /** In every run: a step that brings a reader to its result. Bytes are those of the oldest report, which goes; 0 means
      that the caller does not wait and there is nothing, or that its wait has timed out; -1 that the device is shut
      down and nothing is left, or that the wait has failed. */
  lemma ResultComes(readers: set<nat>, run: seq<Action>, r: nat, op: ReaderOp)
    requires Possible(Start(readers), run) && ReaderMay(After(Start(readers), run), r, op)
    requires var s := After(Start(readers), run);
             !s.readers[r].Leave? && r in ReaderStep(s, r, op).readers && ReaderStep(s, r, op).readers[r].Leave?
    ensures var s := After(Start(readers), run);
            && LastCall(run, r).Some? && ReaderStep(s, r, op).readers[r].mode == LastCall(run, r).value.mode
            && Comes(s, ReaderStep(s, r, op), r, LastCall(run, r).value.length, WakeOf(s.readers[r]))
            && (s.queue != [] ==> s.gone < |s.arrived| && s.queue[0] == s.arrived[s.gone])
  {
    hide Start, After, Possible, KnownOk, Comes, ReaderStep;
    var s := After(Start(readers), run);
    RunSafe(readers, run);
    RunKnown(readers, run);
    RunOwn(readers, run);
    SafeQueue(s);
    if s.queue != [] {
      HeadArrived(s);
    }
    NotOut(s, r, op);
    StepInside(s, r, op);
    assert OwnPc(s.readers[r], LastCall(run, r), s.arrived, s.gone);
  }

  lemma SafeQueue(s: State)
    requires SafeState(s)
    ensures QueueOk(s)
  {
  }

  lemma NotOut(s: State, r: nat, op: ReaderOp)
    requires ReaderMay(s, r, op) && ReaderStep(s, r, op).readers[r].Leave? && !s.readers[r].Leave?
    ensures !s.readers[r].Out?
  {
  }

  /** Readers that are not woken stay where they are, and those that are keep their arguments. */
  ghost predicate OthersKeep(s: State, s': State) {
    && s'.readers.Keys == s.readers.Keys && s.arrived <= s'.arrived && s.gone <= s'.gone
    && forall r :: r in s.readers ==>
         || s'.readers[r] == s.readers[r]
         || (s.readers[r].Asleep? && s'.readers[r] == Woken(s.readers[r].mode, s.readers[r].length, Signalled))
  }

  lemma OtherKeeps(s: State, a: Action)
    requires QueueOk(s) && Enabled(s, a) && !a.Reader?
    ensures OthersKeep(s, Apply(s, a))
  {
    hide CallbackNext, EventNext, CloserNext, QueueOk;
    match a
    case CallbackStep(woken, submitted) => CallbackKeeps(s, woken, submitted);
    case EventStep(fatal) => EventKeeps(s, fatal);
    case CloserStep => CloserKeeps(s);
    case _ =>
  }

  lemma EventKeeps(s: State, fatal: bool)
    requires EventMay(s)
    ensures OthersKeep(s, EventNext(s, fatal))
  {
    if s.event.EvWaking? {
      WakeKeeps(s, Sleepers(s));
      hide WakeAll, Sleepers;
    } else {
      hide WakeAll, Sleepers;
    }
  }

  lemma WakeKeeps(s: State, woken: set<nat>)
    ensures OthersKeep(s, WakeAll(s, woken))
  {
    WakeHasEffect(s, woken);
    hide WakeAll;
  }

  lemma CloserKeeps(s: State)
    requires CloserMay(s)
    ensures OthersKeep(s, CloserNext(s))
  {
  }

  lemma CallbackKeeps(s: State, woken: set<nat>, submitted: bool)
    requires CallbackMay(s, woken)
    ensures OthersKeep(s, CallbackNext(s, woken, submitted))
  {
    if s.callback.CbAttaching? {
      AttachedLength(s.queue, s.callback.report);
      WakeKeeps(s, woken);
      hide WakeAll;
    }
    hide Attached;
  }

  lemma AttachedLength(queue: seq<Report>, r: Report)
    ensures |Attached(queue, r)| <= |queue| + 1
  {
  }

  lemma OwnKept(pc: ReaderPc, call: Option<Request>, arrived: seq<Report>, gone: nat, arrived': seq<Report>, gone': nat)
    requires OwnPc(pc, call, arrived, gone) && arrived <= arrived' && gone <= gone'
    ensures OwnPc(pc, call, arrived', gone')
  {
    hide IsPrefix;
  }

  lemma {:induction false} RunOwn(readers: set<nat>, run: seq<Action>)
    requires Possible(Start(readers), run)
    ensures Own(run, After(Start(readers), run))
    decreases |run|
  {
    hide Apply, Enabled, SafeState, KnownOk, OwnPc;
    if run == [] {
      StartOwn(readers);
    } else {
      var front, a := run[..|run| - 1], run[|run| - 1];
      var s := After(Start(readers), front);
      RunSafe(readers, front);
      RunKnown(readers, front);
      RunOwn(readers, front);
      SafeQueue(s);
      hide Start, QueueOk;
      StepOwn(front, s, a);
      assert front + [a] == run;
    }
  }

  lemma StartOwn(readers: set<nat>)
    ensures Own([], Start(readers))
  {
  }

  lemma StepOwn(run: seq<Action>, s: State, a: Action)
    requires Own(run, s) && QueueOk(s) && KnownOk(s) && Enabled(s, a)
    ensures Own(run + [a], Apply(s, a))
  {
    hide OwnPc, KnownOk, QueueOk, Own, ReaderStep, CallbackNext, EventNext, CloserNext, ReaderMay;
    if a.Reader? {
      ReaderOwn(run, s, a.r, a.op);
    } else {
      OtherOwn(run, s, a);
    }
  }

  lemma OtherOwn(run: seq<Action>, s: State, a: Action)
    requires Own(run, s) && QueueOk(s) && Enabled(s, a) && !a.Reader?
    ensures Own(run + [a], Apply(s, a))
  {
    OtherKeeps(s, a);
    hide Apply, Enabled, QueueOk, OwnPc;
    var s' := Apply(s, a);
    forall r | r in s'.readers ensures OwnPc(s'.readers[r], LastCall(run + [a], r), s'.arrived, s'.gone) {
      assert OwnPc(s.readers[r], LastCall(run, r), s.arrived, s.gone);
      SameCall(run, a, r);
      OwnKept(s.readers[r], LastCall(run, r), s.arrived, s.gone, s'.arrived, s'.gone);
      if s.readers[r].Asleep? {
        WokenOwn(s.readers[r], LastCall(run, r), s'.arrived, s'.gone);
      }
    }
  }

  lemma WokenOwn(pc: ReaderPc, call: Option<Request>, arrived: seq<Report>, gone: nat)
    requires pc.Asleep? && OwnPc(pc, call, arrived, gone)
    ensures OwnPc(Woken(pc.mode, pc.length, Signalled), call, arrived, gone)
  {
  }

  lemma SameCall(run: seq<Action>, a: Action, r: nat)
    requires !(a.Reader? && a.r == r && a.op.Call?)
    ensures LastCall(run + [a], r) == LastCall(run, r)
  {
    assert (run + [a])[..|run|] == run;
  }

  lemma ReaderOwn(run: seq<Action>, s: State, r: nat, op: ReaderOp)
    requires Own(run, s) && QueueOk(s) && KnownOk(s) && ReaderMay(s, r, op)
    ensures Own(run + [Reader(r, op)], ReaderStep(s, r, op))
  {
    ReaderHasEffect(s, r, op);
    hide ReaderStep, QueueOk, KnownOk, OwnPc, MutexUse;
    var a, s' := Reader(r, op), ReaderStep(s, r, op);
    forall q | q in s'.readers ensures OwnPc(s'.readers[q], LastCall(run + [a], q), s'.arrived, s'.gone) {
      assert OwnPc(s.readers[q], LastCall(run, q), s.arrived, s.gone);
      if q != r {
        SameCall(run, a, q);
        OwnKept(s.readers[q], LastCall(run, q), s.arrived, s.gone, s'.arrived, s'.gone);
      } else {
        MovedOwn(run, s, r, op);
      }
    }
  }

  lemma MovedOwn(run: seq<Action>, s: State, r: nat, op: ReaderOp)
    requires QueueOk(s) && KnownOk(s) && ReaderMay(s, r, op)
    requires OwnPc(s.readers[r], LastCall(run, r), s.arrived, s.gone)
    ensures var s' := ReaderStep(s, r, op);
            OwnPc(s'.readers[r], LastCall(run + [Reader(r, op)], r), s'.arrived, s'.gone)
  {
    var a, pc := Reader(r, op), s.readers[r];
    if op.Call? {
      CallOwn(run, s, r, op);
    } else {
      SameCall(run, a, r);
      if !pc.Out? && !pc.Leave? {
        StepInside(s, r, op);
        ReaderHasEffect(s, r, op);
        if s.queue != [] {
          HeadArrived(s);
        }
        hide ReaderStep, QueueOk, KnownOk, MutexUse, IsPrefix;
      } else {
        hide QueueOk, KnownOk;
      }
    }
  }

  lemma CallOwn(run: seq<Action>, s: State, r: nat, op: ReaderOp)
    requires ReaderMay(s, r, op) && op.Call?
    ensures var s' := ReaderStep(s, r, op);
            OwnPc(s'.readers[r], LastCall(run + [Reader(r, op)], r), s'.arrived, s'.gone)
  {
    assert (run + [Reader(r, op)])[|run|] == Reader(r, op);
  }

  /** In every run: what a read returns when it lets go of the mutex, for its own arguments. Bytes are the first ones of
      one of the reports that have arrived; a blocking read never returns 0, and only a timed one can fail to wait. */
  lemma ReadReturns(readers: set<nat>, run: seq<Action>, r: nat)
    requires Possible(Start(readers), run)
    requires r in After(Start(readers), run).readers && After(Start(readers), run).readers[r].Leave?
    ensures LastCall(run, r).Some?
    ensures var s, call := After(Start(readers), run), LastCall(run, r).value;
            s.readers[r].mode == call.mode && ResultOk(s.readers[r].result, call.mode, call.length, s.arrived, s.gone)
  {
    hide Start, After, Possible, ResultOk;
    RunOwn(readers, run);
    assert OwnPc(After(Start(readers), run).readers[r], LastCall(run, r), After(Start(readers), run).arrived,
                 After(Start(readers), run).gone);
  }

  /** A result stands until its reader returns it. */
  lemma ResultStays(s: State, a: Action, r: nat)
    requires SafeState(s) && Enabled(s, a) && r in s.readers && s.readers[r].Leave?
    ensures r in Apply(s, a).readers
    ensures Apply(s, a).readers[r] == if a == Reader(r, Continue) then Out else s.readers[r]
  {
    if a.Reader? {
      ReaderHasEffect(s, a.r, a.op);
    } else {
      SafeQueue(s);
      OtherKeeps(s, a);
      hide SafeState, Enabled, Apply;
    }
  }

  /** A read that finds a report when it has got the mutex returns it. */
  lemma QueuedIsReturned(s: State, r: nat)
    requires r in s.readers && s.readers[r].Look? && s.queue != []
    ensures ReaderMay(s, r, Continue)
    ensures var s' := ReaderStep(s, r, Continue); s'.readers[r].Leave? && s'.readers[r].result.Data?
  {
    hide First;
  }
}
