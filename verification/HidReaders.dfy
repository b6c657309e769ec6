/** What a reader of the HIDAPI state machine can rely on: when it gets -1, and whether it can sleep beside a
    queued report. */
module HidReaders {
  import opened Images
  import opened Reports
  import opened HidProtocol

  /** What a reader already knows at each step about the queue and the flag. */
  ghost predicate Known(queue: seq<Report>, shutdown: bool, pc: ReaderPc) {
    match pc
    case LookFlag(_, _) => queue == []
    case LoopQueue(m, _) => m == Timed ==> queue == []
    case LoopFlag(_, _) => queue == []
    case Deciding(_, _) => queue == []
    case LoopExit(m, _) => (queue != [] || shutdown) && (m == Timed ==> queue == [])
    case Leave(m, result) =>
      (result == Failed(Shutdown) ==> shutdown && queue == []) && (result == Failed(Broken) ==> m == Timed)
    case _ => true
  }

  ghost predicate KnownOk(s: State) {
    forall r :: r in s.readers ==> Known(s.queue, s.shutdown, s.readers[r])
  }

  lemma DecideKnown(pc: ReaderPc, op: ReaderOp, queue: seq<Report>, shutdown: bool)
    requires match op case Call(_, _) => pc.Out? case Spurious(_) => pc.Asleep? case Continue => !pc.Out? && !pc.Asleep?
    requires Known(queue, shutdown, pc)
    ensures match Decide(pc, op, queue == [], shutdown)
            case Goto(pc') => Known(queue, shutdown, pc')
            case Lock(pc') => Known(queue, shutdown, pc') || pc'.Deciding?
            case Unlock(pc') => Known(queue, shutdown, pc')
            case Pop(_, _) => true
  {
  }

  lemma KnownElsewhere(queue: seq<Report>, shutdown: bool, queue': seq<Report>, shutdown': bool, pc: ReaderPc)
    requires Known(queue, shutdown, pc) && (!pc.Holds() || queue' == queue) && (shutdown ==> shutdown')
    ensures Known(queue', shutdown', pc)
  {
  }

  lemma ReaderKnown(s: State, r: nat, op: ReaderOp)
    requires KnownOk(s) && OwnerOk(s) && ReaderMay(s, r, op)
    ensures KnownOk(ReaderStep(s, r, op))
  {
    var s' := ReaderStep(s, r, op);
    ReaderHasEffect(s, r, op);
    assert Known(s'.queue, s'.shutdown, s'.readers[r]) by {
      DecideKnown(s.readers[r], op, s.queue, s.shutdown);
      hide Decide, ReaderEffect, First;
    }
    hide ReaderStep, Known, First;
    forall q | q in s'.readers && q != r ensures Known(s'.queue, s'.shutdown, s'.readers[q]) {
      KnownElsewhere(s.queue, s.shutdown, s'.queue, s'.shutdown, s.readers[q]);
    }
  }

  /** A step of any other agent: it changes the queue only under the mutex, and readers only by waking them. */
  ghost predicate OtherEffect(s: State, s': State) {
    && s'.readers.Keys == s.readers.Keys
    && (forall r :: r in s.readers ==> s'.readers[r] == s.readers[r] || s'.readers[r].Woken?)
    && (s'.queue == s.queue || forall r :: r in s.readers ==> !s.readers[r].Holds())
    && (s.shutdown ==> s'.shutdown)
  }

  lemma CallbackEffect(s: State, woken: set<nat>, submitted: bool)
    requires OwnerOk(s) && CallbackMay(s, woken)
    ensures OtherEffect(s, CallbackNext(s, woken, submitted))
  {
    hide Attached;
  }

  lemma EventEffect(s: State, fatal: bool)
    requires OwnerOk(s) && EventMay(s)
    ensures OtherEffect(s, EventNext(s, fatal))
  {
  }

  lemma CloserEffect(s: State)
    requires OwnerOk(s) && CloserMay(s)
    ensures OtherEffect(s, CloserNext(s))
  {
  }

  lemma OtherHasEffect(s: State, a: Action)
    requires OwnerOk(s) && Enabled(s, a) && !a.Reader?
    ensures OtherEffect(s, Apply(s, a))
  {
    hide OwnerOk, CallbackNext, EventNext, CloserNext;
    match a
    case CallbackStep(woken, submitted) => CallbackEffect(s, woken, submitted);
    case EventStep(fatal) => EventEffect(s, fatal);
    case CloserStep => CloserEffect(s);
    case _ =>
  }

  lemma StepKnown(s: State, a: Action)
    requires KnownOk(s) && OwnerOk(s) && Enabled(s, a)
    ensures KnownOk(Apply(s, a))
  {
    if a.Reader? {
      hide KnownOk, ReaderStep;
      ReaderKnown(s, a.r, a.op);
    } else {
      OtherHasEffect(s, a);
      hide Known, Apply, OwnerOk;
      var s' := Apply(s, a);
      forall r | r in s'.readers ensures Known(s'.queue, s'.shutdown, s'.readers[r]) {
        if s'.readers[r].Woken? {
          WokenKnown(s'.queue, s'.shutdown, s'.readers[r]);
        } else {
          KnownElsewhere(s.queue, s.shutdown, s'.queue, s'.shutdown, s.readers[r]);
        }
      }
    }
  }

  lemma WokenKnown(queue: seq<Report>, shutdown: bool, pc: ReaderPc)
    requires pc.Woken?
    ensures Known(queue, shutdown, pc)
  {
  }

  lemma {:induction false} RunKnown(readers: set<nat>, run: seq<Action>)
    requires Possible(Start(readers), run)
    ensures KnownOk(After(Start(readers), run))
    decreases |run|
  {
    hide Known, Apply, Enabled, SafeState;
    if run == [] {
      StartKnown(readers);
    } else {
      RunSafe(readers, run[..|run| - 1]);
      RunKnown(readers, run[..|run| - 1]);
      SafeOwner(After(Start(readers), run[..|run| - 1]));
      StepKnown(After(Start(readers), run[..|run| - 1]), run[|run| - 1]);
    }
  }

  lemma StartKnown(readers: set<nat>)
    ensures KnownOk(Start(readers))
  {
  }

  lemma SafeOwner(s: State)
    requires SafeState(s)
    ensures OwnerOk(s)
  {
  }

  ghost predicate FailsBlocking(s: State, r: nat) {
    r in s.readers && s.readers[r].Leave? && s.readers[r].mode == Blocking && s.readers[r].result.Failed?
  }

  lemma FailureKnown(s: State, r: nat)
    requires KnownOk(s) && FailsBlocking(s, r)
    ensures s.shutdown && s.queue == []
  {
    assert Known(s.queue, s.shutdown, s.readers[r]);
    var why := s.readers[r].result.why;
    assert s.readers[r].result == Failed(why) && (why == Shutdown || why == Broken);
  }

  /** A blocking read returns -1 only when the device is shut down and no report is left. */
  lemma BlockingReadFails(readers: set<nat>, run: seq<Action>, r: nat)
    requires Possible(Start(readers), run) && FailsBlocking(After(Start(readers), run), r)
    ensures After(Start(readers), run).shutdown && After(Start(readers), run).queue == []
  {
    hide Start, After, Possible, KnownOk, FailsBlocking;
    RunKnown(readers, run);
    FailureKnown(After(Start(readers), run), r);
  }

  /** At most one reader, `r`: while it sleeps the queue is empty. */
  ghost predicate OneReaderOk(s: State, r: nat) {
    s.readers.Keys <= {r} && (r in s.readers && s.readers[r].Asleep? ==> s.queue == [])
  }

  lemma OneReaderStep(s: State, a: Action, r: nat)
    requires OneReaderOk(s, r) && KnownOk(s) && OwnerOk(s) && Enabled(s, a)
    ensures OneReaderOk(Apply(s, a), r)
  {
    if a.Reader? {
      assert a.r in s.readers.Keys;
      ReaderHasEffect(s, r, a.op);
      hide ReaderStep, First;
      assert Apply(s, a).readers.Keys <= {r};
    } else {
      OneReaderOthers(s, a, r);
    }
  }

  lemma OneReaderOthers(s: State, a: Action, r: nat)
    requires OneReaderOk(s, r) && OwnerOk(s) && Enabled(s, a) && !a.Reader?
    ensures OneReaderOk(Apply(s, a), r)
  {
    OtherHasEffect(s, a);
    if r in s.readers && s.readers[r].Asleep? && a.CallbackStep? && s.callback.CbAttaching? {
      assert r in Sleepers(s);
      assert forall q :: q in a.woken ==> q in s.readers.Keys && q == r;
      assert r in a.woken;
    }
    hide Attached, OwnerOk;
  }

  lemma {:induction false} OneReaderRun(readers: set<nat>, r: nat, run: seq<Action>)
    requires readers <= {r} && Possible(Start(readers), run)
    ensures OneReaderOk(After(Start(readers), run), r)
    decreases |run|
  {
    hide Known, Apply, Enabled, SafeState;
    if run == [] {
      assert Start(readers).readers.Keys == readers;
    } else {
      var before := run[..|run| - 1];
      RunSafe(readers, before);
      RunKnown(readers, before);
      SafeOwner(After(Start(readers), before));
      OneReaderRun(readers, r, before);
      OneReaderStep(After(Start(readers), before), run[|run| - 1], r);
    }
  }

  /** A reader sleeps beside a queued report, the mutex is free, and nobody is left who would wake it. */
  ghost predicate Stuck(s: State) {
    exists r :: r in s.readers && StuckReader(s, r)
  }

  ghost predicate StuckReader(s: State, r: nat)
    requires r in s.readers
  {
    && s.readers[r].Asleep? && s.queue != [] && s.owner == Free && s.callback == Quiet && !s.shutdown
    && forall q :: q in s.readers && q != r ==> s.readers[q].Out?
  }

  lemma OneReaderNotStuck(r: nat, s: State)
    requires OneReaderOk(s, r)
    ensures !Stuck(s)
  {
    forall q | q in s.readers ensures !StuckReader(s, q) {
      assert q in s.readers.Keys;
    }
  }

  /** Taking one more step. */
  lemma Extend(s0: State, run: seq<Action>, a: Action)
    requires Possible(s0, run) && Enabled(After(s0, run), a)
    ensures Possible(s0, run + [a]) && After(s0, run + [a]) == Apply(After(s0, run), a)
  {
    hide Apply, Enabled;
    assert (run + [a])[..|run|] == run;
  }

  /** The state `s` has been reached. */
  ghost predicate Reached(s0: State, run: seq<Action>, s: State) {
    Possible(s0, run) && After(s0, run) == s
  }

  lemma Go(s0: State, run: seq<Action>, s: State, a: Action)
    requires Reached(s0, run, s) && Enabled(s, a)
    ensures Reached(s0, run + [a], Apply(s, a))
  {
    hide Apply, Enabled;
    Extend(s0, run, a);
  }

  function Put(s: State, r: nat, pc: ReaderPc): State {
    s.(readers := s.readers[r := pc])
  }

  lemma GoReader(s0: State, run: seq<Action>, s: State, r: nat, pc: ReaderPc, op: ReaderOp, pc': ReaderPc)
    returns (run': seq<Action>)
    requires Reached(s0, run, Put(s, r, pc)) && r in s.readers && ReaderMay(Put(s, r, pc), r, op)
    requires Decide(pc, op, s.queue == [], s.shutdown) == Goto(pc')
    ensures Reached(s0, run', Put(s, r, pc'))
  {
    hide Decide, After, Possible;
    run' := run + [Reader(r, op)];
    Go(s0, run, Put(s, r, pc), Reader(r, op));
    assert s.readers[r := pc][r := pc'] == s.readers[r := pc'];
  }

  lemma GoLock(s0: State, run: seq<Action>, s: State, r: nat, pc: ReaderPc, pc': ReaderPc) returns (run': seq<Action>)
    requires Reached(s0, run, Put(s, r, pc)) && r in s.readers && ReaderMay(Put(s, r, pc), r, Continue)
    requires Decide(pc, Continue, s.queue == [], s.shutdown) == Lock(pc')
    ensures Reached(s0, run', Put(s.(owner := ByReader(r)), r, pc'))
  {
    hide Decide, After, Possible;
    run' := run + [Reader(r, Continue)];
    Go(s0, run, Put(s, r, pc), Reader(r, Continue));
    assert s.readers[r := pc][r := pc'] == s.readers[r := pc'];
  }

  lemma GoUnlock(s0: State, run: seq<Action>, s: State, r: nat, pc: ReaderPc, pc': ReaderPc) returns (run': seq<Action>)
    requires Reached(s0, run, Put(s, r, pc)) && r in s.readers && ReaderMay(Put(s, r, pc), r, Continue)
    requires Decide(pc, Continue, s.queue == [], s.shutdown) == Unlock(pc')
    ensures Reached(s0, run', Put(s.(owner := Free), r, pc'))
  {
    hide Decide, After, Possible;
    run' := run + [Reader(r, Continue)];
    Go(s0, run, Put(s, r, pc), Reader(r, Continue));
    assert s.readers[r := pc][r := pc'] == s.readers[r := pc'];
  }

  /** A blocking read on an empty queue goes to sleep. */
  lemma FallsAsleep(s0: State, run: seq<Action>, s: State, r: nat) returns (run': seq<Action>)
    requires Reached(s0, run, s) && r in s.readers && s.readers[r] == Out
    requires s.owner == Free && s.queue == [] && !s.shutdown
    ensures Reached(s0, run', Put(s, r, Asleep(Blocking, 0)))
  {
    hide Reached;
    assert Put(s, r, Out) == s by {
      assert s.readers[r := Out] == s.readers;
    }
    run' := GoReader(s0, run, s, r, Out, Call(Blocking, 0), Locking(Blocking, 0));
    run' := GoLock(s0, run', s, r, Locking(Blocking, 0), Look(Blocking, 0));
    var held := s.(owner := ByReader(r));
    run' := GoReader(s0, run', held, r, Look(Blocking, 0), Continue, LookFlag(Blocking, 0));
    run' := GoReader(s0, run', held, r, LookFlag(Blocking, 0), Continue, LoopQueue(Blocking, 0));
    run' := GoReader(s0, run', held, r, LoopQueue(Blocking, 0), Continue, LoopFlag(Blocking, 0));
    run' := GoReader(s0, run', held, r, LoopFlag(Blocking, 0), Continue, Deciding(Blocking, 0));
    run' := GoUnlock(s0, run', held, r, Deciding(Blocking, 0), Asleep(Blocking, 0));
    assert held.(owner := Free) == s;
  }

  /** A woken reader that finds a report takes it and leaves. */
  lemma TakesReport(s0: State, run: seq<Action>, s: State, r: nat) returns (run': seq<Action>, log: seq<Returned>)
    requires Reached(s0, run, Put(s, r, Woken(Blocking, 0, Signalled))) && r in s.readers
    requires s.owner == Free && s.queue != []
    ensures Reached(s0, run', Put(s, r, Out).(queue := s.queue[1..], gone := s.gone + 1, log := log))
  {
    hide Reached, First;
    run' := GoLock(s0, run, s, r, Woken(Blocking, 0, Signalled), LoopQueue(Blocking, 0));
    var held := s.(owner := ByReader(r));
    run' := GoReader(s0, run', held, r, LoopQueue(Blocking, 0), Continue, LoopExit(Blocking, 0));
    run', log := GoTake(s0, run', held, r);
    var after := held.(queue := s.queue[1..], gone := s.gone + 1, log := log);
    run' := GoUnlock(s0, run', after, r, Leave(Blocking, Data(s.gone, First(s.queue[0], 0))), Out);
    assert Put(after.(owner := Free), r, Out) == Put(s, r, Out).(queue := s.queue[1..], gone := s.gone + 1, log := log);
  }

  lemma GoTake(s0: State, run: seq<Action>, s: State, r: nat) returns (run': seq<Action>, log: seq<Returned>)
    requires Reached(s0, run, Put(s, r, LoopExit(Blocking, 0))) && r in s.readers && s.queue != []
    ensures Reached(s0, run', Put(s.(queue := s.queue[1..], gone := s.gone + 1, log := log), r,
                                  Leave(Blocking, Data(s.gone, First(s.queue[0], 0)))))
  {
    hide After, Possible, First;
    run' := run + [Reader(r, Continue)];
    Go(s0, run, Put(s, r, LoopExit(Blocking, 0)), Reader(r, Continue));
    log := s.log + [Returned(s.gone, 0, First(s.queue[0], 0))];
    var pc := Leave(Blocking, Data(s.gone, First(s.queue[0], 0)));
    assert s.readers[r := LoopExit(Blocking, 0)][r := pc] == s.readers[r := pc];
  }

  /** A report arrives and is attached; the signal, if there is one, wakes `woken`. */
  lemma ReportArrives(s0: State, run: seq<Action>, s: State, report: Report, woken: set<nat>)
    returns (run': seq<Action>)
    requires Reached(s0, run, s) && s.owner == Free && s.callback == Quiet && |s.queue| < QUEUE_LIMIT
    requires if s.queue == [] then MaySignal(s, woken) else woken == {}
    ensures Reached(s0, run', WakeAll(s, woken).(queue := s.queue + [report], arrived := s.arrived + [report]))
  {
    hide Reached, WakeAll;
    run' := run + [Complete(report)];
    Go(s0, run, s, Complete(report));
    var s1 := s.(callback := CbLocking(report));
    Go(s0, run', s1, CallbackStep({}, true));
    run' := run' + [CallbackStep({}, true)];
    var s2 := s.(owner := ByCallback, callback := CbAttaching(report));
    WakeSame(s, s2, woken);
    Go(s0, run', s2, CallbackStep(woken, true));
    run' := run' + [CallbackStep(woken, true)];
    GoRelease(s0, run', CallbackNext(s2, woken, true));
    assert CallbackNext(s2, woken, true).(owner := Free, callback := Quiet)
        == WakeAll(s, woken).(queue := s.queue + [report], arrived := s.arrived + [report]);
    run' := run' + [CallbackStep({}, true), CallbackStep({}, true)];
  }

  lemma WakeSame(s: State, s2: State, woken: set<nat>)
    requires s2 == s.(owner := s2.owner, callback := s2.callback)
    ensures WakeAll(s2, woken) == WakeAll(s, woken).(owner := s2.owner, callback := s2.callback)
    ensures Sleepers(s2) == Sleepers(s)
    ensures WakeAll(s, woken) == s.(readers := WakeAll(s, woken).readers)
  {
  }

  lemma GoRelease(s0: State, run: seq<Action>, s: State)
    requires Reached(s0, run, s) && s.callback == CbUnlocking
    ensures Reached(s0, run + [CallbackStep({}, true), CallbackStep({}, true)], s.(owner := Free, callback := Quiet))
  {
    hide After, Possible, WakeAll;
    Go(s0, run, s, CallbackStep({}, true));
    Go(s0, run + [CallbackStep({}, true)], s.(owner := Free, callback := Submitting), CallbackStep({}, true));
    assert run + [CallbackStep({}, true)] + [CallbackStep({}, true)]
        == run + [CallbackStep({}, true), CallbackStep({}, true)];
  }

  /** With two readers: both go to sleep, a report arrives and wakes one of them, a second report arrives before
      that one runs and wakes nobody, the first takes its report and leaves. The second report stays in the
      queue, and the other reader sleeps on. */
  lemma TwoReadersStuck(readers: set<nat>, r1: nat, r2: nat, report: Report) returns (run: seq<Action>)
    requires r1 in readers && r2 in readers && r1 != r2
    ensures Possible(Start(readers), run) && Stuck(After(Start(readers), run))
  {
    hide Possible, After, WakeAll;
    var s0 := Start(readers);
    assert Reached(s0, [], s0) by {
      NoStep(s0);
    }
    hide Reached;
    run := FallsAsleep(s0, [], s0, r1);
    var s1 := Put(s0, r1, Asleep(Blocking, 0));
    run := FallsAsleep(s0, run, s1, r2);
    var s2 := Put(s1, r2, Asleep(Blocking, 0));
    assert {r1} <= Sleepers(s2);
    run := ReportArrives(s0, run, s2, report, {r1});
    var s3 := Put(s2, r1, Woken(Blocking, 0, Signalled)).(queue := [report], arrived := [report]);
    assert WakeAll(s2, {r1}) == Put(s2, r1, Woken(Blocking, 0, Signalled)) by {
      WakeOne(s2, r1);
    }
    run := ReportArrives(s0, run, s3, report, {});
    var s4 := s3.(queue := [report, report], arrived := [report, report]);
    assert WakeAll(s3, {}) == s3 by {
      WakeNone(s3);
    }
    assert Put(s4, r1, Woken(Blocking, 0, Signalled)) == s4 by {
      assert s4.readers[r1 := Woken(Blocking, 0, Signalled)] == s4.readers;
    }
    var log;
    run, log := TakesReport(s0, run, s4, r1);
    var s5 := Put(s4, r1, Out).(queue := s4.queue[1..], gone := s4.gone + 1, log := log);
    assert StuckReader(s5, r2);
    StuckReached(s0, run, s5);
  }

  lemma NoStep(s0: State)
    ensures Reached(s0, [], s0)
  {
  }

  lemma StuckReached(s0: State, run: seq<Action>, s: State)
    requires Reached(s0, run, s) && Stuck(s)
    ensures Possible(s0, run) && Stuck(After(s0, run))
  {
  }

  lemma WakeOne(s: State, r: nat)
    requires r in s.readers && s.readers[r] == Asleep(Blocking, 0)
    ensures WakeAll(s, {r}) == Put(s, r, Woken(Blocking, 0, Signalled))
  {
    assert WakeAll(s, {r}).readers == s.readers[r := Woken(Blocking, 0, Signalled)];
  }

  lemma WakeNone(s: State)
    ensures WakeAll(s, {}) == s
  {
    assert WakeAll(s, {}).readers == s.readers;
  }

  ghost predicate NeverStuck(readers: set<nat>) {
    forall run: seq<Action> :: Possible(Start(readers), run) ==> !Stuck(After(Start(readers), run))
  }

  lemma TwoOf(readers: set<nat>) returns (r1: nat, r2: nat)
    requires |readers| >= 2
    ensures r1 in readers && r2 in readers && r1 != r2
  {
    r1 :| r1 in readers;
    assert |readers - {r1}| >= 1;
    r2 :| r2 in readers - {r1};
  }

  lemma OneOf(readers: set<nat>) returns (r: nat)
    requires |readers| <= 1
    ensures readers <= {r}
  {
    r := 0;
    if readers != {} {
      r :| r in readers;
      assert |readers - {r}| == 0;
    }
  }

  /** Signalling only when the queue was empty never leaves a reader asleep beside a report exactly when there is
      at most one reading thread. */
  lemma NeverStuckIff(readers: set<nat>)
    ensures NeverStuck(readers) <==> |readers| <= 1
  {
    hide Start, Possible, After, Stuck;
    if |readers| >= 2 {
      var r1, r2 := TwoOf(readers);
      var run := TwoReadersStuck(readers, r1, r2, []);
    } else {
      var r := OneOf(readers);
      forall run: seq<Action> | Possible(Start(readers), run) ensures !Stuck(After(Start(readers), run)) {
        OneReaderRun(readers, r, run);
        OneReaderNotStuck(r, After(Start(readers), run));
      }
    }
  }

  /** Closing: from the moment `hid_close` has found the queue empty, nothing enters it again. */
  ghost predicate ClearedOk(s: State) {
    s.closer.ClUnlocking? || s.closer.Closed? ==> s.queue == []
  }

  lemma ClearedStep(s: State, a: Action)
    requires ClearedOk(s) && FlagsOk(s) && Enabled(s, a)
    ensures ClearedOk(Apply(s, a))
  {
    hide Attached, First;
    if a.Reader? {
      ReaderHasEffect(s, a.r, a.op);
      hide ReaderStep;
    }
  }

  lemma {:induction false} CloseEmpties(readers: set<nat>, run: seq<Action>)
    requires Possible(Start(readers), run)
    ensures ClearedOk(After(Start(readers), run))
    decreases |run|
  {
    hide Apply, Enabled, SafeState, FlagsOk, ClearedOk;
    if run == [] {
      StartCleared(readers);
    } else {
      var before := run[..|run| - 1];
      RunSafe(readers, before);
      CloseEmpties(readers, before);
      SafeFlags(After(Start(readers), before));
      ClearedStep(After(Start(readers), before), run[|run| - 1]);
    }
  }

  lemma StartCleared(readers: set<nat>)
    ensures ClearedOk(Start(readers))
  {
  }

  lemma SafeFlags(s: State)
    requires SafeState(s)
    ensures FlagsOk(s)
  {
  }

  /** Neither flag is ever cleared, and the broadcast is never undone. */
  lemma FlagsStay(s: State, a: Action)
    requires Enabled(s, a)
    ensures s.shutdown ==> Apply(s, a).shutdown
    ensures s.cancelled ==> Apply(s, a).cancelled
    ensures s.broadcast ==> Apply(s, a).broadcast
  {
    hide Attached, First;
    if a.Reader? {
      ReaderHasEffect(s, a.r, a.op);
      hide ReaderStep;
    }
  }

  /** Once the event thread has broadcast, nobody is blocked or becomes blocked, however the run goes on. */
  lemma {:induction false} NobodyBlockedEver(readers: set<nat>, run: seq<Action>, more: seq<Action>)
    requires Possible(Start(readers), run) && After(Start(readers), run).broadcast
    requires Possible(Start(readers), run + more)
    ensures var s := After(Start(readers), run + more);
            s.broadcast && forall r :: r in s.readers ==> !s.readers[r].Asleep?
    decreases |more|
  {
    hide Apply, Enabled, Start, OwnerOk, FlagsOk, QueueOk, LogOk;
    RunSafe(readers, run + more);
    if more == [] {
      assert run + more == run;
    } else {
      var front := more[..|more| - 1];
      assert (run + more)[..|run + more| - 1] == run + front;
      NobodyBlockedEver(readers, run, front);
      FlagsStay(After(Start(readers), run + front), more[|more| - 1]);
    }
  }
}
