/** The libusb backend of HIDAPI as a state machine: any number of threads in `hid_read_timeout`, the transfer
    callback, the event thread `read_thread` and one thread in `hid_close`, interleaved step by step. Each
    step is one access to shared state or one operation on the mutex or the condition variable, which follow
    POSIX.1-2008: waiting releases the mutex atomically, a signal wakes at least one waiter if there is one,
    and waiters may also wake up spuriously. */
module HidProtocol {
  import opened Images
  import opened Reports

  /** `milliseconds == -1`, positive, or zero. */
  datatype Mode = Blocking | Timed | NonBlocking

  /** What `pthread_cond_wait` or `pthread_cond_timedwait` returned. */
  datatype Wake = Signalled | TimedOut | WaitError

  /** What a read returns: bytes of the report that arrived as number `index`, 0, or -1 and why. */
  datatype Result = Data(index: nat, bytes: Report) | Zero | Failed(why: Cause)

  datatype Cause = Shutdown | Broken

  /** Where a reader is in `hid_read_timeout`. */
  datatype ReaderPc =
    | Out
    | Locking(mode: Mode, length: nat)
    | Look(mode: Mode, length: nat)          // first test of the queue
    | LookFlag(mode: Mode, length: nat)      // first test of shutdown_thread
    | LoopQueue(mode: Mode, length: nat)     // the loop condition: queue ...
    | LoopFlag(mode: Mode, length: nat)      // ... and flag
    | Deciding(mode: Mode, length: nat)      // about to wait
    | Asleep(mode: Mode, length: nat)
    | Woken(mode: Mode, length: nat, wake: Wake)
    | AfterWait(mode: Mode, length: nat)     // the test behind a timed wait
    | LoopExit(mode: Mode, length: nat)
    | Leave(mode: Mode, result: Result)
  {
    /** The reader holds the mutex. */
    predicate Holds() {
      !Out? && !Locking? && !Asleep? && !Woken?
    }
  }

  datatype CallbackPc = Quiet | CbLocking(report: Report) | CbAttaching(report: Report) | CbUnlocking | Submitting
                      | Stopping | Cancelling | CbDone

  datatype EventPc = EvLoop | EvHandling | EvCancel | EvDraining | EvLocking | EvWaking | EvUnlocking | EvDone

  datatype CloserPc = Open | Joining | ClLocking | ClClearing | ClUnlocking | Closed

  datatype Owner = Free | ByReader(r: nat) | ByCallback | ByEvent | ByCloser

  datatype State = State(
    owner: Owner, readers: map<nat, ReaderPc>, callback: CallbackPc, event: EventPc, closer: CloserPc,
    queue: seq<Report>, shutdown: bool, cancelled: bool,
    arrived: seq<Report>,     // every report ever attached, in order
    gone: nat,                // how many of them have left the queue
    log: seq<Returned>,       // what reads have taken
    broadcast: bool)          // the event thread has woken everybody

  datatype Returned = Returned(index: nat, length: nat, bytes: Report)

  datatype ReaderOp = Call(mode: Mode, length: nat) | Continue | Spurious(wake: Wake)

  /** The agents' choices: what the environment delivers and whom a signal wakes. */
  datatype Action =
    | Reader(r: nat, op: ReaderOp)
    | Complete(report: Report)
    | TransferTimeout
    | TransferStopped
    | CallbackStep(woken: set<nat>, submitted: bool)
    | EventStep(fatal: bool)
    | CloserStep

  ghost function Start(readers: set<nat>): State {
    State(Free, map r | r in readers :: Out, Quiet, EvLoop, Open, [], false, false, [], 0, [], false)
  }

  function Sleepers(s: State): set<nat> {
    set r | r in s.readers && s.readers[r].Asleep?
  }

  function Move(s: State, r: nat, pc: ReaderPc): State {
    s.(readers := s.readers[r := pc])
  }

  /** `return_data` on behalf of reader `r`. */
  function Take(s: State, r: nat, mode: Mode, length: nat): State
    requires s.queue != []
  {
    var bytes := First(s.queue[0], length);
    Move(s, r, Leave(mode, Data(s.gone, bytes))).(
      queue := s.queue[1..], gone := s.gone + 1, log := s.log + [Returned(s.gone, length, bytes)])
  }

  predicate ReaderMay(s: State, r: nat, op: ReaderOp) {
    r in s.readers &&
    match op
    case Call(mode, length) => s.readers[r].Out?
    case Spurious(wake) => s.readers[r].Asleep? && (wake == TimedOut ==> s.readers[r].mode == Timed)
    case Continue =>
      match s.readers[r]
      case Out => false
      case Asleep(_, _) => false
      case Locking(_, _) => s.owner == Free
      case Woken(_, _, _) => s.owner == Free
      case _ => true
  }

  /** What a reader's step does: go on, go on with the mutex taken or released, or take a report. */
  datatype Deed = Goto(pc: ReaderPc) | Lock(pc: ReaderPc) | Unlock(pc: ReaderPc) | Pop(mode: Mode, length: nat)

  /** The branches of `hid_read_timeout`. */
  function Decide(pc: ReaderPc, op: ReaderOp, empty: bool, shutdown: bool): Deed
    requires match op case Call(_, _) => pc.Out? case Spurious(_) => pc.Asleep? case Continue => !pc.Out? && !pc.Asleep?
  {
    match op
    case Call(mode, length) => Goto(Locking(mode, length))
    case Spurious(wake) => Goto(Woken(pc.mode, pc.length, wake))
    case Continue =>
      match pc
      case Locking(m, n) => Lock(Look(m, n))
      case Look(m, n) => if !empty then Pop(m, n) else Goto(LookFlag(m, n))
      case LookFlag(m, n) =>
        if shutdown then Goto(Leave(m, Failed(Shutdown)))
        else if m == NonBlocking then Goto(Leave(m, Zero))
        else Goto(LoopQueue(m, n))
      case LoopQueue(m, n) => if !empty then Goto(LoopExit(m, n)) else Goto(LoopFlag(m, n))
      case LoopFlag(m, n) => if shutdown then Goto(LoopExit(m, n)) else Goto(Deciding(m, n))
      case Deciding(m, n) => Unlock(Asleep(m, n))
      case Woken(m, n, wake) =>
        if m != Timed then Lock(LoopQueue(m, n))
        else if wake == Signalled then Lock(AfterWait(m, n))
        else if wake == TimedOut then Lock(Leave(m, Zero))
        else Lock(Leave(m, Failed(Broken)))
      case AfterWait(m, n) => if !empty then Pop(m, n) else Goto(LoopQueue(m, n))
      case LoopExit(m, n) => if m != Timed && !empty then Pop(m, n) else Goto(Leave(m, Failed(Shutdown)))
      case Leave(_, _) => Unlock(Out)
  }

  function ReaderStep(s: State, r: nat, op: ReaderOp): State
    requires ReaderMay(s, r, op)
  {
    match Decide(s.readers[r], op, s.queue == [], s.shutdown)
    case Goto(pc) => Move(s, r, pc)
    case Lock(pc) => Move(s, r, pc).(owner := ByReader(r))
    case Unlock(pc) => Move(s, r, pc).(owner := Free)
    case Pop(mode, length) => Take(s, r, mode, length)
  }

  function WakeAll(s: State, woken: set<nat>): State {
    s.(readers := map r | r in s.readers ::
         if r in woken && s.readers[r].Asleep? then Woken(s.readers[r].mode, s.readers[r].length, Signalled)
         else s.readers[r])
  }

  /** `pthread_cond_signal` unblocks at least one of the threads that are blocked. */
  predicate MaySignal(s: State, woken: set<nat>) {
    woken <= Sleepers(s) && (Sleepers(s) != {} ==> woken != {})
  }

  predicate CallbackMay(s: State, woken: set<nat>) {
    match s.callback
    case Quiet => false
    case CbDone => false
    case CbLocking(_) => s.owner == Free
    case CbAttaching(_) => if s.queue == [] then MaySignal(s, woken) else woken == {}
    case _ => true
  }

  function CallbackNext(s: State, woken: set<nat>, submitted: bool): State
    requires CallbackMay(s, woken)
  {
    match s.callback
    case CbLocking(report) => s.(owner := ByCallback, callback := CbAttaching(report))
    case CbAttaching(report) =>
      var queue := Attached(s.queue, report);
      WakeAll(s, woken).(callback := CbUnlocking, queue := queue, arrived := s.arrived + [report],
                         gone := s.gone + |s.queue| + 1 - |queue|)
    case CbUnlocking => s.(owner := Free, callback := Submitting)
    case Submitting => s.(callback := if submitted then Quiet else Stopping)
    case Stopping => s.(shutdown := true, callback := Cancelling)
    case Cancelling => s.(cancelled := true, callback := CbDone)
  }

  predicate EventMay(s: State) {
    match s.event
    case EvDraining => s.cancelled
    case EvLocking => s.owner == Free
    case EvDone => false
    case _ => true
  }

  function EventNext(s: State, fatal: bool): State
    requires EventMay(s)
  {
    match s.event
    case EvLoop => s.(event := if s.shutdown then EvCancel else EvHandling)
    case EvHandling => s.(event := if fatal then EvCancel else EvLoop)
    case EvCancel => s.(event := EvDraining)
    case EvDraining => s.(event := EvLocking)
    case EvLocking => s.(owner := ByEvent, event := EvWaking)
    case EvWaking => WakeAll(s, Sleepers(s)).(event := EvUnlocking, broadcast := true)
    case EvUnlocking => s.(owner := Free, event := EvDone)
  }

  predicate CloserMay(s: State) {
    match s.closer
    case Joining => s.event == EvDone
    case ClLocking => s.owner == Free
    case Closed => false
    case _ => true
  }

  function CloserNext(s: State): State
    requires CloserMay(s)
  {
    match s.closer
    case Open => s.(shutdown := true, closer := Joining)
    case Joining => s.(closer := ClLocking)
    case ClLocking => s.(owner := ByCloser, closer := ClClearing)
    case ClClearing =>
      if s.queue != [] then s.(queue := s.queue[1..], gone := s.gone + 1) else s.(closer := ClUnlocking)
    case ClUnlocking => s.(owner := Free, closer := Closed)
  }

  predicate Enabled(s: State, a: Action) {
    match a
    case Reader(r, op) => ReaderMay(s, r, op)
    case Complete(_) => s.callback == Quiet
    case TransferTimeout => s.callback == Quiet
    case TransferStopped => s.callback == Quiet
    case CallbackStep(woken, _) => CallbackMay(s, woken)
    case EventStep(_) => EventMay(s)
    case CloserStep => CloserMay(s)
  }

  function Apply(s: State, a: Action): State
    requires Enabled(s, a)
  {
    match a
    case Reader(r, op) => ReaderStep(s, r, op)
    case Complete(report) => s.(callback := CbLocking(report))
    case TransferTimeout => s.(callback := Submitting)
    case TransferStopped => s.(callback := Stopping)
    case CallbackStep(woken, submitted) => CallbackNext(s, woken, submitted)
    case EventStep(fatal) => EventNext(s, fatal)
    case CloserStep => CloserNext(s)
  }

  /** The sequence of actions can be taken from `s`. */
  predicate Possible(s: State, run: seq<Action>)
    decreases |run|, 0
  {
    run == [] || (Possible(s, run[..|run| - 1]) && Enabled(After(s, run[..|run| - 1]), run[|run| - 1]))
  }

  function After(s: State, run: seq<Action>): State
    requires Possible(s, run)
    decreases |run|, 1
  {
    if run == [] then s else Apply(After(s, run[..|run| - 1]), run[|run| - 1])
  }

  /** The step of a reader as the rest of the system sees it: at most one operation on the mutex, and at most
      one report taken, only while the reader holds the mutex. */
  ghost predicate ReaderEffect(s: State, s': State, r: nat) {
    && r in s.readers && s'.readers.Keys == s.readers.Keys
    && (forall q :: q in s.readers && q != r ==> s'.readers[q] == s.readers[q])
    && s'.callback == s.callback && s'.event == s.event && s'.closer == s.closer
    && s'.shutdown == s.shutdown && s'.cancelled == s.cancelled && s'.broadcast == s.broadcast
    && s'.arrived == s.arrived
    && MutexUse(s, s', r) && QueueUse(s, s', r)
    && (s'.readers[r].Deciding? ==> !s.shutdown)
    && (s'.readers[r].Asleep? ==> s.readers[r].Deciding?)
  }

  ghost predicate MutexUse(s: State, s': State, r: nat)
    requires r in s.readers && r in s'.readers
  {
    if s.readers[r].Holds()
    then s'.owner == if s'.readers[r].Holds() then s.owner else Free
    else if s'.readers[r].Holds() then s.owner == Free && s'.owner == ByReader(r) else s'.owner == s.owner
  }

  ghost predicate QueueUse(s: State, s': State, r: nat)
    requires r in s.readers
  {
    || (s'.queue == s.queue && s'.gone == s.gone && s'.log == s.log)
    || (s.readers[r].Holds() && s.queue != [] && s'.queue == s.queue[1..] && s'.gone == s.gone + 1
        && exists n :: s'.log == s.log + [Returned(s.gone, n, First(s.queue[0], n))])
  }

  lemma DecideFits(pc: ReaderPc, op: ReaderOp, empty: bool, shutdown: bool)
    requires match op case Call(_, _) => pc.Out? case Spurious(_) => pc.Asleep? case Continue => !pc.Out? && !pc.Asleep?
    ensures match Decide(pc, op, empty, shutdown)
            case Goto(pc') => (pc'.Holds() <==> pc.Holds()) && (pc'.Deciding? ==> !shutdown) && !pc'.Asleep?
            case Lock(pc') => !pc.Holds() && pc'.Holds() && !pc'.Deciding? && !pc.Out? && !pc.Asleep?
            case Unlock(pc') => pc.Holds() && !pc'.Holds() && (pc'.Asleep? ==> pc.Deciding?)
            case Pop(_, _) => pc.Holds() && !empty
  {
  }

  lemma ReaderHasEffect(s: State, r: nat, op: ReaderOp)
    requires ReaderMay(s, r, op)
    ensures ReaderEffect(s, ReaderStep(s, r, op), r)
  {
    DecideFits(s.readers[r], op, s.queue == [], s.shutdown);
    hide Decide, First, ReaderPc.Holds;
  }

  ghost predicate WakeEffect(s: State, s': State, woken: set<nat>) {
    && s'.readers.Keys == s.readers.Keys
    && (forall r :: r in s.readers ==>
          s'.readers[r] == if r in woken && s.readers[r].Asleep?
                           then Woken(s.readers[r].mode, s.readers[r].length, Signalled) else s.readers[r])
    && s' == s.(readers := s'.readers)
  }

  lemma WakeHasEffect(s: State, woken: set<nat>)
    ensures WakeEffect(s, WakeAll(s, woken), woken)
  {
  }

  /** Mutual exclusion: the mutex belongs to whoever is at a step that needs it. */
  ghost predicate OwnerOk(s: State) {
    && (forall r :: r in s.readers ==> (s.readers[r].Holds() <==> s.owner == ByReader(r)))
    && (s.owner.ByReader? ==> s.owner.r in s.readers)
    && (s.owner == ByCallback <==> s.callback.CbAttaching? || s.callback.CbUnlocking?)
    && (s.owner == ByEvent <==> s.event.EvWaking? || s.event.EvUnlocking?)
    && (s.owner == ByCloser <==> s.closer.ClClearing? || s.closer.ClUnlocking?)
  }

  /** How far shutting down has come. */
  ghost predicate FlagsOk(s: State) {
    && (s.cancelled ==> s.shutdown && s.callback.CbDone?)
    && (s.callback.Cancelling? || s.callback.CbDone? ==> s.shutdown)
    && (s.event.EvLocking? || s.event.EvWaking? || s.event.EvUnlocking? || s.event.EvDone? ==> s.cancelled)
    && (s.broadcast <==> s.event.EvUnlocking? || s.event.EvDone?)
    && (!s.closer.Open? ==> s.shutdown)
    && (!s.closer.Open? && !s.closer.Joining? ==> s.event.EvDone?)
  }

  /** After the broadcast nobody waits or is about to. */
  ghost predicate NobodyBlocked(s: State) {
    s.broadcast ==> forall r :: r in s.readers ==> !s.readers[r].Asleep? && !s.readers[r].Deciding?
  }

  /** The queue is what has arrived and not gone yet, oldest first, and at most 32 reports long. */
  ghost predicate QueueOk(s: State) {
    s.gone <= |s.arrived| && s.queue == s.arrived[s.gone..] && |s.queue| <= QUEUE_LIMIT + 2
  }

  /** Every read got the first bytes of the report that was the oldest then; no report was read twice. */
  ghost predicate LogOk(s: State) {
    && (forall i :: 0 <= i < |s.log| ==>
          s.log[i].index < s.gone && s.log[i].index < |s.arrived|
          && s.log[i].bytes == First(s.arrived[s.log[i].index], s.log[i].length))
    && (forall i, j :: 0 <= i < j < |s.log| ==> s.log[i].index < s.log[j].index)
  }

  ghost predicate SafeState(s: State) {
    OwnerOk(s) && FlagsOk(s) && NobodyBlocked(s) && QueueOk(s) && LogOk(s)
  }

  lemma ReaderOwner(s: State, s': State, r: nat)
    requires OwnerOk(s) && ReaderEffect(s, s', r)
    ensures OwnerOk(s')
  {
    hide QueueUse, ReaderPc.Holds;
  }

  lemma ReaderFlags(s: State, s': State, r: nat)
    requires FlagsOk(s) && NobodyBlocked(s) && ReaderEffect(s, s', r)
    ensures FlagsOk(s') && NobodyBlocked(s')
  {
    hide QueueUse, MutexUse;
  }

  lemma ReaderQueue(s: State, s': State, r: nat)
    requires QueueOk(s) && LogOk(s) && ReaderEffect(s, s', r)
    ensures QueueOk(s') && LogOk(s')
  {
    hide MutexUse, First;
  }

  lemma ReaderSafe(s: State, r: nat, op: ReaderOp)
    requires SafeState(s) && ReaderMay(s, r, op)
    ensures SafeState(ReaderStep(s, r, op))
  {
    ReaderHasEffect(s, r, op);
    hide ReaderStep, OwnerOk, FlagsOk, NobodyBlocked, QueueOk, LogOk, ReaderEffect;
    ReaderOwner(s, ReaderStep(s, r, op), r);
    ReaderFlags(s, ReaderStep(s, r, op), r);
    ReaderQueue(s, ReaderStep(s, r, op), r);
  }

  /** Waking readers changes nothing else, and a reader that is woken was waiting. */
  lemma WakeSafe(s: State, s': State, woken: set<nat>)
    requires SafeState(s) && WakeEffect(s, s', woken)
    ensures SafeState(s')
  {
  }

  lemma DeliverySafe(s: State, a: Action)
    requires SafeState(s) && Enabled(s, a) && (a.Complete? || a.TransferTimeout? || a.TransferStopped?)
    ensures SafeState(Apply(s, a))
  {
    hide First;
  }

  lemma AttachSafe(s: State, s': State, report: Report)
    requires SafeState(s) && s.callback == CbAttaching(report)
    requires s' == s.(callback := CbUnlocking, queue := Attached(s.queue, report), arrived := s.arrived + [report],
                      gone := s.gone + |s.queue| + 1 - |Attached(s.queue, report)|)
    ensures SafeState(s')
  {
    AttachedBounded(s.queue, report);
    assert s.arrived[s.gone..] + [report] == s'.arrived[s.gone..];
    hide Attached, First, NobodyBlocked;
  }

  lemma CallbackSafe(s: State, woken: set<nat>, submitted: bool)
    requires SafeState(s) && CallbackMay(s, woken)
    ensures SafeState(CallbackNext(s, woken, submitted))
  {
    if s.callback.CbAttaching? {
      WakeHasEffect(s, woken);
      hide WakeAll, SafeState, Attached;
      WakeSafe(s, WakeAll(s, woken), woken);
      AttachSafe(WakeAll(s, woken), CallbackNext(s, woken, submitted), s.callback.report);
    } else {
      hide First, Attached, WakeAll;
    }
  }

  lemma EventSafe(s: State, fatal: bool)
    requires SafeState(s) && EventMay(s)
    ensures SafeState(EventNext(s, fatal))
  {
    if s.event.EvWaking? {
      WakeHasEffect(s, Sleepers(s));
      WakeSafe(s, WakeAll(s, Sleepers(s)), Sleepers(s));
      BroadcastSafe(s, WakeAll(s, Sleepers(s)));
    } else {
      hide First, WakeAll;
    }
  }

  /** The broadcast is made under the mutex, so nobody can be between testing the flag and waiting. */
  lemma BroadcastSafe(s: State, s': State)
    requires SafeState(s) && SafeState(s') && s.event.EvWaking? && WakeEffect(s, s', Sleepers(s))
    ensures SafeState(s'.(event := EvUnlocking, broadcast := true))
  {
    hide First;
    forall r | r in s'.readers ensures !s'.readers[r].Asleep? && !s'.readers[r].Deciding? {
      assert r in Sleepers(s) <==> s.readers[r].Asleep?;
      assert s.owner == ByEvent;
    }
  }

  lemma CloserSafe(s: State)
    requires SafeState(s) && CloserMay(s)
    ensures SafeState(CloserNext(s))
  {
    hide First;
  }

  /** Every step of every agent keeps the state safe. */
  lemma StepSafe(s: State, a: Action)
    requires SafeState(s) && Enabled(s, a)
    ensures SafeState(Apply(s, a))
  {
    hide SafeState, ReaderStep, CallbackNext, EventNext, CloserNext;
    match a
    case Reader(r, op) => ReaderSafe(s, r, op);
    case CallbackStep(woken, submitted) => CallbackSafe(s, woken, submitted);
    case EventStep(fatal) => EventSafe(s, fatal);
    case CloserStep => CloserSafe(s);
    case _ => DeliverySafe(s, a);
  }

  lemma StartSafe(readers: set<nat>)
    ensures SafeState(Start(readers))
  {
  }

  /** Over whole runs, for any number of readers and any interleaving: the queue is exactly the reports that
      have arrived and not gone, in order, and never longer than 32; only the oldest leave it; every read gets
      the first bytes of the oldest report; and once the event thread has broadcast nobody is blocked any more. */
  lemma {:induction false} RunSafe(readers: set<nat>, run: seq<Action>)
    requires Possible(Start(readers), run)
    ensures SafeState(After(Start(readers), run))
    decreases |run|
  {
    hide SafeState, Apply, Enabled, Start;
    if run == [] {
      StartSafe(readers);
    } else {
      RunSafe(readers, run[..|run| - 1]);
      StepSafe(After(Start(readers), run[..|run| - 1]), run[|run| - 1]);
    }
  }
}
