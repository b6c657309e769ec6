/** Closing the device can always be completed: no interleaving of readers, callback and event thread leads to a state
    from which the broadcast, the end of `hid_close` or the return of a reader is out of reach. */
module HidProgress {
  import opened Reports
  import opened HidProtocol
  import opened HidReaders

  /** The callback is done only after it has set the second flag. */
  ghost predicate DoneOk(s: State) {
    s.callback.CbDone? ==> s.cancelled
  }

  lemma DoneStep(s: State, a: Action)
    requires DoneOk(s) && Enabled(s, a)
    ensures DoneOk(Apply(s, a))
  {
    hide Attached, First;
    if a.Reader? {
      ReaderHasEffect(s, a.r, a.op);
      hide ReaderStep;
    }
  }

  ghost predicate Sound(s: State) {
    SafeState(s) && DoneOk(s)
  }

  lemma SoundStep(s: State, a: Action)
    requires Sound(s) && Enabled(s, a)
    ensures Sound(Apply(s, a))
  {
    hide Enabled, Apply, SafeState, DoneOk;
    StepSafe(s, a);
    DoneStep(s, a);
  }

  lemma {:induction false} RunSound(readers: set<nat>, run: seq<Action>)
    requires Possible(Start(readers), run)
    ensures Sound(After(Start(readers), run))
    decreases |run|
  {
    hide Apply, Enabled, SafeState;
    if run == [] {
      StartSafe(readers);
    } else {
      RunSound(readers, run[..|run| - 1]);
      hide Sound, Start;
      SoundStep(After(Start(readers), run[..|run| - 1]), run[|run| - 1]);
    }
  }

  /** How far a reader is from returning, once it has or can get the mutex. */
  function PcRank(pc: ReaderPc): nat {
    match pc
    case Out => 0
    case Locking(_, _) => 9
    case Woken(_, _, _) => 9
    case Look(_, _) => 8
    case LookFlag(_, _) => 7
    case AfterWait(_, _) => 7
    case LoopQueue(_, _) => 6
    case LoopFlag(_, _) => 5
    case LoopExit(_, _) => 4
    case Deciding(_, _) => 3
    case Leave(_, _) => 2
    case Asleep(_, _) => 0
  }

  function HoldRank(s: State): nat {
    if s.owner.ByReader? && s.owner.r in s.readers then PcRank(s.readers[s.owner.r]) else 0
  }

  function CallbackRank(pc: CallbackPc): nat {
    match pc
    case CbLocking(_) => 10
    case CbAttaching(_) => 9
    case CbUnlocking => 6
    case Submitting => 5
    case Quiet => 4
    case Stopping => 3
    case Cancelling => 2
    case CbDone => 0
  }

  function EventRank(pc: EventPc): nat {
    match pc
    case EvHandling => 8
    case EvLoop => 7
    case EvCancel => 6
    case EvDraining => 5
    case EvLocking => 4
    case EvWaking => 3
    case EvUnlocking => 2
    case EvDone => 0
  }

  function CloserRank(pc: CloserPc): nat {
    match pc
    case Open => 6
    case Joining => 5
    case ClLocking => 4
    case ClClearing => 3
    case ClUnlocking => 2
    case Closed => 0
  }

  /** How far the close is from its end. */
  function Rank(s: State): nat {
    HoldRank(s) + CallbackRank(s.callback) + EventRank(s.event) + CloserRank(s.closer) + |s.queue|
  }

  /** The step that brings it nearer: the call itself, the reader that holds the mutex, the transfer that is brought to
      its end, the event thread, and the closing thread. */
  function Help(s: State): Action {
    if s.closer.Open? then CloserStep
    else if s.owner.ByReader? then Reader(s.owner.r, Continue)
    else if s.callback.Quiet? then TransferStopped
    else if !s.callback.CbDone? then
      CallbackStep(if s.callback.CbAttaching? && s.queue == [] then Sleepers(s) else {}, true)
    else if !s.event.EvDone? then EventStep(false)
    else CloserStep
  }

  /** Nobody needs to call a read, wake up spuriously or run into a timeout, and no more reports need to come. */
  predicate Helpful(a: Action) {
    match a
    case Reader(_, op) => op == Continue
    case Complete(_) => false
    case TransferTimeout => false
    case _ => true
  }

  lemma ReaderHelps(s: State, r: nat)
    requires OwnerOk(s) && s.shutdown && s.owner == ByReader(r)
    ensures ReaderMay(s, r, Continue)
    ensures var s' := ReaderStep(s, r, Continue);
            HoldRank(s') + |s'.queue| < HoldRank(s) + |s.queue|
            && s'.callback == s.callback && s'.event == s.event && s'.closer == s.closer
  {
    assert s.readers[r].Holds();
    MayStep(s, r);
    DecideFits(s.readers[r], Continue, s.queue == [], true);
    DecideRank(s.readers[r], s.queue == []);
    hide Decide, First, OwnerOk, ReaderMay;
  }

  lemma HelpIsEnabled(s: State)
    requires OwnerOk(s) && FlagsOk(s) && DoneOk(s) && !s.closer.Closed?
    ensures Enabled(s, Help(s)) && Helpful(Help(s))
  {
    if s.owner.ByReader? {
      assert s.readers[s.owner.r].Holds();
    }
  }

  lemma AttachedLength(queue: seq<Report>, r: Report)
    ensures |Attached(queue, r)| <= |queue| + 1
  {
  }

  lemma CallbackHelps(s: State, woken: set<nat>)
    requires CallbackMay(s, woken) && !s.owner.ByReader? && !s.callback.Quiet?
    ensures var s' := CallbackNext(s, woken, true);
            !s'.owner.ByReader? && CallbackRank(s'.callback) + |s'.queue| < CallbackRank(s.callback) + |s.queue|
            && s'.event == s.event && s'.closer == s.closer
  {
    hide First;
    if s.callback.CbAttaching? {
      AttachedLength(s.queue, s.callback.report);
    }
  }

  lemma HelpHelps(s: State)
    requires OwnerOk(s) && FlagsOk(s) && DoneOk(s) && !s.closer.Closed?
    ensures Enabled(s, Help(s)) && Rank(Apply(s, Help(s))) < Rank(s)
  {
    HelpIsEnabled(s);
    if !s.closer.Open? && s.owner.ByReader? {
      ReaderHelps(s, s.owner.r);
      hide ReaderStep;
    } else if !s.closer.Open? && !s.callback.Quiet? && !s.callback.CbDone? {
      CallbackHelps(s, Help(s).woken);
      hide CallbackNext;
    } else {
      hide WakeAll;
    }
  }

  ghost predicate AllHelpful(run: seq<Action>) {
    forall i :: 0 <= i < |run| ==> Helpful(run[i])
  }

  /** From wherever a run has led, helpful steps alone bring the close to its end. */
  lemma {:induction false} CloseFrom(s0: State, run: seq<Action>, s: State) returns (more: seq<Action>, s': State)
    requires Reached(s0, run, s) && Sound(s)
    ensures Reached(s0, run + more, s') && AllHelpful(more) && Sound(s') && s'.closer.Closed?
    decreases Rank(s)
  {
    hide Reached, Apply, Enabled, Rank, Sound, Helpful, Help;
    if s.closer.Closed? {
      more, s' := [], s;
      assert run + [] == run;
    } else {
      var a := Help(s);
      SoundHelps(s);
      Go(s0, run, s, a);
      more, s' := CloseFrom(s0, run + [a], Apply(s, a));
      assert run + [a] + more == run + ([a] + more);
      more := [a] + more;
    }
  }

  lemma SoundHelps(s: State)
    requires Sound(s) && !s.closer.Closed?
    ensures Enabled(s, Help(s)) && Helpful(Help(s)) && Rank(Apply(s, Help(s))) < Rank(s) && Sound(Apply(s, Help(s)))
  {
    hide Apply, Enabled, Rank, OwnerOk, FlagsOk, DoneOk, NobodyBlocked, QueueOk, LogOk, Helpful, Help;
    HelpIsEnabled(s);
    HelpHelps(s);
    hide Sound;
    SoundStep(s, Help(s));
  }

  /** Those that are in a read. */
  function Inside(s: State): set<nat> {
    set r | r in s.readers && !s.readers[r].Out?
  }

  /** The close has returned. */
  ghost predicate Over(s: State) {
    Sound(s) && s.closer.Closed? && s.broadcast
  }

  /** After that a reader that has or can get the mutex returns by its own steps. */
  lemma {:induction false} ReturnFrom(s0: State, run: seq<Action>, s: State, r: nat)
    returns (more: seq<Action>, s': State)
    requires Reached(s0, run, s) && Over(s) && r in s.readers && s.owner in {Free, ByReader(r)}
    ensures Reached(s0, run + more, s') && AllHelpful(more)
    ensures Over(s') && s'.owner == Free && Inside(s') == Inside(s) - {r}
    decreases PcRank(s.readers[r])
  {
    hide Reached, Apply, Enabled, PcRank, Inside, Over;
    if s.readers[r].Out? {
      more, s' := [], s;
      assert run + [] == run;
      NotInside(s, r);
    } else {
      var a := Reader(r, Continue);
      ReaderReturns(s, r);
      Go(s0, run, s, a);
      more, s' := ReturnFrom(s0, run + [a], Apply(s, a), r);
      assert run + [a] + more == run + ([a] + more);
      more := [a] + more;
    }
  }

  lemma NotInside(s: State, r: nat)
    requires Over(s) && r in s.readers && s.readers[r].Out? && s.owner in {Free, ByReader(r)}
    ensures Inside(s) - {r} == Inside(s) && s.owner == Free
  {
    assert !s.readers[r].Holds();
    hide FlagsOk, NobodyBlocked, QueueOk, LogOk;
  }

  /** One step of a reader that is inside. */
  lemma ReaderReturns(s: State, r: nat)
    requires Over(s) && r in s.readers && !s.readers[r].Out? && s.owner in {Free, ByReader(r)}
    ensures Enabled(s, Reader(r, Continue))
    ensures var s' := Apply(s, Reader(r, Continue));
            && Over(s') && r in s'.readers && PcRank(s'.readers[r]) < PcRank(s.readers[r])
            && s'.owner in {Free, ByReader(r)} && Inside(s') - {r} == Inside(s) - {r}
  {
    hide OwnerOk, FlagsOk, NobodyBlocked, QueueOk, LogOk, PcRank, ReaderStep;
    Broadcasted(s, r);
    OwnStep(s, r);
    ReaderHasEffect(s, r, Continue);
    SoundStep(s, Reader(r, Continue));
    hide Sound;
    OthersStay(s, ReaderStep(s, r, Continue), r);
  }

  lemma OthersStay(s: State, s': State, r: nat)
    requires ReaderEffect(s, s', r)
    ensures Inside(s') - {r} == Inside(s) - {r} && r in s'.readers
    ensures s'.closer == s.closer && s'.broadcast == s.broadcast
  {
    hide MutexUse, QueueUse;
  }

  lemma Broadcasted(s: State, r: nat)
    requires SafeState(s) && s.broadcast && r in s.readers
    ensures !s.readers[r].Asleep? && !s.readers[r].Deciding? && s.shutdown
  {
  }

  lemma DecideRank(pc: ReaderPc, empty: bool)
    requires !pc.Out? && !pc.Asleep?
    ensures match Decide(pc, Continue, empty, true)
            case Goto(pc') => PcRank(pc') < PcRank(pc)
            case Lock(pc') => PcRank(pc') < PcRank(pc)
            case Unlock(pc') => PcRank(pc') < PcRank(pc)
            case Pop(_, _) => PcRank(pc) > 2
  {
  }

  lemma OwnStep(s: State, r: nat)
    requires OwnerOk(s) && s.shutdown && r in s.readers && !s.readers[r].Out? && !s.readers[r].Asleep?
    requires s.owner in {Free, ByReader(r)}
    ensures ReaderMay(s, r, Continue)
    ensures var s' := ReaderStep(s, r, Continue);
            PcRank(s'.readers[r]) < PcRank(s.readers[r]) && s'.owner in {Free, ByReader(r)}
  {
    MayStep(s, r);
    DecideFits(s.readers[r], Continue, s.queue == [], true);
    DecideRank(s.readers[r], s.queue == []);
    hide Decide, First, OwnerOk, ReaderMay;
  }

  lemma MayStep(s: State, r: nat)
    requires OwnerOk(s) && r in s.readers && !s.readers[r].Out? && !s.readers[r].Asleep?
    requires s.owner in {Free, ByReader(r)}
    ensures ReaderMay(s, r, Continue)
  {
  }

  /** Then all readers return, one after the other. */
  lemma {:induction false} AllReturnFrom(s0: State, run: seq<Action>, s: State) returns (more: seq<Action>, s': State)
    requires Reached(s0, run, s) && Over(s) && s.owner == Free
    ensures Reached(s0, run + more, s') && AllHelpful(more) && Over(s') && Inside(s') == {}
    decreases |Inside(s)|
  {
    hide Reached, Over;
    if Inside(s) == {} {
      more, s' := [], s;
      assert run + [] == run;
    } else {
      var r :| r in Inside(s);
      more, s' := ReturnFrom(s0, run, s, r);
      FewerInside(Inside(s), r);
      hide Inside;
      var rest;
      rest, s' := AllReturnFrom(s0, run + more, s');
      assert run + more + rest == run + (more + rest);
      more := more + rest;
    }
  }

  lemma FewerInside(a: set<nat>, r: nat)
    requires r in a
    ensures |a - {r}| < |a|
  {
    assert a == a - {r} + {r};
  }

  /** The mutex can only be a reader's then, and that one returns first. */
  lemma ReturnFirst(s0: State, run: seq<Action>, s: State) returns (more: seq<Action>, s': State)
    requires Reached(s0, run, s) && Sound(s) && s.closer.Closed?
    ensures Reached(s0, run + more, s') && AllHelpful(more) && Over(s') && s'.owner == Free
  {
    ClosedIsOver(s);
    hide Reached, Sound, Over, Inside;
    if s.owner.ByReader? {
      more, s' := ReturnFrom(s0, run, s, s.owner.r);
    } else {
      more, s' := [], s;
      assert run + [] == run;
    }
  }

  lemma ClosedIsOver(s: State)
    requires Sound(s) && s.closer.Closed?
    ensures Over(s) && (s.owner == Free || (s.owner.ByReader? && s.owner.r in s.readers))
  {
    hide NobodyBlocked, QueueOk, LogOk;
  }

  /** No run is a dead end: from wherever it has led, for any number of readers, there is a continuation without new
      reads and without new reports in which the event thread broadcasts, the close returns and so do all reads. */
  lemma CloseCanComplete(readers: set<nat>, run: seq<Action>) returns (more: seq<Action>)
    requires Possible(Start(readers), run)
    ensures Possible(Start(readers), run + more) && AllHelpful(more)
    ensures var s := After(Start(readers), run + more);
            s.broadcast && s.closer.Closed? && forall r :: r in s.readers ==> s.readers[r].Out?
  {
    hide Possible, After, Sound, Start;
    RunSound(readers, run);
    assert Reached(Start(readers), run, After(Start(readers), run));
    var s, s';
    more, s := CloseFrom(Start(readers), run, After(Start(readers), run));
    var next;
    next, s' := ReturnFirst(Start(readers), run + more, s);
    assert run + more + next == run + (more + next);
    more := more + next;
    next, s' := AllReturnFrom(Start(readers), run + more, s');
    assert run + more + next == run + (more + next);
    more := more + next;
    NobodyInside(s');
  }

  lemma NobodyInside(s: State)
    requires Inside(s) == {}
    ensures forall r :: r in s.readers ==> s.readers[r].Out?
  {
    forall r | r in s.readers ensures s.readers[r].Out? {
      assert r !in Inside(s);
    }
  }
}
