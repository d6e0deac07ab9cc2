/**
 Stopping the writer: when exactly the stopper's signal is lost, and what the writer still does once
 the stop is requested; and what becomes of the entry in its hands, whatever the others do meanwhile.
 */
module CacheStop {
  import opened CacheQueue

  // ---------- when the signal is lost ----------

  /**
   The writer is on its way to take the wake flag down: it found the queue empty or took its last entry,
   or it passed the stop check with at most one entry queued and has no reason to wait first.
   */
  predicate CanLose(st: State) {
    || st.writer == Emptied
    || st.writer.PoppedLast?
    || (|st.queue| <= 1
        && (st.writer.Checking? || st.writer == Locking || st.writer == Inspecting
            || (st.writer == Deciding && !st.dbErr)))
  }

  /** The stop is signalled, the flag is up, and the writer is not on its way to take it down. */
  ghost predicate Safe(st: State) {
    Invariant(st) && st.goToStop && st.qRun && !CanLose(st)
  }

  lemma SafeStays(st: State, a: Action)
    requires Safe(st) && Enabled(st, a)
    ensures Safe(Next(st, a))
  {
    hide Invariant;
    NextKeeps(st, a);
  }

  lemma {:induction false} SafeRun(st: State, actions: seq<Action>)
    requires Safe(st) && IsRun(st, actions)
    ensures Safe(Run(st, actions))
    decreases |actions|
  {
    hide Safe, Next, Enabled;
    if actions != [] {
      SafeStays(st, actions[0]);
      SafeRun(Next(st, actions[0]), actions[1..]);
    }
  }

  /** How many steps the writer is from taking the flag down. */
  function StepsToClear(w: Writer): nat {
    match w
    case Checking(_) => 5
    case Deciding => 4
    case Locking => 3
    case Inspecting => 2
    case _ => 1
  }

  /** The writer's own next step on that way. */
  function OnTheWay(w: Writer): Action {
    match w
    case Checking(_) => CheckConnection(false)
    case Deciding => Decide
    case Locking => Lock
    case Inspecting => Inspect
    case _ => ClearFlag
  }

  lemma OnTheWayStays(st: State)
    requires Invariant(st) && CanLose(st)
    ensures var a := OnTheWay(st.writer);
            Enabled(st, a)
            && if a == ClearFlag then !Next(st, a).qRun
               else CanLose(Next(st, a)) && StepsToClear(Next(st, a).writer) < StepsToClear(st.writer)
  {
    hide Entries;
  }

  lemma {:induction false} LosingRun(st: State) returns (actions: seq<Action>)
    requires Invariant(st) && CanLose(st)
    ensures IsRun(st, actions) && !Run(st, actions).qRun
    decreases StepsToClear(st.writer)
  {
    OnTheWayStays(st);
    hide CanLose, Next, Enabled, Run, IsRun;
    var a := OnTheWay(st.writer);
    if a == ClearFlag {
      actions := RunEnds(st, a);
    } else {
      NextKeeps(st, a);
      var rest := LosingRun(Next(st, a));
      actions := RunCons(st, a, rest);
    }
  }

  /**
   Exactly when the stop signal can be lost. In any reachable state in which the stopper may signal, the
   flag it sets is taken down again in some continuation if and only if the writer is, at that moment,
   on its way to take it down.
   */
  lemma StopSignalIsLostIf(before: seq<Action>)
    requires IsRun(Start(), before) && Enabled(Run(Start(), before), SignalStop)
    ensures var st := Run(Start(), before);
            var signalled := Next(st, SignalStop);
            (exists after :: IsRun(signalled, after) && !Run(signalled, after).qRun) <==> CanLose(st)
  {
    RunKeeps(Start(), before);
    var st := Run(Start(), before);
    var signalled := Next(st, SignalStop);
    NextKeeps(st, SignalStop);
    SignalChangesNoWriter(st);
    hide Next, Enabled, Run, IsRun, CanLose, Invariant;
    if CanLose(st) {
      var after := LosingRun(signalled);
    } else if after :| IsRun(signalled, after) && !Run(signalled, after).qRun {
      SafeRun(signalled, after);
      assert false;
    }
  }

  lemma SignalChangesNoWriter(st: State)
    requires Invariant(st) && Enabled(st, SignalStop)
    ensures var signalled := Next(st, SignalStop);
            signalled.goToStop && signalled.qRun && CanLose(signalled) == CanLose(st)
  {
  }

  // ---------- what the writer does after the stop was requested ----------

  /** The writer waits, or has just woken up, or stops. */
  predicate BeforeTheCheck(w: Writer) {
    w == Waiting || w.Woken? || w == Stopping || w == Ended
  }

  /** No entry is taken, offered or freed between the two states. */
  predicate NothingTaken(st: State, st': State) {
    st'.popped == st.popped && st'.offered == st.offered && st'.freed == st.freed
  }

  lemma StopHoldsTheWriter(st: State, a: Action)
    requires Invariant(st) && st.goToStop && BeforeTheCheck(st.writer) && Enabled(st, a)
    ensures var next := Next(st, a);
            next.goToStop && BeforeTheCheck(next.writer) && NothingTaken(st, next)
  {
  }

  /**
   Once the stop is requested and the writer is back at its wait, it takes no further entry, in any
   continuation: it wakes up, sees the request and ends.
   */
  lemma {:induction false} StoppedWriterTakesNothing(st: State, actions: seq<Action>)
    requires Invariant(st) && st.goToStop && BeforeTheCheck(st.writer) && IsRun(st, actions)
    ensures var last := Run(st, actions);
            last.goToStop && BeforeTheCheck(last.writer) && NothingTaken(st, last)
    decreases |actions|
  {
    hide Next, Enabled, Invariant, BeforeTheCheck;
    if actions != [] {
      StopHoldsTheWriter(st, actions[0]);
      NextKeeps(st, actions[0]);
      StoppedWriterTakesNothing(Next(st, actions[0]), actions[1..]);
    }
  }

  // ---------- the entry in the writer's hands ----------

  /** The writer's way with entry `e` from `st` on: offered to the database, freed, and back to the wait. */
  ghost predicate Disposing(st: State, e: Entry, now: State) {
    && now.popped == st.popped
    && st.queue <= now.queue
    && (match now.writer
        case Writing(f) => f == e && now.offered == st.offered && now.freed == st.freed
        case Deleting(f) => f == e && OfferedOnce(st, e, now) && now.freed == st.freed && AsWritten(now)
        case Waiting => OfferedOnce(st, e, now) && now.freed == st.freed + [e] && AsWritten(now)
        case _ => false)
  }

  predicate OfferedOnce(st: State, e: Entry, now: State) {
    |now.offered| == |st.offered| + 1 && now.offered[..|st.offered|] == st.offered
    && now.offered[|st.offered|].entry == e
  }

  /** The connection is doubted exactly when the last write failed. */
  predicate AsWritten(now: State) {
    now.offered != [] && now.dbErr == !now.offered[|now.offered| - 1].written
  }

  lemma DisposingStays(st: State, e: Entry, now: State, a: Action)
    requires Invariant(now) && Disposing(st, e, now) && Enabled(now, a) && !a.Wake?
    ensures Disposing(st, e, Next(now, a))
  {
    hide Entries;
  }

  predicate NoWake(actions: seq<Action>) {
    forall i :: 0 <= i < |actions| ==> !actions[i].Wake?
  }

  /**
   A write, failed or not, disposes of its own entry only: whatever producers and stopper do up to the
   writer's next wake-up, the entry is offered once and freed once, the queue keeps all it held, and the
   connection is doubted exactly when the write failed.
   */
  lemma {:induction false} WriteDropsOneEntry(st: State, e: Entry, now: State, actions: seq<Action>)
    requires Invariant(now) && Disposing(st, e, now) && IsRun(now, actions) && NoWake(actions)
    ensures Disposing(st, e, Run(now, actions))
    decreases |actions|
  {
    hide Disposing, Next, Enabled, Invariant;
    if actions != [] {
      DisposingStays(st, e, now, actions[0]);
      NextKeeps(now, actions[0]);
      WriteDropsOneEntry(st, e, Next(now, actions[0]), actions[1..]);
    }
  }

  lemma WritingIsDisposing(st: State)
    requires Invariant(st) && st.writer.Writing?
    ensures Disposing(st, st.writer.entry, st)
  {
  }

  // ---------- a connection in doubt ----------

  lemma DoubtStays(st: State, a: Action)
    requires Invariant(st) && st.dbErr && Enabled(st, a) && a != CheckConnection(false)
    ensures Next(st, a).dbErr && !a.Write? && !a.Inspect?
  {
    hide Entries;
  }

  /**
   After a failed write, or a check that found the connection broken, nothing is taken from the queue and
   nothing is written until a check finds the connection good.
   */
  lemma {:induction false} NothingIsWrittenInDoubt(st: State, actions: seq<Action>)
    requires Invariant(st) && st.dbErr && IsRun(st, actions) && CheckConnection(false) !in actions
    ensures Run(st, actions).dbErr
    ensures forall a <- actions :: !a.Write? && !a.Inspect?
    ensures Run(st, actions).popped == st.popped && Run(st, actions).offered == st.offered
    decreases |actions|
  {
    hide Next, Enabled, Invariant;
    if actions != [] {
      DoubtStays(st, actions[0]);
      NothingTakenBy(st, actions[0]);
      NextKeeps(st, actions[0]);
      NothingIsWrittenInDoubt(Next(st, actions[0]), actions[1..]);
    }
  }

  lemma NothingTakenBy(st: State, a: Action)
    requires Enabled(st, a) && !a.Write? && !a.Inspect?
    ensures Next(st, a).popped == st.popped && Next(st, a).offered == st.offered
  {
  }
}
