/**
 The queue between the resolver's threads and the thread that writes to the database: any number of
 producers, one writer, one stopper, interleaved action by action. An action is what happens under
 one lock, or one access to the shared stop flag.
 */
module CacheQueue {
  /** Entries are told apart by address. */
  type Entry = nat

  /** Where the writer's loop stands. */
  datatype Writer =
    | Waiting
    | Woken(qrun: bool)
    | Checking(qrun: bool)
    | Deciding
    | Locking
    | Inspecting
    | Emptied
    | Popped(entry: Entry)
    | PoppedLast(entry: Entry)
    | Writing(entry: Entry)
    | Deleting(entry: Entry)
    | ClearedEmpty
    | ClearedLast(entry: Entry)
    | Stopping
    | Ended

  datatype Stopper = NotStopping | StopRequested | StopSignalled | StopDone

  datatype Offer = Offer(entry: Entry, written: bool)

  datatype State = State(
    queue: seq<Entry>,
    /** The wake flag. */
    qRun: bool,
    /** Whether the writer holds the queue's lock; producers hold it only within one action. */
    locked: bool,
    goToStop: bool,
    stopped: bool,
    dbErr: bool,
    writer: Writer,
    stopper: Stopper,
    /** Producers that have pushed their entry and not yet set the wake flag. */
    pushing: set<nat>,
    // History: every entry's way.
    pushed: seq<Entry>,
    popped: seq<Entry>,
    offered: seq<Offer>,
    freed: seq<Entry>)

  function Start(): State {
    State([], false, false, false, false, false, Waiting, NotStopping, {}, [], [], [], [])
  }

  datatype Action =
    /** A producer pushes under the queue's lock. */
    | Push(producer: nat, entry: Entry)
    /** The same producer sets the wake flag. */
    | Signal(producer: nat)
    | RequestStop
    | SignalStop
    | FinishStop
    /** The writer's wait ends: because the flag is set, or because its time is up. */
    | Wake(timeout: bool)
    | CheckStop
    | AnnounceStop
    /** The connection is looked at when there is a reason to; `broken` is how that comes out. */
    | CheckConnection(broken: bool)
    | Decide
    | Lock
    | Inspect
    | ClearFlag
    | Unlock
    | Write(success: bool)
    | Delete

  predicate Enabled(st: State, a: Action) {
    match a
    case Push(p, _) => !st.locked && p !in st.pushing
    case Signal(p) => p in st.pushing
    case RequestStop => st.stopper == NotStopping
    case SignalStop => st.stopper == StopRequested
    case FinishStop => st.stopper == StopSignalled && st.stopped
    case Wake(timeout) => st.writer == Waiting && (st.qRun || timeout)
    case CheckStop => st.writer.Woken?
    case AnnounceStop => st.writer == Stopping
    case CheckConnection(_) => st.writer.Checking?
    case Decide => st.writer == Deciding
    case Lock => st.writer == Locking && !st.locked
    case Inspect => st.writer == Inspecting
    case ClearFlag => st.writer == Emptied || st.writer.PoppedLast?
    case Unlock => st.writer == ClearedEmpty || st.writer.ClearedLast? || st.writer.Popped?
    case Write(_) => st.writer.Writing?
    case Delete => st.writer.Deleting?
  }

  function Next(st: State, a: Action): State
    requires Enabled(st, a)
  {
    match a
    case Push(p, e) => st.(queue := st.queue + [e], pushed := st.pushed + [e], pushing := st.pushing + {p})
    case Signal(p) => st.(qRun := true, pushing := st.pushing - {p})
    case RequestStop => st.(goToStop := true, stopper := StopRequested)
    case SignalStop => st.(qRun := true, stopper := StopSignalled)
    case FinishStop => st.(stopper := StopDone)
    case Wake(_) => st.(writer := Woken(st.qRun))
    case CheckStop => st.(writer := if st.goToStop then Stopping else Checking(st.writer.qrun))
    case AnnounceStop => st.(stopped := true, writer := Ended)
    case CheckConnection(broken) =>
      st.(dbErr := if st.dbErr || !st.writer.qrun then broken else st.dbErr, writer := Deciding)
    case Decide => st.(writer := if st.dbErr then Waiting else Locking)
    case Lock => st.(locked := true, writer := Inspecting)
    case Inspect =>
      if st.queue == [] then st.(writer := Emptied)
      else
        var e, rest := st.queue[0], st.queue[1..];
        st.(queue := rest, popped := st.popped + [e], writer := if rest == [] then PoppedLast(e) else Popped(e))
    case ClearFlag =>
      st.(qRun := false,
          writer := if st.writer == Emptied then ClearedEmpty else ClearedLast(st.writer.entry))
    case Unlock =>
      st.(locked := false, writer := if st.writer == ClearedEmpty then Waiting else Writing(st.writer.entry))
    case Write(success) =>
      st.(offered := st.offered + [Offer(st.writer.entry, success)], dbErr := st.dbErr || !success,
          writer := Deleting(st.writer.entry))
    case Delete => st.(freed := st.freed + [st.writer.entry], writer := Waiting)
  }

  predicate IsRun(st: State, actions: seq<Action>)
    decreases |actions|
  {
    actions == [] || (Enabled(st, actions[0]) && IsRun(Next(st, actions[0]), actions[1..]))
  }

  function Run(st: State, actions: seq<Action>): State
    requires IsRun(st, actions)
    decreases |actions|
  {
    if actions == [] then st else Run(Next(st, actions[0]), actions[1..])
  }

  // ---------- the invariant ----------

  /** Entries of the offers, in order. */
  function Entries(offered: seq<Offer>): (r: seq<Entry>)
    ensures |r| == |offered|
  {
    if offered == [] then [] else Entries(offered[..|offered| - 1]) + [offered[|offered| - 1].entry]
  }

  lemma EntriesAdded(offered: seq<Offer>, o: Offer)
    ensures Entries(offered + [o]) == Entries(offered) + [o.entry]
  {
    assert (offered + [o])[..|offered|] == offered;
  }

  /** The entry in the writer's hands that has not been offered to the database yet. */
  function Unoffered(w: Writer): seq<Entry> {
    match w
    case Popped(e) => [e]
    case PoppedLast(e) => [e]
    case ClearedLast(e) => [e]
    case Writing(e) => [e]
    case _ => []
  }

  /** The entry in the writer's hands that has been offered and is not freed yet. */
  function Unfreed(w: Writer): seq<Entry> {
    match w
    case Deleting(e) => [e]
    case _ => []
  }

  /** The writer is about to take the flag down, or has just done so, and still holds the lock. */
  predicate SawEmpty(w: Writer) {
    w == Emptied || w.PoppedLast? || w == ClearedEmpty || w.ClearedLast?
  }

  /** The writer found the connection good and has not offered its entry yet. */
  predicate FoundGood(w: Writer) {
    w == Locking || w == Inspecting || w.Popped? || w.Writing? || SawEmpty(w)
  }

  ghost predicate Invariant(st: State) {
    && st.pushed == st.popped + st.queue
    && st.popped == Entries(st.offered) + Unoffered(st.writer)
    && Entries(st.offered) == st.freed + Unfreed(st.writer)
    && (st.locked <==> st.writer == Inspecting || st.writer.Popped? || SawEmpty(st.writer))
    && (SawEmpty(st.writer) ==> st.queue == [])
    && (FoundGood(st.writer) ==> !st.dbErr)
    && (st.queue != [] && !st.qRun ==> st.pushing != {})
    && (st.goToStop <==> st.stopper != NotStopping)
    && (st.stopped <==> st.writer == Ended)
    && (st.writer == Stopping || st.writer == Ended ==> st.goToStop)
    && (st.stopper == StopDone ==> st.stopped)
  }

  lemma StartKeeps()
    ensures Invariant(Start())
  {
  }

  lemma SidesKeep(st: State, a: Action)
    requires Invariant(st) && Enabled(st, a)
    requires a.Push? || a.Signal? || a.RequestStop? || a.SignalStop? || a.FinishStop?
    ensures Invariant(Next(st, a))
  {
    hide Entries, Unoffered, Unfreed;
    match a
    case Push(p, e) => assert p in Next(st, a).pushing;
    case _ =>
  }

  lemma ChecksKeep(st: State, a: Action)
    requires Invariant(st) && Enabled(st, a)
    requires a.Wake? || a.CheckStop? || a.AnnounceStop? || a.CheckConnection? || a.Decide? || a.Lock?
    ensures Invariant(Next(st, a))
  {
    hide Entries;
  }

  lemma HeadMoves(done: seq<Entry>, queue: seq<Entry>)
    requires queue != []
    ensures done + queue == (done + [queue[0]]) + queue[1..]
  {
  }

  lemma InspectKeeps(st: State)
    requires Invariant(st) && Enabled(st, Inspect)
    ensures Invariant(Next(st, Inspect))
  {
    hide Entries;
    if st.queue != [] {
      HeadMoves(st.popped, st.queue);
      assert st.popped == Entries(st.offered) + [] && st.popped == Entries(st.offered);
      assert Entries(st.offered) == st.freed + [] && Entries(st.offered) == st.freed;
      var e, rest := st.queue[0], st.queue[1..];
      var w := if rest == [] then PoppedLast(e) else Popped(e);
      assert Unoffered(w) == [e] && Unfreed(w) == [];
    }
  }

  lemma UnlocksKeep(st: State, a: Action)
    requires Invariant(st) && Enabled(st, a)
    requires a.ClearFlag? || a.Unlock?
    ensures Invariant(Next(st, a))
  {
    hide Entries;
  }

  lemma WritesKeep(st: State, a: Action)
    requires Invariant(st) && Enabled(st, a)
    requires a.Write? || a.Delete?
    ensures Invariant(Next(st, a))
  {
    hide Entries;
    if a.Write? {
      EntriesAdded(st.offered, Offer(st.writer.entry, a.success));
    }
  }

  lemma NextKeeps(st: State, a: Action)
    requires Invariant(st) && Enabled(st, a)
    ensures Invariant(Next(st, a))
  {
    hide Invariant, Next, Enabled;
    match a
    case Wake(_) => ChecksKeep(st, a);
    case CheckStop => ChecksKeep(st, a);
    case AnnounceStop => ChecksKeep(st, a);
    case CheckConnection(_) => ChecksKeep(st, a);
    case Decide => ChecksKeep(st, a);
    case Lock => ChecksKeep(st, a);
    case Inspect => InspectKeeps(st);
    case ClearFlag => UnlocksKeep(st, a);
    case Unlock => UnlocksKeep(st, a);
    case Write(_) => WritesKeep(st, a);
    case Delete => WritesKeep(st, a);
    case _ => SidesKeep(st, a);
  }

  lemma {:induction false} RunKeeps(st: State, actions: seq<Action>)
    requires Invariant(st) && IsRun(st, actions)
    ensures Invariant(Run(st, actions))
    decreases |actions|
  {
    if actions != [] {
      NextKeeps(st, actions[0]);
      RunKeeps(Next(st, actions[0]), actions[1..]);
    }
  }

  // ---------- the main results ----------

  /**
   No wake-up is lost: in every interleaving, when the queue is not empty and the flag is down some
   producer is between its push and its signal. So with no producer in between, a writer that waits
   beside a non-empty queue can go on at once, without its time running out.
   */
  lemma NoLostWakeUp(actions: seq<Action>)
    requires IsRun(Start(), actions)
    ensures var st := Run(Start(), actions);
            (st.queue != [] && !st.qRun ==> st.pushing != {})
            && (st.queue != [] && st.pushing == {} && st.writer == Waiting ==> Enabled(st, Wake(false)))
  {
    RunKeeps(Start(), actions);
  }

  /**
   First in, first out, once each: what was freed, what is in the writer's hands and what is queued
   are, in this order, what was pushed; an entry is freed only after it was offered to the database,
   and it is offered once, in the order of the pushes, whether earlier writes failed or not.
   */
  lemma FirstInFirstOut(actions: seq<Action>)
    requires IsRun(Start(), actions)
    ensures var st := Run(Start(), actions);
            st.pushed == st.freed + Unfreed(st.writer) + Unoffered(st.writer) + st.queue
            && Entries(st.offered) == st.freed + Unfreed(st.writer)
            && |Unfreed(st.writer) + Unoffered(st.writer)| <= 1
  {
    RunKeeps(Start(), actions);
  }

  /**
   The stopper's signal can be lost: the writer, having found the queue empty, takes the flag down
   after the stopper set it, and then waits with the stop requested until its time runs out.
   */
  lemma StopSignalCanBeLost() returns (actions: seq<Action>)
    ensures IsRun(Start(), actions)
            && var st := Run(Start(), actions);
               st.stopper == StopSignalled && st.writer == Waiting && !st.stopped
               && !Enabled(st, Wake(false)) && Enabled(st, Wake(true))
  {
    hide Run, IsRun;
    var first := FindsTheQueueEmpty();
    var second := LosesTheSignal(Start().(writer := Emptied, locked := true));
    RunJoins(Start(), first, second);
    actions := first + second;
  }

  lemma FindsTheQueueEmpty() returns (actions: seq<Action>)
    ensures IsRun(Start(), actions) && Run(Start(), actions) == Start().(writer := Emptied, locked := true)
  {
    hide Run, IsRun;
    var st := Start();
    actions := LooksAtTheQueue();
    actions := RunCons(st.(writer := Checking(false)), CheckConnection(false), actions);
    actions := RunCons(st.(writer := Woken(false)), CheckStop, actions);
    actions := RunCons(st, Wake(true), actions);
  }

  lemma LooksAtTheQueue() returns (actions: seq<Action>)
    ensures IsRun(Start().(writer := Deciding), actions)
    ensures Run(Start().(writer := Deciding), actions) == Start().(writer := Emptied, locked := true)
  {
    hide Run, IsRun;
    var st := Start();
    actions := RunEnds(st.(writer := Inspecting, locked := true), Inspect);
    actions := RunCons(st.(writer := Locking), Lock, actions);
    actions := RunCons(st.(writer := Deciding), Decide, actions);
  }

  lemma LosesTheSignal(st: State) returns (actions: seq<Action>)
    requires st == Start().(writer := Emptied, locked := true)
    ensures IsRun(st, actions)
    ensures Run(st, actions) == Start().(goToStop := true, stopper := StopSignalled)
  {
    hide Run, IsRun;
    var requested := st.(goToStop := true, stopper := StopRequested);
    var signalled := requested.(qRun := true, stopper := StopSignalled);
    var cleared := signalled.(qRun := false, writer := ClearedEmpty);
    actions := RunEnds(cleared, Unlock);
    actions := RunCons(signalled, ClearFlag, actions);
    actions := RunCons(requested, SignalStop, actions);
    actions := RunCons(st, RequestStop, actions);
  }

  lemma RunCons(st: State, a: Action, rest: seq<Action>) returns (actions: seq<Action>)
    requires Enabled(st, a) && IsRun(Next(st, a), rest)
    ensures IsRun(st, actions) && Run(st, actions) == Run(Next(st, a), rest)
  {
    hide Next, Enabled;
    actions := [a] + rest;
    assert actions[1..] == rest;
  }

  lemma NoRun(st: State) returns (actions: seq<Action>)
    ensures IsRun(st, actions) && Run(st, actions) == st && actions == []
  {
    actions := [];
  }

  lemma RunEnds(st: State, a: Action) returns (actions: seq<Action>)
    requires Enabled(st, a)
    ensures IsRun(st, actions) && Run(st, actions) == Next(st, a) && actions == [a]
  {
    hide Next, Enabled;
    actions := [a];
    assert actions[1..] == [];
  }

  lemma {:induction false} RunJoins(st: State, first: seq<Action>, second: seq<Action>)
    requires IsRun(st, first) && IsRun(Run(st, first), second)
    ensures IsRun(st, first + second) && Run(st, first + second) == Run(Run(st, first), second)
    decreases |first|
  {
    hide Next, Enabled;
    if first == [] {
      assert first + second == second;
    } else {
      RunJoins(Next(st, first[0]), first[1..], second);
      assert (first + second)[1..] == first[1..] + second;
    }
  }

  lemma RunSnoc(st: State, run: seq<Action>, a: Action, before: State) returns (longer: seq<Action>)
    requires IsRun(st, run) && Run(st, run) == before && Enabled(before, a)
    ensures IsRun(st, longer) && Run(st, longer) == Next(before, a)
    ensures longer == run + [a]
  {
    hide Next, Enabled;
    var last := RunEnds(before, a);
    RunJoins(st, run, last);
    longer := run + last;
  }

  // ---------- the deadline of a timed wait ----------

  datatype Deadline = Deadline(seconds: nat, nanoseconds: nat)

  /** Now, plus a number of milliseconds, carried over into seconds once. */
  function WaitUntil(seconds: nat, microseconds: nat, msec: nat): (d: Deadline)
    requires microseconds < 1_000_000
    ensures d.nanoseconds < 1_000_000_000
    ensures d.seconds * 1_000_000_000 + d.nanoseconds
            == seconds * 1_000_000_000 + microseconds * 1000 + msec * 1_000_000
  {
    var s := seconds + msec / 1000;
    var ns := (microseconds + msec % 1000 * 1000) * 1000;
    if ns >= 1_000_000_000 then Deadline(s + 1, ns - 1_000_000_000) else Deadline(s, ns)
  }
}
