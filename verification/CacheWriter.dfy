/**
 The cache as an object: its list, its flags and the writer's loop, where the other threads may act
 between any two steps of the writer. What a turn of the loop does is a run of the step relation, so
 everything proved about runs holds of it.
 */
module CacheWriters {
  import opened Wrappers
  import opened CacheQueue

  /** One turn of a wait: what the others do meanwhile, and the time at its end. */
  datatype Wakeup = Wakeup(others: seq<Action>, clock: Deadline)

  predicate Passed(clock: Deadline, timeout: Deadline) {
    clock.seconds > timeout.seconds
    || (clock.seconds == timeout.seconds && clock.nanoseconds >= timeout.nanoseconds)
  }

  /** A clock has passed a deadline when not a nanosecond is left. */
  lemma PassedIsNotBefore(clock: Deadline, timeout: Deadline)
    requires clock.nanoseconds < 1_000_000_000 && timeout.nanoseconds < 1_000_000_000
    ensures Passed(clock, timeout)
            <==> clock.seconds * 1_000_000_000 + clock.nanoseconds
                 >= timeout.seconds * 1_000_000_000 + timeout.nanoseconds
  {
  }

  // ---------- what the other threads do ----------

  /** An action of a producer or of the stopper. */
  predicate IsSide(a: Action) {
    a.Push? || a.Signal? || a.RequestStop? || a.SignalStop? || a.FinishStop?
  }

  /** The state after whatever of these actions the other threads can take, in turn. */
  ghost function Acted(st: State, actions: seq<Action>): State
    decreases |actions|
  {
    if actions == [] then st
    else Acted(if IsSide(actions[0]) && Enabled(st, actions[0]) then Next(st, actions[0]) else st, actions[1..])
  }

  /** The state after the first turns of a wait. */
  ghost function Waited(st: State, wakeups: seq<Wakeup>): State
    decreases |wakeups|
  {
    if wakeups == [] then st
    else Acted(Waited(st, wakeups[..|wakeups| - 1]), wakeups[|wakeups| - 1].others)
  }

  lemma {:induction false} ActedSnoc(st: State, actions: seq<Action>, a: Action)
    ensures var before := Acted(st, actions);
            Acted(st, actions + [a]) == if IsSide(a) && Enabled(before, a) then Next(before, a) else before
    decreases |actions|
  {
    hide Next, Enabled;
    if actions == [] {
      assert (actions + [a])[1..] == [];
    } else {
      assert (actions + [a])[1..] == actions[1..] + [a];
      ActedSnoc(if IsSide(actions[0]) && Enabled(st, actions[0]) then Next(st, actions[0]) else st, actions[1..], a);
    }
  }

  /** Nothing of the writer's has changed; entries have joined the queue, unless it was locked. */
  ghost predicate Beside(st: State, now: State) {
    && now.writer == st.writer && now.locked == st.locked && now.dbErr == st.dbErr && now.stopped == st.stopped
    && now.popped == st.popped && now.offered == st.offered && now.freed == st.freed
    && st.queue <= now.queue && now.pushed == st.pushed + now.queue[|st.queue|..]
    && (st.locked ==> now.queue == st.queue)
    && (st.goToStop ==> now.goToStop) && (st.qRun ==> now.qRun)
  }

  lemma BesideOnce(st: State, a: Action)
    requires IsSide(a) && Enabled(st, a)
    ensures Beside(st, Next(st, a))
  {
  }

  lemma BesideTwice(st: State, mid: State, now: State)
    requires Beside(st, mid) && Beside(mid, now)
    ensures Beside(st, now)
  {
    assert now.queue[|st.queue|..] == mid.queue[|st.queue|..] + now.queue[|mid.queue|..];
  }

  lemma BesideItself(st: State)
    ensures Beside(st, st)
  {
  }

  lemma BesideKeeps(st: State, now: State)
    requires Beside(st, now)
    ensures now.writer == st.writer && now.locked == st.locked && now.dbErr == st.dbErr && now.stopped == st.stopped
    ensures now.popped == st.popped && now.offered == st.offered && now.freed == st.freed
    ensures st.locked ==> now.queue == st.queue && now.pushed == st.pushed
    ensures st.goToStop ==> now.goToStop
  {
  }

  lemma WaitedSnoc(st: State, wakeups: seq<Wakeup>, i: nat)
    requires i < |wakeups|
    ensures Waited(st, wakeups[..i + 1]) == Acted(Waited(st, wakeups[..i]), wakeups[i].others)
  {
    assert wakeups[..i + 1][..i] == wakeups[..i];
  }

  /** The writer's own actions in a run. */
  ghost function Mine(run: seq<Action>): seq<Action> {
    if run == [] then [] else (if IsSide(run[0]) then [] else [run[0]]) + Mine(run[1..])
  }

  lemma {:induction false} MineJoins(a: seq<Action>, b: seq<Action>)
    ensures Mine(a + b) == Mine(a) + Mine(b)
    decreases |a|
  {
    if a == [] {
      assert a + b == b;
    } else {
      assert (a + b)[1..] == a[1..] + b;
      MineJoins(a[1..], b);
    }
  }

  lemma NothingYet(st: State, wakeups: seq<Wakeup>)
    ensures Mine([]) == [] && Waited(st, wakeups[..0]) == st
  {
  }

  lemma MineSnoc(run: seq<Action>, a: Action)
    ensures Mine(run + [a]) == if IsSide(a) then Mine(run) else Mine(run) + [a]
  {
    MineJoins(run, [a]);
    assert [a][1..] == [];
  }

  // ---------- what a turn comes to ----------

  datatype Report = StillWaiting | Stopped | NoConnection | FoundEmpty | Wrote(entry: Entry)

  /** The writer's steps of a turn, in the order of the code. */
  function StepsOf(report: Report, timedOut: bool, broken: bool, last: bool, success: bool): seq<Action> {
    var checked := [Wake(timedOut), CheckStop, CheckConnection(broken), Decide];
    match report
    case StillWaiting => []
    case Stopped => [Wake(timedOut), CheckStop, AnnounceStop]
    case NoConnection => checked
    case FoundEmpty => checked + [Lock, Inspect, ClearFlag, Unlock]
    case Wrote(_) =>
      checked + [Lock, Inspect] + (if last then [ClearFlag] else []) + [Unlock, Write(success), Delete]
  }

  /** The queue as it was, and all that was pushed since. */
  function Pushed(st: State, pushed: seq<Entry>): seq<Entry>
    requires st.pushed <= pushed
  {
    st.queue + pushed[|st.pushed|..]
  }

  /**
   What a turn has achieved when it is over. `woken` is how the wait came out: whether the flag was up.
   The connection is looked at when it is in doubt or the time is over, and then its state decides.
   */
  ghost predicate Achieved(st: State, now: State, report: Report, woken: Option<bool>, broken: bool, success: bool) {
    && st.pushed <= now.pushed && !now.locked
    && (st.qRun ==> woken == Some(true))
    && (woken.None? <==> report.StillWaiting?)
    && (woken.Some? && st.goToStop ==> report.Stopped?)
    && (report.Stopped? ==> now.goToStop)
    && now.stopped == (st.stopped || report.Stopped?)
    && now.writer == (if report.Stopped? then Ended else Waiting)
    && (woken.Some? && !report.Stopped? ==>
          (report.NoConnection? <==> broken && (st.dbErr || !woken.value)))
    && (match report
        case Wrote(e) =>
          var all := Pushed(st, now.pushed);
          all != [] && e == all[0] && now.queue == all[1..]
          && now.popped == st.popped + [e] && now.freed == st.freed + [e]
          && now.offered == st.offered + [Offer(e, success)] && now.dbErr == !success
        case _ =>
          now.queue == Pushed(st, now.pushed) && now.popped == st.popped && now.freed == st.freed
          && now.offered == st.offered
          && now.dbErr == (if report.NoConnection? then true else if report.FoundEmpty? then false else st.dbErr))
    && (report.FoundEmpty? ==> st.queue == [])
  }

  /** Since `st` the writer has taken nothing, and knows no more of its connection. */
  ghost predicate Untouched(st: State, now: State) {
    && st.pushed <= now.pushed && now.queue == Pushed(st, now.pushed)
    && now.popped == st.popped && now.offered == st.offered && now.freed == st.freed
    && now.stopped == st.stopped && now.dbErr == st.dbErr && (st.goToStop ==> now.goToStop)
  }

  /** Since `st` the writer has taken this entry from the front. */
  ghost predicate Taken(st: State, now: State, e: Entry) {
    && st.pushed <= now.pushed && Pushed(st, now.pushed) != [] && e == Pushed(st, now.pushed)[0]
    && now.queue == Pushed(st, now.pushed)[1..] && now.popped == st.popped + [e]
  }

  /** The same, the connection having been looked at since. */
  ghost predicate Doubtful(st: State, now: State) {
    Untouched(st, now.(dbErr := st.dbErr))
  }

  lemma DoubtfulBeside(st: State, mid: State, now: State)
    requires Doubtful(st, mid) && Beside(mid, now)
    ensures Doubtful(st, now)
  {
    UntouchedBeside(st, mid.(dbErr := st.dbErr), now.(dbErr := st.dbErr));
  }

  lemma LookIsDoubtful(st: State, before: State, now: State)
    requires Untouched(st, before) && now == before.(dbErr := now.dbErr, writer := now.writer)
    ensures Doubtful(st, now) && before.dbErr == st.dbErr
  {
  }

  lemma StopAchieves(st: State, now: State, qrun: bool, broken: bool, success: bool)
    requires Untouched(st, now) && now.goToStop && !now.locked && (st.qRun ==> qrun)
    ensures Achieved(st, now.(stopped := true, writer := Ended), Stopped, Some(qrun), broken, success)
  {
  }

  lemma DoubtAchieves(st: State, now: State, qrun: bool, broken: bool, success: bool)
    requires Untouched(st, now) && !st.goToStop && !now.locked && (st.qRun ==> qrun)
    requires if now.dbErr || !qrun then broken else now.dbErr
    ensures Achieved(st, now.(dbErr := true, writer := Waiting), NoConnection, Some(qrun), broken, success)
  {
  }

  lemma EmptyAchieves(st: State, now: State, qrun: bool, broken: bool, success: bool)
    requires Doubtful(st, now) && !st.goToStop && !now.locked && (st.qRun ==> qrun) && now.writer == Waiting
    requires !now.dbErr && !(broken && (st.dbErr || !qrun)) && st.queue == []
    ensures Achieved(st, now, FoundEmpty, Some(qrun), broken, success)
  {
  }

  lemma WriteAchieves(st: State, now: State, qrun: bool, broken: bool, success: bool, e: Entry)
    requires Taken(st, now, e) && !st.goToStop && !now.locked && (st.qRun ==> qrun) && now.writer == Waiting
    requires now.dbErr == !success && !(broken && (st.dbErr || !qrun)) && now.stopped == st.stopped
    requires now.offered == st.offered + [Offer(e, success)] && now.freed == st.freed + [e]
    ensures Achieved(st, now, Wrote(e), Some(qrun), broken, success)
  {
  }

  /** What is taken under the lock is the front of all that was pushed, if anything was. */
  lemma FrontIsTaken(st: State, mid: State, now: State)
    requires Doubtful(st, mid) && now.pushed == mid.pushed && (mid.goToStop ==> now.goToStop)
    requires now.offered == mid.offered && now.freed == mid.freed && now.stopped == mid.stopped
    requires if mid.queue == [] then now.queue == [] && now.popped == mid.popped
             else now.queue == mid.queue[1..] && now.popped == mid.popped + [mid.queue[0]]
    ensures mid.queue == [] ==> Doubtful(st, now) && st.queue == []
    ensures mid.queue != [] ==> Taken(st, now, mid.queue[0])
    ensures now.offered == st.offered && now.freed == st.freed && now.stopped == st.stopped
  {
  }

  lemma UntouchedBeside(st: State, mid: State, now: State)
    requires Beside(mid, now) && (mid == st || Untouched(st, mid))
    ensures Untouched(st, now)
  {
    assert mid == st ==> Pushed(st, mid.pushed) == st.queue;
    PushedMore(st, mid, now);
  }

  lemma PushedMore(st: State, mid: State, now: State)
    requires st.pushed <= mid.pushed && mid.queue <= now.queue
    requires now.pushed == mid.pushed + now.queue[|mid.queue|..]
    ensures st.pushed <= now.pushed && Pushed(st, now.pushed) == Pushed(st, mid.pushed) + now.queue[|mid.queue|..]
  {
    var more := now.queue[|mid.queue|..];
    assert now.pushed[|st.pushed|..] == mid.pushed[|st.pushed|..] + more;
  }

  lemma TakenBeside(st: State, e: Entry, mid: State, now: State)
    requires Taken(st, mid, e) && Beside(mid, now)
    ensures Taken(st, now, e)
  {
    PushedMore(st, mid, now);
    var more := now.queue[|mid.queue|..];
    assert (Pushed(st, mid.pushed) + more)[1..] == Pushed(st, mid.pushed)[1..] + more;
  }

  class Cache {
    var q: seq<Entry>
    var qRun: bool
    var locked: bool
    var goToStop: bool
    var stopped: bool
    var dbErr: bool
    // Where the threads stand.
    var writer: Writer
    var stopper: Stopper
    var pushing: set<nat>
    // The history.
    ghost var pushed: seq<Entry>
    ghost var popped: seq<Entry>
    ghost var offered: seq<Offer>
    ghost var freed: seq<Entry>

    ghost function Now(): State
      reads this
    {
      State(q, qRun, locked, goToStop, stopped, dbErr, writer, stopper, pushing, pushed, popped, offered, freed)
    }

    constructor ()
      ensures Now() == Start()
    {
      q, qRun, locked, goToStop, stopped, dbErr := [], false, false, false, false, false;
      writer, stopper, pushing := Waiting, NotStopping, {};
      pushed, popped, offered, freed := [], [], [], [];
    }

    // ---------- the other threads ----------

    /** One action of a producer or of the stopper, when it can be taken. */
    method Other(a: Action) returns (acted: bool)
      modifies this
      ensures acted <==> IsSide(a) && Enabled(old(Now()), a)
      ensures Now() == if acted then Next(old(Now()), a) else old(Now())
    {
      acted := false;
      match a
      case Push(p, e) =>
        if !locked && p !in pushing {
          q := q + [e];
          pushed, pushing := pushed + [e], pushing + {p};
          acted := true;
        }
      case Signal(p) =>
        if p in pushing {
          qRun := true;
          pushing := pushing - {p};
          acted := true;
        }
      case RequestStop =>
        if stopper == NotStopping {
          goToStop := true;
          stopper := StopRequested;
          acted := true;
        }
      case SignalStop =>
        if stopper == StopRequested {
          qRun := true;
          stopper := StopSignalled;
          acted := true;
        }
      case FinishStop =>
        if stopper == StopSignalled && stopped {
          stopper := StopDone;
          acted := true;
        }
      case _ =>
    }

    /** Whatever of these actions the other threads can take, in turn. */
    method Others(actions: seq<Action>) returns (ghost run: seq<Action>)
      modifies this
      ensures IsRun(old(Now()), run) && Now() == Run(old(Now()), run) && Mine(run) == []
      ensures Now() == Acted(old(Now()), actions) && Beside(old(Now()), Now())
    {
      hide Next, Enabled, Beside;
      ghost var start := Now();
      run := NoRun(start);
      BesideItself(start);
      for i := 0 to |actions|
        invariant IsRun(start, run) && Now() == Run(start, run) && Mine(run) == []
        invariant Now() == Acted(start, actions[..i]) && Beside(start, Now())
      {
        ghost var before := Now();
        ActedSnoc(start, actions[..i], actions[i]);
        assert actions[..i + 1] == actions[..i] + [actions[i]];
        var acted := Other(actions[i]);
        if acted {
          MineSnoc(run, actions[i]);
          run := RunSnoc(start, run, actions[i], before);
          BesideOnce(before, actions[i]);
          BesideTwice(start, before, Now());
        }
      }
      assert actions[..|actions|] == actions;
    }

    // ---------- the writer ----------

    method EndWait(timeout: bool) returns (qrun: bool)
      requires writer == Waiting && (qRun || timeout)
      modifies this`writer
      ensures Enabled(old(Now()), Wake(timeout)) && Now() == Next(old(Now()), Wake(timeout))
      ensures qrun == qRun && writer == Woken(qrun)
    {
      qrun := qRun;
      writer := Woken(qrun);
    }

    method CheckGoToStop(qrun: bool) returns (stop: bool)
      requires writer == Woken(qrun)
      modifies this`writer
      ensures Enabled(old(Now()), CheckStop) && Now() == Next(old(Now()), CheckStop)
      ensures stop == goToStop && writer == (if stop then Stopping else Checking(qrun))
    {
      stop := goToStop;
      writer := if stop then Stopping else Checking(qrun);
    }

    method SetStopped()
      requires writer == Stopping
      modifies this`stopped, this`writer
      ensures Enabled(old(Now()), AnnounceStop) && Now() == Next(old(Now()), AnnounceStop)
      ensures stopped && writer == Ended
    {
      stopped := true;
      writer := Ended;
    }

    method Check(qrun: bool, broken: bool)
      requires writer == Checking(qrun)
      modifies this`dbErr, this`writer
      ensures Enabled(old(Now()), CheckConnection(broken)) && Now() == Next(old(Now()), CheckConnection(broken))
      ensures dbErr == (if old(dbErr) || !qrun then broken else old(dbErr)) && writer == Deciding
    {
      if dbErr || !qrun {
        dbErr := broken;
      }
      writer := Deciding;
    }

    method GoOn() returns (go: bool)
      requires writer == Deciding
      modifies this`writer
      ensures Enabled(old(Now()), Decide) && Now() == Next(old(Now()), Decide)
      ensures go == !dbErr && writer == (if go then Locking else Waiting)
    {
      go := !dbErr;
      writer := if go then Locking else Waiting;
    }

    method LockQueue()
      requires writer == Locking && !locked
      modifies this`locked, this`writer
      ensures Enabled(old(Now()), Lock) && Now() == Next(old(Now()), Lock)
      ensures writer == Inspecting && locked
    {
      locked := true;
      writer := Inspecting;
    }

    method PopFront()
      requires writer == Inspecting && locked
      modifies this`q, this`popped, this`writer
      ensures Enabled(old(Now()), Inspect) && Now() == Next(old(Now()), Inspect)
      ensures if old(q) == [] then q == [] && popped == old(popped) && writer == Emptied
              else
                q == old(q)[1..] && popped == old(popped) + [old(q)[0]]
                && writer == if q == [] then PoppedLast(old(q)[0]) else Popped(old(q)[0])
    {
      if q == [] {
        writer := Emptied;
      } else {
        var e := q[0];
        q := q[1..];
        popped := popped + [e];
        writer := if q == [] then PoppedLast(e) else Popped(e);
      }
    }

    method ClearQRun()
      requires (writer == Emptied || writer.PoppedLast?) && locked
      modifies this`qRun, this`writer
      ensures Enabled(old(Now()), ClearFlag) && Now() == Next(old(Now()), ClearFlag)
      ensures writer == if old(writer) == Emptied then ClearedEmpty else ClearedLast(old(writer).entry)
    {
      qRun := false;
      writer := if writer == Emptied then ClearedEmpty else ClearedLast(writer.entry);
    }

    method UnlockQueue()
      requires (writer == ClearedEmpty || writer.ClearedLast? || writer.Popped?) && locked
      modifies this`locked, this`writer
      ensures Enabled(old(Now()), Unlock) && Now() == Next(old(Now()), Unlock)
      ensures writer == (if old(writer) == ClearedEmpty then Waiting else Writing(old(writer).entry)) && !locked
    {
      locked := false;
      writer := if writer == ClearedEmpty then Waiting else Writing(writer.entry);
    }

    method UpdateCache(success: bool)
      requires writer.Writing?
      modifies this`offered, this`dbErr, this`writer
      ensures Enabled(old(Now()), Write(success)) && Now() == Next(old(Now()), Write(success))
      ensures offered == old(offered) + [Offer(old(writer).entry, success)] && dbErr == (old(dbErr) || !success)
      ensures writer == Deleting(old(writer).entry)
    {
      offered := offered + [Offer(writer.entry, success)];
      if !success {
        dbErr := true;
      }
      writer := Deleting(writer.entry);
    }

    method DeleteEntry()
      requires writer.Deleting?
      modifies this`freed, this`writer
      ensures Enabled(old(Now()), Delete) && Now() == Next(old(Now()), Delete)
      ensures freed == old(freed) + [old(writer).entry] && writer == Waiting
    {
      freed := freed + [writer.entry];
      writer := Waiting;
    }

    /** Lets the other threads act, and appends what they did to the run so far. */
    method Yield(actions: seq<Action>, ghost start: State, ghost run: seq<Action>) returns (ghost longer: seq<Action>)
      requires IsRun(start, run) && Now() == Run(start, run)
      modifies this
      ensures IsRun(start, longer) && Now() == Run(start, longer) && Mine(longer) == Mine(run)
      ensures Now() == Acted(old(Now()), actions) && Beside(old(Now()), Now())
    {
      hide Next, Enabled, Run, IsRun, Beside, Acted, Mine;
      ghost var more := Others(actions);
      RunJoins(start, run, more);
      MineJoins(run, more);
      longer := run + more;
    }

    /**
     The timed wait. Each turn of its loop lets the other threads act and ends at some time, signalled,
     spuriously or because the deadline has passed; `wakeups` are these turns. The wait is over when the
     flag is up or the deadline has passed, and says which; when the turns run out before that it lasts.
     */
    method WaitForTo(seconds: nat, microseconds: nat, msec: nat, wakeups: seq<Wakeup>,
                     ghost start: State, ghost run0: seq<Action>)
      returns (qrun: Option<bool>, ghost run: seq<Action>, ghost turns: nat, ghost timedOut: bool)
      requires writer == Waiting && microseconds < 1_000_000
      requires IsRun(start, run0) && Now() == Run(start, run0)
      modifies this
      ensures IsRun(start, run) && Now() == Run(start, run)
      ensures turns <= |wakeups| && Beside(old(Now()), Waited(old(Now()), wakeups[..turns]))
      ensures forall k :: 0 <= k < turns ==> !Waited(old(Now()), wakeups[..k]).qRun
      ensures var timeout := WaitUntil(seconds, microseconds, msec);
              (forall k :: 0 <= k < turns - 1 ==> !Passed(wakeups[k].clock, timeout))
              && (timedOut <==> turns > 0 && Passed(wakeups[turns - 1].clock, timeout))
      ensures var waited := Waited(old(Now()), wakeups[..turns]);
              match qrun
              case None =>
                turns == |wakeups| && !waited.qRun && !timedOut && Now() == waited && Mine(run) == Mine(run0)
              case Some(up) =>
                up == waited.qRun && (up || timedOut)
                && Now() == waited.(writer := Woken(up)) && Mine(run) == Mine(run0) + [Wake(timedOut)]
    {
      hide Next, Enabled, Run, IsRun, Beside, Acted, Mine;
      var timeout := WaitUntil(seconds, microseconds, msec);
      var passed := false;
      var i := 0;
      run := run0;
      ghost var first := Now();
      BesideItself(first);
      while !qRun && !passed
        invariant 0 <= i <= |wakeups|
        invariant IsRun(start, run) && Now() == Run(start, run) && Mine(run) == Mine(run0)
        invariant Now() == Waited(first, wakeups[..i]) && Beside(first, Now()) && writer == Waiting
        invariant forall k :: 0 <= k < i ==> !Waited(first, wakeups[..k]).qRun
        invariant forall k :: 0 <= k < i - 1 ==> !Passed(wakeups[k].clock, timeout)
        invariant passed <==> i > 0 && Passed(wakeups[i - 1].clock, timeout)
        decreases |wakeups| - i
      {
        if i == |wakeups| {
          return None, run, i, false;
        }
        ghost var before := Now();
        run := Yield(wakeups[i].others, start, run);
        BesideTwice(first, before, Now());
        BesideKeeps(before, Now());
        WaitedSnoc(first, wakeups, i);
        passed := Passed(wakeups[i].clock, timeout);
        i := i + 1;
      }
      ghost var before := Now();
      var woken := EndWait(passed);
      MineSnoc(run, Wake(passed));
      run := RunSnoc(start, run, Wake(passed), before);
      return Some(woken), run, i, passed;
    }

    /**
     One turn of the loop from the wait on, or no turn while the wait lasts. The wait begins at the given
     time; `others` is what the other threads try to do before each of the later steps; the rest is how
     the connection check and the write come out. The run is the writer's steps in the order of the code,
     with the others' actions between them, and it achieves what its report says.
     */
    method Turn(seconds: nat, microseconds: nat, checkTimeout: nat, wakeups: seq<Wakeup>,
                others: seq<seq<Action>>, broken: bool, success: bool)
      returns (report: Report, woken: Option<bool>, ghost run: seq<Action>)
      requires writer == Waiting && !locked && |others| == 8 && microseconds < 1_000_000
      modifies this
      ensures IsRun(old(Now()), run) && Now() == Run(old(Now()), run)
      ensures Achieved(old(Now()), Now(), report, woken, broken, success)
      ensures exists timedOut, last :: Mine(run) == StepsOf(report, timedOut, broken, last, success)
      ensures report.StillWaiting? ==>
                Now() == Waited(old(Now()), wakeups) && !qRun
                && forall w <- wakeups :: !Passed(w.clock, WaitUntil(seconds, microseconds, checkTimeout))
      ensures woken == Some(false) ==>
                exists w <- wakeups :: Passed(w.clock, WaitUntil(seconds, microseconds, checkTimeout))
    {
      hide Next, Enabled, Run, IsRun, Beside, Acted, Mine, Waited;
      ghost var start := Now();
      run := NoRun(start);
      ghost var turns, timedOut;
      woken, run, turns, timedOut := WaitForTo(seconds, microseconds, checkTimeout, wakeups, start, run);
      NothingYet(start, wakeups);
      if woken.None? {
        assert wakeups[..turns] == wakeups;
        BesideKeeps(start, Now());
        UntouchedBeside(start, start, Now());
        report := StillWaiting;
        assert Mine(run) == StepsOf(report, timedOut, broken, false, success);
        return;
      }
      assert timedOut ==> wakeups[turns - 1] in wakeups;
      BesideKeeps(start, Waited(start, wakeups[..turns]));
      UntouchedBeside(start, start, Waited(start, wakeups[..turns]));
      report, run := AfterWait(woken.value, timedOut, others, broken, success, start, run);
    }

    /** The rest of a turn, once the wait is over. */
    method AfterWait(qrun: bool, ghost timedOut: bool, others: seq<seq<Action>>, broken: bool, success: bool,
                     ghost start: State, ghost run0: seq<Action>)
      returns (report: Report, ghost run: seq<Action>)
      requires writer == Woken(qrun) && !locked && |others| == 8 && Untouched(start, Now())
      requires IsRun(start, run0) && Now() == Run(start, run0) && Mine(run0) == [Wake(timedOut)]
      requires start.qRun ==> qrun
      modifies this
      ensures IsRun(start, run) && Now() == Run(start, run)
      ensures !report.StillWaiting? && Achieved(start, Now(), report, Some(qrun), broken, success)
      ensures exists last :: Mine(run) == StepsOf(report, timedOut, broken, last, success)
    {
      hide Next, Enabled, Run, IsRun, Beside, Acted, Mine, Achieved, Untouched, Waited, Doubtful, Pushed, Passed;
      var stop;
      stop, run := StopCheck(qrun, others[..2], start, run0);
      ghost var before := Now();
      if stop {
        run := Halt(start, run);
        report := Stopped;
        StopAchieves(start, before, qrun, broken, success);
        assert Mine(run) == StepsOf(report, timedOut, broken, false, success);
        return;
      }
      var go;
      go, run := CheckAndDecide(qrun, broken, start, run);
      LookIsDoubtful(start, before, Now());
      if go {
        report, run := WithConnection(qrun, timedOut, others, broken, success, start, run);
      } else {
        report := NoConnection;
        DoubtAchieves(start, before, qrun, broken, success);
        assert Mine(run) == StepsOf(report, timedOut, broken, false, success);
      }
    }

    method Halt(ghost start: State, ghost run0: seq<Action>) returns (ghost run: seq<Action>)
      requires writer == Stopping
      requires IsRun(start, run0) && Now() == Run(start, run0)
      modifies this`stopped, this`writer
      ensures IsRun(start, run) && Now() == Run(start, run) && Mine(run) == Mine(run0) + [AnnounceStop]
      ensures stopped && writer == Ended
    {
      hide Next, Enabled, Run, IsRun, Mine;
      ghost var before := Now();
      SetStopped();
      MineSnoc(run0, AnnounceStop);
      run := RunSnoc(start, run0, AnnounceStop, before);
    }

    /** The look at the stop flag, with the others before and after it. */
    method StopCheck(qrun: bool, others: seq<seq<Action>>, ghost start: State, ghost run0: seq<Action>)
      returns (stop: bool, ghost run: seq<Action>)
      requires writer == Woken(qrun) && |others| == 2 && Untouched(start, Now())
      requires IsRun(start, run0) && Now() == Run(start, run0)
      modifies this
      ensures IsRun(start, run) && Now() == Run(start, run) && Mine(run) == Mine(run0) + [CheckStop]
      ensures writer == (if stop then Stopping else Checking(qrun)) && locked == old(locked)
      ensures Untouched(start, Now()) && (if stop then goToStop else !start.goToStop)
    {
      hide Next, Enabled, Run, IsRun, Beside, Acted, Mine, Pushed;
      ghost var before := Now();
      run := Yield(others[0], start, run0);
      BesideKeeps(before, Now());
      UntouchedBeside(start, before, Now());
      before := Now();
      stop := CheckGoToStop(qrun);
      MineSnoc(run, CheckStop);
      run := RunSnoc(start, run, CheckStop, before);
      before := Now();
      run := Yield(others[1], start, run);
      BesideKeeps(before, Now());
      UntouchedBeside(start, before, Now());
    }

    /** The two steps that settle whether there is a connection to write with. */
    method CheckAndDecide(qrun: bool, broken: bool, ghost start: State, ghost run0: seq<Action>)
      returns (go: bool, ghost run: seq<Action>)
      requires writer == Checking(qrun)
      requires IsRun(start, run0) && Now() == Run(start, run0)
      modifies this`dbErr, this`writer
      ensures IsRun(start, run) && Now() == Run(start, run)
      ensures Mine(run) == Mine(run0) + [CheckConnection(broken), Decide]
      ensures dbErr == (if old(dbErr) || !qrun then broken else old(dbErr)) && go == !dbErr
      ensures writer == if go then Locking else Waiting
    {
      hide Next, Enabled, Run, IsRun, Mine;
      ghost var before := Now();
      Check(qrun, broken);
      MineSnoc(run0, CheckConnection(broken));
      run := RunSnoc(start, run0, CheckConnection(broken), before);
      before := Now();
      go := GoOn();
      MineSnoc(run, Decide);
      run := RunSnoc(start, run, Decide, before);
    }

    /** The queue is looked at, and its front entry, if there is one, goes to the database. */
    method WithConnection(qrun: bool, ghost timedOut: bool, others: seq<seq<Action>>, ghost broken: bool,
                          success: bool, ghost start: State, ghost run0: seq<Action>)
      returns (report: Report, ghost run: seq<Action>)
      requires writer == Locking && !locked && !dbErr && |others| == 8
      requires Doubtful(start, Now()) && !start.goToStop && (start.qRun ==> qrun)
      requires !(broken && (start.dbErr || !qrun))
      requires IsRun(start, run0) && Now() == Run(start, run0)
      requires Mine(run0) == [Wake(timedOut), CheckStop, CheckConnection(broken), Decide]
      modifies this
      ensures IsRun(start, run) && Now() == Run(start, run)
      ensures !report.StillWaiting? && Achieved(start, Now(), report, Some(qrun), broken, success)
      ensures exists last :: Mine(run) == StepsOf(report, timedOut, broken, last, success)
    {
      hide Next, Enabled, Run, IsRun, Mine, Achieved, Doubtful, Taken;
      ghost var last;
      run, last := Fetch(others[2..7], start, run0);
      if writer.Writing? {
        var e := writer.entry;
        run := WriteOut(success, others[7], e, start, run);
        report := Wrote(e);
        WriteAchieves(start, Now(), qrun, broken, success, e);
        assert Mine(run) == StepsOf(report, timedOut, broken, last, success);
      } else {
        report := FoundEmpty;
        EmptyAchieves(start, Now(), qrun, broken, success);
        assert Mine(run) == StepsOf(report, timedOut, broken, false, success);
      }
    }

    /** The queue's front, with the others before and after the lock. */
    method Fetch(others: seq<seq<Action>>, ghost start: State, ghost run0: seq<Action>)
      returns (ghost run: seq<Action>, ghost last: bool)
      requires writer == Locking && !locked && |others| == 5 && Doubtful(start, Now())
      requires IsRun(start, run0) && Now() == Run(start, run0)
      modifies this
      ensures IsRun(start, run) && Now() == Run(start, run) && !locked && dbErr == old(dbErr)
      ensures Mine(run)
              == Mine(run0) + [Lock, Inspect] + (if writer == Waiting || last then [ClearFlag] else []) + [Unlock]
      ensures offered == start.offered && freed == start.freed && stopped == start.stopped
      ensures if writer.Writing? then Taken(start, Now(), writer.entry)
              else writer == Waiting && Doubtful(start, Now()) && start.queue == []
    {
      hide Next, Enabled, Run, IsRun, Beside, Acted, Mine, Doubtful, Taken;
      ghost var before := Now();
      run := Yield(others[0], start, run0);
      BesideKeeps(before, Now());
      DoubtfulBeside(start, before, Now());
      before := Now();
      last := |q| == 1;
      run := TakeFront(others[1..4], start, run);
      FrontIsTaken(start, before, Now());
      ghost var taken := Now();
      run := Yield(others[4], start, run);
      BesideKeeps(taken, Now());
      if writer.Writing? {
        TakenBeside(start, writer.entry, taken, Now());
      } else {
        DoubtfulBeside(start, taken, Now());
      }
    }

    /** The write, and the end of the entry whatever came of it. */
    method WriteOut(success: bool, others: seq<Action>, e: Entry, ghost start: State, ghost run0: seq<Action>)
      returns (ghost run: seq<Action>)
      requires writer == Writing(e) && !locked && !dbErr && Taken(start, Now(), e)
      requires IsRun(start, run0) && Now() == Run(start, run0)
      modifies this
      ensures IsRun(start, run) && Now() == Run(start, run)
      ensures Mine(run) == Mine(run0) + [Write(success), Delete]
      ensures Taken(start, Now(), e) && writer == Waiting && !locked && stopped == old(stopped)
      ensures offered == old(offered) + [Offer(e, success)] && freed == old(freed) + [e] && dbErr == !success
    {
      hide Next, Enabled, Run, IsRun, Beside, Acted, Mine, Pushed;
      ghost var before := Now();
      UpdateCache(success);
      MineSnoc(run0, Write(success));
      run := RunSnoc(start, run0, Write(success), before);
      before := Now();
      run := Yield(others, start, run);
      BesideKeeps(before, Now());
      TakenBeside(start, e, before, Now());
      before := Now();
      DeleteEntry();
      MineSnoc(run, Delete);
      run := RunSnoc(start, run, Delete, before);
    }

    /** From the lock of the list to its release. Nobody pushes meanwhile. */
    method TakeFront(others: seq<seq<Action>>, ghost start: State, ghost run0: seq<Action>)
      returns (ghost run: seq<Action>)
      requires writer == Locking && !locked && |others| == 3
      requires IsRun(start, run0) && Now() == Run(start, run0)
      modifies this
      ensures IsRun(start, run) && Now() == Run(start, run) && !locked
      ensures Mine(run)
              == Mine(run0) + [Lock, Inspect] + (if |old(q)| <= 1 then [ClearFlag] else []) + [Unlock]
      ensures pushed == old(pushed) && offered == old(offered) && freed == old(freed)
      ensures dbErr == old(dbErr) && stopped == old(stopped)
      ensures if old(q) == [] then writer == Waiting && q == [] && popped == old(popped)
              else writer == Writing(old(q)[0]) && q == old(q)[1..] && popped == old(popped) + [old(q)[0]]
      ensures old(goToStop) ==> goToStop
    {
      hide Next, Enabled, Run, IsRun, Mine;
      run := LockAndPop(others[0], start, run0);
      run := ClearAndUnlock(others[1..], start, run);
    }

    method LockAndPop(others: seq<Action>, ghost start: State, ghost run0: seq<Action>)
      returns (ghost run: seq<Action>)
      requires writer == Locking && !locked
      requires IsRun(start, run0) && Now() == Run(start, run0)
      modifies this
      ensures IsRun(start, run) && Now() == Run(start, run) && locked
      ensures Mine(run) == Mine(run0) + [Lock, Inspect]
      ensures pushed == old(pushed) && offered == old(offered) && freed == old(freed)
      ensures dbErr == old(dbErr) && stopped == old(stopped)
      ensures if old(q) == [] then writer == Emptied && q == [] && popped == old(popped)
              else
                q == old(q)[1..] && popped == old(popped) + [old(q)[0]]
                && writer == if q == [] then PoppedLast(old(q)[0]) else Popped(old(q)[0])
      ensures old(goToStop) ==> goToStop
    {
      hide Next, Enabled, Run, IsRun, Beside, Acted, Mine;
      ghost var before := Now();
      LockQueue();
      MineSnoc(run0, Lock);
      run := RunSnoc(start, run0, Lock, before);
      before := Now();
      run := Yield(others, start, run);
      BesideKeeps(before, Now());
      before := Now();
      PopFront();
      MineSnoc(run, Inspect);
      run := RunSnoc(start, run, Inspect, before);
    }

    method ClearAndUnlock(others: seq<seq<Action>>, ghost start: State, ghost run0: seq<Action>)
      returns (ghost run: seq<Action>)
      requires (writer == Emptied || writer.PoppedLast? || writer.Popped?) && locked && |others| == 2
      requires IsRun(start, run0) && Now() == Run(start, run0)
      modifies this
      ensures IsRun(start, run) && Now() == Run(start, run) && !locked
      ensures Mine(run) == Mine(run0) + (if old(writer).Popped? then [] else [ClearFlag]) + [Unlock]
      ensures q == old(q) && pushed == old(pushed) && popped == old(popped)
      ensures offered == old(offered) && freed == old(freed) && dbErr == old(dbErr) && stopped == old(stopped)
      ensures writer == if old(writer) == Emptied then Waiting else Writing(old(writer).entry)
      ensures old(goToStop) ==> goToStop
    {
      hide Next, Enabled, Run, IsRun, Beside, Acted, Mine;
      ghost var before := Now();
      run := Yield(others[0], start, run0);
      BesideKeeps(before, Now());
      if !writer.Popped? {
        before := Now();
        ClearQRun();
        MineSnoc(run, ClearFlag);
        run := RunSnoc(start, run, ClearFlag, before);
        before := Now();
        run := Yield(others[1], start, run);
        BesideKeeps(before, Now());
      }
      before := Now();
      UnlockQueue();
      MineSnoc(run, Unlock);
      run := RunSnoc(start, run, Unlock, before);
    }
  }
}
