/** The main results about runs of the request protocol. */
module ProtocolRuns {
  import opened Wrappers
  import opened Bytes
  import opened Wire
  import opened Protocol
  import opened ProtocolProofs

  // ---------- every run ----------

  /**
   In every run, whatever the identifiers, reloads and client failures: each accepted datagram gets
   exactly one pong, first of all; its final replies and its place in the map together make up the
   fate settled at its arrival; every packet goes to its sender and starts with its identifier.
   */
  lemma EveryDatagram(drivers: map<int, int>, steps: seq<Step>, s: nat)
    requires IsRun(Start(drivers), steps)
    ensures var st := Run(Start(drivers), steps);
            |st.fates| == |st.accepted| && PongFirst(st.sent)
            && (forall k :: 0 <= k < |st.sent| ==> Addressed(st, st.sent[k]))
            && (s < |st.accepted| ==>
                  PacketsOf(st.sent, Pong, s) == 1
                  && PacketsOf(st.sent, Final, s) + (if Waits(st, s) then 1 else 0) == st.fates[s])
            && Finals(st.sent) + |st.waiting| == Sum(st.fates)
  {
    hide PongFirst, PacketsOf, Finals, Sum, Run;
    StartKeeps(drivers);
    RunKeeps(Start(drivers), steps);
    var st := Run(Start(drivers), steps);
    if s < |st.accepted| {
      assert Fated(st, s);
    }
  }

  /**
   In every run the requests answered, failed and still under way never exceed the requests counted,
   and fall short of them by exactly the transfers refused, the responses nobody waited for and the
   responses whose driver was gone.
   */
  lemma CountersNeverExceed(drivers: map<int, int>, steps: seq<Step>)
    requires IsRun(Start(drivers), steps)
    ensures var st := Run(Start(drivers), steps);
            var seen := st.finished + st.failed + |st.curl| + |st.queue|;
            seen <= st.counted
            && (seen == st.counted <==> st.refused == 0 && st.orphaned == 0 && st.undriven == 0)
  {
    hide Run, Apply, IsRun;
    StartKeeps(drivers);
    RunKeeps(Start(drivers), steps);
    InvariantCounts(Run(Start(drivers), steps));
  }

  // ---------- clean runs ----------

  /** Whether a request that arrives now is handed to the HTTP client. */
  predicate Submits(st: State, db: int, kind: int, driver: DriverCall) {
    db in st.drivers && st.drivers[db] == kind && driver.Sends?
  }

  /** A submitted request has an identifier that is not waiting, and the client takes its transfer. */
  predicate CleanStep(st: State, s: Step) {
    match s
    case Datagram(bytes, _, driver) =>
      (match ReadRequest(bytes)
       case Accepted(id, db, kind, _) =>
         Submits(st, db, kind, driver) ==> id !in st.waiting && driver.client == Taken
       case Rejected(_, _, _) => true)
    case _ => true
  }

  predicate IsCleanRun(st: State, steps: seq<Step>)
    decreases |steps|
  {
    steps == []
    || (Enabled(st, steps[0]) && CleanStep(st, steps[0]) && IsCleanRun(Apply(st, steps[0]), steps[1..]))
  }

  function QueueIds(queue: seq<Response>): (ids: seq<nat>)
    ensures |ids| == |queue|
  {
    if queue == [] then [] else [queue[0].id] + QueueIds(queue[1..])
  }

  lemma {:induction false} QueueIdsAdded(queue: seq<Response>, r: Response)
    ensures QueueIds(queue + [r]) == QueueIds(queue) + [r.id]
  {
    if queue == [] {
      assert queue + [r] == [r];
    } else {
      assert (queue + [r])[1..] == queue[1..] + [r];
      QueueIdsAdded(queue[1..], r);
    }
  }

  /** The identifiers of all transfers under way. */
  function UnderWay(st: State): multiset<nat> {
    multiset(st.curl) + multiset(QueueIds(st.queue))
  }

  /** Transfers under way and waiting requests match one to one, and every fate is one reply. */
  ghost predicate Paired(st: State) {
    && UnderWay(st) == multiset(st.waiting.Keys)
    && (forall s :: 0 <= s < |st.fates| ==> st.fates[s] == 1)
    && st.refused == 0 && st.orphaned == 0
  }

  /** A step that touches neither the map nor the transfers. */
  lemma PairedStays(st: State, st': State)
    requires Paired(st) && st'.waiting == st.waiting && st'.curl == st.curl && st'.queue == st.queue
    requires forall s :: 0 <= s < |st'.fates| ==> st'.fates[s] == 1
    requires st'.refused == st.refused && st'.orphaned == st.orphaned
    ensures Paired(st')
  {
  }

  lemma ResolveKeepsTransfers(st: State, r: Request, call: DriverCall)
    requires !Submits(st, r.db, r.kind, call)
    ensures var st' := Resolve(st, r, call);
            st'.waiting == st.waiting && st'.curl == st.curl && st'.queue == st.queue
            && st'.fates == st.fates && st'.refused == st.refused && st'.orphaned == st.orphaned
            && st'.drivers == st.drivers && st'.undriven == st.undriven
  {
    hide ErrorBytes, AnswerBytes;
  }

  lemma ArriveStaysPaired(st: State, bytes: Text, client: nat, call: DriverCall)
    requires Paired(st) && CleanStep(st, Datagram(bytes, client, call))
    ensures Paired(Arrive(st, bytes, client, call))
  {
    hide ErrorBytes, Resolve, Le32;
    match ReadRequest(bytes)
    case Rejected(_, _, _) => PairedStays(st, Arrive(st, bytes, client, call));
    case Accepted(id, db, kind, data) =>
      var r := Request(id, kind, db, client, data, |st.accepted|);
      var known := st.(accepted := st.accepted + [r], fates := st.fates + [Fate(st, r, call)]);
      var ponged := Send(known, Pong, r, Some(Le32(id)));
      PairedStays(st, ponged);
      if Submits(st, db, kind, call) {
        SubmittedStaysPaired(ponged, r, call);
      } else {
        ResolveKeepsTransfers(ponged, r, call);
        PairedStays(ponged, Resolve(ponged, r, call));
      }
  }

  lemma SubmittedStaysPaired(st: State, r: Request, call: DriverCall)
    requires Paired(st) && Submits(st, r.db, r.kind, call) && r.id !in st.waiting && call.client == Taken
    ensures Paired(Resolve(st, r, call))
  {
    var st' := Resolve(st, r, call);
    assert st'.curl == st.curl + [r.id];
    assert st'.waiting.Keys == st.waiting.Keys + {r.id};
    assert multiset(st'.waiting.Keys) == multiset(st.waiting.Keys) + multiset{r.id};
  }

  lemma FinishStaysPaired(st: State, i: nat, success: bool, data: Text)
    requires Paired(st) && i < |st.curl|
    ensures Paired(Finish(st, i, success, data))
  {
    var st' := Finish(st, i, success, data);
    QueueIdsAdded(st.queue, Response(st.curl[i], success, data));
    assert st.curl == st.curl[..i] + [st.curl[i]] + st.curl[i + 1..];
    assert multiset(st.curl) == multiset(st'.curl) + multiset{st.curl[i]};
  }

  lemma HandleKeepsTransfers(st: State, r: Request, response: Response, call: ParseCall)
    ensures var st' := Handle(st, r, response, call);
            st'.waiting == st.waiting && st'.curl == st.curl && st'.queue == st.queue
            && st'.fates == st.fates && st'.refused == st.refused && st'.orphaned == st.orphaned
            && st'.drivers == st.drivers
            && (r.db in st.drivers && st.drivers[r.db] == r.kind ==> st'.undriven == st.undriven)
  {
    hide ErrorBytes, AnswerBytes;
  }

  lemma DeliverStaysPaired(st: State, call: ParseCall)
    requires Paired(st) && st.queue != []
    ensures st.queue[0].id in st.waiting
    ensures Paired(Deliver(st, call))
  {
    hide Handle;
    var id := st.queue[0].id;
    assert QueueIds(st.queue) == [id] + QueueIds(st.queue[1..]);
    assert multiset(QueueIds(st.queue)) == multiset{id} + multiset(QueueIds(st.queue[1..]));
    assert id in UnderWay(st);
    assert id in st.waiting.Keys;
    var base := st.(queue := st.queue[1..], waiting := st.waiting - {id});
    assert base.waiting.Keys == st.waiting.Keys - {id};
    assert multiset(base.waiting.Keys) == multiset(st.waiting.Keys) - multiset{id};
    assert UnderWay(base) == UnderWay(st) - multiset{id};
    assert Paired(base);
    HandleKeepsTransfers(base, st.waiting[id], st.queue[0], call);
    PairedStays(base, Deliver(st, call));
  }

  lemma {:induction false} CleanRunStaysPaired(st: State, steps: seq<Step>)
    requires Paired(st) && IsCleanRun(st, steps)
    ensures IsRun(st, steps) && Paired(Run(st, steps))
    decreases |steps|
  {
    hide Paired, Arrive, Finish, Deliver, CleanStep;
    if steps != [] {
      match steps[0] {
        case Datagram(bytes, client, driver) => ArriveStaysPaired(st, bytes, client, driver);
        case Finished(i, success, data) => FinishStaysPaired(st, i, success, data);
        case Delivered(parse) => DeliverStaysPaired(st, parse);
        case Reloaded(drivers) => ReloadStaysPaired(st, drivers);
      }
      CleanRunStaysPaired(Apply(st, steps[0]), steps[1..]);
    }
  }

  lemma ReloadStaysPaired(st: State, drivers: map<int, int>)
    requires Paired(st)
    ensures Paired(st.(drivers := drivers))
  {
    PairedStays(st, st.(drivers := drivers));
  }

  lemma {:induction false} SumOfOnes(fates: seq<nat>)
    requires forall s :: 0 <= s < |fates| ==> fates[s] == 1
    ensures Sum(fates) == |fates|
  {
    if fates != [] {
      SumOfOnes(fates[..|fates| - 1]);
    }
  }

  /**
   In every clean run, reloads included: accepted datagrams are the final replies and the waiting
   requests; each has one final reply unless it waits, and then none; and whatever waits has exactly
   one transfer under way, so that nothing waits for a response that cannot come.
   */
  lemma ExactlyOnce(drivers: map<int, int>, steps: seq<Step>)
    requires IsCleanRun(Start(drivers), steps)
    ensures IsRun(Start(drivers), steps)
    ensures var st := Run(Start(drivers), steps);
            |st.accepted| == Finals(st.sent) + |st.waiting|
            && (forall s :: 0 <= s < |st.accepted| ==>
                  PacketsOf(st.sent, Pong, s) == 1
                  && PacketsOf(st.sent, Final, s) == if Waits(st, s) then 0 else 1)
            && (forall id :: UnderWay(st)[id] == if id in st.waiting then 1 else 0)
            && st.refused == 0 && st.orphaned == 0
  {
    hide Run, IsRun, IsCleanRun, PacketsOf, Finals, Sum, Waits, UnderWay;
    StartIsPaired(drivers);
    CleanRunStaysPaired(Start(drivers), steps);
    var st := Run(Start(drivers), steps);
    EveryDatagram(drivers, steps, 0);
    forall s | 0 <= s < |st.accepted|
      ensures PacketsOf(st.sent, Pong, s) == 1
      ensures PacketsOf(st.sent, Final, s) == if Waits(st, s) then 0 else 1
    {
      EveryDatagram(drivers, steps, s);
    }
    SumOfOnes(st.fates);
  }

  lemma StartIsPaired(drivers: map<int, int>)
    ensures Paired(Start(drivers))
  {
  }

  // ---------- drivers that stay ----------

  /** Every waiting request still has a driver of its type. */
  ghost predicate Driven(st: State) {
    && st.undriven == 0
    && forall id :: id in st.waiting ==>
         st.waiting[id].db in st.drivers && st.drivers[st.waiting[id].db] == st.waiting[id].kind
  }

  /** A reload removes or retypes no driver a waiting request needs. */
  predicate ReloadKeepsDrivers(st: State, s: Step) {
    match s
    case Reloaded(drivers) =>
      forall id :: id in st.waiting ==>
        st.waiting[id].db in drivers && drivers[st.waiting[id].db] == st.waiting[id].kind
    case _ => true
  }

  predicate KeepsDrivers(st: State, steps: seq<Step>)
    requires IsRun(st, steps)
    decreases |steps|
  {
    steps == [] || (ReloadKeepsDrivers(st, steps[0]) && KeepsDrivers(Apply(st, steps[0]), steps[1..]))
  }

  lemma ArriveStaysDriven(st: State, bytes: Text, client: nat, call: DriverCall)
    requires Driven(st)
    ensures Driven(Arrive(st, bytes, client, call))
  {
    hide ErrorBytes, AnswerBytes, Le32, ReadRequest;
  }

  lemma DeliverStaysDriven(st: State, call: ParseCall)
    requires Driven(st) && st.queue != []
    ensures Driven(Deliver(st, call))
  {
    hide Handle;
    var id := st.queue[0].id;
    if id in st.waiting {
      var base := st.(queue := st.queue[1..], waiting := st.waiting - {id});
      HandleKeepsTransfers(base, st.waiting[id], st.queue[0], call);
    }
  }

  lemma {:induction false} RunStaysDriven(st: State, steps: seq<Step>)
    requires Driven(st) && IsRun(st, steps) && KeepsDrivers(st, steps)
    ensures Driven(Run(st, steps))
    decreases |steps|
  {
    hide Arrive, Deliver;
    if steps != [] {
      match steps[0] {
        case Datagram(bytes, client, driver) => ArriveStaysDriven(st, bytes, client, driver);
        case Delivered(parse) => DeliverStaysDriven(st, parse);
        case _ =>
      }
      RunStaysDriven(Apply(st, steps[0]), steps[1..]);
    }
  }

  /** In a clean run whose reloads keep the drivers in use, the counters account for every request. */
  lemma CountersAreExact(drivers: map<int, int>, steps: seq<Step>)
    requires IsCleanRun(Start(drivers), steps) && IsRun(Start(drivers), steps)
    requires KeepsDrivers(Start(drivers), steps)
    ensures var st := Run(Start(drivers), steps);
            st.counted == st.finished + st.failed + |st.curl| + |st.queue|
  {
    hide Run, IsRun, IsCleanRun, KeepsDrivers, PacketsOf, Finals, UnderWay;
    CountersNeverExceed(drivers, steps);
    ExactlyOnce(drivers, steps);
    RunStaysDriven(Start(drivers), steps);
  }

  // ---------- the hypotheses are needed ----------

  /**
   Without them a datagram can be answered twice and another one never: the client fails on the
   first transfer for identifier 1 and leaves its request in the map, so that the second request for
   the identifier is not stored and the response to it is sent to the first sender.
   */
  lemma AnsweredTwiceAndNever()
    ensures var request := TaggedRequest(1, 0, []);
            var steps := [Datagram(request, 7, Sends(ClientThrows([]))), Datagram(request, 8, Sends(Taken)),
                          Finished(0, true, []), Delivered(Parses(Answer([], [], [])))];
            IsRun(Start(map[0 := TAGGED]), steps)
            && var st := Run(Start(map[0 := TAGGED]), steps);
               |st.accepted| == 2 && st.waiting == map[] && st.curl == [] && st.queue == []
               && PacketsOf(st.sent, Final, 0) == 2 && PacketsOf(st.sent, Final, 1) == 0
  {
    hide Run, IsRun, Apply, Arrive, PacketsOf, Finals, Sum, TaggedRequest;
    var request := TaggedRequest(1, 0, []);
    var s1, s2 := Datagram(request, 7, Sends(ClientThrows([]))), Datagram(request, 8, Sends(Taken));
    var s3, s4 := Finished(0, true, []), Delivered(Parses(Answer([], [], [])));
    var st0 := Start(map[0 := TAGGED]);
    TaggedRequestRoundTrip(1, 0, [], []);
    assert request + [] == request;
    FirstSendFails(st0, request);
    var st1 := Apply(st0, s1);
    SecondIsNotStored(st1, request);
    var st2 := Apply(st1, s2);
    TransferEnds(st2);
    var st3 := Apply(st2, s3);
    AnswerLeavesMap(st3, Answer([], [], []));
    RunOfFour(st0, s1, s2, s3, s4);
    EveryDatagram(map[0 := TAGGED], [s1, s2, s3, s4], 0);
    EveryDatagram(map[0 := TAGGED], [s1, s2, s3, s4], 1);
  }

  lemma RunOfFour(st: State, s1: Step, s2: Step, s3: Step, s4: Step)
    requires Enabled(st, s1) && Enabled(Apply(st, s1), s2) && Enabled(Apply(Apply(st, s1), s2), s3)
    requires Enabled(Apply(Apply(Apply(st, s1), s2), s3), s4)
    ensures IsRun(st, [s1, s2, s3, s4])
    ensures Run(st, [s1, s2, s3, s4]) == Apply(Apply(Apply(Apply(st, s1), s2), s3), s4)
  {
    hide Apply, Enabled;
    RunCons(Apply(Apply(Apply(st, s1), s2), s3), s4, []);
    RunCons(Apply(Apply(st, s1), s2), s3, [s4]);
    RunCons(Apply(st, s1), s2, [s3, s4]);
    RunCons(st, s1, [s2, s3, s4]);
  }

  lemma RunCons(st: State, s: Step, rest: seq<Step>)
    requires Enabled(st, s)
    ensures IsRun(st, [s] + rest) <==> IsRun(Apply(st, s), rest)
    ensures IsRun(Apply(st, s), rest) ==> Run(st, [s] + rest) == Run(Apply(st, s), rest)
    ensures IsRun(st, []) && Run(st, []) == st
    ensures IsRun(Apply(st, s), []) && Run(Apply(st, s), []) == Apply(st, s)
    ensures [s] + [] == [s]
  {
    hide Apply, Enabled;
    assert ([s] + rest)[1..] == rest;
  }

  lemma FirstSendFails(st: State, request: Text)
    requires st == Start(map[0 := TAGGED]) && ReadRequest(request) == Accepted(1, 0, TAGGED, [])
    ensures var st' := Apply(st, Datagram(request, 7, Sends(ClientThrows([]))));
            st'.waiting.Keys == {1} && st'.waiting[1].serial == 0 && st'.fates == [2] && |st'.accepted| == 1
            && st'.accepted[0].id == 1 && st'.curl == [] && st'.queue == [] && st'.drivers == st.drivers
  {
    hide ErrorBytes, Le32, ReadRequest;
  }

  lemma SecondIsNotStored(st: State, request: Text)
    requires st.waiting.Keys == {1} && st.fates == [2] && |st.accepted| == 1 && st.curl == [] && st.queue == []
    requires st.drivers == map[0 := TAGGED] && ReadRequest(request) == Accepted(1, 0, TAGGED, [])
    ensures var st' := Apply(st, Datagram(request, 8, Sends(Taken)));
            st'.waiting == st.waiting && st'.fates == [2, 0] && |st'.accepted| == 2
            && st'.curl == [1] && st'.queue == []
  {
    hide ErrorBytes, Le32, ReadRequest;
  }

  lemma TransferEnds(st: State)
    requires st.curl == [1] && st.queue == []
    ensures var st' := Apply(st, Finished(0, true, []));
            st'.curl == [] && st'.queue == [Response(1, true, [])] && st'.waiting == st.waiting
            && st'.fates == st.fates && st'.accepted == st.accepted
  {
  }

  lemma AnswerLeavesMap(st: State, a: Answer)
    requires st.queue == [Response(1, true, [])] && st.waiting.Keys == {1}
    ensures var st' := Apply(st, Delivered(Parses(a)));
            st'.waiting == map[] && st'.curl == st.curl && st'.queue == [] && st'.fates == st.fates
            && st'.accepted == st.accepted
  {
    hide ErrorBytes, AnswerBytes;
    assert (st.waiting - {1}).Keys == {};
  }
}
