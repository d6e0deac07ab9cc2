/**
 What becomes of one datagram, from the state it arrives in: how many final replies it gets in the end,
 exactly, and exactly when that is one.
 */
module ProtocolFates {
  import opened Wrappers
  import opened Bytes
  import opened Wire
  import opened Protocol
  import opened ProtocolProofs
  import opened ProtocolRuns

  // ---------- what is settled stays settled ----------

  /** Requests are only ever added, and so is what they have coming. */
  predicate Grown(st: State, st': State) {
    st.accepted <= st'.accepted && st.fates <= st'.fates
  }

  lemma ResolveSettlesNothing(st: State, r: Request, call: DriverCall)
    ensures Resolve(st, r, call).accepted == st.accepted && Resolve(st, r, call).fates == st.fates
  {
    hide ErrorBytes, AnswerBytes;
  }

  lemma HandleSettlesNothing(st: State, r: Request, response: Response, call: ParseCall)
    ensures Handle(st, r, response, call).accepted == st.accepted
    ensures Handle(st, r, response, call).fates == st.fates
  {
    hide ErrorBytes, AnswerBytes;
  }

  /** The request a datagram becomes when it is accepted. */
  function Accept(st: State, bytes: Text, client: nat): Request
    requires ReadRequest(bytes).Accepted?
  {
    var a := ReadRequest(bytes);
    Request(a.id, a.kind, a.db, client, a.data, |st.accepted|)
  }

  lemma ArrivalSettles(st: State, bytes: Text, client: nat, call: DriverCall)
    ensures var st' := Arrive(st, bytes, client, call);
            if ReadRequest(bytes).Accepted? then
              var r := Accept(st, bytes, client);
              st'.accepted == st.accepted + [r] && st'.fates == st.fates + [Fate(st, r, call)]
            else st'.accepted == st.accepted && st'.fates == st.fates
  {
    hide ErrorBytes, ReadRequest, Resolve, Fate;
    if ReadRequest(bytes).Accepted? {
      var r := Accept(st, bytes, client);
      var known := st.(accepted := st.accepted + [r], fates := st.fates + [Fate(st, r, call)]);
      ResolveSettlesNothing(Send(known, Pong, r, Some(Le32(r.id))), r, call);
    }
  }

  lemma StepGrows(st: State, s: Step)
    requires Enabled(st, s)
    ensures Grown(st, Apply(st, s))
  {
    hide Arrive, Handle;
    match s
    case Datagram(bytes, client, driver) => ArrivalSettles(st, bytes, client, driver);
    case Delivered(call) => DeliverySettlesNothing(st, call);
    case _ =>
  }

  lemma {:induction false} RunGrows(st: State, steps: seq<Step>)
    requires IsRun(st, steps)
    ensures Grown(st, Run(st, steps))
    decreases |steps|
  {
    hide Apply, Enabled;
    if steps != [] {
      StepGrows(st, steps[0]);
      RunGrows(Apply(st, steps[0]), steps[1..]);
    }
  }

  lemma {:induction false} RunSplits(st: State, first: seq<Step>, second: seq<Step>)
    requires IsRun(st, first + second)
    ensures IsRun(st, first) && IsRun(Run(st, first), second)
    ensures Run(st, first + second) == Run(Run(st, first), second)
    decreases |first|
  {
    hide Apply, Enabled;
    if first == [] {
      assert first + second == second;
    } else {
      assert (first + second)[1..] == first[1..] + second;
      RunSplits(Apply(st, first[0]), first[1..], second);
    }
  }

  // ---------- one datagram in a run ----------

  /** A run in which a datagram arrives and is accepted, between any two other runs. */
  ghost predicate Arrives(drivers: map<int, int>, before: seq<Step>, bytes: Text, client: nat, call: DriverCall,
                          after: seq<Step>) {
    && IsRun(Start(drivers), before)
    && IsRun(Start(drivers), before + ([Datagram(bytes, client, call)] + after))
    && ReadRequest(bytes).Accepted?
  }

  /** Final replies a request had so far, and one more if it still waits for its response. */
  ghost function Coming(st: State, serial: nat): nat
    requires serial < |st.accepted|
  {
    PacketsOf(st.sent, Final, serial) + (if Waits(st, serial) then 1 else 0)
  }

  /**
   From its arrival on, whatever follows, a datagram has one pong, and its final replies and its place in
   the map add up to what the state it arrived in and its driver's call settled.
   */
  lemma FateOfDatagram(drivers: map<int, int>, before: seq<Step>, bytes: Text, client: nat, call: DriverCall,
                       after: seq<Step>)
    requires Arrives(drivers, before, bytes, client, call, after)
    ensures var arrival := Run(Start(drivers), before);
            var r := Accept(arrival, bytes, client);
            var st := Run(Start(drivers), before + ([Datagram(bytes, client, call)] + after));
            r.serial < |st.accepted| && st.accepted[r.serial] == r
            && PacketsOf(st.sent, Pong, r.serial) == 1
            && Coming(st, r.serial) == Fate(arrival, r, call)
  {
    var start := Start(drivers);
    var step := Datagram(bytes, client, call);
    RunSplits(start, before, [step] + after);
    var arrival := Run(start, before);
    var r := Accept(arrival, bytes, client);
    assert ([step] + after)[1..] == after;
    var next := Apply(arrival, step);
    assert IsRun(next, after) && Run(arrival, [step] + after) == Run(next, after);
    ArrivalSettles(arrival, bytes, client, call);
    RunGrows(next, after);
    var st := Run(next, after);
    StartKeeps(drivers);
    RunKeeps(start, before);
    StateIsKnown(arrival);
    EveryDatagram(drivers, before + ([step] + after), r.serial);
    hide Apply, Run, IsRun, Invariant, Fate, PacketsOf, Waits, ReadRequest;
    assert next.accepted[r.serial] == r && next.fates[r.serial] == Fate(arrival, r, call);
  }

  lemma StateIsKnown(st: State)
    requires Invariant(st)
    ensures |st.fates| == |st.accepted|
  {
  }

  /**
   Exactly when a datagram is answered exactly once, in the terms of the state it arrives in: its request
   is not handed to the HTTP client; or it is, its identifier is not waiting, and the client takes it or
   refuses it; or its identifier is waiting and the client throws. It is answered twice exactly when the
   client throws although the identifier was free, and never exactly when the identifier is waiting and
   the client does not throw.
   */
  lemma AnsweredOnceIf(drivers: map<int, int>, before: seq<Step>, bytes: Text, client: nat, call: DriverCall,
                       after: seq<Step>)
    requires Arrives(drivers, before, bytes, client, call, after)
    ensures var arrival := Run(Start(drivers), before);
            var r := Accept(arrival, bytes, client);
            var st := Run(Start(drivers), before + ([Datagram(bytes, client, call)] + after));
            var submitted := Submits(arrival, r.db, r.kind, call);
            var throws := submitted && call.client.ClientThrows?;
            var taken := r.id in arrival.waiting;
            r.serial < |st.accepted|
            && (Coming(st, r.serial) == 1 <==> !submitted || (throws <==> taken))
            && (Coming(st, r.serial) == 2 <==> throws && !taken)
            && (Coming(st, r.serial) == 0 <==> submitted && !throws && taken)
  {
    FateOfDatagram(drivers, before, bytes, client, call, after);
    hide Run, IsRun, Arrives, Coming, ReadRequest;
  }

  // ---------- all datagrams of a run ----------

  /** An arriving datagram that will be answered exactly once. */
  predicate OnceStep(st: State, s: Step) {
    s.Datagram? && ReadRequest(s.bytes).Accepted? ==>
      var a := ReadRequest(s.bytes);
      !Submits(st, a.db, a.kind, s.driver) || (s.driver.client.ClientThrows? <==> a.id in st.waiting)
  }

  predicate IsOnceRun(st: State, steps: seq<Step>)
    requires IsRun(st, steps)
    decreases |steps|
  {
    steps == [] || (OnceStep(st, steps[0]) && IsOnceRun(Apply(st, steps[0]), steps[1..]))
  }

  /** From the place `from` on every fate is one reply. */
  predicate OnesFrom(fates: seq<nat>, from: nat) {
    forall k :: from <= k < |fates| ==> fates[k] == 1
  }

  lemma StepIsOnce(st: State, s: Step)
    requires Enabled(st, s)
    ensures OnceStep(st, s) <==> OnesFrom(Apply(st, s).fates, |st.fates|)
    ensures |Apply(st, s).fates| <= |st.fates| + 1
  {
    hide Arrive, Deliver, ReadRequest;
    match s
    case Datagram(bytes, client, driver) =>
      ArrivalSettles(st, bytes, client, driver);
      if ReadRequest(bytes).Accepted? {
        var fate := Fate(st, Accept(st, bytes, client), driver);
        assert (st.fates + [fate])[|st.fates|] == fate;
        assert fate == 1 <==> OnceStep(st, s);
      }
    case Delivered(call) => DeliverySettlesNothing(st, call);
    case _ =>
  }

  lemma DeliverySettlesNothing(st: State, call: ParseCall)
    requires st.queue != []
    ensures Deliver(st, call).accepted == st.accepted && Deliver(st, call).fates == st.fates
  {
    hide Handle;
    var response := st.queue[0];
    if response.id in st.waiting {
      var popped := st.(queue := st.queue[1..]);
      HandleSettlesNothing(popped.(waiting := popped.waiting - {response.id}), st.waiting[response.id], response, call);
    }
  }

  lemma OnesSplit(before: seq<nat>, next: seq<nat>, after: seq<nat>)
    requires before <= next <= after
    ensures OnesFrom(after, |before|) <==> OnesFrom(next, |before|) && OnesFrom(after, |next|)
  {
    assert forall k :: 0 <= k < |next| ==> after[k] == next[k];
  }

  lemma {:induction false} RunIsOnce(st: State, steps: seq<Step>)
    requires IsRun(st, steps)
    ensures IsOnceRun(st, steps) <==> OnesFrom(Run(st, steps).fates, |st.fates|)
    decreases |steps|
  {
    hide Apply, Enabled, OnceStep;
    if steps != [] {
      var next := Apply(st, steps[0]);
      StepIsOnce(st, steps[0]);
      StepGrows(st, steps[0]);
      RunGrows(next, steps[1..]);
      RunIsOnce(next, steps[1..]);
      var fates := Run(next, steps[1..]).fates;
      OnesSplit(st.fates, next.fates, fates);
    }
  }

  /**
   Over whole runs: every accepted datagram has one final reply or waits for it, never both and never
   neither, if and only if every datagram that was handed to the HTTP client was either not waiting and
   did not make the client throw, or waiting and did.
   */
  lemma AllAnsweredOnceIf(drivers: map<int, int>, steps: seq<Step>)
    requires IsRun(Start(drivers), steps)
    ensures var st := Run(Start(drivers), steps);
            (forall s :: 0 <= s < |st.accepted| ==> Coming(st, s) == 1) <==> IsOnceRun(Start(drivers), steps)
    ensures var st := Run(Start(drivers), steps);
            IsOnceRun(Start(drivers), steps) ==> |st.accepted| == Finals(st.sent) + |st.waiting|
  {
    var st := Run(Start(drivers), steps);
    RunIsOnce(Start(drivers), steps);
    EveryDatagram(drivers, steps, 0);
    hide Run, IsRun, IsOnceRun, PacketsOf, Waits, Finals;
    forall s | 0 <= s < |st.accepted| ensures Coming(st, s) == st.fates[s] {
      EveryDatagram(drivers, steps, s);
    }
    if IsOnceRun(Start(drivers), steps) {
      SumOfOnes(st.fates);
    }
  }
}
