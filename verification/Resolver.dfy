/** The resolver: the object whose methods take the steps of the protocol. */
module Resolvers {
  import opened Wrappers
  import opened Bytes
  import opened Wire
  import opened Protocol

  /** A CResolverError on its way to the handler that turns it into an error reply. */
  datatype Thrown = Nothing | ResolverError(code: Byte, what: Text)

  class Resolver {
    /** Driver type by database identifier. */
    var driversMap: map<int, int>
    var waitingRequests: map<nat, Request>
    /** Transfers handed to curl. */
    var transfers: seq<nat>
    var responseQueue: seq<Response>
    /** Everything handed to the transport. */
    var sent: seq<Packet>
    var refusals: seq<Refusal>
    /** Entries handed to the cache. */
    var cached: seq<CacheEntry>
    var requestsCount: nat
    var requestsFailed: nat
    var requestsFinished: nat
    // History, which no branch looks at.
    var accepted: seq<Request>
    var fates: seq<nat>
    var refused: nat
    var orphaned: nat
    var undriven: nat

    constructor (drivers: map<int, int>)
      ensures Now() == Start(drivers)
    {
      driversMap, waitingRequests, transfers, responseQueue := drivers, map[], [], [];
      sent, refusals, cached := [], [], [];
      requestsCount, requestsFailed, requestsFinished := 0, 0, 0;
      accepted, fates, refused, orphaned, undriven := [], [], 0, 0, 0;
    }

    /** The state as the protocol sees it. */
    function Now(): State
      reads this
    {
      State(driversMap, waitingRequests, transfers, responseQueue, sent, refusals, cached,
            requestsCount, requestsFailed, requestsFinished, accepted, fates, refused, orphaned, undriven)
    }

    // ---------- replies ----------

    method SendData(kind: PacketKind, request: Request, bytes: Text)
      modifies this
      ensures Now() == Send(old(Now()), kind, request, Some(bytes))
    {
      sent := sent + [Packet(kind, request.serial, request.client, bytes)];
    }

    method SendProvisionalReply(request: Request)
      requires request.id <= MAX_ID
      modifies this
      ensures Now() == Send(old(Now()), Pong, request, Some(Le32(request.id)))
    {
      SendData(Pong, request, Le32(request.id));
    }

    method SendReply(request: Request, answer: Answer)
      modifies this
      ensures Now() == Send(old(Now()), Final, request, AnswerBytes(request, answer))
    {
      hide TaggedReply, JsonReply;
      if request.kind == TAGGED {
        var buf := BuildTaggedReply(Bounded(request.id), answer.lrn, answer.tag);
        SendData(Final, request, buf);
      } else if request.kind == CNAM {
        SendData(Final, request, JsonReply(Bounded(request.id), answer.raw));
      }
    }

    method SendErrorReply(request: Request, code: Byte, description: Text)
      modifies this
      ensures Now() == SendError(old(Now()), request, code, description)
    {
      hide TaggedErrorReply, JsonErrorReply;
      if request.kind == TAGGED {
        SendData(Final, request, TaggedErrorReply(Bounded(request.id), code, description));
      } else if request.kind == CNAM {
        var buf := BuildJsonErrorReply(Bounded(request.id), code, description);
        SendData(Final, request, buf);
      }
    }

    // ---------- requests ----------

    /** A datagram: parsed, acknowledged, resolved; whatever is thrown becomes an error reply. */
    method OnDataReceived(bytes: Text, client: nat, call: DriverCall)
      modifies this
      ensures Now() == Arrive(old(Now()), bytes, client, call)
    {
      hide Resolve, SendError, ErrorBytes, TaggedErrorReply, JsonErrorReply, Le32;
      var fields := new ResolverRequest();
      var ok, reason := fields.Parse(bytes);
      if !ok {
        RefusalBytes(fields.id, fields.kind, reason);
        if fields.kind == TAGGED {
          refusals := refusals + [Refusal(client, TaggedErrorReply(Bounded(fields.id), PSQL_INVALID_REQUEST, reason))];
        } else if fields.kind == CNAM {
          var buf := BuildJsonErrorReply(Bounded(fields.id), PSQL_INVALID_REQUEST, reason);
          refusals := refusals + [Refusal(client, buf)];
        }
        return;
      }
      var request := Request(fields.id, fields.kind, fields.db, client, fields.data, |accepted|);
      fates := fates + [Fate(Now(), request, call)];
      accepted := accepted + [request];
      SendProvisionalReply(request);
      var thrown := ResolveRequest(request, call);
      if thrown != Nothing {
        SendErrorReply(request, thrown.code, thrown.what);
      }
    }

    /** Finds the driver and lets it resolve; counts the request, and the failure if there is one. */
    method ResolveRequest(request: Request, call: DriverCall) returns (thrown: Thrown)
      modifies this
      ensures Resolve(old(Now()), request, call) == Caught(Now(), request, thrown)
    {
      hide SendError, Done;
      if request.db !in driversMap {
        return ResolverError(GENERAL_RESOLVING_ERROR, UNKNOWN_DATABASE);
      }
      if driversMap[request.db] != request.kind {
        return ResolverError(GENERAL_RESOLVING_ERROR, UNSUPPORTED_TYPE);
      }
      requestsCount := requestsCount + 1;
      match call
      case Answers(answer) =>
        HandleRequestIsDone(request, answer);
        return Nothing;
      case DriverError(what) =>
        requestsFailed := requestsFailed + 1;
        return ResolverError(DRIVER_RESOLVING_ERROR, what);
      case OtherError =>
        requestsFailed := requestsFailed + 1;
        return ResolverError(GENERAL_RESOLVING_ERROR, UNKNOWN_EXCEPTION);
      case Sends(client) =>
        thrown := MakeHttpRequest(request, client);
        if thrown != Nothing {
          requestsFailed := requestsFailed + 1;
        }
    }

    /** Stores the request, unless its identifier is there already, and hands a transfer to the client. */
    method MakeHttpRequest(request: Request, client: ClientCall) returns (thrown: Thrown)
      modifies this
      ensures Submit(old(Now()), request, client)
              == Caught(if thrown == Nothing then Now() else Fail(Now()), request, thrown)
      ensures thrown != Nothing ==> thrown.code == GENERAL_RESOLVING_ERROR
    {
      hide SendError;
      if request.id !in waitingRequests {
        waitingRequests := waitingRequests[request.id := request];
      }
      match client
      case Taken =>
        transfers := transfers + [request.id];
        return Nothing;
      case Refused =>
        refused := refused + 1;
        return Nothing;
      case ClientThrows(what) =>
        return ResolverError(GENERAL_RESOLVING_ERROR, what);
    }

    /** Counts the request, hands the answer of a tagged driver to the cache, and replies. */
    method HandleRequestIsDone(request: Request, answer: Answer)
      modifies this
      ensures Now() == Done(old(Now()), request, answer)
    {
      hide AnswerBytes;
      requestsFinished := requestsFinished + 1;
      if request.db in driversMap && driversMap[request.db] == TAGGED {
        cached := cached + [CacheEntry(request.db, request.data, answer)];
      }
      SendReply(request, answer);
    }

    // ---------- responses ----------

    /** A finished transfer: its response goes to the back of the queue and the handle is removed. */
    method CheckMultiInfo(i: nat, success: bool, data: Text)
      requires i < |transfers|
      modifies this
      ensures Now() == Finish(old(Now()), i, success, data)
    {
      responseQueue := responseQueue + [Response(transfers[i], success, data)];
      transfers := transfers[..i] + transfers[i + 1..];
    }

    method OnHttpResponseReceived(response: Response, call: ParseCall)
      modifies this
      ensures Now() == Respond(old(Now()), response, call)
    {
      hide Handle, SendError;
      if response.id !in waitingRequests {
        orphaned := orphaned + 1;
        return;
      }
      var request := waitingRequests[response.id];
      waitingRequests := waitingRequests - {response.id};
      var thrown := ParseResponse(response, request, call);
      if thrown != Nothing {
        SendErrorReply(request, thrown.code, thrown.what);
      }
    }

    method ParseResponse(response: Response, request: Request, call: ParseCall) returns (thrown: Thrown)
      modifies this
      ensures Handle(old(Now()), request, response, call) == Caught(Now(), request, thrown)
    {
      hide SendError, Done;
      if request.db !in driversMap {
        undriven := undriven + 1;
        return ResolverError(GENERAL_RESOLVING_ERROR, UNKNOWN_DATABASE);
      }
      if driversMap[request.db] != request.kind {
        undriven := undriven + 1;
        return ResolverError(GENERAL_RESOLVING_ERROR, UNSUPPORTED_TYPE);
      }
      if !response.success {
        requestsFailed := requestsFailed + 1;
        return ResolverError(GENERAL_RESOLVING_ERROR, response.data);
      }
      match call
      case Parses(answer) =>
        HandleRequestIsDone(request, answer);
        return Nothing;
      case ParseError(what) =>
        requestsFailed := requestsFailed + 1;
        return ResolverError(DRIVER_RESOLVING_ERROR, what);
      case ParseBreaks =>
        requestsFailed := requestsFailed + 1;
        return ResolverError(GENERAL_RESOLVING_ERROR, UNKNOWN_EXCEPTION);
    }

    /** Handles every queued response, oldest first. */
    method DrainResponses(calls: seq<ParseCall>)
      requires |calls| == |responseQueue|
      modifies this
      ensures Now() == DeliverAll(old(Now()), calls)
    {
      hide Respond;
      var i := 0;
      while responseQueue != []
        invariant 0 <= i <= |calls| && |responseQueue| == |calls| - i
        invariant DeliverAll(old(Now()), calls) == DeliverAll(Now(), calls[i..])
        decreases |responseQueue|
      {
        ghost var before := Now();
        var response := responseQueue[0];
        responseQueue := responseQueue[1..];
        OnHttpResponseReceived(response, calls[i]);
        assert calls[i..][0] == calls[i] && calls[i..][1..] == calls[i + 1..];
        assert Now() == Deliver(before, calls[i]);
        DeliverPops(before, calls[i]);
        i := i + 1;
      }
    }

    /** A reload swaps the map in only when loading succeeded. */
    method Configure(loaded: Option<map<int, int>>) returns (ok: bool)
      modifies this
      ensures ok <==> loaded.Some?
      ensures Now() == if loaded.Some? then Apply(old(Now()), Reloaded(loaded.value)) else old(Now())
    {
      ok := loaded.Some?;
      if ok {
        driversMap := loaded.value;
      }
    }
  }

  /** What the handler makes of an exception that reaches it. */
  function Caught(st: State, r: Request, thrown: Thrown): State {
    match thrown
    case Nothing => st
    case ResolverError(code, what) => SendError(st, r, code, what)
  }

  lemma RefusalBytes(id: nat, kind: int, reason: Text)
    ensures ErrorBytes(id, kind, PSQL_INVALID_REQUEST, reason)
            == if kind == TAGGED then Some(TaggedErrorReply(Bounded(id), PSQL_INVALID_REQUEST, reason))
               else if kind == CNAM then Some(JsonErrorReply(Bounded(id), PSQL_INVALID_REQUEST, reason))
               else None
  {
    hide TaggedErrorReply, JsonErrorReply;
  }

  /** All queued responses handled in order. */
  function DeliverAll(st: State, calls: seq<ParseCall>): State
    requires |calls| == |st.queue|
    decreases |calls|
  {
    if calls == [] then st
    else
      DeliverPops(st, calls[0]);
      DeliverAll(Deliver(st, calls[0]), calls[1..])
  }

  lemma DeliverPops(st: State, call: ParseCall)
    requires st.queue != []
    ensures Deliver(st, call).queue == st.queue[1..]
  {
    hide ErrorBytes, AnswerBytes;
  }

  /** Draining the queue is a run of the protocol, and leaves no response behind. */
  lemma {:induction false} DrainIsRun(st: State, calls: seq<ParseCall>)
    requires |calls| == |st.queue|
    ensures var steps := seq(|calls|, i requires 0 <= i < |calls| => Delivered(calls[i]));
            IsRun(st, steps) && Run(st, steps) == DeliverAll(st, calls) && DeliverAll(st, calls).queue == []
    decreases |calls|
  {
    hide Deliver;
    var steps := seq(|calls|, i requires 0 <= i < |calls| => Delivered(calls[i]));
    if calls != [] {
      DeliverPops(st, calls[0]);
      DrainIsRun(Deliver(st, calls[0]), calls[1..]);
      assert steps[1..] == seq(|calls[1..]|, i requires 0 <= i < |calls[1..]| => Delivered(calls[1..][i]));
    }
  }
}
