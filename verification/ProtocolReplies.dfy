/**
 What the clients are told and what the cache is handed: over any run, message by message and entry by
 entry, as the clients read the packets. The tables below look only at a step and at the state it is
 taken in; how the resolver comes to send something does not enter them.
 */
module ProtocolReplies {
  import opened Wrappers
  import opened Bytes
  import JsonParse
  import opened ErrorBodies
  import opened Wire
  import opened Protocol
  import opened ProtocolProofs
  import opened ProtocolFates

  datatype Verdict = Answered(answer: Answer) | Failed(code: Byte, what: Text)

  datatype Message = Acknowledged(request: Request) | Told(request: Request, verdict: Verdict)

  // ---------- what is to be said ----------

  /** The request's database has a driver, and it is of the request's type. */
  predicate Served(st: State, r: Request) {
    r.db in st.drivers && st.drivers[r.db] == r.kind
  }

  /** Why a request without such a driver is turned down, with code 21. */
  function Unserved(st: State, r: Request): Verdict
    requires !Served(st, r)
  {
    Failed(21, Ascii(if r.db in st.drivers then "request type is unsupported" else "unknown database id"))
  }

  /** What a request is told at once: nothing yet when the HTTP client has it without complaint. */
  function AtOnce(st: State, r: Request, call: DriverCall): seq<Verdict> {
    if !Served(st, r) then [Unserved(st, r)]
    else
      match call
      case Answers(a) => [Answered(a)]
      case DriverError(what) => [Failed(22, what)]
      case OtherError => [Failed(21, Ascii("unknown resovling exception"))]
      case Sends(ClientThrows(what)) => [Failed(21, what)]
      case Sends(_) => []
  }

  /** What a request is told when its response is there. */
  function InTheEnd(st: State, r: Request, response: Response, call: ParseCall): Verdict {
    if !Served(st, r) then Unserved(st, r)
    else if !response.success then Failed(21, response.data)
    else
      match call
      case Parses(a) => Answered(a)
      case ParseError(what) => Failed(22, what)
      case ParseBreaks => Failed(21, Ascii("unknown resovling exception"))
  }

  function ToldAll(r: Request, verdicts: seq<Verdict>): (ms: seq<Message>)
    requires |verdicts| <= 1
    ensures |ms| == |verdicts|
  {
    if verdicts == [] then [] else [Told(r, verdicts[0])]
  }

  /** All that a step has to say to the senders of accepted requests. */
  function Messages(st: State, s: Step): seq<Message>
    requires Enabled(st, s)
  {
    match s
    case Datagram(bytes, client, call) =>
      if ReadRequest(bytes).Accepted? then
        var r := Accept(st, bytes, client);
        [Acknowledged(r)] + ToldAll(r, AtOnce(st, r, call))
      else []
    case Delivered(call) =>
      var response := st.queue[0];
      if response.id in st.waiting then
        var r := st.waiting[response.id];
        [Told(r, InTheEnd(st, r, response, call))]
      else []
    case _ => []
  }

  function MessagesOf(st: State, steps: seq<Step>): seq<Message>
    requires IsRun(st, steps)
    decreases |steps|
  {
    if steps == [] then [] else Messages(st, steps[0]) + MessagesOf(Apply(st, steps[0]), steps[1..])
  }

  // ---------- how it is read ----------

  /** The bytes behind a header of this size. */
  predicate Behind(bytes: Text, header: nat, payload: Text) {
    |bytes| == header + |payload| && bytes[header..] == payload
  }

  /** A JSON object with the code and the reason, when the reason can stand in a JSON string as it is. */
  ghost predicate TellsFailure(json: Text, code: Byte, what: Text) {
    NeedsNoEscape(what) ==>
      var r := JsonParse.ParseText(json, true);
      r.Parsed? && r.value == ErrorValue(code, what)
  }

  /** What the sender of a request reads in a final reply, as long as the sizes fit their fields. */
  ghost predicate Tells(bytes: Text, id: nat, kind: int, v: Verdict) {
    match v
    case Answered(a) =>
      if kind == TAGGED then
        Behind(bytes, 7, a.lrn + a.tag)
        && (|a.lrn| + |a.tag| <= 255 ==> ReadTaggedReply(bytes) == TaggedResult(id, NO_ERROR, a.lrn, a.tag))
      else Behind(bytes, 8, a.raw) && (|a.raw| <= MAX_ID ==> ReadJsonReply(bytes) == JsonResult(id, a.raw))
    case Failed(code, what) =>
      if kind == TAGGED then
        Behind(bytes, 6, what)
        && (|what| <= 255 ==> ReadTaggedErrorReply(bytes) == ErrorResult(id, code, what))
      else
        exists json ::
          Behind(bytes, 8, json) && TellsFailure(json, code, what)
          && (|json| <= MAX_ID ==> ReadJsonReply(bytes) == JsonResult(id, json))
  }

  ghost predicate Carries(p: Packet, m: Message) {
    && p.about == m.request.serial && p.to == m.request.client
    && match m
       case Acknowledged(r) => p.kind == Pong && |p.bytes| == 4 && ReadLe32(p.bytes, 0) == r.id
       case Told(r, v) => p.kind == Final && Tells(p.bytes, r.id, r.kind, v)
  }

  /** The packets after the first `from` carry these messages, one each and in order. */
  ghost predicate Carried(sent: seq<Packet>, from: nat, ms: seq<Message>) {
    |sent| == from + |ms| && forall k :: 0 <= k < |ms| ==> Carries(sent[from + k], ms[k])
  }

  // ---------- what replies say ----------

  predicate Addressable(id: nat, kind: int) {
    id <= MAX_ID && (kind == TAGGED || kind == CNAM)
  }

  lemma AnswerTells(r: Request, a: Answer)
    requires Addressable(r.id, r.kind)
    ensures AnswerBytes(r, a).Some? && Tells(AnswerBytes(r, a).value, r.id, r.kind, Answered(a))
  {
    hide ReadTaggedReply, ReadJsonReply, TaggedReply, JsonReply, Behind;
    assert Bounded(r.id) == r.id;
    TaggedReplyRoundTrip(r.id, a.lrn, a.tag);
    JsonReplyRoundTrip(r.id, a.raw);
    TaggedPayload(r.id, a.lrn, a.tag);
    JsonPayload(r.id, a.raw);
  }

  lemma TaggedPayload(id: nat, lrn: Text, tag: Text)
    requires id <= MAX_ID
    ensures Behind(TaggedReply(id, lrn, tag), 7, lrn + tag)
  {
    var head := Le32(id) + [NO_ERROR, Uint8(|lrn| + |tag|), Uint8(|lrn|)];
    assert TaggedReply(id, lrn, tag) == head + (lrn + tag);
  }

  lemma JsonPayload(id: nat, json: Text)
    requires id <= MAX_ID
    ensures Behind(JsonReply(id, json), 8, json)
  {
  }

  lemma ErrorPayload(id: nat, code: Byte, what: Text)
    requires id <= MAX_ID
    ensures Behind(TaggedErrorReply(id, code, what), 6, what)
  {
  }

  lemma ErrorTells(id: nat, kind: int, code: Byte, what: Text)
    requires Addressable(id, kind)
    ensures var e := ErrorBytes(id, kind, code, what);
            e.Some? && Tells(e.value, id, kind, Failed(code, what))
  {
    hide ReadTaggedErrorReply, ReadJsonReply, ErrorBody, TellsFailure, TaggedErrorReply, JsonReply, Behind;
    assert Bounded(id) == id;
    var json := ErrorBody(code, what);
    TaggedErrorReplyRoundTrip(id, code, what);
    JsonReplyRoundTrip(id, json);
    ErrorPayload(id, code, what);
    JsonPayload(id, json);
    BodyTells(code, what);
  }

  lemma BodyTells(code: Byte, what: Text)
    ensures TellsFailure(ErrorBody(code, what), code, what)
  {
    hide ErrorBody, ErrorValue, JsonParse.ParseText;
    if NeedsNoEscape(what) {
      ErrorBodyRoundTrip(code, what, true);
    }
  }

  // ---------- what is cached and counted ----------

  /** A tagged driver's answer, under its database and the number asked for. */
  function Entries(st: State, ms: seq<Message>): seq<CacheEntry> {
    if ms == [] then []
    else
      var m := ms[0];
      (if m.Told? && m.verdict.Answered? && m.request.db in st.drivers && st.drivers[m.request.db] == TAGGED then
         [CacheEntry(m.request.db, m.request.data, m.verdict.answer)]
       else [])
      + Entries(st, ms[1..])
  }

  function Answers(ms: seq<Message>): nat {
    if ms == [] then 0
    else (if ms[0].Told? && ms[0].verdict.Answered? then 1 else 0) + Answers(ms[1..])
  }

  /** Failures of requests that a driver was there for. */
  function Failures(st: State, ms: seq<Message>): nat {
    if ms == [] then 0
    else
      (if ms[0].Told? && ms[0].verdict.Failed? && Served(st, ms[0].request) then 1 else 0) + Failures(st, ms[1..])
  }

  /** Requests that a step hands to a driver. */
  function Calls(st: State, s: Step): nat {
    if s.Datagram? && ReadRequest(s.bytes).Accepted? && Served(st, Accept(st, s.bytes, s.client)) then 1 else 0
  }

  // ---------- one step ----------

  /** From `st` to `st'` exactly these messages are sent, and cached and counted as they are. */
  ghost predicate Says(st: State, st': State, ms: seq<Message>, calls: nat) {
    && st.sent <= st'.sent && Carried(st'.sent, |st.sent|, ms)
    && st'.cache == st.cache + Entries(st, ms)
    && st'.finished == st.finished + Answers(ms)
    && st'.failed == st.failed + Failures(st, ms)
    && st'.counted == st.counted + calls
  }

  lemma OneMessage(st: State, m: Message)
    ensures Entries(st, [m])
            == if m.Told? && m.verdict.Answered? && m.request.db in st.drivers && st.drivers[m.request.db] == TAGGED
               then [CacheEntry(m.request.db, m.request.data, m.verdict.answer)] else []
    ensures Answers([m]) == if m.Told? && m.verdict.Answered? then 1 else 0
    ensures Failures(st, [m]) == if m.Told? && m.verdict.Failed? && Served(st, m.request) then 1 else 0
    ensures Entries(st, []) == [] && Answers([]) == 0 && Failures(st, []) == 0
  {
    assert [m][1..] == [];
  }

  lemma NothingSaid(st: State)
    ensures Says(st, st, [], 0)
  {
    OneMessage(st, Acknowledged(Request(0, 0, 0, 0, [], 0)));
  }

  /** An error reply, to a request whose failure is counted when a driver was there. */
  lemma SaysError(st: State, r: Request, code: Byte, what: Text)
    requires Addressable(r.id, r.kind)
    ensures Says(st, SendError(if Served(st, r) then Fail(st) else st, r, code, what), [Told(r, Failed(code, what))], 0)
  {
    hide Tells, ErrorBytes;
    ErrorTells(r.id, r.kind, code, what);
    OneMessage(st, Told(r, Failed(code, what)));
  }

  lemma SaysAnswer(st: State, r: Request, a: Answer)
    requires Addressable(r.id, r.kind)
    ensures Says(st, Done(st, r, a), [Told(r, Answered(a))], 0)
  {
    hide Tells, AnswerBytes;
    AnswerTells(r, a);
    OneMessage(st, Told(r, Answered(a)));
  }

  /** Counters and contents that messages do not depend on. */
  predicate SameTalk(st: State, base: State) {
    && base.sent == st.sent && base.cache == st.cache && base.finished == st.finished && base.failed == st.failed
    && base.drivers == st.drivers
  }

  lemma SaysFrom(st: State, base: State, st': State, ms: seq<Message>, calls: nat)
    requires SameTalk(st, base) && Says(base, st', ms, 0) && base.counted == st.counted + calls
    ensures Says(st, st', ms, calls)
  {
    hide Carried;
    SameEntries(st, base, ms);
  }

  lemma {:induction false} SameEntries(st: State, base: State, ms: seq<Message>)
    requires base.drivers == st.drivers
    ensures Entries(base, ms) == Entries(st, ms) && Failures(base, ms) == Failures(st, ms)
  {
    if ms != [] {
      SameEntries(st, base, ms[1..]);
    }
  }

  lemma ResolveSays(st: State, r: Request, call: DriverCall)
    requires Addressable(r.id, r.kind)
    ensures Says(st, Resolve(st, r, call), ToldAll(r, AtOnce(st, r, call)), if Served(st, r) then 1 else 0)
  {
    hide Says, SendError, Done, Ascii;
    if !Served(st, r) {
      SaysError(st, r, 21, Unserved(st, r).what);
    } else {
      var counted := st.(counted := st.counted + 1);
      match call
      case Answers(a) =>
        SaysAnswer(counted, r, a);
        SaysFrom(st, counted, Done(counted, r, a), [Told(r, Answered(a))], 1);
      case DriverError(what) => CountedError(st, r, 22, what);
      case OtherError => CountedError(st, r, 21, Ascii("unknown resovling exception"));
      case Sends(client) => SubmitSays(st, r, client);
    }
  }

  lemma CountedError(st: State, r: Request, code: Byte, what: Text)
    requires Addressable(r.id, r.kind) && Served(st, r)
    ensures Says(st, SendError(Fail(st.(counted := st.counted + 1)), r, code, what), [Told(r, Failed(code, what))], 1)
  {
    hide Says, SendError;
    var counted := st.(counted := st.counted + 1);
    SaysError(counted, r, code, what);
    SaysFrom(st, counted, SendError(Fail(counted), r, code, what), [Told(r, Failed(code, what))], 1);
  }

  lemma SubmitSays(st: State, r: Request, client: ClientCall)
    requires Addressable(r.id, r.kind) && Served(st, r)
    ensures Says(st, Submit(st.(counted := st.counted + 1), r, client), ToldAll(r, AtOnce(st, r, Sends(client))), 1)
  {
    hide Says, SendError, Ascii;
    var counted := st.(counted := st.counted + 1);
    var kept := if r.id in st.waiting then counted else counted.(waiting := st.waiting[r.id := r]);
    if client.ClientThrows? {
      SaysError(kept, r, 21, client.what);
      SaysFrom(st, kept, SendError(Fail(kept), r, 21, client.what), [Told(r, Failed(21, client.what))], 1);
    } else {
      var st' := Submit(counted, r, client);
      NothingSaid(st');
      SaysFrom(st, st', st', [], 1);
    }
  }

  lemma HandleSays(st: State, r: Request, response: Response, call: ParseCall)
    requires Addressable(r.id, r.kind)
    ensures Says(st, Handle(st, r, response, call), [Told(r, InTheEnd(st, r, response, call))], 0)
  {
    hide Says, SendError, Done, Ascii;
    if !Served(st, r) {
      var base := st.(undriven := st.undriven + 1);
      var what := Unserved(st, r).what;
      SaysError(base, r, 21, what);
      SaysFrom(st, base, SendError(base, r, 21, what), [Told(r, Failed(21, what))], 0);
    } else if !response.success {
      SaysError(st, r, 21, response.data);
    } else {
      match call
      case Parses(a) => SaysAnswer(st, r, a);
      case ParseError(what) => SaysError(st, r, 22, what);
      case ParseBreaks => SaysError(st, r, 21, Ascii("unknown resovling exception"));
    }
  }

  lemma ArriveSays(st: State, bytes: Text, client: nat, call: DriverCall)
    requires ReadRequest(bytes).Accepted?
    ensures var r := Accept(st, bytes, client);
            Says(st, Arrive(st, bytes, client, call), [Acknowledged(r)] + ToldAll(r, AtOnce(st, r, call)),
                 if Served(st, r) then 1 else 0)
  {
    hide Says, Resolve, ReadRequest, AtOnce, Fate, Le32;
    var r := Accept(st, bytes, client);
    AcceptedIsAddressable(bytes);
    var known := st.(accepted := st.accepted + [r], fates := st.fates + [Fate(st, r, call)]);
    var ponged := Send(known, Pong, r, Some(Le32(r.id)));
    ResolveSays(ponged, r, call);
    SameVerdicts(st, ponged, r, call);
    PongSays(st, ponged, Arrive(st, bytes, client, call), r, ToldAll(r, AtOnce(st, r, call)),
             if Served(st, r) then 1 else 0);
  }

  lemma SameVerdicts(st: State, base: State, r: Request, call: DriverCall)
    requires base.drivers == st.drivers
    ensures AtOnce(base, r, call) == AtOnce(st, r, call) && Served(base, r) == Served(st, r)
  {
  }

  lemma AcceptedIsAddressable(bytes: Text)
    requires ReadRequest(bytes).Accepted?
    ensures Addressable(ReadRequest(bytes).id, ReadRequest(bytes).kind)
  {
  }

  /** The acknowledgement goes before whatever else is said. */
  lemma PongSays(st: State, ponged: State, st': State, r: Request, ms: seq<Message>, calls: nat)
    requires r.id <= MAX_ID && ponged.sent == st.sent + [Packet(Pong, r.serial, r.client, Le32(r.id))]
    requires SameTalk(st.(sent := ponged.sent), ponged) && ponged.counted == st.counted
    requires Says(ponged, st', ms, calls)
    ensures Says(st, st', [Acknowledged(r)] + ms, calls)
  {
    hide Le32, Entries, Failures, Answers;
    Le32RoundTrip(r.id, []);
    assert Le32(r.id) + [] == Le32(r.id);
    SameEntries(st, ponged, ms);
    FirstOfMessages(st, Acknowledged(r), ms);
    var all := [Acknowledged(r)] + ms;
    forall k | 0 <= k < |all| ensures Carries(st'.sent[|st.sent| + k], all[k]) {
      if k > 0 {
        assert Carries(st'.sent[|ponged.sent| + (k - 1)], ms[k - 1]);
      } else {
        assert st'.sent[|st.sent|] == ponged.sent[|st.sent|];
      }
    }
  }

  lemma FirstOfMessages(st: State, m: Message, ms: seq<Message>)
    requires m.Acknowledged?
    ensures Entries(st, [m] + ms) == Entries(st, ms) && Answers([m] + ms) == Answers(ms)
    ensures Failures(st, [m] + ms) == Failures(st, ms)
  {
    assert ([m] + ms)[1..] == ms;
  }

  /** A step tells the senders exactly what the tables say, caches the answers and counts what became of them. */
  lemma StepSays(st: State, s: Step)
    requires Invariant(st) && Enabled(st, s)
    ensures Says(st, Apply(st, s), Messages(st, s), Calls(st, s))
  {
    NothingSaid(st);
    hide Arrive, Handle, ReadRequest, AtOnce, InTheEnd, Entries, Failures, Answers, Carried, PongFirst, Fated;
    match s
    case Datagram(bytes, client, call) =>
      if ReadRequest(bytes).Accepted? {
        ArriveSays(st, bytes, client, call);
      } else {
        RefusalSays(st, bytes, client, call);
      }
    case Delivered(call) =>
      var response := st.queue[0];
      var popped := st.(queue := st.queue[1..]);
      if response.id in st.waiting {
        var r := st.waiting[response.id];
        var base := popped.(waiting := popped.waiting - {response.id});
        HandleSays(base, r, response, call);
        SameEnd(st, base, r, response, call);
        SaysFrom(st, base, Deliver(st, call), [Told(r, InTheEnd(st, r, response, call))], 0);
      } else {
        SaysNothing(st, Deliver(st, call));
      }
    case _ => SaysNothing(st, Apply(st, s));
  }

  lemma SameEnd(st: State, base: State, r: Request, response: Response, call: ParseCall)
    requires base.drivers == st.drivers
    ensures InTheEnd(base, r, response, call) == InTheEnd(st, r, response, call)
  {
  }

  lemma SaysNothing(st: State, st': State)
    requires st'.sent == st.sent && st'.cache == st.cache && st'.finished == st.finished && st'.failed == st.failed
    requires st'.counted == st.counted
    ensures Says(st, st', [], 0)
  {
    OneMessage(st, Acknowledged(Request(0, 0, 0, 0, [], 0)));
  }

  // ---------- refusals ----------

  /** Why a datagram is not taken. */
  function Objection(t: Text): string {
    if |t| < 6 || (t[5] == TAGGED && |t| < 7) || (t[5] == CNAM && |t| < 10) then "request is too small"
    else if t[5] != TAGGED && t[5] != CNAM then "unknown request type"
    else "malformed request"
  }

  /**
   A datagram that is not accepted is answered once, with code 11 and the reason, as a tagged request
   unless it says that it is a CNAM request; one too short to have an identifier is not answered.
   */
  lemma RefusalSays(st: State, bytes: Text, client: nat, call: DriverCall)
    requires ReadRequest(bytes).Rejected?
    ensures var st' := Arrive(st, bytes, client, call);
            Says(st, st', [], 0) && st' == st.(refusals := st'.refusals)
            && if |bytes| < 6 then st' == st
               else
                 |st'.refusals| == |st.refusals| + 1 && st.refusals <= st'.refusals
                 && var refusal := st'.refusals[|st.refusals|];
                    refusal.to == client
                    && Tells(refusal.bytes, ReadLe32(bytes, 0), if bytes[5] == CNAM then CNAM else TAGGED,
                             Failed(11, Ascii(Objection(bytes))))
  {
    hide Tells, Ascii, ErrorBytes, ReadLe32;
    SaysNothing(st, Arrive(st, bytes, client, call));
    var r := ReadRequest(bytes);
    if |bytes| < 6 {
      NoBytes(r.id, r.reason);
    } else {
      ErrorTells(r.id, r.kind, 11, r.reason);
    }
  }

  lemma NoBytes(id: nat, reason: Text)
    ensures ErrorBytes(id, UNTYPED, PSQL_INVALID_REQUEST, reason).None?
  {
  }

  // ---------- whole runs ----------

  /** The entries of a run, by its messages and the drivers in charge when they are sent. */
  function EntriesOf(st: State, steps: seq<Step>): seq<CacheEntry>
    requires IsRun(st, steps)
    decreases |steps|
  {
    if steps == [] then [] else Entries(st, Messages(st, steps[0])) + EntriesOf(Apply(st, steps[0]), steps[1..])
  }

  function FailuresOf(st: State, steps: seq<Step>): nat
    requires IsRun(st, steps)
    decreases |steps|
  {
    if steps == [] then 0 else Failures(st, Messages(st, steps[0])) + FailuresOf(Apply(st, steps[0]), steps[1..])
  }

  function CallsOf(st: State, steps: seq<Step>): nat
    requires IsRun(st, steps)
    decreases |steps|
  {
    if steps == [] then 0 else Calls(st, steps[0]) + CallsOf(Apply(st, steps[0]), steps[1..])
  }

  /** The requests of the datagrams that are accepted, the first with this serial number. */
  function RequestsOf(steps: seq<Step>, serial: nat): seq<Request> {
    if steps == [] then []
    else if steps[0].Datagram? && ReadRequest(steps[0].bytes).Accepted? then
      var a := ReadRequest(steps[0].bytes);
      [Request(a.id, a.kind, a.db, steps[0].client, a.data, serial)] + RequestsOf(steps[1..], serial + 1)
    else RequestsOf(steps[1..], serial)
  }

  /** Every message is about an accepted request, as its datagram stated it. */
  ghost predicate AboutAccepted(ms: seq<Message>, accepted: seq<Request>) {
    forall k :: 0 <= k < |ms| ==>
      ms[k].request.serial < |accepted| && accepted[ms[k].request.serial] == ms[k].request
  }

  /** From `st` to `st'` the steps say, cache and count what the tables call for. */
  ghost predicate AllSaid(st: State, steps: seq<Step>, st': State)
    requires IsRun(st, steps)
  {
    && st.sent <= st'.sent && Carried(st'.sent, |st.sent|, MessagesOf(st, steps))
    && st'.accepted == st.accepted + RequestsOf(steps, |st.accepted|)
    && AboutAccepted(MessagesOf(st, steps), st'.accepted)
    && st'.cache == st.cache + EntriesOf(st, steps)
    && st'.finished == st.finished + Answers(MessagesOf(st, steps))
    && st'.failed == st.failed + FailuresOf(st, steps)
    && st'.counted == st.counted + CallsOf(st, steps)
  }

  /**
   Over any run every packet to the sender of an accepted request carries the message the steps call for,
   in order and once each; the cache is handed exactly the answers of tagged drivers, in order and once
   each, under their database and the number asked for; and the counters count requests handed to
   drivers, answers and failures.
   */
  lemma RunTells(drivers: map<int, int>, steps: seq<Step>)
    requires IsRun(Start(drivers), steps)
    ensures var st := Run(Start(drivers), steps);
            Carried(st.sent, 0, MessagesOf(Start(drivers), steps))
            && st.accepted == RequestsOf(steps, 0) && AboutAccepted(MessagesOf(Start(drivers), steps), st.accepted)
            && st.cache == EntriesOf(Start(drivers), steps)
            && st.finished == Answers(MessagesOf(Start(drivers), steps))
            && st.failed == FailuresOf(Start(drivers), steps)
            && st.counted == CallsOf(Start(drivers), steps)
  {
    hide Run, IsRun, Carried, AboutAccepted, MessagesOf, EntriesOf, RequestsOf, FailuresOf, CallsOf, Answers;
    StartKeeps(drivers);
    RunSays(Start(drivers), steps);
  }

  lemma {:induction false} RunSays(st: State, steps: seq<Step>)
    requires Invariant(st) && IsRun(st, steps)
    ensures AllSaid(st, steps, Run(st, steps))
    decreases |steps|
  {
    hide Apply, Enabled, Invariant, Messages, Entries, Carried, Calls, Failures, AboutAccepted, RequestsOf;
    hide MessagesOf, EntriesOf, FailuresOf, CallsOf, Answers, Run, IsRun;
    if steps == [] {
      NoSteps(st);
      NothingCarried(st.sent, st.accepted);
    } else {
      OneStepMore(st, steps);
      var next, rest := Apply(st, steps[0]), steps[1..];
      var last := Run(next, rest);
      var ms, more := Messages(st, steps[0]), MessagesOf(next, rest);
      StepSays(st, steps[0]);
      assert steps == [steps[0]] + rest;
      StepAccepts(st, steps[0], rest);
      StepIsAbout(st, steps[0]);
      StepKeeps(st, steps[0]);
      RunSays(next, rest);
      CarriedOn(next.sent, last.sent, |st.sent|, ms, more);
      AnswersJoin(ms, more);
      StillAbout(ms, more, next.accepted, last.accepted);
    }
  }

  lemma NoSteps(st: State)
    ensures IsRun(st, []) && Run(st, []) == st
    ensures MessagesOf(st, []) == [] && EntriesOf(st, []) == [] && RequestsOf([], |st.accepted|) == []
    ensures FailuresOf(st, []) == 0 && CallsOf(st, []) == 0 && Answers([]) == 0
  {
  }

  lemma OneStepMore(st: State, steps: seq<Step>)
    requires IsRun(st, steps) && steps != []
    ensures Enabled(st, steps[0])
    ensures var next, rest := Apply(st, steps[0]), steps[1..];
            IsRun(next, rest) && Run(st, steps) == Run(next, rest)
            && MessagesOf(st, steps) == Messages(st, steps[0]) + MessagesOf(next, rest)
            && EntriesOf(st, steps) == Entries(st, Messages(st, steps[0])) + EntriesOf(next, rest)
            && FailuresOf(st, steps) == Failures(st, Messages(st, steps[0])) + FailuresOf(next, rest)
            && CallsOf(st, steps) == Calls(st, steps[0]) + CallsOf(next, rest)
  {
    hide Apply, Enabled, Messages, Entries, Failures, Calls;
  }

  lemma NothingCarried(sent: seq<Packet>, accepted: seq<Request>)
    ensures Carried(sent, |sent|, []) && AboutAccepted([], accepted)
  {
  }

  lemma StepAccepts(st: State, s: Step, rest: seq<Step>)
    requires Invariant(st) && Enabled(st, s)
    ensures var next := Apply(st, s);
            st.accepted + RequestsOf([s] + rest, |st.accepted|)
            == next.accepted + RequestsOf(rest, |next.accepted|)
  {
    hide Arrive, Deliver, ReadRequest, Invariant, RequestsOf;
    OneRequest(s, rest, |st.accepted|);
    match s
    case Datagram(bytes, client, call) =>
      ArrivalSettles(st, bytes, client, call);
      if ReadRequest(bytes).Accepted? {
        var r := Accept(st, bytes, client);
        assert st.accepted + ([r] + RequestsOf(rest, |st.accepted| + 1))
            == (st.accepted + [r]) + RequestsOf(rest, |st.accepted| + 1);
      }
    case Delivered(call) => DeliverySettlesNothing(st, call);
    case _ =>
  }

  lemma StepIsAbout(st: State, s: Step)
    requires Invariant(st) && Enabled(st, s)
    ensures AboutAccepted(Messages(st, s), Apply(st, s).accepted)
  {
    hide Arrive, Deliver, ReadRequest, AtOnce, InTheEnd, PongFirst, Addressed, Fated;
    match s
    case Datagram(bytes, client, call) => ArrivalSettles(st, bytes, client, call);
    case Delivered(call) => DeliverySettlesNothing(st, call);
    case _ =>
  }

  lemma OneRequest(s: Step, rest: seq<Step>, serial: nat)
    ensures RequestsOf([s] + rest, serial)
            == if s.Datagram? && ReadRequest(s.bytes).Accepted? then
                 var a := ReadRequest(s.bytes);
                 [Request(a.id, a.kind, a.db, s.client, a.data, serial)] + RequestsOf(rest, serial + 1)
               else RequestsOf(rest, serial)
  {
    hide ReadRequest;
    assert ([s] + rest)[1..] == rest;
  }

  lemma StillAbout(ms: seq<Message>, more: seq<Message>, accepted: seq<Request>, accepted': seq<Request>)
    requires accepted <= accepted' && AboutAccepted(ms, accepted) && AboutAccepted(more, accepted')
    ensures AboutAccepted(ms + more, accepted')
  {
  }

  lemma {:induction false} AnswersJoin(ms: seq<Message>, more: seq<Message>)
    ensures Answers(ms + more) == Answers(ms) + Answers(more)
  {
    if ms == [] {
      assert ms + more == more;
    } else {
      assert (ms + more)[1..] == ms[1..] + more;
      AnswersJoin(ms[1..], more);
    }
  }

  lemma CarriedOn(sent: seq<Packet>, sent': seq<Packet>, from: nat, ms: seq<Message>, more: seq<Message>)
    requires sent <= sent' && Carried(sent, from, ms) && Carried(sent', |sent|, more)
    ensures Carried(sent', from, ms + more)
  {
    hide Carries;
    forall k | 0 <= k < |ms + more| ensures Carries(sent'[from + k], (ms + more)[k]) {
      if k < |ms| {
        assert sent'[from + k] == sent[from + k];
      } else {
        assert Carries(sent'[|sent| + (k - |ms|)], more[k - |ms|]);
      }
    }
  }

  // ---------- the response queue ----------

  /** The report of a finished transfer: for which request, and how it went, with the body as received. */
  function Report(st: State, s: Step): seq<Response>
    requires Enabled(st, s)
  {
    match s
    case Finished(i, success, data) => [Response(st.curl[i], success, data)]
    case _ => []
  }

  function Reports(st: State, steps: seq<Step>): seq<Response>
    requires IsRun(st, steps)
    decreases |steps|
  {
    if steps == [] then [] else Report(st, steps[0]) + Reports(Apply(st, steps[0]), steps[1..])
  }

  function Deliveries(steps: seq<Step>): nat {
    if steps == [] then 0 else (if steps[0].Delivered? then 1 else 0) + Deliveries(steps[1..])
  }

  /** Responses are handled first in, first out, each once and with the body its transfer brought. */
  lemma {:induction false} RunQueues(st: State, steps: seq<Step>)
    requires IsRun(st, steps)
    ensures var all := st.queue + Reports(st, steps);
            Deliveries(steps) <= |all| && Run(st, steps).queue == all[Deliveries(steps)..]
    decreases |steps|
  {
    hide Apply, Enabled, Report;
    if steps != [] {
      var next, rest := Apply(st, steps[0]), steps[1..];
      RunQueues(next, rest);
      StepQueues(st, steps[0]);
      QueueMoves(st.queue, Report(st, steps[0]), Reports(next, rest), if steps[0].Delivered? then 1 else 0,
                 Deliveries(rest));
    }
  }

  lemma QueueMoves(queue: seq<Response>, report: seq<Response>, more: seq<Response>, first: nat, later: nat)
    requires first <= |queue| && (first > 0 ==> report == [])
    requires later <= |queue[first..] + report + more|
    ensures first + later <= |queue + (report + more)|
    ensures (queue[first..] + report + more)[later..] == (queue + (report + more))[first + later..]
  {
    assert queue[first..] + report + more == (queue + (report + more))[first..];
  }

  lemma StepQueues(st: State, s: Step)
    requires Enabled(st, s)
    ensures s.Delivered? ==> st.queue != [] && Report(st, s) == []
    ensures Apply(st, s).queue == st.queue[if s.Delivered? then 1 else 0..] + Report(st, s)
  {
    hide ErrorBytes, AnswerBytes, ReadRequest, Fate, Le32;
  }
}
