/**
 The request protocol as steps on one state: a datagram arrives, a transfer ends, a queued response
 is handled, the drivers are reloaded. What drivers and the HTTP client do is a parameter of a step.
 */
module Protocol {
  import opened Wrappers
  import opened Bytes
  import opened Wire

  /** A request as kept by the resolver. `serial` is its place among all accepted datagrams. */
  datatype Request = Request(id: nat, kind: int, db: int, client: nat, data: Text, serial: nat)

  datatype Answer = Answer(lrn: Text, tag: Text, raw: Text)

  /** What the HTTP client makes of a transfer it is handed. */
  datatype ClientCall = Taken | Refused | ClientThrows(what: Text)

  /** What a driver's resolve does. */
  datatype DriverCall = Answers(answer: Answer) | DriverError(what: Text) | OtherError | Sends(client: ClientCall)

  /** What a driver's parse does with the body of a response. */
  datatype ParseCall = Parses(answer: Answer) | ParseError(what: Text) | ParseBreaks

  datatype Response = Response(id: nat, success: bool, data: Text)

  datatype PacketKind = Pong | Final

  /** A datagram sent for an accepted request: which request, to whom, and the bytes. */
  datatype Packet = Packet(kind: PacketKind, about: nat, to: nat, bytes: Text)

  /** An error reply to a datagram that was not accepted. */
  datatype Refusal = Refusal(to: nat, bytes: Text)

  datatype CacheEntry = CacheEntry(db: int, data: Text, answer: Answer)

  datatype State = State(
    /** Driver type by database identifier. */
    drivers: map<int, int>,
    waiting: map<nat, Request>,
    /** Transfers the HTTP client has taken and not finished, by request identifier. */
    curl: seq<nat>,
    /** Responses of finished transfers, not yet handled. */
    queue: seq<Response>,
    sent: seq<Packet>,
    refusals: seq<Refusal>,
    cache: seq<CacheEntry>,
    counted: nat,
    failed: nat,
    finished: nat,
    /** History: every accepted request in order of arrival. */
    accepted: seq<Request>,
    /**
     History: what each of them has coming, as settled when it arrived. One final reply in general;
     none when its identifier was already waiting, so that the map did not take it; two when it was
     answered with an error although the map had taken it.
     */
    fates: seq<nat>,
    /** History: transfers refused, responses without a request, responses without a driver. */
    refused: nat,
    orphaned: nat,
    undriven: nat)

  function Start(drivers: map<int, int>): State {
    State(drivers, map[], [], [], [], [], [], 0, 0, 0, [], [], 0, 0, 0)
  }

  // ---------- replies ----------

  function Bounded(id: nat): (r: nat)
    ensures r <= MAX_ID
  {
    Uint32(id)
  }

  function ErrorBytes(id: nat, kind: int, code: Byte, what: Text): Option<Text> {
    if kind == TAGGED then Some(TaggedErrorReply(Bounded(id), code, what))
    else if kind == CNAM then Some(JsonErrorReply(Bounded(id), code, what))
    else None
  }

  function AnswerBytes(r: Request, a: Answer): Option<Text> {
    if r.kind == TAGGED then Some(TaggedReply(Bounded(r.id), a.lrn, a.tag))
    else if r.kind == CNAM then Some(JsonReply(Bounded(r.id), a.raw))
    else None
  }

  function Send(st: State, kind: PacketKind, r: Request, bytes: Option<Text>): State {
    if bytes.None? then st else st.(sent := st.sent + [Packet(kind, r.serial, r.client, bytes.value)])
  }

  function SendError(st: State, r: Request, code: Byte, what: Text): State {
    Send(st, Final, r, ErrorBytes(r.id, r.kind, code, what))
  }

  const UNKNOWN_DATABASE: Text := Ascii("unknown database id")
  const UNSUPPORTED_TYPE: Text := Ascii("request type is unsupported")
  const UNKNOWN_EXCEPTION: Text := Ascii("unknown resovling exception")

  /** The answer is counted, cached when the driver is a tagged one, and sent. */
  function Done(st: State, r: Request, a: Answer): State {
    var counted := st.(finished := st.finished + 1);
    var cached :=
      if r.db in st.drivers && st.drivers[r.db] == TAGGED then
        counted.(cache := st.cache + [CacheEntry(r.db, r.data, a)])
      else counted;
    Send(cached, Final, r, AnswerBytes(r, a))
  }

  function Fail(st: State): State {
    st.(failed := st.failed + 1)
  }

  // ---------- steps ----------

  /** A request is handed to the HTTP client; the map keeps an entry it already has for the identifier. */
  function Submit(st: State, r: Request, call: ClientCall): State {
    var kept := if r.id in st.waiting then st else st.(waiting := st.waiting[r.id := r]);
    match call
    case Taken => kept.(curl := st.curl + [r.id])
    case Refused => kept.(refused := st.refused + 1)
    case ClientThrows(what) => SendError(Fail(kept), r, GENERAL_RESOLVING_ERROR, what)
  }

  /** What an accepted request has coming, given the state it arrives in and what its driver does. */
  function Fate(st: State, r: Request, call: DriverCall): nat {
    if r.db in st.drivers && st.drivers[r.db] == r.kind && call.Sends? then
      if call.client.ClientThrows? then (if r.id in st.waiting then 1 else 2)
      else if r.id in st.waiting then 0 else 1
    else 1
  }

  function Resolve(st: State, r: Request, call: DriverCall): State {
    if r.db !in st.drivers then SendError(st, r, GENERAL_RESOLVING_ERROR, UNKNOWN_DATABASE)
    else if st.drivers[r.db] != r.kind then SendError(st, r, GENERAL_RESOLVING_ERROR, UNSUPPORTED_TYPE)
    else
      var counted := st.(counted := st.counted + 1);
      match call
      case Answers(a) => Done(counted, r, a)
      case DriverError(what) => SendError(Fail(counted), r, DRIVER_RESOLVING_ERROR, what)
      case OtherError => SendError(Fail(counted), r, GENERAL_RESOLVING_ERROR, UNKNOWN_EXCEPTION)
      case Sends(client) => Submit(counted, r, client)
  }

  function Arrive(st: State, datagram: Text, client: nat, call: DriverCall): State {
    match ReadRequest(datagram)
    case Rejected(id, kind, reason) =>
      (match ErrorBytes(id, kind, PSQL_INVALID_REQUEST, reason)
       case None => st
       case Some(bytes) => st.(refusals := st.refusals + [Refusal(client, bytes)]))
    case Accepted(id, db, kind, data) =>
      var r := Request(id, kind, db, client, data, |st.accepted|);
      var known := st.(accepted := st.accepted + [r], fates := st.fates + [Fate(st, r, call)]);
      Resolve(Send(known, Pong, r, Some(Le32(id))), r, call)
  }

  /** The client reports transfer `i` finished: it moves to the response queue. */
  function Finish(st: State, i: nat, success: bool, data: Text): State
    requires i < |st.curl|
  {
    st.(curl := st.curl[..i] + st.curl[i + 1..], queue := st.queue + [Response(st.curl[i], success, data)])
  }

  function Handle(st: State, r: Request, response: Response, call: ParseCall): State {
    if r.db !in st.drivers then
      SendError(st.(undriven := st.undriven + 1), r, GENERAL_RESOLVING_ERROR, UNKNOWN_DATABASE)
    else if st.drivers[r.db] != r.kind then
      SendError(st.(undriven := st.undriven + 1), r, GENERAL_RESOLVING_ERROR, UNSUPPORTED_TYPE)
    else if !response.success then SendError(Fail(st), r, GENERAL_RESOLVING_ERROR, response.data)
    else
      match call
      case Parses(a) => Done(st, r, a)
      case ParseError(what) => SendError(Fail(st), r, DRIVER_RESOLVING_ERROR, what)
      case ParseBreaks => SendError(Fail(st), r, GENERAL_RESOLVING_ERROR, UNKNOWN_EXCEPTION)
  }

  /** A response finds its request and takes it out of the map. */
  function Respond(st: State, response: Response, call: ParseCall): State {
    if response.id !in st.waiting then st.(orphaned := st.orphaned + 1)
    else
      var r := st.waiting[response.id];
      Handle(st.(waiting := st.waiting - {response.id}), r, response, call)
  }

  /** The response at the head of the queue is handled. */
  function Deliver(st: State, call: ParseCall): State
    requires st.queue != []
  {
    Respond(st.(queue := st.queue[1..]), st.queue[0], call)
  }

  datatype Step =
    | Datagram(bytes: Text, client: nat, driver: DriverCall)
    | Finished(index: nat, success: bool, data: Text)
    | Delivered(parse: ParseCall)
    | Reloaded(drivers: map<int, int>)

  predicate Enabled(st: State, s: Step) {
    match s
    case Finished(i, _, _) => i < |st.curl|
    case Delivered(_) => st.queue != []
    case _ => true
  }

  function Apply(st: State, s: Step): State
    requires Enabled(st, s)
  {
    match s
    case Datagram(bytes, client, driver) => Arrive(st, bytes, client, driver)
    case Finished(i, success, data) => Finish(st, i, success, data)
    case Delivered(parse) => Deliver(st, parse)
    case Reloaded(drivers) => st.(drivers := drivers)
  }

  /** The runs from a state: every step enabled where it is taken. */
  predicate IsRun(st: State, steps: seq<Step>)
    decreases |steps|
  {
    steps == [] || (Enabled(st, steps[0]) && IsRun(Apply(st, steps[0]), steps[1..]))
  }

  function Run(st: State, steps: seq<Step>): State
    requires IsRun(st, steps)
    decreases |steps|
  {
    if steps == [] then st else Run(Apply(st, steps[0]), steps[1..])
  }
}
