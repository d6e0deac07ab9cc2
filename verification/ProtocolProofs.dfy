/** What every run of the request protocol keeps. */
module ProtocolProofs {
  import opened Wrappers
  import opened Bytes
  import opened Wire
  import opened Protocol

  // ---------- counting packets ----------

  function PacketsOf(sent: seq<Packet>, kind: PacketKind, serial: nat): nat {
    if sent == [] then 0
    else
      var last := sent[|sent| - 1];
      PacketsOf(sent[..|sent| - 1], kind, serial) + if last.kind == kind && last.about == serial then 1 else 0
  }

  function Finals(sent: seq<Packet>): nat {
    if sent == [] then 0
    else Finals(sent[..|sent| - 1]) + if sent[|sent| - 1].kind == Final then 1 else 0
  }

  lemma PacketAdded(sent: seq<Packet>, p: Packet, kind: PacketKind, serial: nat)
    ensures PacketsOf(sent + [p], kind, serial)
            == PacketsOf(sent, kind, serial) + if p.kind == kind && p.about == serial then 1 else 0
    ensures Finals(sent + [p]) == Finals(sent) + if p.kind == Final then 1 else 0
  {
    assert (sent + [p])[..|sent|] == sent;
  }

  lemma {:induction false} NoPacketAbout(sent: seq<Packet>, kind: PacketKind, serial: nat)
    requires forall k :: 0 <= k < |sent| ==> sent[k].about != serial
    ensures PacketsOf(sent, kind, serial) == 0
  {
    if sent != [] {
      NoPacketAbout(sent[..|sent| - 1], kind, serial);
    }
  }

  function Sum(fates: seq<nat>): nat {
    if fates == [] then 0 else Sum(fates[..|fates| - 1]) + fates[|fates| - 1]
  }

  lemma SumAdded(fates: seq<nat>, n: nat)
    ensures Sum(fates + [n]) == Sum(fates) + n
  {
    assert (fates + [n])[..|fates|] == fates;
  }

  // ---------- the invariant ----------

  /** The request `serial` is in the map. */
  ghost predicate Waits(st: State, serial: nat)
    requires serial < |st.accepted|
  {
    var id := st.accepted[serial].id;
    id in st.waiting && st.waiting[id].serial == serial
  }

  /** Every packet goes to the sender of the datagram it is about and starts with its identifier. */
  ghost predicate Addressed(st: State, p: Packet) {
    && p.about < |st.accepted|
    && p.to == st.accepted[p.about].client
    && |p.bytes| >= 4
    && p.bytes[..4] == Le32(Bounded(st.accepted[p.about].id))
  }

  ghost predicate KnownRequests(st: State) {
    && |st.fates| == |st.accepted|
    && (forall s :: 0 <= s < |st.accepted| ==>
          st.accepted[s].serial == s && st.accepted[s].id <= MAX_ID
          && (st.accepted[s].kind == TAGGED || st.accepted[s].kind == CNAM))
    && (forall id :: id in st.waiting ==>
          st.waiting[id].id == id && st.waiting[id].serial < |st.accepted|
          && st.waiting[id] == st.accepted[st.waiting[id].serial])
  }

  /** One pong per accepted datagram, and final replies plus its place in the map make up its fate. */
  ghost predicate Fated(st: State, s: nat)
    requires |st.fates| == |st.accepted| && s < |st.accepted|
  {
    && PacketsOf(st.sent, Pong, s) == 1
    && PacketsOf(st.sent, Final, s) + (if Waits(st, s) then 1 else 0) == st.fates[s]
  }

  /** Each transfer a request was counted for is still under way or has been accounted for once. */
  ghost predicate Counted(st: State) {
    st.counted
    == st.finished + st.failed + |st.curl| + |st.queue| + st.refused + st.orphaned + st.undriven
  }

  /** A final reply is only ever sent after the pong of the same request. */
  ghost predicate PongFirst(sent: seq<Packet>) {
    forall k :: 0 <= k < |sent| && sent[k].kind == Final ==> PacketsOf(sent[..k], Pong, sent[k].about) == 1
  }

  lemma PongFirstAdded(sent: seq<Packet>, p: Packet)
    requires PongFirst(sent)
    requires p.kind == Final ==> PacketsOf(sent, Pong, p.about) == 1
    ensures PongFirst(sent + [p])
  {
    hide PacketsOf;
    forall k | 0 <= k < |sent + [p]| && (sent + [p])[k].kind == Final
      ensures PacketsOf((sent + [p])[..k], Pong, (sent + [p])[k].about) == 1
    {
      if k < |sent| {
        assert (sent + [p])[..k] == sent[..k];
      } else {
        assert (sent + [p])[..k] == sent;
      }
    }
  }

  ghost predicate Invariant(st: State) {
    && KnownRequests(st)
    && PongFirst(st.sent)
    && (forall k :: 0 <= k < |st.sent| ==> Addressed(st, st.sent[k]))
    && (forall s :: 0 <= s < |st.accepted| ==> Fated(st, s))
    && Finals(st.sent) + |st.waiting| == Sum(st.fates)
    && Counted(st)
  }

  lemma StartKeeps(drivers: map<int, int>)
    ensures Invariant(Start(drivers))
  {
  }

  // ---------- what replies look like ----------

  lemma ReplyHeads(id: nat, code: Byte, what: Text, a: Answer, json: Text)
    requires id <= MAX_ID
    ensures |TaggedErrorReply(id, code, what)| >= 4 && TaggedErrorReply(id, code, what)[..4] == Le32(id)
    ensures |JsonReply(id, json)| >= 4 && JsonReply(id, json)[..4] == Le32(id)
    ensures |TaggedReply(id, a.lrn, a.tag)| >= 4 && TaggedReply(id, a.lrn, a.tag)[..4] == Le32(id)
  {
  }

  /** A reply of either kind exists for every accepted request and starts with its identifier. */
  lemma RepliesExist(r: Request, code: Byte, what: Text, a: Answer)
    requires r.id <= MAX_ID && (r.kind == TAGGED || r.kind == CNAM)
    ensures var e := ErrorBytes(r.id, r.kind, code, what);
            e.Some? && |e.value| >= 4 && e.value[..4] == Le32(Bounded(r.id))
    ensures var b := AnswerBytes(r, a);
            b.Some? && |b.value| >= 4 && b.value[..4] == Le32(Bounded(r.id))
  {
    hide TaggedErrorReply, TaggedReply, JsonReply, ErrorBody, Le32;
    ReplyHeads(r.id, code, what, a, ErrorBody(code, what));
    ReplyHeads(r.id, code, what, a, a.raw);
  }

  // ---------- one final reply ----------

  /** Everything but one final reply, and possibly counters and the cache, is as before. */
  ghost predicate OneFinal(st: State, st': State, r: Request) {
    && st'.waiting == st.waiting && st'.accepted == st.accepted && st'.fates == st.fates
    && |st'.sent| == |st.sent| + 1 && st'.sent[..|st.sent|] == st.sent
    && var p := st'.sent[|st.sent|];
       p.kind == Final && p.about == r.serial && p.to == r.client && |p.bytes| >= 4
       && p.bytes[..4] == Le32(Bounded(r.id))
  }

  lemma SendErrorIsFinal(st: State, r: Request, code: Byte, what: Text)
    requires r.id <= MAX_ID && (r.kind == TAGGED || r.kind == CNAM)
    ensures var st' := SendError(st, r, code, what);
            OneFinal(st, st', r) && st' == st.(sent := st'.sent)
  {
    hide ErrorBytes;
    RepliesExist(r, code, what, Answer([], [], []));
  }

  lemma DoneIsFinal(st: State, r: Request, a: Answer)
    requires r.id <= MAX_ID && (r.kind == TAGGED || r.kind == CNAM)
    ensures var st' := Done(st, r, a);
            OneFinal(st, st', r)
            && st' == st.(sent := st'.sent, cache := st'.cache, finished := st.finished + 1)
  {
    hide AnswerBytes;
    RepliesExist(r, 0, [], a);
  }

  /** `st` owes request `r` one final reply more than the invariant allows. */
  ghost predicate Owes(st: State, r: Request) {
    && KnownRequests(st)
    && PongFirst(st.sent)
    && r.serial < |st.accepted| && st.accepted[r.serial] == r
    && (forall k :: 0 <= k < |st.sent| ==> Addressed(st, st.sent[k]))
    && (forall s :: 0 <= s < |st.accepted| ==>
          PacketsOf(st.sent, Pong, s) == 1
          && PacketsOf(st.sent, Final, s) + (if Waits(st, s) then 1 else 0) + (if s == r.serial then 1 else 0)
             == st.fates[s])
    && Finals(st.sent) + |st.waiting| + 1 == Sum(st.fates)
  }

  /** Paying the reply that is owed restores the invariant, up to the counters. */
  lemma FinalPays(st: State, st': State, r: Request)
    requires Owes(st, r) && OneFinal(st, st', r) && Counted(st')
    ensures Invariant(st')
  {
    hide PongFirst, PacketsOf, Finals, Le32;
    var p := st'.sent[|st.sent|];
    assert st'.sent == st.sent + [p];
    PacketAdded(st.sent, p, Final, 0);
    PongFirstAdded(st.sent, p);
    forall s | 0 <= s < |st.accepted| ensures Fated(st', s) {
      PacketAdded(st.sent, p, Pong, s);
      PacketAdded(st.sent, p, Final, s);
      assert Waits(st', s) == Waits(st, s);
    }
    forall k | 0 <= k < |st'.sent| ensures Addressed(st', st'.sent[k]) {
      if k < |st.sent| {
        assert Addressed(st, st.sent[k]);
      }
    }
  }

  // ---------- arrival ----------

  /** The state after the pong of a newly accepted request, whose fate is `fate`. */
  function Ponged(st: State, r: Request, fate: nat): State
    requires r.id <= MAX_ID
  {
    Send(st.(accepted := st.accepted + [r], fates := st.fates + [fate]), Pong, r, Some(Le32(r.id)))
  }

  /** The new request has one pong, no final reply, is not in the map, and its fate is still to come. */
  ghost predicate JustPonged(st: State, r: Request, fate: nat) {
    && KnownRequests(st) && PongFirst(st.sent)
    && |st.accepted| == r.serial + 1 && st.accepted[r.serial] == r && st.fates[r.serial] == fate
    && (forall k :: 0 <= k < |st.sent| ==> Addressed(st, st.sent[k]))
    && (forall s :: 0 <= s < r.serial ==> Fated(st, s))
    && PacketsOf(st.sent, Pong, r.serial) == 1 && PacketsOf(st.sent, Final, r.serial) == 0
    && !Waits(st, r.serial)
    && Finals(st.sent) + |st.waiting| + fate == Sum(st.fates)
    && Counted(st)
  }

  lemma PongedHolds(st: State, r: Request, fate: nat)
    requires Invariant(st) && r.id <= MAX_ID && (r.kind == TAGGED || r.kind == CNAM)
    requires r.serial == |st.accepted|
    ensures JustPonged(Ponged(st, r, fate), r, fate)
  {
    hide PongFirst, PacketsOf, Finals, Le32, Sum;
    var st' := Ponged(st, r, fate);
    var p := Packet(Pong, r.serial, r.client, Le32(r.id));
    assert st'.sent == st.sent + [p];
    SumAdded(st.fates, fate);
    PongFirstAdded(st.sent, p);
    forall s | 0 <= s < |st.accepted| ensures Fated(st', s) {
      PacketAdded(st.sent, p, Pong, s);
      PacketAdded(st.sent, p, Final, s);
      assert Fated(st, s);
      assert Waits(st', s) == Waits(st, s);
    }
    forall k | 0 <= k < |st'.sent| ensures Addressed(st', st'.sent[k]) {
      if k < |st.sent| {
        assert Addressed(st, st.sent[k]);
      }
    }
    forall k | 0 <= k < |st.sent| ensures st.sent[k].about != r.serial {
      assert Addressed(st, st.sent[k]);
    }
    PacketAdded(st.sent, p, Pong, r.serial);
    PacketAdded(st.sent, p, Final, r.serial);
    NoPacketAbout(st.sent, Pong, r.serial);
    NoPacketAbout(st.sent, Final, r.serial);
  }

  /** A request whose fate is one reply and which is not put in the map owes that reply. */
  lemma PongedOwes(st: State, r: Request)
    requires Invariant(st) && r.id <= MAX_ID && (r.kind == TAGGED || r.kind == CNAM)
    requires r.serial == |st.accepted|
    ensures Owes(Ponged(st, r, 1), r)
  {
    hide Ponged, JustPonged, Owes, Invariant;
    PongedHolds(st, r, 1);
    UnstoredOwes(Ponged(st, r, 1), r, 1);
  }

  /** The map is left as it is: the fate is to be paid by a reply, or is none. */
  lemma UnstoredOwes(p: State, r: Request, fate: nat)
    requires JustPonged(p, r, fate) && fate <= 1
    ensures if fate == 0 then Invariant(p) else Owes(p, r)
  {
    hide PongFirst, PacketsOf, Finals, Sum;
    forall s | 0 <= s < |p.accepted|
      ensures PacketsOf(p.sent, Pong, s) == 1
      ensures PacketsOf(p.sent, Final, s) + (if Waits(p, s) then 1 else 0) + (if s == r.serial then fate else 0)
              == p.fates[s]
    {
      if s < r.serial {
        assert Fated(p, s);
      }
    }
    if fate == 0 {
      forall s | 0 <= s < |p.accepted| ensures Fated(p, s) {
      }
    }
  }

  /** The request is put in the map, where its identifier was not: one reply less is to come at once. */
  lemma StoredOwes(p: State, r: Request, fate: nat)
    requires JustPonged(p, r, fate) && 1 <= fate <= 2 && r.id !in p.waiting
    ensures JustStored(p.(waiting := p.waiting[r.id := r]), r, fate)
  {
    hide PongFirst, PacketsOf, Finals, Sum;
    var kept := p.(waiting := p.waiting[r.id := r]);
    AddedSize(p.waiting, r);
    forall s | 0 <= s < r.serial ensures Fated(kept, s) {
      assert Fated(p, s);
      assert Waits(kept, s) == Waits(p, s);
    }
    forall k | 0 <= k < |p.sent| ensures Addressed(kept, kept.sent[k]) {
      assert Addressed(p, p.sent[k]);
    }
  }

  ghost predicate JustStored(st: State, r: Request, fate: nat) {
    && KnownRequests(st) && PongFirst(st.sent)
    && |st.accepted| == r.serial + 1 && st.accepted[r.serial] == r && st.fates[r.serial] == fate
    && (forall k :: 0 <= k < |st.sent| ==> Addressed(st, st.sent[k]))
    && (forall s :: 0 <= s < r.serial ==> Fated(st, s))
    && PacketsOf(st.sent, Pong, r.serial) == 1 && PacketsOf(st.sent, Final, r.serial) == 0
    && Waits(st, r.serial)
    && Finals(st.sent) + |st.waiting| + fate == Sum(st.fates) + 1
    && Counted(st)
  }

  lemma StoredSettles(st: State, r: Request, fate: nat)
    requires JustStored(st, r, fate) && 1 <= fate <= 2
    ensures if fate == 1 then Invariant(st) else Owes(st, r)
  {
    hide PongFirst, PacketsOf, Finals, Sum;
    forall s | 0 <= s < |st.accepted|
      ensures PacketsOf(st.sent, Pong, s) == 1
      ensures PacketsOf(st.sent, Final, s) + (if Waits(st, s) then 1 else 0) + (if s == r.serial then fate - 1 else 0)
              == st.fates[s]
    {
      if s < r.serial {
        assert Fated(st, s);
      }
    }
    if fate == 1 {
      forall s | 0 <= s < |st.accepted| ensures Fated(st, s) {
      }
    }
  }

  /** Putting the request in the map, where it was not, or leaving the map as it is. */
  lemma EmplaceHolds(st: State, r: Request, fate: nat, rest: nat)
    requires Invariant(st) && r.id <= MAX_ID && (r.kind == TAGGED || r.kind == CNAM)
    requires r.serial == |st.accepted|
    requires fate == rest + if r.id in st.waiting then 0 else 1
    requires rest <= 1
    ensures var p := Ponged(st, r, fate);
            var kept := if r.id in p.waiting then p else p.(waiting := p.waiting[r.id := r]);
            (rest == 0 ==> Invariant(kept)) && (rest == 1 ==> Owes(kept, r))
  {
    hide Ponged, JustPonged, JustStored, Owes, Invariant;
    PongedHolds(st, r, fate);
    PongedWaiting(st, r, fate);
    var p := Ponged(st, r, fate);
    if r.id in st.waiting {
      UnstoredOwes(p, r, fate);
    } else {
      StoredOwes(p, r, fate);
      StoredSettles(p.(waiting := p.waiting[r.id := r]), r, fate);
    }
  }

  lemma PongedWaiting(st: State, r: Request, fate: nat)
    requires r.id <= MAX_ID
    ensures Ponged(st, r, fate).waiting == st.waiting && Ponged(st, r, fate).drivers == st.drivers
  {
  }

  /** Counters moving together leave the requests and replies alone. */
  lemma OnlyCounters(st: State, st': State, r: Request)
    requires st'.waiting == st.waiting && st'.accepted == st.accepted && st'.fates == st.fates && st'.sent == st.sent
    ensures Owes(st, r) ==> Owes(st', r)
    ensures Invariant(st) && Counted(st') ==> Invariant(st')
  {
    hide PongFirst, PacketsOf, Finals, Sum;
    if Owes(st, r) {
      forall k | 0 <= k < |st'.sent| ensures Addressed(st', st'.sent[k]) {
        assert Addressed(st, st.sent[k]);
      }
      forall s | 0 <= s < |st'.accepted| ensures Waits(st', s) == Waits(st, s) {
      }
    }
    if Invariant(st) {
      forall k | 0 <= k < |st'.sent| ensures Addressed(st', st'.sent[k]) {
        assert Addressed(st, st.sent[k]);
      }
      forall s | 0 <= s < |st'.accepted| ensures Fated(st', s) {
        assert Fated(st, s) && Waits(st', s) == Waits(st, s);
      }
    }
  }

  lemma ErrorPays(st: State, r: Request, code: Byte, what: Text)
    requires Owes(st, r) && Counted(st)
    ensures Invariant(SendError(st, r, code, what))
  {
    hide Owes, Invariant, PacketsOf, SendError;
    OwesBounded(st, r);
    SendErrorIsFinal(st, r, code, what);
    FinalPays(st, SendError(st, r, code, what), r);
  }

  lemma OwesBounded(st: State, r: Request)
    requires Owes(st, r)
    ensures r.id <= MAX_ID && (r.kind == TAGGED || r.kind == CNAM)
  {
  }

  lemma AnswerPays(st: State, r: Request, a: Answer)
    requires Owes(st, r) && Counted(st.(finished := st.finished + 1))
    ensures Invariant(Done(st, r, a))
  {
    hide Owes, Invariant, PacketsOf, Done;
    OwesBounded(st, r);
    DoneIsFinal(st, r, a);
    FinalPays(st, Done(st, r, a), r);
  }

  /** Handing an accepted request to its driver settles its fate. */
  lemma ResolveKeeps(st: State, r: Request, call: DriverCall)
    requires Invariant(st) && r.id <= MAX_ID && (r.kind == TAGGED || r.kind == CNAM) && r.serial == |st.accepted|
    ensures Invariant(Resolve(Ponged(st, r, Fate(st, r, call)), r, call))
  {
    hide Owes, Invariant, Ponged, SendError, Done;
    var fate := Fate(st, r, call);
    var p := Ponged(st, r, fate);
    PongedWaiting(st, r, fate);
    PongedCounters(st, r, fate);
    InvariantCounts(st);
    if r.db !in st.drivers {
      PongedOwes(st, r);
      ErrorPays(p, r, GENERAL_RESOLVING_ERROR, UNKNOWN_DATABASE);
    } else if st.drivers[r.db] != r.kind {
      PongedOwes(st, r);
      ErrorPays(p, r, GENERAL_RESOLVING_ERROR, UNSUPPORTED_TYPE);
    } else {
      var counted := p.(counted := p.counted + 1);
      match call
      case Answers(a) =>
        PongedOwes(st, r);
        OnlyCounters(p, counted, r);
        AnswerPays(counted, r, a);
      case DriverError(what) =>
        PongedOwes(st, r);
        OnlyCounters(p, Fail(counted), r);
        ErrorPays(Fail(counted), r, DRIVER_RESOLVING_ERROR, what);
      case OtherError =>
        PongedOwes(st, r);
        OnlyCounters(p, Fail(counted), r);
        ErrorPays(Fail(counted), r, GENERAL_RESOLVING_ERROR, UNKNOWN_EXCEPTION);
      case Sends(client) => SubmitKeeps(st, r, client, fate);
    }
  }

  lemma InvariantCounts(st: State)
    requires Invariant(st)
    ensures Counted(st)
  {
  }

  lemma PongedCounters(st: State, r: Request, fate: nat)
    requires r.id <= MAX_ID
    ensures var p := Ponged(st, r, fate); Counted(p) == Counted(st)
  {
  }

  lemma SubmitKeeps(st: State, r: Request, client: ClientCall, fate: nat)
    requires Invariant(st) && r.id <= MAX_ID && (r.kind == TAGGED || r.kind == CNAM) && r.serial == |st.accepted|
    requires fate == (if client.ClientThrows? then 1 else 0) + if r.id in st.waiting then 0 else 1
    ensures var p := Ponged(st, r, fate); Invariant(Submit(p.(counted := p.counted + 1), r, client))
  {
    hide Owes, Invariant, Ponged, SendError;
    var p := Ponged(st, r, fate);
    PongedCounters(st, r, fate);
    PongedWaiting(st, r, fate);
    InvariantCounts(st);
    EmplaceHolds(st, r, fate, if client.ClientThrows? then 1 else 0);
    var kept := if r.id in p.waiting then p else p.(waiting := p.waiting[r.id := r]);
    var counted := p.(counted := p.counted + 1);
    OnlyCounters(kept, Submit(counted, r, Taken), r);
    OnlyCounters(kept, Submit(counted, r, Refused), r);
    match client
    case ClientThrows(what) =>
      var failed := Fail(kept).(counted := p.counted + 1);
      OnlyCounters(kept, failed, r);
      ErrorPays(failed, r, GENERAL_RESOLVING_ERROR, what);
    case _ =>
  }

  lemma ArriveKeeps(st: State, bytes: Text, client: nat, call: DriverCall)
    requires Invariant(st)
    ensures Invariant(Arrive(st, bytes, client, call))
  {
    hide Resolve, ErrorBytes;
    match ReadRequest(bytes)
    case Rejected(id, kind, reason) =>
      OnlyCounters(st, Arrive(st, bytes, client, call), Request(0, 0, 0, 0, [], 0));
    case Accepted(id, db, kind, data) =>
      ReadRequestKind(bytes);
      ResolveKeeps(st, Request(id, kind, db, client, data, |st.accepted|), call);
  }

  lemma ReadRequestKind(bytes: Text)
    ensures ReadRequest(bytes).Accepted? ==> ReadRequest(bytes).kind == TAGGED || ReadRequest(bytes).kind == CNAM
  {
  }

  // ---------- the other steps ----------

  lemma FinishKeeps(st: State, i: nat, success: bool, data: Text)
    requires Invariant(st) && i < |st.curl|
    ensures Invariant(Finish(st, i, success, data))
  {
    OnlyCounters(st, Finish(st, i, success, data), Request(0, 0, 0, 0, [], 0));
  }

  lemma RemovedSize(m: map<nat, Request>, id: nat)
    requires id in m
    ensures |m - {id}| == |m| - 1
    ensures forall k :: k in m - {id} ==> k in m && k != id && (m - {id})[k] == m[k]
    ensures forall k :: k in m && k != id ==> k in m - {id}
  {
    assert (m - {id}).Keys == m.Keys - {id};
    assert |(m - {id}).Keys| == |m.Keys| - 1;
    assert |m| == |m.Keys| && |m - {id}| == |(m - {id}).Keys|;
  }

  lemma AddedSize(m: map<nat, Request>, r: Request)
    requires r.id !in m
    ensures |m[r.id := r]| == |m| + 1
  {
    assert m[r.id := r].Keys == m.Keys + {r.id};
    assert |m| == |m.Keys| && |m[r.id := r]| == |m[r.id := r].Keys|;
  }

  /** Taking a request out of the map leaves its final reply owed. */
  lemma RemovedOwes(st: State, id: nat)
    requires Invariant(st) && id in st.waiting
    ensures Owes(st.(waiting := st.waiting - {id}), st.waiting[id])
  {
    hide PongFirst, PacketsOf, Finals, Sum;
    var r, st' := st.waiting[id], st.(waiting := st.waiting - {id});
    RemovedSize(st.waiting, id);
    forall s | 0 <= s < |st.accepted|
      ensures PacketsOf(st'.sent, Pong, s) == 1
      ensures PacketsOf(st'.sent, Final, s) + (if Waits(st', s) then 1 else 0) + (if s == r.serial then 1 else 0)
              == st'.fates[s]
    {
      assert Fated(st, s);
    }
    forall k | 0 <= k < |st'.sent| ensures Addressed(st', st'.sent[k]) {
      assert Addressed(st, st.sent[k]);
    }
  }

  lemma DeliverKeeps(st: State, call: ParseCall)
    requires Invariant(st) && st.queue != []
    ensures Invariant(Deliver(st, call))
  {
    hide Owes, Invariant, SendError, Done;
    InvariantCounts(st);
    var response := st.queue[0];
    var popped := st.(queue := st.queue[1..]);
    if response.id !in st.waiting {
      OnlyCounters(st, Deliver(st, call), Request(0, 0, 0, 0, [], 0));
    } else {
      var r := st.waiting[response.id];
      RemovedOwes(st, response.id);
      var removed := st.(waiting := st.waiting - {response.id});
      var base := popped.(waiting := st.waiting - {response.id});
      OnlyCounters(removed, base, r);
      OnlyCounters(base, Fail(base), r);
      OnlyCounters(base, base.(undriven := base.undriven + 1), r);
      HandleKeeps(base, r, response, call);
    }
  }

  lemma HandleKeeps(base: State, r: Request, response: Response, call: ParseCall)
    requires Owes(base, r) && Owes(Fail(base), r) && Owes(base.(undriven := base.undriven + 1), r)
    requires Counted(Fail(base))
    ensures Invariant(Handle(base, r, response, call))
  {
    hide Owes, Invariant, SendError, Done;
    var lost := base.(undriven := base.undriven + 1);
    if r.db !in base.drivers {
      ErrorPays(lost, r, GENERAL_RESOLVING_ERROR, UNKNOWN_DATABASE);
    } else if base.drivers[r.db] != r.kind {
      ErrorPays(lost, r, GENERAL_RESOLVING_ERROR, UNSUPPORTED_TYPE);
    } else if !response.success {
      ErrorPays(Fail(base), r, GENERAL_RESOLVING_ERROR, response.data);
    } else {
      match call
      case Parses(a) => AnswerPays(base, r, a);
      case ParseError(what) => ErrorPays(Fail(base), r, DRIVER_RESOLVING_ERROR, what);
      case ParseBreaks => ErrorPays(Fail(base), r, GENERAL_RESOLVING_ERROR, UNKNOWN_EXCEPTION);
    }
  }

  lemma StepKeeps(st: State, s: Step)
    requires Invariant(st) && Enabled(st, s)
    ensures Invariant(Apply(st, s))
  {
    hide Arrive, Deliver, Finish, Invariant;
    InvariantCounts(st);
    match s
    case Datagram(bytes, client, driver) => ArriveKeeps(st, bytes, client, driver);
    case Finished(i, success, data) => FinishKeeps(st, i, success, data);
    case Delivered(parse) => DeliverKeeps(st, parse);
    case Reloaded(drivers) => OnlyCounters(st, Apply(st, s), Request(0, 0, 0, 0, [], 0));
  }

  /** The invariant holds in every state any run reaches: no hypothesis on identifiers, reloads or failures. */
  lemma {:induction false} RunKeeps(st: State, steps: seq<Step>)
    requires Invariant(st) && IsRun(st, steps)
    ensures Invariant(Run(st, steps))
    decreases |steps|
  {
    hide Invariant, Apply;
    if steps != [] {
      StepKeeps(st, steps[0]);
      RunKeeps(Apply(st, steps[0]), steps[1..]);
    }
  }
}
