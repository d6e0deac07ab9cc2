/** The datagrams of the resolver: how requests are read and how replies are laid out. */
module Wire {
  import opened Bytes
  import opened JsonNumber

  const TAGGED: int := 0
  const CNAM: int := 1
  /** Type of a request that was too short to have one: no reply is ever sent for it. */
  const UNTYPED: int := -1

  // Error codes carried by replies.
  const NO_ERROR: Byte := 0
  const PSQL_INVALID_REQUEST: Byte := 11
  const GENERAL_RESOLVING_ERROR: Byte := 21
  const DRIVER_RESOLVING_ERROR: Byte := 22

  const REQUEST_HEADER: nat := 6
  const TAGGED_HEADER: nat := 7
  const CNAM_HEADER: nat := 10
  const MAX_ID: nat := 0xFFFF_FFFF

  function Ascii(s: string): Text {
    seq(|s|, i requires 0 <= i < |s| => (s[i] as int) % 256)
  }

  /** A 32-bit field in memory order, least significant byte first. */
  function Le32(n: nat): (t: Text)
    requires n <= MAX_ID
    ensures |t| == 4
  {
    [n % 256, n / 256 % 256, n / 256 / 256 % 256, n / 256 / 256 / 256]
  }

  function ReadLe32(t: Text, i: nat): (n: nat)
    requires i + 4 <= |t|
    ensures n <= MAX_ID
  {
    var a, b, c, d: nat := t[i], t[i + 1], t[i + 2], t[i + 3];
    a + 256 * (b + 256 * (c + 256 * d))
  }

  lemma Le32RoundTrip(n: nat, after: Text)
    requires n <= MAX_ID
    ensures ReadLe32(Le32(n) + after, 0) == n
  {
    var b := n / 256;
    var c := b / 256;
    assert n == n % 256 + 256 * b;
    assert b == b % 256 + 256 * c;
    assert c == c % 256 + 256 * (c / 256);
  }

  // ---------- requests ----------

  datatype Incoming =
    | Accepted(id: nat, db: Byte, kind: int, data: Text)
    /** The identifier and type a refusal is addressed with; the type decides whether there is one. */
    | Rejected(id: nat, kind: int, reason: Text)

  /** What the request object holds after parsing a datagram, and whether parsing succeeded. */
  function ReadRequest(t: Text): (r: Incoming)
    ensures r.id <= MAX_ID
  {
    if |t| < REQUEST_HEADER then Rejected(MAX_ID, UNTYPED, Ascii("request is too small"))
    else
      var id, db, kind := ReadLe32(t, 0), t[4], t[5];
      if kind == TAGGED then
        if |t| < TAGGED_HEADER then Rejected(id, TAGGED, Ascii("request is too small"))
        else ReadPayload(t, id, db, TAGGED, TAGGED_HEADER, t[6])
      else if kind == CNAM then
        if |t| < CNAM_HEADER then Rejected(id, CNAM, Ascii("request is too small"))
        else ReadPayload(t, id, db, CNAM, CNAM_HEADER, ReadLe32(t, 6))
      else Rejected(id, TAGGED, Ascii("unknown request type"))
  }

  function ReadPayload(t: Text, id: nat, db: Byte, kind: int, from: nat, length: nat): Incoming {
    if from + length > |t| then Rejected(id, kind, Ascii("malformed request"))
    else Accepted(id, db, kind, t[from..from + length])
  }

  /** The fields of a request object, assigned one after the other while a datagram is read. */
  class ResolverRequest {
    var id: nat
    var kind: int
    var db: int
    var data: Text

    constructor ()
      ensures id == MAX_ID && kind == UNTYPED && db == -1 && data == []
    {
      id, kind, db, data := MAX_ID, UNTYPED, -1, [];
    }

    /** Whether the datagram was accepted; otherwise the reason. The fields read so far stay set. */
    method Parse(t: Text) returns (ok: bool, reason: Text)
      requires id == MAX_ID && kind == UNTYPED
      modifies this
      ensures match ReadRequest(t)
              case Accepted(i, d, k, payload) => ok && id == i && db == d && kind == k && data == payload
              case Rejected(i, k, why) => !ok && id == i && kind == k && reason == why
    {
      if |t| < REQUEST_HEADER {
        return false, Ascii("request is too small");
      }
      id := ReadLe32(t, 0);
      db := t[4];
      kind := t[5];
      var dataOffset, dataLength: nat := 0, 0;
      if kind == TAGGED {
        if |t| < TAGGED_HEADER {
          return false, Ascii("request is too small");
        }
        dataOffset, dataLength := TAGGED_HEADER, t[6];
      } else if kind == CNAM {
        if |t| < CNAM_HEADER {
          return false, Ascii("request is too small");
        }
        dataOffset, dataLength := CNAM_HEADER, ReadLe32(t, 6);
      } else {
        kind := TAGGED;
        return false, Ascii("unknown request type");
      }
      if dataOffset + dataLength > |t| {
        return false, Ascii("malformed request");
      }
      data := t[dataOffset..dataOffset + dataLength];
      return true, [];
    }
  }

  /** The layouts clients send: a tagged payload has a one-byte size, a CNAM payload a four-byte size. */
  function TaggedRequest(id: nat, db: Byte, payload: Text): Text
    requires id <= MAX_ID && |payload| <= 255
  {
    Le32(id) + [db, TAGGED as Byte, |payload|] + payload
  }

  function CnamRequest(id: nat, db: Byte, payload: Text): Text
    requires id <= MAX_ID && |payload| <= MAX_ID
  {
    Le32(id) + [db, CNAM as Byte] + Le32(|payload|) + payload
  }

  /** Both layouts are read back for any bytes behind the payload. */
  lemma TaggedRequestRoundTrip(id: nat, db: Byte, payload: Text, trailing: Text)
    requires id <= MAX_ID && |payload| <= 255
    ensures ReadRequest(TaggedRequest(id, db, payload) + trailing) == Accepted(id, db, TAGGED, payload)
  {
    var t := TaggedRequest(id, db, payload) + trailing;
    var rest := [db, TAGGED as Byte, |payload|] + payload + trailing;
    assert t == Le32(id) + rest;
    Le32RoundTrip(id, rest);
    assert t[4] == db && t[5] == TAGGED && t[6] == |payload|;
    assert t[TAGGED_HEADER..TAGGED_HEADER + |payload|] == payload;
  }

  lemma CnamRequestRoundTrip(id: nat, db: Byte, payload: Text, trailing: Text)
    requires id <= MAX_ID && |payload| <= MAX_ID
    ensures ReadRequest(CnamRequest(id, db, payload) + trailing) == Accepted(id, db, CNAM, payload)
  {
    var size := Le32(|payload|);
    var t := CnamRequest(id, db, payload) + trailing;
    var rest := [db, CNAM as Byte] + size + payload + trailing;
    assert t == Le32(id) + rest;
    Le32RoundTrip(id, rest);
    Le32RoundTrip(|payload|, []);
    assert size + [] == size;
    assert t[4] == db && t[5] == CNAM;
    assert t[6] == size[0] && t[7] == size[1] && t[8] == size[2] && t[9] == size[3];
    assert t[CNAM_HEADER..CNAM_HEADER + |payload|] == payload;
  }

  lemma ReadThenLay(t: Text, i: nat)
    requires i + 4 <= |t|
    ensures Le32(ReadLe32(t, i)) == t[i..i + 4]
  {
    var a, b, c, d: nat := t[i], t[i + 1], t[i + 2], t[i + 3];
    var high2 := c + 256 * d;
    var high1 := b + 256 * high2;
    var n := a + 256 * high1;
    assert n % 256 == a && n / 256 == high1;
    assert high1 % 256 == b && high1 / 256 == high2;
    assert high2 % 256 == c && high2 / 256 == d;
  }

  /** Nothing else is accepted: a datagram that is accepted is one of the two layouts and some bytes more. */
  lemma AcceptedIsWellSized(t: Text)
    requires ReadRequest(t).Accepted?
    ensures var r := ReadRequest(t);
            (r.kind == TAGGED && |r.data| <= 255 && TaggedRequest(r.id, r.db, r.data) <= t)
            || (r.kind == CNAM && |r.data| <= MAX_ID && CnamRequest(r.id, r.db, r.data) <= t)
  {
    var r := ReadRequest(t);
    ReadThenLay(t, 0);
    if r.kind == TAGGED {
      assert t[4..7] == [r.db, TAGGED as Byte, |r.data|];
      assert TaggedRequest(r.id, r.db, r.data) == t[0..4] + t[4..7] + t[7..7 + |r.data|] == t[..7 + |r.data|];
    } else {
      ReadThenLay(t, 6);
      assert t[4..6] == [r.db, CNAM as Byte];
      assert CnamRequest(r.id, r.db, r.data)
          == t[0..4] + t[4..6] + t[6..10] + t[10..10 + |r.data|] == t[..10 + |r.data|];
    }
  }

  // ---------- replies ----------

  /** A length cut to an unsigned byte. */
  function Uint8(n: nat): Byte {
    n % 256
  }

  function Uint32(n: nat): (r: nat)
    ensures r <= MAX_ID
  {
    n % 0x1_0000_0000
  }

  function TaggedReply(id: nat, lrn: Text, tag: Text): Text
    requires id <= MAX_ID
  {
    Le32(id) + [NO_ERROR, Uint8(|lrn| + |tag|), Uint8(|lrn|)] + lrn + tag
  }

  function TaggedErrorReply(id: nat, code: Byte, description: Text): Text
    requires id <= MAX_ID
  {
    Le32(id) + [code, Uint8(|description|)] + description
  }

  function JsonReply(id: nat, json: Text): Text
    requires id <= MAX_ID
  {
    Le32(id) + Le32(Uint32(|json|)) + json
  }

  /** `{"error":{"code":` */
  const ERROR_OPEN: Text :=
    [123, 34, 101, 114, 114, 111, 114, 34, 58, 123, 34, 99, 111, 100, 101, 34, 58]
  /** `,"reason":"` */
  const ERROR_REASON: Text := [44, 34, 114, 101, 97, 115, 111, 110, 34, 58, 34]
  /** `"}}` */
  const ERROR_CLOSE: Text := [34, 125, 125]

  function ErrorBody(code: Byte, reason: Text): Text {
    ERROR_OPEN + (Decimal(code) + (ERROR_REASON + (reason + ERROR_CLOSE)))
  }

  function JsonErrorReply(id: nat, code: Byte, reason: Text): Text
    requires id <= MAX_ID
  {
    JsonReply(id, ErrorBody(code, reason))
  }

  /** The header is laid out first and filled in field by field; the texts are appended behind it. */
  method BuildTaggedReply(id: nat, lrn: Text, tag: Text) returns (buf: Text)
    requires id <= MAX_ID
    ensures buf == TaggedReply(id, lrn, tag)
  {
    buf := seq(7, _ => 0);
    var i, field := 0, Le32(id);
    while i < 4
      invariant 0 <= i <= 4 && |buf| == 7
      invariant buf[..i] == field[..i]
    {
      buf := buf[i := field[i]];
      i := i + 1;
    }
    buf := buf[4 := NO_ERROR];
    buf := buf[5 := Uint8(|lrn| + |tag|)];
    buf := buf[6 := Uint8(|lrn|)];
    assert buf == field + [NO_ERROR, Uint8(|lrn| + |tag|), Uint8(|lrn|)];
    buf := buf + lrn;
    buf := buf + tag;
  }

  method BuildJsonErrorReply(id: nat, code: Byte, status: Text) returns (buf: Text)
    requires id <= MAX_ID
    ensures buf == JsonErrorReply(id, code, status)
  {
    hide Decimal;
    var json := ERROR_OPEN;
    json := json + Decimal(code);
    json := json + ERROR_REASON;
    json := json + status;
    json := json + ERROR_CLOSE;
    assert json == ErrorBody(code, status);
    buf := Le32(id) + Le32(Uint32(|json|));
    buf := buf + json;
  }

  /** How a client takes a tagged reply apart. */
  datatype TaggedResult = NotTagged | TaggedResult(id: nat, code: Byte, lrn: Text, tag: Text)

  function ReadTaggedReply(t: Text): TaggedResult {
    if |t| < 7 || t[6] > t[5] || 7 + t[5] > |t| then NotTagged
    else TaggedResult(ReadLe32(t, 0), t[4], t[7..7 + t[6]], t[7 + t[6]..7 + t[5]])
  }

  /** A reply gives the number and the tag back if and only if together they fit the one-byte size. */
  lemma TaggedReplyRoundTrip(id: nat, lrn: Text, tag: Text)
    requires id <= MAX_ID
    ensures ReadTaggedReply(TaggedReply(id, lrn, tag)) == TaggedResult(id, NO_ERROR, lrn, tag)
            <==> |lrn| + |tag| <= 255
  {
    var sizes := [NO_ERROR, Uint8(|lrn| + |tag|), Uint8(|lrn|)];
    var t := TaggedReply(id, lrn, tag);
    assert t == Le32(id) + (sizes + lrn + tag);
    Le32RoundTrip(id, sizes + lrn + tag);
    assert t[4..7] == sizes;
    assert t[4] == sizes[0] && t[5] == sizes[1] && t[6] == sizes[2];
    if |lrn| + |tag| <= 255 {
      assert t[7..7 + |lrn|] == lrn;
      assert t[7 + |lrn|..7 + (|lrn| + |tag|)] == tag;
    } else {
      var r := ReadTaggedReply(t);
      assert r.TaggedResult? ==> |r.lrn| + |r.tag| <= 255;
    }
  }

  datatype ErrorResult = NotError | ErrorResult(id: nat, code: Byte, description: Text)

  function ReadTaggedErrorReply(t: Text): ErrorResult {
    if |t| < 6 || 6 + t[5] > |t| then NotError else ErrorResult(ReadLe32(t, 0), t[4], t[6..6 + t[5]])
  }

  lemma TaggedErrorReplyRoundTrip(id: nat, code: Byte, description: Text)
    requires id <= MAX_ID
    ensures ReadTaggedErrorReply(TaggedErrorReply(id, code, description)) == ErrorResult(id, code, description)
            <==> |description| <= 255
  {
    var sizes := [code, Uint8(|description|)];
    var t := TaggedErrorReply(id, code, description);
    assert t == Le32(id) + (sizes + description);
    Le32RoundTrip(id, sizes + description);
    assert t[4..6] == sizes;
    assert t[4] == sizes[0] && t[5] == sizes[1];
    if |description| <= 255 {
      assert t[6..6 + |description|] == description;
    } else {
      var r := ReadTaggedErrorReply(t);
      assert r.ErrorResult? ==> |r.description| <= 255;
    }
  }

  datatype JsonResult = NotJson | JsonResult(id: nat, json: Text)

  function ReadJsonReply(t: Text): JsonResult {
    if |t| < 8 || 8 + ReadLe32(t, 4) > |t| then NotJson else JsonResult(ReadLe32(t, 0), t[8..8 + ReadLe32(t, 4)])
  }

  lemma JsonReplyRoundTrip(id: nat, json: Text)
    requires id <= MAX_ID
    ensures ReadJsonReply(JsonReply(id, json)) == JsonResult(id, json) <==> |json| <= MAX_ID
  {
    var size := Le32(Uint32(|json|));
    var t := JsonReply(id, json);
    assert t == Le32(id) + (size + json);
    Le32RoundTrip(id, size + json);
    Le32RoundTrip(Uint32(|json|), []);
    assert size + [] == size;
    assert t[4] == size[0] && t[5] == size[1] && t[6] == size[2] && t[7] == size[3];
    assert ReadLe32(t, 4) == Uint32(|json|);
    if |json| <= MAX_ID {
      assert t[8..8 + |json|] == json;
    } else {
      var r := ReadJsonReply(t);
      assert r.JsonResult? ==> |r.json| <= MAX_ID;
    }
  }
}
