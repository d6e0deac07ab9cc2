/**
 What the parser computes, as functions of the text and the place in it. The text is the C string
 with its terminating NUL, so its last byte is NUL.
 */
module JsonParse {
  import opened Wrappers
  import opened Bytes
  import opened Unicode
  import opened JsonNumber
  import opened JsonValue

  predicate Terminated(s: Text) {
    s != [] && s[|s| - 1] == NUL
  }

  /** Either what was read and the place after it, or the place where reading gave up. */
  datatype Outcome<+T> = Ok(value: T, next: nat) | Err(at: nat)

  /** First byte above 32 from `i` on, or the last byte of the text. */
  function SkipWs(s: Text, i: nat): (j: nat)
    requires Terminated(s) && i < |s|
    ensures i <= j < |s|
    ensures forall k :: i <= k < j ==> s[k] <= SPACE
    ensures j == |s| - 1 || s[j] > SPACE
    decreases |s| - i
  {
    if i < |s| - 1 && s[i] <= SPACE then SkipWs(s, i + 1) else i
  }

  // ---------- strings ----------

  /** The quote that closes a string whose characters start at `e`, stepping over escaped bytes. */
  function ClosingQuote(s: Text, e: nat): (q: Option<nat>)
    ensures q.Some? ==> e <= q.value < |s| && s[q.value] == QUOTE
    decreases |s| - e
  {
    if e >= |s| then None
    else if s[e] == QUOTE then Some(e)
    else if s[e] == BACKSLASH then ClosingQuote(s, e + 2)
    else ClosingQuote(s, e + 1)
  }

  datatype Decoded = Decoded(out: Text) | BadEscape(at: nat)

  function Prefixed(t: Text, d: Decoded): Decoded {
    match d
    case Decoded(out) => Decoded(t + out)
    case BadEscape(_) => d
  }

  function ShortEscape(l: Byte): Option<Byte> {
    if l == LOWER_B then Some(BACKSPACE)
    else if l == LOWER_F then Some(FORM_FEED)
    else if l == LOWER_N then Some(NEWLINE)
    else if l == LOWER_R then Some(RETURN)
    else if l == LOWER_T then Some(TAB)
    else if l == QUOTE || l == BACKSLASH || l == SLASH then Some(l)
    else None
  }

  datatype Step = NoStep | Step(out: Text, width: nat)

  /** What one turn of the decoding pass writes, and how many characters it uses. */
  function DecodeStep(s: Text, p: nat, e: nat): (r: Step)
    requires p < e < |s|
    ensures r.Step? ==> 0 < r.width && 0 < |r.out|
  {
    if s[p] != BACKSLASH then Step([s[p]], 1)
    else if s[p + 1] == LOWER_U then
      match ReadLiteral(s, p, e)
      case BadLiteral => NoStep
      case Literal(n, cp) => Step(Utf8(cp), n)
    else
      match ShortEscape(s[p + 1])
      case None => NoStep
      case Some(b) => Step([b], 2)
  }

  /**
   The decoding pass from `p` up to the closing quote `e`. After a malformed `\u` it may meet the
   bytes in another phase than the search for the closing quote did, and may then step past `e`.
   */
  function Decode(s: Text, p: nat, e: nat): Decoded
    requires e < |s|
    decreases e - p
  {
    if p >= e then Decoded([])
    else
      match DecodeStep(s, p, e)
      case NoStep => BadEscape(p)
      case Step(out, width) => Prefixed(out, Decode(s, p + width, e))
  }

  /** Whole bytes of the string at `i`, up to and including whatever NULs it spells. */
  function ReadString(s: Text, i: nat): (r: Outcome<Text>)
    requires Terminated(s) && i < |s|
    ensures r.Ok? ==> i < r.next < |s|
  {
    if s[i] != QUOTE then Err(i + 1)
    else
      match ClosingQuote(s, i + 1)
      case None => Err(i + 1)
      case Some(e) =>
        match Decode(s, i + 1, e)
        case BadEscape(at) => Err(at)
        case Decoded(out) => Ok(CString(out), e + 1)
  }

  // ---------- numbers ----------

  function ReadNumber(s: Text, i: nat): (r: Outcome<real>)
    requires Terminated(s) && i < |s|
    ensures r.Ok? ==> i < r.next < |s|
  {
    var n := TokenRun(s, i, TOKEN_LIMIT);
    assert !IsNumberByte(s[|s| - 1]);
    match Strtod(s[i..i + n])
    case NoNumeral => Err(i)
    case Numeral(value, length) => Ok(value, i + length)
  }

  // ---------- values ----------

  function ReadValue(s: Text, i: nat, depth: nat): (r: Outcome<Json>)
    requires Terminated(s) && i < |s|
    ensures r.Ok? ==> i < r.next < |s|
    decreases |s| - i, 1
  {
    if At(s, i, NULL_WORD) then Ok(Null, i + 4)
    else if At(s, i, FALSE_WORD) then Ok(False, i + 5)
    else if At(s, i, TRUE_WORD) then Ok(True, i + 4)
    else if s[i] == QUOTE then
      match ReadString(s, i)
      case Ok(t, next) => Ok(String(t), next)
      case Err(at) => Err(at)
    else if s[i] == MINUS || IsDigit(s[i]) then
      match ReadNumber(s, i)
      case Ok(v, next) => Ok(Number(v), next)
      case Err(at) => Err(at)
    else if s[i] == LBRACKET then ReadArray(s, i, depth)
    else if s[i] == LBRACE then ReadObject(s, i, depth)
    else Err(i)
  }

  function ReadArray(s: Text, i: nat, depth: nat): (r: Outcome<Json>)
    requires Terminated(s) && i < |s| && s[i] == LBRACKET
    ensures r.Ok? ==> i < r.next < |s|
    decreases |s| - i, 0
  {
    if depth >= NESTING_LIMIT then Err(i)
    else
      var j := SkipWs(s, i + 1);
      if s[j] == RBRACKET then Ok(Array([]), j + 1)
      else
        match ReadElements(s, j, depth + 1)
        case Ok(items, next) => Ok(Array(items), next)
        case Err(at) => Err(at)
  }

  /** Elements from `i` on, up to and including the closing bracket. */
  function ReadElements(s: Text, i: nat, depth: nat): (r: Outcome<seq<Json>>)
    requires Terminated(s) && i < |s|
    ensures r.Ok? ==> i < r.next < |s|
    decreases |s| - i, 2
  {
    match ReadValue(s, SkipWs(s, i), depth)
    case Err(at) => Err(at)
    case Ok(v, next) =>
      var k := SkipWs(s, next);
      if s[k] == COMMA then PrefixedItem(v, ReadElements(s, k + 1, depth))
      else if s[k] == RBRACKET then Ok([v], k + 1)
      else Err(k)
  }

  function PrefixedItem<T>(v: T, r: Outcome<seq<T>>): Outcome<seq<T>> {
    match r
    case Ok(rest, next) => Ok([v] + rest, next)
    case Err(at) => Err(at)
  }

  function ReadObject(s: Text, i: nat, depth: nat): (r: Outcome<Json>)
    requires Terminated(s) && i < |s| && s[i] == LBRACE
    ensures r.Ok? ==> i < r.next < |s|
    decreases |s| - i, 0
  {
    if depth >= NESTING_LIMIT then Err(i)
    else
      var j := SkipWs(s, i + 1);
      if s[j] == RBRACE then Ok(Object([]), j + 1)
      else
        match ReadEntries(s, j, depth + 1)
        case Ok(members, next) => Ok(Object(members), next)
        case Err(at) => Err(at)
  }

  /** Members from `i` on, up to and including the closing brace. */
  function ReadEntries(s: Text, i: nat, depth: nat): (r: Outcome<seq<Member>>)
    requires Terminated(s) && i < |s|
    ensures r.Ok? ==> i < r.next < |s|
    decreases |s| - i, 3
  {
    match ReadEntry(s, i, depth)
    case Err(at) => Err(at)
    case Ok(m, next) =>
      var k := SkipWs(s, next);
      if s[k] == COMMA then PrefixedItem(m, ReadEntries(s, k + 1, depth))
      else if s[k] == RBRACE then Ok([m], k + 1)
      else Err(k)
  }

  /** One key, its colon and its value. */
  function ReadEntry(s: Text, i: nat, depth: nat): (r: Outcome<Member>)
    requires Terminated(s) && i < |s|
    ensures r.Ok? ==> i < r.next < |s|
    decreases |s| - i, 2
  {
    match ReadString(s, SkipWs(s, i))
    case Err(at) => Err(at)
    case Ok(key, afterKey) =>
      var c := SkipWs(s, afterKey);
      if s[c] != COLON then Err(c)
      else
        match ReadValue(s, SkipWs(s, c + 1), depth)
        case Err(at) => Err(at)
        case Ok(v, next) => Ok(Member(key, v), next)
  }

  // ---------- whole texts ----------

  function SkipBom(s: Text): (i: nat)
    requires Terminated(s)
    ensures i < |s|
  {
    if |s| > 4 && At(s, 0, BOM) then 3 else 0
  }

  datatype Parsed = Parsed(value: Json, end: nat) | Failed(position: nat)

  /** cJSON_ParseWithOpts on the C string `text`: the tree and the parse end, or the error position. */
  function ParseText(text: Text, requireNullTerminated: bool): Parsed {
    var s := text + [NUL];
    match ReadValue(s, SkipWs(s, SkipBom(s)), 0)
    case Err(at) => Failed(if at < |s| then at else |s| - 1)
    case Ok(v, next) =>
      if !requireNullTerminated then Parsed(v, next)
      else
        var end := SkipWs(s, next);
        if s[end] == NUL then Parsed(v, end) else Failed(end)
  }
}
