/**
 The JSON grammar as derivation trees. A tree says which text it spells (`Text`), which value that
 text denotes (`Denotes`) and how deep it nests; none of this mentions the parser.

 `Rfc8259` is the grammar of RFC 8259 (sections 2 to 7). `WellFormed` is the wider one that cJSON
 takes: any byte from 1 to 32 is white space; a string may hold control characters unescaped, and
 four bytes of any kind after `\u`; a number may have leading zeros, a point with nothing after it,
 or, behind a minus sign, nothing before the point.
 */
module JsonGrammar {
  import opened Bytes
  import opened Unicode
  import opened JsonNumber
  import opened JsonValue

  datatype Char =
    | Plain(byte: Byte)
    | Short(letter: Byte)
    | Unit(hex: Text)
    | Pair(high: Text, low: Text)
    | Stray

  datatype Exponent = NoExponent | Exponent(mark: Byte, sign: Text, digits: Text)

  datatype NumberToken =
    NumberToken(negative: bool, whole: Text, point: bool, fraction: Text, exponent: Exponent)

  datatype Tree =
    | NullTree
    | FalseTree
    | TrueTree
    | NumberTree(token: NumberToken)
    | StringTree(chars: seq<Char>)
    | ArrayTree(gap: Text, elements: seq<Element>)
    | ObjectTree(gap: Text, entries: seq<Entry>)

  datatype Element = Element(before: Text, tree: Tree, after: Text)

  datatype Entry =
    Entry(before: Text, key: seq<Char>, beforeColon: Text, afterColon: Text, tree: Tree, after: Text)

  // ---------- text ----------

  function CharText(c: Char): (t: Text)
    ensures c.Plain? ==> t == [c.byte]
  {
    match c
    case Plain(b) => [b]
    case Short(l) => [BACKSLASH, l]
    case Unit(h) => [BACKSLASH, LOWER_U] + h
    case Pair(h, l) => [BACKSLASH, LOWER_U] + h + [BACKSLASH, LOWER_U] + l
    case Stray => [BACKSLASH]
  }

  function CharsText(cs: seq<Char>): Text {
    if cs == [] then [] else CharText(cs[0]) + CharsText(cs[1..])
  }

  function Quoted(cs: seq<Char>): Text {
    [QUOTE] + (CharsText(cs) + [QUOTE])
  }

  function ExponentText(e: Exponent): Text {
    match e
    case NoExponent => []
    case Exponent(m, s, d) => [m] + s + d
  }

  function FractionText(point: bool, f: Text): Text {
    if point then [DOT] + f else []
  }

  function SignText(negative: bool): Text {
    if negative then [MINUS] else []
  }

  function NumberText(n: NumberToken): Text {
    SignText(n.negative) + (n.whole + (FractionText(n.point, n.fraction) + ExponentText(n.exponent)))
  }

  function TreeText(t: Tree): Text
    decreases t, 0
  {
    match t
    case NullTree => NULL_WORD
    case FalseTree => FALSE_WORD
    case TrueTree => TRUE_WORD
    case NumberTree(n) => NumberText(n)
    case StringTree(cs) => Quoted(cs)
    case ArrayTree(gap, es) =>
      if es == [] then [LBRACKET] + (gap + [RBRACKET]) else [LBRACKET] + (ElementsText(es) + [RBRACKET])
    case ObjectTree(gap, es) =>
      if es == [] then [LBRACE] + (gap + [RBRACE]) else [LBRACE] + (EntriesText(es) + [RBRACE])
  }

  function ElementText(e: Element): Text
    decreases e, 1
  {
    e.before + (TreeText(e.tree) + e.after)
  }

  function ElementsText(es: seq<Element>): Text
    requires es != []
    decreases es, 2
  {
    if |es| == 1 then ElementText(es[0]) else ElementText(es[0]) + ([COMMA] + ElementsText(es[1..]))
  }

  function EntryText(e: Entry): Text
    decreases e, 1
  {
    e.before + (Quoted(e.key) + (e.beforeColon + ([COLON] + (e.afterColon + (TreeText(e.tree) + e.after)))))
  }

  function EntriesText(es: seq<Entry>): Text
    requires es != []
    decreases es, 2
  {
    if |es| == 1 then EntryText(es[0]) else EntryText(es[0]) + ([COMMA] + EntriesText(es[1..]))
  }

  // ---------- well-formedness ----------

  predicate IsGap(t: Text) {
    forall k :: 0 <= k < |t| ==> NUL < t[k] <= SPACE
  }

  predicate IsHex4(h: Text) {
    |h| == 4 && AllHex4(h, 0)
  }

  predicate ShortLetter(l: Byte) {
    l == LOWER_B || l == LOWER_F || l == LOWER_N || l == LOWER_R || l == LOWER_T
    || l == QUOTE || l == BACKSLASH || l == SLASH
  }

  function ShortMeaning(l: Byte): Byte {
    if l == LOWER_B then BACKSPACE
    else if l == LOWER_F then FORM_FEED
    else if l == LOWER_N then NEWLINE
    else if l == LOWER_R then RETURN
    else if l == LOWER_T then TAB
    else l
  }

  /** A unit alone is no surrogate, and a pair is high then low. */
  predicate WellFormedChar(c: Char) {
    match c
    case Plain(b) => b != BACKSLASH && b != NUL
    case Short(l) => ShortLetter(l)
    case Unit(h) => |h| == 4 && NUL !in h && !IsSurrogate(Hex4(h, 0))
    case Pair(h, l) => IsHex4(h) && IsHex4(l) && IsHighSurrogate(Hex4(h, 0)) && IsLowSurrogate(Hex4(l, 0))
    case Stray => true
  }

  /** The search for the closing quote: a quote in the text stands behind a backslash that escapes it. */
  predicate Closed(t: Text) {
    t == []
    || (if t[0] == BACKSLASH then |t| > 1 && Closed(t[2..]) else t[0] != QUOTE && Closed(t[1..]))
  }

  /** The decoding pass: only the last character may be a backslash that runs into the closing quote. */
  predicate Decodable(cs: seq<Char>) {
    forall k :: 0 <= k < |cs| ==> WellFormedChar(cs[k]) && (cs[k].Stray? ==> k == |cs| - 1)
  }

  /**
   The parser reads the bytes of a string twice, and the two readings split them up differently when
   a backslash or a quote stands among the four bytes after `\u`.
   */
  predicate WellFormedChars(cs: seq<Char>) {
    Decodable(cs) && Closed(CharsText(cs))
  }

  predicate WellFormedExponent(e: Exponent) {
    match e
    case NoExponent => true
    case Exponent(m, s, d) =>
      (m == LOWER_E || m == UPPER_E) && (s == [] || s == [PLUS] || s == [MINUS]) && d != [] && AllDigits(d)
  }

  predicate WellFormedNumber(n: NumberToken) {
    && AllDigits(n.whole) && AllDigits(n.fraction)
    && (n.whole != [] || (n.negative && n.fraction != []))
    && (n.fraction != [] ==> n.point)
    && WellFormedExponent(n.exponent)
    && |NumberText(n)| <= TOKEN_LIMIT
  }

  predicate WellFormed(t: Tree)
    decreases t, 0
  {
    match t
    case NumberTree(n) => WellFormedNumber(n)
    case StringTree(cs) => WellFormedChars(cs)
    case ArrayTree(gap, es) => IsGap(gap) && WellFormedElements(es)
    case ObjectTree(gap, es) => IsGap(gap) && WellFormedEntries(es)
    case _ => true
  }

  predicate WellFormedElements(es: seq<Element>)
    decreases es, 1
  {
    es == []
    || (IsGap(es[0].before) && WellFormed(es[0].tree) && IsGap(es[0].after) && WellFormedElements(es[1..]))
  }

  predicate WellFormedEntries(es: seq<Entry>)
    decreases es, 1
  {
    es == []
    || (IsGap(es[0].before) && WellFormedChars(es[0].key) && IsGap(es[0].beforeColon)
        && IsGap(es[0].afterColon) && WellFormed(es[0].tree) && IsGap(es[0].after)
        && WellFormedEntries(es[1..]))
  }

  predicate WellFormedElement(e: Element) {
    IsGap(e.before) && WellFormed(e.tree) && IsGap(e.after)
  }

  predicate WellFormedEntry(e: Entry) {
    && IsGap(e.before) && WellFormedChars(e.key) && IsGap(e.beforeColon)
    && IsGap(e.afterColon) && WellFormed(e.tree) && IsGap(e.after)
  }

  // ---------- meaning ----------

  function CodePoint(c: Char): nat
    requires WellFormedChar(c) && (c.Unit? || c.Pair?)
    ensures IsScalar(CodePoint(c))
  {
    match c
    case Unit(h) => Hex4(h, 0)
    case Pair(h, l) => 0x10000 + (Hex4(h, 0) - 0xD800) * 0x400 + (Hex4(l, 0) - 0xDC00)
  }

  function CharMeaning(c: Char): Text
    requires WellFormedChar(c)
  {
    match c
    case Plain(b) => [b]
    case Short(l) => [ShortMeaning(l)]
    case Stray => [QUOTE]
    case _ => Utf8(CodePoint(c))
  }

  function DecodedChars(cs: seq<Char>): Text
    requires Decodable(cs)
  {
    if cs == [] then [] else CharMeaning(cs[0]) + DecodedChars(cs[1..])
  }

  function CharsMeaning(cs: seq<Char>): Text
    requires WellFormedChars(cs)
  {
    DecodedChars(cs)
  }

  function ExponentMeaning(e: Exponent): int
    requires WellFormedExponent(e)
  {
    match e
    case NoExponent => 0
    case Exponent(m, s, d) => if s == [MINUS] then 0 - Nat(d) else Nat(d)
  }

  /** Whole part plus fraction, times ten to the exponent. */
  function Size(whole: nat, fraction: nat, places: nat, e: int): real {
    Scale(whole as real + Scale(fraction as real, 0 - places), e)
  }

  function NumberMeaning(n: NumberToken): real
    requires WellFormedNumber(n)
  {
    Signed(n.negative, Size(Nat(n.whole), Nat(n.fraction), |n.fraction|, ExponentMeaning(n.exponent)))
  }

  function Denotes(t: Tree): Json
    requires WellFormed(t)
    decreases t, 0
  {
    match t
    case NullTree => Null
    case FalseTree => False
    case TrueTree => True
    case NumberTree(n) => Number(NumberMeaning(n))
    case StringTree(cs) => String(CharsMeaning(cs))
    case ArrayTree(_, es) => Array(ElementsDenote(es))
    case ObjectTree(_, es) => Object(EntriesDenote(es))
  }

  function ElementsDenote(es: seq<Element>): seq<Json>
    requires WellFormedElements(es)
    decreases es, 1
  {
    if es == [] then [] else [Denotes(es[0].tree)] + ElementsDenote(es[1..])
  }

  function EntriesDenote(es: seq<Entry>): seq<Member>
    requires WellFormedEntries(es)
    decreases es, 1
  {
    if es == [] then []
    else [Member(CharsMeaning(es[0].key), Denotes(es[0].tree))] + EntriesDenote(es[1..])
  }

  // ---------- the standard's own grammar ----------

  predicate RfcGap(t: Text) {
    forall k :: 0 <= k < |t| ==> t[k] == SPACE || t[k] == TAB || t[k] == NEWLINE || t[k] == RETURN
  }

  predicate RfcChar(c: Char) {
    match c
    case Plain(b) => b != QUOTE && b != BACKSLASH && b >= 32
    case Short(l) => ShortLetter(l)
    case Unit(h) => IsHex4(h) && !IsSurrogate(Hex4(h, 0))
    case Pair(h, l) => IsHex4(h) && IsHex4(l) && IsHighSurrogate(Hex4(h, 0)) && IsLowSurrogate(Hex4(l, 0))
    case Stray => false
  }

  predicate RfcChars(cs: seq<Char>) {
    forall k :: 0 <= k < |cs| ==> RfcChar(cs[k])
  }

  predicate RfcNumber(n: NumberToken) {
    && WellFormedNumber(n)
    && n.whole != [] && (n.whole[0] == ZERO ==> |n.whole| == 1)
    && (n.point ==> n.fraction != [])
  }

  predicate Rfc8259(t: Tree)
    decreases t, 0
  {
    match t
    case NumberTree(n) => RfcNumber(n)
    case StringTree(cs) => RfcChars(cs)
    case ArrayTree(gap, es) => RfcGap(gap) && RfcElements(es)
    case ObjectTree(gap, es) => RfcGap(gap) && RfcEntries(es)
    case _ => true
  }

  predicate RfcElements(es: seq<Element>)
    decreases es, 1
  {
    es == [] || (RfcGap(es[0].before) && Rfc8259(es[0].tree) && RfcGap(es[0].after) && RfcElements(es[1..]))
  }

  predicate RfcEntries(es: seq<Entry>)
    decreases es, 1
  {
    es == []
    || (RfcGap(es[0].before) && RfcChars(es[0].key) && RfcGap(es[0].beforeColon)
        && RfcGap(es[0].afterColon) && Rfc8259(es[0].tree) && RfcGap(es[0].after) && RfcEntries(es[1..]))
  }

  lemma {:induction false} ClosedJoins(a: Text, b: Text)
    requires Closed(a)
    ensures Closed(a + b) == Closed(b)
  {
    if a == [] {
      assert a + b == b;
    } else {
      var n := if a[0] == BACKSLASH then 2 else 1;
      assert (a + b)[n..] == a[n..] + b;
      ClosedJoins(a[n..], b);
    }
  }

  lemma NoQuoteIsClosed(t: Text)
    requires forall k :: 0 <= k < |t| ==> t[k] != QUOTE && t[k] != BACKSLASH
    ensures Closed(t)
  {
  }

  lemma RfcCharIsClosed(c: Char)
    requires RfcChar(c)
    ensures WellFormedChar(c) && Closed(CharText(c))
  {
    hide Closed;
    match c
    case Plain(b) => NoQuoteIsClosed([b]);
    case Short(l) =>
      NoQuoteIsClosed([]);
      EscapeIsClosed(l, []);
      assert [BACKSLASH, l] + [] == [BACKSLASH, l];
    case Unit(h) => UnitIsClosed(h);
    case Pair(h, l) =>
      UnitIsClosed(h);
      UnitIsClosed(l);
      assert CharText(c) == ([BACKSLASH, LOWER_U] + h) + ([BACKSLASH, LOWER_U] + l);
      ClosedJoins([BACKSLASH, LOWER_U] + h, [BACKSLASH, LOWER_U] + l);
  }

  lemma EscapeIsClosed(b: Byte, t: Text)
    ensures Closed([BACKSLASH, b] + t) == Closed(t)
  {
    assert ([BACKSLASH, b] + t)[2..] == t;
  }

  lemma UnitIsClosed(h: Text)
    requires IsHex4(h)
    ensures NUL !in h && Closed([BACKSLASH, LOWER_U] + h)
  {
    assert forall k :: 0 <= k < 4 ==> IsHex(h[k]);
    NoQuoteIsClosed(h);
    EscapeIsClosed(LOWER_U, h);
  }

  lemma {:induction false} RfcCharsAreWellFormed(cs: seq<Char>)
    requires RfcChars(cs)
    ensures WellFormedChars(cs)
  {
    if cs != [] {
      hide CharText, Closed;
      RfcCharIsClosed(cs[0]);
      RfcCharsAreWellFormed(cs[1..]);
      ClosedJoins(CharText(cs[0]), CharsText(cs[1..]));
      forall k | 0 <= k < |cs| ensures WellFormedChar(cs[k]) && !cs[k].Stray? {
        RfcCharIsClosed(cs[k]);
      }
    }
  }

  lemma {:induction false} RfcIsWellFormed(t: Tree)
    requires Rfc8259(t)
    ensures WellFormed(t)
    decreases t, 0
  {
    match t
    case StringTree(cs) => RfcCharsAreWellFormed(cs);
    case ArrayTree(_, es) => RfcElementsAreWellFormed(es);
    case ObjectTree(_, es) => RfcEntriesAreWellFormed(es);
    case _ =>
  }

  lemma {:induction false} RfcElementsAreWellFormed(es: seq<Element>)
    requires RfcElements(es)
    ensures WellFormedElements(es)
    decreases es, 1
  {
    if es != [] {
      RfcIsWellFormed(es[0].tree);
      RfcElementsAreWellFormed(es[1..]);
    }
  }

  lemma {:induction false} RfcEntriesAreWellFormed(es: seq<Entry>)
    requires RfcEntries(es)
    ensures WellFormedEntries(es)
    decreases es, 1
  {
    if es != [] {
      RfcCharsAreWellFormed(es[0].key);
      RfcIsWellFormed(es[0].tree);
      RfcEntriesAreWellFormed(es[1..]);
    }
  }
}
