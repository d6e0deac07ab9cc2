/** The text the printer produces for a value, compact or formatted. */
module JsonRender {
  import opened Wrappers
  import opened Bytes
  import opened JsonNumber
  import opened JsonValue

  /** The letter of a two-character escape. */
  function EscapeLetter(b: Byte): Option<Byte> {
    if b == QUOTE || b == BACKSLASH then Some(b)
    else if b == BACKSPACE then Some(LOWER_B)
    else if b == FORM_FEED then Some(LOWER_F)
    else if b == NEWLINE then Some(LOWER_N)
    else if b == RETURN then Some(LOWER_R)
    else if b == TAB then Some(LOWER_T)
    else None
  }

  /** A digit of `%04x`. */
  function HexDigit(n: nat): Byte
    requires n < 16
  {
    if n < 10 then 48 + n else 87 + n
  }

  function EscapeByte(b: Byte): (t: Text)
    ensures 1 <= |t| <= 6 && NUL !in t
    requires b != NUL
  {
    match EscapeLetter(b)
    case Some(l) => [BACKSLASH, l]
    case None =>
      if b < 32 then [BACKSLASH, LOWER_U, ZERO, ZERO, HexDigit(b / 16), HexDigit(b % 16)] else [b]
  }

  function Escape(t: Text): (r: Text)
    requires NUL !in t
    ensures NUL !in r
  {
    if t == [] then [] else EscapeByte(t[0]) + Escape(t[1..])
  }

  function RenderString(t: Text): (r: Text)
    requires NUL !in t
    ensures NUL !in r && |r| >= 2
  {
    [QUOTE] + Escape(t) + [QUOTE]
  }

  function Tabs(n: nat): (t: Text)
    ensures |t| == n && NUL !in t
    ensures forall k :: 0 <= k < n ==> t[k] == TAB
  {
    if n == 0 then [] else [TAB] + Tabs(n - 1)
  }

  /** `t` in formatted output, nothing in compact output. */
  function IfFormat(format: bool, t: Text): Text {
    if format then t else []
  }

  function Render(v: Json, format: bool, depth: nat): (t: Text)
    requires Printable(v)
    ensures t != [] && NUL !in t
    decreases v, 2
  {
    match v
    case Null => NULL_WORD
    case False => FALSE_WORD
    case True => TRUE_WORD
    case Number(r) => Decimal(r.Floor)
    case String(t) => RenderString(t)
    case Array(items) => [LBRACKET] + (RenderItems(items, format, depth + 1) + [RBRACKET])
    case Object(members) =>
      [LBRACE] + IfFormat(format, [NEWLINE])
      + RenderMembers(members, format, depth + 1)
      + (IfFormat(format, Tabs(depth)) + [RBRACE])
  }

  function ItemSeparator(format: bool): Text {
    if format then [COMMA, SPACE] else [COMMA]
  }

  function RenderItems(items: seq<Json>, format: bool, depth: nat): (t: Text)
    requires PrintableItems(items)
    ensures NUL !in t
    decreases items, 3
  {
    if items == [] then []
    else if |items| == 1 then Render(items[0], format, depth)
    else Render(items[0], format, depth) + ItemSeparator(format) + RenderItems(items[1..], format, depth)
  }

  /** One member and what follows it; `last` tells whether a comma is due. */
  function RenderMember(m: Member, format: bool, depth: nat, last: bool): (t: Text)
    requires NUL !in m.key && Printable(m.value)
    ensures NUL !in t
    decreases m, 3
  {
    IfFormat(format, Tabs(depth))
    + RenderString(m.key)
    + ([COLON] + IfFormat(format, [TAB]))
    + Render(m.value, format, depth)
    + ((if last then [] else [COMMA]) + IfFormat(format, [NEWLINE]))
  }

  function RenderMembers(members: seq<Member>, format: bool, depth: nat): (t: Text)
    requires PrintableMembers(members)
    ensures NUL !in t
    decreases members, 4
  {
    if members == [] then []
    else RenderMember(members[0], format, depth, |members| == 1) + RenderMembers(members[1..], format, depth)
  }
}
