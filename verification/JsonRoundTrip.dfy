/** Printed text is JSON for the value it was printed from: every rendering has a derivation tree. */
module JsonRoundTrip {
  import opened Wrappers
  import opened Bytes
  import opened Unicode
  import opened JsonNumber
  import opened JsonValue
  import opened JsonGrammar
  import opened JsonRender

  // ---------- strings ----------

  function CharOf(b: Byte): Char
    requires b != NUL
  {
    match EscapeLetter(b)
    case Some(l) => Short(l)
    case None => if b < 32 then Unit([ZERO, ZERO, HexDigit(b / 16), HexDigit(b % 16)]) else Plain(b)
  }

  function CharsOf(t: Text): (cs: seq<Char>)
    requires NUL !in t
    ensures |cs| == |t|
  {
    if t == [] then [] else [CharOf(t[0])] + CharsOf(t[1..])
  }

  lemma CharSpells(b: Byte)
    requires b != NUL
    ensures RfcChar(CharOf(b)) && CharText(CharOf(b)) == EscapeByte(b)
    ensures WellFormedChar(CharOf(b)) && CharMeaning(CharOf(b)) == [b]
  {
  }

  /**
   The printer picks the shortest of all spellings the standard has for a byte, and small letters where
   two are as short.
   */
  lemma EscapeIsShortest(b: Byte, c: Char)
    requires b != NUL && RfcChar(c) && CharMeaning(c) == [b]
    ensures |EscapeByte(b)| <= |CharText(c)|
    ensures |EscapeByte(b)| == |CharText(c)| ==>
              CharText(c) == EscapeByte(b)
              || (c.Unit? && exists k :: 0 <= k < 4 && 65 <= c.hex[k] <= 70)
  {
    match c
    case Unit(h) => UnitOfByte(b, h);
    case Pair(h, l) => Utf8IsLong(CodePoint(c));
    case _ =>
  }

  lemma Utf8IsLong(cp: nat)
    requires 0x80 <= cp <= 0x10FFFF
    ensures |Utf8(cp)| > 1
  {
  }

  lemma UnitOfByte(b: Byte, h: Text)
    requires b != NUL && IsHex4(h) && !IsSurrogate(Hex4(h, 0)) && Utf8(Hex4(h, 0)) == [b]
    ensures |EscapeByte(b)| <= 6
    ensures |EscapeByte(b)| == 6 && (forall k :: 0 <= k < 4 ==> !(65 <= h[k] <= 70)) ==>
              [BACKSLASH, LOWER_U] + h == EscapeByte(b)
  {
    var n := Hex4(h, 0);
    if n >= 0x80 {
      Utf8IsLong(n);
    }
    assert n == b && b < 0x80;
    if |EscapeByte(b)| == 6 && forall k :: 0 <= k < 4 ==> !(65 <= h[k] <= 70) {
      assert HexValue(h[0]) == 0 && HexValue(h[1]) == 0 && 16 * HexValue(h[2]) + HexValue(h[3]) == b;
      assert HexValue(h[2]) == b / 16 && HexValue(h[3]) == b % 16;
      assert h == [ZERO, ZERO, HexDigit(b / 16), HexDigit(b % 16)];
    }
  }

  lemma {:induction false} CharsSpell(t: Text)
    requires NUL !in t
    ensures RfcChars(CharsOf(t)) && WellFormedChars(CharsOf(t))
    ensures CharsText(CharsOf(t)) == Escape(t)
    ensures CharsMeaning(CharsOf(t)) == t
  {
    if t != [] {
      CharSpells(t[0]);
      CharsSpell(t[1..]);
      hide CharMeaning, CharText, EscapeByte, CharOf, RfcChar, Closed;
      var cs := CharsOf(t);
      assert cs[0] == CharOf(t[0]) && cs[1..] == CharsOf(t[1..]);
      RfcCharsAreWellFormed(cs);
      assert t == [t[0]] + t[1..];
    }
  }

  lemma StringSpells(t: Text)
    requires NUL !in t
    ensures Quoted(CharsOf(t)) == RenderString(t)
  {
    CharsSpell(t);
  }

  // ---------- numbers ----------

  function TokenOf(n: int): NumberToken {
    NumberToken(n < 0, if n < 0 then Digits(-n) else Digits(n), false, [], NoExponent)
  }

  lemma NatPowerFifteen()
    ensures NatPower(15) == 1000000000000000
  {
    assert NatPower(5) == 100000;
    assert NatPower(10) == 10000000000;
  }

  lemma NumberSpells(r: real)
    requires PlainInteger(r)
    ensures var k := TokenOf(r.Floor);
            RfcNumber(k) && NumberText(k) == Decimal(r.Floor) && NumberMeaning(k) == r
  {
    var n := r.Floor;
    var size: nat := if n < 0 then -n else n;
    NatPowerFifteen();
    DigitsLength(size, 15);
    DigitsRoundTrip(size);
    TokenText(n, Digits(size));
    IntegerMeaning(n < 0, Digits(size), size);
  }

  lemma TokenText(n: int, digits: Text)
    ensures NumberText(NumberToken(n < 0, digits, false, [], NoExponent))
            == (if n < 0 then [MINUS] + digits else digits)
  {
  }

  lemma IntegerMeaning(negative: bool, digits: Text, size: nat)
    requires AllDigits(digits) && Nat(digits) == size
    requires WellFormedNumber(NumberToken(negative, digits, false, [], NoExponent))
    ensures NumberMeaning(NumberToken(negative, digits, false, [], NoExponent)) == Signed(negative, size as real)
  {
    assert Nat([]) == 0;
    assert Scale(0.0, 0) == 0.0;
    assert Scale(size as real, 0) == size as real;
  }

  // ---------- values ----------

  function BreakBefore(format: bool, depth: nat): Text {
    if format then [NEWLINE] + Tabs(depth) else []
  }

  function TreeOf(v: Json, format: bool, depth: nat): Tree
    requires Printable(v)
    decreases v, 0
  {
    match v
    case Null => NullTree
    case False => FalseTree
    case True => TrueTree
    case Number(r) => NumberTree(TokenOf(r.Floor))
    case String(t) => StringTree(CharsOf(t))
    case Array(items) => ArrayTree([], ElementsOf(items, format, depth + 1, []))
    case Object(members) => ObjectTree(BreakBefore(format, depth), EntriesOf(members, format, depth + 1))
  }

  function ElementsOf(items: seq<Json>, format: bool, depth: nat, before: Text): (es: seq<Element>)
    requires PrintableItems(items)
    ensures |es| == |items|
    decreases items, 1
  {
    if items == [] then []
    else [Element(before, TreeOf(items[0], format, depth), [])]
         + ElementsOf(items[1..], format, depth, IfFormat(format, [SPACE]))
  }

  function EntriesOf(members: seq<Member>, format: bool, depth: nat): (es: seq<Entry>)
    requires PrintableMembers(members) && depth > 0
    ensures |es| == |members|
    decreases members, 1
  {
    if members == [] then []
    else
      [Entry(BreakBefore(format, depth), CharsOf(members[0].key), [], IfFormat(format, [TAB]),
             TreeOf(members[0].value, format, depth),
             if |members| == 1 then BreakBefore(format, depth - 1) else [])]
      + EntriesOf(members[1..], format, depth)
  }

  lemma TabsAreGap(format: bool, depth: nat)
    ensures RfcGap(Tabs(depth)) && RfcGap(BreakBefore(format, depth)) && RfcGap(IfFormat(format, [SPACE]))
    ensures RfcGap([]) && RfcGap(IfFormat(format, [TAB]))
  {
  }

  // What each tree spells.

  lemma {:induction false} TreeSpells(v: Json, format: bool, depth: nat)
    requires Printable(v)
    ensures TreeText(TreeOf(v, format, depth)) == Render(v, format, depth)
    decreases v, 0
  {
    match v
    case Number(r) => NumberSpells(r);
    case String(t) => StringSpells(t);
    case Array(items) =>
      if items != [] {
        ElementsSpell(items, format, depth + 1, []);
      }
    case Object(members) =>
      ObjectSpells(v, format, depth);
    case _ =>
  }

  lemma {:induction false} ElementsSpell(items: seq<Json>, format: bool, depth: nat, before: Text)
    requires PrintableItems(items) && items != []
    ensures ElementsText(ElementsOf(items, format, depth, before)) == before + RenderItems(items, format, depth)
    decreases items, 1
  {
    hide Render, TreeOf, TreeText;
    var es := ElementsOf(items, format, depth, before);
    TreeSpells(items[0], format, depth);
    assert ElementText(es[0]) == before + Render(items[0], format, depth);
    if |items| > 1 {
      var space := IfFormat(format, [SPACE]);
      assert es[1..] == ElementsOf(items[1..], format, depth, space);
      ElementsSpell(items[1..], format, depth, space);
      assert [COMMA] + space == ItemSeparator(format);
      assert before + Render(items[0], format, depth) + ([COMMA] + (space + RenderItems(items[1..], format, depth)))
          == before + (Render(items[0], format, depth) + ItemSeparator(format)
                       + RenderItems(items[1..], format, depth));
    }
  }

  lemma {:induction false} ObjectSpells(v: Json, format: bool, depth: nat)
    requires Printable(v) && v.Object?
    ensures TreeText(TreeOf(v, format, depth)) == Render(v, format, depth)
    decreases v.members, 2
  {
    hide RenderMembers, EntriesText, EntriesOf;
    var members := v.members;
    var line := IfFormat(format, [NEWLINE]);
    var close := IfFormat(format, Tabs(depth));
    assert line + close == BreakBefore(format, depth);
    if members == [] {
      NoMembers(format, depth + 1);
      assert [LBRACE] + line + [] + (close + [RBRACE]) == [LBRACE] + ((line + close) + [RBRACE]);
    } else {
      var rendered := RenderMembers(members, format, depth + 1);
      EntriesSpell(members, format, depth + 1);
      var spelled := EntriesText(EntriesOf(members, format, depth + 1));
      assert spelled == line + (rendered + close);
      InBraces(line, rendered, close);
    }
  }

  lemma InBraces(line: Text, rendered: Text, close: Text)
    ensures [LBRACE] + line + rendered + (close + [RBRACE]) == [LBRACE] + ((line + (rendered + close)) + [RBRACE])
  {
  }

  lemma NoMembers(format: bool, depth: nat)
    requires depth > 0
    ensures RenderMembers([], format, depth) == [] && EntriesOf([], format, depth) == []
  {
  }

  /** The line break the printer puts after a member is the white space before the next one. */
  lemma {:induction false} EntriesSpell(members: seq<Member>, format: bool, depth: nat)
    requires PrintableMembers(members) && members != [] && depth > 0
    ensures EntriesText(EntriesOf(members, format, depth))
            == IfFormat(format, [NEWLINE])
               + (RenderMembers(members, format, depth) + IfFormat(format, Tabs(depth - 1)))
    decreases members, 1
  {
    hide Render, TreeOf, TreeText, Quoted, RenderString;
    var es := EntriesOf(members, format, depth);
    var m, rest := members[0], members[1..];
    var line, tabs, tab := IfFormat(format, [NEWLINE]), IfFormat(format, Tabs(depth)), IfFormat(format, [TAB]);
    var close := IfFormat(format, Tabs(depth - 1));
    var key, value := RenderString(m.key), Render(m.value, format, depth);
    TreeSpells(m.value, format, depth);
    StringSpells(m.key);
    assert BreakBefore(format, depth) == line + tabs && BreakBefore(format, depth - 1) == line + close;
    if |members| == 1 {
      assert RenderMembers(rest, format, depth) == [];
      LastMember(line, tabs, key, tab, value, close);
    } else {
      assert es[1..] == EntriesOf(rest, format, depth);
      EntriesSpell(rest, format, depth);
      MoreMembers(line, tabs, key, tab, value, RenderMembers(rest, format, depth), close);
    }
  }

  lemma LastMember(line: Text, tabs: Text, key: Text, tab: Text, value: Text, close: Text)
    ensures (line + tabs) + (key + ([] + ([COLON] + (tab + (value + (line + close))))))
            == line + ((tabs + key + ([COLON] + tab) + value + ([] + line) + []) + close)
  {
  }

  lemma MoreMembers(line: Text, tabs: Text, key: Text, tab: Text, value: Text, rest: Text, close: Text)
    ensures (line + tabs) + (key + ([] + ([COLON] + (tab + (value + []))))) + ([COMMA] + (line + (rest + close)))
            == line + ((tabs + key + ([COLON] + tab) + value + ([COMMA] + line) + rest) + close)
  {
  }

  // What each tree denotes.

  lemma {:induction false} TreeDenotes(v: Json, format: bool, depth: nat)
    requires Printable(v)
    ensures Rfc8259(TreeOf(v, format, depth)) && WellFormed(TreeOf(v, format, depth))
    ensures Denotes(TreeOf(v, format, depth)) == v
    decreases v, 0
  {
    TabsAreGap(format, depth);
    match v
    case Number(r) => NumberSpells(r);
    case String(t) => CharsSpell(t);
    case Array(items) => ElementsDenoteItems(items, format, depth + 1, []);
    case Object(members) => EntriesDenoteMembers(members, format, depth + 1);
    case _ =>
    RfcIsWellFormed(TreeOf(v, format, depth));
  }

  lemma {:induction false} ElementsDenoteItems(items: seq<Json>, format: bool, depth: nat, before: Text)
    requires PrintableItems(items) && RfcGap(before)
    ensures var es := ElementsOf(items, format, depth, before);
            RfcElements(es) && WellFormedElements(es) && ElementsDenote(es) == items
    decreases items, 1
  {
    hide Denotes, TreeOf, WellFormed, Rfc8259;
    TabsAreGap(format, depth);
    if items != [] {
      var es := ElementsOf(items, format, depth, before);
      var space := IfFormat(format, [SPACE]);
      assert es[1..] == ElementsOf(items[1..], format, depth, space);
      TreeDenotes(items[0], format, depth);
      ElementsDenoteItems(items[1..], format, depth, space);
      assert items == [items[0]] + items[1..];
    }
  }

  lemma {:induction false} EntriesDenoteMembers(members: seq<Member>, format: bool, depth: nat)
    requires PrintableMembers(members) && depth > 0
    ensures var es := EntriesOf(members, format, depth);
            RfcEntries(es) && WellFormedEntries(es) && EntriesDenote(es) == members
    decreases members, 1
  {
    hide Denotes, TreeOf, WellFormed, Rfc8259, CharsMeaning, CharsOf;
    TabsAreGap(format, depth);
    TabsAreGap(format, depth - 1);
    if members != [] {
      var es := EntriesOf(members, format, depth);
      assert es[1..] == EntriesOf(members[1..], format, depth);
      CharsSpell(members[0].key);
      TreeDenotes(members[0].value, format, depth);
      EntriesDenoteMembers(members[1..], format, depth);
      assert members == [members[0]] + members[1..];
    }
  }
}
