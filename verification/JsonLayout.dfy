/**
 The layout of printed text, told token by token: what stands between two tokens depends on the brackets
 that are open and on the token before, and on nothing else.
 */
module JsonLayout {
  import opened Bytes
  import opened JsonNumber
  import opened JsonValue
  import opened JsonRender

  datatype Token = Mark(byte: Byte) | Atom(text: Text)

  function Tokens(v: Json): (ts: seq<Token>)
    requires Printable(v)
    ensures ts != [] && ts[0] != Mark(RBRACE)
    decreases v, 0
  {
    match v
    case Null => [Atom(NULL_WORD)]
    case False => [Atom(FALSE_WORD)]
    case True => [Atom(TRUE_WORD)]
    case Number(r) => [Atom(Decimal(r.Floor))]
    case String(t) => [Atom(RenderString(t))]
    case Array(items) => [Mark(LBRACKET)] + (ItemTokens(items) + [Mark(RBRACKET)])
    case Object(members) => [Mark(LBRACE)] + (MemberTokens(members) + [Mark(RBRACE)])
  }

  function ItemTokens(items: seq<Json>): seq<Token>
    requires PrintableItems(items)
    decreases items, 1
  {
    if items == [] then []
    else if |items| == 1 then Tokens(items[0])
    else Tokens(items[0]) + ([Mark(COMMA)] + ItemTokens(items[1..]))
  }

  function MemberTokens(members: seq<Member>): seq<Token>
    requires PrintableMembers(members)
    decreases members, 1
  {
    if members == [] then []
    else
      [Atom(RenderString(members[0].key)), Mark(COLON)]
      + (Tokens(members[0].value)
         + (if |members| == 1 then [] else [Mark(COMMA)] + MemberTokens(members[1..])))
  }

  // ---------- white space ----------

  /** The open brackets after a token. */
  function Opened(open: seq<Byte>, t: Token): seq<Byte> {
    if t == Mark(LBRACE) || t == Mark(LBRACKET) then open + [t.byte]
    else if (t == Mark(RBRACE) || t == Mark(RBRACKET)) && open != [] then open[..|open| - 1]
    else open
  }

  function Line(format: bool, tabs: nat): Text {
    if format then [NEWLINE] + Tabs(tabs) else []
  }

  /**
   What is due after a token, given the brackets open then: a line for each member, indented by the
   brackets around it, a space between items, a tab behind a colon.
   */
  function Due(format: bool, open: seq<Byte>, t: Token): Text {
    var inObject := open != [] && open[|open| - 1] == LBRACE;
    if t == Mark(LBRACE) || (t == Mark(COMMA) && inObject) then Line(format, |open|)
    else if t == Mark(COMMA) then IfFormat(format, [SPACE])
    else if t == Mark(COLON) then IfFormat(format, [TAB])
    else []
  }

  /** The tokens with their white space; a closing brace has a line of its own, whatever is due. */
  function Laid(format: bool, open: seq<Byte>, due: Text, ts: seq<Token>): Text
    decreases |ts|
  {
    if ts == [] then []
    else
      var t := ts[0];
      var gap := if t == Mark(RBRACE) then Line(format, if open == [] then 0 else |open| - 1) else due;
      var after := Opened(open, t);
      gap + ((if t.Mark? then [t.byte] else t.text) + Laid(format, after, Due(format, after, t), ts[1..]))
  }

  /** One token and the rest. */
  lemma LaidFirst(format: bool, open: seq<Byte>, due: Text, t: Token, ts: seq<Token>)
    ensures var gap := if t == Mark(RBRACE) then Line(format, if open == [] then 0 else |open| - 1) else due;
            var after := Opened(open, t);
            Laid(format, open, due, [t] + ts)
            == gap + ((if t.Mark? then [t.byte] else t.text) + Laid(format, after, Due(format, after, t), ts))
  {
    assert ([t] + ts)[1..] == ts;
  }

  lemma Closes(open: seq<Byte>, t: Token, close: Token)
    requires t == Mark(LBRACE) || t == Mark(LBRACKET)
    requires close == Mark(RBRACE) || close == Mark(RBRACKET)
    ensures Opened(Opened(open, t), close) == open && |Opened(open, t)| == |open| + 1
    ensures Opened(open, t)[|open|] == t.byte
  {
  }

  // ---------- rendering is laying out ----------

  lemma {:induction false} ValueIsLaid(v: Json, format: bool, open: seq<Byte>, due: Text, rest: seq<Token>)
    requires Printable(v)
    ensures Laid(format, open, due, Tokens(v) + rest)
            == due + (Render(v, format, |open|) + Laid(format, open, [], rest))
    decreases v, 0
  {
    match v
    case Array(items) => ArrayIsLaid(v, format, open, due, rest);
    case Object(members) => ObjectIsLaid(v, format, open, due, rest);
    case _ => LaidFirst(format, open, due, Tokens(v)[0], rest);
  }

  lemma {:induction false} ArrayIsLaid(v: Json, format: bool, open: seq<Byte>, due: Text, rest: seq<Token>)
    requires Printable(v) && v.Array?
    ensures Laid(format, open, due, Tokens(v) + rest)
            == due + (Render(v, format, |open|) + Laid(format, open, [], rest))
    decreases v.items, 2
  {
    hide Laid, ItemTokens, RenderItems;
    var items := v.items;
    var inside, end := open + [LBRACKET], [Mark(RBRACKET)] + rest;
    Closes(open, Mark(LBRACKET), Mark(RBRACKET));
    assert Tokens(v) + rest == [Mark(LBRACKET)] + (ItemTokens(items) + end);
    LaidFirst(format, open, due, Mark(LBRACKET), ItemTokens(items) + end);
    LaidFirst(format, inside, [], Mark(RBRACKET), rest);
    if items == [] {
      NoItems(format, |inside|);
      assert [] + end == end;
    } else {
      ItemsAreLaid(items, format, inside, [], end);
    }
    ArrayPieces(due, RenderItems(items, format, |inside|), Laid(format, open, [], rest));
  }

  lemma NoItems(format: bool, depth: nat)
    ensures ItemTokens([]) == [] && MemberTokens([]) == []
    ensures RenderItems([], format, depth) == [] && RenderMembers([], format, depth) == []
  {
  }

  lemma {:induction false} ItemsAreLaid(items: seq<Json>, format: bool, open: seq<Byte>, due: Text, rest: seq<Token>)
    requires PrintableItems(items) && items != [] && open != [] && open[|open| - 1] == LBRACKET
    ensures Laid(format, open, due, ItemTokens(items) + rest)
            == due + (RenderItems(items, format, |open|) + Laid(format, open, [], rest))
    decreases items, 1
  {
    hide Laid, Tokens, Render, ItemSeparator, IfFormat;
    if |items| == 1 {
      ValueIsLaid(items[0], format, open, due, rest);
    } else {
      var more := ItemTokens(items[1..]) + rest;
      assert ItemTokens(items) + rest == Tokens(items[0]) + ([Mark(COMMA)] + more);
      ValueIsLaid(items[0], format, open, due, [Mark(COMMA)] + more);
      LaidFirst(format, open, [], Mark(COMMA), more);
      ItemsAreLaid(items[1..], format, open, IfFormat(format, [SPACE]), rest);
      ItemPieces(due, Render(items[0], format, |open|), IfFormat(format, [SPACE]),
                 RenderItems(items[1..], format, |open|), Laid(format, open, [], rest));
      SeparatorPieces(format);
    }
  }

  lemma SeparatorPieces(format: bool)
    ensures ItemSeparator(format) == [COMMA] + IfFormat(format, [SPACE])
  {
  }

  lemma ItemPieces(due: Text, item: Text, space: Text, items: Text, after: Text)
    ensures due + (item + ([] + ([COMMA] + (space + (items + after)))))
            == due + ((item + ([COMMA] + space) + items) + after)
  {
  }

  lemma ArrayPieces(due: Text, items: Text, after: Text)
    ensures due + ([LBRACKET] + ([] + (items + ([] + ([RBRACKET] + after)))))
            == due + (([LBRACKET] + (items + [RBRACKET])) + after)
    ensures due + ([LBRACKET] + ([] + ([RBRACKET] + after))) == due + (([LBRACKET] + ([] + [RBRACKET])) + after)
  {
  }

  lemma {:induction false} ObjectIsLaid(v: Json, format: bool, open: seq<Byte>, due: Text, rest: seq<Token>)
    requires Printable(v) && v.Object?
    ensures Laid(format, open, due, Tokens(v) + rest)
            == due + (Render(v, format, |open|) + Laid(format, open, [], rest))
    decreases v.members, 2
  {
    hide Laid, MemberTokens, RenderMembers;
    var members := v.members;
    var inside, end := open + [LBRACE], [Mark(RBRACE)] + rest;
    Closes(open, Mark(LBRACE), Mark(RBRACE));
    assert Tokens(v) + rest == [Mark(LBRACE)] + (MemberTokens(members) + end);
    LaidFirst(format, open, due, Mark(LBRACE), MemberTokens(members) + end);
    if members == [] {
      NoItems(format, |inside|);
      assert [] + end == end;
      LaidFirst(format, inside, Line(format, |inside|), Mark(RBRACE), rest);
    } else {
      MembersAreLaid(members, format, inside, rest);
    }
    var line, close := IfFormat(format, [NEWLINE]), IfFormat(format, Tabs(|open|));
    ObjectPieces(line, RenderMembers(members, format, |inside|), close, Laid(format, open, [], rest));
    assert Line(format, |open|) == line + close;
  }

  lemma ObjectPieces(line: Text, members: Text, close: Text, after: Text)
    ensures ([LBRACE] + line + members + (close + [RBRACE])) + after
            == [LBRACE] + ((line + members) + (close + ([RBRACE] + after)))
    ensures [LBRACE] + ((line + close) + ([RBRACE] + after)) == ([LBRACE] + line + [] + (close + [RBRACE])) + after
  {
  }

  /** The line break behind the last member is the one before the closing brace. */
  lemma {:induction false} MembersAreLaid(members: seq<Member>, format: bool, open: seq<Byte>, rest: seq<Token>)
    requires PrintableMembers(members) && members != [] && open != [] && open[|open| - 1] == LBRACE
    ensures Laid(format, open, Line(format, |open|), MemberTokens(members) + ([Mark(RBRACE)] + rest))
            == (IfFormat(format, [NEWLINE]) + RenderMembers(members, format, |open|))
               + (IfFormat(format, Tabs(|open| - 1)) + ([RBRACE] + Laid(format, open[..|open| - 1], [], rest)))
    decreases members, 1
  {
    hide Laid, Tokens, Render, RenderString, RenderMembers, IfFormat, Line, MemberTokens;
    var m, more, end := members[0], members[1..], [Mark(RBRACE)] + rest;
    var key, colon := Atom(RenderString(m.key)), Mark(COLON);
    var tail := if more == [] then end else [Mark(COMMA)] + (MemberTokens(more) + end);
    var line, tabs, tab := IfFormat(format, [NEWLINE]), IfFormat(format, Tabs(|open|)), IfFormat(format, [TAB]);
    var close := IfFormat(format, Tabs(|open| - 1));
    var last := Laid(format, open[..|open| - 1], [], rest);
    MemberStarts(members, end, tail);
    LaidFirst(format, open, Line(format, |open|), key, [colon] + (Tokens(m.value) + tail));
    LaidFirst(format, open, [], colon, Tokens(m.value) + tail);
    ValueIsLaid(m.value, format, open, tab, tail);
    LineBreaks(format, |open|);
    LineBreaks(format, |open| - 1);
    MembersRendered(members, format, |open|);
    if more == [] {
      LaidFirst(format, open, [], Mark(RBRACE), rest);
      LastPieces(line, tabs, key.text, tab, Render(m.value, format, |open|), close, last);
    } else {
      LaidFirst(format, open, [], Mark(COMMA), MemberTokens(more) + end);
      MembersAreLaid(more, format, open, rest);
      MorePieces(line, tabs, key.text, tab, Render(m.value, format, |open|),
                 RenderMembers(more, format, |open|), close + ([RBRACE] + last));
    }
  }

  lemma LineBreaks(format: bool, tabs: nat)
    ensures Line(format, tabs) == IfFormat(format, [NEWLINE]) + IfFormat(format, Tabs(tabs))
  {
  }

  lemma MembersRendered(members: seq<Member>, format: bool, depth: nat)
    requires PrintableMembers(members) && members != []
    ensures RenderMembers(members, format, depth)
            == (IfFormat(format, Tabs(depth)) + RenderString(members[0].key)
                + ([COLON] + IfFormat(format, [TAB])) + Render(members[0].value, format, depth)
                + ((if |members| == 1 then [] else [COMMA]) + IfFormat(format, [NEWLINE])))
               + if |members| == 1 then [] else RenderMembers(members[1..], format, depth)
  {
    hide Render, RenderString, IfFormat;
    var m := members[0];
    assert RenderMembers(members, format, depth)
        == RenderMember(m, format, depth, |members| == 1) + RenderMembers(members[1..], format, depth);
    if |members| == 1 {
      assert members[1..] == [] && RenderMembers([], format, depth) == [];
    }
  }

  lemma {:induction false} MemberStarts(members: seq<Member>, end: seq<Token>, tail: seq<Token>)
    requires PrintableMembers(members) && members != []
    requires tail == if |members| == 1 then end else [Mark(COMMA)] + (MemberTokens(members[1..]) + end)
    ensures MemberTokens(members) + end
            == [Atom(RenderString(members[0].key))] + ([Mark(COLON)] + (Tokens(members[0].value) + tail))
  {
    hide Tokens, RenderString;
  }

  lemma LastPieces(line: Text, tabs: Text, key: Text, tab: Text, value: Text, close: Text, last: Text)
    ensures (line + tabs) + (key + ([] + ([COLON] + (tab + (value + ((line + close) + ([RBRACE] + last)))))))
            == (line + ((tabs + key + ([COLON] + tab) + value + ([] + line)) + [])) + (close + ([RBRACE] + last))
  {
  }

  lemma MorePieces(line: Text, tabs: Text, key: Text, tab: Text, value: Text, members: Text, after: Text)
    ensures (line + tabs) + (key + ([] + ([COLON] + (tab + (value + ([] + ([COMMA] + ((line + members) + after))))))))
            == (line + ((tabs + key + ([COLON] + tab) + value + ([COMMA] + line)) + members)) + after
  {
  }

  /** What is printed for a value is its tokens, laid out, or one after the other in compact form. */
  lemma RenderingIsLayout(v: Json, format: bool)
    requires Printable(v)
    ensures Render(v, format, 0) == Laid(format, [], [], Tokens(v))
  {
    hide Render, Tokens;
    ValueIsLaid(v, format, [], [], []);
    assert Tokens(v) + [] == Tokens(v);
    assert Render(v, format, 0) + [] == Render(v, format, 0);
  }
}
