/** The main results about the reader and the writer together. */
module JsonTheorems {
  import opened Bytes
  import opened JsonNumber
  import opened JsonValue
  import opened JsonGrammar
  import opened JsonParse
  import opened JsonComplete
  import opened JsonCompleteTree
  import opened JsonRender
  import opened JsonRoundTrip

  function BomText(bom: bool): Text {
    if bom then BOM else []
  }

  /** A JSON text: an optional byte order mark, white space, a value, white space. */
  function Document(bom: bool, before: Text, t: Tree, after: Text): Text {
    BomText(bom) + (before + (TreeText(t) + after))
  }

  lemma DocumentParts(bom: bool, before: Text, t: Tree, after: Text)
    requires IsGap(before) && IsGap(after) && WellFormed(t)
    ensures var s := Document(bom, before, t, after) + [NUL];
            var i := |BomText(bom)|;
            var p := i + |before|;
            var q := p + |TreeText(t)|;
            Terminated(s) && SkipBom(s) == i && SkipWs(s, i) == p && p < |s| && At(s, p, TreeText(t))
            && Delimited(s, q) && q < |s|
            && SkipWs(s, q) == |s| - 1 && s[|s| - 1] == NUL
  {
    hide WellFormed, TreeText, IsNumberByte, At, SkipWs, SkipBom, IsGap;
    var mark, body := BomText(bom), TreeText(t);
    var s := Document(bom, before, t, after) + [NUL];
    assert s == mark + (before + (body + (after + [NUL])));
    FirstByteOfTree(t);
    PartsInPlace(s, bom, before, body, after);
  }

  lemma PartsInPlace(s: Text, bom: bool, before: Text, body: Text, after: Text)
    requires IsGap(before) && IsGap(after) && body != [] && body[0] != BOM[0] && body[0] > SPACE
    requires s == BomText(bom) + (before + (body + (after + [NUL])))
    ensures var i := |BomText(bom)|;
            var p := i + |before|;
            var q := p + |body|;
            Terminated(s) && SkipBom(s) == i && SkipWs(s, i) == p && p < |s| && At(s, p, body)
            && Delimited(s, q) && q < |s| && SkipWs(s, q) == |s| - 1
  {
    hide IsNumberByte, At, SkipWs, SkipBom, IsGap, BomText;
    FiveParts(s, BomText(bom), before, body, after, [NUL]);
    PlacedParts(s, bom, before, body, after);
  }

  lemma PlacedParts(s: Text, bom: bool, before: Text, body: Text, after: Text)
    requires IsGap(before) && IsGap(after) && body != [] && body[0] != BOM[0] && body[0] > SPACE
    requires |s| == |BomText(bom)| + |before| + |body| + |after| + 1
    requires At(s, 0, BomText(bom)) && At(s, |BomText(bom)|, before) && At(s, |BomText(bom)| + |before|, body)
    requires At(s, |BomText(bom)| + |before| + |body|, after) && At(s, |s| - 1, [NUL])
    ensures var i := |BomText(bom)|;
            var p := i + |before|;
            var q := p + |body|;
            Terminated(s) && SkipBom(s) == i && SkipWs(s, i) == p && p < |s| && At(s, p, body)
            && Delimited(s, q) && q < |s| && SkipWs(s, q) == |s| - 1
  {
    hide IsNumberByte, At, SkipWs, SkipBom, IsGap, BomText;
    var i := |BomText(bom)|;
    var p := i + |before|;
    var q := p + |body|;
    AtByte(s, p, body, 0);
    AtByte(s, q + |after|, [NUL], 0);
    SkipGap(s, i, before);
    NoBomByChance(s, bom, before, body);
    TailIsSkipped(s, q, after);
  }

  lemma FiveParts(s: Text, a: Text, b: Text, c: Text, d: Text, e: Text)
    requires s == a + (b + (c + (d + e)))
    ensures At(s, 0, a) && At(s, |a|, b) && At(s, |a| + |b|, c) && At(s, |a| + |b| + |c|, d)
    ensures At(s, |a| + |b| + |c| + |d|, e)
  {
    assert At(s, 0, a + (b + (c + (d + e))));
    hide At;
    AtSplit(s, 0, a, b + (c + (d + e)));
    AtSplit(s, |a|, b, c + (d + e));
    AtSplit(s, |a| + |b|, c, d + e);
    AtSplit(s, |a| + |b| + |c|, d, e);
  }

  /** Without a mark the text starts with white space or a value, never with the mark's first byte. */
  lemma NoBomByChance(s: Text, bom: bool, before: Text, body: Text)
    requires Terminated(s) && IsGap(before) && body != [] && body[0] != BOM[0]
    requires At(s, 0, BomText(bom)) && At(s, |BomText(bom)|, before) && At(s, |BomText(bom)| + |before|, body)
    requires |BomText(bom)| + |before| + |body| < |s|
    ensures SkipBom(s) == |BomText(bom)|
  {
    if !bom {
      if before == [] {
        AtByte(s, 0, body, 0);
      } else {
        AtByte(s, 0, before, 0);
      }
      assert s[0] != BOM[0];
      BomFirst(s);
    }
  }

  lemma BomFirst(s: Text)
    requires s != []
    ensures At(s, 0, BOM) ==> s[0] == BOM[0]
  {
    if At(s, 0, BOM) {
      AtByte(s, 0, BOM, 0);
    }
  }

  lemma {:induction false} TailIsSkipped(s: Text, q: nat, after: Text)
    requires Terminated(s) && IsGap(after) && q + |after| == |s| - 1 && At(s, q, after)
    ensures SkipWs(s, q) == |s| - 1
    ensures Delimited(s, q)
    decreases |after|
  {
    if after != [] {
      AtByte(s, q, after, 0);
      assert after == [after[0]] + after[1..];
      AtSplit(s, q, [after[0]], after[1..]);
      TailIsSkipped(s, q + 1, after[1..]);
    }
  }

  /**
   Every JSON text is read as the value it denotes, with strings as C sees them; it is refused
   exactly when it nests arrays and objects deeper than the limit.
   */
  lemma DocumentIsRead(bom: bool, before: Text, t: Tree, after: Text, requireNul: bool)
    requires IsGap(before) && IsGap(after) && WellFormed(t)
    ensures var text := Document(bom, before, t, after);
            if Depth(Denotes(t)) <= NESTING_LIMIT then
              ParseText(text, requireNul)
              == Parsed(Cut(Denotes(t)), if requireNul then |text| else |text| - |after|)
            else ParseText(text, requireNul).Failed?
  {
    hide WellFormed, TreeText, Denotes, ReadValue, IsNumberByte, SkipWs, At;
    DocumentParts(bom, before, t, after);
    var s := Document(bom, before, t, after) + [NUL];
    TreeIsRead(s, |BomText(bom)| + |before|, t, 0);
  }

  /**
   A text of RFC 8259 is read as exactly the value the standard gives it if and only if it nests no
   deeper than the limit and spells no NUL inside a string.
   */
  lemma StandardTextIsRead(before: Text, t: Tree, after: Text, requireNul: bool)
    requires RfcGap(before) && RfcGap(after) && Rfc8259(t)
    ensures WellFormed(t)
    ensures var r := ParseText(Document(false, before, t, after), requireNul);
            (r.Parsed? && r.value == Denotes(t))
            <==> Depth(Denotes(t)) <= NESTING_LIMIT && CStrings(Denotes(t))
  {
    RfcIsWellFormed(t);
    DocumentIsRead(false, before, t, after, requireNul);
    CutIsIdentity(Denotes(t));
  }

  /**
   Printing and parsing again gives the same value back, member order and duplicate keys included,
   for compact and formatted output, with and without the demand that nothing follows the value.
   */
  lemma RoundTrip(v: Json, format: bool, requireNul: bool)
    requires Printable(v)
    ensures var text := Render(v, format, 0);
            if Depth(v) <= NESTING_LIMIT then ParseText(text, requireNul) == Parsed(v, |text|)
            else ParseText(text, requireNul).Failed?
  {
    hide Render, TreeText, WellFormed, Denotes, ParseText, TreeOf, Rfc8259;
    var t := TreeOf(v, format, 0);
    TreeSpells(v, format, 0);
    TreeDenotes(v, format, 0);
    DocumentIsRead(false, [], t, [], requireNul);
    assert Document(false, [], t, []) == Render(v, format, 0);
    PrintableIsCStrings(v);
    CutIsIdentity(v);
  }

  /** What is printed is a text of the standard, for the value printed. */
  lemma PrintedTextIsStandard(v: Json, format: bool)
    requires Printable(v)
    ensures exists t :: Rfc8259(t) && WellFormed(t) && TreeText(t) == Render(v, format, 0) && Denotes(t) == v
  {
    TreeSpells(v, format, 0);
    TreeDenotes(v, format, 0);
  }

  lemma {:induction false} PrintableIsCStrings(v: Json)
    requires Printable(v)
    ensures CStrings(v)
    decreases v, 0
  {
    match v
    case Array(items) => PrintableItemsAreCStrings(items);
    case Object(members) => PrintableMembersAreCStrings(members);
    case _ =>
  }

  lemma {:induction false} PrintableItemsAreCStrings(items: seq<Json>)
    requires PrintableItems(items)
    ensures ItemsCStrings(items)
    decreases items, 1
  {
    if items != [] {
      PrintableIsCStrings(items[0]);
      PrintableItemsAreCStrings(items[1..]);
    }
  }

  lemma {:induction false} PrintableMembersAreCStrings(members: seq<Member>)
    requires PrintableMembers(members)
    ensures MembersCStrings(members)
    decreases members, 1
  {
    if members != [] {
      PrintableIsCStrings(members[0].value);
      PrintableMembersAreCStrings(members[1..]);
    }
  }

  // ---------- what any accepted text gives, well-formed or not ----------

  /** Whatever the text, a tree that comes back is within the limit and made of C strings. */
  lemma ParsedTreesAreBounded(text: Text, requireNul: bool)
    ensures var r := ParseText(text, requireNul);
            r.Parsed? ==> Depth(r.value) <= NESTING_LIMIT && CStrings(r.value) && r.end <= |text|
  {
    var s := text + [NUL];
    ValueIsBounded(s, SkipWs(s, SkipBom(s)), 0);
    hide ReadValue, Depth, CStrings;
  }

  lemma {:induction false} ValueIsBounded(s: Text, i: nat, depth: nat)
    requires Terminated(s) && i < |s| && depth <= NESTING_LIMIT
    ensures var r := ReadValue(s, i, depth);
            r.Ok? ==> depth + Depth(r.value) <= NESTING_LIMIT && CStrings(r.value)
    decreases |s| - i, 1
  {
    hide ReadString, ReadNumber;
    StringIsCString(s, i);
    if s[i] == LBRACKET {
      var j := SkipWs(s, i + 1);
      if depth < NESTING_LIMIT {
        ElementsAreBounded(s, j, depth + 1);
      }
    } else if s[i] == LBRACE {
      var j := SkipWs(s, i + 1);
      if depth < NESTING_LIMIT {
        EntriesAreBounded(s, j, depth + 1);
      }
    }
  }

  lemma StringIsCString(s: Text, i: nat)
    requires Terminated(s) && i < |s|
    ensures ReadString(s, i).Ok? ==> NUL !in ReadString(s, i).value
  {
    hide Decode, ClosingQuote;
  }

  lemma {:induction false} ElementsAreBounded(s: Text, i: nat, depth: nat)
    requires Terminated(s) && i < |s| && depth <= NESTING_LIMIT
    ensures var r := ReadElements(s, i, depth);
            r.Ok? ==> depth + ItemsDepth(r.value) <= NESTING_LIMIT && ItemsCStrings(r.value)
    decreases |s| - i, 2
  {
    hide ReadValue, SkipWs;
    var p := SkipWs(s, i);
    ValueIsBounded(s, p, depth);
    var head := ReadValue(s, p, depth);
    if head.Ok? {
      var k := SkipWs(s, head.next);
      if s[k] == COMMA && k + 1 < |s| {
        ElementsAreBounded(s, k + 1, depth);
        var rest := ReadElements(s, k + 1, depth);
        if rest.Ok? {
          assert ([head.value] + rest.value)[1..] == rest.value;
        }
      }
    }
  }

  lemma {:induction false} EntriesAreBounded(s: Text, i: nat, depth: nat)
    requires Terminated(s) && i < |s| && depth <= NESTING_LIMIT
    ensures var r := ReadEntries(s, i, depth);
            r.Ok? ==> depth + MembersDepth(r.value) <= NESTING_LIMIT && MembersCStrings(r.value)
    decreases |s| - i, 3
  {
    hide ReadEntry, SkipWs;
    EntryIsBounded(s, i, depth);
    var head := ReadEntry(s, i, depth);
    if head.Ok? {
      var k := SkipWs(s, head.next);
      if s[k] == COMMA && k + 1 < |s| {
        EntriesAreBounded(s, k + 1, depth);
        var rest := ReadEntries(s, k + 1, depth);
        if rest.Ok? {
          assert ([head.value] + rest.value)[1..] == rest.value;
        }
      }
    }
  }

  lemma {:induction false} EntryIsBounded(s: Text, i: nat, depth: nat)
    requires Terminated(s) && i < |s| && depth <= NESTING_LIMIT
    ensures var r := ReadEntry(s, i, depth);
            r.Ok? ==>
              depth + Depth(r.value.value) <= NESTING_LIMIT && CStrings(r.value.value) && NUL !in r.value.key
    decreases |s| - i, 2
  {
    hide ReadValue, ReadString, SkipWs;
    var p := SkipWs(s, i);
    StringIsCString(s, p);
    var key := ReadString(s, p);
    if key.Ok? {
      var c := SkipWs(s, key.next);
      if s[c] == COLON && c + 1 < |s| {
        ValueIsBounded(s, SkipWs(s, c + 1), depth);
      }
    }
  }
}
