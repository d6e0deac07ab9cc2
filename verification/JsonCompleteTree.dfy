/**
 Completeness: the parser reads the text of every derivation tree nested within the limit as the
 value the tree denotes, and refuses the text of every tree nested deeper.
 */
module JsonCompleteTree {
  import opened Bytes
  import opened JsonNumber
  import opened JsonValue
  import opened JsonGrammar
  import opened JsonParse
  import opened JsonComplete
  import opened JsonCompleteNumber

  /** The outcome the grammar calls for: the value when it fits under the limit, else a refusal. */
  ghost predicate Expected<T>(r: Outcome<T>, levels: nat, value: T, end: nat) {
    if levels <= NESTING_LIMIT then r == Ok(value, end) else r.Err?
  }

  lemma FirstByteOfTree(t: Tree)
    requires WellFormed(t)
    ensures TreeText(t) != []
    ensures var b := TreeText(t)[0];
            b > SPACE && b != RBRACKET && b != RBRACE && b != BOM[0]
            && (t.NullTree? <==> b == LOWER_N) && (t.FalseTree? <==> b == LOWER_F) && (t.TrueTree? <==> b == LOWER_T)
            && (t.StringTree? <==> b == QUOTE) && (t.ArrayTree? <==> b == LBRACKET)
            && (t.ObjectTree? <==> b == LBRACE) && (t.NumberTree? <==> b == MINUS || IsDigit(b))
  {
    match t
    case NumberTree(n) => FirstByte(n);
    case _ =>
  }

  /** Which branch the value reader takes, by the first byte alone. */
  lemma Dispatch(s: Text, i: nat, depth: nat)
    requires Terminated(s) && i < |s|
    ensures s[i] == QUOTE ==>
              ReadValue(s, i, depth) == match ReadString(s, i)
                                        case Ok(t, next) => Ok(String(t), next)
                                        case Err(at) => Err(at)
    ensures s[i] == MINUS || IsDigit(s[i]) ==>
              ReadValue(s, i, depth) == match ReadNumber(s, i)
                                        case Ok(v, next) => Ok(Number(v), next)
                                        case Err(at) => Err(at)
    ensures s[i] == LBRACKET ==> ReadValue(s, i, depth) == ReadArray(s, i, depth)
    ensures s[i] == LBRACE ==> ReadValue(s, i, depth) == ReadObject(s, i, depth)
    ensures At(s, i, NULL_WORD) ==> ReadValue(s, i, depth) == Ok(Null, i + 4)
    ensures At(s, i, FALSE_WORD) ==> ReadValue(s, i, depth) == Ok(False, i + 5)
    ensures At(s, i, TRUE_WORD) ==> ReadValue(s, i, depth) == Ok(True, i + 4)
  {
    if At(s, i, NULL_WORD) {
      AtByte(s, i, NULL_WORD, 0);
    } else if At(s, i, FALSE_WORD) {
      AtByte(s, i, FALSE_WORD, 0);
    } else if At(s, i, TRUE_WORD) {
      AtByte(s, i, TRUE_WORD, 0);
    }
  }

  /** What may stand after a value: nothing that could belong to a number. */
  predicate Delimited(s: Text, k: nat) {
    k < |s| && !IsNumberByte(s[k])
  }

  lemma {:induction false} TreeIsRead(s: Text, i: nat, t: Tree, depth: nat)
    requires Terminated(s) && WellFormed(t) && At(s, i, TreeText(t)) && i + |TreeText(t)| < |s|
    requires t.NumberTree? ==> Delimited(s, i + |TreeText(t)|)
    requires depth <= NESTING_LIMIT
    ensures i < |s|
    ensures Expected(ReadValue(s, i, depth), depth + Depth(Denotes(t)), Cut(Denotes(t)), i + |TreeText(t)|)
    decreases t, 0
  {
    hide ReadString, ReadNumber, ReadArray, ReadObject, IsNumberByte, NumberMeaning, CharsMeaning, CString;
    hide NumberText, Quoted;
    FirstByteOfTree(t);
    AtByte(s, i, TreeText(t), 0);
    Dispatch(s, i, depth);
    match t
    case NumberTree(n) => NumberIsRead(s, i, n);
    case StringTree(cs) => StringIsRead(s, i, cs);
    case ArrayTree(gap, es) => ArrayIsRead(s, i, t, depth);
    case ObjectTree(gap, es) => ObjectIsRead(s, i, t, depth);
    case _ =>
  }

  /** Reading a list of which the first outcome and the outcome of the rest are as expected. */
  lemma ListOutcome<T>(head: Outcome<T>, rest: Outcome<seq<T>>, whole: Outcome<seq<T>>,
                       depth: nat, levels: nat, restLevels: nat, v: T, vs: seq<T>, next: nat, end: nat)
    requires Expected(head, depth + levels, v, next)
    requires Expected(rest, depth + restLevels, vs, end)
    requires whole == match head case Err(at) => Err(at) case Ok(x, _) => PrefixedItem(x, rest)
    ensures Expected(whole, depth + Max(levels, restLevels), [v] + vs, end)
  {
  }

  // ---------- arrays ----------

  lemma {:induction false} ArrayIsRead(s: Text, i: nat, t: Tree, depth: nat)
    requires Terminated(s) && WellFormed(t) && t.ArrayTree? && At(s, i, TreeText(t)) && i < |s|
    requires s[i] == LBRACKET
    ensures Expected(ReadArray(s, i, depth), depth + Depth(Denotes(t)), Cut(Denotes(t)), i + |TreeText(t)|)
    decreases t.elements, 4
  {
    hide IsGap, WellFormedChars, Max;
    hide At;
    hide ElementsText, ReadElements, WellFormedElements, SkipWs;
    if depth < NESTING_LIMIT {
      if t.elements == [] {
        EmptyListParts(s, i, LBRACKET, t.gap, RBRACKET);
      } else {
        ListParts(s, i, LBRACKET, ElementsText(t.elements), RBRACKET);
        ElementsAreRead(s, i + 1, t.elements, depth + 1);
        ElementsStart(s, i + 1, t.elements, depth + 1);
      }
    }
  }

  lemma EmptyListParts(s: Text, i: nat, open: Byte, gap: Text, close: Byte)
    requires Terminated(s) && IsGap(gap) && close > SPACE && At(s, i, [open] + (gap + [close]))
    ensures i + 1 < |s| && SkipWs(s, i + 1) == i + 1 + |gap| && s[i + 1 + |gap|] == close
  {
    hide At;
    AtSplit(s, i, [open], gap + [close]);
    AtSplit(s, i + 1, gap, [close]);
    AtByte(s, i + 1 + |gap|, [close], 0);
    SkipGap(s, i + 1, gap);
  }

  lemma ListParts(s: Text, i: nat, open: Byte, inner: Text, close: Byte)
    requires At(s, i, [open] + (inner + [close]))
    ensures At(s, i + 1, inner + [close])
  {
    hide At;
    AtSplit(s, i, [open], inner + [close]);
  }

  /** Skipping to the first element beforehand makes no difference, and finds no closing bracket. */
  lemma ElementsStart(s: Text, i: nat, es: seq<Element>, depth: nat)
    requires Terminated(s) && WellFormedElements(es) && es != [] && At(s, i, ElementsText(es) + [RBRACKET])
    ensures i < |s|
    ensures s[SkipWs(s, i)] != RBRACKET
    ensures ReadElements(s, SkipWs(s, i), depth) == ReadElements(s, i, depth)
  {
    hide ReadElements, SkipWs, ElementText, ElementsText;
    hide IsGap, WellFormed, WellFormedChars;
    hide At;
    hide ReadValue, TreeText;
    ElementParts(s, i, es);
    ElementGaps(s, i, es[0]);
    ElementsFrom(s, SkipWs(s, i), i, depth);
  }

  lemma ElementsFrom(s: Text, p: nat, i: nat, depth: nat)
    requires Terminated(s) && i < |s| && p < |s| && SkipWs(s, i) == SkipWs(s, p)
    ensures ReadElements(s, p, depth) == ReadElements(s, i, depth)
  {
    hide SkipWs, ReadValue;
  }

  /** The pieces of one element. */
  lemma ElementGaps(s: Text, i: nat, e: Element)
    requires Terminated(s) && WellFormedElement(e) && At(s, i, ElementText(e))
    requires var r := i + |ElementText(e)|; r < |s| && (s[r] == COMMA || s[r] == RBRACKET)
    ensures var p := i + |e.before|;
            var q := p + |TreeText(e.tree)|;
            var r := q + |e.after|;
            p < q && r == i + |ElementText(e)|
            && At(s, p, TreeText(e.tree)) && SkipWs(s, i) == p && SkipWs(s, p) == p
            && s[p] != RBRACKET && SkipWs(s, q) == r && Delimited(s, q)
  {
    hide IsGap, WellFormed, WellFormedChars;
    hide At;
    hide TreeText, IsNumberByte;
    AtSplit(s, i, e.before, TreeText(e.tree) + e.after);
    var p := i + |e.before|;
    var q := p + |TreeText(e.tree)|;
    AtSplit(s, p, TreeText(e.tree), e.after);
    FirstByteOfTree(e.tree);
    AtByte(s, p, TreeText(e.tree), 0);
    SkipGap(s, i, e.before);
    AfterGap(s, q, e.after);
    SkipGap(s, q, e.after);
  }

  /** The first element, the byte after it, and the rest of the list. */
  lemma ElementParts(s: Text, i: nat, es: seq<Element>)
    requires es != [] && At(s, i, ElementsText(es) + [RBRACKET])
    ensures var r := i + |ElementText(es[0])|;
            At(s, i, ElementText(es[0])) && r < |s|
            && if |es| == 1 then s[r] == RBRACKET && r == i + |ElementsText(es)|
               else s[r] == COMMA && At(s, r + 1, ElementsText(es[1..]) + [RBRACKET])
                    && r + 1 + |ElementsText(es[1..])| == i + |ElementsText(es)|
  {
    hide At;
    hide ElementText;
    var e := es[0];
    var rest := if |es| == 1 then [RBRACKET] else [COMMA] + (ElementsText(es[1..]) + [RBRACKET]);
    assert ElementsText(es) + [RBRACKET] == ElementText(e) + rest;
    AtSplit(s, i, ElementText(e), rest);
    var r := i + |ElementText(e)|;
    AtByte(s, r, rest, 0);
    if |es| != 1 {
      AtSplit(s, r, [COMMA], ElementsText(es[1..]) + [RBRACKET]);
    }
  }

  lemma ElementsUnfold(s: Text, i: nat, depth: nat, p: nat, q: nat, k: nat)
    requires Terminated(s) && i < |s| && q < |s| && SkipWs(s, i) == p && SkipWs(s, q) == k
    requires ReadValue(s, p, depth).Ok? ==> ReadValue(s, p, depth).next == q
    requires s[k] == RBRACKET || (s[k] == COMMA && k + 1 < |s|)
    ensures ReadElements(s, i, depth)
            == match ReadValue(s, p, depth)
               case Err(at) => Err(at)
               case Ok(v, _) =>
                 PrefixedItem(v, if s[k] == COMMA then ReadElements(s, k + 1, depth) else Ok([], k + 1))
  {
    hide At;
    hide ReadValue, SkipWs;
    if ReadValue(s, p, depth).Ok? {
      var v := ReadValue(s, p, depth).value;
      assert [v] + [] == [v];
    }
  }

  lemma ElementsDenoteCons(es: seq<Element>)
    requires WellFormedElements(es) && es != []
    ensures ElementsDenote(es) == [Denotes(es[0].tree)] + ElementsDenote(es[1..])
    ensures ItemsDepth(ElementsDenote(es))
            == Max(Depth(Denotes(es[0].tree)), ItemsDepth(ElementsDenote(es[1..])))
    ensures CutItems(ElementsDenote(es)) == [Cut(Denotes(es[0].tree))] + CutItems(ElementsDenote(es[1..]))
  {
    hide Denotes;
    assert ElementsDenote(es)[1..] == ElementsDenote(es[1..]);
  }

  lemma {:induction false} ElementsAreRead(s: Text, i: nat, es: seq<Element>, depth: nat)
    requires Terminated(s) && WellFormedElements(es) && es != [] && depth <= NESTING_LIMIT
    requires At(s, i, ElementsText(es) + [RBRACKET])
    ensures i < |s|
    ensures Expected(ReadElements(s, i, depth), depth + ItemsDepth(ElementsDenote(es)),
                     CutItems(ElementsDenote(es)), i + |ElementsText(es)| + 1)
    decreases es, 3
  {
    hide Cut, CutItems, Depth, ItemsDepth, Max;
    hide IsGap, WellFormed, WellFormedChars;
    hide At;
    hide ReadElements, ReadValue, TreeText, Denotes, ElementText, ElementsText, ElementsDenote, IsNumberByte;
    hide SkipWs;
    var e, rest := es[0], es[1..];
    ElementParts(s, i, es);
    ElementGaps(s, i, e);
    var p := i + |e.before|;
    var q := p + |TreeText(e.tree)|;
    var r := i + |ElementText(e)|;
    TreeIsRead(s, p, e.tree, depth);
    ElementsUnfold(s, i, depth, p, q, r);
    ElementsDenoteCons(es);
    var tail: Outcome<seq<Json>> := Ok([], r + 1);
    if rest == [] {
      EmptyDenotes();
    } else {
      ElementsAreRead(s, r + 1, rest, depth);
      tail := ReadElements(s, r + 1, depth);
    }
    ListOutcome(ReadValue(s, p, depth), tail, ReadElements(s, i, depth), depth,
                Depth(Denotes(e.tree)), ItemsDepth(ElementsDenote(rest)),
                Cut(Denotes(e.tree)), CutItems(ElementsDenote(rest)), q, i + |ElementsText(es)| + 1);
  }

  lemma EmptyDenotes()
    ensures ElementsDenote([]) == [] && EntriesDenote([]) == []
    ensures ItemsDepth([]) == 0 && MembersDepth([]) == 0
    ensures CutItems([]) == [] && CutMembers([]) == []
  {
  }

  /** White space or a delimiter, never a number byte, follows a value in a list. */
  lemma AfterGap(s: Text, q: nat, gap: Text)
    requires IsGap(gap) && At(s, q, gap) && q + |gap| < |s|
    requires s[q + |gap|] == COMMA || s[q + |gap|] == RBRACKET || s[q + |gap|] == RBRACE
    ensures Delimited(s, q)
  {
    if gap != [] {
      AtByte(s, q, gap, 0);
    }
  }

  // ---------- objects ----------

  lemma {:induction false} ObjectIsRead(s: Text, i: nat, t: Tree, depth: nat)
    requires Terminated(s) && WellFormed(t) && t.ObjectTree? && At(s, i, TreeText(t)) && i < |s|
    requires s[i] == LBRACE
    ensures Expected(ReadObject(s, i, depth), depth + Depth(Denotes(t)), Cut(Denotes(t)), i + |TreeText(t)|)
    decreases t.entries, 5
  {
    hide At, SkipWs, IsGap, ReadObject, EntriesText, EntriesDenote, MembersDepth, CutMembers, WellFormedEntries;
    EmptyDenotes();
    if t.entries == [] {
      EmptyObjectIsRead(s, i, t.gap, depth);
    } else if depth < NESTING_LIMIT {
      MembersAreRead(s, i, t.entries, depth);
    } else {
      ObjectTooDeep(s, i, depth);
    }
  }

  lemma ObjectTooDeep(s: Text, i: nat, depth: nat)
    requires Terminated(s) && i < |s| && s[i] == LBRACE && depth >= NESTING_LIMIT
    ensures ReadObject(s, i, depth).Err?
  {
  }

  lemma EmptyObjectIsRead(s: Text, i: nat, gap: Text, depth: nat)
    requires Terminated(s) && i < |s| && s[i] == LBRACE && IsGap(gap) && At(s, i, [LBRACE] + (gap + [RBRACE]))
    ensures Expected(ReadObject(s, i, depth), depth + 1, Object([]), i + (|gap| + 2))
  {
    hide At, SkipWs, IsGap, ReadEntries;
    EmptyListParts(s, i, LBRACE, gap, RBRACE);
  }

  lemma {:induction false} MembersAreRead(s: Text, i: nat, es: seq<Entry>, depth: nat)
    requires Terminated(s) && WellFormedEntries(es) && es != [] && i + 1 < |s| && s[i] == LBRACE
    requires At(s, i, [LBRACE] + (EntriesText(es) + [RBRACE])) && depth < NESTING_LIMIT
    ensures Expected(ReadObject(s, i, depth), depth + (1 + MembersDepth(EntriesDenote(es))),
                     Object(CutMembers(EntriesDenote(es))), i + (|EntriesText(es)| + 2))
    decreases es, 4
  {
    hide EntriesText, ReadEntries, WellFormedEntries, SkipWs, At, ReadObject, EntriesDenote;
    ListParts(s, i, LBRACE, EntriesText(es), RBRACE);
    EntriesAreRead(s, i + 1, es, depth + 1);
    EntriesStart(s, i + 1, es, depth + 1);
    ObjectOutcome(s, i, depth, MembersDepth(EntriesDenote(es)), CutMembers(EntriesDenote(es)),
                  i + (|EntriesText(es)| + 2));
  }

  lemma ObjectOutcome(s: Text, i: nat, depth: nat, levels: nat, members: seq<Member>, end: nat)
    requires Terminated(s) && i + 1 < |s| && s[i] == LBRACE && depth < NESTING_LIMIT
    requires s[SkipWs(s, i + 1)] != RBRACE
    requires Expected(ReadEntries(s, SkipWs(s, i + 1), depth + 1), depth + 1 + levels, members, end)
    ensures Expected(ReadObject(s, i, depth), depth + (1 + levels), Object(members), end)
  {
    hide ReadEntries, SkipWs;
  }

  lemma EntriesStart(s: Text, i: nat, es: seq<Entry>, depth: nat)
    requires Terminated(s) && WellFormedEntries(es) && es != [] && At(s, i, EntriesText(es) + [RBRACE])
    ensures i < |s|
    ensures s[SkipWs(s, i)] != RBRACE
    ensures ReadEntries(s, SkipWs(s, i), depth) == ReadEntries(s, i, depth)
  {
    hide ReadEntries, SkipWs, EntryText, EntriesText;
    hide IsGap, WellFormed, WellFormedChars;
    hide At;
    hide ReadEntry, ReadValue, EntryText, ReadString;
    EntryParts(s, i, es);
    KeyGaps(s, i, es[0]);
    EntriesFrom(s, SkipWs(s, i), i, depth);
  }

  lemma EntriesFrom(s: Text, p: nat, i: nat, depth: nat)
    requires Terminated(s) && i < |s| && p < |s| && SkipWs(s, i) == SkipWs(s, p)
    ensures ReadEntries(s, p, depth) == ReadEntries(s, i, depth)
  {
    hide SkipWs, ReadString, ReadValue;
    assert ReadEntry(s, p, depth) == ReadEntry(s, i, depth);
  }

  /** The first entry, the byte after it, and the rest of the list. */
  lemma EntryParts(s: Text, i: nat, es: seq<Entry>)
    requires es != [] && At(s, i, EntriesText(es) + [RBRACE])
    ensures var r := i + |EntryText(es[0])|;
            At(s, i, EntryText(es[0])) && r < |s|
            && if |es| == 1 then s[r] == RBRACE && r == i + |EntriesText(es)|
               else s[r] == COMMA && At(s, r + 1, EntriesText(es[1..]) + [RBRACE])
                    && r + 1 + |EntriesText(es[1..])| == i + |EntriesText(es)|
  {
    hide At;
    hide EntryText;
    var e := es[0];
    var rest := if |es| == 1 then [RBRACE] else [COMMA] + (EntriesText(es[1..]) + [RBRACE]);
    assert EntriesText(es) + [RBRACE] == EntryText(e) + rest;
    AtSplit(s, i, EntryText(e), rest);
    var r := i + |EntryText(e)|;
    AtByte(s, r, rest, 0);
    if |es| != 1 {
      AtSplit(s, r, [COMMA], EntriesText(es[1..]) + [RBRACE]);
    }
  }

  /** Seven texts in a row. */
  lemma SevenParts(s: Text, i: nat, a: Text, b: Text, c: Text, d: Text, e: Text, f: Text, g: Text)
    requires At(s, i, a + (b + (c + (d + (e + (f + g))))))
    ensures At(s, i, a)
    ensures At(s, i + |a|, b)
    ensures At(s, i + |a| + |b|, c)
    ensures At(s, i + |a| + |b| + |c|, d)
    ensures At(s, i + |a| + |b| + |c| + |d|, e)
    ensures At(s, i + |a| + |b| + |c| + |d| + |e|, f)
    ensures At(s, i + |a| + |b| + |c| + |d| + |e| + |f|, g)
  {
    hide At;
    AtSplit(s, i, a, b + (c + (d + (e + (f + g)))));
    AtSplit(s, i + |a|, b, c + (d + (e + (f + g))));
    AtSplit(s, i + |a| + |b|, c, d + (e + (f + g)));
    AtSplit(s, i + |a| + |b| + |c|, d, e + (f + g));
    AtSplit(s, i + |a| + |b| + |c| + |d|, e, f + g);
    AtSplit(s, i + |a| + |b| + |c| + |d| + |e|, f, g);
  }

  /** Where the value of an entry stands. */
  function ValuePlace(i: nat, e: Entry): nat {
    i + |e.before| + |Quoted(e.key)| + |e.beforeColon| + 1 + |e.afterColon|
  }

  /** The key of an entry and its colon. */
  lemma KeyGaps(s: Text, i: nat, e: Entry)
    requires Terminated(s) && WellFormedEntry(e) && At(s, i, EntryText(e)) && i + |EntryText(e)| < |s|
    ensures var p := i + |e.before|;
            var q := p + |Quoted(e.key)|;
            var c := q + |e.beforeColon|;
            p < |s| && q < |s| && c + 1 < |s|
            && SkipWs(s, i) == p && SkipWs(s, p) == p && At(s, p, Quoted(e.key)) && s[p] == QUOTE
            && SkipWs(s, q) == c && s[c] == COLON
  {
    hide IsGap, WellFormed, WellFormedChars, At, TreeText, Quoted, SkipWs;
    SevenParts(s, i, e.before, Quoted(e.key), e.beforeColon, [COLON], e.afterColon, TreeText(e.tree), e.after);
    FirstByteOfQuoted(e.key);
    var p := i + |e.before|;
    var q := p + |Quoted(e.key)|;
    AtByte(s, p, Quoted(e.key), 0);
    AtByte(s, q + |e.beforeColon|, [COLON], 0);
    SkipGap(s, i, e.before);
    SkipGap(s, q, e.beforeColon);
    EmptyGap(s, p);
  }

  lemma EmptyGap(s: Text, p: nat)
    requires Terminated(s) && p < |s| && s[p] > SPACE
    ensures SkipWs(s, p) == p
  {
  }

  /** The value of an entry and the white space around it. */
  lemma ValueGaps(s: Text, i: nat, e: Entry)
    requires Terminated(s) && WellFormedEntry(e) && At(s, i, EntryText(e))
    requires var r := i + |EntryText(e)|; r < |s| && (s[r] == COMMA || s[r] == RBRACE)
    ensures var v := ValuePlace(i, e);
            var a := v + |TreeText(e.tree)|;
            v < a && a < |s| && v - |e.afterColon| < |s| && SkipWs(s, v - |e.afterColon|) == v
            && At(s, v, TreeText(e.tree)) && a + |e.after| == i + |EntryText(e)|
            && SkipWs(s, a) == a + |e.after| && Delimited(s, a)
  {
    hide IsGap, WellFormed, WellFormedChars, At, TreeText, Quoted, IsNumberByte, SkipWs;
    SevenParts(s, i, e.before, Quoted(e.key), e.beforeColon, [COLON], e.afterColon, TreeText(e.tree), e.after);
    FirstByteOfTree(e.tree);
    var v := ValuePlace(i, e);
    var a := v + |TreeText(e.tree)|;
    AtByte(s, v, TreeText(e.tree), 0);
    SkipGap(s, v - |e.afterColon|, e.afterColon);
    AfterGap(s, a, e.after);
    SkipGap(s, a, e.after);
  }

  lemma FirstByteOfQuoted(cs: seq<Char>)
    ensures |Quoted(cs)| >= 2 && Quoted(cs)[0] == QUOTE
  {
  }

  /** The key and colon of an entry are read; what is left is its value, at a known place. */
  lemma EntryIsRead(s: Text, i: nat, e: Entry, depth: nat)
    requires Terminated(s) && WellFormedEntry(e) && At(s, i, EntryText(e)) && depth <= NESTING_LIMIT
    requires var r := i + |EntryText(e)|; r < |s| && (s[r] == COMMA || s[r] == RBRACE)
    requires Expected(ReadValue(s, ValuePlace(i, e), depth), depth + Depth(Denotes(e.tree)),
                      Cut(Denotes(e.tree)), i + |EntryText(e)| - |e.after|)
    ensures i < |s|
    ensures Expected(ReadEntry(s, i, depth), depth + Depth(Denotes(e.tree)),
                     Member(CString(CharsMeaning(e.key)), Cut(Denotes(e.tree))), i + |EntryText(e)| - |e.after|)
  {
    hide IsGap, WellFormed, WellFormedChars;
    hide At;
    hide ReadValue, ReadString, TreeText, CharsMeaning, CString, Quoted, Denotes, EntryText, IsNumberByte, SkipWs;
    KeyGaps(s, i, e);
    ValueGaps(s, i, e);
    StringIsRead(s, i + |e.before|, e.key);
  }

  lemma EntriesUnfold(s: Text, i: nat, depth: nat, q: nat, k: nat)
    requires Terminated(s) && i < |s| && q < |s| && SkipWs(s, q) == k
    requires ReadEntry(s, i, depth).Ok? ==> ReadEntry(s, i, depth).next == q
    requires s[k] == RBRACE || (s[k] == COMMA && k + 1 < |s|)
    ensures ReadEntries(s, i, depth)
            == match ReadEntry(s, i, depth)
               case Err(at) => Err(at)
               case Ok(m, _) =>
                 PrefixedItem(m, if s[k] == COMMA then ReadEntries(s, k + 1, depth) else Ok([], k + 1))
  {
    hide ReadEntry, SkipWs;
    if ReadEntry(s, i, depth).Ok? {
      var m := ReadEntry(s, i, depth).value;
      assert [m] + [] == [m];
    }
  }

  lemma EntriesDenoteCons(es: seq<Entry>)
    requires WellFormedEntries(es) && es != []
    ensures EntriesDepthSplits(es)
    ensures CutMembers(EntriesDenote(es))
            == [Member(CString(CharsMeaning(es[0].key)), Cut(Denotes(es[0].tree)))]
               + CutMembers(EntriesDenote(es[1..]))
  {
    hide Denotes, CharsMeaning;
    assert EntriesDenote(es)[1..] == EntriesDenote(es[1..]);
  }

  ghost predicate EntriesDepthSplits(es: seq<Entry>)
    requires WellFormedEntries(es) && es != []
  {
    MembersDepth(EntriesDenote(es)) == Max(Depth(Denotes(es[0].tree)), MembersDepth(EntriesDenote(es[1..])))
  }

  lemma {:induction false} EntriesAreRead(s: Text, i: nat, es: seq<Entry>, depth: nat)
    requires Terminated(s) && WellFormedEntries(es) && es != [] && depth <= NESTING_LIMIT
    requires At(s, i, EntriesText(es) + [RBRACE])
    ensures i < |s|
    ensures Expected(ReadEntries(s, i, depth), depth + MembersDepth(EntriesDenote(es)),
                     CutMembers(EntriesDenote(es)), i + |EntriesText(es)| + 1)
    decreases es, 3
  {
    hide Cut, CutMembers, Depth, MembersDepth, Max;
    hide IsGap, WellFormed, WellFormedChars;
    hide At;
    hide ReadEntries, ReadEntry, ReadValue, TreeText, Denotes, EntryText, EntriesText, EntriesDenote;
    hide IsNumberByte, SkipWs, Quoted, CharsMeaning, CString, ValuePlace;
    var e, rest := es[0], es[1..];
    EntryParts(s, i, es);
    ValueGaps(s, i, e);
    var r := i + |EntryText(e)|;
    TreeIsRead(s, ValuePlace(i, e), e.tree, depth);
    EntryIsRead(s, i, e, depth);
    EntriesUnfold(s, i, depth, r - |e.after|, r);
    EntriesDenoteCons(es);
    var tail: Outcome<seq<Member>> := Ok([], r + 1);
    if rest == [] {
      EmptyDenotes();
    } else {
      EntriesAreRead(s, r + 1, rest, depth);
      tail := ReadEntries(s, r + 1, depth);
    }
    ListOutcome(ReadEntry(s, i, depth), tail, ReadEntries(s, i, depth), depth,
                Depth(Denotes(e.tree)), MembersDepth(EntriesDenote(rest)),
                Member(CString(CharsMeaning(e.key)), Cut(Denotes(e.tree))), CutMembers(EntriesDenote(rest)),
                r - |e.after|, i + |EntriesText(es)| + 1);
  }
}
