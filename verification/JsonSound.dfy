/** Soundness: whatever the parser reads is the text of a derivation tree. */
module JsonSound {
  import opened Wrappers
  import opened Bytes
  import opened Unicode
  import opened JsonNumber
  import opened JsonValue
  import opened JsonGrammar
  import opened JsonParse
  import opened JsonCompleteNumber
  import opened JsonComplete
  import opened JsonCompleteTree

  /** A C string with its terminator: the only NUL is the last byte. */
  predicate IsContent(s: Text) {
    Terminated(s) && forall k :: 0 <= k < |s| - 1 ==> s[k] != NUL
  }

  lemma SliceAt(s: Text, i: nat, j: nat)
    requires i <= j <= |s|
    ensures At(s, i, s[i..j])
  {
  }

  lemma SkippedIsGap(s: Text, i: nat)
    requires IsContent(s) && i < |s|
    ensures IsGap(s[i..SkipWs(s, i)]) && At(s, i, s[i..SkipWs(s, i)])
  {
    hide SkipWs;
  }

  lemma ByteAt(s: Text, i: nat)
    requires i < |s|
    ensures At(s, i, [s[i]])
  {
  }

  // ---------- strings ----------

  lemma {:induction false} BodyIsClosed(s: Text, p: nat, e: nat)
    requires ClosingQuote(s, p) == Some(e)
    ensures Closed(s[p..e])
    decreases e - p
  {
    if p < e {
      var n := if s[p] == BACKSLASH then 2 else 1;
      assert ClosingQuote(s, p + n) == Some(e);
      BodyIsClosed(s, p + n, e);
      assert s[p..e][n..] == s[p + n..e];
    }
  }

  /** The characters the decoding pass sees. A turn that crosses the closing quote is a stray backslash. */
  lemma {:induction false} DecodedHasChars(s: Text, p: nat, e: nat) returns (cs: seq<Char>)
    requires IsContent(s) && p <= e < |s| && s[e] == QUOTE && Decode(s, p, e).Decoded?
    ensures Decodable(cs) && CharsText(cs) == s[p..e]
    decreases e - p
  {
    hide Decode, DecodeStep, CharText, WellFormedChar, Decodable, CharsText;
    if p == e {
      cs := NoChars();
    } else {
      NextTurn(s, p, e);
      var c := StepHasChar(s, p, e);
      var q := p + DecodeStep(s, p, e).width;
      var rest := [];
      if c.Stray? {
        rest := NoChars();
        assert s[p..e] + [] == s[p..e];
      } else {
        rest := DecodedHasChars(s, q, e);
        assert s[p..e] == s[p..q] + s[q..e];
      }
      OneMoreChar(c, rest);
      cs := [c] + rest;
    }
  }

  lemma NoChars() returns (cs: seq<Char>)
    ensures cs == [] && Decodable(cs) && CharsText(cs) == []
  {
    cs := [];
  }

  lemma OneMoreChar(c: Char, cs: seq<Char>)
    requires WellFormedChar(c) && Decodable(cs) && (c.Stray? ==> cs == [])
    ensures Decodable([c] + cs) && CharsText([c] + cs) == CharText(c) + CharsText(cs)
  {
    hide WellFormedChar, CharText;
    assert ([c] + cs)[1..] == cs;
  }

  lemma NextTurn(s: Text, p: nat, e: nat)
    requires p < e < |s| && Decode(s, p, e).Decoded?
    ensures DecodeStep(s, p, e).Step? && Decode(s, p + DecodeStep(s, p, e).width, e).Decoded?
  {
    hide DecodeStep;
  }

  lemma StepHasChar(s: Text, p: nat, e: nat) returns (c: Char)
    requires IsContent(s) && p < e < |s| && s[e] == QUOTE && Decode(s, p, e).Decoded?
    ensures DecodeStep(s, p, e).Step? && WellFormedChar(c)
    ensures c.Stray? ==> s[p..e] == CharText(c)
    ensures !c.Stray? ==>
              p + DecodeStep(s, p, e).width <= e && s[p..p + DecodeStep(s, p, e).width] == CharText(c)
  {
    NextTurn(s, p, e);
    hide Decode;
    if s[p] != BACKSLASH {
      c := Plain(s[p]);
    } else if s[p + 1] == LOWER_U {
      c := LiteralHasChar(s, p, e);
    } else if p + 1 == e {
      c := Stray;
    } else {
      c := Short(s[p + 1]);
    }
  }

  lemma LiteralHasChar(s: Text, p: nat, e: nat) returns (c: Char)
    requires IsContent(s) && p < e < |s| && s[p] == BACKSLASH && s[p + 1] == LOWER_U
    requires ReadLiteral(s, p, e).Literal?
    ensures WellFormedChar(c) && !c.Stray?
    ensures s[p..p + ReadLiteral(s, p, e).length] == CharText(c)
  {
    hide Hex4, AllHex4;
    var h := s[p + 2..p + 6];
    DigitsHere(s, p + 2);
    if ReadLiteral(s, p, e).length == 6 {
      c := Unit(h);
      assert s[p..p + 6] == [BACKSLASH, LOWER_U] + h;
    } else {
      var l := s[p + 8..p + 12];
      DigitsHere(s, p + 8);
      c := Pair(h, l);
      assert s[p..p + 12] == [BACKSLASH, LOWER_U] + h + [BACKSLASH, LOWER_U] + l;
    }
  }

  lemma DigitsHere(s: Text, p: nat)
    requires p + 4 <= |s|
    ensures Hex4(s[p..p + 4], 0) == Hex4(s, p)
    ensures Hex4(s, p) != 0 ==> IsHex4(s[p..p + 4])
  {
    var h := s[p..p + 4];
    assert h[0] == s[p] && h[1] == s[p + 1] && h[2] == s[p + 2] && h[3] == s[p + 3];
  }

  lemma StringHasChars(s: Text, i: nat) returns (cs: seq<Char>)
    requires IsContent(s) && i < |s| && ReadString(s, i).Ok?
    ensures WellFormedChars(cs) && At(s, i, Quoted(cs)) && i + |Quoted(cs)| == ReadString(s, i).next
  {
    hide Decode, ClosingQuote, CharsText, Decodable, Closed;
    var e := ClosingQuote(s, i + 1).value;
    BodyIsClosed(s, i + 1, e);
    cs := DecodedHasChars(s, i + 1, e);
    assert s[i..e + 1] == [QUOTE] + (s[i + 1..e] + [QUOTE]);
    SliceAt(s, i, e + 1);
  }

  // ---------- numbers ----------

  /** The part of a text that strtod takes is a number of the grammar, with the value strtod gives it. */
  lemma NumeralHasToken(t: Text) returns (n: NumberToken)
    requires Strtod(t).Numeral? && |t| <= TOKEN_LIMIT && (t[0] == MINUS || IsDigit(t[0]))
    ensures WellFormedNumber(n) && NumberText(n) == t[..Strtod(t).length]
    ensures Strtod(t).value == NumberMeaning(n)
  {
    hide Strtod, Locate, ExponentLength, ExponentText, NumberText, ExponentMeaning, ExponentValue;
    hide WellFormedExponent, Mantissa, Size, Scale, Nat;
    var l := Locate(t);
    var p := l.first;
    var q := p + l.whole;
    NumeralPieces(t);
    var point := l.end > q;
    var x := ExponentToken(t, l.end);
    n := NumberToken(t[0] == MINUS, t[p..q], point, if point then t[q + 1..l.end] else [], x);
    TokenOfPieces(n, t, p, q, l.end, Strtod(t).length);
    PointMoves(n.whole, n.fraction, ExponentMeaning(x));
  }

  lemma TokenOfPieces(n: NumberToken, t: Text, p: nat, q: nat, r: nat, end: nat)
    requires p <= q <= r <= end <= |t|
    requires p == (if n.negative then 1 else 0) && (n.negative ==> t[0] == MINUS)
    requires n.whole == t[p..q] && (n.point <==> q < r) && (n.point ==> t[q] == DOT && n.fraction == t[q + 1..r])
    requires ExponentText(n.exponent) == t[r..end]
    ensures NumberText(n) == t[..end]
  {
    hide ExponentText;
    assert SignText(n.negative) == t[..p];
    assert FractionText(n.point, n.fraction) == t[q..r];
    FourPieces(t, p, q, r, end);
  }

  lemma FourPieces(t: Text, p: nat, q: nat, r: nat, end: nat)
    requires p <= q <= r <= end <= |t|
    ensures t[..end] == t[..p] + (t[p..q] + (t[q..r] + t[r..end]))
  {
    assert t[..end] == t[0..end] && t[..p] == t[0..p];
    TwoPieces(t, q, r, end);
    TwoPieces(t, p, q, end);
    TwoPieces(t, 0, p, end);
  }

  lemma TwoPieces(t: Text, a: nat, b: nat, c: nat)
    requires a <= b <= c <= |t|
    ensures t[a..c] == t[a..b] + t[b..c]
  {
  }

  lemma NumeralPieces(t: Text)
    requires Strtod(t).Numeral? && (t[0] == MINUS || IsDigit(t[0]))
    ensures var l := Locate(t);
            var q := l.first + l.whole;
            q <= l.end <= |t| && l.end + ExponentLength(t, l.end) == Strtod(t).length
            && l.first == (if t[0] == MINUS then 1 else 0)
            && AllDigits(t[l.first..q])
            && (if l.end > q then t[q] == DOT && AllDigits(t[q + 1..l.end]) else true)
            && (l.whole > 0 || (t[0] == MINUS && l.end > q + 1))
            && l.fraction == (if l.end > q then l.end - q - 1 else 0)
            && Mantissa(t, l) == t[l.first..q] + (if l.end > q then t[q + 1..l.end] else [])
    ensures var l := Locate(t);
            Strtod(t).value
            == Signed(t[0] == MINUS, Scale(Nat(Mantissa(t, l)) as real, ExponentValue(t, l.end) - l.fraction))
  {
    hide Scale, Nat, ExponentLength, ExponentValue;
  }

  lemma ExponentToken(t: Text, q: nat) returns (x: Exponent)
    requires q <= |t|
    ensures WellFormedExponent(x) && ExponentText(x) == t[q..q + ExponentLength(t, q)]
    ensures ExponentMeaning(x) == ExponentValue(t, q)
  {
    hide Nat, ExponentLength, ExponentValue;
    var n := ExponentLength(t, q);
    ExponentPieces(t, q);
    if n == 0 {
      x := NoExponent;
    } else {
      var d := q + 1 + SignLength(t, q + 1);
      x := Exponent(t[q], t[q + 1..d], t[d..q + n]);
      ThreePieces(t, q, d, q + n);
    }
  }

  lemma ExponentPieces(t: Text, q: nat)
    requires q <= |t|
    ensures var n := ExponentLength(t, q);
            var d := q + 1 + SignLength(t, q + 1);
            if n == 0 then ExponentValue(t, q) == 0
            else
              d < q + n <= |t| && (t[q] == LOWER_E || t[q] == UPPER_E) && AllDigits(t[d..q + n])
              && (var sign := t[q + 1..d]; sign == [] || sign == [PLUS] || sign == [MINUS])
              && (t[q + 1..d] == [MINUS] <==> t[q + 1] == MINUS)
              && ExponentValue(t, q) == (if t[q + 1] == MINUS then 0 - Nat(t[d..q + n]) else Nat(t[d..q + n]))
  {
    hide Nat, DigitRun;
  }

  lemma ThreePieces(t: Text, q: nat, d: nat, end: nat)
    requires q < d <= end <= |t|
    ensures t[q..end] == [t[q]] + t[q + 1..d] + t[d..end]
  {
    TwoPieces(t, q, d, end);
    TwoPieces(t, q, q + 1, d);
  }

  lemma NumberHasToken(s: Text, i: nat) returns (n: NumberToken)
    requires Terminated(s) && i < |s| && ReadNumber(s, i).Ok? && (s[i] == MINUS || IsDigit(s[i]))
    ensures WellFormedNumber(n) && At(s, i, NumberText(n))
    ensures ReadNumber(s, i) == Ok(NumberMeaning(n), i + |NumberText(n)|)
  {
    hide Strtod, WellFormedNumber, NumberText, NumberMeaning;
    var k := TokenRun(s, i, TOKEN_LIMIT);
    var t := s[i..i + k];
    n := NumeralHasToken(t);
    assert t[..Strtod(t).length] == s[i..i + Strtod(t).length];
  }

  // ---------- values ----------

  lemma {:induction false} ValueHasTree(s: Text, i: nat, depth: nat) returns (t: Tree)
    requires IsContent(s) && i < |s| && ReadValue(s, i, depth).Ok?
    ensures WellFormed(t) && At(s, i, TreeText(t)) && i + |TreeText(t)| == ReadValue(s, i, depth).next
    ensures t.NumberTree? ==> ReadValue(s, i, depth).value == Number(NumberMeaning(t.token))
    decreases |s| - i, 1
  {
    hide NumberMeaning;
    hide ReadString, ReadNumber, ReadArray, ReadObject, WellFormedNumber, NumberText, Quoted, WellFormedChars, At;
    if At(s, i, NULL_WORD) {
      t := NullTree;
    } else if At(s, i, FALSE_WORD) {
      t := FalseTree;
    } else if At(s, i, TRUE_WORD) {
      t := TrueTree;
    } else if s[i] == QUOTE {
      var cs := StringHasChars(s, i);
      t := StringTree(cs);
    } else if s[i] == MINUS || IsDigit(s[i]) {
      var n := NumberHasToken(s, i);
      t := NumberTree(n);
    } else if s[i] == LBRACKET {
      t := ArrayHasTree(s, i, depth);
    } else {
      t := ObjectHasTree(s, i, depth);
    }
  }

  /** A bracketed list whose brackets are in place and whose inside is known. */
  lemma BracketedAt(s: Text, i: nat, open: Byte, inner: Text, close: Byte)
    requires i < |s| && s[i] == open && At(s, i + 1, inner + [close])
    ensures At(s, i, [open] + (inner + [close]))
  {
    ByteAt(s, i);
    AtSplit(s, i, [open], inner + [close]);
  }

  lemma ClosedBy(s: Text, i: nat, inner: Text, close: Byte)
    requires At(s, i, inner) && i + |inner| < |s| && s[i + |inner|] == close
    ensures At(s, i, inner + [close])
  {
    ByteAt(s, i + |inner|);
    AtSplit(s, i, inner, [close]);
  }

  lemma EmptyIsWellFormed()
    ensures IsGap([]) && WellFormedElements([]) && WellFormedEntries([])
  {
  }

  lemma SkipTwice(s: Text, i: nat)
    requires Terminated(s) && i < |s|
    ensures SkipWs(s, SkipWs(s, i)) == SkipWs(s, i)
  {
  }

  lemma {:induction false} ArrayHasTree(s: Text, i: nat, depth: nat) returns (t: Tree)
    requires IsContent(s) && i < |s| && s[i] == LBRACKET && ReadArray(s, i, depth).Ok?
    ensures t.ArrayTree? && WellFormed(t) && At(s, i, TreeText(t))
    ensures i + |TreeText(t)| == ReadArray(s, i, depth).next
    decreases |s| - i, 0
  {
    hide ReadElements, SkipWs, WellFormedElements, ElementsText, At, IsGap;
    var j := SkipWs(s, i + 1);
    if s[j] == RBRACKET {
      t := ArrayTree(s[i + 1..j], []);
      SkippedIsGap(s, i + 1);
      ClosedBy(s, i + 1, s[i + 1..j], RBRACKET);
      BracketedAt(s, i, LBRACKET, s[i + 1..j], RBRACKET);
      EmptyIsWellFormed();
    } else {
      SkipTwice(s, i + 1);
      ElementsFrom(s, j, i + 1, depth + 1);
      var es := ElementsHaveTrees(s, i + 1, depth + 1);
      t := ArrayTree([], es);
      BracketedAt(s, i, LBRACKET, ElementsText(es), RBRACKET);
      EmptyIsWellFormed();
    }
  }

  lemma {:induction false} ElementsHaveTrees(s: Text, i: nat, depth: nat) returns (es: seq<Element>)
    requires IsContent(s) && i < |s| && ReadElements(s, i, depth).Ok?
    ensures es != [] && WellFormedElements(es) && At(s, i, ElementsText(es) + [RBRACKET])
    ensures i + |ElementsText(es)| + 1 == ReadElements(s, i, depth).next
    decreases |s| - i, 2
  {
    hide ReadValue, SkipWs, WellFormedElements, ElementsText, ElementText, TreeText, WellFormed, At, IsGap;
    var p := SkipWs(s, i);
    var t := ValueHasTree(s, p, depth);
    var q := ReadValue(s, p, depth).next;
    var k := SkipWs(s, q);
    var e := ElementHere(s, i, t, q);
    if s[k] == COMMA {
      var rest := ElementsHaveTrees(s, k + 1, depth);
      es := [e] + rest;
      MoreElements(s, i, k, e, rest);
    } else {
      es := [e];
      LastElement(s, i, k, e);
    }
  }

  lemma ElementHere(s: Text, i: nat, t: Tree, q: nat) returns (e: Element)
    requires IsContent(s) && i < |s| && q < |s| && WellFormed(t) && At(s, SkipWs(s, i), TreeText(t))
    requires q == SkipWs(s, i) + |TreeText(t)|
    ensures WellFormedElement(e) && At(s, i, ElementText(e)) && i + |ElementText(e)| == SkipWs(s, q)
  {
    hide SkipWs, TreeText, WellFormed, At, IsGap;
    var p, k := SkipWs(s, i), SkipWs(s, q);
    SkippedIsGap(s, i);
    SkippedIsGap(s, q);
    e := Element(s[i..p], t, s[q..k]);
    AtSplit(s, p, TreeText(t), s[q..k]);
    AtSplit(s, i, s[i..p], TreeText(t) + s[q..k]);
  }

  lemma LastElement(s: Text, i: nat, k: nat, e: Element)
    requires WellFormedElement(e) && At(s, i, ElementText(e)) && i + |ElementText(e)| == k < |s| && s[k] == RBRACKET
    ensures WellFormedElements([e]) && At(s, i, ElementsText([e]) + [RBRACKET]) && i + |ElementsText([e])| == k
  {
    hide ElementText, WellFormed, At, IsGap;
    assert [e][1..] == [] && WellFormedElements([]);
    ClosedBy(s, i, ElementText(e), RBRACKET);
  }

  lemma MoreElements(s: Text, i: nat, k: nat, e: Element, rest: seq<Element>)
    requires WellFormedElement(e) && At(s, i, ElementText(e)) && i + |ElementText(e)| == k < |s| && s[k] == COMMA
    requires rest != [] && WellFormedElements(rest) && At(s, k + 1, ElementsText(rest) + [RBRACKET])
    ensures WellFormedElements([e] + rest) && At(s, i, ElementsText([e] + rest) + [RBRACKET])
    ensures i + |ElementsText([e] + rest)| == k + 1 + |ElementsText(rest)|
  {
    hide ElementText, WellFormed, At, IsGap;
    var es := [e] + rest;
    assert es[1..] == rest;
    var more := ElementsText(rest) + [RBRACKET];
    ClosedBy(s, i, ElementText(e), COMMA);
    AtSplit(s, i, ElementText(e) + [COMMA], more);
    assert ElementsText(es) + [RBRACKET] == (ElementText(e) + [COMMA]) + more;
  }

  lemma {:induction false} ObjectHasTree(s: Text, i: nat, depth: nat) returns (t: Tree)
    requires IsContent(s) && i < |s| && s[i] == LBRACE && ReadObject(s, i, depth).Ok?
    ensures t.ObjectTree? && WellFormed(t) && At(s, i, TreeText(t))
    ensures i + |TreeText(t)| == ReadObject(s, i, depth).next
    decreases |s| - i, 0
  {
    hide ReadEntries, SkipWs, WellFormedEntries, EntriesText, At, IsGap;
    var j := SkipWs(s, i + 1);
    if s[j] == RBRACE {
      t := ObjectTree(s[i + 1..j], []);
      SkippedIsGap(s, i + 1);
      ClosedBy(s, i + 1, s[i + 1..j], RBRACE);
      BracketedAt(s, i, LBRACE, s[i + 1..j], RBRACE);
      EmptyIsWellFormed();
    } else {
      SkipTwice(s, i + 1);
      EntriesFrom(s, j, i + 1, depth + 1);
      var es := EntriesHaveTrees(s, i + 1, depth + 1);
      t := ObjectTree([], es);
      BracketedAt(s, i, LBRACE, EntriesText(es), RBRACE);
      EmptyIsWellFormed();
    }
  }

  lemma {:induction false} EntriesHaveTrees(s: Text, i: nat, depth: nat) returns (es: seq<Entry>)
    requires IsContent(s) && i < |s| && ReadEntries(s, i, depth).Ok?
    ensures es != [] && WellFormedEntries(es) && At(s, i, EntriesText(es) + [RBRACE])
    ensures i + |EntriesText(es)| + 1 == ReadEntries(s, i, depth).next
    decreases |s| - i, 3
  {
    hide ReadEntry, SkipWs, WellFormedEntries, EntriesText, EntryText, WellFormedEntry, At, IsGap;
    var e := EntryHasTree(s, i, depth);
    var k := SkipWs(s, ReadEntry(s, i, depth).next);
    if s[k] == COMMA {
      var rest := EntriesHaveTrees(s, k + 1, depth);
      es := [e] + rest;
      MoreEntries(s, i, k, e, rest);
    } else {
      es := [e];
      LastEntry(s, i, k, e);
    }
  }

  /** An entry ends where the white space after its value does. */
  lemma {:induction false} EntryHasTree(s: Text, i: nat, depth: nat) returns (e: Entry)
    requires IsContent(s) && i < |s| && ReadEntry(s, i, depth).Ok?
    ensures WellFormedEntry(e) && At(s, i, EntryText(e))
    ensures i + |EntryText(e)| == SkipWs(s, ReadEntry(s, i, depth).next)
    decreases |s| - i, 2
  {
    hide ReadValue, ReadString, SkipWs, EntryText, TreeText, Quoted, WellFormed, WellFormedChars, At, IsGap;
    var p := SkipWs(s, i);
    var key := StringHasChars(s, p);
    var c := SkipWs(s, ReadString(s, p).next);
    var v := SkipWs(s, c + 1);
    var t := ValueHasTree(s, v, depth);
    e := EntryHere(s, i, key, ReadString(s, p).next, t, ReadValue(s, v, depth).next);
  }

  lemma EntryHere(s: Text, i: nat, key: seq<Char>, a: nat, t: Tree, q: nat) returns (e: Entry)
    requires IsContent(s) && i < |s| && a < |s| && q < |s| && WellFormedChars(key) && WellFormed(t)
    requires At(s, SkipWs(s, i), Quoted(key)) && a == SkipWs(s, i) + |Quoted(key)|
    requires var c := SkipWs(s, a);
             c + 1 < |s| && s[c] == COLON && At(s, SkipWs(s, c + 1), TreeText(t))
             && q == SkipWs(s, c + 1) + |TreeText(t)|
    ensures WellFormedEntry(e) && At(s, i, EntryText(e)) && i + |EntryText(e)| == SkipWs(s, q)
  {
    hide SkipWs, TreeText, Quoted, WellFormed, WellFormedChars, At, IsGap;
    var p, c := SkipWs(s, i), SkipWs(s, a);
    var v, k := SkipWs(s, c + 1), SkipWs(s, q);
    e := Entry(s[i..p], key, s[a..c], s[c + 1..v], t, s[q..k]);
    SkippedIsGap(s, i);
    SkippedIsGap(s, a);
    SkippedIsGap(s, c + 1);
    SkippedIsGap(s, q);
    ByteAt(s, c);
    var value := TreeText(t) + s[q..k];
    AtSplit(s, v, TreeText(t), s[q..k]);
    AtSplit(s, c + 1, s[c + 1..v], value);
    AtSplit(s, c, [COLON], s[c + 1..v] + value);
    AtSplit(s, a, s[a..c], [COLON] + (s[c + 1..v] + value));
    AtSplit(s, p, Quoted(key), s[a..c] + ([COLON] + (s[c + 1..v] + value)));
    AtSplit(s, i, s[i..p], Quoted(key) + (s[a..c] + ([COLON] + (s[c + 1..v] + value))));
  }

  lemma LastEntry(s: Text, i: nat, k: nat, e: Entry)
    requires WellFormedEntry(e) && At(s, i, EntryText(e)) && i + |EntryText(e)| == k < |s| && s[k] == RBRACE
    ensures WellFormedEntries([e]) && At(s, i, EntriesText([e]) + [RBRACE]) && i + |EntriesText([e])| == k
  {
    hide EntryText, WellFormed, WellFormedChars, At, IsGap;
    assert [e][1..] == [] && WellFormedEntries([]);
    ClosedBy(s, i, EntryText(e), RBRACE);
  }

  lemma MoreEntries(s: Text, i: nat, k: nat, e: Entry, rest: seq<Entry>)
    requires WellFormedEntry(e) && At(s, i, EntryText(e)) && i + |EntryText(e)| == k < |s| && s[k] == COMMA
    requires rest != [] && WellFormedEntries(rest) && At(s, k + 1, EntriesText(rest) + [RBRACE])
    ensures WellFormedEntries([e] + rest) && At(s, i, EntriesText([e] + rest) + [RBRACE])
    ensures i + |EntriesText([e] + rest)| == k + 1 + |EntriesText(rest)|
  {
    hide EntryText, WellFormed, WellFormedChars, At, IsGap;
    var es := [e] + rest;
    assert es[1..] == rest;
    var more := EntriesText(rest) + [RBRACE];
    ClosedBy(s, i, EntryText(e), COMMA);
    AtSplit(s, i, EntryText(e) + [COMMA], more);
    assert EntriesText(es) + [RBRACE] == (EntryText(e) + [COMMA]) + more;
  }
}
