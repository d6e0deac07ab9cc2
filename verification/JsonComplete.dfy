/** Every derivation tree nested within the limit is read, and as the value it denotes. */
module JsonComplete {
  import opened Wrappers
  import opened Bytes
  import opened Unicode
  import opened JsonNumber
  import opened JsonValue
  import opened JsonGrammar
  import opened JsonParse

  // ---------- white space ----------

  lemma {:induction false} SkipGap(s: Text, i: nat, gap: Text)
    requires Terminated(s) && IsGap(gap) && At(s, i, gap) && i + |gap| < |s|
    requires s[i + |gap|] > SPACE
    ensures SkipWs(s, i) == i + |gap|
    decreases |gap|
  {
    if gap != [] {
      AtByte(s, i, gap, 0);
      assert gap == [gap[0]] + gap[1..];
      AtSplit(s, i, [gap[0]], gap[1..]);
      SkipGap(s, i + 1, gap[1..]);
    }
  }

  // ---------- strings ----------

  /** The first quote that is not escaped ends the search. */
  lemma {:induction false} QuoteAfterBody(s: Text, p: nat, body: Text, e: nat)
    requires Closed(body) && At(s, p, body + [QUOTE]) && e == p + |body|
    ensures ClosingQuote(s, p) == Some(e)
    decreases |body|
  {
    AtByte(s, p, body + [QUOTE], 0);
    if body != [] {
      var n := if body[0] == BACKSLASH then 2 else 1;
      assert body + [QUOTE] == body[..n] + (body[n..] + [QUOTE]);
      AtSplit(s, p, body[..n], body[n..] + [QUOTE]);
      QuoteAfterBody(s, p + n, body[n..], e);
    }
  }

  lemma {:induction false} DecodeChars(s: Text, p: nat, cs: seq<Char>, e: nat)
    requires Decodable(cs) && At(s, p, CharsText(cs)) && e == p + |CharsText(cs)| < |s| && s[e] == QUOTE
    ensures Decode(s, p, e) == Decoded(DecodedChars(cs))
    decreases |cs|
  {
    if cs != [] {
      var c, rest := CharText(cs[0]), CharsText(cs[1..]);
      AtSplit(s, p, c, rest);
      DecodesOneChar(s, p, e, cs[0]);
      if cs[0].Stray? {
        assert cs[1..] == [];
      } else {
        DecodeChars(s, p + |c|, cs[1..], e);
      }
    }
  }

  lemma DecodesOneChar(s: Text, p: nat, e: nat, c: Char)
    requires WellFormedChar(c) && At(s, p, CharText(c)) && p + |CharText(c)| <= e < |s|
    requires c.Stray? ==> p + 1 == e && s[e] == QUOTE
    ensures DecodeStep(s, p, e) == Step(CharMeaning(c), if c.Stray? then 2 else |CharText(c)|)
  {
    var t := CharText(c);
    AtByte(s, p, t, 0);
    match c
    case Plain(_) =>
    case Short(_) => AtByte(s, p, t, 1);
    case Unit(h) => SpelledUnit(s, p, h);
    case Pair(h, l) =>
      AtByte(s, p, t, 1);
      DecodesPair(s, p, e, h, l);
    case Stray =>
  }

  lemma SpelledUnit(s: Text, p: nat, h: Text)
    requires |h| == 4 && At(s, p, [BACKSLASH, LOWER_U] + h)
    ensures p + 6 <= |s| && s[p] == BACKSLASH && s[p + 1] == LOWER_U && Hex4(s, p + 2) == Hex4(h, 0)
    ensures IsHex4(h) ==> SpellsUnit(s, p, Hex4(h, 0))
  {
    var t := [BACKSLASH, LOWER_U] + h;
    AtByte(s, p, t, 0);
    AtByte(s, p, t, 1);
    AtByte(s, p, t, 2);
    AtByte(s, p, t, 3);
    AtByte(s, p, t, 4);
    AtByte(s, p, t, 5);
  }

  lemma DecodesPair(s: Text, p: nat, e: nat, h: Text, l: Text)
    requires WellFormedChar(Pair(h, l)) && At(s, p, CharText(Pair(h, l))) && p + 12 <= e < |s|
    ensures ReadLiteral(s, p, e) == Literal(12, CodePoint(Pair(h, l)))
  {
    assert CharText(Pair(h, l)) == ([BACKSLASH, LOWER_U] + h) + ([BACKSLASH, LOWER_U] + l);
    AtSplit(s, p, [BACKSLASH, LOWER_U] + h, [BACKSLASH, LOWER_U] + l);
    SpelledUnit(s, p, h);
    SpelledUnit(s, p + 6, l);
    PairIsRead(s, p, e, Hex4(h, 0), Hex4(l, 0));
    HalvesOfPair(Hex4(h, 0), Hex4(l, 0));
  }

  lemma HalvesOfPair(high: nat, low: nat)
    requires IsHighSurrogate(high) && IsLowSurrogate(low)
    ensures high % 0x400 == high - 0xD800 && low % 0x400 == low - 0xDC00
  {
  }

  lemma StringIsRead(s: Text, i: nat, cs: seq<Char>)
    requires Terminated(s) && i < |s| && WellFormedChars(cs) && At(s, i, Quoted(cs))
    ensures ReadString(s, i) == Ok(CString(CharsMeaning(cs)), i + |Quoted(cs)|)
  {
    BodyIsRead(s, i, cs, CharsText(cs));
  }

  lemma BodyIsRead(s: Text, i: nat, cs: seq<Char>, body: Text)
    requires Terminated(s) && i < |s| && WellFormedChars(cs) && body == CharsText(cs)
    requires At(s, i, [QUOTE] + (body + [QUOTE]))
    ensures ReadString(s, i) == Ok(CString(CharsMeaning(cs)), i + 2 + |body|)
  {
    hide At, ReadString, Decode, ClosingQuote, CharsText, Closed, Decodable;
    var e := i + 1 + |body|;
    StringParts(s, i, body);
    QuoteAfterBody(s, i + 1, body, e);
    AtSplit(s, i + 1, body, [QUOTE]);
    AtByte(s, e, [QUOTE], 0);
    DecodeChars(s, i + 1, cs, e);
    StringOutcome(s, i, e, CharsMeaning(cs));
  }

  lemma StringParts(s: Text, i: nat, body: Text)
    requires At(s, i, [QUOTE] + (body + [QUOTE]))
    ensures s[i] == QUOTE && At(s, i + 1, body + [QUOTE]) && At(s, i + 1, body)
    ensures i + 1 + |body| < |s|
  {
    AtSplit(s, i, [QUOTE], body + [QUOTE]);
    AtByte(s, i, [QUOTE], 0);
    AtSplit(s, i + 1, body, [QUOTE]);
  }

  lemma StringOutcome(s: Text, i: nat, e: nat, out: Text)
    requires Terminated(s) && i < |s| && s[i] == QUOTE && e < |s|
    requires ClosingQuote(s, i + 1) == Some(e) && Decode(s, i + 1, e) == Decoded(out)
    ensures ReadString(s, i) == Ok(CString(out), e + 1)
  {
  }
}
