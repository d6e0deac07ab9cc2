/**
 The texts the parser accepts, exactly: those the grammar spells, nested within the limit. When
 something may follow the value, a number at the top takes as many bytes as it can.
 */
module JsonLanguage {
  import opened Bytes
  import opened JsonNumber
  import opened JsonValue
  import opened JsonGrammar
  import opened JsonParse
  import opened JsonCompleteNumber
  import opened JsonComplete
  import opened JsonCompleteTree
  import opened JsonTheorems
  import opened JsonSound

  /** No longer number of the grammar starts where `n` does. */
  ghost predicate Longest(n: NumberToken, rest: Text) {
    forall m :: WellFormedNumber(m) && NumberText(m) <= NumberText(n) + rest ==> |NumberText(m)| <= |NumberText(n)|
  }

  /** What may stand after the value, and where the parser then says the value ends. */
  ghost predicate EndsAt(t: Tree, rest: Text, length: nat, end: nat, requireNul: bool) {
    if requireNul then IsGap(rest) && end == length
    else end == length - |rest| && (t.NumberTree? ==> Longest(t.token, rest))
  }

  ghost predicate Spells(text: Text, v: Json, end: nat, requireNul: bool) {
    exists bom, before, t, rest ::
      && text == Document(bom, before, t, rest) && IsGap(before) && WellFormed(t)
      && Depth(Denotes(t)) <= NESTING_LIMIT && v == Cut(Denotes(t))
      && EndsAt(t, rest, |text|, end, requireNul)
  }

  // ---------- strtod takes the longest number ----------

  lemma {:induction false} DigitRunOfPrefix(a: Text, t: Text, p: nat)
    requires a <= t && p <= |a|
    ensures DigitRun(a, p) <= DigitRun(t, p)
    ensures p + DigitRun(a, p) < |a| ==> DigitRun(t, p) == DigitRun(a, p)
    decreases |a| - p
  {
    if p < |a| && IsDigit(a[p]) {
      DigitRunOfPrefix(a, t, p + 1);
    }
  }

  lemma ExponentOfPrefix(a: Text, t: Text, q: nat)
    requires a <= t && q <= |a| && q + ExponentLength(a, q) == |a|
    ensures |a| <= q + ExponentLength(t, q)
  {
    if ExponentLength(a, q) > 0 {
      DigitRunOfPrefix(a, t, q + 1 + SignLength(a, q + 1));
    }
  }

  /** Where the digits of a numeral end: before the point if it has none, else after the fraction. */
  function PointEnd(t: Text, q: nat): nat {
    if q < |t| && t[q] == DOT then q + 1 + DigitRun(t, q + 1) else q
  }

  lemma NumeralLength(t: Text)
    ensures var p := SignLength(t, 0);
            var q := p + DigitRun(t, p);
            var r := PointEnd(t, q);
            p <= q <= r <= |t|
            && (Strtod(t).Numeral? <==> p < q || q + 1 < r)
            && (Strtod(t).Numeral? ==> Strtod(t).length == r + ExponentLength(t, r))
  {
    hide Scale, Nat, Mantissa, ExponentLength, ExponentValue, DigitRun;
  }

  lemma PointEndOfPrefix(a: Text, t: Text, q: nat)
    requires a <= t && q <= |a|
    ensures q < |a| ==> PointEnd(a, q) <= PointEnd(t, q)
    ensures PointEnd(a, q) < |a| ==> PointEnd(t, q) == PointEnd(a, q)
  {
    if q < |a| && a[q] == DOT {
      DigitRunOfPrefix(a, t, q + 1);
    }
  }

  lemma LongerText(a: Text, t: Text)
    requires a <= t && Strtod(a).Numeral? && Strtod(a).length == |a|
    ensures Strtod(t).Numeral? && |a| <= Strtod(t).length
  {
    hide Strtod, DigitRun, PointEnd, ExponentLength;
    NumeralLength(a);
    NumeralLength(t);
    var p := SignLength(a, 0);
    DigitRunOfPrefix(a, t, p);
    var q := p + DigitRun(a, p);
    PointEndOfPrefix(a, t, q);
    if PointEnd(a, q) < |a| {
      ExponentOfPrefix(a, t, PointEnd(a, q));
    }
  }

  // ---------- a number at the top ----------

  lemma {:induction false} RunOfBytes(s: Text, i: nat, limit: nat, n: nat)
    requires n <= limit && i + n <= |s| && forall k :: i <= k < i + n ==> IsNumberByte(s[k])
    ensures n <= TokenRun(s, i, limit)
    decreases n
  {
    if n > 0 {
      RunOfBytes(s, i + 1, limit - 1, n - 1);
    }
  }

  /** The parser reads at least as much as any number of the grammar that stands there. */
  lemma AtLeast(s: Text, i: nat, m: NumberToken)
    requires Terminated(s) && WellFormedNumber(m) && At(s, i, NumberText(m)) && i < |s|
    ensures ReadNumber(s, i).Ok? && i + |NumberText(m)| <= ReadNumber(s, i).next
  {
    hide Strtod, NumberText, NumberMeaning, IsNumberByte;
    var a := NumberText(m);
    TokenBytes(m);
    forall k | i <= k < i + |a| ensures IsNumberByte(s[k]) {
      AtByte(s, i, a, k - i);
    }
    RunOfBytes(s, i, TOKEN_LIMIT, |a|);
    NumeralIsRead(m);
    var k := TokenRun(s, i, TOKEN_LIMIT);
    assert a <= s[i..i + k];
    LongerText(a, s[i..i + k]);
  }

  lemma SameTextSameNumber(n: NumberToken, m: NumberToken)
    requires WellFormedNumber(n) && WellFormedNumber(m) && NumberText(n) == NumberText(m)
    ensures NumberMeaning(n) == NumberMeaning(m)
  {
    hide NumberText, NumberMeaning;
    NumeralIsRead(n);
    NumeralIsRead(m);
  }

  /** A number token in front of `rest` is what the parser reads there exactly when it is the longest. */
  lemma LongestIsRead(s: Text, i: nat, n: NumberToken, rest: Text)
    requires Terminated(s) && WellFormedNumber(n) && i < |s| && At(s, i, NumberText(n) + rest)
    requires i + |NumberText(n)| + |rest| == |s| - 1
    ensures ReadNumber(s, i) == Ok(NumberMeaning(n), i + |NumberText(n)|) <==> Longest(n, rest)
  {
    hide WellFormedNumber, NumberText, NumberMeaning, ReadNumber, At;
    var whole := NumberText(n) + rest;
    AtSplit(s, i, NumberText(n), rest);
    AtLeast(s, i, n);
    FirstByte(n);
    AtByte(s, i, NumberText(n), 0);
    var m := NumberHasToken(s, i);
    BothPrefixes(s, i, whole, NumberText(m));
    if Longest(n, rest) {
      BothPrefixes(s, i, whole, NumberText(n));
      assert NumberText(m) == NumberText(n);
      SameTextSameNumber(n, m);
    }
    if ReadNumber(s, i) == Ok(NumberMeaning(n), i + |NumberText(n)|) {
      forall k | WellFormedNumber(k) && NumberText(k) <= whole ensures |NumberText(k)| <= |NumberText(n)| {
        AtSplit(s, i, NumberText(k), whole[|NumberText(k)|..]);
        assert NumberText(k) + whole[|NumberText(k)|..] == whole;
        AtLeast(s, i, k);
      }
    }
  }

  /** Number bytes that stand before the terminator belong to the text. */
  lemma BothPrefixes(s: Text, i: nat, whole: Text, a: Text)
    requires At(s, i, whole) && At(s, i, a) && i + |whole| == |s| - 1 && i + |a| < |s|
    ensures a <= whole
  {
    assert a == s[i..i + |whole|][..|a|];
  }

  /** White space ends every number. */
  lemma GapEndsNumber(n: NumberToken, rest: Text)
    requires IsGap(rest)
    ensures Longest(n, rest)
  {
    hide NumberText, WellFormedNumber;
    forall m | WellFormedNumber(m) && NumberText(m) <= NumberText(n) + rest
      ensures |NumberText(m)| <= |NumberText(n)|
    {
      assert rest != [] ==> (NumberText(n) + rest)[|NumberText(n)|] == rest[0];
      TokenBytes(m);
    }
  }

  // ---------- whole texts ----------

  lemma ValueIsRead(s: Text, p: nat, t: Tree, rest: Text)
    requires Terminated(s) && WellFormed(t) && At(s, p, TreeText(t) + rest)
    requires p + |TreeText(t)| + |rest| == |s| - 1
    ensures p < |s|
    ensures ReadValue(s, p, 0) == Ok(Cut(Denotes(t)), p + |TreeText(t)|)
            <==> Depth(Denotes(t)) <= NESTING_LIMIT && (t.NumberTree? ==> Longest(t.token, rest))
  {
    hide At, ReadValue, ReadNumber, NumberText, WellFormedNumber, NumberMeaning, Longest;
    AtSplit(s, p, TreeText(t), rest);
    if t.NumberTree? {
      TopNumber(s, p, t.token, rest);
    } else {
      hide TreeText, Denotes, Depth, Cut, WellFormed;
      TreeIsRead(s, p, t, 0);
    }
  }

  lemma TopNumber(s: Text, p: nat, n: NumberToken, rest: Text)
    requires Terminated(s) && WellFormedNumber(n) && At(s, p, NumberText(n) + rest)
    requires p + |NumberText(n)| + |rest| == |s| - 1
    ensures ReadValue(s, p, 0) == Ok(Number(NumberMeaning(n)), p + |NumberText(n)|) <==> Longest(n, rest)
  {
    hide At, ReadValue, ReadNumber, NumberText, WellFormedNumber, NumberMeaning, Longest;
    AtSplit(s, p, NumberText(n), rest);
    LongestIsRead(s, p, n, rest);
    FirstByte(n);
    AtByte(s, p, NumberText(n), 0);
    Dispatch(s, p, 0);
  }

  lemma DocumentStart(bom: bool, before: Text, t: Tree, rest: Text)
    requires IsGap(before) && WellFormed(t)
    ensures var s := Document(bom, before, t, rest) + [NUL];
            var i := |BomText(bom)|;
            var p := i + |before|;
            Terminated(s) && SkipBom(s) == i && SkipWs(s, i) == p && At(s, p, TreeText(t) + rest)
            && p + |TreeText(t)| + |rest| == |s| - 1
  {
    hide WellFormed, TreeText, At, SkipWs, SkipBom, IsGap, BomText;
    var mark, body := BomText(bom), TreeText(t);
    var s := Document(bom, before, t, rest) + [NUL];
    assert s == mark + (before + (body + (rest + [NUL])));
    FirstByteOfTree(t);
    FiveParts(s, mark, before, body, rest, [NUL]);
    var p := |mark| + |before|;
    AtByte(s, p, body, 0);
    SkipGap(s, |mark|, before);
    NoBomByChance(s, bom, before, body);
    AtSplit(s, p, body, rest);
  }

  lemma SpelledIsRead(bom: bool, before: Text, t: Tree, rest: Text, end: nat, requireNul: bool)
    requires IsGap(before) && WellFormed(t) && Depth(Denotes(t)) <= NESTING_LIMIT
    requires EndsAt(t, rest, |Document(bom, before, t, rest)|, end, requireNul)
    ensures ParseText(Document(bom, before, t, rest), requireNul) == Parsed(Cut(Denotes(t)), end)
  {
    hide WellFormed, TreeText, Denotes, Depth, ReadValue, SkipWs, At, SkipBom, BomText, Longest;
    DocumentStart(bom, before, t, rest);
    var s := Document(bom, before, t, rest) + [NUL];
    var p := |BomText(bom)| + |before|;
    if requireNul {
      AtSplit(s, p, TreeText(t), rest);
      TailIsSkipped(s, p + |TreeText(t)|, rest);
      if t.NumberTree? {
        GapEndsNumber(t.token, rest);
      }
    }
    ValueIsRead(s, p, t, rest);
  }

  lemma ReadIsSpelled(text: Text, requireNul: bool)
    requires NUL !in text && ParseText(text, requireNul).Parsed?
    ensures var r := ParseText(text, requireNul); Spells(text, r.value, r.end, requireNul)
  {
    hide WellFormed, TreeText, Denotes, Depth, ReadValue, SkipWs, At, SkipBom, BomText, Longest, Cut;
    var s := text + [NUL];
    var i := SkipBom(s);
    var p := SkipWs(s, i);
    var t := ValueHasTree(s, p, 0);
    var q := ReadValue(s, p, 0).next;
    var bom, rest := i == 3, text[q..];
    SkippedIsGap(s, i);
    BomHere(s);
    assert text == Document(bom, s[i..p], t, rest) by {
      TextInPieces(s, text, i, p, q, bom, t);
    }
    SliceAt(s, q, |s| - 1);
    assert rest == s[q..|s| - 1];
    AtSplit(s, p, TreeText(t), rest);
    ValueOfTree(s, p, t, rest);
    ValueIsRead(s, p, t, rest);
    if requireNul {
      SkippedIsGap(s, q);
    }
  }

  lemma BomHere(s: Text)
    requires Terminated(s)
    ensures SkipBom(s) == 0 || (SkipBom(s) == 3 && s[..3] == BOM)
  {
  }

  lemma TextInPieces(s: Text, text: Text, i: nat, p: nat, q: nat, bom: bool, t: Tree)
    requires s == text + [NUL] && i <= p <= q <= |text| && (if bom then i == 3 && s[..3] == BOM else i == 0)
    requires At(s, p, TreeText(t)) && p + |TreeText(t)| == q
    ensures text == Document(bom, s[i..p], t, text[q..])
  {
    hide TreeText;
    assert s[..i] == BomText(bom);
    assert s[p..q] == TreeText(t);
    assert text[..q] == s[..q] == s[..i] + (s[i..p] + s[p..q]);
    assert text == text[..q] + text[q..];
  }

  /** What was read is the value of the tree that spells it. */
  lemma ValueOfTree(s: Text, p: nat, t: Tree, rest: Text)
    requires Terminated(s) && WellFormed(t) && At(s, p, TreeText(t) + rest) && p < |s|
    requires p + |TreeText(t)| + |rest| == |s| - 1
    requires ReadValue(s, p, 0).Ok? && ReadValue(s, p, 0).next == p + |TreeText(t)|
    requires t.NumberTree? ==> ReadValue(s, p, 0).value == Number(NumberMeaning(t.token))
    ensures ReadValue(s, p, 0) == Ok(Cut(Denotes(t)), p + |TreeText(t)|)
  {
    hide At, ReadValue, NumberText, WellFormedNumber, NumberMeaning;
    if !t.NumberTree? {
      hide TreeText, Denotes, Depth, Cut, WellFormed;
      AtSplit(s, p, TreeText(t), rest);
      TreeIsRead(s, p, t, 0);
    }
  }

  /**
   A C string is accepted, with this value and this end, if and only if the grammar spells it so. With
   the demand that nothing follows, only white space may; without it, anything a number does not take.
   */
  lemma AcceptedTexts(text: Text, v: Json, end: nat, requireNul: bool)
    requires NUL !in text
    ensures ParseText(text, requireNul) == Parsed(v, end) <==> Spells(text, v, end, requireNul)
  {
    hide WellFormed, TreeText, Denotes, Depth, Longest, Cut, IsGap, ParseText, Document;
    if ParseText(text, requireNul) == Parsed(v, end) {
      ReadIsSpelled(text, requireNul);
    }
    if Spells(text, v, end, requireNul) {
      var bom, before, t, rest :|
        && text == Document(bom, before, t, rest) && IsGap(before) && WellFormed(t)
        && Depth(Denotes(t)) <= NESTING_LIMIT && v == Cut(Denotes(t))
        && EndsAt(t, rest, |text|, end, requireNul);
      SpelledIsRead(bom, before, t, rest, end, requireNul);
    }
  }
}
