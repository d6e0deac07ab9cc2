/** Every number token of the grammar is read whole, with the value the grammar gives it. */
module JsonCompleteNumber {
  import opened Bytes
  import opened JsonNumber
  import opened JsonGrammar
  import opened JsonParse

  lemma DigitsAt(t: Text, p: nat, d: Text)
    requires At(t, p, d) && AllDigits(d)
    requires p + |d| < |t| ==> !IsDigit(t[p + |d|])
    ensures DigitRun(t, p) == |d|
  {
    forall k | p <= k < p + |d| ensures IsDigit(t[k]) {
      AtByte(t, p, d, k - p);
    }
    DigitRunIs(t, p, |d|);
  }

  lemma NumberParts(n: NumberToken)
    ensures var t, p := NumberText(n), |SignText(n.negative)|;
            var q := p + |n.whole|;
            var r := q + |FractionText(n.point, n.fraction)|;
            At(t, 0, SignText(n.negative)) && At(t, p, n.whole) && At(t, q, FractionText(n.point, n.fraction))
            && At(t, r, ExponentText(n.exponent)) && r + |ExponentText(n.exponent)| == |t|
  {
    var t := NumberText(n);
    var sign, fraction, exponent := SignText(n.negative), FractionText(n.point, n.fraction), ExponentText(n.exponent);
    hide SignText, FractionText, ExponentText;
    assert t == sign + (n.whole + (fraction + exponent));
    assert At(t, 0, sign + (n.whole + (fraction + exponent)));
    hide At;
    AtSplit(t, 0, sign, n.whole + (fraction + exponent));
    AtSplit(t, |sign|, n.whole, fraction + exponent);
    AtSplit(t, |sign| + |n.whole|, fraction, exponent);
  }

  lemma ExponentAt(t: Text, q: nat, e: Exponent)
    requires WellFormedExponent(e) && At(t, q, ExponentText(e)) && q + |ExponentText(e)| == |t|
    ensures ExponentLength(t, q) == |ExponentText(e)|
    ensures ExponentValue(t, q) == ExponentMeaning(e)
  {
    if e.Exponent? {
      ExponentParts(t, q, e.mark, e.sign, e.digits);
      DigitsAt(t, q + 1 + |e.sign|, e.digits);
    }
  }

  lemma ExponentParts(t: Text, q: nat, mark: Byte, sign: Text, digits: Text)
    requires sign == [] || sign == [PLUS] || sign == [MINUS]
    requires digits != [] && AllDigits(digits) && At(t, q, [mark] + sign + digits)
    ensures t[q] == mark && SignLength(t, q + 1) == |sign|
    ensures At(t, q + 1 + |sign|, digits)
    ensures t[q + 1] == MINUS <==> sign == [MINUS]
  {
    assert [mark] + sign + digits == [mark] + (sign + digits);
    AtSplit(t, q, [mark], sign + digits);
    AtSplit(t, q + 1, sign, digits);
    AtByte(t, q, [mark], 0);
    AtByte(t, q + 1 + |sign|, digits, 0);
    if sign != [] {
      AtByte(t, q + 1, sign, 0);
    }
  }

  /** The two ways to put the point in: a scaled fraction, or a smaller exponent. */
  lemma PointMoves(whole: Text, fraction: Text, e: int)
    requires AllDigits(whole) && AllDigits(fraction)
    ensures AllDigits(whole + fraction)
    ensures Size(Nat(whole), Nat(fraction), |fraction|, e)
            == Scale(Nat(whole + fraction) as real, e - |fraction|)
  {
    var w, f, m := Nat(whole) as real, Nat(fraction) as real, |fraction|;
    NatConcat(whole, fraction);
    ScaleSum(w, Scale(f, -m), e);
    ScaleScale(f, -m, e);
    ScaleSum(Scale(w, m), f, e - m);
    ScaleScale(w, m, e - m);
  }

  lemma NumeralIsRead(n: NumberToken)
    requires WellFormedNumber(n)
    ensures Strtod(NumberText(n)) == Numeral(NumberMeaning(n), |NumberText(n)|)
  {
    hide NumberText, Locate, Mantissa, ExponentLength, ExponentValue, ExponentMeaning, Scale, Size, Nat;
    NumberLayout(n);
    PointMoves(n.whole, n.fraction, ExponentMeaning(n.exponent));
  }

  lemma NumberLayout(n: NumberToken)
    requires WellFormedNumber(n)
    ensures var t, p := NumberText(n), |SignText(n.negative)|;
            var l := Locate(t);
            l == Layout(p, |n.whole|, |n.fraction|, p + |n.whole| + |FractionText(n.point, n.fraction)|)
            && Mantissa(t, l) == n.whole + n.fraction
            && l.end <= |t|
            && l.end + ExponentLength(t, l.end) == |t|
            && ExponentValue(t, l.end) == ExponentMeaning(n.exponent)
            && t != [] && (t[0] == MINUS <==> n.negative)
  {
    hide NumberText, FractionText, SignText, ExponentText, At, Locate, Mantissa, ExponentLength, ExponentValue;
    hide ExponentMeaning;
    var t, p := NumberText(n), |SignText(n.negative)|;
    var q := p + |n.whole|;
    var r := q + |FractionText(n.point, n.fraction)|;
    FirstByte(n);
    NumberParts(n);
    WholeAndFraction(n, t, p, q, r);
    ExponentAt(t, r, n.exponent);
  }

  lemma WholeAndFraction(n: NumberToken, t: Text, p: nat, q: nat, r: nat)
    requires WellFormedNumber(n) && SignLength(t, 0) == p
    requires q == p + |n.whole| && r == q + |FractionText(n.point, n.fraction)|
    requires At(t, p, n.whole) && At(t, q, FractionText(n.point, n.fraction)) && At(t, r, ExponentText(n.exponent))
    requires r + |ExponentText(n.exponent)| == |t|
    ensures Locate(t) == Layout(p, |n.whole|, |n.fraction|, r)
    ensures Mantissa(t, Locate(t)) == n.whole + n.fraction
  {
    FractionAt(t, q, r, n);
    DigitsAt(t, p, n.whole);
    LocateIs(t, p, n.whole, n.point, n.fraction, r);
  }

  lemma FirstByte(n: NumberToken)
    requires WellFormedNumber(n)
    ensures var t := NumberText(n);
            t != [] && (t[0] == MINUS <==> n.negative) && (IsDigit(t[0]) || t[0] == MINUS)
            && SignLength(t, 0) == |SignText(n.negative)|
  {
    NumberParts(n);
    if n.negative {
      AtByte(NumberText(n), 0, [MINUS], 0);
    } else {
      AtByte(NumberText(n), 0, n.whole, 0);
    }
  }

  lemma LocateIs(t: Text, p: nat, whole: Text, point: bool, fraction: Text, end: nat)
    requires SignLength(t, 0) == p && At(t, p, whole) && DigitRun(t, p) == |whole|
    requires point <==> p + |whole| < |t| && t[p + |whole|] == DOT
    requires !point ==> fraction == []
    requires end == p + |whole| + (if point then 1 + |fraction| else 0) && end <= |t|
    requires point ==> DigitRun(t, p + |whole| + 1) == |fraction| && t[p + |whole| + 1..end] == fraction
    ensures Locate(t) == Layout(p, |whole|, |fraction|, end)
    ensures Mantissa(t, Locate(t)) == whole + fraction
  {
    assert t[p..p + |whole|] == whole;
  }

  lemma FractionAt(t: Text, q: nat, r: nat, n: NumberToken)
    requires WellFormedNumber(n) && At(t, q, FractionText(n.point, n.fraction))
    requires r == q + |FractionText(n.point, n.fraction)| && At(t, r, ExponentText(n.exponent))
    requires r + |ExponentText(n.exponent)| == |t|
    ensures q < |t| ==> !IsDigit(t[q])
    ensures n.point <==> q < |t| && t[q] == DOT
    ensures n.point ==> DigitRun(t, q + 1) == |n.fraction| && t[q + 1..r] == n.fraction
  {
    hide At, NumberText, DigitRun;
    AfterDigits(t, r, n.exponent);
    if n.point {
      AtSplit(t, q, [DOT], n.fraction);
      AtByte(t, q, [DOT], 0);
      DigitsAt(t, q + 1, n.fraction);
      PieceAt(t, q + 1, n.fraction);
    }
  }

  lemma PieceAt(t: Text, q: nat, piece: Text)
    requires At(t, q, piece)
    ensures q + |piece| <= |t| && t[q..q + |piece|] == piece
  {
  }

  /** The exponent part, if there is one, starts with neither a digit nor a point. */
  lemma AfterDigits(t: Text, r: nat, e: Exponent)
    requires WellFormedExponent(e) && At(t, r, ExponentText(e)) && r + |ExponentText(e)| == |t|
    ensures r < |t| ==> !IsDigit(t[r]) && t[r] != DOT
  {
    if e.Exponent? {
      AtByte(t, r, ExponentText(e), 0);
    }
  }

  lemma TokenBytes(n: NumberToken)
    requires WellFormedNumber(n)
    ensures forall k :: 0 <= k < |NumberText(n)| ==> IsNumberByte(NumberText(n)[k])
  {
    NumberBytes(SignText(n.negative), n.whole);
    NumberBytes(FractionText(n.point, n.fraction), ExponentText(n.exponent));
    NumberBytes(SignText(n.negative) + n.whole, FractionText(n.point, n.fraction) + ExponentText(n.exponent));
    assert NumberText(n)
        == (SignText(n.negative) + n.whole) + (FractionText(n.point, n.fraction) + ExponentText(n.exponent));
  }

  lemma NumberBytes(a: Text, b: Text)
    requires forall k :: 0 <= k < |a| ==> IsNumberByte(a[k])
    requires forall k :: 0 <= k < |b| ==> IsNumberByte(b[k])
    ensures forall k :: 0 <= k < |a + b| ==> IsNumberByte((a + b)[k])
  {
  }

  lemma TokenFits(n: NumberToken)
    requires WellFormedNumber(n)
    ensures |NumberText(n)| <= TOKEN_LIMIT
  {
  }

  lemma NumberIsRead(s: Text, i: nat, n: NumberToken)
    requires Terminated(s) && WellFormedNumber(n) && At(s, i, NumberText(n))
    requires i + |NumberText(n)| < |s| && !IsNumberByte(s[i + |NumberText(n)|])
    ensures i < |s| && ReadNumber(s, i) == Ok(NumberMeaning(n), i + |NumberText(n)|)
    ensures s[i] == MINUS || IsDigit(s[i])
  {
    hide NumberText, WellFormedNumber, NumberMeaning, Strtod;
    var t := NumberText(n);
    TokenFits(n);
    TokenBytes(n);
    forall k | i <= k < i + |t| ensures IsNumberByte(s[k]) {
      AtByte(s, i, t, k - i);
    }
    TokenRunIs(s, i, TOKEN_LIMIT, |t|);
    NumeralIsRead(n);
    FirstByte(n);
    AtByte(s, i, t, 0);
  }
}
