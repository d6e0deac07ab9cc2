/**
 The size parse_string allocates for its output, against what the decoding pass writes. The search
 for the closing quote counts the backslashes it steps over; the decoding pass may later meet the
 same bytes in another phase, so the two are compared at every position and not pair by pair.
 */
module JsonStringSize {
  import opened Wrappers
  import opened Bytes
  import opened Unicode
  import opened JsonParse

  /** Escapes the search starting at `b` has stepped over when it reaches or crosses `p`. */
  function Skips(s: Text, b: nat, p: nat): nat
    requires p <= |s|
    decreases p - b
  {
    if b >= p then 0 else if s[b] == BACKSLASH then 1 + Skips(s, b + 2, p) else Skips(s, b + 1, p)
  }

  lemma {:induction false} SkipsAdvance(s: Text, b: nat, p: nat)
    requires p < |s|
    ensures Skips(s, b, p) <= Skips(s, b, p + 1)
    ensures s[p] != BACKSLASH ==> Skips(s, b, p + 1) == Skips(s, b, p)
    ensures p + 1 < |s| ==> Skips(s, b, p + 2) <= Skips(s, b, p) + 1
    decreases p + 2 - b
  {
    if b < p {
      SkipsAdvance(s, if s[b] == BACKSLASH then b + 2 else b + 1, p);
    } else if p + 1 < |s| {
      assert Skips(s, p + 2, p + 2) == 0 && Skips(s, p + 3, p + 2) == 0;
      assert Skips(s, p + 1, p + 2) <= 1;
    }
  }

  /** The byte before the closing quote does not start an escape. */
  lemma {:induction false} QuoteIsNotEscaped(s: Text, b: nat, e: nat)
    requires b < e < |s| && ClosingQuote(s, b) == Some(e)
    ensures Skips(s, b, e) == Skips(s, b, e - 1)
    decreases e - b
  {
    var next := if s[b] == BACKSLASH then b + 2 else b + 1;
    if next < e {
      QuoteIsNotEscaped(s, next, e);
    }
  }

  /** Hexadecimal digits hide no escape. */
  lemma SkipsOverUnit(s: Text, b: nat, p: nat)
    requires p + 6 <= |s|
    ensures Skips(s, b, p + 6) <= Skips(s, b, p) + 3
    ensures AllHex4(s, p + 2) ==> Skips(s, b, p + 6) <= Skips(s, b, p) + 1
  {
    SkipsAdvance(s, b, p);
    SkipsAdvance(s, b, p + 2);
    SkipsAdvance(s, b, p + 3);
    SkipsAdvance(s, b, p + 4);
    SkipsAdvance(s, b, p + 5);
  }

  /** What one turn writes is paid for by the characters it uses, less the escapes among them. */
  lemma StepFits(s: Text, b: nat, p: nat, e: nat)
    requires b <= p < e < |s| && DecodeStep(s, p, e).Step?
    requires p + DecodeStep(s, p, e).width <= e
    ensures var t := DecodeStep(s, p, e);
            |t.out| + Skips(s, b, p + t.width) <= t.width + Skips(s, b, p)
  {
    if s[p] != BACKSLASH {
      SkipsAdvance(s, b, p);
    } else if s[p + 1] != LOWER_U {
      SkipsAdvance(s, b, p);
    } else {
      SkipsOverUnit(s, b, p);
      var first := Hex4(s, p + 2);
      if IsHighSurrogate(first) {
        SkipsOverUnit(s, b, p + 6);
        PairFits(s, p, e);
      } else {
        UnitFits(s, p, e);
      }
    }
  }

  lemma PairFits(s: Text, p: nat, e: nat)
    requires p + 6 <= e < |s| && IsHighSurrogate(Hex4(s, p + 2)) && ReadLiteral(s, p, e).Literal?
    ensures ReadLiteral(s, p, e).length == 12 && AllHex4(s, p + 2) && AllHex4(s, p + 8)
    ensures |Utf8(ReadLiteral(s, p, e).codePoint)| <= 4
  {
  }

  lemma UnitFits(s: Text, p: nat, e: nat)
    requires p + 6 <= e < |s| && !IsHighSurrogate(Hex4(s, p + 2)) && ReadLiteral(s, p, e).Literal?
    ensures ReadLiteral(s, p, e).length == 6
    ensures |Utf8(ReadLiteral(s, p, e).codePoint)| <= if AllHex4(s, p + 2) then 3 else 1
  {
  }

  /** A turn that crosses the closing quote is a short escape on the last byte before it. */
  lemma LastStepFits(s: Text, b: nat, p: nat, e: nat)
    requires b <= p < e < |s| && ClosingQuote(s, b) == Some(e) && DecodeStep(s, p, e).Step?
    requires p + DecodeStep(s, p, e).width > e
    ensures p + DecodeStep(s, p, e).width == e + 1 && |DecodeStep(s, p, e).out| == 1
    ensures Skips(s, b, e) == Skips(s, b, p)
  {
    QuoteIsNotEscaped(s, b, e);
  }

  /** Bytes written so far at position `p`, measured against the position. */
  predicate Fits(s: Text, b: nat, p: nat, e: nat, written: nat)
    requires b <= e < |s|
  {
    if p <= e then b <= p && written + Skips(s, b, p) <= p - b
    else p == e + 1 && written + Skips(s, b, e) <= e - b
  }

  lemma TurnKeepsFit(s: Text, b: nat, p: nat, e: nat, written: nat)
    requires b <= p < e < |s| && ClosingQuote(s, b) == Some(e) && Fits(s, b, p, e, written)
    requires DecodeStep(s, p, e).Step?
    ensures var t := DecodeStep(s, p, e); Fits(s, b, p + t.width, e, written + |t.out|)
  {
    hide DecodeStep, Skips, ClosingQuote;
    var t := DecodeStep(s, p, e);
    if p + t.width <= e {
      StepFits(s, b, p, e);
    } else {
      LastStepFits(s, b, p, e);
    }
  }

  lemma {:induction false} SkipsAtMost(s: Text, b: nat, p: nat, e: nat, written: nat)
    requires b <= p <= e < |s| && written + Skips(s, b, p) <= p - b
    ensures written + Skips(s, b, e) <= e - b
    decreases e - p
  {
    if p + 1 < e {
      SkipsAdvance(s, b, p);
      SkipsAtMostStep(s, b, p);
      SkipsAtMost(s, b, p + 1, e, written);
    } else if p < e {
      SkipsAtMostStep(s, b, p);
    }
  }

  lemma {:induction false} SkipsAtMostStep(s: Text, b: nat, p: nat)
    requires p < |s|
    ensures Skips(s, b, p + 1) <= Skips(s, b, p) + 1
    decreases p + 1 - b
  {
    if b < p {
      SkipsAtMostStep(s, if s[b] == BACKSLASH then b + 2 else b + 1, p);
    }
  }

  lemma {:induction false} DecodedFits(s: Text, b: nat, p: nat, e: nat, written: nat)
    requires b <= e < |s| && ClosingQuote(s, b) == Some(e) && Fits(s, b, p, e, written)
    ensures Decode(s, p, e).Decoded? ==> written + |Decode(s, p, e).out| + Skips(s, b, e) <= e - b
    decreases e + 2 - p
  {
    hide DecodeStep, Skips, ClosingQuote;
    if p < e && DecodeStep(s, p, e).Step? {
      TurnKeepsFit(s, b, p, e, written);
      var t := DecodeStep(s, p, e);
      DecodedFits(s, b, p + t.width, e, written + |t.out|);
    }
  }

  /**
   The output and its NUL fit the allocation for every string that has a closing quote, malformed
   escapes included, and one byte is always left over: `open` is the place of the opening quote.
   */
  lemma AllocationSuffices(s: Text, open: nat, e: nat)
    requires open + 1 <= e < |s| && ClosingQuote(s, open + 1) == Some(e)
    requires Decode(s, open + 1, e).Decoded?
    ensures |Decode(s, open + 1, e).out| + 1 < (e - open - Skips(s, open + 1, e)) + 1
  {
    assert Skips(s, open + 1, open + 1) == 0;
    DecodedFits(s, open + 1, open + 1, e, 0);
  }
}
