/**
 The escape `\uXXXX` as cJSON decodes it: four hexadecimal digits make a UTF-16 unit, one or two
 units make a code point, and the code point is written out in UTF-8.
 */
module Unicode {
  import opened Wrappers
  import opened Bytes

  predicate IsHex(b: Byte) {
    48 <= b <= 57 || 65 <= b <= 70 || 97 <= b <= 102
  }

  function HexValue(b: Byte): (v: nat)
    requires IsHex(b)
    ensures v < 16
  {
    if b <= 57 then b - 48 else if b <= 70 then b - 55 else b - 87
  }

  predicate AllHex4(s: Text, p: nat)
    requires p + 4 <= |s|
  {
    IsHex(s[p]) && IsHex(s[p + 1]) && IsHex(s[p + 2]) && IsHex(s[p + 3])
  }

  /** The unit spelled by four digits; a text with any other character in it counts as zero. */
  function Hex4(s: Text, p: nat): (v: nat)
    requires p + 4 <= |s|
    ensures v < 0x10000
  {
    if AllHex4(s, p) then
      4096 * HexValue(s[p]) + 256 * HexValue(s[p + 1]) + 16 * HexValue(s[p + 2]) + HexValue(s[p + 3])
    else 0
  }

  /** The first `k` digits read from the left. */
  function HexFold(s: Text, p: nat, k: nat): nat
    requires p + k <= |s| && forall j :: p <= j < p + k ==> IsHex(s[j])
  {
    if k == 0 then 0 else 16 * HexFold(s, p, k - 1) + HexValue(s[p + k - 1])
  }

  lemma HexFoldIsHex4(s: Text, p: nat)
    requires p + 4 <= |s| && forall j :: p <= j < p + 4 ==> IsHex(s[j])
    ensures HexFold(s, p, 4) == Hex4(s, p)
  {
    assert HexFold(s, p, 2) == 16 * HexFold(s, p, 1) + HexValue(s[p + 1]);
    assert HexFold(s, p, 3) == 16 * HexFold(s, p, 2) + HexValue(s[p + 2]);
  }

  /** The digit loop: the accumulator moves up one nibble after each of the first three digits. */
  method ParseHex4(s: Text, p: nat) returns (h: nat)
    requires p + 4 <= |s|
    ensures h == Hex4(s, p)
  {
    h := 0;
    var i := 0;
    while i < 4
      invariant 0 <= i <= 4
      invariant forall k :: p <= k < p + i ==> IsHex(s[k])
      invariant h == if i == 4 then HexFold(s, p, 4) else 16 * HexFold(s, p, i)
    {
      var b := s[p + i];
      if 48 <= b <= 57 {
        h := h + (b - 48);
      } else if 65 <= b <= 70 {
        h := h + 10 + (b - 65);
      } else if 97 <= b <= 102 {
        h := h + 10 + (b - 97);
      } else {
        return 0;
      }
      if i < 3 {
        h := h * 16;
      }
      i := i + 1;
    }
    HexFoldIsHex4(s, p);
  }

  predicate IsHighSurrogate(u: nat) {
    0xD800 <= u <= 0xDBFF
  }

  predicate IsLowSurrogate(u: nat) {
    0xDC00 <= u <= 0xDFFF
  }

  predicate IsSurrogate(u: nat) {
    0xD800 <= u <= 0xDFFF
  }

  predicate IsScalar(cp: nat) {
    cp <= 0x10FFFF && !IsSurrogate(cp)
  }

  datatype Literal = BadLiteral | Literal(length: nat, codePoint: nat)

  /** The escape at `p` in a string whose closing quote is at `e`. */
  function ReadLiteral(s: Text, p: nat, e: nat): (r: Literal)
    requires p <= e < |s|
    ensures r.Literal? ==> IsScalar(r.codePoint) && p + r.length <= e && (r.length == 6 || r.length == 12)
  {
    if e - p < 6 then BadLiteral
    else
      var first := Hex4(s, p + 2);
      if IsLowSurrogate(first) then BadLiteral
      else if IsHighSurrogate(first) then
        if e - (p + 6) < 6 then BadLiteral
        else if s[p + 6] != BACKSLASH || s[p + 7] != LOWER_U then BadLiteral
        else
          var second := Hex4(s, p + 8);
          if !IsLowSurrogate(second) then BadLiteral
          else Literal(12, 0x10000 + (first % 0x400) * 0x400 + second % 0x400)
      else Literal(6, first)
  }

  /** UTF-8 as section 3 of RFC 3629 lays it out. */
  function Utf8(cp: nat): (r: Text)
    requires cp <= 0x10FFFF
    ensures 1 <= |r| <= 4
  {
    var shift1 := cp / 64;
    var shift2 := shift1 / 64;
    var shift3 := shift2 / 64;
    if cp < 0x80 then [cp]
    else if cp < 0x800 then [0xC0 + shift1, 0x80 + cp % 64]
    else if cp < 0x10000 then [0xE0 + shift2, 0x80 + shift1 % 64, 0x80 + cp % 64]
    else [0xF0 + shift3, 0x80 + shift2 % 64, 0x80 + shift1 % 64, 0x80 + cp % 64]
  }

  predicate IsTail(b: Byte) {
    0x80 <= b <= 0xBF
  }

  /** A value so far and six more bits from a tail byte. */
  function Join(high: nat, tail: Byte): nat
    requires IsTail(tail)
  {
    high * 64 + (tail - 0x80)
  }

  /**
   A strict reader of UTF-8: the grammar of section 4 of RFC 3629, which has no overlong form, no
   surrogate and nothing above U+10FFFF.
   */
  function ReadUtf8(t: Text): Option<nat> {
    if |t| == 1 && t[0] <= 0x7F then Some(t[0])
    else if |t| == 2 && 0xC2 <= t[0] <= 0xDF && IsTail(t[1]) then
      Some(Join(t[0] - 0xC0, t[1]))
    else if |t| == 3 && IsTail(t[1]) && IsTail(t[2])
            && ((t[0] == 0xE0 && 0xA0 <= t[1]) || 0xE1 <= t[0] <= 0xEC || (t[0] == 0xED && t[1] <= 0x9F)
                || 0xEE <= t[0] <= 0xEF) then
      Some(Join(Join(t[0] - 0xE0, t[1]), t[2]))
    else if |t| == 4 && IsTail(t[1]) && IsTail(t[2]) && IsTail(t[3])
            && ((t[0] == 0xF0 && 0x90 <= t[1]) || 0xF1 <= t[0] <= 0xF3 || (t[0] == 0xF4 && t[1] <= 0x8F)) then
      Some(Join(Join(Join(t[0] - 0xF0, t[1]), t[2]), t[3]))
    else None
  }

  /** What the encoder writes for a scalar value is well-formed UTF-8 for that value and no other. */
  lemma Utf8RoundTrip(cp: nat)
    requires IsScalar(cp)
    ensures ReadUtf8(Utf8(cp)) == Some(cp)
  {
    var shift1 := cp / 64;
    var shift2 := shift1 / 64;
    if cp < 0x80 {
    } else if cp < 0x800 {
      JoinUndoesShift(cp);
    } else if cp < 0x10000 {
      JoinUndoesShift(cp);
      JoinUndoesShift(shift1);
    } else {
      JoinUndoesShift(cp);
      JoinUndoesShift(shift1);
      JoinUndoesShift(shift2);
    }
  }

  lemma JoinUndoesShift(n: nat)
    ensures Join(n / 64, 0x80 + n % 64) == n
  {
  }

  /** The UTF-16 units of a scalar value: section 2.1 of RFC 2781. */
  function Utf16(cp: nat): (r: seq<nat>)
    requires IsScalar(cp)
    ensures 1 <= |r| <= 2
  {
    if cp < 0x10000 then [cp]
    else [0xD800 + (cp - 0x10000) / 0x400, 0xDC00 + (cp - 0x10000) % 0x400]
  }

  /** One unit written as an escape, with digits of either case. */
  predicate SpellsUnit(s: Text, p: nat, u: nat) {
    p + 6 <= |s| && s[p] == BACKSLASH && s[p + 1] == LOWER_U && AllHex4(s, p + 2) && Hex4(s, p + 2) == u
  }

  predicate SpellsUnits(s: Text, p: nat, us: seq<nat>)
    decreases |us|
  {
    us == [] || (SpellsUnit(s, p, us[0]) && SpellsUnits(s, p + 6, us[1..]))
  }

  /** A scalar value spelled unit by unit is read back, and all of its escapes are consumed. */
  lemma LiteralRoundTrip(s: Text, p: nat, e: nat, cp: nat)
    requires IsScalar(cp) && p + 6 * |Utf16(cp)| <= e < |s|
    requires SpellsUnits(s, p, Utf16(cp))
    ensures ReadLiteral(s, p, e) == Literal(6 * |Utf16(cp)|, cp)
  {
    var us := Utf16(cp);
    assert SpellsUnit(s, p, us[0]);
    if |us| == 2 {
      assert us[1..] == [us[1]];
      assert SpellsUnits(s, p + 6, [us[1]]);
      assert SpellsUnit(s, p + 6, us[1]);
      SurrogateHalves(cp);
      PairIsRead(s, p, e, us[0], us[1]);
    }
  }

  lemma SurrogateHalves(cp: nat)
    requires 0x10000 <= cp <= 0x10FFFF
    ensures var us := Utf16(cp);
            IsHighSurrogate(us[0]) && IsLowSurrogate(us[1])
            && 0x10000 + (us[0] % 0x400) * 0x400 + us[1] % 0x400 == cp
  {
    var q, r := (cp - 0x10000) / 0x400, (cp - 0x10000) % 0x400;
    assert cp - 0x10000 == q * 0x400 + r;
    assert (0xD800 + q) % 0x400 == q;
    assert (0xDC00 + r) % 0x400 == r;
  }

  lemma PairIsRead(s: Text, p: nat, e: nat, high: nat, low: nat)
    requires p + 12 <= e < |s|
    requires SpellsUnit(s, p, high) && SpellsUnit(s, p + 6, low)
    requires IsHighSurrogate(high) && IsLowSurrogate(low)
    ensures ReadLiteral(s, p, e) == Literal(12, 0x10000 + (high % 0x400) * 0x400 + low % 0x400)
  {
  }

  /** With well-formed digits the only escapes refused are the surrogates that do not pair up. */
  lemma RefusedExactlyWhenUnpaired(s: Text, p: nat, e: nat, u: nat)
    requires p + 6 <= e < |s| && SpellsUnit(s, p, u)
    ensures ReadLiteral(s, p, e).BadLiteral? <==>
            IsLowSurrogate(u)
            || (IsHighSurrogate(u)
                && !(p + 12 <= e && s[p + 6] == BACKSLASH && s[p + 7] == LOWER_U && IsLowSurrogate(Hex4(s, p + 8))))
  {
  }

  /** Number of bytes and lead mark the encoder picks for a code point. */
  function Utf8Length(cp: nat): (n: nat)
    requires cp <= 0x10FFFF
    ensures n == |Utf8(cp)|
  {
    if cp < 0x80 then 1 else if cp < 0x800 then 2 else if cp < 0x10000 then 3 else 4
  }

  /**
   Decodes the escape at `p` and writes its UTF-8 bytes into `output` from `o` on, last byte first.
   Returns the number of characters of input used, zero on failure, and the place after the output.
   */
  method Utf16LiteralToUtf8(s: Text, p: nat, e: nat, output: array<Byte>, o: nat)
    returns (sequenceLength: nat, o': nat)
    requires p <= e < |s|
    requires ReadLiteral(s, p, e).Literal? ==> o + |Utf8(ReadLiteral(s, p, e).codePoint)| <= output.Length
    modifies output
    ensures ReadLiteral(s, p, e).BadLiteral? ==> sequenceLength == 0 && o' == o && output[..] == old(output[..])
    ensures ReadLiteral(s, p, e).Literal? ==>
              var cp := ReadLiteral(s, p, e).codePoint;
              sequenceLength == ReadLiteral(s, p, e).length && o' == o + |Utf8(cp)|
              && output[o..o'] == Utf8(cp)
              && output[..o] == old(output[..o])
  {
    if e - p < 6 {
      return 0, o;
    }
    var first := ParseHex4(s, p + 2);
    if 0xDC00 <= first <= 0xDFFF {
      return 0, o;
    }
    var codePoint: nat;
    if 0xD800 <= first <= 0xDBFF {
      sequenceLength := 12;
      if e - (p + 6) < 6 {
        return 0, o;
      }
      if s[p + 6] != BACKSLASH || s[p + 7] != LOWER_U {
        return 0, o;
      }
      var second := ParseHex4(s, p + 8);
      if second < 0xDC00 || second > 0xDFFF {
        return 0, o;
      }
      codePoint := 0x10000 + (first % 0x400) * 0x400 + second % 0x400;
    } else {
      sequenceLength := 6;
      codePoint := first;
    }
    WriteUtf8(codePoint, output, o);
    o' := o + Utf8Length(codePoint);
  }

  /** The encoding loop: tail bytes from the last to the second, six bits each, then the lead byte. */
  method WriteUtf8(cp: nat, output: array<Byte>, o: nat)
    requires cp <= 0x10FFFF && o + |Utf8(cp)| <= output.Length
    modifies output
    ensures output[o..o + |Utf8(cp)|] == Utf8(cp)
    ensures output[..o] == old(output[..o])
  {
    var n, mark := 4, 0xF0;
    if cp < 0x80 {
      n, mark := 1, 0;
    } else if cp < 0x800 {
      n, mark := 2, 0xC0;
    } else if cp < 0x10000 {
      n, mark := 3, 0xE0;
    }
    LeadByte(cp, n, mark);
    forall k | 0 < k < n ensures Utf8(cp)[k] == 0x80 + Shifted(cp, n - 1 - k) % 64 {
      TailByte(cp, k);
    }
    WriteBytes(cp, n, mark, output, o, Utf8(cp));
  }

  method WriteBytes(cp: nat, n: nat, mark: nat, output: array<Byte>, o: nat, ghost encoded: Text)
    requires |encoded| == n > 0 && o + n <= output.Length
    requires encoded[0] == mark + Shifted(cp, n - 1)
    requires forall k :: 0 < k < n ==> encoded[k] == 0x80 + Shifted(cp, n - 1 - k) % 64
    modifies output
    ensures output[o..o + n] == encoded
    ensures output[..o] == old(output[..o])
  {
    var rest := cp;
    var position := n - 1;
    while position > 0
      invariant 0 <= position < n
      invariant rest == Shifted(cp, n - 1 - position)
      invariant output[o + position + 1..o + n] == encoded[position + 1..]
      invariant output[..o] == old(output[..o])
    {
      output[o + position] := 0x80 + rest % 64;
      rest := rest / 64;
      position := position - 1;
    }
    output[o] := mark + rest;
    assert output[o + 1..o + n] == encoded[1..];
    assert output[o..o + n] == [output[o]] + output[o + 1..o + n];
  }

  /** The code point after `k` shifts by six bits. */
  function Shifted(cp: nat, k: nat): nat {
    if k == 0 then cp else Shifted(cp, k - 1) / 64
  }

  lemma ShiftsOf(cp: nat)
    ensures Shifted(cp, 0) == cp
    ensures Shifted(cp, 1) == cp / 64
    ensures Shifted(cp, 2) == cp / 64 / 64
    ensures Shifted(cp, 3) == cp / 64 / 64 / 64
  {
    assert Shifted(cp, 1) == Shifted(cp, 0) / 64;
    assert Shifted(cp, 2) == Shifted(cp, 1) / 64;
    assert Shifted(cp, 3) == Shifted(cp, 2) / 64;
  }

  lemma LeadByte(cp: nat, n: nat, mark: nat)
    requires cp <= 0x10FFFF
    requires n == if cp < 0x80 then 1 else if cp < 0x800 then 2 else if cp < 0x10000 then 3 else 4
    requires mark == if n == 1 then 0 else if n == 2 then 0xC0 else if n == 3 then 0xE0 else 0xF0
    ensures |Utf8(cp)| == n && Utf8(cp)[0] == mark + Shifted(cp, n - 1)
  {
    ShiftsOf(cp);
  }

  lemma TailByte(cp: nat, position: nat)
    requires cp <= 0x10FFFF && 0 < position < |Utf8(cp)|
    ensures Utf8(cp)[position] == 0x80 + Shifted(cp, |Utf8(cp)| - 1 - position) % 64
  {
    ShiftsOf(cp);
  }

  /** The masks of the source and the sums above agree on every code point. */
  lemma MasksAreSums(cp: bv32)
    requires cp <= 0x10FFFF
    ensures (cp | 0x80) & 0xBF == 0x80 + (cp & 0x3F)
    ensures cp >> 6 == cp / 64
    ensures cp & 0x3F == cp % 64
    ensures cp < 0x20 ==> (cp | 0xC0) & 0xFF == 0xC0 + cp
    ensures cp < 0x10 ==> (cp | 0xE0) & 0xFF == 0xE0 + cp
    ensures cp < 0x08 ==> (cp | 0xF0) & 0xFF == 0xF0 + cp
  {
  }
}
