/** Decimal numerals: how number tokens are read, and how integers are written. */
module JsonNumber {
  import opened Bytes

  const INT_MAX: int := 2147483647
  const INT_MIN: int := -2147483648
  /** Bytes of a number token that fit the parser's 64-byte scratch buffer beside its NUL. */
  const TOKEN_LIMIT: nat := 63

  predicate AllDigits(t: Text) {
    forall k :: 0 <= k < |t| ==> IsDigit(t[k])
  }

  function Nat(t: Text): nat
    requires AllDigits(t)
  {
    if t == [] then 0 else 10 * Nat(t[..|t| - 1]) + (t[|t| - 1] - 48)
  }

  function NatPower(k: nat): (p: nat)
    ensures p > 0
  {
    if k == 0 then 1 else 10 * NatPower(k - 1)
  }

  /** `x` times ten to the power `e`. */
  function Scale(x: real, e: int): real
    decreases if e < 0 then -e else e
  {
    if e == 0 then x else if e > 0 then 10.0 * Scale(x, e - 1) else Scale(x, e + 1) / 10.0
  }

  lemma ScaleStep(x: real, e: int)
    ensures Scale(x, e + 1) == 10.0 * Scale(x, e)
  {
  }

  lemma {:induction false} ScaleScale(x: real, a: int, b: int)
    ensures Scale(Scale(x, a), b) == Scale(x, a + b)
    decreases if b < 0 then -b else b
  {
    if b > 0 {
      ScaleScale(x, a, b - 1);
      ScaleStep(x, a + b - 1);
    } else if b < 0 {
      ScaleScale(x, a, b + 1);
      ScaleStep(x, a + b);
    }
  }

  lemma {:induction false} ScaleSum(x: real, y: real, e: int)
    ensures Scale(x + y, e) == Scale(x, e) + Scale(y, e)
    decreases if e < 0 then -e else e
  {
    if e > 0 {
      ScaleSum(x, y, e - 1);
    } else if e < 0 {
      ScaleSum(x, y, e + 1);
    }
  }

  lemma {:induction false} NatConcat(a: Text, b: Text)
    requires AllDigits(a) && AllDigits(b)
    ensures AllDigits(a + b)
    ensures Nat(a + b) as real == Scale(Nat(a) as real, |b|) + Nat(b) as real
  {
    if b == [] {
      assert a + b == a;
    } else {
      var front, last := b[..|b| - 1], b[|b| - 1];
      assert (a + b)[..|a + b| - 1] == a + front;
      NatConcat(a, front);
      assert Nat(a + b) == 10 * Nat(a + front) + (last - 48);
    }
  }

  function SignLength(t: Text, p: nat): nat {
    if p < |t| && (t[p] == PLUS || t[p] == MINUS) then 1 else 0
  }

  /** How many digits stand at `p`. */
  function DigitRun(t: Text, p: nat): (n: nat)
    ensures p <= |t| ==> p + n <= |t|
    ensures forall k :: p <= k < p + n && k < |t| ==> IsDigit(t[k])
    ensures p + n < |t| ==> !IsDigit(t[p + n])
    decreases |t| - p
  {
    if p < |t| && IsDigit(t[p]) then 1 + DigitRun(t, p + 1) else 0
  }

  lemma {:induction false} DigitRunIs(t: Text, p: nat, n: nat)
    requires p + n <= |t| && forall k :: p <= k < p + n ==> IsDigit(t[k])
    requires p + n < |t| ==> !IsDigit(t[p + n])
    ensures DigitRun(t, p) == n
    decreases n
  {
    if n > 0 {
      DigitRunIs(t, p + 1, n - 1);
    }
  }

  /** Length of an exponent part at `q`, zero when there is none with at least one digit. */
  function ExponentLength(t: Text, q: nat): (n: nat)
    requires q <= |t|
    ensures q + n <= |t|
    ensures n > 0 ==> n == 1 + SignLength(t, q + 1) + DigitRun(t, q + 1 + SignLength(t, q + 1))
  {
    if q < |t| && (t[q] == LOWER_E || t[q] == UPPER_E) then
      var sign := SignLength(t, q + 1);
      var digits := DigitRun(t, q + 1 + sign);
      if digits == 0 then 0 else 1 + sign + digits
    else 0
  }

  function ExponentValue(t: Text, q: nat): int
    requires q <= |t|
  {
    var n := ExponentLength(t, q);
    if n == 0 then 0
    else
      var from := q + 1 + SignLength(t, q + 1);
      var e: int := Nat(t[from..q + n]);
      if t[q + 1] == MINUS then -e else e
  }

  datatype Numeral = NoNumeral | Numeral(value: real, length: nat)

  /** Where the digits of a numeral stand: before and after the point, and the end of both. */
  datatype Layout = Layout(first: nat, whole: nat, fraction: nat, end: nat)

  function Locate(t: Text): (l: Layout)
    ensures l.first + l.whole <= l.end <= |t| || |t| < l.first
    ensures AllDigits(Mantissa(t, l))
  {
    var p := SignLength(t, 0);
    var n := DigitRun(t, p);
    if p + n < |t| && t[p + n] == DOT then
      var m := DigitRun(t, p + n + 1);
      Layout(p, n, m, p + n + 1 + m)
    else Layout(p, n, 0, p + n)
  }

  /** All the digits, with the point taken out. */
  function Mantissa(t: Text, l: Layout): Text {
    if l.first + l.whole <= |t| then
      t[l.first..l.first + l.whole]
      + if l.first + l.whole + 1 <= l.end <= |t| then t[l.first + l.whole + 1..l.end] else []
    else []
  }

  function Signed(negative: bool, size: real): real {
    if negative then -size else size
  }

  /**
   strtod on a text of digits, signs, points and exponent marks: the longest prefix that is a
   decimal numeral, and its exact value.
   */
  function Strtod(t: Text): (r: Numeral)
    ensures r.Numeral? ==> 0 < r.length <= |t|
  {
    var l := Locate(t);
    if l.whole + l.fraction == 0 then NoNumeral
    else
      Numeral(
        Signed(t[0] == MINUS, Scale(Nat(Mantissa(t, l)) as real, ExponentValue(t, l.end) - l.fraction)),
        l.end + ExponentLength(t, l.end))
  }

  predicate IsNumberByte(b: Byte) {
    IsDigit(b) || b == PLUS || b == MINUS || b == LOWER_E || b == UPPER_E || b == DOT
  }

  /** Length of the run of number characters at `i`, cut off at `limit`. */
  function TokenRun(s: Text, i: nat, limit: nat): (n: nat)
    requires i <= |s|
    ensures n <= limit && i + n <= |s|
    ensures forall k :: i <= k < i + n ==> IsNumberByte(s[k])
    decreases limit
  {
    if limit == 0 || i == |s| || !IsNumberByte(s[i]) then 0 else 1 + TokenRun(s, i + 1, limit - 1)
  }

  lemma {:induction false} TokenRunIs(s: Text, i: nat, limit: nat, n: nat)
    requires n <= limit && i + n <= |s| && forall k :: i <= k < i + n ==> IsNumberByte(s[k])
    requires i + n < |s| && !IsNumberByte(s[i + n])
    ensures TokenRun(s, i, limit) == n
    decreases n
  {
    if n > 0 {
      TokenRunIs(s, i + 1, limit - 1, n - 1);
    }
  }

  /** The integer field beside the number: truncated toward zero, saturated at the ends of `int`. */
  function ValueInt(r: real): (n: int)
    ensures INT_MIN <= n <= INT_MAX
  {
    if r >= INT_MAX as real then INT_MAX
    else if r <= INT_MIN as real then INT_MIN
    else if r >= 0.0 then r.Floor
    else -((-r).Floor)
  }

  /** `n` is `r` without its fraction, or the end of the range of `int` that is nearer to `r`. */
  predicate Truncates(r: real, n: int) {
    if r > INT_MAX as real then n == INT_MAX
    else if r < INT_MIN as real then n == INT_MIN
    else if r >= 0.0 then n as real <= r < n as real + 1.0 && n >= 0
    else n as real >= r > n as real - 1.0 && n <= 0
  }

  lemma ValueIntTruncates(r: real, n: int)
    ensures n == ValueInt(r) <==> Truncates(r, n)
  {
  }

  /** A non-negative integer in decimal, without leading zeros. */
  function Digits(n: nat): (t: Text)
    ensures AllDigits(t) && t != []
    ensures t[0] == ZERO ==> |t| == 1
    ensures n > 0 ==> t[0] != ZERO
  {
    if n < 10 then [48 + n] else Digits(n / 10) + [48 + n % 10]
  }

  lemma {:induction false} DigitsRoundTrip(n: nat)
    ensures Nat(Digits(n)) == n
  {
    if n < 10 {
      assert Digits(n)[..0] == [];
    } else {
      var t := Digits(n);
      assert t[..|t| - 1] == Digits(n / 10);
      DigitsRoundTrip(n / 10);
    }
  }

  lemma {:induction false} DigitsLength(n: nat, k: nat)
    requires k > 0 && n < NatPower(k)
    ensures |Digits(n)| <= k
    decreases k
  {
    if n >= 10 {
      assert NatPower(k) == 10 * NatPower(k - 1);
      assert NatPower(0) == 1;
      DigitsLength(n / 10, k - 1);
    }
  }

  /** An integer in decimal, as the print format of an integral double below 10^15 writes it. */
  function Decimal(n: int): (t: Text)
    ensures t != []
  {
    if n < 0 then [MINUS] + Digits(-n) else Digits(n)
  }

  /** The text is a decimal numeral for `n` without leading zeros. */
  predicate SpellsInt(t: Text, n: int) {
    if n < 0 then t != [] && t[0] == MINUS && SpellsNat(t[1..], -n) else SpellsNat(t, n)
  }

  predicate SpellsNat(t: Text, n: nat) {
    t != [] && AllDigits(t) && (t[0] == ZERO ==> |t| == 1) && Nat(t) == n
  }

  lemma {:induction false} DigitsOfNat(t: Text)
    requires t != [] && AllDigits(t) && (t[0] == ZERO ==> |t| == 1)
    ensures Digits(Nat(t)) == t
    ensures Nat(t) > 0 || t == [ZERO]
    decreases |t|
  {
    var front, last := t[..|t| - 1], t[|t| - 1];
    if front == [] {
      assert t == [last] && Nat(front) == 0;
    } else {
      DigitsOfNat(front);
      assert Nat(t) == 10 * Nat(front) + (last - 48);
      assert Nat(t) / 10 == Nat(front) && Nat(t) % 10 == last - 48;
      assert t == front + [last];
    }
  }

  /** There is one such numeral for every integer, and it is what is printed. */
  lemma DecimalSpells(t: Text, n: int)
    ensures t == Decimal(n) <==> SpellsInt(t, n)
  {
    var size: nat := if n < 0 then -n else n;
    DigitsRoundTrip(size);
    if SpellsInt(t, n) {
      DigitsOfNat(if n < 0 then t[1..] else t);
      assert n < 0 ==> t == [MINUS] + t[1..];
    }
    assert ([MINUS] + Digits(size))[1..] == Digits(size);
  }
}
