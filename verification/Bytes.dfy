/** Bytes, byte strings and the characters the JSON code compares against. */
module Bytes {
  type Byte = x: int | 0 <= x < 256 witness 0
  type Text = seq<Byte>

  const NUL: Byte := 0
  const BACKSPACE: Byte := 8
  const TAB: Byte := 9
  const NEWLINE: Byte := 10
  const FORM_FEED: Byte := 12
  const RETURN: Byte := 13
  const SPACE: Byte := 32
  const QUOTE: Byte := 34
  const PLUS: Byte := 43
  const COMMA: Byte := 44
  const MINUS: Byte := 45
  const DOT: Byte := 46
  const SLASH: Byte := 47
  const ZERO: Byte := 48
  const COLON: Byte := 58
  const UPPER_E: Byte := 69
  const LBRACKET: Byte := 91
  const BACKSLASH: Byte := 92
  const RBRACKET: Byte := 93
  const LOWER_B: Byte := 98
  const LOWER_E: Byte := 101
  const LOWER_F: Byte := 102
  const LOWER_N: Byte := 110
  const LOWER_R: Byte := 114
  const LOWER_T: Byte := 116
  const LOWER_U: Byte := 117
  const LBRACE: Byte := 123
  const RBRACE: Byte := 125

  const NULL_WORD: Text := [110, 117, 108, 108]
  const TRUE_WORD: Text := [116, 114, 117, 101]
  const FALSE_WORD: Text := [102, 97, 108, 115, 101]
  const BOM: Text := [0xEF, 0xBB, 0xBF]

  predicate IsDigit(b: Byte) {
    48 <= b <= 57
  }

  /** `t` stands in `s` at position `i`. */
  predicate At(s: Text, i: nat, t: Text) {
    i + |t| <= |s| && s[i..i + |t|] == t
  }

  lemma AtByte(s: Text, i: nat, t: Text, k: nat)
    requires At(s, i, t) && k < |t|
    ensures i + k < |s| && s[i + k] == t[k]
  {
    assert s[i..i + |t|][k] == t[k];
  }

  lemma AtSplit(s: Text, i: nat, a: Text, b: Text)
    ensures At(s, i, a + b) <==> At(s, i, a) && At(s, i + |a|, b)
  {
    if At(s, i, a + b) {
      assert s[i..i + |a + b|][..|a|] == s[i..i + |a|];
      assert s[i..i + |a + b|][|a|..] == s[i + |a|..i + |a| + |b|];
    }
    if At(s, i, a) && At(s, i + |a|, b) {
      assert s[i..i + |a| + |b|] == s[i..i + |a|] + s[i + |a|..i + |a| + |b|];
    }
  }

  /** What a reader of a C string sees of `t`: everything before the first NUL. */
  function CString(t: Text): (r: Text)
    ensures NUL !in r
    ensures |r| <= |t|
    ensures NUL !in t ==> r == t
  {
    if t == [] || t[0] == NUL then [] else [t[0]] + CString(t[1..])
  }
}
