/**
 The body of a CNAM error reply, `{"error":{"code":N,"reason":"..."}}`, is put together by string
 concatenation. A client that parses it gets the code and the reason back if and only if the reason
 has no quote and no backslash.
 */
module ErrorBodies {
  import opened Wrappers
  import opened Bytes
  import opened JsonNumber
  import opened JsonValue
  import opened JsonGrammar
  import opened JsonParse
  import opened JsonComplete
  import opened JsonCompleteNumber
  import opened JsonCompleteTree
  import opened JsonRoundTrip
  import opened JsonStringSize
  import opened JsonTheorems
  import opened Wire

  const ERROR_KEY: Text := [101, 114, 114, 111, 114]
  const CODE_KEY: Text := [99, 111, 100, 101]
  const REASON_KEY: Text := [114, 101, 97, 115, 111, 110]

  function ErrorValue(code: Byte, reason: Text): Json {
    Object([Member(ERROR_KEY,
                   Object([Member(CODE_KEY, Number((code as int) as real)), Member(REASON_KEY, String(reason))]))])
  }

  predicate NeedsNoEscape(t: Text) {
    forall k :: 0 <= k < |t| ==> t[k] != QUOTE && t[k] != BACKSLASH && t[k] != NUL
  }

  function PlainChars(t: Text): (cs: seq<Char>)
    ensures |cs| == |t|
  {
    if t == [] then [] else [Plain(t[0])] + PlainChars(t[1..])
  }

  lemma {:induction false} PlainSpells(t: Text)
    requires NeedsNoEscape(t)
    ensures WellFormedChars(PlainChars(t))
    ensures CharsText(PlainChars(t)) == t && CharsMeaning(PlainChars(t)) == t
  {
    if t != [] {
      PlainSpells(t[1..]);
      var cs := PlainChars(t);
      assert cs[1..] == PlainChars(t[1..]);
      assert t == [t[0]] + t[1..];
    }
  }

  function UnderKey(key: Text, r: Outcome<Json>): Outcome<Member> {
    match r
    case Err(at) => Err(at)
    case Ok(v, next) => Ok(Member(key, v), next)
  }

  function AsString(r: Outcome<Text>): Outcome<Json> {
    match r
    case Err(at) => Err(at)
    case Ok(t, next) => Ok(String(t), next)
  }

  /** The key and colon of a member that has no white space, whatever follows the colon. */
  lemma KeyThenValue(s: Text, i: nat, key: Text, depth: nat)
    requires Terminated(s) && NeedsNoEscape(key) && At(s, i, [QUOTE] + (key + [QUOTE, COLON]))
    requires i + |key| + 3 < |s| && s[i + |key| + 3] > SPACE
    ensures ReadEntry(s, i, depth)
            == UnderKey(key, ReadValue(s, i + |key| + 3, depth))
  {
    hide ReadValue, ReadString, CharsText, CharsMeaning, CString, At, SkipWs, NeedsNoEscape;
    PlainSpells(key);
    var cs := PlainChars(key);
    assert [QUOTE] + (key + [QUOTE, COLON]) == Quoted(cs) + [COLON];
    AtSplit(s, i, Quoted(cs), [COLON]);
    var c := i + |key| + 2;
    AtByte(s, c, [COLON], 0);
    AtByte(s, i, Quoted(cs), 0);
    EmptyGap(s, i);
    EmptyGap(s, c);
    EmptyGap(s, c + 1);
    StringIsRead(s, i, cs);
    PlainIsCString(key);
  }

  lemma PlainIsCString(t: Text)
    requires NeedsNoEscape(t)
    ensures CString(t) == t && NUL !in t
  {
  }

  /** Places in the body: the value of `error`, the value of `code`, and the opening quote of the reason. */
  lemma BodyLayout(code: Byte, reason: Text)
    ensures var s := ErrorBody(code, reason) + [NUL];
            var d := 17 + |Decimal(code)|;
            |s| == d + 15 + |reason|
            && s[0] == LBRACE && At(s, 1, [QUOTE] + (ERROR_KEY + [QUOTE, COLON])) && s[9] == LBRACE
            && At(s, 10, [QUOTE] + (CODE_KEY + [QUOTE, COLON])) && At(s, 17, Decimal(code)) && s[d] == COMMA
            && At(s, d + 1, [QUOTE] + (REASON_KEY + [QUOTE, COLON])) && s[d + 10] == QUOTE
            && At(s, d + 11, reason) && At(s, d + 11 + |reason|, [34, 125, 125, NUL])
  {
    hide Decimal;
    var number := Decimal(code);
    var s := ErrorBody(code, reason) + [NUL];
    var tail := [34, 125, 125, NUL];
    assert s == ERROR_OPEN + (number + (ERROR_REASON + (reason + tail)));
    FiveParts(s, ERROR_OPEN, number, ERROR_REASON, reason, tail);
    assert s[0..17] == ERROR_OPEN;
    assert s[1..9] == s[0..17][1..9] == [QUOTE] + (ERROR_KEY + [QUOTE, COLON]);
    assert s[10..17] == s[0..17][10..17] == [QUOTE] + (CODE_KEY + [QUOTE, COLON]);
    assert s[0] == s[0..17][0] && s[9] == s[0..17][9];
    var d := 17 + |number|;
    assert s[d..d + 11] == ERROR_REASON;
    assert s[d + 1..d + 10] == s[d..d + 11][1..10] == [QUOTE] + (REASON_KEY + [QUOTE, COLON]);
    assert s[d] == s[d..d + 11][0] && s[d + 10] == s[d..d + 11][10];
  }

  /** The number in front of the reason. */
  lemma CodeIsRead(code: Byte, reason: Text, depth: nat)
    ensures var s := ErrorBody(code, reason) + [NUL];
            17 < |s| && s[17] > SPACE
            && ReadValue(s, 17, depth) == Ok(Number((code as int) as real), 17 + |Decimal(code)|)
  {
    hide Decimal, ReadNumber, ErrorBody, At, NumberText, NumberMeaning, WellFormedNumber;
    var s := ErrorBody(code, reason) + [NUL];
    BodyLayout(code, reason);
    NumberSpells((code as int) as real);
    NumberIsRead(s, 17, TokenOf(code));
    Dispatch(s, 17, depth);
  }

  /**
   Whatever the reason holds, the parser gets as far as its opening quote, and what it makes of the
   string there is what ends up under `reason`.
   */
  lemma ReasonIsReached(code: Byte, reason: Text, requireNul: bool)
    ensures var s, q := ErrorBody(code, reason) + [NUL], 27 + |Decimal(code)|;
            var r := ParseText(ErrorBody(code, reason), requireNul);
            q + 1 + |reason| < |s|
            && (r.Parsed? && r.value == ErrorValue(code, reason) ==>
                  ReadString(s, q).Ok? && ReadString(s, q).value == reason)
  {
    hide Decimal, ReadString, ReadValue, ReadEntries, ReadEntry, ErrorBody, At, SkipWs, ErrorValue, NeedsNoEscape;
    var s := ErrorBody(code, reason) + [NUL];
    BodyLayout(code, reason);
    var d := 17 + |Decimal(code)|;
    var q := d + 10;
    KeysNeedNoEscape();
    AtByte(s, d + 1, [QUOTE] + (REASON_KEY + [QUOTE, COLON]), 0);
    AtByte(s, 1, [QUOTE] + (ERROR_KEY + [QUOTE, COLON]), 0);
    AtByte(s, 10, [QUOTE] + (CODE_KEY + [QUOTE, COLON]), 0);
    CodeIsRead(code, reason, 2);
    KeyThenValue(s, 10, CODE_KEY, 2);
    KeyThenValue(s, d + 1, REASON_KEY, 2);
    KeyThenValue(s, 1, ERROR_KEY, 1);
    Dispatch(s, q, 2);
    Dispatch(s, 9, 1);
    Dispatch(s, 0, 0);
    EmptyGap(s, 0);
    EmptyGap(s, 1);
    EmptyGap(s, 10);
    EmptyGap(s, d);
    NoMark(s);
    InnerObject(s, d, q, Number((code as int) as real));
    OuterObject(s);
    OutermostValue(code, reason, s, requireNul);
  }

  lemma KeysNeedNoEscape()
    ensures NeedsNoEscape(ERROR_KEY) && NeedsNoEscape(CODE_KEY) && NeedsNoEscape(REASON_KEY)
  {
  }

  lemma NoMark(s: Text)
    requires Terminated(s) && s[0] == LBRACE
    ensures SkipBom(s) == 0
  {
    BomFirst(s);
  }

  /** The object under `error`: its second member is whatever string stands at `q`. */
  lemma InnerObject(s: Text, d: nat, q: nat, code: Json)
    requires Terminated(s) && 10 < d < q < |s| && s[9] == LBRACE && s[10] == QUOTE && s[d] == COMMA
    requires SkipWs(s, 10) == 10 && SkipWs(s, d) == d
    requires ReadEntry(s, 10, 2) == Ok(Member(CODE_KEY, code), d)
    requires ReadEntry(s, d + 1, 2) == UnderKey(REASON_KEY, ReadValue(s, q, 2))
    requires ReadValue(s, q, 2) == AsString(ReadString(s, q))
    ensures ReadString(s, q).Err? ==> ReadObject(s, 9, 1).Err?
    ensures ReadString(s, q).Ok? && ReadObject(s, 9, 1).Ok? ==>
              var r := ReadObject(s, 9, 1).value;
              r.Object? && |r.members| >= 2 && r.members[1] == Member(REASON_KEY, String(ReadString(s, q).value))
  {
    hide ReadString, ReadValue, ReadEntry, SkipWs;
    var rest := ReadEntries(s, d + 1, 2);
    assert ReadEntries(s, 10, 2) == PrefixedItem(Member(CODE_KEY, code), rest);
    FirstEntry(s, d + 1, 2);
  }

  /** The first member of a list is the one its first entry gives. */
  lemma FirstEntry(s: Text, i: nat, depth: nat)
    requires Terminated(s) && i < |s|
    ensures ReadEntry(s, i, depth).Err? ==> ReadEntries(s, i, depth).Err?
    ensures ReadEntries(s, i, depth).Ok? ==>
              |ReadEntries(s, i, depth).value| >= 1
              && ReadEntries(s, i, depth).value[0] == ReadEntry(s, i, depth).value
  {
    hide ReadEntry, SkipWs;
  }

  lemma OuterObject(s: Text)
    requires Terminated(s) && 9 < |s| && s[0] == LBRACE && s[1] == QUOTE && SkipWs(s, 1) == 1 && s[9] == LBRACE
    requires ReadEntry(s, 1, 1) == UnderKey(ERROR_KEY, ReadValue(s, 9, 1))
    requires ReadValue(s, 9, 1) == ReadObject(s, 9, 1)
    ensures ReadObject(s, 9, 1).Err? ==> ReadObject(s, 0, 0).Err?
    ensures ReadObject(s, 0, 0).Ok? ==>
              ReadObject(s, 9, 1).Ok? && ReadObject(s, 0, 0).value.Object?
              && |ReadObject(s, 0, 0).value.members| >= 1
              && ReadObject(s, 0, 0).value.members[0].value == ReadObject(s, 9, 1).value
  {
    hide ReadValue, ReadEntry, SkipWs, ReadEntries;
    FirstEntry(s, 1, 1);
    ObjectMembers(s, 0, 0, 1);
  }

  lemma ObjectMembers(s: Text, i: nat, depth: nat, j: nat)
    requires Terminated(s) && i + 1 < |s| && s[i] == LBRACE && depth < NESTING_LIMIT
    requires SkipWs(s, i + 1) == j && s[j] != RBRACE
    ensures ReadObject(s, i, depth)
            == match ReadEntries(s, j, depth + 1)
               case Ok(members, next) => Ok(Object(members), next)
               case Err(at) => Err(at)
  {
    hide ReadEntries, SkipWs;
  }

  lemma OutermostValue(code: Byte, reason: Text, s: Text, requireNul: bool)
    requires s == ErrorBody(code, reason) + [NUL] && Terminated(s) && SkipBom(s) == 0 && SkipWs(s, 0) == 0
    requires s[0] == LBRACE && ReadValue(s, 0, 0) == ReadObject(s, 0, 0)
    ensures var r := ParseText(ErrorBody(code, reason), requireNul);
            (ReadObject(s, 0, 0).Err? ==> r.Failed?)
            && (r.Parsed? ==> ReadObject(s, 0, 0).Ok? && r.value == ReadObject(s, 0, 0).value)
    ensures ErrorValue(code, reason).Object? && |ErrorValue(code, reason).members| == 1
            && ErrorValue(code, reason).members[0].value.Object?
            && |ErrorValue(code, reason).members[0].value.members| == 2
            && ErrorValue(code, reason).members[0].value.members[1] == Member(REASON_KEY, String(reason))
  {
    hide ReadObject, ReadValue, SkipWs, SkipBom, ErrorBody;
  }

  /** With a quote or a backslash in it, the reason read is shorter than the reason sent, if any is read. */
  lemma SpecialReasonShrinks(s: Text, q: nat, reason: Text)
    requires Terminated(s) && q < |s| && s[q] == QUOTE && NUL !in reason
    requires At(s, q + 1, reason) && At(s, q + 1 + |reason|, [34, 125, 125, NUL])
    requires |s| == q + 1 + |reason| + 4
    requires !NeedsNoEscape(reason)
    ensures ReadString(s, q).Ok? ==> |ReadString(s, q).value| < |reason|
  {
    hide Decode, Skips, ClosingQuote, CString;
    var b := q + 1;
    var quote := ClosingQuote(s, b);
    if quote.Some? {
      var e := quote.value;
      AtByte(s, b + |reason|, [34, 125, 125, NUL], 1);
      AtByte(s, b + |reason|, [34, 125, 125, NUL], 2);
      AtByte(s, b + |reason|, [34, 125, 125, NUL], 3);
      assert e <= b + |reason|;
      if Decode(s, b, e).Decoded? {
        SkipsFromStart(s, b);
        DecodedFits(s, b, b, e, 0);
        if e == b + |reason| {
          var k :| 0 <= k < |reason| && (reason[k] == QUOTE || reason[k] == BACKSLASH);
          AtByte(s, b, reason, k);
          SpecialIsSkipped(s, b, b + k, e);
        }
      }
    }
  }

  lemma SkipsFromStart(s: Text, b: nat)
    requires b <= |s|
    ensures Skips(s, b, b) == 0
  {
  }

  /** A quote or a backslash before the closing quote means that some escape was stepped over. */
  lemma {:induction false} SpecialIsSkipped(s: Text, b: nat, k: nat, e: nat)
    requires b <= k < e < |s| && ClosingQuote(s, b) == Some(e) && (s[k] == QUOTE || s[k] == BACKSLASH)
    ensures Skips(s, b, e) > 0
    decreases k - b
  {
    if b < k && s[b] != BACKSLASH {
      SpecialIsSkipped(s, b + 1, k, e);
    }
  }

  function PlainEntry(key: Text, value: Tree): Entry {
    Entry([], PlainChars(key), [], [], value, [])
  }

  function InnerTree(code: Byte, reason: Text): Tree {
    ObjectTree([], [PlainEntry(CODE_KEY, NumberTree(TokenOf(code))),
                    PlainEntry(REASON_KEY, StringTree(PlainChars(reason)))])
  }

  function ErrorTree(code: Byte, reason: Text): Tree {
    ObjectTree([], [PlainEntry(ERROR_KEY, InnerTree(code, reason))])
  }

  lemma PlainEntryText(key: Text, value: Tree)
    requires NeedsNoEscape(key)
    ensures EntryText(PlainEntry(key, value)) == [QUOTE] + key + [QUOTE, COLON] + TreeText(value)
    ensures WellFormedChars(PlainChars(key)) && CharsMeaning(PlainChars(key)) == key
  {
    hide TreeText, CharsText;
    PlainSpells(key);
    var v := TreeText(value);
    assert v + [] == v;
    assert [] + (([QUOTE] + (key + [QUOTE])) + ([] + ([COLON] + ([] + v)))) == [QUOTE] + key + [QUOTE, COLON] + v;
  }

  lemma InnerTreeSpells(code: Byte, reason: Text)
    requires NeedsNoEscape(reason)
    ensures TreeText(InnerTree(code, reason))
            == [LBRACE] + ([QUOTE] + CODE_KEY + [QUOTE, COLON] + Decimal(code)) + [COMMA]
               + ([QUOTE] + REASON_KEY + [QUOTE, COLON] + ([QUOTE] + reason + [QUOTE])) + [RBRACE]
    ensures WellFormed(InnerTree(code, reason))
    ensures Denotes(InnerTree(code, reason))
            == Object([Member(CODE_KEY, Number((code as int) as real)), Member(REASON_KEY, String(reason))])
  {
    hide Decimal, EntryText, NumberText, NumberMeaning, WellFormedNumber, CharsText, PlainChars, CharsMeaning;
    KeysNeedNoEscape();
    var number, text := NumberTree(TokenOf(code)), StringTree(PlainChars(reason));
    PlainEntryText(CODE_KEY, number);
    PlainEntryText(REASON_KEY, text);
    PlainSpells(reason);
    NumberSpells((code as int) as real);
    var first, second := PlainEntry(CODE_KEY, number), PlainEntry(REASON_KEY, text);
    assert TreeText(text) == [QUOTE] + reason + [QUOTE];
    assert [first, second][1..] == [second];
    assert EntriesText([first, second]) == EntryText(first) + ([COMMA] + EntryText(second));
    OneEntry(second);
    OneEntry(first);
    assert WellFormedEntries([first, second]);
    assert EntriesDenote([second]) == [Member(REASON_KEY, String(reason))];
  }

  lemma ErrorTreeSpells(code: Byte, reason: Text)
    requires NeedsNoEscape(reason)
    ensures TreeText(ErrorTree(code, reason)) == ErrorBody(code, reason)
    ensures WellFormed(ErrorTree(code, reason)) && Denotes(ErrorTree(code, reason)) == ErrorValue(code, reason)
  {
    hide Decimal, EntryText, CharsText, PlainChars, CharsMeaning, InnerTree;
    KeysNeedNoEscape();
    InnerTreeSpells(code, reason);
    PlainEntryText(ERROR_KEY, InnerTree(code, reason));
    var only := PlainEntry(ERROR_KEY, InnerTree(code, reason));
    OneEntry(only);
    assert EntriesText([only]) == EntryText(only);
    BodyInPieces(Decimal(code), reason);
  }

  lemma OneEntry(e: Entry)
    ensures [e][1..] == [] && WellFormedEntries([]) && EntriesDenote([]) == []
    ensures WellFormedEntries([e]) <==> WellFormedEntry(e)
    ensures WellFormedEntry(e) ==>
              EntriesDenote([e]) == [Member(CharsMeaning(e.key), Denotes(e.tree))]
  {
    assert [e][1..] == [];
  }

  lemma BodyInPieces(number: Text, reason: Text)
    ensures [LBRACE]
            + ([QUOTE] + ERROR_KEY + [QUOTE, COLON]
               + ([LBRACE] + ([QUOTE] + CODE_KEY + [QUOTE, COLON] + number) + [COMMA]
                  + ([QUOTE] + REASON_KEY + [QUOTE, COLON] + ([QUOTE] + reason + [QUOTE])) + [RBRACE])
               + [RBRACE])
            == ERROR_OPEN + (number + (ERROR_REASON + (reason + ERROR_CLOSE)))
  {
  }

  /**
   A client parsing the body of an error reply gets exactly the code and the reason if and only if
   the reason has neither a quote nor a backslash. (A reason is a C string: it has no NUL.)
   */
  lemma ErrorBodyRoundTrip(code: Byte, reason: Text, requireNul: bool)
    requires NUL !in reason
    ensures var r := ParseText(ErrorBody(code, reason), requireNul);
            (r.Parsed? && r.value == ErrorValue(code, reason))
            <==> (forall k :: 0 <= k < |reason| ==> reason[k] != QUOTE && reason[k] != BACKSLASH)
  {
    hide ErrorBody, ErrorTree, ParseText, TreeText, WellFormed, Denotes, ErrorValue, ReadString, Decimal, At;
    if NeedsNoEscape(reason) {
      ErrorTreeSpells(code, reason);
      var t := ErrorTree(code, reason);
      DocumentIsRead(false, [], t, [], requireNul);
      assert Document(false, [], t, []) == ErrorBody(code, reason);
      ErrorValueIsPlain(code, reason);
    } else {
      ReasonIsReached(code, reason, requireNul);
      BodyLayout(code, reason);
      SpecialReasonShrinks(ErrorBody(code, reason) + [NUL], 27 + |Decimal(code)|, reason);
    }
  }

  lemma ErrorValueIsPlain(code: Byte, reason: Text)
    requires NUL !in reason
    ensures Depth(ErrorValue(code, reason)) <= NESTING_LIMIT
    ensures Cut(ErrorValue(code, reason)) == ErrorValue(code, reason)
  {
    var codeMember := Member(CODE_KEY, Number((code as int) as real));
    var reasonMember := Member(REASON_KEY, String(reason));
    var inner := [codeMember, reasonMember];
    OneMember(reasonMember);
    assert inner[1..] == [reasonMember];
    assert MembersDepth(inner) == 0 && MembersCStrings(inner);
    OneMember(Member(ERROR_KEY, Object(inner)));
    CutIsIdentity(ErrorValue(code, reason));
  }

  lemma OneMember(m: Member)
    ensures MembersDepth([m]) == Depth(m.value)
    ensures MembersCStrings([m]) <==> NUL !in m.key && CStrings(m.value)
  {
    hide Depth, CStrings;
    assert [m][1..] == [] && MembersDepth([]) == 0 && MembersCStrings([]);
  }
}
