/** The parser's buffer: an offset and a depth that its methods move, and how it reads numbers and strings. */
module ParseBuffers {
  import opened Wrappers
  import opened Bytes
  import opened Unicode
  import opened JsonNumber
  import opened JsonValue
  import opened JsonParse
  import opened JsonStringSize

  class ParseBuffer {
    /** The C string with its NUL. */
    const content: Text
    var offset: nat
    /** Arrays and objects open at the current offset. */
    var depth: nat

    constructor (text: Text)
      ensures content == text + [NUL] && offset == 0 && depth == 0
    {
      content := text + [NUL];
      offset := 0;
      depth := 0;
    }

    predicate Valid()
      reads this
    {
      Terminated(content) && offset < |content|
    }

    method SkipWhitespace()
      requires Terminated(content) && offset <= |content|
      modifies this`offset
      ensures Valid()
      ensures old(offset) < |content| ==> offset == SkipWs(content, old(offset))
      ensures old(offset) == |content| ==> offset == |content| - 1
    {
      var start := offset;
      while offset < |content| && content[offset] <= SPACE
        invariant start <= offset <= |content|
        invariant offset < |content| && start < |content| ==> SkipWs(content, offset) == SkipWs(content, start)
        invariant offset == |content| && start < |content| ==> SkipWs(content, start) == |content| - 1
      {
        offset := offset + 1;
      }
      if offset == |content| {
        offset := offset - 1;
      }
    }

    method SkipUtf8Bom()
      requires Valid() && offset == 0
      modifies this`offset
      ensures Valid() && offset == SkipBom(content)
    {
      if 4 < |content| && content[0..3] == BOM {
        offset := offset + 3;
      }
    }

    /** Copies the number characters at the offset, as many as the scratch buffer takes. */
    method CopyToken(scratch: array<Byte>) returns (i: nat)
      requires Valid() && scratch.Length == TOKEN_LIMIT + 1
      modifies scratch
      ensures i == TokenRun(content, offset, TOKEN_LIMIT)
      ensures scratch[..i] == content[offset..offset + i]
    {
      hide IsNumberByte, TokenRun;
      i := 0;
      while i < TOKEN_LIMIT && offset + i < |content| && IsNumberByte(content[offset + i])
        invariant 0 <= i <= TOKEN_LIMIT && offset + i <= |content|
        invariant scratch[..i] == content[offset..offset + i]
        invariant TokenRun(content, offset, TOKEN_LIMIT)
                  == i + TokenRun(content, offset + i, TOKEN_LIMIT - i)
      {
        TokenRunStep(content, offset + i, TOKEN_LIMIT - i);
        scratch[i] := content[offset + i];
        assert scratch[..i + 1] == scratch[..i] + [content[offset + i]];
        i := i + 1;
      }
      TokenRunStep(content, offset + i, TOKEN_LIMIT - i);
    }

    /** The number token goes through a 64-byte scratch buffer, ends in NUL there, and is read as a numeral. */
    method ParseNumber() returns (ok: bool, number: real)
      requires Valid()
      modifies this`offset
      ensures var r := ReadNumber(content, old(offset));
              if r.Ok? then ok && number == r.value && offset == r.next && Valid()
              else !ok && offset == r.at
    {
      hide Strtod, TokenRun;
      var numberString := new Byte[64];
      var i := CopyToken(numberString);
      ghost var token := numberString[..i];
      numberString[i] := NUL;
      assert numberString[..i] == token;
      match Strtod(numberString[..i])
      case NoNumeral =>
        return false, 0.0;
      case Numeral(value, length) =>
        offset := offset + length;
        return true, value;
    }

    /**
     The string at the offset: one pass finds the closing quote and sizes the output, a second pass
     decodes into it. Every write lands inside the allocated output.
     */
    method ParseString() returns (ok: bool, value: Text)
      requires Valid()
      modifies this`offset
      ensures var r := ReadString(content, old(offset));
              if r.Ok? then ok && value == r.value && offset == r.next && Valid()
              else !ok && offset == r.at
    {
      var b := offset + 1;
      if content[offset] != QUOTE {
        offset := b;
        return false, [];
      }
      var end, skipped := b, 0;
      while end < |content| && content[end] != QUOTE
        invariant b <= end <= |content| + 1
        invariant ClosingQuote(content, b) == ClosingQuote(content, end)
        invariant end <= |content| ==>
                    forall q :: end <= q <= |content| ==> Skips(content, b, q) == skipped + Skips(content, end, q)
      {
        if content[end] == BACKSLASH {
          if end + 1 >= |content| {
            offset := b;
            return false, [];
          }
          skipped := skipped + 1;
          end := end + 1;
        }
        end := end + 1;
      }
      if end >= |content| || content[end] != QUOTE {
        offset := b;
        return false, [];
      }
      assert Skips(content, b, end) == skipped;
      SkipsLeaveRoom(content, b, end);
      var allocationLength := end - (b - 1) - skipped;
      var output := new Byte[allocationLength + 1];
      ok, value := DecodeInto(b, end, output);
      if ok {
        offset := end + 1;
      }
    }

    /** The decoding pass. On failure the offset is left at the escape that could not be decoded. */
    method DecodeInto(b: nat, end: nat, output: array<Byte>) returns (ok: bool, value: Text)
      requires Terminated(content) && ClosingQuote(content, b) == Some(end) && b <= end
      requires output.Length == end - b + 2 - Skips(content, b, end)
      modifies this`offset, output
      ensures var d := Decode(content, b, end);
              if d.Decoded? then ok && value == CString(d.out) && offset == old(offset) else !ok && offset == d.at
    {
      hide Skips, ClosingQuote, ReadLiteral, Utf8, CString, ShortEscape, Fits;
      FitsAtStart(content, b, end);
      var p, o := b, 0;
      assert output[..0] == [];
      while p < end
        invariant Fits(content, b, p, end, o)
        invariant 0 <= o < output.Length
        invariant Decode(content, b, end) == Prefixed(output[..o], Decode(content, p, end))
        invariant offset == old(offset)
        decreases end - p
      {
        RoomForTurn(content, b, p, end, o);
        ghost var before := output[..o];
        if content[p] != BACKSLASH {
          output[o] := content[p];
          assert output[..o + 1] == before + [content[p]];
          PrefixedTwice(before, [content[p]], Decode(content, p + 1, end));
          p, o := p + 1, o + 1;
        } else if content[p + 1] == LOWER_U {
          var length, o' := Utf16LiteralToUtf8(content, p, end, output, o);
          if length == 0 {
            offset := p;
            return false, [];
          }
          assert output[..o'] == output[..o] + output[o..o'];
          PrefixedTwice(before, output[o..o'], Decode(content, p + length, end));
          p, o := p + length, o';
        } else {
          var letter := content[p + 1];
          var meaning := ShortEscape(letter);
          if meaning == None {
            offset := p;
            return false, [];
          }
          output[o] := meaning.value;
          assert output[..o + 1] == before + [meaning.value];
          PrefixedTwice(before, [meaning.value], Decode(content, p + 2, end));
          p, o := p + 2, o + 1;
        }
      }
      ghost var out := output[..o];
      assert out + [] == out;
      output[o] := NUL;
      assert output[..o] == out;
      return true, CString(output[..o]);
    }
  }

  /** Items already read in front of the outcome of the rest. */
  function PrefixedList<T>(items: seq<T>, r: Outcome<seq<T>>): Outcome<seq<T>> {
    match r
    case Ok(rest, next) => Ok(items + rest, next)
    case Err(at) => Err(at)
  }

  lemma NothingBefore<T>(r: Outcome<seq<T>>)
    ensures PrefixedList([], r) == r
  {
    if r.Ok? {
      assert [] + r.value == r.value;
    }
  }

  lemma PrefixedOneMore<T>(items: seq<T>, v: T, r: Outcome<seq<T>>)
    ensures PrefixedList(items, PrefixedItem(v, r)) == PrefixedList(items + [v], r)
    ensures PrefixedList(items, Ok([v], 0)) == Ok(items + [v], 0)
  {
    if r.Ok? {
      assert items + ([v] + r.value) == items + [v] + r.value;
    }
  }

  /** One turn of the element loop, in terms of the list still to be read. */
  lemma ElementsStep(s: Text, i: nat, depth: nat, items: seq<Json>)
    requires Terminated(s) && i < |s|
    ensures var head := ReadValue(s, SkipWs(s, i), depth);
            PrefixedList(items, ReadElements(s, i, depth))
            == match head
               case Err(at) => Err(at)
               case Ok(v, next) =>
                 var k := SkipWs(s, next);
                 if s[k] == COMMA then PrefixedList(items + [v], ReadElements(s, k + 1, depth))
                 else if s[k] == RBRACKET then Ok(items + [v], k + 1)
                 else Err(k)
  {
    hide ReadValue, SkipWs;
    var head := ReadValue(s, SkipWs(s, i), depth);
    if head.Ok? {
      var k := SkipWs(s, head.next);
      if s[k] == COMMA {
        PrefixedOneMore(items, head.value, ReadElements(s, k + 1, depth));
      }
    }
  }

  lemma EntriesStep(s: Text, i: nat, depth: nat, members: seq<Member>)
    requires Terminated(s) && i < |s|
    ensures var head := ReadEntry(s, i, depth);
            PrefixedList(members, ReadEntries(s, i, depth))
            == match head
               case Err(at) => Err(at)
               case Ok(m, next) =>
                 var k := SkipWs(s, next);
                 if s[k] == COMMA then PrefixedList(members + [m], ReadEntries(s, k + 1, depth))
                 else if s[k] == RBRACE then Ok(members + [m], k + 1)
                 else Err(k)
  {
    hide ReadEntry, SkipWs;
    var head := ReadEntry(s, i, depth);
    if head.Ok? {
      var k := SkipWs(s, head.next);
      if s[k] == COMMA {
        PrefixedOneMore(members, head.value, ReadEntries(s, k + 1, depth));
      }
    }
  }

  lemma TokenRunStep(s: Text, i: nat, limit: nat)
    requires i <= |s|
    ensures TokenRun(s, i, limit)
            == if limit > 0 && i < |s| && IsNumberByte(s[i]) then 1 + TokenRun(s, i + 1, limit - 1) else 0
  {
  }

  lemma PrefixedTwice(a: Text, b: Text, d: Decoded)
    ensures Prefixed(a, Prefixed(b, d)) == Prefixed(a + b, d)
  {
    if d.Decoded? {
      assert a + (b + d.out) == (a + b) + d.out;
    }
  }

  lemma FitsAtStart(s: Text, b: nat, e: nat)
    requires b <= e < |s|
    ensures Fits(s, b, b, e, 0) && Skips(s, b, e) <= e - b
    ensures forall d: Decoded :: Prefixed([], d) == d
  {
    assert Skips(s, b, b) == 0;
    SkipsLeaveRoom(s, b, e);
    forall d: Decoded ensures Prefixed([], d) == d {
      if d.Decoded? {
        assert [] + d.out == d.out;
      }
    }
  }

  /** The escapes stepped over are no more than the characters before the quote. */
  lemma SkipsLeaveRoom(s: Text, b: nat, e: nat)
    requires b <= e < |s|
    ensures Skips(s, b, e) <= e - b
  {
    assert Skips(s, b, b) == 0;
    SkipsAtMost(s, b, b, e, 0);
  }

  /** Before each turn there is room for what the turn writes and for one byte more. */
  lemma RoomForTurn(s: Text, b: nat, p: nat, e: nat, written: nat)
    requires b <= p < e < |s| && ClosingQuote(s, b) == Some(e) && Fits(s, b, p, e, written)
    ensures DecodeStep(s, p, e).Step? ==>
              var t := DecodeStep(s, p, e);
              Fits(s, b, p + t.width, e, written + |t.out|)
              && written + |t.out| < e - b + 2 - Skips(s, b, e)
    ensures written + 1 < e - b + 2 - Skips(s, b, e)
  {
    hide DecodeStep, Skips, ClosingQuote;
    if DecodeStep(s, p, e).Step? {
      TurnKeepsFit(s, b, p, e, written);
      var t := DecodeStep(s, p, e);
      if p + t.width <= e {
        SkipsAtMost(s, b, p + t.width, e, written + |t.out|);
      }
    }
    SkipsAtMost(s, b, p, e, written);
  }
}
