/** The printer: a buffer that grows while it is written, with the offset of the next byte. */
module PrintBuffers {
  import opened Wrappers
  import opened Bytes
  import opened JsonNumber
  import opened JsonValue
  import opened JsonRender

  class PrintBuffer {
    var buffer: array<Byte>
    var offset: nat
    /** Nesting depth, for the indentation of formatted output. */
    var depth: nat
    const noalloc: bool
    const format: bool
    /** Whether the allocator has a realloc; otherwise growing copies by hand. */
    const reallocates: bool
    /** The bytes before the offset. */
    ghost var contents: Text

    constructor (buffer: array<Byte>, noalloc: bool, format: bool, reallocates: bool)
      requires buffer.Length <= INT_MAX && (noalloc || buffer.Length > 0)
      ensures this.buffer == buffer && offset == 0 && depth == 0 && contents == []
      ensures this.noalloc == noalloc && this.format == format && this.reallocates == reallocates
      ensures Valid()
    {
      this.buffer, offset, depth, contents := buffer, 0, 0, [];
      this.noalloc, this.format, this.reallocates := noalloc, format, reallocates;
    }

    ghost predicate Valid()
      reads this`buffer, this`offset, this`contents, buffer
    {
      && buffer.Length <= INT_MAX
      && (offset < buffer.Length || (noalloc && offset == 0))
      && offset == |contents| && offset <= buffer.Length && buffer[..offset] == contents
    }

    /** The most the buffer can ever hold. */
    ghost function Cap(): int
      reads this`buffer
    {
      if noalloc then buffer.Length else INT_MAX
    }

    /** `t` stands at the offset, followed by a NUL. */
    ghost predicate Pending(t: Text)
      reads this`buffer, this`offset, buffer
    {
      offset + |t| < buffer.Length && buffer[offset..offset + |t|] == t && buffer[offset + |t|] == NUL
    }

    /** The buffer may have been replaced by a larger one, within its limits, unless it may not grow. */
    twostate predicate Extended()
      reads this`buffer, this`offset, this`contents, buffer
    {
      && Valid()
      && (buffer == old(buffer) || fresh(buffer))
      && Cap() == old(Cap())
      && (noalloc ==> buffer == old(buffer))
    }

    // ---------- the buffer ----------

    /**
     Room for `needed` bytes more and one to spare. Grows to twice what is needed, up to the largest
     `int`; what was written before the offset survives.
     */
    method Ensure(needed: nat) returns (ok: bool)
      requires Valid()
      modifies this`buffer
      ensures Extended()
      ensures ok <==> |contents| + needed + 1 <= Cap()
      ensures ok ==> offset + needed + 1 <= buffer.Length
    {
      if 0 < buffer.Length && offset >= buffer.Length {
        return false;
      }
      if needed > INT_MAX {
        return false;
      }
      var total := needed + offset + 1;
      if total <= buffer.Length {
        return true;
      }
      if noalloc {
        return false;
      }
      var newsize: nat;
      if total > INT_MAX / 2 {
        if total <= INT_MAX {
          newsize := INT_MAX;
        } else {
          return false;
        }
      } else {
        newsize := total * 2;
      }
      Grow(newsize);
      return true;
    }

    /** realloc, or an allocation and a copy of what lies before the offset and the byte at it. */
    method Grow(newsize: nat)
      requires Valid() && offset < buffer.Length <= newsize <= INT_MAX && !noalloc
      modifies this`buffer
      ensures Valid() && fresh(buffer) && buffer.Length == newsize
    {
      var source, newbuffer := buffer, new Byte[newsize](_ => NUL);
      var kept := if reallocates then source.Length else offset + 1;
      var i := 0;
      while i < kept
        invariant 0 <= i <= kept
        invariant forall k :: 0 <= k < i ==> newbuffer[k] == source[k]
      {
        newbuffer[i] := source[i];
        i := i + 1;
      }
      buffer := newbuffer;
    }

    /** Moves the offset to the end of the C string it points into. */
    method UpdateOffset(ghost pending: Text)
      requires Valid() && Pending(pending) && NUL !in pending
      modifies this`offset, this`contents
      ensures Valid() && contents == old(contents) + pending
      ensures offset < buffer.Length && buffer[offset] == NUL
    {
      var length := 0;
      ghost var start := offset;
      forall k | offset <= k < offset + |pending| ensures buffer[k] != NUL {
        assert buffer[offset..offset + |pending|][k - offset] == pending[k - offset];
      }
      while buffer[offset + length] != NUL
        invariant offset == start && length <= |pending|
        invariant contents == old(contents)
        decreases |pending| - length
      {
        length := length + 1;
      }
      ConcatSlices(buffer[..], 0, offset, offset + length);
      contents := contents + pending;
      offset := offset + length;
    }

    /** memcpy into the buffer. */
    method Copy(at: nat, t: Text)
      requires at + |t| <= buffer.Length
      modifies buffer
      ensures buffer[at..at + |t|] == t
      ensures buffer[..at] == old(buffer[..at])
    {
      var i := 0;
      while i < |t|
        invariant 0 <= i <= |t|
        invariant buffer[at..at + i] == t[..i]
        invariant buffer[..at] == old(buffer[..at])
      {
        buffer[at + i] := t[i];
        assert buffer[at..at + i + 1] == buffer[at..at + i] + [t[i]];
        i := i + 1;
      }
    }

    /** strcpy at the offset. */
    method CopyString(t: Text)
      requires Valid() && offset + |t| < buffer.Length
      modifies buffer
      ensures Valid() && Pending(t)
    {
      Copy(offset, t);
      ghost var written := buffer[..offset + |t|];
      buffer[offset + |t|] := NUL;
      assert buffer[..offset + |t|] == written;
      assert buffer[offset..offset + |t|] == written[offset..];
      assert buffer[..offset] == written[..offset];
    }

    /** Room for `needed` bytes, the bytes of `t`, a NUL behind them if there is room for it, and on. */
    method Emit(needed: nat, t: Text) returns (ok: bool)
      requires Valid() && |t| <= needed
      modifies this`buffer, this`offset, this`contents, buffer
      ensures Extended()
      ensures ok <==> |old(contents)| + needed + 1 <= Cap()
      ensures ok ==> contents == old(contents) + t
    {
      ok := Ensure(needed);
      if ok {
        if |t| < needed {
          CopyString(t);
        } else {
          Copy(offset, t);
        }
        Advance(t);
      }
    }

    /** Moves the offset past `t`, which stands there. */
    method Advance(t: Text)
      requires offset + |t| < buffer.Length <= INT_MAX && buffer[offset..offset + |t|] == t
      requires offset == |contents| && buffer[..offset] == contents
      modifies this`offset, this`contents
      ensures Valid() && contents == old(contents) + t && offset == old(offset) + |t|
    {
      ConcatSlices(buffer[..], 0, offset, offset + |t|);
      offset := offset + |t|;
      contents := contents + t;
    }

    /** A piece of text with its NUL; the offset stays before it. */
    method EmitString(t: Text) returns (ok: bool)
      requires Valid()
      modifies this`buffer, buffer
      ensures Extended()
      ensures ok <==> |contents| + |t| + 2 <= Cap()
      ensures ok ==> Pending(t)
    {
      ok := Ensure(|t| + 1);
      if ok {
        CopyString(t);
      }
    }

    // ---------- strings ----------

    /** One byte at `at`. */
    method Put(at: nat, b: Byte)
      requires at < buffer.Length
      modifies buffer
      ensures buffer[at] == b
      ensures buffer[..at] == old(buffer[..at])
    {
      buffer[at] := b;
    }

    /**
     A string in quotes, escaped where it must be. A first pass counts the characters that escaping
     adds, so that one request for room covers the whole string. The offset stays at the opening quote.
     */
    method PrintStringPtr(input: Text) returns (ok: bool)
      requires Valid() && NUL !in input
      modifies this`buffer, buffer
      ensures Extended()
      ensures ok <==> |contents| + |RenderString(input)| + 2 <= Cap()
      ensures ok ==> Pending(RenderString(input))
    {
      hide Escape, Extras;
      var escapeCharacters := CountEscapes(input);
      var outputLength := |input| + escapeCharacters;
      EscapeLength(input);
      ok := Ensure(outputLength + 3);
      if ok {
        WriteQuoted(input, escapeCharacters, outputLength);
      }
    }

    method WriteQuoted(input: Text, escapeCharacters: nat, outputLength: nat)
      requires Valid()
      requires NUL !in input && escapeCharacters == Extras(input) && outputLength == |Escape(input)|
      requires offset + outputLength + 3 <= buffer.Length
      modifies buffer
      ensures Valid() && Pending(RenderString(input))
    {
      hide Escape, Extras;
      var close := offset + outputLength + 1;
      Put(offset, QUOTE);
      if escapeCharacters == 0 {
        NothingToEscape(input);
        Copy(offset + 1, input);
      } else {
        WriteEscaped(input, offset + 1);
      }
      assert buffer[..offset + 1][offset] == QUOTE;
      assert buffer[..offset] == buffer[..offset + 1][..offset];
      CloseQuotes(Escape(input), close);
    }

    /** The closing quote and the NUL behind it. */
    method CloseQuotes(ghost escaped: Text, close: nat)
      requires Valid() && offset < close && close + 1 < buffer.Length && close == offset + 1 + |escaped|
      requires buffer[offset] == QUOTE && buffer[offset + 1..close] == escaped
      modifies buffer
      ensures Valid() && Pending([QUOTE] + escaped + [QUOTE])
    {
      ghost var written := buffer[..close];
      buffer[close] := QUOTE;
      buffer[close + 1] := NUL;
      assert buffer[..close] == written;
      assert buffer[offset + 1..close] == written[offset + 1..];
      assert buffer[offset..close + 1] == [buffer[offset]] + buffer[offset + 1..close] + [buffer[close]];
      assert buffer[..offset] == written[..offset];
    }

    /** The escaping loop, from `start` on. */
    method WriteEscaped(input: Text, start: nat)
      requires NUL !in input && start + |Escape(input)| < buffer.Length
      modifies buffer
      ensures buffer[start..start + |Escape(input)|] == Escape(input)
      ensures buffer[..start] == old(buffer[..start])
    {
      hide Escape, EscapeByte;
      var i, at := 0, start;
      ghost var done: Text := [];
      assert input[0..] == input;
      while i < |input|
        invariant 0 <= i <= |input|
        invariant at == start + |done|
        invariant Escape(input) == done + Escape(input[i..])
        invariant at < buffer.Length
        invariant buffer[start..at] == done
        invariant buffer[..start] == old(buffer[..start])
      {
        EscapeCons(input, i);
        ghost var piece, written := EscapeByte(input[i]), buffer[..at];
        assert done + (piece + Escape(input[i + 1..])) == (done + piece) + Escape(input[i + 1..]);
        var next := WriteEscape(input[i], at);
        assert buffer[start..at] == written[start..];
        assert buffer[..start] == written[..start];
        ConcatSlices(buffer[..], start, at, next);
        done := done + piece;
        at := next;
        i := i + 1;
      }
      NothingLeft(input);
    }

    /** One character, as itself or as an escape; the numeric form is printed with a NUL behind it. */
    method WriteEscape(b: Byte, at: nat) returns (next: nat)
      requires b != NUL && at + |EscapeByte(b)| < buffer.Length
      modifies buffer
      ensures next == at + |EscapeByte(b)|
      ensures buffer[at..next] == EscapeByte(b)
      ensures buffer[..at] == old(buffer[..at])
    {
      if b > 31 && b != QUOTE && b != BACKSLASH {
        Put(at, b);
        return at + 1;
      }
      Put(at, BACKSLASH);
      next := at + 2;
      if b == BACKSLASH || b == QUOTE {
        buffer[at + 1] := b;
      } else if b == BACKSPACE {
        buffer[at + 1] := LOWER_B;
      } else if b == FORM_FEED {
        buffer[at + 1] := LOWER_F;
      } else if b == NEWLINE {
        buffer[at + 1] := LOWER_N;
      } else if b == RETURN {
        buffer[at + 1] := LOWER_R;
      } else if b == TAB {
        buffer[at + 1] := LOWER_T;
      } else {
        WriteUnit(at, b);
        next := at + 6;
      }
    }

    /** Four digits behind a backslash that is already there. */
    method WriteUnit(at: nat, b: Byte)
      requires b < 32 && at + 6 < buffer.Length && buffer[at] == BACKSLASH
      modifies buffer
      ensures buffer[at..at + 6] == [BACKSLASH, LOWER_U, ZERO, ZERO, HexDigit(b / 16), HexDigit(b % 16)]
      ensures buffer[..at] == old(buffer[..at])
    {
      hide HexDigit;
      ghost var digits: Text := [LOWER_U, ZERO, ZERO, HexDigit(b / 16), HexDigit(b % 16)];
      Copy(at + 1, [LOWER_U, ZERO, ZERO, HexDigit(b / 16), HexDigit(b % 16), NUL]);
      assert buffer[at + 1..at + 6] == buffer[at + 1..at + 7][..5] == digits;
      assert buffer[at] == buffer[..at + 1][at];
      assert buffer[..at] == buffer[..at + 1][..at];
      assert buffer[at..at + 6] == [buffer[at]] + digits;
    }

    // ---------- values ----------

    /** The decimal text is copied byte by byte, and the offset moves past it. */
    method PrintNumber(n: int) returns (ok: bool)
      requires Valid()
      modifies this`buffer, this`offset, this`contents, buffer
      ensures Extended()
      ensures ok <==> |old(contents)| + |Decimal(n)| + 2 <= Cap()
      ensures ok ==> contents == old(contents) + Decimal(n) && Pending([])
    {
      hide Decimal;
      var numberBuffer := Decimal(n);
      ok := Ensure(|numberBuffer| + 1);
      if ok {
        CopyString(numberBuffer);
        Advance(numberBuffer);
      }
    }

    /** Prints a value and moves the offset to its end. */
    method PrintAndAdvance(item: Json) returns (ok: bool)
      requires Valid() && Printable(item)
      modifies this, buffer
      ensures Extended()
      ensures ok <==> |old(contents)| + |Render(item, format, old(depth))| + 2 <= Cap()
      ensures ok ==> contents == old(contents) + Render(item, format, old(depth)) && depth == old(depth)
      decreases item, 5
    {
      hide Render, Valid, Pending;
      ghost var pending;
      ok, pending := PrintValue(item);
      if ok {
        UpdateOffset(pending);
      }
    }

    /** Prints a key and moves the offset to its end. */
    method PrintKey(key: Text) returns (ok: bool)
      requires Valid() && NUL !in key
      modifies this`buffer, this`offset, this`contents, buffer
      ensures Extended()
      ensures ok <==> |old(contents)| + |RenderString(key)| + 2 <= Cap()
      ensures ok ==> contents == old(contents) + RenderString(key)
    {
      hide RenderString, Valid, Pending;
      ok := PrintStringPtr(key);
      if ok {
        UpdateOffset(RenderString(key));
      }
    }

    /**
     Prints a value with its NUL. The offset may end anywhere inside what was written: `pending` is
     the part that lies behind it.
     */
    method PrintValue(item: Json) returns (ok: bool, ghost pending: Text)
      requires Valid() && Printable(item)
      modifies this, buffer
      ensures Extended()
      ensures ok <==> |old(contents)| + |Render(item, format, old(depth))| + 2 <= Cap()
      ensures ok ==>
                contents + pending == old(contents) + Render(item, format, old(depth))
                && Pending(pending) && NUL !in pending && depth == old(depth)
      decreases item, 4
    {
      hide RenderItems, RenderMembers, RenderString, Decimal, Valid, Pending;
      pending := Render(item, format, depth);
      match item
      case Null => ok := EmitString(NULL_WORD);
      case False => ok := EmitString(FALSE_WORD);
      case True => ok := EmitString(TRUE_WORD);
      case Number(r) =>
        ok := PrintNumber(r.Floor);
        pending := [];
      case String(t) => ok := PrintStringPtr(t);
      case Array(items) =>
        ok := PrintArray(items);
        pending := [RBRACKET];
      case Object(members) =>
        pending := IfFormat(format, Tabs(depth)) + [RBRACE];
        ok := PrintObject(members);
    }

    method PrintArray(items: seq<Json>) returns (ok: bool)
      requires Valid() && PrintableItems(items)
      modifies this, buffer
      ensures Extended()
      ensures ok <==> |old(contents)| + |Render(Array(items), format, old(depth))| + 2 <= Cap()
      ensures ok ==>
                contents + [RBRACKET] == old(contents) + Render(Array(items), format, old(depth))
                && Pending([RBRACKET]) && depth == old(depth)
      decreases items, 10
    {
      hide Render, RenderItems, PrintableItems, Valid, Pending;
      ArrayText(items, format, depth);
      ok := Emit(1, [LBRACKET]);
      if !ok {
        return;
      }
      depth := depth + 1;
      ok := PrintElements(items);
      if !ok {
        return;
      }
      Wrapped(old(contents), [LBRACKET], RenderItems(items, format, depth), [RBRACKET]);
      ok := EmitString([RBRACKET]);
      depth := depth - 1;
    }

    /** The loop over the elements. */
    method PrintElements(items: seq<Json>) returns (ok: bool)
      requires Valid() && PrintableItems(items)
      modifies this, buffer
      ensures Extended()
      ensures !ok ==> |old(contents)| + |RenderItems(items, format, old(depth))| + 2 > Cap()
      ensures ok ==> contents == old(contents) + RenderItems(items, format, old(depth)) && depth == old(depth)
      decreases items, 8
    {
      hide Render, RenderItems, PrintableItems, Valid, ItemText;
      ghost var text, done: Text := RenderItems(items, format, depth), [];
      assert items[0..] == items;
      NoItems(items, format, depth);
      var i := 0;
      while i < |items|
        invariant 0 <= i <= |items|
        invariant Extended() && contents == old(contents) + done && depth == old(depth)
        invariant PrintableItems(items[i..])
        invariant text == done + RenderItems(items[i..], format, depth)
      {
        ItemsText(items, i, format, depth);
        ghost var piece := ItemText(items[i], i + 1 == |items|, format, depth);
        Reassociate(old(contents), done, piece, RenderItems(items[i + 1..], format, depth));
        ok := PrintElement(items[i], i + 1 == |items|);
        if !ok {
          return;
        }
        done := done + piece;
        i := i + 1;
      }
      ok := true;
    }

    /** One element and the separator due after it. */
    method PrintElement(item: Json, last: bool) returns (ok: bool)
      requires Valid() && Printable(item)
      modifies this, buffer
      ensures Extended()
      ensures ok <==> |old(contents)| + |ItemText(item, last, format, old(depth))| + 2 <= Cap()
      ensures ok ==> contents == old(contents) + ItemText(item, last, format, old(depth)) && depth == old(depth)
      decreases item, 6
    {
      hide Render, Valid;
      ghost var text := Render(item, format, depth);
      ok := PrintAndAdvance(item);
      if ok {
        if last {
          assert text + [] == text;
        } else {
          var separator := ItemSeparator(format);
          ok := Emit(|separator| + 1, separator);
          assert old(contents) + text + separator == old(contents) + (text + separator);
        }
      }
    }

    method PrintObject(members: seq<Member>) returns (ok: bool)
      requires Valid() && PrintableMembers(members)
      modifies this, buffer
      ensures Extended()
      ensures ok <==> |old(contents)| + |Render(Object(members), format, old(depth))| + 2 <= Cap()
      ensures ok ==>
                var close := IfFormat(format, Tabs(old(depth))) + [RBRACE];
                contents + close == old(contents) + Render(Object(members), format, old(depth))
                && Pending(close) && depth == old(depth)
      decreases members, 10
    {
      hide Render, RenderMembers, PrintableMembers, Valid, Pending;
      ObjectText(members, format, depth);
      var open := [LBRACE] + IfFormat(format, [NEWLINE]);
      ok := Emit(|open| + 1, open);
      depth := depth + 1;
      if !ok {
        return;
      }
      ok := PrintMembers(members);
      if !ok {
        return;
      }
      var close := IfFormat(format, Tabs(depth - 1)) + [RBRACE];
      Wrapped(old(contents), open, RenderMembers(members, format, depth), close);
      ok := EmitString(close);
      depth := depth - 1;
    }

    /** The loop over the members. */
    method PrintMembers(members: seq<Member>) returns (ok: bool)
      requires Valid() && PrintableMembers(members)
      modifies this, buffer
      ensures Extended()
      ensures !ok ==> |old(contents)| + |RenderMembers(members, format, old(depth))| + 2 > Cap()
      ensures ok ==>
                contents == old(contents) + RenderMembers(members, format, old(depth)) && depth == old(depth)
      decreases members, 8
    {
      hide Render, RenderMembers, PrintableMembers, RenderMember, Valid;
      ghost var text, done: Text := RenderMembers(members, format, depth), [];
      assert members[0..] == members;
      NoMembers(members, format, depth);
      var i := 0;
      while i < |members|
        invariant 0 <= i <= |members|
        invariant Extended() && contents == old(contents) + done && depth == old(depth)
        invariant PrintableMembers(members[i..])
        invariant text == done + RenderMembers(members[i..], format, depth)
      {
        MembersText(members, i, format, depth);
        ghost var piece := RenderMember(members[i], format, depth, i + 1 == |members|);
        Reassociate(old(contents), done, piece, RenderMembers(members[i + 1..], format, depth));
        ok := PrintMember(members[i], i + 1 == |members|);
        if !ok {
          return;
        }
        done := done + piece;
        i := i + 1;
      }
      ok := true;
    }

    /** Indentation, key, colon, value, and the comma and line break due after them. */
    method PrintMember(m: Member, last: bool) returns (ok: bool)
      requires Valid() && NUL !in m.key && Printable(m.value)
      modifies this, buffer
      ensures Extended()
      ensures ok <==> |old(contents)| + |RenderMember(m, format, old(depth), last)| + 2 <= Cap()
      ensures ok ==>
                contents == old(contents) + RenderMember(m, format, old(depth), last) && depth == old(depth)
      decreases m, 6
    {
      hide Render, RenderString, Valid, Tabs;
      var tabs := IfFormat(format, Tabs(depth));
      var colon := [COLON] + IfFormat(format, [TAB]);
      var tail := (if last then [] else [COMMA]) + IfFormat(format, [NEWLINE]);
      ghost var key, value := RenderString(m.key), Render(m.value, format, depth);
      FivePieces(contents, tabs, key, colon, value, tail);
      ok := true;
      if format {
        ok := Emit(depth, tabs);
      }
      if ok {
        ok := PrintKey(m.key);
      }
      if ok {
        ok := Emit(|colon|, colon);
      }
      if ok {
        ok := PrintAndAdvance(m.value);
      }
      if ok {
        ok := Emit(|tail| + 1, tail);
      }
    }
  }

  // ---------- entry points ----------

  /** Growing output starts from this many bytes. */
  const DEFAULT_BUFFER_SIZE: nat := 256

  datatype Printed = NotPrinted | Printed(text: Text)

  /**
   cJSON_Print and cJSON_PrintUnformatted: the whole rendering and its NUL, cut to size, unless the
   rendering with two bytes more is larger than the largest `int`.
   */
  method Print(item: Json, format: bool, reallocates: bool) returns (r: Printed)
    requires Printable(item)
    ensures r == if |Render(item, format, 0)| + 2 <= INT_MAX then Printed(Render(item, format, 0) + [NUL])
                 else NotPrinted
  {
    hide Render;
    var first := new Byte[DEFAULT_BUFFER_SIZE];
    var p := new PrintBuffer(first, false, format, reallocates);
    ghost var pending;
    var ok;
    ok, pending := p.PrintValue(item);
    if !ok {
      return NotPrinted;
    }
    p.UpdateOffset(pending);
    assert p.buffer[..p.offset] == Render(item, format, 0);
    var printed := p.buffer[..p.offset + 1];
    if !reallocates {
      printed := printed[p.offset := NUL];
    }
    return Printed(printed);
  }

  /**
   cJSON_PrintPreallocated: prints into the caller's bytes without ever replacing them, and succeeds
   exactly when they are two more than the rendering.
   */
  method PrintPreallocated(item: Json, bytes: array<Byte>, format: bool) returns (ok: bool)
    requires Printable(item) && bytes.Length <= INT_MAX
    modifies bytes
    ensures ok <==> |Render(item, format, 0)| + 2 <= bytes.Length
    ensures ok ==>
              bytes[..|Render(item, format, 0)|] == Render(item, format, 0)
              && bytes[|Render(item, format, 0)|] == NUL
  {
    hide Render;
    var p := new PrintBuffer(bytes, true, format, true);
    ghost var pending;
    ok, pending := p.PrintValue(item);
    if ok {
      ConcatSlices(bytes[..], 0, p.offset, p.offset + |pending|);
    }
  }

  // ---------- texts in pieces ----------

  function ItemText(item: Json, last: bool, format: bool, depth: nat): Text
    requires Printable(item)
  {
    Render(item, format, depth) + if last then [] else ItemSeparator(format)
  }

  lemma Reassociate(a: Text, b: Text, c: Text, d: Text)
    ensures a + b + c == a + (b + c)
    ensures b + (c + d) == (b + c) + d
  {
  }

  lemma Wrapped(before: Text, open: Text, inner: Text, close: Text)
    ensures before + open + inner + close == before + (open + (inner + close))
  {
  }

  lemma FivePieces(before: Text, a: Text, b: Text, c: Text, d: Text, e: Text)
    ensures before + a + b + c + d + e == before + (a + b + c + d + e)
    ensures before + [] == before
  {
  }

  lemma NoItems(items: seq<Json>, format: bool, depth: nat)
    ensures items[|items|..] == [] && RenderItems([], format, depth) == []
    ensures forall t: Text :: t + [] == t && [] + t == t
  {
  }

  lemma NoMembers(members: seq<Member>, format: bool, depth: nat)
    ensures members[|members|..] == [] && RenderMembers([], format, depth) == []
    ensures forall t: Text :: t + [] == t && [] + t == t
  {
  }

  lemma ObjectText(members: seq<Member>, format: bool, depth: nat)
    requires PrintableMembers(members)
    ensures var open, close := [LBRACE] + IfFormat(format, [NEWLINE]), IfFormat(format, Tabs(depth)) + [RBRACE];
            Render(Object(members), format, depth)
            == open + (RenderMembers(members, format, depth + 1) + close)
  {
  }

  lemma MembersText(members: seq<Member>, i: nat, format: bool, depth: nat)
    requires i < |members| && PrintableMembers(members[i..])
    ensures NUL !in members[i].key && Printable(members[i].value) && PrintableMembers(members[i + 1..])
    ensures members[i] in members
    ensures RenderMembers(members[i..], format, depth)
            == RenderMember(members[i], format, depth, i + 1 == |members|)
               + RenderMembers(members[i + 1..], format, depth)
  {
    assert members[i..][1..] == members[i + 1..];
  }

  lemma ArrayText(items: seq<Json>, format: bool, depth: nat)
    requires PrintableItems(items)
    ensures Render(Array(items), format, depth) == [LBRACKET] + (RenderItems(items, format, depth + 1) + [RBRACKET])
  {
  }

  lemma ItemsText(items: seq<Json>, i: nat, format: bool, depth: nat)
    requires i < |items| && PrintableItems(items[i..])
    ensures Printable(items[i]) && PrintableItems(items[i + 1..])
    ensures items[i] in items
    ensures RenderItems(items[i..], format, depth)
            == ItemText(items[i], i + 1 == |items|, format, depth) + RenderItems(items[i + 1..], format, depth)
  {
    assert items[i..][1..] == items[i + 1..];
    if i + 1 == |items| {
      assert RenderItems(items[i + 1..], format, depth) == [];
    }
  }

  /** Characters that escaping one byte adds. */
  function Extra(b: Byte): nat {
    if EscapeLetter(b).Some? then 1 else if b < 32 then 5 else 0
  }

  function Extras(t: Text): nat {
    if t == [] then 0 else Extra(t[0]) + Extras(t[1..])
  }

  method CountEscapes(input: Text) returns (n: nat)
    ensures n == Extras(input)
  {
    n := 0;
    var i := 0;
    while i < |input|
      invariant 0 <= i <= |input|
      invariant Extras(input) == n + Extras(input[i..])
    {
      var b := input[i];
      assert input[i..][1..] == input[i + 1..];
      if b == QUOTE || b == BACKSLASH || b == BACKSPACE || b == FORM_FEED || b == NEWLINE || b == RETURN || b == TAB {
        n := n + 1;
      } else if b < 32 {
        n := n + 5;
      }
      i := i + 1;
    }
  }

  lemma {:induction false} EscapeLength(t: Text)
    requires NUL !in t
    ensures |Escape(t)| == |t| + Extras(t)
  {
    if t != [] {
      EscapeLength(t[1..]);
    }
  }

  lemma {:induction false} NothingToEscape(t: Text)
    requires NUL !in t && Extras(t) == 0
    ensures Escape(t) == t
  {
    if t != [] {
      NothingToEscape(t[1..]);
    }
  }

  lemma NothingLeft(t: Text)
    ensures t[|t|..] == [] && Escape([]) == []
    ensures forall s: Text :: s + [] == s
  {
  }

  lemma EscapeCons(t: Text, i: nat)
    requires NUL !in t && i < |t|
    ensures Escape(t[i..]) == EscapeByte(t[i]) + Escape(t[i + 1..])
  {
    assert t[i..][1..] == t[i + 1..];
  }

  lemma ConcatSlices(s: Text, a: nat, b: nat, c: nat)
    requires a <= b <= c <= |s|
    ensures s[a..c] == s[a..b] + s[b..c]
  {
  }
}
