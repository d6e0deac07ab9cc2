/**
 The parser that builds trees in memory, node by node. On success the tree is whole, owns all that was
 allocated for it and says what the text means; on failure the memory is as it was.
 */
module JsonParsers {
  import opened Wrappers
  import opened Bytes
  import opened JsonValue
  import opened JsonParse
  import opened ParseBuffers
  import opened JsonHeaps
  import opened JsonTrees
  import opened JsonViews
  import opened JsonGroves

  /** What a step of the parser says of its outcome: where it ends, what it built, or that it built nothing. */
  twostate predicate Built(h: Heap, b: ParseBuffer, r: Outcome<Json>, ok: bool, t: Tree)
    reads h, b
  {
    if r.Ok? then
      && ok && b.offset == r.next && b.depth == old(b.depth) && b.Valid()
      && Filled(old(h.nodes), old(h.texts), h.nodes, h.texts, t)
      && JsonOf(h.nodes, h.texts, t) == r.value
    else !ok && b.offset == r.at && h.nodes == old(h.nodes) && h.texts == old(h.texts)
  }

  method ParseValue(h: Heap, b: ParseBuffer, item: Ptr) returns (ok: bool, ghost t: Tree)
    requires h.Valid() && b.Valid() && Blank(h.nodes, h.texts, item)
    modifies h, b
    ensures h.Valid() && t.ptr == item
    ensures Built(h, b, ReadValue(b.content, old(b.offset), old(b.depth)), ok, t)
    decreases |b.content| - b.offset, 1
  {
    hide ReadString, ReadNumber, ReadArray, ReadObject, Filled;
    t := Tree(item, []);
    if At(b.content, b.offset, NULL_WORD) {
      SetScalar(h, item, h.nodes[item].(kind := KNull));
      b.offset := b.offset + 4;
      return true, t;
    }
    if At(b.content, b.offset, FALSE_WORD) {
      SetScalar(h, item, h.nodes[item].(kind := KFalse));
      b.offset := b.offset + 5;
      return true, t;
    }
    if At(b.content, b.offset, TRUE_WORD) {
      SetScalar(h, item, h.nodes[item].(kind := KTrue));
      b.offset := b.offset + 4;
      return true, t;
    }
    if b.content[b.offset] == QUOTE {
      var text;
      StringHasNoNul(b.content, b.offset);
      ok, text := b.ParseString();
      if ok {
        SetString(h, item, text);
      }
    } else if b.content[b.offset] == MINUS || IsDigit(b.content[b.offset]) {
      var number;
      ok, number := b.ParseNumber();
      if ok {
        SetScalar(h, item, h.nodes[item].(kind := KNumber, value := number));
      }
    } else if b.content[b.offset] == LBRACKET {
      ok, t := ParseArray(h, b, item);
    } else if b.content[b.offset] == LBRACE {
      ok, t := ParseObject(h, b, item);
    } else {
      ok := false;
    }
  }

  lemma StringHasNoNul(s: Text, i: nat)
    requires Terminated(s) && i < |s|
    ensures ReadString(s, i).Ok? ==> NUL !in ReadString(s, i).value
  {
    hide Decode, ClosingQuote;
  }

  /** A word or a number goes into the node. */
  method SetScalar(h: Heap, item: Ptr, v: Node)
    requires h.Valid() && Blank(h.nodes, h.texts, item)
    requires SamePlace(v, h.nodes[item]) && v.child == 0 && v.valuestring == 0
    modifies h`nodes
    ensures h.Valid() && Filled(old(h.nodes), h.texts, h.nodes, h.texts, Tree(item, []))
    ensures h.nodes == old(h.nodes)[item := v]
  {
    h.nodes := h.nodes[item := v];
    FilledScalar(old(h.nodes), h.texts, h.nodes, h.texts, item, v);
  }

  /** A string gets its own memory. */
  method SetString(h: Heap, item: Ptr, text: Text)
    requires h.Valid() && Blank(h.nodes, h.texts, item) && NUL !in text
    modifies h
    ensures h.Valid() && Filled(old(h.nodes), old(h.texts), h.nodes, h.texts, Tree(item, []))
    ensures JsonOf(h.nodes, h.texts, Tree(item, [])) == String(text)
  {
    ghost var n0, t0 := h.nodes, h.texts;
    var s := h.Strdup(text);
    var v := h.nodes[item].(kind := KString, valuestring := s);
    h.nodes := h.nodes[item := v];
    FilledScalar(n0, t0, h.nodes, h.texts, item, v);
  }

  // ---------- lists ----------

  /** A new node, linked in behind the last one. */
  method AddChild(h: Heap, head: Ptr, last: Ptr, ghost n0: Nodes, ghost t0: Texts, ghost ts: seq<Tree>)
    returns (c: Ptr, first: Ptr)
    requires h.Valid() && Grove(n0, t0, h.nodes, h.texts, ts)
    requires head == PtrAt(Roots(ts), 0) && last == (if ts == [] then 0 else ts[|ts| - 1].ptr)
    modifies h
    ensures h.Valid() && Grove(n0, t0, h.nodes, h.texts, ts + [Tree(c, [])])
    ensures Blank(h.nodes, h.texts, c) && h.nodes[c].key == 0 && first == PtrAt(Roots(ts + [Tree(c, [])]), 0)
    ensures ItemsOf(h.nodes, h.texts, ts) == old(ItemsOf(h.nodes, h.texts, ts))
    ensures MembersOf(h.nodes, h.texts, ts) == old(MembersOf(h.nodes, h.texts, ts))
  {
    hide Grove, ItemsOf, MembersOf, Roots, PtrAt, AllPtrs;
    ghost var n1, t1 := h.nodes, h.texts;
    HeadAndLast(n0, t0, n1, t1, ts);
    c := h.NewItem(KNull);
    ghost var n2 := h.nodes;
    assert OneMore(n1, n2, ts, c);
    first := head;
    if head == 0 {
      first := c;
    } else {
      h.SetNext(last, c);
      h.SetPrev(c, last);
    }
    assert h.nodes == LinkedBehind(n2, ts, c);
    LeafAdded(n0, t0, n1, t1, n2, ts, c);
    FirstOf(ts, Tree(c, []));
  }

  lemma HeadAndLast(n0: Nodes, t0: Texts, n1: Nodes, t1: Texts, ts: seq<Tree>)
    requires Grove(n0, t0, n1, t1, ts)
    ensures PtrAt(Roots(ts), 0) == 0 <==> ts == []
    ensures ts != [] ==> ts[|ts| - 1].ptr in n1
  {
    GroveExists(n0, t0, n1, t1, ts);
  }

  lemma FirstOf(ts: seq<Tree>, t: Tree)
    ensures PtrAt(Roots(ts + [t]), 0) == if ts == [] then t.ptr else PtrAt(Roots(ts), 0)
  {
  }

  /** Gives up on a list: all of it is deleted. */
  method Discard(h: Heap, head: Ptr, ghost n0: Nodes, ghost t0: Texts, ghost ts: seq<Tree>)
    requires h.Valid() && Grove(n0, t0, h.nodes, h.texts, ts) && head == PtrAt(Roots(ts), 0)
    modifies h`nodes, h`texts
    ensures h.Valid() && h.nodes == n0 && h.texts == t0
  {
    GroveCleared(n0, t0, h.nodes, h.texts, ts);
    hide Grove, OwnsEach, Chained, SeparateAll, AllPtrs, AllTextsOf;
    Delete(h, head, ts);
  }

  method ParseArray(h: Heap, b: ParseBuffer, item: Ptr) returns (ok: bool, ghost t: Tree)
    requires h.Valid() && b.Valid() && Blank(h.nodes, h.texts, item) && b.content[b.offset] == LBRACKET
    modifies h, b
    ensures h.Valid() && t.ptr == item
    ensures Built(h, b, ReadArray(b.content, old(b.offset), old(b.depth)), ok, t)
    decreases |b.content| - b.offset, 0
  {
    hide ReadElements, SkipWs, Filled, Grove, ItemsOf;
    ghost var n0, t0 := h.nodes, h.texts;
    t := Tree(item, []);
    if b.depth >= NESTING_LIMIT {
      return false, t;
    }
    b.depth := b.depth + 1;
    b.offset := b.offset + 1;
    b.SkipWhitespace();
    var head: Ptr := 0;
    ghost var ts: seq<Tree> := [];
    NothingGrown(n0, t0);
    if b.content[b.offset] != RBRACKET {
      ok, head, ts := ParseElements(h, b);
      if !ok {
        return false, t;
      }
    }
    b.depth := b.depth - 1;
    Adopt(h, item, head, KArray, n0, t0, ts);
    b.offset := b.offset + 1;
    t := Tree(item, ts);
    return true, t;
  }

  /** The finished list becomes the value of the node. */
  method Adopt(h: Heap, item: Ptr, head: Ptr, kind: Kind, ghost n0: Nodes, ghost t0: Texts, ghost ts: seq<Tree>)
    requires h.Valid() && Blank(n0, t0, item) && Grove(n0, t0, h.nodes, h.texts, ts) && head == PtrAt(Roots(ts), 0)
    modifies h`nodes
    ensures h.Valid() && Filled(n0, t0, h.nodes, h.texts, Tree(item, ts))
    ensures item in h.nodes && h.nodes[item].kind == kind
    ensures ItemsOf(h.nodes, h.texts, ts) == old(ItemsOf(h.nodes, h.texts, ts))
    ensures MembersOf(h.nodes, h.texts, ts) == old(MembersOf(h.nodes, h.texts, ts))
  {
    ghost var n1 := h.nodes;
    StillThere(n0, t0, n1, h.texts, ts, item);
    hide Grove, Filled, ItemsOf, MembersOf;
    var v := h.nodes[item].(kind := kind, child := head);
    h.nodes := h.nodes[item := v];
    FilledList(n0, t0, n1, h.texts, h.nodes, item, v, ts);
  }

  lemma StillThere(n0: Nodes, t0: Texts, n1: Nodes, t1: Texts, ts: seq<Tree>, p: Ptr)
    requires Grove(n0, t0, n1, t1, ts) && p in n0
    ensures p in n1 && n1[p] == n0[p]
  {
  }

  /** The loop over the elements; ends on the closing bracket. */
  method ParseElements(h: Heap, b: ParseBuffer) returns (ok: bool, head: Ptr, ghost ts: seq<Tree>)
    requires h.Valid() && b.Valid() && b.offset > 0
    modifies h, b
    ensures h.Valid()
    ensures var r := ReadElements(b.content, old(b.offset), old(b.depth));
            if r.Ok? then
              && ok && b.offset + 1 == r.next && b.depth == old(b.depth) && b.Valid()
              && Grove(old(h.nodes), old(h.texts), h.nodes, h.texts, ts) && head == PtrAt(Roots(ts), 0)
              && ItemsOf(h.nodes, h.texts, ts) == r.value
            else !ok && b.offset == r.at && h.nodes == old(h.nodes) && h.texts == old(h.texts)
    decreases |b.content| - b.offset, 2
  {
    hide ReadValue, ReadElements, SkipWs, Grove, Filled, ItemsOf, MembersOf, JsonOf, Blank, PtrAt;
    ghost var n0, t0 := h.nodes, h.texts;
    ghost var begin, inner := b.offset, b.depth;
    NothingBefore(ReadElements(b.content, begin, inner));
    NothingGrown(n0, t0);
    head, ts := 0, [];
    NoFirst();
    var last: Ptr := 0;
    b.offset := b.offset - 1;
    var more := true;
    while more
      invariant begin <= b.offset + 1 && b.offset < |b.content| && b.depth == inner && Terminated(b.content)
      invariant h.Valid() && Grove(n0, t0, h.nodes, h.texts, ts)
      invariant head == PtrAt(Roots(ts), 0) && last == (if ts == [] then 0 else ts[|ts| - 1].ptr)
      invariant more ==>
                  b.offset + 1 < |b.content|
                  && ReadElements(b.content, begin, inner)
                     == PrefixedList(ItemsOf(h.nodes, h.texts, ts), ReadElements(b.content, b.offset + 1, inner))
      invariant !more ==>
                  ReadElements(b.content, begin, inner)
                  == if b.content[b.offset] == RBRACKET then Ok(ItemsOf(h.nodes, h.texts, ts), b.offset + 1)
                     else Err(b.offset)
      decreases more, |b.content| - b.offset
    {
      ghost var items := ItemsOf(h.nodes, h.texts, ts);
      var c;
      c, head := AddChild(h, head, last, n0, t0, ts);
      ghost var n1, t1 := h.nodes, h.texts;
      last := c;
      b.offset := b.offset + 1;
      ElementsStep(b.content, b.offset, inner, items);
      b.SkipWhitespace();
      ghost var u;
      ok, u := ParseValue(h, b, c);
      if !ok {
        Discard(h, head, n0, t0, ts + [Tree(c, [])]);
        return false, 0, [];
      }
      LastFilled(n0, t0, n1, t1, h.nodes, h.texts, ts, u);
      SameFirst(ts, Tree(c, []), u);
      ts := ts + [u];
      b.SkipWhitespace();
      more := b.content[b.offset] == COMMA;
    }
    ok := b.content[b.offset] == RBRACKET;
    if !ok {
      Discard(h, head, n0, t0, ts);
      return false, 0, [];
    }
  }

  lemma NoFirst()
    ensures PtrAt(Roots([]), 0) == 0
  {
  }

  lemma SameFirst(ts: seq<Tree>, t: Tree, u: Tree)
    requires t.ptr == u.ptr
    ensures PtrAt(Roots(ts + [t]), 0) == PtrAt(Roots(ts + [u]), 0)
  {
  }

  method ParseObject(h: Heap, b: ParseBuffer, item: Ptr) returns (ok: bool, ghost t: Tree)
    requires h.Valid() && b.Valid() && Blank(h.nodes, h.texts, item) && b.content[b.offset] == LBRACE
    modifies h, b
    ensures h.Valid() && t.ptr == item
    ensures Built(h, b, ReadObject(b.content, old(b.offset), old(b.depth)), ok, t)
    decreases |b.content| - b.offset, 0
  {
    hide ReadEntries, SkipWs, Filled, Grove, MembersOf;
    ghost var n0, t0 := h.nodes, h.texts;
    t := Tree(item, []);
    if b.depth >= NESTING_LIMIT {
      return false, t;
    }
    b.depth := b.depth + 1;
    b.offset := b.offset + 1;
    b.SkipWhitespace();
    var head: Ptr := 0;
    ghost var ts: seq<Tree> := [];
    NothingGrown(n0, t0);
    if b.content[b.offset] != RBRACE {
      ok, head, ts := ParseMembers(h, b);
      if !ok {
        return false, t;
      }
    }
    b.depth := b.depth - 1;
    Adopt(h, item, head, KObject, n0, t0, ts);
    b.offset := b.offset + 1;
    t := Tree(item, ts);
    return true, t;
  }

  /** The loop over the members; ends on the closing brace. */
  method ParseMembers(h: Heap, b: ParseBuffer) returns (ok: bool, head: Ptr, ghost ts: seq<Tree>)
    requires h.Valid() && b.Valid() && b.offset > 0
    modifies h, b
    ensures h.Valid()
    ensures var r := ReadEntries(b.content, old(b.offset), old(b.depth));
            if r.Ok? then
              && ok && b.offset + 1 == r.next && b.depth == old(b.depth) && b.Valid()
              && Grove(old(h.nodes), old(h.texts), h.nodes, h.texts, ts) && head == PtrAt(Roots(ts), 0)
              && MembersOf(h.nodes, h.texts, ts) == r.value
            else !ok && b.offset == r.at && h.nodes == old(h.nodes) && h.texts == old(h.texts)
    decreases |b.content| - b.offset, 3
  {
    hide ReadEntry, ReadEntries, SkipWs, Grove, Filled, ItemsOf, MembersOf, JsonOf, Blank, PtrAt;
    ghost var n0, t0 := h.nodes, h.texts;
    ghost var begin, inner := b.offset, b.depth;
    NothingBefore(ReadEntries(b.content, begin, inner));
    NothingGrown(n0, t0);
    head, ts := 0, [];
    NoFirst();
    var last: Ptr := 0;
    b.offset := b.offset - 1;
    var more := true;
    while more
      invariant begin <= b.offset + 1 && b.offset < |b.content| && b.depth == inner && Terminated(b.content)
      invariant h.Valid() && Grove(n0, t0, h.nodes, h.texts, ts)
      invariant head == PtrAt(Roots(ts), 0) && last == (if ts == [] then 0 else ts[|ts| - 1].ptr)
      invariant more ==>
                  b.offset + 1 < |b.content|
                  && ReadEntries(b.content, begin, inner)
                     == PrefixedList(MembersOf(h.nodes, h.texts, ts), ReadEntries(b.content, b.offset + 1, inner))
      invariant !more ==>
                  ReadEntries(b.content, begin, inner)
                  == if b.content[b.offset] == RBRACE then Ok(MembersOf(h.nodes, h.texts, ts), b.offset + 1)
                     else Err(b.offset)
      decreases more, |b.content| - b.offset
    {
      ghost var members := MembersOf(h.nodes, h.texts, ts);
      var c;
      c, head := AddChild(h, head, last, n0, t0, ts);
      last := c;
      b.offset := b.offset + 1;
      EntriesStep(b.content, b.offset, inner, members);
      ghost var u;
      ok, u := ParseMember(h, b, c, n0, t0, ts);
      SameFirst(ts, Tree(c, []), u);
      ts := ts + [u];
      if !ok {
        Discard(h, head, n0, t0, ts);
        return false, 0, [];
      }
      b.SkipWhitespace();
      more := b.content[b.offset] == COMMA;
    }
    ok := b.content[b.offset] == RBRACE;
    if !ok {
      Discard(h, head, n0, t0, ts);
      return false, 0, [];
    }
  }

  /**
   The name, the colon and the value of one member, into the node `c` at the end of the list. On failure the
   list is still a list, with a node at its end that has its key or not.
   */
  method ParseMember(h: Heap, b: ParseBuffer, c: Ptr, ghost n0: Nodes, ghost t0: Texts, ghost ts: seq<Tree>)
    returns (ok: bool, ghost u: Tree)
    requires h.Valid() && b.Valid() && Grove(n0, t0, h.nodes, h.texts, ts + [Tree(c, [])])
    requires Blank(h.nodes, h.texts, c) && h.nodes[c].key == 0
    modifies h, b
    ensures h.Valid() && u.ptr == c && Grove(n0, t0, h.nodes, h.texts, ts + [u])
    ensures var r := ReadEntry(b.content, old(b.offset), old(b.depth));
            if r.Ok? then
              && ok && b.offset == r.next && b.depth == old(b.depth) && b.Valid()
              && MembersOf(h.nodes, h.texts, ts + [u]) == old(MembersOf(h.nodes, h.texts, ts)) + [r.value]
            else !ok && b.offset == r.at
    decreases |b.content| - b.offset, 2
  {
    hide ReadValue, ReadString, SkipWs, Grove, Filled, ItemsOf, MembersOf, JsonOf;
    u := Tree(c, []);
    b.SkipWhitespace();
    StringHasNoNul(b.content, b.offset);
    var name;
    ok, name := b.ParseString();
    if !ok {
      return;
    }
    SetName(h, b, c, name, n0, t0, ts);
    if b.content[b.offset] != COLON {
      return false, u;
    }
    b.offset := b.offset + 1;
    b.SkipWhitespace();
    ghost var n1, t1 := h.nodes, h.texts;
    ghost var v;
    ok, v := ParseValue(h, b, c);
    if ok {
      u := v;
      LastFilled(n0, t0, n1, t1, h.nodes, h.texts, ts, u);
    }
  }

  /** The name was parsed as the node's string; behind the white space it is moved to be its key. */
  method SetName(h: Heap, b: ParseBuffer, c: Ptr, name: Text, ghost n0: Nodes, ghost t0: Texts, ghost ts: seq<Tree>)
    requires h.Valid() && b.Valid() && Grove(n0, t0, h.nodes, h.texts, ts + [Tree(c, [])])
    requires Blank(h.nodes, h.texts, c) && h.nodes[c].key == 0 && NUL !in name
    modifies h, b`offset
    ensures h.Valid() && b.Valid() && b.offset == SkipWs(b.content, old(b.offset))
    ensures Grove(n0, t0, h.nodes, h.texts, ts + [Tree(c, [])]) && Blank(h.nodes, h.texts, c)
    ensures KeyOf(h.nodes, h.texts, c) == name
    ensures MembersOf(h.nodes, h.texts, ts) == old(MembersOf(h.nodes, h.texts, ts))
  {
    hide Grove, MembersOf, SkipWs;
    ghost var n1, t1 := h.nodes, h.texts;
    var k := h.Strdup(name);
    h.nodes := h.nodes[c := h.nodes[c].(kind := KString, valuestring := k)];
    b.SkipWhitespace();
    h.nodes := h.nodes[c := h.nodes[c].(key := h.nodes[c].valuestring, valuestring := 0)];
    KeyGiven(n0, t0, n1, t1, h.nodes, h.texts, ts, c, k, name);
  }

  // ---------- whole texts ----------

  /**
   cJSON_ParseWithOpts: a new tree, which is all the heap has gained, and the end of the text read; or no
   item, the place of the error, and the heap as it was.
   */
  method ParseWithOpts(h: Heap, text: Text, requireNullTerminated: bool)
    returns (item: Ptr, end: nat, ghost t: Tree)
    requires h.Valid()
    modifies h
    ensures h.Valid()
    ensures match ParseText(text, requireNullTerminated)
            case Parsed(v, at) =>
              && item != 0 && end == at && t.ptr == item
              && Grove(old(h.nodes), old(h.texts), h.nodes, h.texts, [t]) && JsonOf(h.nodes, h.texts, t) == v
            case Failed(at) =>
              item == 0 && end == at && h.nodes == old(h.nodes) && h.texts == old(h.texts)
  {
    hide ReadValue, SkipWs, SkipBom, Grove, Filled, JsonOf;
    ghost var n0, t0 := h.nodes, h.texts;
    var buffer := new ParseBuffer(text);
    NothingGrown(n0, t0);
    NoFirst();
    var c, head := AddChild(h, 0, 0, n0, t0, []);
    ghost var n1, t1 := h.nodes, h.texts;
    assert [] + [Tree(c, [])] == [Tree(c, [])];
    buffer.SkipUtf8Bom();
    buffer.SkipWhitespace();
    var ok;
    ok, t := ParseValue(h, buffer, c);
    if !ok {
      Discard(h, c, n0, t0, [Tree(c, [])]);
      return 0, if buffer.offset < |buffer.content| then buffer.offset else |buffer.content| - 1, t;
    }
    LastFilled(n0, t0, n1, t1, h.nodes, h.texts, [], t);
    assert [] + [t] == [t];
    if requireNullTerminated {
      buffer.SkipWhitespace();
      if buffer.content[buffer.offset] != NUL {
        SameFirst([], Tree(c, []), t);
        Discard(h, c, n0, t0, [t]);
        return 0, buffer.offset, t;
      }
    }
    return c, buffer.offset, t;
  }
}
