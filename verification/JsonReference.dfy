/**
 References: a node that shares another one's children and string without owning them. A CNAM reply is
 wrapped into an object by reference, printed, and the wrapper is deleted again.
 */
module JsonReferences {
  import opened Wrappers
  import opened Bytes
  import opened JsonNumber
  import opened JsonValue
  import opened JsonParse
  import opened JsonRender
  import opened JsonTheorems
  import opened PrintBuffers
  import opened JsonHeaps
  import opened JsonTrees
  import opened JsonViews

  // ---------- reading a tree ----------

  /** The value the printer finds by following the pointers. */
  method Read(h: Heap, item: Ptr, ghost t: Tree) returns (v: Json)
    requires item == t.ptr && Shows(h.nodes, h.texts, t)
    ensures v == JsonOf(h.nodes, h.texts, t)
    decreases t, 0
  {
    hide ShowsEach, ItemsOf, MembersOf, Linked, PtrAt;
    var node := h.nodes[item];
    match node.kind
    case KNull => v := Null;
    case KFalse => v := False;
    case KTrue => v := True;
    case KNumber => v := Number(node.value);
    case KString => v := String(TextAt(h.texts, node.valuestring));
    case KArray =>
      var items, _ := ReadChildren(h, node.child, t.children);
      v := Array(items);
    case KObject =>
      var _, members := ReadChildren(h, node.child, t.children);
      v := Object(members);
  }

  method ReadChildren(h: Heap, head: Ptr, ghost ts: seq<Tree>) returns (items: seq<Json>, members: seq<Member>)
    requires head == PtrAt(Roots(ts), 0) && Linked(h.nodes, Roots(ts)) && ShowsEach(h.nodes, h.texts, ts)
    ensures items == ItemsOf(h.nodes, h.texts, ts) && members == MembersOf(h.nodes, h.texts, ts)
    decreases ts, 1
  {
    hide Linked, Shows, JsonOf;
    var p := head;
    items, members := [], [];
    ghost var i := 0;
    ItemOf(h.nodes, Roots(ts), 0);
    while p != 0
      invariant 0 <= i <= |ts| && p == PtrAt(Roots(ts), i) && (p == 0 <==> i == |ts|)
      invariant items == ItemsOf(h.nodes, h.texts, ts[..i]) && members == MembersOf(h.nodes, h.texts, ts[..i])
      decreases |ts| - i
    {
      NextOf(h.nodes, Roots(ts), i);
      ItemOf(h.nodes, Roots(ts), i + 1);
      assert ts[..i + 1][..i] == ts[..i];
      var v := Read(h, p, ts[i]);
      items := items + [v];
      members := members + [Member(TextAt(h.texts, h.nodes[p].key), v)];
      p := h.nodes[p].next;
      i := i + 1;
    }
    assert ts[..|ts|] == ts;
  }

  /** The text of a tree; of one with numbers outside the integer fragment, any text or none. */
  method PrintUnformatted(h: Heap, item: Ptr, reallocates: bool, ghost t: Tree) returns (r: Printed)
    requires item == t.ptr && Shows(h.nodes, h.texts, t)
    ensures Printable(JsonOf(h.nodes, h.texts, t)) ==> r == PrintedText(JsonOf(h.nodes, h.texts, t))
  {
    hide Shows, JsonOf, Render, Printable;
    var v := Read(h, item, t);
    if Printable(v) {
      r := Print(v, false, reallocates);
    } else {
      r := *;
    }
  }

  /** The compact rendering and its NUL, unless it is too large for an `int`. */
  function PrintedText(v: Json): Printed
    requires Printable(v)
  {
    var text := Render(v, false, 0);
    if |text| + 2 <= INT_MAX then Printed(text + [NUL]) else NotPrinted
  }

  // ---------- making references ----------

  method CreateReference(h: Heap, item: Ptr) returns (r: Ptr)
    requires h.Valid() && (item != 0 ==> item in h.nodes)
    modifies h
    ensures h.Valid() && h.texts == old(h.texts)
    ensures item == 0 ==> r == 0 && h.nodes == old(h.nodes)
    ensures item != 0 ==>
              && r == old(h.top) && r !in old(h.nodes) && r !in old(h.texts) && h.top == r + 1
              && h.nodes == old(h.nodes)[r := old(h.nodes)[item].(key := 0, isReference := true, next := 0, prev := 0)]
  {
    if item == 0 {
      return 0;
    }
    r := h.NewItem(KNull);
    h.nodes := h.nodes[r := h.nodes[item].(key := 0, isReference := true, next := 0, prev := 0)];
  }

  /** The strings after the node `n` was given a new key at `k`. */
  function Rekeyed(texts: Texts, n: Node, k: Ptr, name: Text): Texts {
    (if !n.keyIsConst && n.key != 0 then texts - {n.key} else texts)[k := CString(name)]
  }

  /** The key a member is given, and the one that is freed for it. */
  method SetKey(h: Heap, item: Ptr, name: Text) returns (k: Ptr)
    requires h.Valid() && item in h.nodes
    requires var n := h.nodes[item]; !n.keyIsConst && n.key != 0 ==> n.key in h.texts
    modifies h
    ensures h.Valid() && k == old(h.top) && k !in old(h.nodes) && k !in old(h.texts) && h.top == k + 1
    ensures h.nodes == old(h.nodes)[item := old(h.nodes)[item].(key := k, keyIsConst := false)]
    ensures var n := old(h.nodes)[item];
            h.texts == Rekeyed(old(h.texts), n, k, name)
  {
    k := h.Strdup(name);
    var n := h.nodes[item];
    if !n.keyIsConst && n.key != 0 {
      h.FreeText(n.key);
    }
    h.nodes := h.nodes[item := n.(key := k, keyIsConst := false)];
  }

  /** Appends a member; the item must not be in a list. */
  method AddItemToObject(h: Heap, parent: Ptr, name: Text, item: Ptr, ghost ptrs: seq<Ptr>) returns (ok: bool)
    requires h.Valid() && IsList(h.nodes, parent, ptrs)
    requires item != 0 ==> Loose(h.nodes, item) && item !in ptrs && item != parent
    requires item != 0 ==> var n := h.nodes[item]; !n.keyIsConst && n.key != 0 ==> n.key in h.texts
    modifies h
    ensures h.Valid() && ok == (item != 0)
    ensures !ok ==> h.nodes == old(h.nodes) && h.texts == old(h.texts)
    ensures ok ==>
              var n, k := old(h.nodes)[item], old(h.top);
              var keyed := old(h.nodes)[item := n.(key := k, keyIsConst := false)];
              IsList(h.nodes, parent, ptrs + [item])
              && Relinked(keyed, h.nodes, parent, (set p <- ptrs) + {item})
              && h.texts == Rekeyed(old(h.texts), n, k, name)
              && k !in old(h.nodes) && k !in old(h.texts)
  {
    if item == 0 {
      return false;
    }
    ghost var n0 := h.nodes;
    var k := SetKey(h, item, name);
    RekeyedList(n0, h.nodes, parent, ptrs, item, k);
    hide Relinked, IsList;
    LooseHangs(h.nodes, item);
    ok := h.AddItemToArray(parent, item, ptrs, [item]);
    assert h.Valid() by {
      KeysRemain(n0, h.nodes, parent, ptrs, item, k);
    }
  }

  lemma KeysRemain(n0: Nodes, n1: Nodes, parent: Ptr, ptrs: seq<Ptr>, item: Ptr, k: Ptr)
    requires item in n0
    requires Relinked(n0[item := n0[item].(key := k, keyIsConst := false)], n1, parent, (set p <- ptrs) + {item})
    ensures n1.Keys == n0.Keys
  {
  }

  lemma RekeyedList(n0: Nodes, n1: Nodes, parent: Ptr, ptrs: seq<Ptr>, item: Ptr, k: Ptr)
    requires IsList(n0, parent, ptrs) && Loose(n0, item) && item !in ptrs && item != parent
    requires n1 == n0[item := n0[item].(key := k, keyIsConst := false)]
    ensures IsList(n1, parent, ptrs) && Loose(n1, item)
  {
    IsListFrameAround(n0, n1, parent, ptrs);
  }

  lemma IsListFrameAround(n0: Nodes, n1: Nodes, parent: Ptr, ptrs: seq<Ptr>)
    requires IsList(n0, parent, ptrs) && n1.Keys == n0.Keys && n1[parent] == n0[parent]
    requires forall p <- ptrs :: p in n0 ==> n1[p] == n0[p]
    ensures IsList(n1, parent, ptrs)
  {
    forall i | 0 <= i < |ptrs| ensures LinkedAt(n1, ptrs, i) {
      assert LinkedAt(n0, ptrs, i);
      assert ptrs[i] in ptrs;
    }
  }

  // ---------- the wrapper ----------

  /** The key of the wrapper's one member: response. */
  const RESPONSE: Text := [114, 101, 115, 112, 111, 110, 115, 101]

  function WrappedValue(v: Json): (r: Json)
    ensures Printable(v) ==> Printable(r)
    ensures Depth(r) == 1 + Depth(v)
  {
    var members := [Member(RESPONSE, v)];
    assert members[1..] == [];
    assert MembersDepth(members) == Depth(v);
    assert Printable(v) ==> PrintableMembers(members);
    Object(members)
  }

  /** The heap with a wrapper in it: an object whose member is a reference to the reply. */
  ghost predicate Wrapped(n0: Nodes, t0: Texts, n1: Nodes, t1: Texts, w: Ptr, r: Ptr, k: Ptr, reply: Ptr) {
    && reply in n0 && w != 0 && r != 0 && k != 0 && w != r
    && w !in n0 && r !in n0 && k !in t0
    && n1 == n0[r := n0[reply].(key := k, keyIsConst := false, isReference := true, next := 0, prev := 0)]
               [w := Node(0, 0, r, KObject, false, false, 0, 0.0, 0)]
    && t1 == t0[k := RESPONSE]
  }

  lemma WrapperShows(n0: Nodes, t0: Texts, n1: Nodes, t1: Texts, w: Ptr, r: Ptr, k: Ptr, t: Tree)
    requires Wrapped(n0, t0, n1, t1, w, r, k, t.ptr) && Shows(n0, t0, t)
    ensures var tree := Tree(w, [Tree(r, t.children)]);
            Shows(n1, t1, tree)
            && JsonOf(n1, t1, tree) == WrappedValue(JsonOf(n0, t0, t))
  {
    ReferenceShows(n0, t0, n1, t1, w, r, k, t);
    hide ShowsEach;
    var child := Tree(r, t.children);
    assert Roots([child]) == [r];
    assert LinkedAt(n1, [r], 0);
    OneChild(n1, t1, child);
  }

  lemma OneChild(nodes: Nodes, texts: Texts, child: Tree)
    requires Shows(nodes, texts, child)
    ensures ShowsEach(nodes, texts, [child])
    ensures MembersOf(nodes, texts, [child]) == [Member(KeyOf(nodes, texts, child.ptr), JsonOf(nodes, texts, child))]
  {
    hide Shows, JsonOf;
    assert [child][..0] == [];
  }

  lemma ReferenceShows(n0: Nodes, t0: Texts, n1: Nodes, t1: Texts, w: Ptr, r: Ptr, k: Ptr, t: Tree)
    requires Wrapped(n0, t0, n1, t1, w, r, k, t.ptr) && Shows(n0, t0, t)
    ensures var tree := Tree(r, t.children);
            Shows(n1, t1, tree) && JsonOf(n1, t1, tree) == JsonOf(n0, t0, t) && KeyOf(n1, t1, r) == RESPONSE
  {
    hide AllPtrs, PtrAt, Linked, ShowsEach, ItemsOf, MembersOf;
    ShowsEachFrame(n0, t0, n1, t1, t.children);
    LinkedFrame(n0, n1, Roots(t.children));
  }

  lemma WrapperOwns(n0: Nodes, t0: Texts, n1: Nodes, t1: Texts, w: Ptr, r: Ptr, k: Ptr, reply: Ptr)
    requires Wrapped(n0, t0, n1, t1, w, r, k, reply)
    ensures var own := Tree(w, [Tree(r, [])]);
            Owns(n1, t1, own) && Separate(n1, own) && Ptrs(own) == {w, r} && TextsOf(n1, own) == {k}
  {
    var child := Tree(r, []);
    NoChildren(n1, n1);
    NothingBelow();
    assert OwnTexts(n1[r]) == {k};
    assert Ptrs(child) == {r} && TextsOf(n1, child) == {k} && Owns(n1, t1, child) && Separate(n1, child);
    var own := Tree(w, [child]);
    assert Roots([child]) == [r] && [child][..0] == [];
    assert AllPtrs([child]) == {r} && AllTextsOf(n1, [child]) == {k};
    assert SeparateAll(n1, [child]);
    assert ChainedAt(n1, [child], 0);
  }

  /**
   The wrapping of a reply. When the wrapper is deleted the heap is what it was, whatever the reply holds:
   the reply is whole, and everything made for it was freed once. The text, for numbers that are modelled,
   is the reply's own under the one key.
   */
  method WrapReply(h: Heap, reply: Ptr, reallocates: bool, ghost t: Tree) returns (text: Printed)
    requires h.Valid() && reply == t.ptr && Shows(h.nodes, h.texts, t)
    modifies h
    ensures h.Valid() && h.nodes == old(h.nodes) && h.texts == old(h.texts)
    ensures var v := JsonOf(old(h.nodes), old(h.texts), t);
            Printable(v) ==> text == PrintedText(WrappedValue(v))
  {
    ghost var n0, t0 := h.nodes, h.texts;
    var w, r, k := MakeWrapper(h, reply);
    WrapperShows(n0, t0, h.nodes, h.texts, w, r, k, t);
    WrapperOwns(n0, t0, h.nodes, h.texts, w, r, k, reply);
    hide Shows, JsonOf, Owns, Separate, Ptrs, TextsOf, PrintedText, Printable;
    text := PrintUnformatted(h, w, reallocates, Tree(w, [Tree(r, t.children)]));
    DeleteTree(h, w, Tree(w, [Tree(r, [])]));
    assert h.nodes == n0;
    assert h.texts == t0;
  }

  /**
   What the CNAM driver does with a reply it has parsed: anything but an object is an error; either way
   the reply is deleted in the end, and nothing but the reply.
   */
  method ParseReply(h: Heap, reply: Ptr, reallocates: bool, ghost t: Tree) returns (text: Option<Printed>)
    requires h.Valid() && reply == t.ptr && Shows(h.nodes, h.texts, t)
    requires Owns(h.nodes, h.texts, t) && Separate(h.nodes, t)
    modifies h
    ensures h.Valid()
    ensures h.nodes == old(h.nodes) - Ptrs(t) && h.texts == old(h.texts) - TextsOf(old(h.nodes), t)
    ensures var v := JsonOf(old(h.nodes), old(h.texts), t);
            (text.Some? <==> v.Object?)
            && (v.Object? && Printable(v) ==> text == Some(PrintedText(WrappedValue(v))))
  {
    hide ShowsEach, ItemsOf, MembersOf, OwnsEach, Chained, Separate, Ptrs, TextsOf, PrintedText, Printable;
    text := None;
    if h.nodes[reply].kind == KObject {
      var printed := WrapReply(h, reply, reallocates, t);
      text := Some(printed);
    }
    DeleteTree(h, reply, t);
  }

  method MakeWrapper(h: Heap, reply: Ptr) returns (w: Ptr, r: Ptr, ghost k: Ptr)
    requires h.Valid() && reply in h.nodes && reply != 0
    modifies h
    ensures h.Valid() && Wrapped(old(h.nodes), old(h.texts), h.nodes, h.texts, w, r, k, reply)
  {
    w := h.NewItem(KObject);
    r := CreateReference(h, reply);
    k := h.top;
    ghost var n2 := h.nodes;
    var ok := AddItemToObject(h, w, RESPONSE, r, []);
    OneMember(n2, h.nodes, w, r, k);
  }

  /** Where the list was empty, the member's links stay as they were. */
  lemma OneMember(n0: Nodes, n1: Nodes, parent: Ptr, item: Ptr, k: Ptr)
    requires item in n0 && parent in n0 && Loose(n0, item) && item != parent
    requires IsList(n1, parent, [] + [item])
    requires Relinked(n0[item := n0[item].(key := k, keyIsConst := false)], n1, parent, (set p | p in []) + {item})
    ensures n1 == n0[item := n0[item].(key := k, keyIsConst := false)][parent := n0[parent].(child := item)]
  {
    assert [] + [item] == [item];
    assert LinkedAt(n1, [item], 0);
  }

  // ---------- the wrapper's text ----------

  /**
   Whoever parses the wrapper's text gets the reply back under the one key, unless the reply is nested
   as deep as the parser goes.
   */
  lemma WrapperIsReadBack(v: Json, requireNul: bool)
    requires Printable(v)
    ensures var text := Render(WrappedValue(v), false, 0);
            if Depth(v) < NESTING_LIMIT then ParseText(text, requireNul) == Parsed(WrappedValue(v), |text|)
            else ParseText(text, requireNul).Failed?
  {
    hide Render, ParseText;
    RoundTrip(WrappedValue(v), false, requireNul);
  }

  /** Compact text is the same at every depth. */
  lemma {:induction false} CompactIgnoresDepth(v: Json, a: nat, b: nat)
    requires Printable(v)
    ensures Render(v, false, a) == Render(v, false, b)
    decreases v, 0
  {
    match v
    case Array(items) => CompactItems(items, a + 1, b + 1);
    case Object(members) => CompactMembers(members, a + 1, b + 1);
    case _ =>
  }

  lemma {:induction false} CompactItems(items: seq<Json>, a: nat, b: nat)
    requires PrintableItems(items)
    ensures RenderItems(items, false, a) == RenderItems(items, false, b)
    decreases items, 1
  {
    if items != [] {
      CompactIgnoresDepth(items[0], a, b);
      CompactItems(items[1..], a, b);
    }
  }

  lemma {:induction false} CompactMembers(members: seq<Member>, a: nat, b: nat)
    requires PrintableMembers(members)
    ensures RenderMembers(members, false, a) == RenderMembers(members, false, b)
    decreases members, 1
  {
    if members != [] {
      CompactIgnoresDepth(members[0].value, a, b);
      CompactMembers(members[1..], a, b);
    }
  }

  /** The wrapper's text is the reply's own text between {"response": and }. */
  lemma WrappedText(v: Json)
    requires Printable(v)
    ensures Render(WrappedValue(v), false, 0)
            == [LBRACE, QUOTE] + RESPONSE + [QUOTE, COLON] + Render(v, false, 0) + [RBRACE]
  {
    EscapedResponse();
    hide Render, Escape;
    assert Printable(Object([Member(RESPONSE, v)])) by {
      assert WrappedValue(v) == Object([Member(RESPONSE, v)]);
    }
    OneMemberObjectText(RESPONSE, v);
  }

  lemma OneMemberObjectText(key: Text, v: Json)
    requires NUL !in key && Escape(key) == key && Printable(v) && Printable(Object([Member(key, v)]))
    ensures Render(Object([Member(key, v)]), false, 0)
            == [LBRACE, QUOTE] + key + [QUOTE, COLON] + Render(v, false, 0) + [RBRACE]
  {
    hide Render, RenderMembers, RenderMember, Escape;
    var m := Member(key, v);
    CompactIgnoresDepth(v, 1, 0);
    CompactMember(m);
    OneMemberText(m);
    CompactObject([m]);
    Regroup(key, Render(v, false, 0));
  }

  lemma Regroup(key: Text, text: Text)
    ensures [LBRACE] + ([QUOTE] + key + [QUOTE] + [COLON] + text) + [RBRACE]
            == [LBRACE, QUOTE] + key + [QUOTE, COLON] + text + [RBRACE]
  {
  }

  lemma CompactMember(m: Member)
    requires NUL !in m.key && Printable(m.value)
    ensures RenderMember(m, false, 1, true) == RenderString(m.key) + [COLON] + Render(m.value, false, 1)
  {
    hide Render, RenderString;
  }

  lemma CompactObject(members: seq<Member>)
    requires PrintableMembers(members)
    ensures Render(Object(members), false, 0) == [LBRACE] + RenderMembers(members, false, 1) + [RBRACE]
  {
    hide RenderMembers;
  }

  lemma OneMemberText(m: Member)
    requires PrintableMembers([m])
    ensures RenderMembers([m], false, 1) == RenderMember(m, false, 1, true)
  {
    hide RenderMember;
    assert [m][1..] == [];
    assert RenderMembers([], false, 1) == [];
  }

  lemma EscapedResponse()
    ensures Escape(RESPONSE) == RESPONSE
  {
    var t := RESPONSE;
    assert forall i :: 0 <= i < |t| ==> EscapeByte(t[i]) == [t[i]];
    PlainIsNotEscaped(t);
  }

  lemma {:induction false} PlainIsNotEscaped(t: Text)
    requires NUL !in t && forall i :: 0 <= i < |t| ==> EscapeByte(t[i]) == [t[i]]
    ensures Escape(t) == t
  {
    if t != [] {
      PlainIsNotEscaped(t[1..]);
    }
  }
}
