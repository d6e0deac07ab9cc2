/**
 What a tree in memory says, references followed; replacing an item; and a value read by walking the
 tree's pointers, which is what the printer prints.
 */
module JsonViews {
  import opened Bytes
  import opened JsonValue
  import opened JsonHeaps
  import opened JsonTrees

  function TextAt(texts: Texts, p: Ptr): Text {
    if p != 0 && p in texts then texts[p] else []
  }

  /** The value of a node together with its children, whoever owns them. */
  function JsonOf(nodes: Nodes, texts: Texts, t: Tree): Json
    decreases t, 0
  {
    if t.ptr !in nodes then Null
    else
      match nodes[t.ptr].kind
      case KNull => Null
      case KFalse => False
      case KTrue => True
      case KNumber => Number(nodes[t.ptr].value)
      case KString => String(TextAt(texts, nodes[t.ptr].valuestring))
      case KArray => Array(ItemsOf(nodes, texts, t.children))
      case KObject => Object(MembersOf(nodes, texts, t.children))
  }

  function ItemsOf(nodes: Nodes, texts: Texts, ts: seq<Tree>): seq<Json>
    decreases ts, 1
  {
    if ts == [] then [] else ItemsOf(nodes, texts, ts[..|ts| - 1]) + [JsonOf(nodes, texts, ts[|ts| - 1])]
  }

  function MembersOf(nodes: Nodes, texts: Texts, ts: seq<Tree>): seq<Member>
    decreases ts, 1
  {
    if ts == [] then []
    else
      var last := ts[|ts| - 1];
      MembersOf(nodes, texts, ts[..|ts| - 1]) + [Member(KeyOf(nodes, texts, last.ptr), JsonOf(nodes, texts, last))]
  }

  function KeyOf(nodes: Nodes, texts: Texts, p: Ptr): Text {
    if p in nodes then TextAt(texts, nodes[p].key) else []
  }

  /** A node's strings can be read. */
  predicate Readable(texts: Texts, n: Node) {
    && (n.valuestring != 0 ==> n.valuestring in texts)
    && (n.key != 0 ==> n.key in texts)
  }

  /** The children of every node are linked as the tree says, references included. */
  ghost predicate Shows(nodes: Nodes, texts: Texts, t: Tree)
    decreases t, 0
  {
    && t.ptr != 0 && t.ptr in nodes && Readable(texts, nodes[t.ptr])
    && nodes[t.ptr].child == PtrAt(Roots(t.children), 0)
    && Linked(nodes, Roots(t.children))
    && ShowsEach(nodes, texts, t.children)
  }

  ghost predicate ShowsEach(nodes: Nodes, texts: Texts, ts: seq<Tree>)
    decreases ts, 1
  {
    forall i :: 0 <= i < |ts| ==> Shows(nodes, texts, ts[i])
  }

  // ---------- what depends on what ----------

  /** Nothing that was there is gone or changed. */
  ghost predicate Extends(n0: Nodes, t0: Texts, n1: Nodes, t1: Texts) {
    && (forall p <- n0 :: p in n1 && n1[p] == n0[p])
    && (forall p <- t0 :: p in t1 && t1[p] == t0[p])
  }

  /** These nodes are as they were. */
  ghost predicate SameAt(n0: Nodes, n1: Nodes, ptrs: set<Ptr>) {
    forall p <- ptrs :: p in n0 ==> p in n1 && n1[p] == n0[p]
  }

  /** The node itself is as it was but for its place in a list. */
  ghost predicate SameButLinks(n0: Nodes, n1: Nodes, p: Ptr) {
    p in n0 ==> p in n1 && n1[p] == n0[p].(next := n1[p].next, prev := n1[p].prev)
  }

  /** A tree is as it was, except for where its root is linked. */
  ghost predicate SameTree(n0: Nodes, n1: Nodes, t: Tree) {
    SameButLinks(n0, n1, t.ptr) && SameAt(n0, n1, AllPtrs(t.children))
  }

  ghost predicate SameTexts(t0: Texts, t1: Texts) {
    forall p <- t0 :: p in t1 && t1[p] == t0[p]
  }

  lemma LinkedFrame(n0: Nodes, n1: Nodes, ptrs: seq<Ptr>)
    requires Linked(n0, ptrs)
    requires forall i :: 0 <= i < |ptrs| ==> ptrs[i] in n1 && (ptrs[i] in n0 ==> n1[ptrs[i]] == n0[ptrs[i]])
    ensures Linked(n1, ptrs)
  {
    forall i | 0 <= i < |ptrs| ensures LinkedAt(n1, ptrs, i) {
      assert LinkedAt(n0, ptrs, i);
    }
  }

  /** What a tree shows rests on its nodes and on the strings, not on where its root is linked. */
  lemma {:induction false} ShowsFrame(n0: Nodes, t0: Texts, n1: Nodes, t1: Texts, t: Tree)
    requires Shows(n0, t0, t) && SameButLinks(n0, n1, t.ptr) && SameAt(n0, n1, AllPtrs(t.children)) && SameTexts(t0, t1)
    ensures Shows(n1, t1, t) && JsonOf(n1, t1, t) == JsonOf(n0, t0, t)
    ensures KeyOf(n1, t1, t.ptr) == KeyOf(n0, t0, t.ptr)
    decreases t, 0
  {
    hide ShowsEach, Linked, AllPtrs, ItemsOf, MembersOf, PtrAt;
    ShowsEachFrame(n0, t0, n1, t1, t.children);
    LinkedFrame(n0, n1, Roots(t.children));
  }

  lemma {:induction false} ShowsEachFrame(n0: Nodes, t0: Texts, n1: Nodes, t1: Texts, ts: seq<Tree>)
    requires ShowsEach(n0, t0, ts) && SameAt(n0, n1, AllPtrs(ts)) && SameTexts(t0, t1)
    ensures ShowsEach(n1, t1, ts)
    ensures ItemsOf(n1, t1, ts) == ItemsOf(n0, t0, ts) && MembersOf(n1, t1, ts) == MembersOf(n0, t0, ts)
    ensures forall i :: 0 <= i < |ts| ==> ts[i].ptr in n0 && ts[i].ptr in n1 && n1[ts[i].ptr] == n0[ts[i].ptr]
    decreases ts, 1
  {
    hide Linked, JsonOf, KeyOf, PtrAt, Readable, SameTexts;
    if ts != [] {
      var front, last := ts[..|ts| - 1], ts[|ts| - 1];
      assert Ptrs(last) <= AllPtrs(ts);
      ShowsFrame(n0, t0, n1, t1, last);
      ShowsEachFrame(n0, t0, n1, t1, front);
      assert forall i :: 0 <= i < |ts| ==> ts[i] == if i < |front| then front[i] else last;
    }
  }

  /** The same for what a tree owns. */
  lemma OwnsRelinked(n0: Nodes, t0: Texts, n1: Nodes, t1: Texts, t: Tree)
    requires Owns(n0, t0, t) && Separate(n0, t)
    requires SameButLinks(n0, n1, t.ptr) && SameAt(n0, n1, AllPtrs(t.children))
    requires forall p <- TextsOf(n0, t) :: p in t1
    ensures Owns(n1, t1, t) && Separate(n1, t) && TextsOf(n1, t) == TextsOf(n0, t)
  {
    hide OwnsEach, Chained, AllTextsOf, SeparateAll, AllPtrs, PtrAt;
    NoChildren(n0, n1);
    if !n0[t.ptr].isReference {
      OwnsAllFrame(n0, t0, n1, t1, t.children);
      ChainedFrame(n0, n1, t.children);
    }
  }

  // ---------- lists of trees ----------

  lemma {:induction false} EachRelinked(n0: Nodes, t0: Texts, n1: Nodes, t1: Texts, ts: seq<Tree>)
    requires ShowsEach(n0, t0, ts) && OwnsEach(n0, t0, ts) && SeparateAll(n0, ts)
    requires forall i :: 0 <= i < |ts| ==> SameTree(n0, n1, ts[i])
    requires SameTexts(t0, t1) && forall p <- AllTextsOf(n0, ts) :: p in t1
    ensures ShowsEach(n1, t1, ts) && OwnsEach(n1, t1, ts) && SeparateAll(n1, ts)
    ensures ItemsOf(n1, t1, ts) == ItemsOf(n0, t0, ts) && MembersOf(n1, t1, ts) == MembersOf(n0, t0, ts)
    ensures AllTextsOf(n1, ts) == AllTextsOf(n0, ts)
    decreases |ts|
  {
    hide Shows, Owns, Separate, TextsOf, JsonOf, KeyOf, Ptrs;
    if ts != [] {
      var front, last := ts[..|ts| - 1], ts[|ts| - 1];
      assert SameTree(n0, n1, last);
      ShowsFrame(n0, t0, n1, t1, last);
      OwnsRelinked(n0, t0, n1, t1, last);
      EachRelinked(n0, t0, n1, t1, front);
      assert forall i :: 0 <= i < |ts| ==> ts[i] == if i < |front| then front[i] else last;
    }
  }

  /** Of a separate list, one tree's root is not below another one, nor below itself. */
  lemma {:induction false} RootNotBelow(nodes: Nodes, ts: seq<Tree>, i: nat, j: nat)
    requires SeparateAll(nodes, ts) && i < |ts| && j < |ts|
    ensures ts[i].ptr !in AllPtrs(ts[j].children) && ts[i].ptr in AllPtrs(ts)
    ensures AllPtrs(ts[j].children) <= AllPtrs(ts)
    ensures i != j ==> ts[i].ptr != ts[j].ptr
    decreases |ts|
  {
    hide AllTextsOf, TextsOf;
    var front := ts[..|ts| - 1];
    if i < |front| && j < |front| {
      RootNotBelow(nodes, front, i, j);
    } else if i < |front| {
      RootNotBelow(nodes, front, i, i);
    } else if j < |front| {
      RootNotBelow(nodes, front, j, j);
    }
  }

  lemma RootsAdded(ts: seq<Tree>, t: Tree)
    ensures Roots(ts + [t]) == Roots(ts) + [t.ptr]
  {
  }

  lemma AllTextsAdded(nodes: Nodes, texts: Texts, ts: seq<Tree>, t: Tree)
    ensures AllPtrs(ts + [t]) == AllPtrs(ts) + Ptrs(t)
    ensures AllTextsOf(nodes, ts + [t]) == AllTextsOf(nodes, ts) + TextsOf(nodes, t)
    ensures ItemsOf(nodes, texts, ts + [t]) == ItemsOf(nodes, texts, ts) + [JsonOf(nodes, texts, t)]
    ensures MembersOf(nodes, texts, ts + [t])
            == MembersOf(nodes, texts, ts) + [Member(KeyOf(nodes, texts, t.ptr), JsonOf(nodes, texts, t))]
    ensures SeparateAll(nodes, ts) && Separate(nodes, t) && AllPtrs(ts) !! Ptrs(t)
            && AllTextsOf(nodes, ts) !! TextsOf(nodes, t)
            ==> SeparateAll(nodes, ts + [t])
    ensures ShowsEach(nodes, texts, ts) && Shows(nodes, texts, t) ==> ShowsEach(nodes, texts, ts + [t])
    ensures OwnsEach(nodes, texts, ts) && Owns(nodes, texts, t) ==> OwnsEach(nodes, texts, ts + [t])
  {
    hide Shows, Owns, Separate, JsonOf, KeyOf, TextsOf, Ptrs;
    var all := ts + [t];
    assert all[..|all| - 1] == ts && all[|all| - 1] == t;
  }

  lemma ChainedWhenLinked(nodes: Nodes, ts: seq<Tree>)
    requires Linked(nodes, Roots(ts))
    ensures Chained(nodes, ts)
  {
    forall i | 0 <= i < |ts| ensures ChainedAt(nodes, ts, i) {
      assert LinkedAt(nodes, Roots(ts), i);
    }
  }

  // ---------- replacing an item ----------

  lemma IsListFrame(n0: Nodes, n1: Nodes, parent: Ptr, ptrs: seq<Ptr>)
    requires IsList(n0, parent, ptrs)
    requires parent in n1 && n1[parent] == n0[parent]
    requires forall i :: 0 <= i < |ptrs| ==> ptrs[i] in n1 && (ptrs[i] in n0 ==> n1[ptrs[i]] == n0[ptrs[i]])
    ensures IsList(n1, parent, ptrs)
  {
    hide Linked, PtrAt;
    LinkedFrame(n0, n1, ptrs);
  }

  /**
   Puts another item in an item's place, and deletes the one that was there: `relinked` is the heap after
   the exchange, and what the deleted tree owned is then taken out of it.
   */
  method ReplaceItemViaPointer(h: Heap, parent: Ptr, item: Ptr, replacement: Ptr, ghost ptrs: seq<Ptr>,
                               ghost which: nat, ghost t: Tree) returns (ok: bool, ghost relinked: Nodes)
    requires parent != 0 && item != 0 && replacement != 0 && replacement != item ==>
               && IsList(h.nodes, parent, ptrs) && which < |ptrs| && item == ptrs[which]
               && replacement in h.nodes && replacement !in ptrs && replacement != parent
               && item == t.ptr && Owns(h.nodes, h.texts, t) && Separate(h.nodes, t)
               && Ptrs(t) !! {parent, replacement}
               && (forall p <- ptrs :: p == item || p !in Ptrs(t))
    modifies h`nodes, h`texts
    ensures ok == (parent != 0 && item != 0 && replacement != 0)
    ensures !ok || replacement == item ==> h.nodes == old(h.nodes) && h.texts == old(h.texts)
    ensures ok && replacement != item ==>
              && Relinked(old(h.nodes), relinked, parent, (set p <- ptrs) + {replacement})
              && IsList(relinked, parent, ptrs[which := replacement]) && Loose(relinked, item)
              && h.nodes == relinked - Ptrs(t)
              && h.texts == old(h.texts) - TextsOf(old(h.nodes), t)
              && IsList(h.nodes, parent, ptrs[which := replacement])
  {
    relinked := h.nodes;
    if parent == 0 || replacement == 0 || item == 0 {
      return false, relinked;
    }
    if replacement == item {
      return true, relinked;
    }
    ghost var n0, t0 := h.nodes, h.texts;
    h.Exchange(parent, item, replacement, ptrs, which);
    relinked := h.nodes;
    ghost var n1 := h.nodes;
    UntouchedBelow(n0, n1, parent, ptrs, replacement, t);
    OwnedExists(n0, t0, t);
    OwnsRelinked(n0, t0, n1, t0, t);
    hide Owns, Separate, IsList, Relinked, Linked, Ptrs, TextsOf;
    DeleteTree(h, item, t);
    var after := ptrs[which := replacement];
    forall i | 0 <= i < |after|
      ensures after[i] in h.nodes && (after[i] in n1 ==> h.nodes[after[i]] == n1[after[i]])
    {
      OthersRemain(n1, parent, ptrs, which, replacement, t, i);
    }
    assert parent in h.nodes by {
      ParentThere(n1, parent, after);
    }
    IsListFrame(n1, h.nodes, parent, after);
    return true, relinked;
  }

  lemma ParentThere(nodes: Nodes, parent: Ptr, ptrs: seq<Ptr>)
    requires IsList(nodes, parent, ptrs)
    ensures parent in nodes
  {
  }

  lemma OthersRemain(nodes: Nodes, parent: Ptr, ptrs: seq<Ptr>, which: nat, replacement: Ptr, t: Tree, i: nat)
    requires which < |ptrs| && i < |ptrs| && IsList(nodes, parent, ptrs[which := replacement])
    requires replacement !in Ptrs(t) && forall p <- ptrs :: p == ptrs[which] || p !in Ptrs(t)
    requires Distinct(ptrs)
    ensures ptrs[which := replacement][i] in nodes && ptrs[which := replacement][i] !in Ptrs(t)
  {
    var after := ptrs[which := replacement];
    assert LinkedAt(nodes, after, i);
    if i != which {
      assert ptrs[i] in ptrs && ptrs[i] != ptrs[which];
    }
  }

  lemma UntouchedBelow(n0: Nodes, n1: Nodes, parent: Ptr, ptrs: seq<Ptr>, replacement: Ptr, t: Tree)
    requires Relinked(n0, n1, parent, (set p <- ptrs) + {replacement})
    requires Separate(n0, t) && Ptrs(t) !! {parent, replacement} && forall p <- ptrs :: p == t.ptr || p !in Ptrs(t)
    ensures SameButLinks(n0, n1, t.ptr) && SameAt(n0, n1, AllPtrs(t.children))
  {
    hide AllPtrs, SeparateAll, AllTextsOf;
  }
}
