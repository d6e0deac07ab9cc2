/**
 Trees in memory: what a node and its children own, what they say, and that deleting frees all of it
 once and nothing else.
 */
module JsonTrees {
  import opened Bytes
  import opened JsonValue
  import opened JsonHeaps

  /** A node and the trees of its child list. The children of a reference are somebody else's. */
  datatype Tree = Tree(ptr: Ptr, children: seq<Tree>)

  function Roots(ts: seq<Tree>): (r: seq<Ptr>)
    ensures |r| == |ts| && forall i :: 0 <= i < |r| ==> r[i] == ts[i].ptr
  {
    seq(|ts|, i requires 0 <= i < |ts| => ts[i].ptr)
  }

  /** The addresses of a tree's nodes. */
  function Ptrs(t: Tree): set<Ptr>
    decreases t, 0
  {
    {t.ptr} + AllPtrs(t.children)
  }

  function AllPtrs(ts: seq<Tree>): (r: set<Ptr>)
    decreases ts, 1
  {
    if ts == [] then {} else AllPtrs(ts[..|ts| - 1]) + Ptrs(ts[|ts| - 1])
  }

  // ---------- ownership ----------

  /** The strings freed along with a node. */
  function OwnTexts(n: Node): set<Ptr> {
    (if n.isReference || n.valuestring == 0 then {} else {n.valuestring})
    + (if n.keyIsConst || n.key == 0 then {} else {n.key})
  }

  function TextsOf(nodes: Nodes, t: Tree): set<Ptr>
    decreases t, 0
  {
    (if t.ptr in nodes then OwnTexts(nodes[t.ptr]) else {}) + AllTextsOf(nodes, t.children)
  }

  function AllTextsOf(nodes: Nodes, ts: seq<Tree>): set<Ptr>
    decreases ts, 1
  {
    if ts == [] then {} else AllTextsOf(nodes, ts[..|ts| - 1]) + TextsOf(nodes, ts[|ts| - 1])
  }

  /** The nodes and strings of a tree are allocated, and the children are linked as the tree says. */
  ghost predicate Owns(nodes: Nodes, texts: Texts, t: Tree)
    decreases t, 0
  {
    && t.ptr != 0 && t.ptr in nodes
    && (forall p <- OwnTexts(nodes[t.ptr]) :: p in texts)
    && (if nodes[t.ptr].isReference then t.children == []
        else nodes[t.ptr].child == PtrAt(Roots(t.children), 0)
             && OwnsEach(nodes, texts, t.children) && Chained(nodes, t.children))
  }

  ghost predicate OwnsEach(nodes: Nodes, texts: Texts, ts: seq<Tree>)
    decreases ts, 1
  {
    forall i :: 0 <= i < |ts| ==> Owns(nodes, texts, ts[i])
  }

  /** The nodes lead from one to the next, and the last one to nothing. */
  ghost predicate Chained(nodes: Nodes, ts: seq<Tree>) {
    forall i :: 0 <= i < |ts| ==> ChainedAt(nodes, ts, i)
  }

  predicate ChainedAt(nodes: Nodes, ts: seq<Tree>, i: int)
    requires 0 <= i < |ts|
  {
    ts[i].ptr in nodes && nodes[ts[i].ptr].next == PtrAt(Roots(ts), i + 1)
  }

  /** No node and no string belongs to two places of the tree. */
  ghost predicate Separate(nodes: Nodes, t: Tree)
    decreases t, 0
  {
    && t.ptr !in AllPtrs(t.children)
    && (t.ptr in nodes ==>
          && OwnTexts(nodes[t.ptr]) !! AllTextsOf(nodes, t.children)
          && (var n := nodes[t.ptr];
              n.valuestring != 0 && !n.isReference && !n.keyIsConst ==> n.valuestring != n.key))
    && SeparateAll(nodes, t.children)
  }

  ghost predicate SeparateAll(nodes: Nodes, ts: seq<Tree>)
    decreases ts, 1
  {
    ts == []
    || (var front, last := ts[..|ts| - 1], ts[|ts| - 1];
        SeparateAll(nodes, front) && Separate(nodes, last)
        && AllPtrs(front) !! Ptrs(last) && AllTextsOf(nodes, front) !! TextsOf(nodes, last))
  }

  // ---------- what depends on what ----------

  /** The heap `n1`, `t1` still holds these nodes as they were, and these strings. */
  ghost predicate Keeps(n0: Nodes, n1: Nodes, t1: Texts, ptrs: set<Ptr>, strings: set<Ptr>) {
    && (forall p <- ptrs :: p in n0 ==> p in n1 && n1[p] == n0[p])
    && (forall p <- strings :: p in t1)
  }

  lemma {:induction false} OwnsFrame(n0: Nodes, t0: Texts, n1: Nodes, t1: Texts, t: Tree)
    requires Owns(n0, t0, t) && Keeps(n0, n1, t1, Ptrs(t), TextsOf(n0, t))
    ensures Owns(n1, t1, t) && TextsOf(n1, t) == TextsOf(n0, t)
    ensures Separate(n0, t) ==> Separate(n1, t)
    ensures t.ptr in n0 && t.ptr in n1 && n1[t.ptr] == n0[t.ptr]
    decreases t, 0
  {
    hide OwnsEach, Chained, AllTextsOf, SeparateAll, AllPtrs, PtrAt;
    if !n0[t.ptr].isReference {
      OwnsAllFrame(n0, t0, n1, t1, t.children);
      ChainedFrame(n0, n1, t.children);
    } else {
      NoChildren(n0, n1);
    }
  }

  lemma NoChildren(n0: Nodes, n1: Nodes)
    ensures AllTextsOf(n0, []) == AllTextsOf(n1, []) == {} && SeparateAll(n0, []) && SeparateAll(n1, [])
  {
  }

  lemma ChainedFrame(n0: Nodes, n1: Nodes, ts: seq<Tree>)
    requires Chained(n0, ts)
    requires forall i :: 0 <= i < |ts| ==> ts[i].ptr in n0 && ts[i].ptr in n1 && n1[ts[i].ptr] == n0[ts[i].ptr]
    ensures Chained(n1, ts)
  {
    forall i | 0 <= i < |ts| ensures ChainedAt(n1, ts, i) {
      assert ChainedAt(n0, ts, i);
    }
  }

  lemma {:induction false} OwnsAllFrame(n0: Nodes, t0: Texts, n1: Nodes, t1: Texts, ts: seq<Tree>)
    requires OwnsEach(n0, t0, ts) && Keeps(n0, n1, t1, AllPtrs(ts), AllTextsOf(n0, ts))
    ensures OwnsEach(n1, t1, ts) && AllTextsOf(n1, ts) == AllTextsOf(n0, ts)
    ensures SeparateAll(n0, ts) ==> SeparateAll(n1, ts)
    ensures forall i :: 0 <= i < |ts| ==> ts[i].ptr in n0 && ts[i].ptr in n1 && n1[ts[i].ptr] == n0[ts[i].ptr]
    decreases ts, 1
  {
    hide Owns, Separate, TextsOf, Ptrs;
    if ts != [] {
      var front, last := ts[..|ts| - 1], ts[|ts| - 1];
      assert OwnsEach(n0, t0, front);
      OwnsFrame(n0, t0, n1, t1, last);
      OwnsAllFrame(n0, t0, n1, t1, front);
      assert forall i :: 0 <= i < |ts| ==> ts[i] == if i < |front| then front[i] else last;
    }
  }

  // ---------- deleting ----------

  /** The parts of a separate list up to one of its trees. */
  lemma {:induction false} SeparatePrefix(nodes: Nodes, ts: seq<Tree>, i: nat)
    requires SeparateAll(nodes, ts) && i < |ts|
    ensures SeparateAll(nodes, ts[..i]) && Separate(nodes, ts[i])
    ensures AllPtrs(ts[..i]) !! Ptrs(ts[i]) && AllTextsOf(nodes, ts[..i]) !! TextsOf(nodes, ts[i])
    ensures AllPtrs(ts[..i + 1]) == AllPtrs(ts[..i]) + Ptrs(ts[i])
    ensures AllTextsOf(nodes, ts[..i + 1]) == AllTextsOf(nodes, ts[..i]) + TextsOf(nodes, ts[i])
    decreases |ts|
  {
    hide Separate, TextsOf, Ptrs;
    assert ts[..i + 1][..i] == ts[..i];
    if i < |ts| - 1 {
      var front := ts[..|ts| - 1];
      SeparatePrefix(nodes, front, i);
      assert front[..i] == ts[..i];
    } else {
      assert ts[..i + 1] == ts;
    }
  }

  /** Frees a tree's nodes and strings, each of them once. */
  method DeleteTree(h: Heap, item: Ptr, ghost t: Tree)
    requires item == t.ptr && Owns(h.nodes, h.texts, t) && Separate(h.nodes, t)
    modifies h`nodes, h`texts
    ensures h.nodes == old(h.nodes) - Ptrs(t)
    ensures h.texts == old(h.texts) - TextsOf(old(h.nodes), t)
    decreases t, 0
  {
    hide Chained, AllTextsOf, SeparateAll, AllPtrs;
    ghost var n0, t0 := h.nodes, h.texts;
    var node := h.nodes[item];
    NoChildren(n0, n0);
    NothingBelow();
    if !node.isReference && node.child != 0 {
      Delete(h, node.child, t.children);
    } else {
      HeadIsNull(n0, t0, t);
    }
    assert h.nodes == n0 - AllPtrs(t.children) && h.texts == t0 - AllTextsOf(n0, t.children);
    if !node.isReference && node.valuestring != 0 {
      h.FreeText(node.valuestring);
    }
    if !node.keyIsConst && node.key != 0 {
      h.FreeText(node.key);
    }
    h.FreeNode(item);
  }

  lemma NothingBelow()
    ensures AllPtrs([]) == {}
  {
  }

  lemma HeadIsNull(nodes: Nodes, texts: Texts, t: Tree)
    requires Owns(nodes, texts, t) && (nodes[t.ptr].isReference || nodes[t.ptr].child == 0)
    ensures t.children == []
  {
    if t.children != [] {
      assert Owns(nodes, texts, t.children[0]);
    }
  }

  /** Deletes a list from its head on. */
  method Delete(h: Heap, head: Ptr, ghost ts: seq<Tree>)
    requires head == PtrAt(Roots(ts), 0)
    requires OwnsEach(h.nodes, h.texts, ts) && Chained(h.nodes, ts) && SeparateAll(h.nodes, ts)
    modifies h`nodes, h`texts
    ensures h.nodes == old(h.nodes) - AllPtrs(ts)
    ensures h.texts == old(h.texts) - AllTextsOf(old(h.nodes), ts)
    decreases ts, 1
  {
    hide Chained, AllTextsOf, SeparateAll, AllPtrs, Owns, Separate, PtrAt;
    ghost var n0, t0 := h.nodes, h.texts;
    ghost var i := 0;
    var item := head;
    NoChildren(n0, n0);
    NothingBelow();
    assert ts[..0] == [];
    HeadOf(n0, t0, ts, 0);
    while item != 0
      invariant 0 <= i <= |ts| && item == PtrAt(Roots(ts), i)
      invariant item == 0 <==> i == |ts|
      invariant h.nodes == n0 - AllPtrs(ts[..i]) && h.texts == t0 - AllTextsOf(n0, ts[..i])
      decreases |ts| - i
    {
      SeparatePrefix(n0, ts, i);
      NextInChain(n0, t0, ts, i);
      assert Owns(n0, t0, ts[i]);
      OwnedExists(n0, t0, ts[i]);
      OwnsFrame(n0, t0, h.nodes, h.texts, ts[i]);
      var next := h.nodes[item].next;
      DeleteTree(h, item, ts[i]);
      item := next;
      i := i + 1;
    }
    assert ts[..|ts|] == ts;
  }

  lemma HeadOf(nodes: Nodes, texts: Texts, ts: seq<Tree>, i: nat)
    requires OwnsEach(nodes, texts, ts) && i <= |ts|
    ensures PtrAt(Roots(ts), i) == 0 <==> i == |ts|
  {
    if i < |ts| {
      assert Owns(nodes, texts, ts[i]);
    }
  }

  lemma NextInChain(nodes: Nodes, texts: Texts, ts: seq<Tree>, i: nat)
    requires OwnsEach(nodes, texts, ts) && Chained(nodes, ts) && i < |ts|
    ensures ts[i].ptr in nodes && nodes[ts[i].ptr].next == PtrAt(Roots(ts), i + 1)
    ensures PtrAt(Roots(ts), i) == ts[i].ptr
    ensures PtrAt(Roots(ts), i + 1) == 0 <==> i + 1 == |ts|
  {
    assert ChainedAt(nodes, ts, i);
    HeadOf(nodes, texts, ts, i + 1);
  }

  /** What a tree owns is allocated. */
  lemma {:induction false} OwnedExists(nodes: Nodes, texts: Texts, t: Tree)
    requires Owns(nodes, texts, t)
    ensures Ptrs(t) <= nodes.Keys && TextsOf(nodes, t) <= texts.Keys
    decreases t, 0
  {
    if nodes[t.ptr].isReference {
      NoChildren(nodes, nodes);
      NothingBelow();
    } else {
      AllOwnedExist(nodes, texts, t.children);
    }
  }

  lemma {:induction false} AllOwnedExist(nodes: Nodes, texts: Texts, ts: seq<Tree>)
    requires OwnsEach(nodes, texts, ts)
    ensures AllPtrs(ts) <= nodes.Keys && AllTextsOf(nodes, ts) <= texts.Keys
    decreases ts, 1
  {
    hide Owns, TextsOf, Ptrs;
    if ts != [] {
      OwnedExists(nodes, texts, ts[|ts| - 1]);
      AllOwnedExist(nodes, texts, ts[..|ts| - 1]);
    }
  }
}
