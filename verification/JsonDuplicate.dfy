/** The recursive copy of a tree: it says the same and shares nothing. */
module JsonDuplicates {
  import opened Bytes
  import opened JsonValue
  import opened JsonHeaps
  import opened JsonTrees
  import opened JsonViews
  import JsonCompare

  /** `d` in the heap `n1`, `t1` is a copy of `t` in the heap `n0`, `t0`, made of nothing that was there. */
  ghost predicate IsCopy(n0: Nodes, t0: Texts, n1: Nodes, t1: Texts, t: Tree, d: Tree) {
    && Shows(n1, t1, d) && Owns(n1, t1, d) && Separate(n1, d)
    && Ptrs(d) !! n0.Keys && TextsOf(n1, d) !! t0.Keys
    && JsonOf(n1, t1, d) == JsonOf(n0, t0, t)
    && KeyOf(n1, t1, d.ptr) == KeyOf(n0, t0, t.ptr)
  }

  /** A copy of a node, without children yet. */
  ghost predicate IsNodeCopy(n0: Nodes, t0: Texts, t1: Texts, node: Node, c: Node) {
    && c.next == 0 && c.prev == 0 && c.child == 0 && !c.isReference
    && c.kind == node.kind && c.value == node.value && c.keyIsConst == node.keyIsConst
    && Readable(t1, c)
    && TextAt(t1, c.valuestring) == TextAt(t0, node.valuestring)
    && TextAt(t1, c.key) == TextAt(t0, node.key)
    && OwnTexts(c) !! t0.Keys
    && (c.valuestring != 0 && !c.keyIsConst ==> c.valuestring != c.key)
  }

  method CopyNode(h: Heap, item: Ptr) returns (p: Ptr)
    requires h.Valid() && item in h.nodes && Readable(h.texts, h.nodes[item])
    modifies h
    ensures h.Valid() && Extends(old(h.nodes), old(h.texts), h.nodes, h.texts)
    ensures p != 0 && p !in old(h.nodes) && h.nodes.Keys == old(h.nodes).Keys + {p}
    ensures IsNodeCopy(old(h.nodes), old(h.texts), h.texts, old(h.nodes)[item], h.nodes[p])
  {
    var node := h.nodes[item];
    p := h.NewItem(node.kind);
    var c := h.nodes[p].(value := node.value, keyIsConst := node.keyIsConst);
    if node.valuestring != 0 {
      var s := h.Strdup(h.texts[node.valuestring]);
      c := c.(valuestring := s);
    }
    if node.key != 0 {
      if node.keyIsConst {
        c := c.(key := node.key);
      } else {
        var k := h.Strdup(h.texts[node.key]);
        c := c.(key := k);
      }
    }
    h.nodes := h.nodes[p := c];
  }

  // ---------- the copies made so far ----------

  /** The new node `p` has copies of the first children. */
  ghost predicate Building(n0: Nodes, t0: Texts, n1: Nodes, t1: Texts, p: Ptr, c: Node, ts: seq<Tree>,
                           copies: seq<Tree>) {
    && Extends(n0, t0, n1, t1)
    && p != 0 && p !in n0 && p in n1 && p !in AllPtrs(copies)
    && n1[p] == c.(child := PtrAt(Roots(copies), 0))
    && Linked(n1, Roots(copies))
    && ShowsEach(n1, t1, copies) && OwnsEach(n1, t1, copies) && SeparateAll(n1, copies)
    && AllPtrs(copies) !! n0.Keys
    && AllTextsOf(n1, copies) !! t0.Keys && AllTextsOf(n1, copies) !! OwnTexts(c)
    && (forall s <- OwnTexts(c) :: s in t1)
    && |copies| <= |ts|
    && ItemsOf(n1, t1, copies) == ItemsOf(n0, t0, ts[..|copies|])
    && MembersOf(n1, t1, copies) == MembersOf(n0, t0, ts[..|copies|])
  }

  // ---------- one more child ----------

  /** The heap after the new child is linked in. */
  function LinkedIn(n: Nodes, p: Ptr, copies: seq<Tree>, d: Ptr): Nodes
    requires p in n && d in n && (copies != [] ==> copies[|copies| - 1].ptr in n)
  {
    if copies == [] then n[p := n[p].(child := d)]
    else
      var last := copies[|copies| - 1].ptr;
      var m := n[last := n[last].(next := d)];
      m[d := m[d].(prev := last)]
  }

  /** A copy `d` was made of the next child, in the heap `n2`, `t2`, and linked in. */
  ghost predicate Grown(n0: Nodes, t0: Texts, n1: Nodes, t1: Texts, n2: Nodes, t2: Texts, n3: Nodes,
                        p: Ptr, c: Node, ts: seq<Tree>, copies: seq<Tree>, d: Tree) {
    && Building(n0, t0, n1, t1, p, c, ts, copies) && |copies| < |ts|
    && Extends(n1, t1, n2, t2)
    && IsCopy(n1, t1, n2, t2, ts[|copies|], d) && Loose(n2, d.ptr)
    && JsonOf(n1, t1, ts[|copies|]) == JsonOf(n0, t0, ts[|copies|])
    && KeyOf(n1, t1, ts[|copies|].ptr) == KeyOf(n0, t0, ts[|copies|].ptr)
    && p in n2 && (copies != [] ==> copies[|copies| - 1].ptr in n2)
    && n3 == LinkedIn(n2, p, copies, d.ptr)
  }

  lemma CopiesExist(n0: Nodes, t0: Texts, n1: Nodes, t1: Texts, p: Ptr, c: Node, ts: seq<Tree>, copies: seq<Tree>)
    requires Building(n0, t0, n1, t1, p, c, ts, copies)
    ensures AllPtrs(copies) <= n1.Keys && AllTextsOf(n1, copies) <= t1.Keys
    ensures copies != [] ==> copies[|copies| - 1].ptr in n1
    ensures forall i :: 0 <= i < |copies| ==> copies[i].ptr in n1 && copies[i].ptr != p
  {
    AllOwnedExist(n1, t1, copies);
    forall i | 0 <= i < |copies| ensures copies[i].ptr in n1 && copies[i].ptr != p {
      RootNotBelow(n1, copies, i, i);
    }
  }

  /** Linking the new child in touches the new node, the last child and the new one, all outside `n0`. */
  lemma GrownOutside(n0: Nodes, t0: Texts, n1: Nodes, t1: Texts, n2: Nodes, t2: Texts, n3: Nodes,
                     p: Ptr, c: Node, ts: seq<Tree>, copies: seq<Tree>, d: Tree)
    requires Grown(n0, t0, n1, t1, n2, t2, n3, p, c, ts, copies, d)
    ensures Extends(n0, t0, n3, t2)
    ensures n3[p] == c.(child := if copies == [] then d.ptr else PtrAt(Roots(copies), 0))
    ensures d.ptr !in n1 && d.ptr != p
  {
    CopiesExist(n0, t0, n1, t1, p, c, ts, copies);
    assert d.ptr in Ptrs(d);
    if copies != [] {
      RootNotBelow(n1, copies, |copies| - 1, |copies| - 1);
    }
    hide Shows, ShowsEach, Owns, OwnsEach, Separate, SeparateAll, JsonOf, ItemsOf, MembersOf, AllTextsOf, TextsOf,
         Linked, KeyOf, AllPtrs, Ptrs;
  }

  /** No tree is touched below its root. */
  lemma GrownKeepsTree(n0: Nodes, t0: Texts, n1: Nodes, t1: Texts, n2: Nodes, t2: Texts, n3: Nodes,
                       p: Ptr, c: Node, ts: seq<Tree>, copies: seq<Tree>, d: Tree, i: nat)
    requires Grown(n0, t0, n1, t1, n2, t2, n3, p, c, ts, copies, d) && i < |copies|
    ensures SameTree(n1, n3, copies[i])
  {
    CopiesExist(n0, t0, n1, t1, p, c, ts, copies);
    assert d.ptr in Ptrs(d);
    RootNotBelow(n1, copies, i, i);
    RootNotBelow(n1, copies, |copies| - 1, i);
    assert p !in AllPtrs(copies[i].children);
    hide Shows, ShowsEach, Owns, OwnsEach, Separate, SeparateAll, JsonOf, ItemsOf, MembersOf, AllTextsOf, TextsOf,
         Linked, KeyOf, AllPtrs, Ptrs;
  }

  lemma GrownKeepsNew(n0: Nodes, t0: Texts, n1: Nodes, t1: Texts, n2: Nodes, t2: Texts, n3: Nodes,
                      p: Ptr, c: Node, ts: seq<Tree>, copies: seq<Tree>, d: Tree)
    requires Grown(n0, t0, n1, t1, n2, t2, n3, p, c, ts, copies, d)
    ensures SameTree(n2, n3, d)
  {
    CopiesExist(n0, t0, n1, t1, p, c, ts, copies);
    assert d.ptr in Ptrs(d) && AllPtrs(d.children) <= Ptrs(d) && d.ptr !in AllPtrs(d.children);
    hide Shows, ShowsEach, Owns, OwnsEach, Separate, SeparateAll, JsonOf, ItemsOf, MembersOf, AllTextsOf, TextsOf,
         Linked, KeyOf, AllPtrs, Ptrs;
  }

  lemma GrownIsLinked(n0: Nodes, t0: Texts, n1: Nodes, t1: Texts, n2: Nodes, t2: Texts, n3: Nodes,
                      p: Ptr, c: Node, ts: seq<Tree>, copies: seq<Tree>, d: Tree)
    requires Grown(n0, t0, n1, t1, n2, t2, n3, p, c, ts, copies, d)
    ensures Linked(n3, Roots(copies + [d]))
    ensures PtrAt(Roots(copies + [d]), 0) == if copies == [] then d.ptr else PtrAt(Roots(copies), 0)
  {
    CopiesExist(n0, t0, n1, t1, p, c, ts, copies);
    RootsAdded(copies, d);
    var ptrs := Roots(copies);
    assert d.ptr in Ptrs(d);
    assert d.ptr !in n1;
    hide Shows, ShowsEach, Owns, OwnsEach, Separate, SeparateAll, JsonOf, ItemsOf, MembersOf, AllTextsOf, TextsOf,
         KeyOf, AllPtrs, Ptrs, Linked;
    assert IsList(n1, p, ptrs);
    IsListFrame(n1, n2, p, ptrs);
    LooseHangs(n2, d.ptr);
    if copies == [] {
      LinkFirst(n2, n3, ptrs, [d.ptr], p);
    } else {
      LinkAppended(n2, n3, ptrs, [d.ptr], p);
    }
  }

  /** The copies and the new one have nothing in common. */
  lemma GrownIsSeparate(n0: Nodes, t0: Texts, n1: Nodes, t1: Texts, n2: Nodes, t2: Texts, n3: Nodes,
                        p: Ptr, c: Node, ts: seq<Tree>, copies: seq<Tree>, d: Tree)
    requires Grown(n0, t0, n1, t1, n2, t2, n3, p, c, ts, copies, d)
    ensures AllPtrs(copies) !! Ptrs(d) && AllTextsOf(n1, copies) !! TextsOf(n2, d)
    ensures Ptrs(d) !! n0.Keys && p !in Ptrs(d)
    ensures TextsOf(n2, d) !! t0.Keys && TextsOf(n2, d) !! OwnTexts(c)
    ensures forall s <- OwnTexts(c) :: s in t2
    ensures forall s <- AllTextsOf(n1, copies) :: s in t2
  {
    CopiesExist(n0, t0, n1, t1, p, c, ts, copies);
    hide Shows, ShowsEach, Owns, OwnsEach, Separate, SeparateAll, JsonOf, ItemsOf, MembersOf, AllTextsOf, TextsOf,
         Linked, KeyOf, AllPtrs, Ptrs;
  }

  /** The trees, old and new, in the heap they are linked in. */
  lemma GrownTrees(n0: Nodes, t0: Texts, n1: Nodes, t1: Texts, n2: Nodes, t2: Texts, n3: Nodes,
                   p: Ptr, c: Node, ts: seq<Tree>, copies: seq<Tree>, d: Tree)
    requires Grown(n0, t0, n1, t1, n2, t2, n3, p, c, ts, copies, d)
    ensures ShowsEach(n3, t2, copies) && OwnsEach(n3, t2, copies) && SeparateAll(n3, copies)
    ensures AllTextsOf(n3, copies) == AllTextsOf(n1, copies)
    ensures ItemsOf(n3, t2, copies) == ItemsOf(n0, t0, ts[..|copies|])
    ensures MembersOf(n3, t2, copies) == MembersOf(n0, t0, ts[..|copies|])
    ensures Shows(n3, t2, d) && Owns(n3, t2, d) && Separate(n3, d) && TextsOf(n3, d) == TextsOf(n2, d)
    ensures JsonOf(n3, t2, d) == JsonOf(n0, t0, ts[|copies|])
    ensures KeyOf(n3, t2, d.ptr) == KeyOf(n0, t0, ts[|copies|].ptr)
  {
    forall i | 0 <= i < |copies| ensures SameTree(n1, n3, copies[i]) {
      GrownKeepsTree(n0, t0, n1, t1, n2, t2, n3, p, c, ts, copies, d, i);
    }
    GrownKeepsNew(n0, t0, n1, t1, n2, t2, n3, p, c, ts, copies, d);
    GrownIsSeparate(n0, t0, n1, t1, n2, t2, n3, p, c, ts, copies, d);
    OwnedExists(n2, t2, d);
    hide Shows, ShowsEach, Owns, OwnsEach, Separate, SeparateAll, JsonOf, ItemsOf, MembersOf, AllTextsOf, TextsOf,
         Linked, KeyOf, AllPtrs, Ptrs, LinkedIn;
    EachRelinked(n1, t1, n3, t2, copies);
    ShowsFrame(n2, t2, n3, t2, d);
    OwnsRelinked(n2, t2, n3, t2, d);
  }

  lemma BuiltBefore(n0: Nodes, t0: Texts, n1: Nodes, t1: Texts, n2: Nodes, t2: Texts, n3: Nodes,
                    p: Ptr, c: Node, ts: seq<Tree>, copies: seq<Tree>, d: Tree)
    requires Grown(n0, t0, n1, t1, n2, t2, n3, p, c, ts, copies, d)
    ensures |copies| < |ts| && p != 0 && p !in n0 && p in n3 && p !in AllPtrs(copies)
    ensures AllPtrs(copies) !! n0.Keys
    ensures AllTextsOf(n1, copies) !! t0.Keys && AllTextsOf(n1, copies) !! OwnTexts(c)
  {
    hide Shows, ShowsEach, Owns, OwnsEach, Separate, SeparateAll, JsonOf, ItemsOf, MembersOf, TextsOf, Linked,
         KeyOf, Ptrs;
  }

  lemma Grows(n0: Nodes, t0: Texts, n1: Nodes, t1: Texts, n2: Nodes, t2: Texts, n3: Nodes,
              p: Ptr, c: Node, ts: seq<Tree>, copies: seq<Tree>, d: Tree)
    requires Grown(n0, t0, n1, t1, n2, t2, n3, p, c, ts, copies, d)
    ensures Building(n0, t0, n3, t2, p, c, ts, copies + [d])
  {
    hide Grown, OwnTexts, Shows, ShowsEach, Owns, OwnsEach, Separate, SeparateAll, JsonOf, ItemsOf, MembersOf,
         AllTextsOf, TextsOf, Linked, KeyOf, AllPtrs, Ptrs, LinkedIn, Extends, PtrAt;
    GrownOutside(n0, t0, n1, t1, n2, t2, n3, p, c, ts, copies, d);
    GrownIsLinked(n0, t0, n1, t1, n2, t2, n3, p, c, ts, copies, d);
    GrownIsSeparate(n0, t0, n1, t1, n2, t2, n3, p, c, ts, copies, d);
    GrownTrees(n0, t0, n1, t1, n2, t2, n3, p, c, ts, copies, d);
    BuiltBefore(n0, t0, n1, t1, n2, t2, n3, p, c, ts, copies, d);
    AllTextsAdded(n3, t2, copies, d);
    var i := |copies|;
    AllTextsAdded(n0, t0, ts[..i], ts[i]);
    assert ts[..i + 1] == ts[..i] + [ts[i]];
  }

  // ---------- the copy ----------

  lemma NothingCopied(n0: Nodes, t0: Texts, n1: Nodes, t1: Texts, p: Ptr, node: Node, ts: seq<Tree>)
    requires Extends(n0, t0, n1, t1) && p != 0 && p !in n0 && p in n1 && IsNodeCopy(n0, t0, t1, node, n1[p])
    ensures Building(n0, t0, n1, t1, p, n1[p], ts, [])
  {
    assert ts[..0] == [];
  }

  lemma AllCopied(n0: Nodes, t0: Texts, n1: Nodes, t1: Texts, p: Ptr, c: Node, t: Tree, copies: seq<Tree>)
    requires Shows(n0, t0, t) && Building(n0, t0, n1, t1, p, c, t.children, copies) && |copies| == |t.children|
    requires IsNodeCopy(n0, t0, t1, n0[t.ptr], c)
    ensures IsCopy(n0, t0, n1, t1, t, Tree(p, copies)) && Loose(n1, p)
  {
    var d := Tree(p, copies);
    assert t.children[..|copies|] == t.children;
    ChainedWhenLinked(n1, copies);
    hide ShowsEach, OwnsEach, SeparateAll, ItemsOf, MembersOf, AllTextsOf, Linked, AllPtrs, PtrAt, Chained;
    assert n1[p].kind == n0[t.ptr].kind;
  }

  lemma BuildingExtends(n0: Nodes, t0: Texts, n1: Nodes, t1: Texts, p: Ptr, c: Node, ts: seq<Tree>, copies: seq<Tree>)
    requires Building(n0, t0, n1, t1, p, c, ts, copies)
    ensures Extends(n0, t0, n1, t1) && p in n1
    ensures copies != [] ==> copies[|copies| - 1].ptr in n1 && copies[|copies| - 1].ptr != p
  {
    CopiesExist(n0, t0, n1, t1, p, c, ts, copies);
  }

  lemma NodeCopyLasts(n0: Nodes, t0: Texts, t1: Texts, t2: Texts, node: Node, c: Node)
    requires IsNodeCopy(n0, t0, t1, node, c) && SameTexts(t1, t2)
    ensures IsNodeCopy(n0, t0, t2, node, c)
  {
  }

  lemma ChildStillShown(n0: Nodes, t0: Texts, n1: Nodes, t1: Texts, t: Tree, i: nat)
    requires Shows(n0, t0, t) && i < |t.children| && Extends(n0, t0, n1, t1)
    ensures var child := t.children[i];
            Shows(n1, t1, child) && JsonOf(n1, t1, child) == JsonOf(n0, t0, child)
            && KeyOf(n1, t1, child.ptr) == KeyOf(n0, t0, child.ptr)
  {
    ShowsFrame(n0, t0, n1, t1, t.children[i]);
  }

  lemma AtIndex(ts: seq<Tree>, i: nat)
    requires i < |ts|
    ensures PtrAt(Roots(ts), i) == ts[i].ptr
  {
  }

  /** The recursive copy. */
  method Duplicate(h: Heap, item: Ptr, ghost t: Tree) returns (p: Ptr, ghost d: Tree)
    requires h.Valid() && item == t.ptr && Shows(h.nodes, h.texts, t)
    modifies h
    ensures h.Valid() && Extends(old(h.nodes), old(h.texts), h.nodes, h.texts)
    ensures p == d.ptr && Loose(h.nodes, p)
    ensures IsCopy(old(h.nodes), old(h.texts), h.nodes, h.texts, t, d)
    decreases t
  {
    hide Building, IsCopy, IsNodeCopy, Linked, JsonOf, ShowsEach, AllPtrs, PtrAt, KeyOf, Readable, Roots;
    ghost var n0, t0 := h.nodes, h.texts;
    ghost var ts := t.children;
    p := CopyNode(h, item);
    ghost var c := h.nodes[p];
    NothingCopied(n0, t0, h.nodes, h.texts, p, n0[item], ts);
    var child := h.nodes[item].child;
    var last := 0;
    ghost var copies: seq<Tree> := [];
    ItemOf(n0, Roots(ts), 0);
    while child != 0
      invariant h.Valid() && |copies| <= |ts|
      invariant child == PtrAt(Roots(ts), |copies|) && (child == 0 <==> |copies| == |ts|)
      invariant last == (if copies == [] then 0 else copies[|copies| - 1].ptr) && (last == 0 <==> copies == [])
      invariant Building(n0, t0, h.nodes, h.texts, p, c, ts, copies)
      invariant IsNodeCopy(n0, t0, h.texts, n0[item], c)
      decreases |ts| - |copies|
    {
      ghost var i := |copies|;
      ghost var n1, t1 := h.nodes, h.texts;
      NextOf(n0, Roots(ts), i);
      ItemOf(n0, Roots(ts), i + 1);
      BuildingExtends(n0, t0, n1, t1, p, c, ts, copies);
      ChildStillShown(n0, t0, n1, t1, t, i);
      AtIndex(ts, i);
      ghost var e;
      var newchild;
      newchild, e := Duplicate(h, child, ts[i]);
      ghost var n2, t2 := h.nodes, h.texts;
      if last != 0 {
        h.SetNext(last, newchild);
        h.SetPrev(newchild, last);
      } else {
        h.SetChild(p, newchild);
      }
      assert Grown(n0, t0, n1, t1, n2, t2, h.nodes, p, c, ts, copies, e);
      Grows(n0, t0, n1, t1, n2, t2, h.nodes, p, c, ts, copies, e);
      NodeCopyLasts(n0, t0, t1, t2, n0[item], c);
      copies := copies + [e];
      BuildingExtends(n0, t0, h.nodes, h.texts, p, c, ts, copies);
      last := newchild;
      child := h.nodes[child].next;
    }
    d := Tree(p, copies);
    AllCopied(n0, t0, h.nodes, h.texts, p, c, t, copies);
    BuildingExtends(n0, t0, h.nodes, h.texts, p, c, ts, copies);
  }

  /**
   A copy compares equal to its original exactly when the original compares equal to itself, and every
   tree whose objects have distinct keys does.
   */
  lemma CopyComparesEqual(n0: Nodes, t0: Texts, n1: Nodes, t1: Texts, t: Tree, d: Tree, cs: bool)
    requires IsCopy(n0, t0, n1, t1, t, d)
    ensures var v := JsonOf(n0, t0, t);
            (JsonCompare.Compare(JsonOf(n1, t1, d), v, cs) <==> JsonCompare.Coherent(v, cs))
            && (JsonCompare.DistinctKeys(v, cs) ==> JsonCompare.Compare(JsonOf(n1, t1, d), v, cs))
  {
    hide Shows, Owns, Separate, JsonOf, JsonCompare.Compare;
    var v := JsonOf(n0, t0, t);
    JsonCompare.CopyComparesEqual(v, cs);
    if JsonCompare.DistinctKeys(v, cs) {
      JsonCompare.DistinctIsCoherent(v, cs);
    }
  }
}
