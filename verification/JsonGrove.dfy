/**
 What the parser builds while it reads: a list of finished trees that holds everything allocated since it
 was begun, so that deleting the list gives the heap back as it was.
 */
module JsonGroves {
  import opened Bytes
  import opened JsonValue
  import opened JsonHeaps
  import opened JsonTrees
  import opened JsonViews

  /** The trees are linked, whole and apart, and are all that the heap has gained. */
  ghost predicate Grove(n0: Nodes, t0: Texts, n1: Nodes, t1: Texts, ts: seq<Tree>) {
    && Extends(n0, t0, n1, t1)
    && Linked(n1, Roots(ts)) && ShowsEach(n1, t1, ts) && OwnsEach(n1, t1, ts) && SeparateAll(n1, ts)
    && AllPtrs(ts) !! n0.Keys && n1.Keys == n0.Keys + AllPtrs(ts)
    && AllTextsOf(n1, ts) !! t0.Keys && t1.Keys == t0.Keys + AllTextsOf(n1, ts)
  }

  lemma NothingGrown(n0: Nodes, t0: Texts)
    ensures Grove(n0, t0, n0, t0, [])
    ensures ItemsOf(n0, t0, []) == [] && MembersOf(n0, t0, []) == []
  {
  }

  /** A grove put together from a list and one tree more. */
  lemma GroveSnoc(n0: Nodes, t0: Texts, n1: Nodes, t1: Texts, ts: seq<Tree>, t: Tree)
    requires Extends(n0, t0, n1, t1) && Linked(n1, Roots(ts) + [t.ptr])
    requires ShowsEach(n1, t1, ts) && OwnsEach(n1, t1, ts) && SeparateAll(n1, ts)
    requires Shows(n1, t1, t) && Owns(n1, t1, t) && Separate(n1, t)
    requires AllPtrs(ts) !! Ptrs(t) && AllPtrs(ts) !! n0.Keys && Ptrs(t) !! n0.Keys
    requires n1.Keys == n0.Keys + AllPtrs(ts) + Ptrs(t)
    requires AllTextsOf(n1, ts) !! TextsOf(n1, t) && AllTextsOf(n1, ts) !! t0.Keys && TextsOf(n1, t) !! t0.Keys
    requires t1.Keys == t0.Keys + AllTextsOf(n1, ts) + TextsOf(n1, t)
    ensures Grove(n0, t0, n1, t1, ts + [t])
    ensures ItemsOf(n1, t1, ts + [t]) == ItemsOf(n1, t1, ts) + [JsonOf(n1, t1, t)]
    ensures MembersOf(n1, t1, ts + [t]) == MembersOf(n1, t1, ts) + [Member(KeyOf(n1, t1, t.ptr), JsonOf(n1, t1, t))]
  {
    hide Shows, ShowsEach, Owns, OwnsEach, Separate, SeparateAll, Linked, AllPtrs, AllTextsOf, Ptrs, TextsOf, Roots,
         ItemsOf, MembersOf, Extends, JsonOf, KeyOf;
    AllTextsAdded(n1, t1, ts, t);
    RootsAdded(ts, t);
  }

  /** Without the trees the heap is what it was. */
  lemma GroveCleared(n0: Nodes, t0: Texts, n1: Nodes, t1: Texts, ts: seq<Tree>)
    requires Grove(n0, t0, n1, t1, ts)
    ensures n1 - AllPtrs(ts) == n0 && t1 - AllTextsOf(n1, ts) == t0
    ensures OwnsEach(n1, t1, ts) && Chained(n1, ts) && SeparateAll(n1, ts)
  {
    ChainedWhenLinked(n1, ts);
    hide Linked, ShowsEach, OwnsEach, SeparateAll, AllPtrs, AllTextsOf, Chained;
    assert n1 - AllPtrs(ts) == n0;
    assert t1 - AllTextsOf(n1, ts) == t0;
  }

  // ---------- an empty node at the end ----------

  /** The heap after `c` is linked in behind the trees. */
  function LinkedBehind(n: Nodes, ts: seq<Tree>, c: Ptr): Nodes
    requires c in n && (ts != [] ==> ts[|ts| - 1].ptr in n)
  {
    if ts == [] then n
    else
      var last := ts[|ts| - 1].ptr;
      var m := n[last := n[last].(next := c)];
      m[c := m[c].(prev := last)]
  }

  lemma LinkedSnoc(n0: Nodes, n1: Nodes, ts: seq<Tree>, c: Ptr)
    requires Linked(n0, Roots(ts)) && Loose(n0, c) && c !in Roots(ts)
    requires (ts != [] ==> ts[|ts| - 1].ptr in n0) && n1 == LinkedBehind(n0, ts, c)
    ensures Linked(n1, Roots(ts) + [c])
  {
    var ptrs := Roots(ts);
    var all := ptrs + [c];
    forall i | 0 <= i < |all| ensures LinkedAt(n1, all, i) {
      if i < |ptrs| {
        assert LinkedAt(n0, ptrs, i) && ptrs[i] in ptrs;
      }
    }
  }

  /** A new node, with nothing in it and no links. */
  ghost predicate IsLeaf(n: Nodes, c: Ptr) {
    Loose(n, c) && n[c].child == 0 && n[c].valuestring == 0 && n[c].key == 0
  }

  lemma GroveExists(n0: Nodes, t0: Texts, n1: Nodes, t1: Texts, ts: seq<Tree>)
    requires Grove(n0, t0, n1, t1, ts)
    ensures forall i :: 0 <= i < |ts| ==> ts[i].ptr in n1 && ts[i].ptr in AllPtrs(ts) && ts[i].ptr != 0
    ensures forall p <- Roots(ts) :: p in AllPtrs(ts)
  {
    forall i | 0 <= i < |ts| ensures ts[i].ptr in n1 && ts[i].ptr in AllPtrs(ts) && ts[i].ptr != 0 {
      assert Owns(n1, t1, ts[i]);
      RootNotBelow(n1, ts, i, i);
    }
  }

  lemma LeafTree(n: Nodes, t: Texts, c: Ptr)
    requires c in n && c != 0 && n[c].child == 0 && n[c].valuestring == 0 && n[c].key == 0
    ensures var leaf := Tree(c, []);
            Shows(n, t, leaf) && Owns(n, t, leaf) && Separate(n, leaf) && Ptrs(leaf) == {c} && TextsOf(n, leaf) == {}
  {
  }

  /** The trees are as they were when a node is linked in behind the last one. */
  lemma TreesBehind(n0: Nodes, t0: Texts, n1: Nodes, t1: Texts, n2: Nodes, ts: seq<Tree>, c: Ptr, i: nat)
    requires Grove(n0, t0, n1, t1, ts) && i < |ts| && c !in n1
    requires c in n2 && (forall p <- n1 :: p in n2 && n2[p] == n1[p])
    requires ts[|ts| - 1].ptr in n2
    ensures SameTree(n1, LinkedBehind(n2, ts, c), ts[i])
  {
    GroveExists(n0, t0, n1, t1, ts);
    RootNotBelow(n1, ts, i, i);
    RootNotBelow(n1, ts, |ts| - 1, i);
    hide Linked, ShowsEach, OwnsEach, SeparateAll, AllPtrs, AllTextsOf;
  }

  /** A fresh node `c` and nothing else came to the heap. */
  ghost predicate OneMore(n1: Nodes, n2: Nodes, ts: seq<Tree>, c: Ptr) {
    && c !in n1 && n2.Keys == n1.Keys + {c} && (forall p <- n1 :: n2[p] == n1[p]) && IsLeaf(n2, c)
    && (ts != [] ==> ts[|ts| - 1].ptr in n2)
  }

  lemma TreesWithLeaf(n0: Nodes, t0: Texts, n1: Nodes, t1: Texts, n2: Nodes, ts: seq<Tree>, c: Ptr)
    requires Grove(n0, t0, n1, t1, ts) && OneMore(n1, n2, ts, c)
    ensures var n3 := LinkedBehind(n2, ts, c);
            ShowsEach(n3, t1, ts) && OwnsEach(n3, t1, ts) && SeparateAll(n3, ts)
            && AllTextsOf(n3, ts) == AllTextsOf(n1, ts)
            && ItemsOf(n3, t1, ts) == ItemsOf(n1, t1, ts) && MembersOf(n3, t1, ts) == MembersOf(n1, t1, ts)
  {
    var n3 := LinkedBehind(n2, ts, c);
    forall i | 0 <= i < |ts| ensures SameTree(n1, n3, ts[i]) {
      TreesBehind(n0, t0, n1, t1, n2, ts, c, i);
    }
    hide LinkedBehind, SameTree, Linked, AllPtrs, ShowsEach, OwnsEach, SeparateAll, AllTextsOf;
    EachRelinked(n1, t1, n3, t1, ts);
  }

  lemma HeapWithLeaf(n0: Nodes, t0: Texts, n1: Nodes, t1: Texts, n2: Nodes, ts: seq<Tree>, c: Ptr)
    requires Grove(n0, t0, n1, t1, ts) && OneMore(n1, n2, ts, c)
    ensures var n3 := LinkedBehind(n2, ts, c);
            Extends(n0, t0, n3, t1) && n3.Keys == n1.Keys + {c} && c !in n0 && c !in AllPtrs(ts)
            && n3[c].child == 0 && n3[c].valuestring == 0 && n3[c].key == 0 && c != 0
  {
    GroveExists(n0, t0, n1, t1, ts);
    hide Linked, AllPtrs, ShowsEach, OwnsEach, SeparateAll, AllTextsOf;
  }

  /** A leaf joins the list. */
  lemma LeafAdded(n0: Nodes, t0: Texts, n1: Nodes, t1: Texts, n2: Nodes, ts: seq<Tree>, c: Ptr)
    requires Grove(n0, t0, n1, t1, ts) && OneMore(n1, n2, ts, c)
    ensures var n3 := LinkedBehind(n2, ts, c);
            Grove(n0, t0, n3, t1, ts + [Tree(c, [])])
            && ItemsOf(n3, t1, ts) == ItemsOf(n1, t1, ts) && MembersOf(n3, t1, ts) == MembersOf(n1, t1, ts)
  {
    LinksBehind(n1, n2, LinkedBehind(n2, ts, c), ts, c);
    hide LinkedBehind, Shows, ShowsEach, Owns, OwnsEach, Separate, SeparateAll, Linked, AllPtrs, AllTextsOf, Ptrs,
         TextsOf, Roots, ItemsOf, MembersOf, Extends, OneMore;
    var n3 := LinkedBehind(n2, ts, c);
    var leaf := Tree(c, []);
    TreesWithLeaf(n0, t0, n1, t1, n2, ts, c);
    HeapWithLeaf(n0, t0, n1, t1, n2, ts, c);
    LeafTree(n3, t1, c);
    GroveHeap(n0, t0, n1, t1, ts);
    hide Grove;
    GroveSnoc(n0, t0, n3, t1, ts, leaf);
  }

  lemma GroveHeap(n0: Nodes, t0: Texts, n1: Nodes, t1: Texts, ts: seq<Tree>)
    requires Grove(n0, t0, n1, t1, ts)
    ensures AllPtrs(ts) !! n0.Keys && n1.Keys == n0.Keys + AllPtrs(ts)
    ensures AllTextsOf(n1, ts) !! t0.Keys && t1.Keys == t0.Keys + AllTextsOf(n1, ts)
  {
  }

  lemma LinksBehind(n1: Nodes, n2: Nodes, n3: Nodes, ts: seq<Tree>, c: Ptr)
    requires Linked(n1, Roots(ts)) && c !in n1 && IsLeaf(n2, c)
    requires n2.Keys == n1.Keys + {c} && (forall p <- n1 :: n2[p] == n1[p])
    requires (ts != [] ==> ts[|ts| - 1].ptr in n2) && n3 == LinkedBehind(n2, ts, c)
    ensures Linked(n3, Roots(ts) + [c])
  {
    forall i | 0 <= i < |ts| ensures LinkedAt(n2, Roots(ts), i) && Roots(ts)[i] != c {
      assert LinkedAt(n1, Roots(ts), i);
    }
    LinkedSnoc(n2, n3, ts, c);
  }

  // ---------- a node filled with a value ----------

  /** A node that has no value yet; it may have its key. */
  predicate Blank(nodes: Nodes, texts: Texts, p: Ptr) {
    && p != 0 && p in nodes && nodes[p].child == 0 && nodes[p].valuestring == 0
    && !nodes[p].isReference && !nodes[p].keyIsConst && (nodes[p].key != 0 ==> nodes[p].key in texts)
  }

  /** The place and the key of a node. */
  predicate SamePlace(a: Node, b: Node) {
    a.next == b.next && a.prev == b.prev && a.key == b.key && a.keyIsConst == b.keyIsConst
    && a.isReference == b.isReference
  }

  /**
   The blank node at the root of `t` got its value: the tree is whole, its children and its strings are all
   that the heap has gained, and nothing but the node itself was changed.
   */
  ghost predicate Filled(n0: Nodes, t0: Texts, n1: Nodes, t1: Texts, t: Tree) {
    && Blank(n0, t0, t.ptr)
    && t.ptr in n1 && SamePlace(n1[t.ptr], n0[t.ptr])
    && (forall p <- n0 :: p != t.ptr ==> p in n1 && n1[p] == n0[p])
    && SameTexts(t0, t1)
    && Shows(n1, t1, t) && Owns(n1, t1, t) && Separate(n1, t)
    && AllPtrs(t.children) !! n0.Keys && n1.Keys == n0.Keys + AllPtrs(t.children)
    && TextsOf(n1, t) - OwnTexts(n0[t.ptr]) !! t0.Keys && t1.Keys == t0.Keys + TextsOf(n1, t)
  }

  /** A node without children. */
  lemma Childless(n: Nodes, t: Texts, p: Ptr)
    requires p != 0 && p in n && n[p].child == 0 && !n[p].isReference && Readable(t, n[p])
    requires n[p].valuestring != 0 && !n[p].keyIsConst ==> n[p].valuestring != n[p].key
    ensures var leaf := Tree(p, []);
            Shows(n, t, leaf) && Owns(n, t, leaf) && Separate(n, leaf)
            && AllPtrs([]) == {} && TextsOf(n, leaf) == OwnTexts(n[p])
  {
  }

  /** A value without children: a word or a number, or a string that was just allocated. */
  lemma FilledScalar(n0: Nodes, t0: Texts, n1: Nodes, t1: Texts, p: Ptr, v: Node)
    requires Blank(n0, t0, p) && n1 == n0[p := v] && SamePlace(v, n0[p]) && v.child == 0
    requires if v.valuestring == 0 then t1 == t0
             else v.valuestring !in t0 && v.valuestring in t1 && t1 == t0[v.valuestring := t1[v.valuestring]]
    ensures Filled(n0, t0, n1, t1, Tree(p, []))
  {
    Childless(n1, t1, p);
  }

  /** The members of a list are as they were when the list is hung under a node of its own. */
  lemma TreesUnder(n0: Nodes, t0: Texts, n1: Nodes, t1: Texts, n2: Nodes, p: Ptr, v: Node, ts: seq<Tree>)
    requires Grove(n0, t0, n1, t1, ts) && p in n0 && p in n1 && n2 == n1[p := v]
    ensures Linked(n2, Roots(ts)) && ShowsEach(n2, t1, ts) && OwnsEach(n2, t1, ts) && SeparateAll(n2, ts)
    ensures AllTextsOf(n2, ts) == AllTextsOf(n1, ts)
    ensures ItemsOf(n2, t1, ts) == ItemsOf(n1, t1, ts) && MembersOf(n2, t1, ts) == MembersOf(n1, t1, ts)
  {
    GroveExists(n0, t0, n1, t1, ts);
    hide Shows, ShowsEach, Owns, OwnsEach, Separate, SeparateAll, AllPtrs, AllTextsOf, ItemsOf, MembersOf, Linked;
    ShowsEachFrame(n1, t1, n2, t1, ts);
    OwnsAllFrame(n1, t1, n2, t1, ts);
    LinkedFrame(n1, n2, Roots(ts));
  }

  /** An array or an object, once its members have grown. */
  lemma FilledList(n0: Nodes, t0: Texts, n1: Nodes, t1: Texts, n2: Nodes, p: Ptr, v: Node, ts: seq<Tree>)
    requires Blank(n0, t0, p) && Grove(n0, t0, n1, t1, ts) && p in n1
    requires n2 == n1[p := v] && SamePlace(v, n1[p]) && v.valuestring == 0 && v.child == PtrAt(Roots(ts), 0)
    ensures Filled(n0, t0, n2, t1, Tree(p, ts))
    ensures ItemsOf(n2, t1, ts) == ItemsOf(n1, t1, ts) && MembersOf(n2, t1, ts) == MembersOf(n1, t1, ts)
  {
    hide Shows, ShowsEach, Owns, OwnsEach, Separate, SeparateAll, AllPtrs, AllTextsOf, ItemsOf, MembersOf, Linked,
      PtrAt, Roots, TextsOf;
    assert n1[p] == n0[p];
    TreesUnder(n0, t0, n1, t1, n2, p, v, ts);
    ParentIsWhole(n2, t1, p, ts);
  }

  lemma ParentIsWhole(n: Nodes, t: Texts, p: Ptr, ts: seq<Tree>)
    requires p != 0 && p in n && n[p].valuestring == 0 && !n[p].isReference && Readable(t, n[p])
    requires n[p].child == PtrAt(Roots(ts), 0) && Linked(n, Roots(ts))
    requires ShowsEach(n, t, ts) && OwnsEach(n, t, ts) && SeparateAll(n, ts)
    requires p !in AllPtrs(ts) && OwnTexts(n[p]) !! AllTextsOf(n, ts)
    ensures var tree := Tree(p, ts);
            Shows(n, t, tree) && Owns(n, t, tree) && Separate(n, tree)
            && TextsOf(n, tree) == OwnTexts(n[p]) + AllTextsOf(n, ts)
  {
    ChainedWhenLinked(n, ts);
    hide ShowsEach, OwnsEach, SeparateAll, AllPtrs, AllTextsOf, Linked, PtrAt, Chained;
  }

  /** The last tree of a list, apart from the others. */
  lemma LastOfList(n: Nodes, t: Texts, ts: seq<Tree>, last: Tree)
    requires ShowsEach(n, t, ts + [last]) && OwnsEach(n, t, ts + [last]) && SeparateAll(n, ts + [last])
    ensures ShowsEach(n, t, ts) && OwnsEach(n, t, ts) && SeparateAll(n, ts)
    ensures AllPtrs(ts) !! Ptrs(last) && AllTextsOf(n, ts) !! TextsOf(n, last)
    ensures Owns(n, t, last)
  {
    hide Shows, Owns, Separate, AllPtrs, AllTextsOf, Ptrs, TextsOf;
    var all := ts + [last];
    assert all[..|all| - 1] == ts && all[|all| - 1] == last;
    assert forall i :: 0 <= i < |ts| ==> ts[i] == all[i];
  }

  lemma LeafOwns(n: Nodes, t: Texts, c: Ptr)
    requires Owns(n, t, Tree(c, []))
    ensures c in n && Ptrs(Tree(c, [])) == {c} && TextsOf(n, Tree(c, [])) == OwnTexts(n[c])
  {
  }

  /** A grove and its last tree, which is a single node. */
  lemma LastSplits(n0: Nodes, t0: Texts, n1: Nodes, t1: Texts, ts: seq<Tree>, c: Ptr)
    requires Grove(n0, t0, n1, t1, ts + [Tree(c, [])])
    ensures Extends(n0, t0, n1, t1) && Linked(n1, Roots(ts) + [c])
    ensures ShowsEach(n1, t1, ts) && OwnsEach(n1, t1, ts) && SeparateAll(n1, ts)
    ensures c in n1 && c !in n0 && c !in AllPtrs(ts) && AllPtrs(ts) !! n0.Keys
    ensures n1.Keys == n0.Keys + AllPtrs(ts) + {c}
    ensures AllTextsOf(n1, ts) !! OwnTexts(n1[c]) && AllTextsOf(n1, ts) !! t0.Keys && OwnTexts(n1[c]) !! t0.Keys
    ensures t1.Keys == t0.Keys + AllTextsOf(n1, ts) + OwnTexts(n1[c])
  {
    hide Shows, ShowsEach, Owns, OwnsEach, Separate, SeparateAll, AllPtrs, AllTextsOf, Ptrs, TextsOf, Linked, Roots,
         Extends, OwnTexts;
    var leaf := Tree(c, []);
    RootsAdded(ts, leaf);
    LastOfList(n1, t1, ts, leaf);
    LeafOwns(n1, t1, c);
    AllTextsAdded(n1, t1, ts, leaf);
  }

  lemma TreesBesideFilled(n1: Nodes, t1: Texts, n2: Nodes, t2: Texts, ts: seq<Tree>, c: Ptr)
    requires ShowsEach(n1, t1, ts) && OwnsEach(n1, t1, ts) && SeparateAll(n1, ts) && c !in AllPtrs(ts)
    requires (forall p <- n1 :: p != c ==> p in n2 && n2[p] == n1[p]) && SameTexts(t1, t2)
    requires AllPtrs(ts) <= n1.Keys && AllTextsOf(n1, ts) <= t1.Keys
    ensures ShowsEach(n2, t2, ts) && OwnsEach(n2, t2, ts) && SeparateAll(n2, ts)
    ensures AllTextsOf(n2, ts) == AllTextsOf(n1, ts)
    ensures ItemsOf(n2, t2, ts) == ItemsOf(n1, t1, ts) && MembersOf(n2, t2, ts) == MembersOf(n1, t1, ts)
  {
    hide Shows, ShowsEach, Owns, OwnsEach, Separate, SeparateAll, AllPtrs, AllTextsOf, ItemsOf, MembersOf;
    ShowsEachFrame(n1, t1, n2, t2, ts);
    OwnsAllFrame(n1, t1, n2, t2, ts);
  }

  lemma LinksBesideFilled(n1: Nodes, n2: Nodes, ptrs: seq<Ptr>, c: Ptr)
    requires Linked(n1, ptrs) && (forall p <- n1 :: p != c ==> p in n2 && n2[p] == n1[p])
    requires c in n1 && c in n2 && n2[c].next == n1[c].next && n2[c].prev == n1[c].prev
    ensures Linked(n2, ptrs)
  {
    forall i | 0 <= i < |ptrs| ensures LinkedAt(n2, ptrs, i) {
      assert LinkedAt(n1, ptrs, i);
    }
  }

  lemma OwnTextsInside(n: Nodes, t: Tree)
    requires t.ptr in n
    ensures OwnTexts(n[t.ptr]) <= TextsOf(n, t)
  {
  }

  /** The last tree of a grove, so far a single node, got its value. */
  lemma LastFilled(n0: Nodes, t0: Texts, n1: Nodes, t1: Texts, n2: Nodes, t2: Texts, ts: seq<Tree>, t: Tree)
    requires Grove(n0, t0, n1, t1, ts + [Tree(t.ptr, [])]) && Filled(n1, t1, n2, t2, t)
    ensures Grove(n0, t0, n2, t2, ts + [t])
    ensures ItemsOf(n2, t2, ts + [t]) == ItemsOf(n1, t1, ts) + [JsonOf(n2, t2, t)]
    ensures MembersOf(n2, t2, ts + [t]) == MembersOf(n1, t1, ts) + [Member(KeyOf(n1, t1, t.ptr), JsonOf(n2, t2, t))]
  {
    hide Grove, Shows, ShowsEach, Owns, OwnsEach, Separate, SeparateAll, AllPtrs, AllTextsOf, ItemsOf, MembersOf,
      Linked, JsonOf, TextsOf, Roots;
    var c := t.ptr;
    LastSplits(n0, t0, n1, t1, ts, c);
    TreesBesideFilled(n1, t1, n2, t2, ts, c);
    LinksBesideFilled(n1, n2, Roots(ts) + [c], c);
    assert KeyOf(n2, t2, c) == KeyOf(n1, t1, c);
    OwnTextsInside(n2, t);
    assert OwnTexts(n1[c]) <= OwnTexts(n2[c]);
    GroveSnoc(n0, t0, n2, t2, ts, t);
  }

  /** The last tree of a grove, so far a bare node, got its key. */
  lemma KeyGiven(n0: Nodes, t0: Texts, n1: Nodes, t1: Texts, n2: Nodes, t2: Texts, ts: seq<Tree>, c: Ptr, k: Ptr,
                 name: Text)
    requires Grove(n0, t0, n1, t1, ts + [Tree(c, [])]) && Blank(n1, t1, c) && n1[c].key == 0
    requires k != 0 && k !in t1 && t2 == t1[k := name] && n2 == n1[c := n1[c].(kind := KString, key := k)]
    ensures Grove(n0, t0, n2, t2, ts + [Tree(c, [])]) && Blank(n2, t2, c) && KeyOf(n2, t2, c) == name
    ensures ItemsOf(n2, t2, ts) == ItemsOf(n1, t1, ts) && MembersOf(n2, t2, ts) == MembersOf(n1, t1, ts)
  {
    hide Grove, Shows, ShowsEach, Owns, OwnsEach, Separate, SeparateAll, AllPtrs, AllTextsOf, ItemsOf, MembersOf,
      Linked, TextsOf, Roots, JsonOf;
    LastSplits(n0, t0, n1, t1, ts, c);
    TreesBesideFilled(n1, t1, n2, t2, ts, c);
    LinksBesideFilled(n1, n2, Roots(ts) + [c], c);
    Childless(n2, t2, c);
    assert OwnTexts(n2[c]) == {k} && OwnTexts(n1[c]) == {};
    GroveSnoc(n0, t0, n2, t2, ts, Tree(c, []));
  }
}
