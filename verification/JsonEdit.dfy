/**
 Any run of edits of a child list. The trees of a forest are either in the list or loose; edits take
 loose trees into the list, make listed trees loose, or put a loose one in the place of a listed one,
 which is then freed.
 */
module JsonEdits {
  import opened Wrappers
  import opened Bytes
  import opened JsonHeaps
  import opened JsonTrees
  import opened JsonViews

  datatype Edit =
    | Append(item: Tree)
    | InsertAt(which: int, item: Tree)
    | DetachAt(which: int)
    | ReplaceAt(which: int, item: Tree)

  // ---------- the edits on sequences ----------

  function Edited(ts: seq<Tree>, e: Edit): seq<Tree> {
    match e
    case Append(t) => ts + [t]
    case InsertAt(w, t) => if 0 <= w < |ts| then ts[..w] + [t] + ts[w..] else if w < 0 then ts else ts + [t]
    case DetachAt(w) => if 0 <= w < |ts| then ts[..w] + ts[w + 1..] else ts
    case ReplaceAt(w, t) => if 0 <= w < |ts| then ts[w := t] else ts
  }

  /** The trees left after the edit: all but a replaced one. */
  function Kept(forest: set<Tree>, ts: seq<Tree>, e: Edit): set<Tree> {
    if e.ReplaceAt? && 0 <= e.which < |ts| then forest - {ts[e.which]} else forest
  }

  /** What is added is a tree of the forest that is not in the list. */
  predicate Possible(forest: set<Tree>, ts: seq<Tree>, e: Edit) {
    !e.DetachAt? ==> e.item in forest && e.item !in ts
  }

  function EditedAll(ts: seq<Tree>, edits: seq<Edit>): seq<Tree>
    decreases |edits|
  {
    if edits == [] then ts else EditedAll(Edited(ts, edits[0]), edits[1..])
  }

  function KeptAll(forest: set<Tree>, ts: seq<Tree>, edits: seq<Edit>): set<Tree>
    decreases |edits|
  {
    if edits == [] then forest else KeptAll(Kept(forest, ts, edits[0]), Edited(ts, edits[0]), edits[1..])
  }

  predicate PossibleAll(forest: set<Tree>, ts: seq<Tree>, edits: seq<Edit>)
    decreases |edits|
  {
    edits == []
    || (Possible(forest, ts, edits[0])
        && PossibleAll(Kept(forest, ts, edits[0]), Edited(ts, edits[0]), edits[1..]))
  }

  // ---------- the heap ----------

  ghost predicate Grows(nodes: Nodes, texts: Texts, parent: Ptr, t: Tree) {
    Owns(nodes, texts, t) && Separate(nodes, t) && parent !in Ptrs(t)
  }

  ghost predicate Apart(nodes: Nodes, t: Tree, u: Tree) {
    Ptrs(t) !! Ptrs(u) && TextsOf(nodes, t) !! TextsOf(nodes, u)
  }

  /** The trees of the forest own what they own alone; the listed ones are the parent's children, the others loose. */
  ghost predicate Orchard(nodes: Nodes, texts: Texts, parent: Ptr, ts: seq<Tree>, forest: set<Tree>) {
    && (forall t <- forest :: Grows(nodes, texts, parent, t))
    && (forall t <- forest, u <- forest :: t != u ==> Apart(nodes, t, u))
    && (forall t <- ts :: t in forest)
    && (forall t <- forest :: t !in ts ==> Loose(nodes, t.ptr))
    && IsList(nodes, parent, Roots(ts))
  }

  /** These trees have the nodes, contents and strings they had. */
  ghost predicate Untouched(n0: Nodes, t0: Texts, n1: Nodes, t1: Texts, forest: set<Tree>) {
    forall u <- forest :: UntouchedTree(n0, t0, n1, t1, u)
  }

  ghost predicate UntouchedTree(n0: Nodes, t0: Texts, n1: Nodes, t1: Texts, u: Tree) {
    && SameTree(n0, n1, u)
    && (forall p <- TextsOf(n0, u) :: p in t0 && p in t1 && t1[p] == t0[p])
  }

  /** One tree, where nothing but links of roots of the forest changed. */
  lemma TreeRelinked(n0: Nodes, t0: Texts, n1: Nodes, parent: Ptr, touched: set<Ptr>, u: Tree)
    requires Grows(n0, t0, parent, u) && Relinked(n0, n1, parent, touched)
    requires touched !! AllPtrs(u.children)
    ensures Grows(n1, t0, parent, u) && TextsOf(n1, u) == TextsOf(n0, u) && UntouchedTree(n0, t0, n1, t0, u)
  {
    OwnedExists(n0, t0, u);
    hide OwnsEach, Chained, AllTextsOf, SeparateAll, PtrAt;
    assert SameTree(n0, n1, u) by {
      hide AllPtrs;
    }
    OwnsRelinked(n0, t0, n1, t0, u);
  }

  /** The touched nodes are roots of the forest, and roots of other trees are not below a tree's own. */
  lemma RootsNotBelow(nodes: Nodes, texts: Texts, parent: Ptr, forest: set<Tree>, roots: seq<Tree>, u: Tree)
    requires forall t <- forest :: Grows(nodes, texts, parent, t)
    requires forall t <- forest, v <- forest :: t != v ==> Apart(nodes, t, v)
    requires u in forest && forall t <- roots :: t in forest
    ensures (set p <- Roots(roots)) !! AllPtrs(u.children)
    ensures forall t <- roots :: t != u ==> t.ptr != u.ptr
  {
    hide Owns, TextsOf, Separate, AllPtrs;
    assert Grows(nodes, texts, parent, u);
    assert u.ptr !in AllPtrs(u.children) by {
      RootNotBelowItself(nodes, u);
    }
    forall t | t in roots ensures t.ptr !in AllPtrs(u.children) && (t != u ==> t.ptr != u.ptr) {
      if t != u {
        assert Apart(nodes, t, u);
        assert t.ptr in Ptrs(t) && u.ptr in Ptrs(u) && AllPtrs(u.children) <= Ptrs(u);
      }
    }
    forall p | p in Roots(roots) ensures p !in AllPtrs(u.children) {
      var i :| 0 <= i < |roots| && Roots(roots)[i] == p;
      assert roots[i] in roots;
    }
  }

  lemma RootNotBelowItself(nodes: Nodes, u: Tree)
    requires Separate(nodes, u)
    ensures u.ptr !in AllPtrs(u.children)
  {
  }

  /** The whole forest, where nothing but links of these roots changed. */
  lemma ForestRelinked(n0: Nodes, t0: Texts, n1: Nodes, parent: Ptr, forest: set<Tree>, roots: seq<Tree>)
    requires forall t <- forest :: Grows(n0, t0, parent, t)
    requires forall t <- forest, u <- forest :: t != u ==> Apart(n0, t, u)
    requires forall t <- roots :: t in forest
    requires Relinked(n0, n1, parent, set p <- Roots(roots))
    ensures forall t <- forest :: Grows(n1, t0, parent, t)
    ensures forall t <- forest, u <- forest :: t != u ==> Apart(n1, t, u)
    ensures Untouched(n0, t0, n1, t0, forest)
    ensures forall t <- forest :: t !in roots && Loose(n0, t.ptr) ==> Loose(n1, t.ptr)
  {
    forall u | u in forest
      ensures Grows(n1, t0, parent, u) && TextsOf(n1, u) == TextsOf(n0, u) && UntouchedTree(n0, t0, n1, t0, u)
      ensures u !in roots && Loose(n0, u.ptr) ==> Loose(n1, u.ptr)
    {
      RootsNotBelow(n0, t0, parent, forest, roots, u);
      TreeRelinked(n0, t0, n1, parent, (set p <- Roots(roots)), u);
      if u !in roots && Loose(n0, u.ptr) {
        StillLoose(n0, n1, parent, roots, u);
      }
    }
    forall t, u | t in forest && u in forest && t != u ensures Apart(n1, t, u) {
      assert Apart(n0, t, u);
    }
  }

  lemma StillLoose(n0: Nodes, n1: Nodes, parent: Ptr, roots: seq<Tree>, u: Tree)
    requires Relinked(n0, n1, parent, set p <- Roots(roots)) && Loose(n0, u.ptr)
    requires forall t <- roots :: t.ptr != u.ptr
    ensures Loose(n1, u.ptr)
  {
    assert forall i :: 0 <= i < |roots| ==> roots[i] in roots;
  }

  /** The orchard after a relinking of the roots of listed trees and perhaps one more. */
  lemma OrchardRelinked(n0: Nodes, t0: Texts, n1: Nodes, parent: Ptr, ts: seq<Tree>, forest: set<Tree>,
                        roots: seq<Tree>, after: seq<Tree>)
    requires Orchard(n0, t0, parent, ts, forest) && Relinked(n0, n1, parent, set p <- Roots(roots))
    requires (forall t <- ts :: t in roots) && (forall t <- roots :: t in forest) && (forall t <- after :: t in forest)
    requires IsList(n1, parent, Roots(after)) && forall t <- roots :: t !in after ==> Loose(n1, t.ptr)
    ensures Orchard(n1, t0, parent, after, forest) && Untouched(n0, t0, n1, t0, forest)
  {
    hide Grows, Apart, IsList, Relinked, Loose;
    ForestRelinked(n0, t0, n1, parent, forest, roots);
  }

  /** A loose tree's root is no listed root and not the parent. */
  lemma LooseTree(nodes: Nodes, texts: Texts, parent: Ptr, ts: seq<Tree>, forest: set<Tree>, t: Tree)
    requires Orchard(nodes, texts, parent, ts, forest) && t in forest && t !in ts
    ensures Loose(nodes, t.ptr) && t.ptr != parent && t.ptr !in Roots(ts)
    ensures Hanging(nodes, [t.ptr])
  {
    hide Owns, Separate, IsList;
    RootsNotBelow(nodes, texts, parent, forest, ts, t);
    LooseHangs(nodes, t.ptr);
    assert Grows(nodes, texts, parent, t);
    assert forall i :: 0 <= i < |ts| ==> ts[i] in ts;
  }

  lemma RootsWith(ts: seq<Tree>, t: Tree)
    ensures Roots(ts + [t]) == Roots(ts) + [t.ptr]
    ensures (set p <- Roots(ts + [t])) == (set p <- Roots(ts)) + {t.ptr}
  {
  }

  method AppendTree(h: Heap, parent: Ptr, t: Tree, ghost ts: seq<Tree>, ghost forest: set<Tree>)
    requires Orchard(h.nodes, h.texts, parent, ts, forest) && t in forest && t !in ts
    modifies h`nodes
    ensures Orchard(h.nodes, h.texts, parent, ts + [t], forest)
    ensures Untouched(old(h.nodes), h.texts, h.nodes, h.texts, forest)
  {
    ghost var n0 := h.nodes;
    LooseTree(n0, h.texts, parent, ts, forest, t);
    RootsWith(ts, t);
    ParentOf(n0, h.texts, parent, ts, forest);
    var ok := h.AddItemToArray(parent, t.ptr, Roots(ts), [t.ptr]);
    OrchardRelinked(n0, h.texts, h.nodes, parent, ts, forest, ts + [t], ts + [t]);
  }

  lemma ParentOf(nodes: Nodes, texts: Texts, parent: Ptr, ts: seq<Tree>, forest: set<Tree>)
    requires Orchard(nodes, texts, parent, ts, forest)
    ensures parent != 0 && IsList(nodes, parent, Roots(ts))
  {
  }

  method InsertTree(h: Heap, parent: Ptr, which: int, t: Tree, ghost ts: seq<Tree>, ghost forest: set<Tree>)
    requires Orchard(h.nodes, h.texts, parent, ts, forest) && t in forest && t !in ts
    modifies h`nodes
    ensures Orchard(h.nodes, h.texts, parent, Edited(ts, InsertAt(which, t)), forest)
    ensures Untouched(old(h.nodes), h.texts, h.nodes, h.texts, forest)
  {
    ghost var n0 := h.nodes;
    LooseTree(n0, h.texts, parent, ts, forest, t);
    RootsWith(ts, t);
    ParentOf(n0, h.texts, parent, ts, forest);
    h.InsertItemInArray(parent, which, t.ptr, Roots(ts), [t.ptr]);
    ghost var after := Edited(ts, InsertAt(which, t));
    RootsInserted(ts, which, t);
    hide Orchard, IsList, Relinked, Loose, Untouched;
    if which < 0 {
      SameOrchard(n0, h.texts, parent, ts, forest);
    } else {
      OrchardMembers(n0, h.texts, parent, ts, forest);
      OrchardRelinked(n0, h.texts, h.nodes, parent, ts, forest, ts + [t], after);
    }
  }

  lemma RootsInserted(ts: seq<Tree>, which: int, t: Tree)
    ensures var after := Edited(ts, InsertAt(which, t));
            Roots(after) == Inserted(Roots(ts), which, t.ptr)
            && (which >= 0 ==> forall u :: u in after <==> u in ts + [t])
  {
    var after := Edited(ts, InsertAt(which, t));
    if 0 <= which < |ts| {
      assert forall i :: 0 <= i < |ts| ==> ts[i] == if i < which then after[i] else after[i + 1];
    }
  }

  lemma OrchardMembers(nodes: Nodes, texts: Texts, parent: Ptr, ts: seq<Tree>, forest: set<Tree>)
    requires Orchard(nodes, texts, parent, ts, forest)
    ensures forall t <- ts :: t in forest
  {
  }

  lemma SameOrchard(nodes: Nodes, texts: Texts, parent: Ptr, ts: seq<Tree>, forest: set<Tree>)
    requires Orchard(nodes, texts, parent, ts, forest)
    ensures Untouched(nodes, texts, nodes, texts, forest)
  {
    forall u | u in forest ensures UntouchedTree(nodes, texts, nodes, texts, u) {
      assert Grows(nodes, texts, parent, u);
      OwnedExists(nodes, texts, u);
    }
  }

  method DetachTree(h: Heap, parent: Ptr, which: int, ghost ts: seq<Tree>, ghost forest: set<Tree>)
    requires Orchard(h.nodes, h.texts, parent, ts, forest)
    modifies h`nodes
    ensures Orchard(h.nodes, h.texts, parent, Edited(ts, DetachAt(which)), forest)
    ensures Untouched(old(h.nodes), h.texts, h.nodes, h.texts, forest)
  {
    ghost var n0 := h.nodes;
    ghost var after := Edited(ts, DetachAt(which));
    ParentOf(n0, h.texts, parent, ts, forest);
    OrchardMembers(n0, h.texts, parent, ts, forest);
    hide Orchard, Relinked, Loose, Untouched;
    if which < 0 {
      SameOrchard(n0, h.texts, parent, ts, forest);
      return;
    }
    var item := h.GetArrayItem(parent, which, Roots(ts));
    ItemOf(h.nodes, Roots(ts), which);
    if item == 0 {
      SameOrchard(n0, h.texts, parent, ts, forest);
      return;
    }
    h.DetachItemViaPointer(parent, item, Roots(ts), which);
    RootsRemoved(ts, which);
    hide IsList;
    OrchardRelinked(n0, h.texts, h.nodes, parent, ts, forest, ts, after);
  }

  lemma RootsRemoved(ts: seq<Tree>, which: int)
    requires 0 <= which < |ts|
    ensures var after := Edited(ts, DetachAt(which));
            Roots(after) == RemovedAt(Roots(ts), which)
            && (forall u <- after :: u in ts)
            && (forall u <- ts :: u !in after ==> u == ts[which])
  {
    var after := Edited(ts, DetachAt(which));
    assert forall i :: 0 <= i < |ts| && i != which ==> ts[i] == if i < which then after[i] else after[i - 1];
  }

  /** The orchard after a loose tree and all it owned is gone. */
  lemma OrchardCleared(n1: Nodes, t1: Texts, n2: Nodes, t2: Texts, parent: Ptr, ts: seq<Tree>, forest: set<Tree>,
                       x: Tree)
    requires Orchard(n1, t1, parent, ts, forest) && x in forest && x !in ts
    requires n2 == n1 - Ptrs(x) && t2 == t1 - TextsOf(n1, x) && IsList(n2, parent, Roots(ts))
    ensures Orchard(n2, t2, parent, ts, forest - {x}) && Untouched(n1, t1, n2, t2, forest - {x})
  {
    forall u | u in forest - {x}
      ensures Grows(n2, t2, parent, u) && TextsOf(n2, u) == TextsOf(n1, u) && UntouchedTree(n1, t1, n2, t2, u)
      ensures Loose(n1, u.ptr) ==> Loose(n2, u.ptr)
    {
      assert Grows(n1, t1, parent, u) && Apart(n1, u, x);
      TreeRemains(n1, t1, n2, t2, u, x);
    }
    forall t, u | t in forest - {x} && u in forest - {x} && t != u ensures Apart(n2, t, u) {
      assert Apart(n1, t, u);
    }
  }

  lemma TreeRemains(n1: Nodes, t1: Texts, n2: Nodes, t2: Texts, u: Tree, x: Tree)
    requires Owns(n1, t1, u) && Separate(n1, u) && Apart(n1, u, x)
    requires n2 == n1 - Ptrs(x) && t2 == t1 - TextsOf(n1, x)
    ensures Owns(n2, t2, u) && Separate(n2, u) && TextsOf(n2, u) == TextsOf(n1, u) && UntouchedTree(n1, t1, n2, t2, u)
    ensures Loose(n1, u.ptr) ==> Loose(n2, u.ptr)
  {
    OwnedExists(n1, t1, u);
    assert u.ptr in Ptrs(u) && AllPtrs(u.children) <= Ptrs(u);
    hide Owns, Separate, TextsOf, Ptrs, AllPtrs;
    OwnsFrame(n1, t1, n2, t2, u);
  }

  lemma UntouchedTwice(n0: Nodes, t0: Texts, n1: Nodes, t1: Texts, n2: Nodes, t2: Texts, parent: Ptr,
                       all: set<Tree>, forest: set<Tree>)
    requires Untouched(n0, t0, n1, t1, all) && Untouched(n1, t1, n2, t2, forest) && forest <= all
    requires forall u <- all :: Grows(n0, t0, parent, u)
    ensures Untouched(n0, t0, n2, t2, forest)
  {
    forall u | u in forest ensures UntouchedTree(n0, t0, n2, t2, u) {
      assert Grows(n0, t0, parent, u) && UntouchedTree(n0, t0, n1, t1, u) && UntouchedTree(n1, t1, n2, t2, u);
      TreeUntouchedTwice(n0, t0, n1, t1, n2, t2, u);
    }
  }

  lemma TreeUntouchedTwice(n0: Nodes, t0: Texts, n1: Nodes, t1: Texts, n2: Nodes, t2: Texts, u: Tree)
    requires UntouchedTree(n0, t0, n1, t1, u) && UntouchedTree(n1, t1, n2, t2, u)
    requires Owns(n0, t0, u) && Separate(n0, u)
    ensures UntouchedTree(n0, t0, n2, t2, u)
  {
    OwnsRelinked(n0, t0, n1, t1, u);
    OwnedExists(n0, t0, u);
    hide Owns, Separate, TextsOf, AllPtrs;
  }

  method ReplaceTree(h: Heap, parent: Ptr, which: int, t: Tree, ghost ts: seq<Tree>, ghost forest: set<Tree>)
    requires Orchard(h.nodes, h.texts, parent, ts, forest) && t in forest && t !in ts
    modifies h`nodes, h`texts
    ensures Orchard(h.nodes, h.texts, parent, Edited(ts, ReplaceAt(which, t)), Kept(forest, ts, ReplaceAt(which, t)))
    ensures Untouched(old(h.nodes), old(h.texts), h.nodes, h.texts, Kept(forest, ts, ReplaceAt(which, t)))
  {
    ghost var n0, t0 := h.nodes, h.texts;
    ghost var after := Edited(ts, ReplaceAt(which, t));
    ParentOf(n0, t0, parent, ts, forest);
    OrchardMembers(n0, t0, parent, ts, forest);
    hide Orchard, Relinked, Loose, Untouched;
    if which < 0 {
      SameOrchard(n0, t0, parent, ts, forest);
      return;
    }
    var item := h.GetArrayItem(parent, which, Roots(ts));
    ItemOf(h.nodes, Roots(ts), which);
    if item == 0 {
      SameOrchard(n0, t0, parent, ts, forest);
      var none, same := ReplaceItemViaPointer(h, parent, item, t.ptr, Roots(ts), 0, t);
      return;
    }
    ghost var x := ts[which];
    LooseTree(n0, t0, parent, ts, forest, t);
    CanReplace(n0, t0, parent, ts, forest, which, t);
    var ok, relinked := ReplaceItemViaPointer(h, parent, item, t.ptr, Roots(ts), which, x);
    hide IsList;
    RootsWith(ts, t);
    RootsReplaced(ts, which, t);
    OrchardRelinked(n0, t0, relinked, parent, ts, forest, ts + [t], after);
    TextsRelinked(n0, t0, relinked, parent, forest, x);
    ReplacedIsLoose(ts, which, t, n0, t0, parent, forest);
    OrchardCleared(relinked, t0, h.nodes, h.texts, parent, after, forest, x);
    OrchardGrows(n0, t0, parent, ts, forest);
    UntouchedTwice(n0, t0, relinked, t0, h.nodes, h.texts, parent, forest, forest - {x});
  }

  lemma OrchardGrows(nodes: Nodes, texts: Texts, parent: Ptr, ts: seq<Tree>, forest: set<Tree>)
    requires Orchard(nodes, texts, parent, ts, forest)
    ensures forall u <- forest :: Grows(nodes, texts, parent, u)
  {
  }

  /** What may be put in a listed tree's place. */
  lemma CanReplace(nodes: Nodes, texts: Texts, parent: Ptr, ts: seq<Tree>, forest: set<Tree>, which: nat, t: Tree)
    requires Orchard(nodes, texts, parent, ts, forest) && t in forest && t !in ts && which < |ts|
    ensures var x := ts[which];
            Owns(nodes, texts, x) && Separate(nodes, x) && Ptrs(x) !! {parent, t.ptr} && t.ptr != x.ptr
            && (forall p <- Roots(ts) :: p == x.ptr || p !in Ptrs(x))
            && t.ptr in nodes && t.ptr != 0
  {
    hide Owns, Separate, IsList, TextsOf, AllPtrs;
    var x := ts[which];
    assert x in ts && Grows(nodes, texts, parent, x) && Apart(nodes, t, x) && t.ptr in Ptrs(t);
    forall i | 0 <= i < |ts| ensures ts[i].ptr == x.ptr || ts[i].ptr !in Ptrs(x) {
      if ts[i] != x {
        assert ts[i] in ts && Apart(nodes, ts[i], x) && ts[i].ptr in Ptrs(ts[i]);
      }
    }
  }

  lemma RootsReplaced(ts: seq<Tree>, which: nat, t: Tree)
    requires which < |ts|
    ensures var after := ts[which := t];
            Roots(after) == Roots(ts)[which := t.ptr]
            && (forall u <- after :: u in ts + [t])
            && (forall u <- ts + [t] :: u !in after ==> u == ts[which])
  {
    var after := ts[which := t];
    assert forall i :: 0 <= i < |ts| && i != which ==> ts[i] == after[i];
    assert after[which] == t;
  }

  lemma TextsRelinked(n0: Nodes, t0: Texts, n1: Nodes, parent: Ptr, forest: set<Tree>, x: Tree)
    requires Untouched(n0, t0, n1, t0, forest) && x in forest
    requires exists ts :: Orchard(n0, t0, parent, ts, forest)
    ensures TextsOf(n1, x) == TextsOf(n0, x)
  {
    assert Grows(n0, t0, parent, x) && UntouchedTree(n0, t0, n1, t0, x);
    OwnsRelinked(n0, t0, n1, t0, x);
  }

  lemma ReplacedIsLoose(ts: seq<Tree>, which: nat, t: Tree, nodes: Nodes, texts: Texts, parent: Ptr, forest: set<Tree>)
    requires Orchard(nodes, texts, parent, ts, forest) && which < |ts| && t !in ts
    ensures ts[which] !in ts[which := t]
  {
    hide Grows, Apart, Loose;
    assert ts[which] in ts;
    assert forall i :: 0 <= i < |ts| && i != which ==> Roots(ts)[i] != Roots(ts)[which];
  }

  // ---------- any run ----------

  method EditOnce(h: Heap, parent: Ptr, e: Edit, ghost ts: seq<Tree>, ghost forest: set<Tree>)
    requires Orchard(h.nodes, h.texts, parent, ts, forest) && Possible(forest, ts, e)
    modifies h`nodes, h`texts
    ensures Orchard(h.nodes, h.texts, parent, Edited(ts, e), Kept(forest, ts, e))
    ensures Untouched(old(h.nodes), old(h.texts), h.nodes, h.texts, Kept(forest, ts, e))
  {
    hide Orchard, Untouched;
    match e
    case Append(t) => AppendTree(h, parent, t, ts, forest);
    case InsertAt(w, t) => InsertTree(h, parent, w, t, ts, forest);
    case DetachAt(w) => DetachTree(h, parent, w, ts, forest);
    case ReplaceAt(w, t) => ReplaceTree(h, parent, w, t, ts, forest);
  }

  /**
   Over any run of appends, insertions, detachments and replacements the children of a node are the
   edited sequence, linked both ways; every tree that was not replaced has its nodes, contents and
   strings as they were, in the list or loose; and the replaced ones are gone.
   */
  method EditRun(h: Heap, parent: Ptr, edits: seq<Edit>, ghost ts: seq<Tree>, ghost forest: set<Tree>)
    requires Orchard(h.nodes, h.texts, parent, ts, forest) && PossibleAll(forest, ts, edits)
    modifies h`nodes, h`texts
    ensures Orchard(h.nodes, h.texts, parent, EditedAll(ts, edits), KeptAll(forest, ts, edits))
    ensures Untouched(old(h.nodes), old(h.texts), h.nodes, h.texts, KeptAll(forest, ts, edits))
    ensures IsList(h.nodes, parent, Roots(EditedAll(ts, edits)))
  {
    ghost var n0, t0 := h.nodes, h.texts;
    ghost var now, left := ts, forest;
    SameOrchard(n0, t0, parent, ts, forest);
    OrchardGrows(n0, t0, parent, ts, forest);
    assert edits[0..] == edits;
    for i := 0 to |edits|
      invariant Orchard(h.nodes, h.texts, parent, now, left) && Untouched(n0, t0, h.nodes, h.texts, left)
      invariant PossibleAll(left, now, edits[i..]) && left <= forest
      invariant EditedAll(now, edits[i..]) == EditedAll(ts, edits)
      invariant KeptAll(left, now, edits[i..]) == KeptAll(forest, ts, edits)
    {
      hide Orchard, Untouched, Edited, Kept, Possible, Grows;
      ghost var n1, t1 := h.nodes, h.texts;
      assert edits[i..][0] == edits[i] && edits[i..][1..] == edits[i + 1..];
      EditOnce(h, parent, edits[i], now, left);
      KeptIsLess(left, now, edits[i]);
      UntouchedTwice(n0, t0, n1, t1, h.nodes, h.texts, parent, left, Kept(left, now, edits[i]));
      now, left := Edited(now, edits[i]), Kept(left, now, edits[i]);
    }
  }

  lemma KeptIsLess(forest: set<Tree>, ts: seq<Tree>, e: Edit)
    ensures Kept(forest, ts, e) <= forest
  {
  }
}
