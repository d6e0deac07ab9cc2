/**
 The memory cJSON's trees live in: nodes with their pointers, and the strings they point to. Freeing
 something that is not allocated violates a precondition, so whatever verifies frees nothing twice.
 */
module JsonHeaps {
  import opened Bytes

  /** An address; 0 is the null pointer. */
  type Ptr = nat

  datatype Kind = KNull | KFalse | KTrue | KNumber | KString | KArray | KObject

  datatype Node = Node(
    next: Ptr,
    prev: Ptr,
    child: Ptr,
    kind: Kind,
    isReference: bool,
    keyIsConst: bool,
    valuestring: Ptr,
    value: real,
    /** The key of a member. */
    key: Ptr)

  type Nodes = map<Ptr, Node>
  type Texts = map<Ptr, Text>

  // ---------- the child list ----------

  predicate Distinct(ptrs: seq<Ptr>) {
    forall i, j :: 0 <= i < j < |ptrs| ==> ptrs[i] != ptrs[j]
  }

  /** The pointer at an index of a list, or null beside it. */
  function PtrAt(ptrs: seq<Ptr>, i: int): Ptr {
    if 0 <= i < |ptrs| then ptrs[i] else 0
  }

  predicate LinkedAt(nodes: Nodes, ptrs: seq<Ptr>, i: int)
    requires 0 <= i < |ptrs|
  {
    && ptrs[i] != 0 && ptrs[i] in nodes
    && nodes[ptrs[i]].next == PtrAt(ptrs, i + 1)
    && nodes[ptrs[i]].prev == PtrAt(ptrs, i - 1)
  }

  /** These nodes are linked both ways, in this order, and to nothing else. */
  ghost predicate Linked(nodes: Nodes, ptrs: seq<Ptr>) {
    Distinct(ptrs) && forall i :: 0 <= i < |ptrs| ==> LinkedAt(nodes, ptrs, i)
  }

  /** The children of a node. */
  ghost predicate IsList(nodes: Nodes, parent: Ptr, ptrs: seq<Ptr>) {
    && parent != 0 && parent in nodes && parent !in ptrs
    && nodes[parent].child == PtrAt(ptrs, 0)
    && Linked(nodes, ptrs)
  }

  /** A node that is in no list yet. */
  ghost predicate Loose(nodes: Nodes, item: Ptr) {
    item != 0 && item in nodes && nodes[item].next == 0 && nodes[item].prev == 0
  }

  predicate HangingAt(nodes: Nodes, ptrs: seq<Ptr>, i: int)
    requires 0 <= i < |ptrs|
  {
    && ptrs[i] != 0 && ptrs[i] in nodes
    && nodes[ptrs[i]].next == PtrAt(ptrs, i + 1)
    && (i > 0 ==> nodes[ptrs[i]].prev == PtrAt(ptrs, i - 1))
  }

  /** These nodes follow each other; the first may still point back to something. */
  ghost predicate Hanging(nodes: Nodes, ptrs: seq<Ptr>) {
    ptrs != [] && Distinct(ptrs) && forall i :: 0 <= i < |ptrs| ==> HangingAt(nodes, ptrs, i)
  }

  /** Nothing but links changed: those among `touched`, and the parent's pointer to its first child. */
  ghost predicate Relinked(before: Nodes, after: Nodes, parent: Ptr, touched: set<Ptr>) {
    && after.Keys == before.Keys
    && (forall p <- before :: p !in touched && p != parent ==> after[p] == before[p])
    && (forall p <- before :: p != parent ==> after[p] == before[p].(next := after[p].next, prev := after[p].prev))
    && (parent in before ==> after[parent] == before[parent].(child := after[parent].child))
  }

  function Inserted(ptrs: seq<Ptr>, which: int, item: Ptr): seq<Ptr> {
    if 0 <= which < |ptrs| then ptrs[..which] + [item] + ptrs[which..]
    else if which < 0 then ptrs
    else ptrs + [item]
  }

  function RemovedAt(ptrs: seq<Ptr>, which: int): seq<Ptr> {
    if 0 <= which < |ptrs| then ptrs[..which] + ptrs[which + 1..] else ptrs
  }

  class Heap {
    var nodes: Nodes
    var texts: Texts
    /** Addresses from here on were never handed out. */
    var top: Ptr

    /** Addresses are below `top`, and strings are C strings. */
    ghost predicate Valid()
      reads this
    {
      && top > 0
      && (forall p <- nodes :: 0 < p < top)
      && (forall p <- texts :: 0 < p < top && NUL !in texts[p])
    }

    constructor ()
      ensures Valid() && nodes == map[] && texts == map[]
    {
      nodes, texts, top := map[], map[], 1;
    }

    // ---------- allocation ----------

    method NewItem(kind: Kind) returns (p: Ptr)
      requires Valid()
      modifies this
      ensures Valid() && p == old(top) && top == old(top) + 1 && p != 0 && p !in old(nodes) && p !in old(texts)
      ensures nodes == old(nodes)[p := Node(0, 0, 0, kind, false, false, 0, 0.0, 0)] && texts == old(texts)
    {
      p := top;
      top := top + 1;
      nodes := nodes[p := Node(0, 0, 0, kind, false, false, 0, 0.0, 0)];
    }

    method Strdup(t: Text) returns (p: Ptr)
      requires Valid()
      modifies this
      ensures Valid() && p == old(top) && top == old(top) + 1 && p != 0 && p !in old(nodes) && p !in old(texts)
      ensures texts == old(texts)[p := CString(t)] && nodes == old(nodes)
    {
      p := top;
      top := top + 1;
      texts := texts[p := CString(t)];
    }

    method FreeNode(p: Ptr)
      requires p in nodes
      modifies this`nodes
      ensures nodes == old(nodes) - {p}
    {
      nodes := nodes - {p};
    }

    method FreeText(p: Ptr)
      requires p in texts
      modifies this`texts
      ensures texts == old(texts) - {p}
    {
      texts := texts - {p};
    }

    method SetNext(p: Ptr, next: Ptr)
      requires p in nodes
      modifies this`nodes
      ensures nodes == old(nodes)[p := old(nodes)[p].(next := next)]
    {
      nodes := nodes[p := nodes[p].(next := next)];
    }

    method SetPrev(p: Ptr, prev: Ptr)
      requires p in nodes
      modifies this`nodes
      ensures nodes == old(nodes)[p := old(nodes)[p].(prev := prev)]
    {
      nodes := nodes[p := nodes[p].(prev := prev)];
    }

    method SetChild(p: Ptr, child: Ptr)
      requires p in nodes
      modifies this`nodes
      ensures nodes == old(nodes)[p := old(nodes)[p].(child := child)]
    {
      nodes := nodes[p := nodes[p].(child := child)];
    }

    // ---------- edits of the child list ----------

    method GetArrayItem(parent: Ptr, which: nat, ghost ptrs: seq<Ptr>) returns (item: Ptr)
      requires IsList(nodes, parent, ptrs)
      ensures item == PtrAt(ptrs, which)
    {
      item := nodes[parent].child;
      var index := which;
      ItemOf(nodes, ptrs, 0);
      while item != 0 && index > 0
        invariant 0 <= index <= which && item == PtrAt(ptrs, which - index)
        invariant item == 0 ==> |ptrs| <= which - index
        decreases index
      {
        assert LinkedAt(nodes, ptrs, which - index);
        NextOf(nodes, ptrs, which - index);
        index := index - 1;
        item := nodes[item].next;
      }
    }

    /**
     Appends an item and whatever follows it, `more` in all. In an empty list the item's own back link is
     left as it is.
     */
    method AddItemToArray(parent: Ptr, item: Ptr, ghost ptrs: seq<Ptr>, ghost more: seq<Ptr>) returns (ok: bool)
      requires parent != 0 ==> IsList(nodes, parent, ptrs)
      requires parent != 0 && item != 0 ==>
                 Hanging(nodes, more) && item == more[0] && parent !in more && forall p <- more :: p !in ptrs
      modifies this`nodes
      ensures ok == (parent != 0 && item != 0)
      ensures !ok ==> nodes == old(nodes)
      ensures ok ==>
                && item in old(nodes)
                && (ptrs != [] || old(nodes)[item].prev == 0 ==> IsList(nodes, parent, ptrs + more))
                && (ptrs == [] ==> nodes == old(nodes)[parent := old(nodes)[parent].(child := item)])
                && Relinked(old(nodes), nodes, parent, (set p <- ptrs) + {item})
    {
      if parent == 0 || item == 0 {
        return false;
      }
      var child := nodes[parent].child;
      assert HangingAt(nodes, more, 0) && more[0] in more;
      assert Linked(nodes, ptrs) && child == PtrAt(ptrs, 0);
      hide IsList, Linked, Distinct, Relinked, Hanging;
      ItemOf(nodes, ptrs, 0);
      if child == 0 {
        SetChild(parent, item);
        LinkFirst(old(nodes), nodes, ptrs, more, parent);
      } else {
        ghost var i := 0;
        NextOf(nodes, ptrs, i);
        while nodes[child].next != 0
          invariant 0 <= i < |ptrs| && child == ptrs[i] && LinkedAt(nodes, ptrs, i)
          invariant nodes == old(nodes)
          decreases |ptrs| - i
        {
          NextOf(nodes, ptrs, i);
          child := nodes[child].next;
          i := i + 1;
          NextOf(nodes, ptrs, i);
        }
        NextOf(nodes, ptrs, i);
        assert child in ptrs && item in more;
        SetNext(child, item);
        SetPrev(item, child);
        LinkAppended(old(nodes), nodes, ptrs, more, parent);
      }
      return true;
    }

    /** Inserts before the item at this index, whatever its own links, or appends when there is none. */
    method InsertItemInArray(parent: Ptr, which: int, newitem: Ptr, ghost ptrs: seq<Ptr>, ghost more: seq<Ptr>)
      requires IsList(nodes, parent, ptrs)
      requires newitem != 0 && newitem in nodes && newitem !in ptrs && newitem != parent
      requires which >= |ptrs| ==>
                 Hanging(nodes, more) && newitem == more[0] && parent !in more && forall p <- more :: p !in ptrs
      modifies this`nodes
      ensures which < 0 ==> nodes == old(nodes)
      ensures which < |ptrs| ==> IsList(nodes, parent, Inserted(ptrs, which, newitem))
      ensures which >= |ptrs| && (ptrs != [] || old(nodes)[newitem].prev == 0) ==> IsList(nodes, parent, ptrs + more)
      ensures Relinked(old(nodes), nodes, parent, (set p <- ptrs) + {newitem})
    {
      if which < 0 {
        return;
      }
      var after := GetArrayItem(parent, which, ptrs);
      ItemOf(nodes, ptrs, which);
      if after == 0 {
        var ok := AddItemToArray(parent, newitem, ptrs, more);
        return;
      }
      Around(nodes, ptrs, which, parent);
      hide IsList, Linked, LinkedAt, Distinct, PtrAt, Relinked;
      SetNext(newitem, after);
      SetPrev(newitem, nodes[after].prev);
      SetPrev(after, newitem);
      if after == nodes[parent].child {
        SetChild(parent, newitem);
      } else {
        SetNext(nodes[newitem].prev, newitem);
      }
      LinkInserted(old(nodes), nodes, ptrs, which, newitem, parent);
    }

    /** Takes an item out of the list; its links are null afterwards. */
    method DetachItemViaPointer(parent: Ptr, item: Ptr, ghost ptrs: seq<Ptr>, ghost which: nat)
      requires IsList(nodes, parent, ptrs) && which < |ptrs| && item == ptrs[which]
      modifies this`nodes
      ensures IsList(nodes, parent, RemovedAt(ptrs, which)) && Loose(nodes, item)
      ensures Relinked(old(nodes), nodes, parent, set p <- ptrs)
    {
      Around(nodes, ptrs, which, parent);
      hide IsList, Linked, LinkedAt, Distinct, PtrAt, Relinked, Loose;
      if nodes[item].prev != 0 {
        SetNext(nodes[item].prev, nodes[item].next);
      }
      if nodes[item].next != 0 {
        SetPrev(nodes[item].next, nodes[item].prev);
      }
      if item == nodes[parent].child {
        SetChild(parent, nodes[item].next);
      }
      SetPrev(item, 0);
      SetNext(item, 0);
      LinkRemoved(old(nodes), nodes, ptrs, which, parent);
    }

    /** Links a node to its neighbours, where it has them, and them to it. */
    method LinkBetween(p: Ptr, prev: Ptr, next: Ptr)
      requires p in nodes && p != prev && p != next
      requires prev != 0 ==> prev in nodes && prev != next
      requires next != 0 ==> next in nodes
      modifies this`nodes
      ensures nodes.Keys == old(nodes).Keys
      ensures nodes[p] == old(nodes)[p].(next := next, prev := prev)
      ensures prev != 0 ==> nodes[prev] == old(nodes)[prev].(next := p)
      ensures next != 0 ==> nodes[next] == old(nodes)[next].(prev := p)
      ensures forall q <- old(nodes) ::
                q != p && (prev != 0 ==> q != prev) && (next != 0 ==> q != next) ==> nodes[q] == old(nodes)[q]
    {
      SetNext(p, next);
      SetPrev(p, prev);
      if nodes[p].next != 0 {
        SetPrev(nodes[p].next, p);
      }
      if nodes[p].prev != 0 {
        SetNext(nodes[p].prev, p);
      }
    }

    /** Puts another node in an item's place; the item's links are null afterwards. */
    method Exchange(parent: Ptr, item: Ptr, replacement: Ptr, ghost ptrs: seq<Ptr>, ghost which: nat)
      requires IsList(nodes, parent, ptrs) && which < |ptrs| && item == ptrs[which]
      requires replacement != 0 && replacement in nodes && replacement !in ptrs && replacement != parent
      modifies this`nodes
      ensures IsList(nodes, parent, ptrs[which := replacement]) && Loose(nodes, item)
      ensures Relinked(old(nodes), nodes, parent, (set p <- ptrs) + {replacement})
    {
      Around(nodes, ptrs, which, parent);
      hide IsList, Linked, LinkedAt, Distinct, PtrAt, Relinked, Loose;
      LinkBetween(replacement, nodes[item].prev, nodes[item].next);
      if nodes[parent].child == item {
        SetChild(parent, replacement);
      }
      SetNext(item, 0);
      SetPrev(item, 0);
      LinkExchanged(old(nodes), nodes, ptrs, which, replacement, parent);
    }
  }

  // ---------- links ----------

  lemma ItemOf(nodes: Nodes, ptrs: seq<Ptr>, i: nat)
    requires Linked(nodes, ptrs)
    ensures PtrAt(ptrs, i) == 0 <==> |ptrs| <= i
  {
    if i < |ptrs| {
      assert LinkedAt(nodes, ptrs, i);
    }
  }

  lemma NextOf(nodes: Nodes, ptrs: seq<Ptr>, i: nat)
    requires Linked(nodes, ptrs) && i < |ptrs|
    ensures LinkedAt(nodes, ptrs, i)
    ensures nodes[ptrs[i]].next == 0 ==> i == |ptrs| - 1
    ensures nodes[ptrs[i]].next != 0 ==>
              i + 1 < |ptrs| && nodes[ptrs[i]].next == ptrs[i + 1] && ptrs[i + 1] in nodes && ptrs[i + 1] != ptrs[i]
  {
    assert LinkedAt(nodes, ptrs, i);
    if i + 1 < |ptrs| {
      assert LinkedAt(nodes, ptrs, i + 1);
    }
  }

  /** The neighbours of an item: all different, and different from the parent. */
  lemma Around(nodes: Nodes, ptrs: seq<Ptr>, i: nat, parent: Ptr)
    requires IsList(nodes, parent, ptrs) && i < |ptrs|
    ensures ptrs[i] in nodes && ptrs[i] != 0 && ptrs[i] != parent && ptrs[i] in ptrs
    ensures var b, c := nodes[ptrs[i]].prev, nodes[ptrs[i]].next;
            b == PtrAt(ptrs, i - 1) && c == PtrAt(ptrs, i + 1)
            && (b == 0 <==> i == 0) && (c == 0 <==> i == |ptrs| - 1)
            && (b != 0 ==> b == ptrs[i - 1] && b in ptrs && b in nodes && b != ptrs[i] && b != parent && b != c)
            && (c != 0 ==> c == ptrs[i + 1] && c in ptrs && c in nodes && c != ptrs[i] && c != parent)
    ensures nodes[parent].child == ptrs[i] <==> i == 0
  {
    assert LinkedAt(nodes, ptrs, i);
    if i > 0 {
      assert LinkedAt(nodes, ptrs, i - 1);
    }
    if i + 1 < |ptrs| {
      assert LinkedAt(nodes, ptrs, i + 1);
    }
  }

  lemma LooseHangs(nodes: Nodes, item: Ptr)
    requires Loose(nodes, item)
    ensures Hanging(nodes, [item])
  {
    assert HangingAt(nodes, [item], 0);
  }

  lemma LinkFirst(n0: Nodes, n1: Nodes, ptrs: seq<Ptr>, more: seq<Ptr>, parent: Ptr)
    requires IsList(n0, parent, ptrs) && ptrs == [] && Hanging(n0, more) && parent !in more && more[0] in n0
    requires n1 == n0[parent := n0[parent].(child := more[0])]
    ensures n0[more[0]].prev == 0 ==> IsList(n1, parent, ptrs + more)
    ensures Relinked(n0, n1, parent, (set p <- ptrs) + {more[0]})
  {
    assert ptrs + more == more;
    if n0[more[0]].prev == 0 {
      forall i | 0 <= i < |more| ensures LinkedAt(n1, more, i) {
        assert HangingAt(n0, more, i);
      }
    }
  }

  lemma LinkAppended(n0: Nodes, n1: Nodes, ptrs: seq<Ptr>, more: seq<Ptr>, parent: Ptr)
    requires IsList(n0, parent, ptrs) && ptrs != [] && Hanging(n0, more)
    requires parent !in more && (forall p <- more :: p !in ptrs) && more[0] in n0
    requires var last, item := ptrs[|ptrs| - 1], more[0];
             last in n0 && n1 == n0[last := n0[last].(next := item)][item := n0[item].(prev := last)]
    ensures IsList(n1, parent, ptrs + more)
    ensures Relinked(n0, n1, parent, (set p <- ptrs) + {more[0]})
  {
    var all := ptrs + more;
    forall i, j | 0 <= i < j < |all| ensures all[i] != all[j] {
      if i < |ptrs| <= j {
        assert all[j] == more[j - |ptrs|] && all[j] in more;
      }
    }
    forall i | 0 <= i < |all| ensures LinkedAt(n1, all, i) {
      if i < |ptrs| {
        assert LinkedAt(n0, ptrs, i) && ptrs[i] in ptrs && more[0] in more;
        assert PtrAt(all, i - 1) == PtrAt(ptrs, i - 1);
      } else {
        var k := i - |ptrs|;
        assert HangingAt(n0, more, k) && more[k] in more && all[i] == more[k];
        assert PtrAt(all, i + 1) == PtrAt(more, k + 1);
        assert k > 0 ==> PtrAt(all, i - 1) == PtrAt(more, k - 1) && more[k] != more[0];
      }
    }
  }

  /** The pointer writes of an insertion before the item at `w`. */
  ghost predicate InsertedLinks(n0: Nodes, n1: Nodes, ptrs: seq<Ptr>, w: nat, item: Ptr, parent: Ptr) {
    && w < |ptrs| && item != 0 && item in n0 && item !in ptrs && item != parent
    && n1.Keys == n0.Keys && ptrs[w] in n0 && parent in n0 && (w > 0 ==> ptrs[w - 1] in n0)
    && n1[item] == n0[item].(next := ptrs[w], prev := PtrAt(ptrs, w - 1))
    && n1[ptrs[w]] == n0[ptrs[w]].(prev := item)
    && (if w == 0 then n1[parent] == n0[parent].(child := item)
        else n1[ptrs[w - 1]] == n0[ptrs[w - 1]].(next := item))
    && (forall p <- n0 :: p != item && p != ptrs[w] && (if w == 0 then p != parent else p != ptrs[w - 1])
                          ==> n1[p] == n0[p])
  }

  lemma LinkInserted(n0: Nodes, n1: Nodes, ptrs: seq<Ptr>, w: nat, item: Ptr, parent: Ptr)
    requires IsList(n0, parent, ptrs) && InsertedLinks(n0, n1, ptrs, w, item, parent)
    ensures IsList(n1, parent, ptrs[..w] + [item] + ptrs[w..])
    ensures Relinked(n0, n1, parent, (set p <- ptrs) + {item})
  {
    var all := ptrs[..w] + [item] + ptrs[w..];
    forall i | 0 <= i < |all| ensures LinkedAt(n1, all, i) {
      if i < w {
        assert LinkedAt(n0, ptrs, i);
      } else if i > w {
        assert LinkedAt(n0, ptrs, i - 1);
      } else {
        assert LinkedAt(n0, ptrs, w);
      }
    }
    assert Relinked(n0, n1, parent, (set p <- ptrs) + {item}) by {
      hide Linked, Distinct;
    }
  }

  /** The pointer writes that take the item at `w` out. */
  ghost predicate RemovedLinks(n0: Nodes, n1: Nodes, ptrs: seq<Ptr>, w: nat, parent: Ptr) {
    && w < |ptrs| && n1.Keys == n0.Keys && ptrs[w] in n0 && parent in n0
    && n1[ptrs[w]] == n0[ptrs[w]].(next := 0, prev := 0)
    && (if w > 0 then ptrs[w - 1] in n0 && n1[ptrs[w - 1]] == n0[ptrs[w - 1]].(next := PtrAt(ptrs, w + 1))
        else n1[parent] == n0[parent].(child := PtrAt(ptrs, 1)))
    && (w + 1 < |ptrs| ==>
          ptrs[w + 1] in n0 && n1[ptrs[w + 1]] == n0[ptrs[w + 1]].(prev := PtrAt(ptrs, w - 1)))
    && (forall p <- n0 :: p != ptrs[w] && (w + 1 < |ptrs| ==> p != ptrs[w + 1])
                          && (if w == 0 then p != parent else p != ptrs[w - 1])
                          ==> n1[p] == n0[p])
  }

  lemma LinkRemoved(n0: Nodes, n1: Nodes, ptrs: seq<Ptr>, w: nat, parent: Ptr)
    requires IsList(n0, parent, ptrs) && RemovedLinks(n0, n1, ptrs, w, parent)
    ensures IsList(n1, parent, RemovedAt(ptrs, w)) && Loose(n1, ptrs[w])
    ensures Relinked(n0, n1, parent, set p <- ptrs)
  {
    var all := RemovedAt(ptrs, w);
    assert LinkedAt(n0, ptrs, w);
    forall i | 0 <= i < |all| ensures LinkedAt(n1, all, i) {
      assert LinkedAt(n0, ptrs, if i < w then i else i + 1);
    }
    assert Relinked(n0, n1, parent, set p <- ptrs) by {
      hide Linked, Distinct;
    }
  }

  /** The pointer writes that put `item` in the place of the one at `w`. */
  ghost predicate ExchangedLinks(n0: Nodes, n1: Nodes, ptrs: seq<Ptr>, w: nat, item: Ptr, parent: Ptr) {
    && w < |ptrs| && item != 0 && item in n0 && item !in ptrs && item != parent
    && n1.Keys == n0.Keys && ptrs[w] in n0 && parent in n0
    && n1[item] == n0[item].(next := PtrAt(ptrs, w + 1), prev := PtrAt(ptrs, w - 1))
    && n1[ptrs[w]] == n0[ptrs[w]].(next := 0, prev := 0)
    && (if w > 0 then ptrs[w - 1] in n0 && n1[ptrs[w - 1]] == n0[ptrs[w - 1]].(next := item)
        else n1[parent] == n0[parent].(child := item))
    && (w + 1 < |ptrs| ==> ptrs[w + 1] in n0 && n1[ptrs[w + 1]] == n0[ptrs[w + 1]].(prev := item))
    && (forall p <- n0 :: p != item && p != ptrs[w] && (w + 1 < |ptrs| ==> p != ptrs[w + 1])
                          && (if w == 0 then p != parent else p != ptrs[w - 1])
                          ==> n1[p] == n0[p])
  }

  lemma LinkExchanged(n0: Nodes, n1: Nodes, ptrs: seq<Ptr>, w: nat, item: Ptr, parent: Ptr)
    requires IsList(n0, parent, ptrs) && ExchangedLinks(n0, n1, ptrs, w, item, parent)
    ensures IsList(n1, parent, ptrs[w := item]) && Loose(n1, ptrs[w])
    ensures Relinked(n0, n1, parent, (set p <- ptrs) + {item})
  {
    var all := ptrs[w := item];
    assert LinkedAt(n0, ptrs, w);
    forall i | 0 <= i < |all| ensures LinkedAt(n1, all, i) {
      assert LinkedAt(n0, ptrs, i);
    }
    assert Relinked(n0, n1, parent, (set p <- ptrs) + {item}) by {
      hide Linked, Distinct;
    }
  }
}
