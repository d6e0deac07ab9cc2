/** JSON values as cJSON holds them, with members in order and duplicate keys kept. */
module JsonValue {
  import opened Bytes
  import opened JsonNumber

  datatype Json =
    | Null
    | False
    | True
    | Number(value: real)
    | String(text: Text)
    | Array(items: seq<Json>)
    | Object(members: seq<Member>)

  datatype Member = Member(key: Text, value: Json)

  /** Arrays and objects may be nested this deep and no deeper. */
  const NESTING_LIMIT: nat := 1000

  function Max(a: nat, b: nat): nat {
    if a < b then b else a
  }

  /** Levels of arrays and objects in a value. */
  function Depth(v: Json): nat
    decreases v, 0
  {
    match v
    case Array(items) => 1 + ItemsDepth(items)
    case Object(members) => 1 + MembersDepth(members)
    case _ => 0
  }

  function ItemsDepth(items: seq<Json>): nat
    decreases items, 1
  {
    if items == [] then 0 else Max(Depth(items[0]), ItemsDepth(items[1..]))
  }

  function MembersDepth(members: seq<Member>): nat
    decreases members, 1
  {
    if members == [] then 0 else Max(Depth(members[0].value), MembersDepth(members[1..]))
  }

  /** Every string and key is a C string: it holds no NUL. */
  predicate CStrings(v: Json)
    decreases v, 0
  {
    match v
    case String(t) => NUL !in t
    case Array(items) => ItemsCStrings(items)
    case Object(members) => MembersCStrings(members)
    case _ => true
  }

  predicate ItemsCStrings(items: seq<Json>)
    decreases items, 1
  {
    items == [] || (CStrings(items[0]) && ItemsCStrings(items[1..]))
  }

  predicate MembersCStrings(members: seq<Member>)
    decreases members, 1
  {
    members == [] || (NUL !in members[0].key && CStrings(members[0].value) && MembersCStrings(members[1..]))
  }

  /** The value as C readers see it: every string and key ends at its first NUL. */
  function Cut(v: Json): (r: Json)
    ensures CStrings(r)
    ensures Depth(r) == Depth(v)
    decreases v, 0
  {
    match v
    case String(t) => String(CString(t))
    case Array(items) => Array(CutItems(items))
    case Object(members) => Object(CutMembers(members))
    case _ => v
  }

  function CutItems(items: seq<Json>): (r: seq<Json>)
    ensures ItemsCStrings(r)
    ensures ItemsDepth(r) == ItemsDepth(items)
    decreases items, 1
  {
    if items == [] then [] else [Cut(items[0])] + CutItems(items[1..])
  }

  function CutMembers(members: seq<Member>): (r: seq<Member>)
    ensures MembersCStrings(r)
    ensures MembersDepth(r) == MembersDepth(members)
    decreases members, 1
  {
    if members == [] then []
    else [Member(CString(members[0].key), Cut(members[0].value))] + CutMembers(members[1..])
  }

  /** Cutting changes nothing exactly when no string or key holds a NUL. */
  lemma {:induction false} CutIsIdentity(v: Json)
    ensures Cut(v) == v <==> CStrings(v)
    decreases v, 0
  {
    match v
    case Array(items) => CutItemsIsIdentity(items);
    case Object(members) => CutMembersIsIdentity(members);
    case _ =>
  }

  lemma {:induction false} CutItemsIsIdentity(items: seq<Json>)
    ensures CutItems(items) == items <==> ItemsCStrings(items)
    decreases items, 1
  {
    if items != [] {
      CutIsIdentity(items[0]);
      CutItemsIsIdentity(items[1..]);
      assert items == [items[0]] + items[1..];
    }
  }

  lemma {:induction false} CutMembersIsIdentity(members: seq<Member>)
    ensures CutMembers(members) == members <==> MembersCStrings(members)
    decreases members, 1
  {
    if members != [] {
      CutIsIdentity(members[0].value);
      CutMembersIsIdentity(members[1..]);
      assert members == [members[0]] + members[1..];
    }
  }

  /** Integers whose shortest decimal form has at most fifteen digits. */
  predicate PlainInteger(r: real) {
    r == r.Floor as real && -1000000000000000 < r.Floor < 1000000000000000
  }

  /** Values the printer is modelled on: C strings, and numbers in the integer fragment. */
  predicate Printable(v: Json)
    decreases v, 0
  {
    match v
    case Number(r) => PlainInteger(r)
    case String(t) => NUL !in t
    case Array(items) => PrintableItems(items)
    case Object(members) => PrintableMembers(members)
    case _ => true
  }

  predicate PrintableItems(items: seq<Json>)
    decreases items, 1
  {
    items == [] || (Printable(items[0]) && PrintableItems(items[1..]))
  }

  predicate PrintableMembers(members: seq<Member>)
    decreases members, 1
  {
    members == [] || (NUL !in members[0].key && Printable(members[0].value) && PrintableMembers(members[1..]))
  }
}
