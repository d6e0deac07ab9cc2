/**
 Comparison of two trees that share no node. `Compare` is what the code computes: arrays item by
 item, objects by looking every member of either side up in the other. `Canonical` is the meaning
 it is held against: objects as unordered maps from key to value.
 */
module JsonCompare {
  import opened Wrappers
  import opened Bytes
  import opened JsonValue

  function LowerByte(b: Byte): Byte {
    if 65 <= b <= 90 then b + 32 else b
  }

  function Lower(t: Text): (r: Text)
    ensures |r| == |t|
  {
    if t == [] then [] else [LowerByte(t[0])] + Lower(t[1..])
  }

  /** The key as the chosen kind of matching sees it. */
  function Fold(key: Text, caseSensitive: bool): Text {
    if caseSensitive then key else Lower(key)
  }

  // What folding is for: two keys fold to one when they differ in the case of letters at most.

  predicate IsCapital(b: Byte) {
    65 <= b <= 90
  }

  predicate SameLetter(a: Byte, b: Byte) {
    a == b || (IsCapital(a) && b == a + 32) || (IsCapital(b) && a == b + 32)
  }

  predicate SameButCase(s: Text, t: Text) {
    |s| == |t| && forall i :: 0 <= i < |s| ==> SameLetter(s[i], t[i])
  }

  lemma {:induction false} FoldIgnoresCase(s: Text, t: Text)
    ensures Fold(s, false) == Fold(t, false) <==> SameButCase(s, t)
    ensures Fold(s, true) == Fold(t, true) <==> s == t
    decreases |s|
  {
    if s != [] && t != [] {
      FoldIgnoresCase(s[1..], t[1..]);
      assert Lower(s) == [LowerByte(s[0])] + Lower(s[1..]) && Lower(t) == [LowerByte(t[0])] + Lower(t[1..]);
      assert Lower(s)[1..] == Lower(s[1..]) && Lower(t)[1..] == Lower(t[1..]);
      assert forall i :: 0 <= i < |s| - 1 ==> s[1..][i] == s[i + 1];
      assert forall i :: 0 <= i < |t| - 1 ==> t[1..][i] == t[i + 1];
    }
  }

  /** The byte of a C string at a place, the terminator included. */
  function CharAt(t: Text, i: nat): Byte {
    if i < |t| then t[i] else NUL
  }

  /** The comparison byte by byte; it stops on the first difference or on both terminators. */
  method CaseInsensitiveStrcmp(s: Text, t: Text) returns (difference: int)
    requires NUL !in s && NUL !in t
    ensures difference == 0 <==> SameButCase(s, t)
  {
    var i := 0;
    while LowerByte(CharAt(s, i)) == LowerByte(CharAt(t, i))
      invariant i <= |s| && i <= |t| && forall k :: 0 <= k < i ==> SameLetter(s[k], t[k])
      decreases |s| - i
    {
      if CharAt(s, i) == NUL {
        return 0;
      }
      assert SameLetter(s[i], t[i]);
      i := i + 1;
    }
    return LowerByte(CharAt(s, i)) - LowerByte(CharAt(t, i));
  }

  /** The first member whose key matches `name`. */
  function Lookup(members: seq<Member>, name: Text, caseSensitive: bool): (r: Option<Json>)
    ensures r.Some? ==> exists i :: 0 <= i < |members| && members[i].value == r.value
    ensures r.Some? ==> Depth(r.value) <= MembersDepth(members)
  {
    if members == [] then None
    else if Fold(name, caseSensitive) == Fold(members[0].key, caseSensitive) then Some(members[0].value)
    else
      var r := Lookup(members[1..], name, caseSensitive);
      assert r.Some? ==> exists i :: 0 <= i < |members[1..]| && members[1..][i].value == r.value;
      assert forall i :: 0 <= i < |members[1..]| ==> members[1..][i] == members[i + 1];
      r
  }

  function Compare(a: Json, b: Json, caseSensitive: bool): bool
    decreases Depth(a) + Depth(b), 2, 0
  {
    match (a, b)
    case (Null, Null) => true
    case (False, False) => true
    case (True, True) => true
    case (Number(x), Number(y)) => x == y
    case (String(s), String(t)) => s == t
    case (Array(xs), Array(ys)) => CompareItems(xs, ys, caseSensitive)
    case (Object(ms), Object(ns)) => AllFound(ms, ns, caseSensitive) && AllFound(ns, ms, caseSensitive)
    case _ => false
  }

  function CompareItems(xs: seq<Json>, ys: seq<Json>, caseSensitive: bool): bool
    decreases ItemsDepth(xs) + ItemsDepth(ys), 3, |xs|
  {
    if xs == [] || ys == [] then xs == [] && ys == []
    else Compare(xs[0], ys[0], caseSensitive) && CompareItems(xs[1..], ys[1..], caseSensitive)
  }

  /** Every member of `ms` finds its key in `ns`, with an equal value there. */
  function AllFound(ms: seq<Member>, ns: seq<Member>, caseSensitive: bool): bool
    decreases MembersDepth(ms) + MembersDepth(ns), 3, |ms|
  {
    ms == []
    || (match Lookup(ns, ms[0].key, caseSensitive)
        case None => false
        case Some(v) => Compare(ms[0].value, v, caseSensitive) && AllFound(ms[1..], ns, caseSensitive))
  }

  // ---------- the code ----------

  method GetObjectItem(members: seq<Member>, name: Text, caseSensitive: bool) returns (r: Option<Json>)
    ensures r == Lookup(members, name, caseSensitive)
  {
    var i := 0;
    while i < |members| && Fold(name, caseSensitive) != Fold(members[i].key, caseSensitive)
      invariant 0 <= i <= |members|
      invariant Lookup(members, name, caseSensitive) == Lookup(members[i..], name, caseSensitive)
    {
      assert members[i..][1..] == members[i + 1..];
      i := i + 1;
    }
    r := if i < |members| then Some(members[i].value) else None;
  }

  method CompareTrees(a: Json, b: Json, caseSensitive: bool) returns (equal: bool)
    ensures equal == Compare(a, b, caseSensitive)
    decreases Depth(a) + Depth(b), 2
  {
    match (a, b) {
      case (Number(x), Number(y)) =>
        return x == y;
      case (String(s), String(t)) =>
        return s == t;
      case (Array(xs), Array(ys)) =>
        equal := CompareArrays(xs, ys, caseSensitive);
      case (Object(ms), Object(ns)) =>
        equal := FindAll(ms, ns, caseSensitive);
        if equal {
          equal := FindAll(ns, ms, caseSensitive);
        }
      case _ =>
        return a == b;
    }
  }

  /** Walks both lists at once; they must end together. */
  method CompareArrays(xs: seq<Json>, ys: seq<Json>, caseSensitive: bool) returns (equal: bool)
    ensures equal == CompareItems(xs, ys, caseSensitive)
    decreases ItemsDepth(xs) + ItemsDepth(ys), 3
  {
    var i := 0;
    while i < |xs| && i < |ys|
      invariant 0 <= i <= |xs| && i <= |ys|
      invariant CompareItems(xs, ys, caseSensitive) == CompareItems(xs[i..], ys[i..], caseSensitive)
      invariant ItemsDepth(xs[i..]) <= ItemsDepth(xs) && ItemsDepth(ys[i..]) <= ItemsDepth(ys)
    {
      assert xs[i..][1..] == xs[i + 1..] && ys[i..][1..] == ys[i + 1..];
      var same := CompareTrees(xs[i], ys[i], caseSensitive);
      if !same {
        return false;
      }
      i := i + 1;
    }
    return i == |xs| && i == |ys|;
  }

  method FindAll(ms: seq<Member>, ns: seq<Member>, caseSensitive: bool) returns (found: bool)
    ensures found == AllFound(ms, ns, caseSensitive)
    decreases MembersDepth(ms) + MembersDepth(ns), 3
  {
    var i := 0;
    while i < |ms|
      invariant 0 <= i <= |ms|
      invariant AllFound(ms, ns, caseSensitive) == AllFound(ms[i..], ns, caseSensitive)
      invariant MembersDepth(ms[i..]) <= MembersDepth(ms)
    {
      assert ms[i..][1..] == ms[i + 1..];
      var v := GetObjectItem(ns, ms[i].key, caseSensitive);
      if v == None {
        return false;
      }
      var same := CompareTrees(ms[i].value, v.value, caseSensitive);
      if !same {
        return false;
      }
      i := i + 1;
    }
    return true;
  }

  // ---------- the meaning ----------

  datatype Canon =
    | CNull
    | CFalse
    | CTrue
    | CNumber(value: real)
    | CText(text: Text)
    | CArray(items: seq<Canon>)
    | CObject(members: map<Text, Canon>)

  function Canonical(v: Json, caseSensitive: bool): Canon
    decreases v, 0
  {
    match v
    case Null => CNull
    case False => CFalse
    case True => CTrue
    case Number(x) => CNumber(x)
    case String(t) => CText(t)
    case Array(items) => CArray(CanonicalItems(items, caseSensitive))
    case Object(members) => CObject(CanonicalMembers(members, caseSensitive))
  }

  function CanonicalItems(items: seq<Json>, caseSensitive: bool): (r: seq<Canon>)
    ensures |r| == |items|
    decreases items, 1
  {
    if items == [] then []
    else [Canonical(items[0], caseSensitive)] + CanonicalItems(items[1..], caseSensitive)
  }

  /** Of several members with one key the first counts. */
  function CanonicalMembers(members: seq<Member>, caseSensitive: bool): map<Text, Canon>
    decreases members, 1
  {
    if members == [] then map[]
    else
      CanonicalMembers(members[1..], caseSensitive)
      [Fold(members[0].key, caseSensitive) := Canonical(members[0].value, caseSensitive)]
  }

  /** Wherever a key repeats in an object, the values under it mean the same. */
  predicate Coherent(v: Json, caseSensitive: bool)
    decreases v, 0
  {
    match v
    case Array(items) => CoherentItems(items, caseSensitive)
    case Object(members) => CoherentMembers(members, CanonicalMembers(members, caseSensitive), caseSensitive)
    case _ => true
  }

  predicate CoherentItems(items: seq<Json>, caseSensitive: bool)
    decreases items, 1
  {
    items == [] || (Coherent(items[0], caseSensitive) && CoherentItems(items[1..], caseSensitive))
  }

  /** Each member agrees with what the object as a whole has under its key. */
  predicate CoherentMembers(members: seq<Member>, whole: map<Text, Canon>, caseSensitive: bool)
    decreases members, 1
  {
    members == []
    || (Coherent(members[0].value, caseSensitive)
        && Fold(members[0].key, caseSensitive) in whole
        && whole[Fold(members[0].key, caseSensitive)] == Canonical(members[0].value, caseSensitive)
        && CoherentMembers(members[1..], whole, caseSensitive))
  }

  lemma {:induction false} LookupMeans(members: seq<Member>, name: Text, caseSensitive: bool)
    ensures var r, m, k := Lookup(members, name, caseSensitive), CanonicalMembers(members, caseSensitive),
                           Fold(name, caseSensitive);
            (r.Some? <==> k in m) && (r.Some? ==> Canonical(r.value, caseSensitive) == m[k])
  {
    hide Canonical, Fold;
    if members != [] {
      LookupMeans(members[1..], name, caseSensitive);
    }
  }

  /** What a looked-up value inherits from its object. */
  lemma {:induction false} LookupIsCoherent(members: seq<Member>, whole: map<Text, Canon>, name: Text,
                                            caseSensitive: bool)
    requires CoherentMembers(members, whole, caseSensitive)
    ensures Lookup(members, name, caseSensitive).Some? ==>
              Coherent(Lookup(members, name, caseSensitive).value, caseSensitive)
  {
    if members != [] {
      LookupIsCoherent(members[1..], whole, name, caseSensitive);
    }
  }

  /**
   Two trees compare equal if and only if they mean the same and neither contradicts itself under a
   repeated key.
   */
  lemma {:induction false} CompareIsMeaning(a: Json, b: Json, cs: bool)
    ensures Compare(a, b, cs) <==> Coherent(a, cs) && Coherent(b, cs) && Canonical(a, cs) == Canonical(b, cs)
    decreases Depth(a) + Depth(b), 2, 0
  {
    match (a, b)
    case (Array(xs), Array(ys)) => ItemsAreMeaning(xs, ys, cs);
    case (Object(ms), Object(ns)) => ObjectsAreMeaning(ms, ns, cs);
    case _ =>
  }

  lemma {:induction false} ItemsAreMeaning(xs: seq<Json>, ys: seq<Json>, cs: bool)
    ensures CompareItems(xs, ys, cs)
            <==> CoherentItems(xs, cs) && CoherentItems(ys, cs) && CanonicalItems(xs, cs) == CanonicalItems(ys, cs)
    decreases ItemsDepth(xs) + ItemsDepth(ys), 3, |xs|
  {
    hide Compare, Coherent, Canonical;
    if xs != [] && ys != [] {
      CompareIsMeaning(xs[0], ys[0], cs);
      ItemsAreMeaning(xs[1..], ys[1..], cs);
      var cx, cy := CanonicalItems(xs, cs), CanonicalItems(ys, cs);
      assert cx[0] == Canonical(xs[0], cs) && cx[1..] == CanonicalItems(xs[1..], cs);
      assert cy[0] == Canonical(ys[0], cs) && cy[1..] == CanonicalItems(ys[1..], cs);
    }
  }

  /** Every member finds an equal value: in terms of meaning, member by member. */
  ghost predicate Agrees(ms: seq<Member>, ns: seq<Member>, cs: bool) {
    forall i :: 0 <= i < |ms| ==> MemberAgrees(ms[i], ns, cs)
  }

  ghost predicate MemberAgrees(m: Member, ns: seq<Member>, cs: bool) {
    var r := Lookup(ns, m.key, cs);
    r.Some? && Coherent(m.value, cs) && Coherent(r.value, cs) && Canonical(m.value, cs) == Canonical(r.value, cs)
  }

  lemma {:induction false} AllFoundIsAgreement(ms: seq<Member>, ns: seq<Member>, cs: bool)
    ensures AllFound(ms, ns, cs) <==> Agrees(ms, ns, cs)
    decreases MembersDepth(ms) + MembersDepth(ns), 3, |ms|
  {
    hide Compare, Coherent, Canonical;
    if ms != [] {
      var r := Lookup(ns, ms[0].key, cs);
      if r.Some? {
        CompareIsMeaning(ms[0].value, r.value, cs);
        AllFoundIsAgreement(ms[1..], ns, cs);
        AgreesCons(ms, ns, cs);
      } else {
        assert !MemberAgrees(ms[0], ns, cs);
      }
    }
  }

  lemma AgreesCons(ms: seq<Member>, ns: seq<Member>, cs: bool)
    requires ms != []
    ensures Agrees(ms, ns, cs) <==> MemberAgrees(ms[0], ns, cs) && Agrees(ms[1..], ns, cs)
  {
    hide MemberAgrees;
    assert forall i :: 1 <= i < |ms| ==> ms[i] == ms[1..][i - 1];
  }

  lemma {:induction false} CoherentMember(ms: seq<Member>, whole: map<Text, Canon>, cs: bool, i: nat)
    requires CoherentMembers(ms, whole, cs) && i < |ms|
    ensures Coherent(ms[i].value, cs) && Fold(ms[i].key, cs) in whole
    ensures whole[Fold(ms[i].key, cs)] == Canonical(ms[i].value, cs)
  {
    hide Coherent, Canonical, Fold;
    if i > 0 {
      CoherentMember(ms[1..], whole, cs, i - 1);
    }
  }

  lemma {:induction false} CoherentFromEach(ms: seq<Member>, whole: map<Text, Canon>, cs: bool)
    requires forall i :: 0 <= i < |ms| ==>
               Coherent(ms[i].value, cs) && Fold(ms[i].key, cs) in whole
               && whole[Fold(ms[i].key, cs)] == Canonical(ms[i].value, cs)
    ensures CoherentMembers(ms, whole, cs)
  {
    hide Coherent, Canonical, Fold;
    if ms != [] {
      assert forall i :: 0 <= i < |ms[1..]| ==> ms[1..][i] == ms[i + 1];
      CoherentFromEach(ms[1..], whole, cs);
    }
  }

  /** Keys of the map are exactly the folded keys of the members. */
  lemma {:induction false} KeysOfMembers(ms: seq<Member>, cs: bool)
    ensures forall k :: k in CanonicalMembers(ms, cs) <==> exists i :: 0 <= i < |ms| && Fold(ms[i].key, cs) == k
  {
    hide Canonical, Fold;
    if ms != [] {
      KeysOfMembers(ms[1..], cs);
      assert forall i :: 1 <= i < |ms| ==> ms[i] == ms[1..][i - 1];
      forall k ensures k in CanonicalMembers(ms, cs) <==> exists i :: 0 <= i < |ms| && Fold(ms[i].key, cs) == k {
        if exists i :: 0 <= i < |ms[1..]| && Fold(ms[1..][i].key, cs) == k {
          var i :| 0 <= i < |ms[1..]| && Fold(ms[1..][i].key, cs) == k;
          assert Fold(ms[i + 1].key, cs) == k;
        }
      }
    }
  }

  ghost predicate Inside(m: map<Text, Canon>, n: map<Text, Canon>) {
    forall k :: k in m ==> k in n && m[k] == n[k]
  }

  lemma SameMap(m: map<Text, Canon>, n: map<Text, Canon>)
    requires Inside(m, n) && Inside(n, m)
    ensures m == n
  {
  }

  lemma {:induction false} ObjectsAreMeaning(ms: seq<Member>, ns: seq<Member>, cs: bool)
    ensures var cm, cn := CanonicalMembers(ms, cs), CanonicalMembers(ns, cs);
            AllFound(ms, ns, cs) && AllFound(ns, ms, cs)
            <==> CoherentMembers(ms, cm, cs) && CoherentMembers(ns, cn, cs) && cm == cn
    decreases MembersDepth(ms) + MembersDepth(ns), 4, 0
  {
    hide AllFound, Coherent, CoherentMembers, Canonical, CanonicalMembers, Lookup, Fold;
    AllFoundIsAgreement(ms, ns, cs);
    AllFoundIsAgreement(ns, ms, cs);
    var cm, cn := CanonicalMembers(ms, cs), CanonicalMembers(ns, cs);
    if Agrees(ms, ns, cs) && Agrees(ns, ms, cs) {
      AgreementMeets(ms, ns, cs);
      AgreementMeets(ns, ms, cs);
      SameMap(cm, cn);
      CoherentFromEach(ms, cm, cs);
      CoherentFromEach(ns, cn, cs);
    }
    if CoherentMembers(ms, cm, cs) && CoherentMembers(ns, cn, cs) && cm == cn {
      MeaningAgrees(ms, ns, cs);
      MeaningAgrees(ns, ms, cs);
    }
  }

  /** One direction of agreement puts one map inside the other. */
  lemma AgreementMeets(ms: seq<Member>, ns: seq<Member>, cs: bool)
    requires Agrees(ms, ns, cs)
    ensures Inside(CanonicalMembers(ms, cs), CanonicalMembers(ns, cs))
    ensures var cn := CanonicalMembers(ns, cs);
            forall i :: 0 <= i < |ms| ==>
              Coherent(ms[i].value, cs) && Fold(ms[i].key, cs) in cn
              && cn[Fold(ms[i].key, cs)] == Canonical(ms[i].value, cs)
  {
    hide Coherent, CoherentMembers, Canonical, CanonicalMembers, Lookup, Fold;
    var cm, cn := CanonicalMembers(ms, cs), CanonicalMembers(ns, cs);
    forall i | 0 <= i < |ms|
      ensures Coherent(ms[i].value, cs) && Fold(ms[i].key, cs) in cn
      ensures cn[Fold(ms[i].key, cs)] == Canonical(ms[i].value, cs)
    {
      assert MemberAgrees(ms[i], ns, cs);
      LookupMeans(ns, ms[i].key, cs);
    }
    forall k | k in cm ensures k in cn && cm[k] == cn[k] {
      FirstWithKey(ms, cs, k);
    }
  }

  /** What the map has under a key is the meaning of some member with that key. */
  lemma {:induction false} FirstWithKey(ms: seq<Member>, cs: bool, k: Text)
    requires k in CanonicalMembers(ms, cs)
    ensures exists i :: 0 <= i < |ms| && Fold(ms[i].key, cs) == k
                        && CanonicalMembers(ms, cs)[k] == Canonical(ms[i].value, cs)
  {
    hide Canonical, Fold;
    if Fold(ms[0].key, cs) != k {
      FirstWithKey(ms[1..], cs, k);
      var i :| 0 <= i < |ms[1..]| && Fold(ms[1..][i].key, cs) == k
               && CanonicalMembers(ms[1..], cs)[k] == Canonical(ms[1..][i].value, cs);
      assert ms[1..][i] == ms[i + 1];
    }
  }

  lemma MeaningAgrees(ms: seq<Member>, ns: seq<Member>, cs: bool)
    requires CoherentMembers(ms, CanonicalMembers(ms, cs), cs) && CoherentMembers(ns, CanonicalMembers(ns, cs), cs)
    requires CanonicalMembers(ms, cs) == CanonicalMembers(ns, cs)
    ensures Agrees(ms, ns, cs)
  {
    hide Coherent, CoherentMembers, Canonical, CanonicalMembers, Lookup, Fold;
    forall i | 0 <= i < |ms| ensures MemberAgrees(ms[i], ns, cs) {
      CoherentMember(ms, CanonicalMembers(ms, cs), cs, i);
      LookupMeans(ns, ms[i].key, cs);
      LookupIsCoherent(ns, CanonicalMembers(ns, cs), ms[i].key, cs);
    }
  }

  // ---------- consequences ----------

  /** On all trees: the order of the arguments does not matter, and equality carries over. */
  lemma CompareIsPartialEquivalence(a: Json, b: Json, c: Json, cs: bool)
    ensures Compare(a, b, cs) == Compare(b, a, cs)
    ensures Compare(a, b, cs) && Compare(b, c, cs) ==> Compare(a, c, cs)
  {
    hide Compare, Coherent, Canonical;
    CompareIsMeaning(a, b, cs);
    CompareIsMeaning(b, a, cs);
    CompareIsMeaning(b, c, cs);
    CompareIsMeaning(a, c, cs);
  }

  /** A copy compares equal to its original exactly when no object contradicts itself. */
  lemma CopyComparesEqual(v: Json, cs: bool)
    ensures Compare(v, v, cs) <==> Coherent(v, cs)
  {
    CompareIsMeaning(v, v, cs);
  }

  /** No object of the value has two keys that match. */
  predicate DistinctKeys(v: Json, caseSensitive: bool)
    decreases v, 0
  {
    match v
    case Array(items) => DistinctItems(items, caseSensitive)
    case Object(members) => DistinctMembers(members, caseSensitive)
    case _ => true
  }

  predicate DistinctItems(items: seq<Json>, caseSensitive: bool)
    decreases items, 1
  {
    items == [] || (DistinctKeys(items[0], caseSensitive) && DistinctItems(items[1..], caseSensitive))
  }

  predicate DistinctMembers(members: seq<Member>, caseSensitive: bool)
    decreases members, 1
  {
    members == []
    || (DistinctKeys(members[0].value, caseSensitive)
        && (forall i :: 0 < i < |members| ==>
              Fold(members[i].key, caseSensitive) != Fold(members[0].key, caseSensitive))
        && DistinctMembers(members[1..], caseSensitive))
  }

  lemma {:induction false} DistinctIsCoherent(v: Json, cs: bool)
    requires DistinctKeys(v, cs)
    ensures Coherent(v, cs)
    decreases v, 0
  {
    match v
    case Array(items) => DistinctItemsAreCoherent(items, cs);
    case Object(members) =>
      var whole := CanonicalMembers(members, cs);
      DistinctMembersAreCoherent(members, whole, cs);
    case _ =>
  }

  lemma {:induction false} DistinctItemsAreCoherent(items: seq<Json>, cs: bool)
    requires DistinctItems(items, cs)
    ensures CoherentItems(items, cs)
    decreases items, 1
  {
    if items != [] {
      DistinctIsCoherent(items[0], cs);
      DistinctItemsAreCoherent(items[1..], cs);
    }
  }

  lemma {:induction false} DistinctMembersAreCoherent(members: seq<Member>, whole: map<Text, Canon>, cs: bool)
    requires DistinctMembers(members, cs)
    requires Inside(CanonicalMembers(members, cs), whole)
    ensures CoherentMembers(members, whole, cs)
    decreases members, 1
  {
    hide Coherent, Canonical, Fold, DistinctKeys;
    if members != [] {
      DistinctIsCoherent(members[0].value, cs);
      var own, rest := CanonicalMembers(members, cs), CanonicalMembers(members[1..], cs);
      var first := Fold(members[0].key, cs);
      assert first in own;
      KeysOfMembers(members[1..], cs);
      forall k | k in rest ensures k in whole && whole[k] == rest[k] {
        var i :| 0 <= i < |members[1..]| && Fold(members[1..][i].key, cs) == k;
        assert members[1..][i] == members[i + 1];
        assert k != first;
        assert k in own && own[k] == rest[k];
      }
      DistinctMembersAreCoherent(members[1..], whole, cs);
    }
  }

  /**
   On trees whose objects have distinct keys, comparison is equality of values with objects read as
   unordered maps, and so an equivalence.
   */
  lemma CompareOnDistinctKeys(a: Json, b: Json, cs: bool)
    requires DistinctKeys(a, cs) && DistinctKeys(b, cs)
    ensures Compare(a, b, cs) <==> Canonical(a, cs) == Canonical(b, cs)
    ensures Compare(a, a, cs)
  {
    CompareIsMeaning(a, b, cs);
    CompareIsMeaning(a, a, cs);
    DistinctIsCoherent(a, cs);
    DistinctIsCoherent(b, cs);
  }

  /** A tree whose copy does not compare equal to it: `{"a":null,"a":true}`. */
  lemma RepeatedKeyIsNotEqualToItself()
    ensures var v := Object([Member([97], Null), Member([97], True)]); !Compare(v, v, true)
  {
    var ms := [Member([97], Null), Member([97], True)];
    assert Lookup(ms, [97], true) == Some(Null);
    assert ms[1..][0] == Member([97], True);
  }
}
