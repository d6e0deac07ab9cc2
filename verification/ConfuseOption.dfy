/**
 The values of one configuration option: setting one, setting many at once, and the titled sections
 of a section option.
 */
module ConfuseOptions {
  import opened Wrappers

  /** A function option carries the argument lists its callback turns down. */
  datatype Kind = Text | Boolean | Section | Function(refused: set<seq<string>>)

  /** A value is blank between its allocation and its first setting. */
  datatype Value =
    | Blank
    | Str(text: string)
    | Bool(on: bool)
    | Sec(title: Option<string>, opts: seq<Opt>)

  /**
   `subopts` are the options of a new section, in the state their defaults give them; `calls` is the
   history of a function option.
   */
  datatype Opt = Opt(
    name: string,
    kind: Kind,
    list: bool,
    multi: bool,
    titled: bool,
    noTitleDupes: bool,
    /** The next setting throws the present values away: they are defaults, or `=` was read. */
    reset: bool,
    values: seq<Value>,
    subopts: seq<Opt>,
    calls: seq<seq<string>>)

  datatype Outcome = Done(opt: Opt, index: nat) | Refused(opt: Opt)

  // ---------- setting one value ----------

  function Lower(c: char): char {
    if 'A' <= c <= 'Z' then c - 'A' + 'a' else c
  }

  predicate SameIgnoringCase(s: string, t: string) {
    |s| == |t| && forall i :: 0 <= i < |s| ==> Lower(s[i]) == Lower(t[i])
  }

  function ParseBoolean(s: string): Option<bool> {
    if SameIgnoringCase(s, "true") || SameIgnoringCase(s, "on") || SameIgnoringCase(s, "yes") then Some(true)
    else if SameIgnoringCase(s, "false") || SameIgnoringCase(s, "off") || SameIgnoringCase(s, "no") then Some(false)
    else None
  }

  /** What the code stores for a string, if anything. */
  function Convert(kind: Kind, s: string): Option<Value> {
    match kind
    case Text => Some(Str(s))
    case Boolean => (match ParseBoolean(s) case None => None case Some(b) => Some(Bool(b)))
    case _ => None
  }

  // What a word means, letter by letter and apart from the code above.

  /** A letter of a key word, written small or as a capital. */
  predicate Writes(c: char, letter: char)
    requires 'a' <= letter <= 'z'
  {
    c == letter || c == letter - 'a' + 'A'
  }

  predicate InAnyCase(word: string, keyword: string)
    requires forall i :: 0 <= i < |keyword| ==> 'a' <= keyword[i] <= 'z'
  {
    |word| == |keyword| && forall i :: 0 <= i < |word| ==> Writes(word[i], keyword[i])
  }

  predicate IsYes(word: string) {
    InAnyCase(word, "true") || InAnyCase(word, "on") || InAnyCase(word, "yes")
  }

  predicate IsNo(word: string) {
    InAnyCase(word, "false") || InAnyCase(word, "off") || InAnyCase(word, "no")
  }

  /** A text option takes every word as it is, a boolean option only the words for yes and no. */
  function WordMeaning(kind: Kind, word: string): Option<Value> {
    if kind.Text? then Some(Str(word))
    else if kind.Boolean? && IsYes(word) then Some(Bool(true))
    else if kind.Boolean? && IsNo(word) then Some(Bool(false))
    else None
  }

  /** No word says both yes and no. */
  lemma YesIsNotNo(word: string)
    ensures !IsYes(word) || !IsNo(word)
  {
    if |word| == 2 || |word| == 3 {
      assert InAnyCase(word, "on") ==> Writes(word[0], 'o');
      assert InAnyCase(word, "no") ==> Writes(word[0], 'n');
      assert InAnyCase(word, "yes") ==> Writes(word[0], 'y');
      assert InAnyCase(word, "off") ==> Writes(word[0], 'o');
    }
  }

  lemma CaseIsFree(word: string, keyword: string)
    requires forall i :: 0 <= i < |keyword| ==> 'a' <= keyword[i] <= 'z'
    ensures SameIgnoringCase(word, keyword) <==> InAnyCase(word, keyword)
  {
    if |word| == |keyword| {
      forall i | 0 <= i < |word| ensures Lower(word[i]) == Lower(keyword[i]) <==> Writes(word[i], keyword[i]) {
        LetterInAnyCase(word[i], keyword[i]);
      }
    }
  }

  lemma LetterInAnyCase(c: char, letter: char)
    requires 'a' <= letter <= 'z'
    ensures Lower(c) == Lower(letter) <==> Writes(c, letter)
  {
  }

  /** The code stores exactly what the word means. */
  lemma ConvertIsMeaning(kind: Kind, word: string)
    ensures Convert(kind, word) == WordMeaning(kind, word)
  {
    hide SameIgnoringCase, InAnyCase;
    CaseIsFree(word, "true");
    CaseIsFree(word, "on");
    CaseIsFree(word, "yes");
    CaseIsFree(word, "false");
    CaseIsFree(word, "off");
    CaseIsFree(word, "no");
  }

  /** The first section of this title, or the number of values. */
  function FindTitle(values: seq<Value>, title: string): (i: nat)
    ensures i <= |values|
    ensures i < |values| ==> values[i].Sec? && values[i].title == Some(title)
    ensures forall k :: 0 <= k < i ==> !(values[k].Sec? && values[k].title == Some(title))
  {
    if values == [] then 0
    else if values[0].Sec? && values[0].title == Some(title) then 0
    else 1 + FindTitle(values[1..], title)
  }

  function Store(opt: Opt, i: nat, value: Option<string>): Outcome
    requires i < |opt.values|
  {
    match opt.kind
    case Section =>
      if opt.multi || opt.values[i].Blank?
      then Done(opt.(values := opt.values[i := Sec(value, opt.subopts)]), i)
      else Done(opt, i)
    case _ =>
      if value.None? then Refused(opt)
      else match Convert(opt.kind, value.value)
           case None => Refused(opt)
           case Some(v) => Done(opt.(values := opt.values[i := v]), i)
  }

  function Freed(opt: Opt): Opt {
    if opt.reset then opt.(values := [], reset := false) else opt
  }

  function Added(opt: Opt): Opt {
    opt.(values := opt.values + [Blank])
  }

  /** The option takes more than one value. */
  predicate Many(opt: Opt) {
    opt.multi || opt.list
  }

  function SetOpt(opt: Opt, value: Option<string>): (r: Outcome)
    ensures r.Done? ==> r.index < |r.opt.values|
  {
    var o := Freed(opt);
    if |o.values| == 0 || Many(o) then
      if o.kind.Section? && o.titled && |o.values| != 0 then
        if value.None? then Refused(o)
        else
          var i := FindTitle(o.values, value.value);
          if i == |o.values| then Store(Added(o), i, value)
          else if o.noTitleDupes then Refused(o)
          else Store(o, i, value)
      else Store(Added(o), |o.values|, value)
    else Store(o, 0, value)
  }

  /**
   One setting of a text or boolean option: it is refused exactly when the string means nothing to
   the option; otherwise a list holds one value more than it kept, and a scalar holds this one.
   */
  lemma SettingOne(opt: Opt, s: string)
    requires opt.kind.Text? || opt.kind.Boolean?
    requires !Many(opt) ==> |opt.values| <= 1
    ensures var kept := if opt.reset || !Many(opt) then [] else opt.values;
            var converted := WordMeaning(opt.kind, s);
            (SetOpt(opt, Some(s)).Done? <==> converted.Some?)
            && (converted.Some? ==>
                  SetOpt(opt, Some(s)).opt == opt.(values := kept + [converted.value], reset := false))
  {
    hide WordMeaning, Convert;
    ConvertIsMeaning(opt.kind, s);
    var o := Freed(opt);
    if WordMeaning(opt.kind, s).Some? {
      var v := WordMeaning(opt.kind, s).value;
      assert (o.values + [Blank])[|o.values| := v] == o.values + [v];
      if |o.values| == 1 {
        assert o.values[0 := v] == [v];
      }
    }
  }

  // ---------- setting many at once ----------

  /** The settings in turn, up to the first one refused. */
  function SetAll(opt: Opt, values: seq<string>): (r: Outcome)
    decreases |values|
  {
    if values == [] then Done(opt, 0)
    else
      var r := SetOpt(opt, Some(values[0]));
      if r.Refused? then r else SetAll(r.opt, values[1..])
  }

  function Meanings(kind: Kind, values: seq<string>): (r: Option<seq<Value>>)
    ensures r.Some? ==> |r.value| == |values|
  {
    if values == [] then Some([])
    else
      var first := WordMeaning(kind, values[0]);
      var rest := Meanings(kind, values[1..]);
      if first.None? || rest.None? then None else Some([first.value] + rest.value)
  }

  lemma {:induction false} SettingAll(opt: Opt, values: seq<string>)
    requires opt.kind.Text? || opt.kind.Boolean?
    requires !Many(opt) ==> |opt.values| <= 1
    ensures var all := Meanings(opt.kind, values);
            (SetAll(opt, values).Done? <==> all.Some?)
            && (all.Some? && values != [] ==>
                  SetAll(opt, values).opt
                  == opt.(values := if Many(opt) then Freed(opt).values + all.value else [all.value[|values| - 1]],
                          reset := false))
    decreases |values|
  {
    hide SetOpt, WordMeaning;
    if values != [] {
      SettingOne(opt, values[0]);
      var r := SetOpt(opt, Some(values[0]));
      if r.Done? {
        SettingAll(r.opt, values[1..]);
      }
    }
  }

  datatype Multi = Multi(ok: bool, opt: Opt)

  /** All the values, or on the first refusal the old ones; the flags are not put back. */
  function SetMulti(opt: Opt, values: seq<string>): Multi {
    if values == [] then Multi(false, opt)
    else
      var r := SetAll(opt.(values := []), values);
      if r.Done? then Multi(true, r.opt)
      else Multi(false, r.opt.(values := opt.values))
  }

  /** Refused or not, setting changes nothing but the values, and takes the reset flag down. */
  lemma SetOptKeeps(opt: Opt, value: Option<string>)
    ensures var o := SetOpt(opt, value).opt;
            o == opt.(values := o.values, reset := false)
  {
    hide Convert, FindTitle, Store;
    var o := Freed(opt);
    if o.values != [] {
      StoreKeeps(o, 0, value);
    }
    StoreKeeps(Added(o), |o.values|, value);
    if value.Some? {
      var i := FindTitle(o.values, value.value);
      if i < |o.values| {
        StoreKeeps(o, i, value);
      }
    }
  }

  lemma StoreKeeps(opt: Opt, i: nat, value: Option<string>)
    requires i < |opt.values|
    ensures var o := Store(opt, i, value).opt; o == opt.(values := o.values)
  {
    hide Convert;
  }

  lemma {:induction false} SetAllKeeps(opt: Opt, values: seq<string>)
    ensures var o := SetAll(opt, values).opt;
            o == opt.(values := o.values, reset := opt.reset && values == [])
    decreases |values|
  {
    hide SetOpt;
    if values != [] {
      SetOptKeeps(opt, Some(values[0]));
      var r := SetOpt(opt, Some(values[0]));
      if r.Done? {
        SetAllKeeps(r.opt, values[1..]);
      }
    }
  }

  /**
   All or nothing: the call succeeds exactly when there are values and every one of them means
   something; then a list holds their meanings in order and a scalar the last of them. Otherwise the
   values are the old ones.
   */
  lemma SetMultiIsAllOrNothing(opt: Opt, values: seq<string>)
    requires opt.kind.Text? || opt.kind.Boolean?
    ensures var r := SetMulti(opt, values);
            var all := Meanings(opt.kind, values);
            (r.ok <==> values != [] && all.Some?)
            && (r.ok ==> r.opt.values == if Many(opt) then all.value else [all.value[|values| - 1]])
            && (!r.ok ==> r.opt.values == opt.values)
            && r.opt == opt.(values := r.opt.values, reset := opt.reset && values == [])
  {
    hide SetAll, Meanings;
    SettingAll(opt.(values := []), values);
    SetAllKeeps(opt.(values := []), values);
  }

  /** The same for options of every kind, as far as it goes: a refusal puts the old values back. */
  lemma RefusalKeepsValues(opt: Opt, values: seq<string>)
    ensures !SetMulti(opt, values).ok ==>
              SetMulti(opt, values).opt == opt.(reset := opt.reset && values == [])
  {
    hide SetAll;
    SetAllKeeps(opt.(values := []), values);
  }

  /**
   So a refusal leaves the whole option as it was if and only if no reset was pending or no value was
   given. Otherwise the flag is lost: the defaults that came back are then appended to, not replaced.
   */
  lemma RollbackIsCompleteUnlessResetWasPending(opt: Opt, values: seq<string>)
    requires !SetMulti(opt, values).ok
    ensures SetMulti(opt, values).opt == opt <==> !opt.reset || values == []
  {
    RefusalKeepsValues(opt, values);
  }

  lemma LostResetAppends(opt: Opt, values: seq<string>, s: string)
    requires opt.kind.Boolean? && Many(opt) && opt.reset
    requires values != [] && Meanings(opt.kind, values).None? && WordMeaning(opt.kind, s).Some?
    ensures SetOpt(opt, Some(s)).opt.values == [WordMeaning(opt.kind, s).value]
    ensures SetOpt(SetMulti(opt, values).opt, Some(s)).opt.values == opt.values + [WordMeaning(opt.kind, s).value]
  {
    hide SetMulti, SetOpt, Meanings;
    SetMultiIsAllOrNothing(opt, values);
    SettingOne(opt, s);
    SettingOne(SetMulti(opt, values).opt, s);
  }

  // ---------- titled sections ----------

  /** A section option whose sections are told apart by their titles. */
  predicate Titled(opt: Opt) {
    opt.kind.Section? && opt.multi && opt.titled && !opt.reset
  }

  predicate IsSection(v: Value) {
    v.Sec? && v.title.Some?
  }

  predicate Distinct<T(==)>(s: seq<T>) {
    forall i, j :: 0 <= i < j < |s| ==> s[i] != s[j]
  }

  /** The section of this title, unless a section without title stands before it. */
  function LookUp(values: seq<Value>, title: string): (r: Option<nat>)
    ensures r.Some? ==> r.value < |values| && values[r.value].Sec? && values[r.value].title == Some(title)
  {
    if values == [] || !IsSection(values[0]) then None
    else if values[0].title.value == title then Some(0)
    else
      var r := LookUp(values[1..], title);
      if r.None? then None else Some(1 + r.value)
  }

  datatype Removal = Removal(ok: bool, opt: Opt)

  /** Adds an empty section, that is one with its defaults, unless there is one of this title. */
  function AddTSec(opt: Opt, title: string): Outcome {
    if opt.titled && LookUp(opt.values, title).Some? then Refused(opt) else SetOpt(opt, Some(title))
  }

  function RmNSec(opt: Opt, index: nat): Removal
    requires !opt.reset
  {
    if !opt.kind.Section? || index >= |opt.values| || (index != 0 && !Many(opt)) then Removal(false, opt)
    else Removal(true, opt.(values := opt.values[..index] + opt.values[index + 1..]))
  }

  function RmTSec(opt: Opt, title: string): Removal
    requires !opt.reset
  {
    if !opt.titled then Removal(false, opt)
    else
      var i := LookUp(opt.values, title);
      if i.None? then Removal(false, opt) else RmNSec(opt, i.value)
  }

  /** A section statement: the option is set to the title, then the section's text is read into it. */
  function WriteTSec(opt: Opt, title: string, section: seq<Opt>): Outcome {
    var r := SetOpt(opt, Some(title));
    if r.Refused? || !r.opt.values[r.index].Sec? then Refused(r.opt)
    else Done(r.opt.(values := r.opt.values[r.index := r.opt.values[r.index].(opts := section)]), r.index)
  }

  // ---------- titled sections as a map ----------

  /** A map that remembers the order in which its keys came. */
  datatype OrderedMap = OrderedMap(keys: seq<string>, at: map<string, seq<Opt>>) {
    function Put(key: string, section: seq<Opt>): OrderedMap {
      OrderedMap(if key in at then keys else keys + [key], at[key := section])
    }

    function Drop(key: string): OrderedMap {
      OrderedMap(Without(keys, key), at - {key})
    }
  }

  function Without(keys: seq<string>, key: string): seq<string> {
    if keys == [] then []
    else (if keys[0] == key then [] else [keys[0]]) + Without(keys[1..], key)
  }

  ghost predicate Represents(opt: Opt, m: OrderedMap) {
    && Titled(opt)
    && Distinct(m.keys)
    && (forall k :: k in m.keys <==> k in m.at)
    && |opt.values| == |m.keys|
    && (forall i :: 0 <= i < |m.keys| ==> opt.values[i] == Sec(Some(m.keys[i]), m.at[m.keys[i]]))
  }

  function TitlesOf(values: seq<Value>): (r: seq<string>)
    ensures |r| == |values|
    ensures forall i :: 0 <= i < |r| ==> IsSection(values[i]) ==> values[i].title == Some(r[i])
  {
    seq(|values|, i requires 0 <= i < |values| => if IsSection(values[i]) then values[i].title.value else "")
  }

  /** Every titled multi section option whose sections have distinct titles is such a map. */
  lemma {:induction false} DistinctTitlesMakeAMap(opt: Opt) returns (m: OrderedMap)
    requires Titled(opt) && forall i :: 0 <= i < |opt.values| ==> IsSection(opt.values[i])
    requires Distinct(TitlesOf(opt.values))
    ensures Represents(opt, m)
    decreases |opt.values|
  {
    if opt.values == [] {
      m := OrderedMap([], map[]);
    } else {
      var front, last := opt.values[..|opt.values| - 1], opt.values[|opt.values| - 1];
      assert IsSection(last);
      assert TitlesOf(front) == TitlesOf(opt.values)[..|front|];
      var rest := DistinctTitlesMakeAMap(opt.(values := front));
      assert forall i :: 0 <= i < |front| ==> TitlesOf(opt.values)[i] == rest.keys[i];
      hide TitlesOf;
      m := rest.Put(last.title.value, last.opts);
      assert opt.values == front + [last];
      NewKeyIsPut(opt.(values := front), rest, last);
      assert opt.(values := front).(values := front + [last]) == opt;
    }
  }

  lemma NewKeyIsPut(opt: Opt, m: OrderedMap, last: Value)
    requires Represents(opt, m) && IsSection(last) && last.title.value !in m.keys
    ensures Represents(opt.(values := opt.values + [last]), m.Put(last.title.value, last.opts))
  {
  }

  lemma {:induction false} WithoutDistinct(keys: seq<string>, i: nat)
    requires Distinct(keys) && i < |keys|
    ensures Without(keys, keys[i]) == keys[..i] + keys[i + 1..]
  {
    if i == 0 {
      WithoutAbsent(keys[1..], keys[0]);
    } else {
      WithoutDistinct(keys[1..], i - 1);
      assert keys[1..][..i - 1] == keys[1..i] && keys[1..][i..] == keys[i + 1..];
      assert keys[..i] == [keys[0]] + keys[1..i];
    }
  }

  lemma {:induction false} WithoutAbsent(keys: seq<string>, key: string)
    requires key !in keys
    ensures Without(keys, key) == keys
  {
    if keys != [] {
      WithoutAbsent(keys[1..], key);
    }
  }

  lemma {:induction false} LookUpFindsTitle(values: seq<Value>, title: string)
    requires forall i :: 0 <= i < |values| ==> IsSection(values[i])
    ensures LookUp(values, title)
            == if FindTitle(values, title) == |values| then None else Some(FindTitle(values, title))
  {
    if values != [] {
      LookUpFindsTitle(values[1..], title);
    }
  }

  lemma KeyIsFound(opt: Opt, m: OrderedMap, title: string)
    requires Represents(opt, m)
    ensures var i := FindTitle(opt.values, title);
            (i < |opt.values| <==> title in m.at)
            && (i < |opt.values| ==> m.keys[i] == title)
            && LookUp(opt.values, title) == (if title in m.at then Some(i) else None)
  {
    LookUpFindsTitle(opt.values, title);
    if title in m.at {
      var k :| 0 <= k < |m.keys| && m.keys[k] == title;
      assert opt.values[k].title == Some(title);
    }
  }

  /**
   A section statement puts its section under its title: in place of the one that was there, or at the
   end. It is refused only for a title that is there when duplicates are not allowed.
   */
  lemma WriteIsPut(opt: Opt, m: OrderedMap, title: string, section: seq<Opt>)
    requires Represents(opt, m)
    ensures var r := WriteTSec(opt, title, section);
            (r.Refused? <==> title in m.at && opt.noTitleDupes)
            && (r.Done? ==> Represents(r.opt, m.Put(title, section)) && r.opt == opt.(values := r.opt.values))
            && (r.Refused? ==> r.opt == opt)
  {
    hide LookUp, FindTitle;
    KeyIsFound(opt, m, title);
    TitledWhenRepresented(opt, m);
    WrittenSection(opt, title, section);
    hide WriteTSec;
    if title !in m.at {
      NewKeyIsPut(opt, m, Sec(Some(title), section));
    }
  }

  /** What a section statement does to the values of a titled option. */
  lemma WrittenSection(opt: Opt, title: string, section: seq<Opt>)
    requires Titled(opt)
    ensures var i := FindTitle(opt.values, title);
            WriteTSec(opt, title, section)
            == if i == |opt.values| then Done(opt.(values := opt.values + [Sec(Some(title), section)]), i)
               else if opt.noTitleDupes then Refused(opt)
               else Done(opt.(values := opt.values[i := Sec(Some(title), section)]), i)
  {
    hide FindTitle, Convert;
    var i := FindTitle(opt.values, title);
    var started, done := Sec(Some(title), opt.subopts), Sec(Some(title), section);
    assert (opt.values + [Blank])[|opt.values| := started] == opt.values + [started];
    assert (opt.values + [started])[|opt.values| := done] == opt.values + [done];
    if i < |opt.values| {
      assert opt.values[i := started][i := done] == opt.values[i := done];
    }
  }

  /** Adding is putting the defaults, and is refused exactly when the title is there. */
  lemma AddIsPut(opt: Opt, m: OrderedMap, title: string)
    requires Represents(opt, m)
    ensures var r := AddTSec(opt, title);
            (r.Refused? <==> title in m.at)
            && (r.Done? ==> Represents(r.opt, m.Put(title, opt.subopts)) && r.opt == opt.(values := r.opt.values))
            && (r.Refused? ==> r.opt == opt)
  {
    KeyIsFound(opt, m, title);
    hide LookUp, FindTitle, Represents;
    if title !in m.at {
      assert Titled(opt) by { TitledWhenRepresented(opt, m); }
      WriteIsPut(opt, m, title, opt.subopts);
    }
  }

  lemma TitledWhenRepresented(opt: Opt, m: OrderedMap)
    requires Represents(opt, m)
    ensures Titled(opt)
  {
  }

  lemma RemoveAtIsDrop(opt: Opt, m: OrderedMap, index: nat)
    requires Represents(opt, m)
    ensures var r := RmNSec(opt, index);
            (r.ok <==> index < |m.keys|)
            && (r.ok ==> Represents(r.opt, m.Drop(m.keys[index])) && r.opt == opt.(values := r.opt.values))
            && (!r.ok ==> r.opt == opt)
  {
    hide Without;
    if index < |m.keys| {
      DroppedKeys(m, index);
      var dropped := m.Drop(m.keys[index]);
      var values := opt.values[..index] + opt.values[index + 1..];
      forall i | 0 <= i < |values|
        ensures values[i] == Sec(Some(dropped.keys[i]), dropped.at[dropped.keys[i]])
      {
        assert values[i] == opt.values[if i < index then i else i + 1];
      }
    }
  }

  lemma DroppedKeys(m: OrderedMap, index: nat)
    requires Distinct(m.keys) && index < |m.keys|
    requires forall k :: k in m.keys <==> k in m.at
    ensures var dropped := m.Drop(m.keys[index]);
            Distinct(dropped.keys)
            && (forall k :: k in dropped.keys <==> k in dropped.at)
            && |dropped.keys| == |m.keys| - 1
            && forall i :: 0 <= i < |dropped.keys| ==> dropped.keys[i] == m.keys[if i < index then i else i + 1]
  {
    WithoutDistinct(m.keys, index);
    hide Without;
    var dropped := m.Drop(m.keys[index]);
    forall k ensures k in dropped.keys <==> k in dropped.at {
      if k in m.keys && k != m.keys[index] {
        var i :| 0 <= i < |m.keys| && m.keys[i] == k;
        assert dropped.keys[if i < index then i else i - 1] == k;
      }
    }
  }

  lemma RemoveTitleIsDrop(opt: Opt, m: OrderedMap, title: string)
    requires Represents(opt, m)
    ensures var r := RmTSec(opt, title);
            (r.ok <==> title in m.at)
            && (r.ok ==> Represents(r.opt, m.Drop(title)) && r.opt == opt.(values := r.opt.values))
            && (!r.ok ==> r.opt == opt)
  {
    KeyIsFound(opt, m, title);
    if title in m.at {
      RemoveAtIsDrop(opt, m, FindTitle(opt.values, title));
    }
  }

  // ---------- any run of edits ----------

  datatype Edit =
    | Write(title: string, section: seq<Opt>)
    | Add(title: string)
    | RemoveAt(index: nat)
    | RemoveTitle(title: string)

  /** What an edit leaves, accepted or not. */
  function Edited(opt: Opt, e: Edit): (r: Opt)
    requires !opt.reset
  {
    match e
    case Write(t, section) => WriteTSec(opt, t, section).opt
    case Add(t) => AddTSec(opt, t).opt
    case RemoveAt(i) => RmNSec(opt, i).opt
    case RemoveTitle(t) => RmTSec(opt, t).opt
  }

  function EditedMap(m: OrderedMap, e: Edit, opt: Opt): OrderedMap {
    match e
    case Write(t, section) => if t in m.at && opt.noTitleDupes then m else m.Put(t, section)
    case Add(t) => if t in m.at then m else m.Put(t, opt.subopts)
    case RemoveAt(i) => if i < |m.keys| then m.Drop(m.keys[i]) else m
    case RemoveTitle(t) => if t in m.at then m.Drop(t) else m
  }

  lemma EditRefinesMap(opt: Opt, m: OrderedMap, e: Edit)
    requires Represents(opt, m)
    ensures Represents(Edited(opt, e), EditedMap(m, e, opt))
    ensures Edited(opt, e) == opt.(values := Edited(opt, e).values)
  {
    hide WriteTSec, AddTSec, RmNSec, RmTSec;
    match e
    case Write(t, section) => WriteIsPut(opt, m, t, section);
    case Add(t) => AddIsPut(opt, m, t);
    case RemoveAt(i) => RemoveAtIsDrop(opt, m, i);
    case RemoveTitle(t) =>
      RemoveTitleIsDrop(opt, m, t);
      if t !in m.at {
        assert RmTSec(opt, t).opt == opt;
      }
  }

  function MapAfter(m: OrderedMap, edits: seq<Edit>, opt: Opt): OrderedMap
    decreases |edits|
  {
    if edits == [] then m else MapAfter(EditedMap(m, edits[0], opt), edits[1..], opt)
  }

  /** The states an option goes through under these edits. */
  ghost predicate IsEditRun(states: seq<Opt>, edits: seq<Edit>) {
    && |states| == |edits| + 1
    && (forall i :: 0 <= i < |edits| ==> !states[i].reset && states[i + 1] == Edited(states[i], edits[i]))
  }

  /**
   Over any run of section statements, additions and removals a titled multi section behaves as a map
   that remembers insertion order: its titles stay distinct, a repeated title replaces in place or is
   refused, and removal keeps the order of the rest.
   */
  lemma {:induction false} RunIsOrderedMap(states: seq<Opt>, edits: seq<Edit>, m: OrderedMap)
    requires IsEditRun(states, edits) && Represents(states[0], m)
    ensures Represents(states[|edits|], MapAfter(m, edits, states[0]))
    decreases |edits|
  {
    hide Represents, Edited, EditedMap;
    if edits != [] {
      EditRefinesMap(states[0], m, edits[0]);
      var next := states[1];
      assert next == Edited(states[0], edits[0]);
      RunIsOrderedMap(states[1..], edits[1..], EditedMap(m, edits[0], states[0]));
      SameRules(EditedMap(m, edits[0], states[0]), edits[1..], states[0], next);
    }
  }

  lemma {:induction false} SameRules(m: OrderedMap, edits: seq<Edit>, a: Opt, b: Opt)
    requires a.noTitleDupes == b.noTitleDupes && a.subopts == b.subopts
    ensures MapAfter(m, edits, a) == MapAfter(m, edits, b)
    decreases |edits|
  {
    if edits != [] {
      SameRules(EditedMap(m, edits[0], a), edits[1..], a, b);
    }
  }
}
