/**
 Titled sections over any run of parses, additions and removals: whole configuration texts take part in
 it through the section statements they hold.
 */
module ConfuseRuns {
  import opened Wrappers
  import opened ConfuseOptions
  import opened ConfuseParsers
  import opened ConfuseGrammar
  import opened ConfuseSound
  import opened ConfuseTheorems

  // ---------- the section statements of a text ----------

  /** The options that the body of a section statement leaves in its section. */
  function SectionRead(s: Statement, opts: seq<Opt>): seq<Opt>
    requires s.Block? && Meaning(s, opts).Some?
  {
    var p := SectionPlace(opts[Find(opts, s.name)], s.title).value;
    AllMeaning(s.body, p.values[p.index].opts).value
  }

  /** What the statements of a text write under this name, in order. */
  function WritesOf(stmts: seq<Statement>, opts: seq<Opt>, name: string): seq<Edit>
    requires AllMeaning(stmts, opts).Some?
    decreases |stmts|
  {
    if stmts == [] then []
    else
      var s := stmts[0];
      (if s.Block? && s.name == name && s.title.Some? then [Write(s.title.value, SectionRead(s, opts))] else [])
      + WritesOf(stmts[1..], Meaning(s, opts).value, name)
  }

  /** The titled section option of this name, as a map. */
  ghost predicate SectionsAre(opts: seq<Opt>, name: string, m: OrderedMap) {
    Find(opts, name) < |opts| && Represents(opts[Find(opts, name)], m)
  }

  /** A titled section statement with a meaning is a write of the section its body leaves. */
  lemma BlockWrites(s: Statement, opts: seq<Opt>)
    requires s.Block? && s.title.Some? && Meaning(s, opts).Some?
    ensures var i := Find(opts, s.name);
            i < |opts|
            && Meaning(s, opts).value == opts[i := WriteTSec(opts[i], s.title.value, SectionRead(s, opts)).opt]
  {
    hide SetOpt, SectionPlace, AllMeaning, Find;
    SectionIsPlaced(opts[Find(opts, s.name)], s.title);
  }

  /** One statement: a section statement of the name is a write, any other leaves the sections alone. */
  lemma StatementOnSections(s: Statement, opts: seq<Opt>, name: string, m: OrderedMap)
    requires Meaning(s, opts).Some? && SectionsAre(opts, name, m)
    ensures var i, after := Find(opts, name), Meaning(s, opts).value;
            SameOptions(opts, after)
            && after[i] == opts[i].(values := after[i].values)
            && SectionsAre(after, name, MapAfter(m, WritesOf([s], opts, name), opts[i]))
  {
    var i, after := Find(opts, name), Meaning(s, opts).value;
    assert AllMeaning([s], opts) == Some(after) by {
      assert [s][1..] == [];
    }
    assert [s][1..] == [];
    if s.Block? && s.name == name {
      SectionIsWritten(s, opts, m);
    } else {
      OthersAreLeft(s, opts, name, m);
    }
    SameOptionsAreFound(opts, after, name);
  }

  lemma SectionIsWritten(s: Statement, opts: seq<Opt>, m: OrderedMap)
    requires s.Block? && Meaning(s, opts).Some? && SectionsAre(opts, s.name, m)
    ensures s.title.Some?
    ensures var i, after := Find(opts, s.name), Meaning(s, opts).value;
            var e := Write(s.title.value, SectionRead(s, opts));
            SameOptions(opts, after)
            && after[i] == opts[i].(values := after[i].values)
            && Represents(after[i], EditedMap(m, e, opts[i]))
  {
    var i := Find(opts, s.name);
    assert s.title.Some? && !opts[i].reset;
    BlockWrites(s, opts);
    hide Meaning, SectionRead, Find, Represents;
    EditRefinesMap(opts[i], m, Write(s.title.value, SectionRead(s, opts)));
  }

  lemma OthersAreLeft(s: Statement, opts: seq<Opt>, name: string, m: OrderedMap)
    requires Meaning(s, opts).Some? && SectionsAre(opts, name, m) && !(s.Block? && s.name == name)
    ensures var i, after := Find(opts, name), Meaning(s, opts).value;
            SameOptions(opts, after) && after[i] == opts[i]
  {
    hide Find, SectionPlace, AllMeaning, Meanings;
    FindSeparates(opts, name, if s.Remark? then name else s.name);
  }

  lemma WritesCons(stmts: seq<Statement>, opts: seq<Opt>, name: string)
    requires AllMeaning(stmts, opts).Some? && stmts != []
    ensures var s := stmts[0];
            AllMeaning([s], opts).Some?
            && WritesOf(stmts, opts, name)
               == WritesOf([s], opts, name) + WritesOf(stmts[1..], Meaning(s, opts).value, name)
  {
    hide Meaning, SectionRead;
    var s := stmts[0];
    assert [s][1..] == [] && AllMeaning([s], opts) == Meaning(s, opts);
    assert WritesOf([], Meaning(s, opts).value, name) == [];
  }

  /** A whole text: its section statements of the name, one after the other. */
  lemma {:induction false} TextOnSections(stmts: seq<Statement>, opts: seq<Opt>, name: string, m: OrderedMap)
    requires AllMeaning(stmts, opts).Some? && SectionsAre(opts, name, m)
    ensures var i, after := Find(opts, name), AllMeaning(stmts, opts).value;
            SameOptions(opts, after)
            && after[i] == opts[i].(values := after[i].values)
            && SectionsAre(after, name, MapAfter(m, WritesOf(stmts, opts, name), opts[i]))
    decreases |stmts|
  {
    if stmts != [] {
      var s, i := stmts[0], Find(opts, name);
      var next := Meaning(s, opts).value;
      StatementOnSections(s, opts, name, m);
      SameOptionsAreFound(opts, next, name);
      var first := WritesOf([s], opts, name);
      assert [s][1..] == [] && AllMeaning([s], opts) == Some(next);
      hide Meaning, Find, SectionsAre, SectionRead;
      TextOnSections(stmts[1..], next, name, MapAfter(m, first, opts[i]));
      var rest := WritesOf(stmts[1..], next, name);
      WritesCons(stmts, opts, name);
      SameRules(MapAfter(m, first, opts[i]), rest, next[i], opts[i]);
      MapAfterJoins(m, first, rest, opts[i]);
    }
  }

  lemma {:induction false} MapAfterJoins(m: OrderedMap, first: seq<Edit>, rest: seq<Edit>, opt: Opt)
    ensures MapAfter(m, first + rest, opt) == MapAfter(MapAfter(m, first, opt), rest, opt)
    decreases |first|
  {
    hide EditedMap;
    if first == [] {
      assert first + rest == rest;
    } else {
      assert (first + rest)[1..] == first[1..] + rest;
      MapAfterJoins(EditedMap(m, first[0], opt), first[1..], rest, opt);
    }
  }

  // ---------- any run of parses and edits ----------

  datatype Change = Parsing(toks: seq<Token>) | Editing(edit: Edit)

  /** The change leads from these options to those, and does these edits to the sections of the name. */
  ghost predicate ChangesBy(c: Change, opts: seq<Opt>, opts': seq<Opt>, name: string, edits: seq<Edit>) {
    match c
    case Parsing(toks) =>
      Parse(Idle(opts), toks, 0) == Parsed(opts', []) && exists stmts :: TextDoes(stmts, toks, opts, opts', name, edits)
    case Editing(e) =>
      var i := Find(opts, name);
      edits == [e] && i < |opts| && !opts[i].reset && opts' == opts[i := Edited(opts[i], e)]
  }

  ghost predicate TextDoes(stmts: seq<Statement>, toks: seq<Token>, opts: seq<Opt>, opts': seq<Opt>, name: string,
                           edits: seq<Edit>) {
    Spell(stmts, toks) && AllMeaning(stmts, opts) == Some(opts') && edits == WritesOf(stmts, opts, name)
  }

  /** A change on its own: the parse succeeds, or the option is there to be edited. */
  predicate CanChange(c: Change, opts: seq<Opt>, opts': seq<Opt>, name: string) {
    match c
    case Parsing(toks) => Parse(Idle(opts), toks, 0) == Parsed(opts', [])
    case Editing(e) =>
      var i := Find(opts, name);
      i < |opts| && !opts[i].reset && opts' == opts[i := Edited(opts[i], e)]
  }

  lemma ChangeOnSections(c: Change, opts: seq<Opt>, opts': seq<Opt>, name: string, m: OrderedMap)
    returns (edits: seq<Edit>)
    requires CanChange(c, opts, opts', name) && SectionsAre(opts, name, m)
    ensures ChangesBy(c, opts, opts', name, edits)
    ensures var i := Find(opts, name);
            Find(opts', name) == i < |opts'| && opts'[i] == opts[i].(values := opts'[i].values)
            && SectionsAre(opts', name, MapAfter(m, edits, opts[i]))
  {
    var i := Find(opts, name);
    match c
    case Parsing(toks) =>
      hide Parse, AllMeaning, Find, SectionsAre;
      var stmts, closed := AllWereRead(opts, toks, 0);
      edits := WritesOf(stmts, opts, name);
      assert TextDoes(stmts, toks, opts, opts', name, edits);
      TextOnSections(stmts, opts, name, m);
      SameOptionsAreFound(opts, opts', name);
    case Editing(e) =>
      edits := [e];
      EditOnSections(e, opts, name, m);
  }

  lemma EditOnSections(e: Edit, opts: seq<Opt>, name: string, m: OrderedMap)
    requires SectionsAre(opts, name, m)
    ensures var i := Find(opts, name);
            var after := opts[i := Edited(opts[i], e)];
            Find(after, name) == i && after[i] == opts[i].(values := after[i].values)
            && SectionsAre(after, name, MapAfter(m, [e], opts[i]))
  {
    var i := Find(opts, name);
    EditRefinesMap(opts[i], m, e);
    assert [e][1..] == [];
    var after := opts[i := Edited(opts[i], e)];
    assert SameOptions(opts, after) by {
      hide Edited;
    }
    SameOptionsAreFound(opts, after, name);
  }

  function Flatten(steps: seq<seq<Edit>>): seq<Edit> {
    if steps == [] then [] else steps[0] + Flatten(steps[1..])
  }

  ghost predicate IsChangeRun(states: seq<seq<Opt>>, changes: seq<Change>, name: string) {
    && |states| == |changes| + 1
    && forall k :: 0 <= k < |changes| ==> CanChange(changes[k], states[k], states[k + 1], name)
  }

  /**
   Over any run of successful parses, additions and removals the titled sections of a name are an
   insertion-ordered map: the run does to the map, in order, the writes of the section statements each
   text holds and the edits in between, so titles stay distinct, a repeated title replaces in place or is
   refused, and removal keeps the order of the rest.
   */
  lemma {:induction false} SectionsAreAnOrderedMap(states: seq<seq<Opt>>, changes: seq<Change>, name: string,
                                                    m: OrderedMap)
    returns (steps: seq<seq<Edit>>)
    requires IsChangeRun(states, changes, name) && SectionsAre(states[0], name, m)
    ensures |steps| == |changes|
    ensures forall k :: 0 <= k < |changes| ==> ChangesBy(changes[k], states[k], states[k + 1], name, steps[k])
    ensures SectionsAre(states[|changes|], name, MapAfter(m, Flatten(steps), states[0][Find(states[0], name)]))
    decreases |changes|
  {
    if changes == [] {
      steps := [];
    } else {
      assert CanChange(changes[0], states[0], states[1], name);
      var i := Find(states[0], name);
      var first := ChangeOnSections(changes[0], states[0], states[1], name, m);
      var next := MapAfter(m, first, states[0][i]);
      hide SectionsAre, ChangesBy, CanChange, Find;
      RestIsRun(states, changes, name);
      var rest := SectionsAreAnOrderedMap(states[1..], changes[1..], name, next);
      SameRules(next, Flatten(rest), states[1][i], states[0][i]);
      MapAfterJoins(m, first, Flatten(rest), states[0][i]);
      steps := [first] + rest;
      assert steps[1..] == rest;
      forall k | 0 <= k < |changes| ensures ChangesBy(changes[k], states[k], states[k + 1], name, steps[k]) {
        if k > 0 {
          assert ChangesBy(changes[1..][k - 1], states[1..][k - 1], states[1..][k], name, rest[k - 1]);
        }
      }
    }
  }

  lemma RestIsRun(states: seq<seq<Opt>>, changes: seq<Change>, name: string)
    requires IsChangeRun(states, changes, name) && changes != []
    ensures IsChangeRun(states[1..], changes[1..], name)
  {
    hide CanChange;
    forall k | 0 <= k < |changes| - 1 ensures CanChange(changes[1..][k], states[1..][k], states[1..][k + 1], name) {
      assert CanChange(changes[k + 1], states[k + 1], states[k + 2], name);
    }
  }
}
