/** The main results about reading a configuration file. */
module ConfuseTheorems {
  import opened Wrappers
  import opened ConfuseOptions
  import opened ConfuseParsers
  import opened ConfuseGrammar
  import opened ConfuseComplete
  import opened ConfuseSound

  // ---------- the main result ----------

  /** The statements make up this text. */
  ghost predicate Spell(stmts: seq<Statement>, toks: seq<Token>) {
    Whole(stmts) && AllTokens(stmts) == toks
  }

  /**
   The parser accepts a configuration file exactly when it spells statements that have a meaning for
   the options, and it leaves the options as those statements, one after the other, say.
   */
  lemma ConfigurationIsRead(opts: seq<Opt>, toks: seq<Token>, result: seq<Opt>)
    ensures Parse(Idle(opts), toks, 0) == Parsed(result, [])
            <==> exists stmts :: Spell(stmts, toks) && AllMeaning(stmts, opts) == Some(result)
  {
    hide Parse, AllMeaning;
    if Parse(Idle(opts), toks, 0) == Parsed(result, []) {
      var stmts, closed := AllWereRead(opts, toks, 0);
      assert Spell(stmts, toks);
    }
    if stmts :| Spell(stmts, toks) && AllMeaning(stmts, opts) == Some(result) {
      WholeIsRead(stmts, opts, 0);
    }
  }

  /** The parser reads to the end of the text or fails. */
  lemma NothingIsLeft(opts: seq<Opt>, toks: seq<Token>)
    ensures var r := Parse(Idle(opts), toks, 0); r.Parsed? ==> r.rest == []
  {
    if Parse(Idle(opts), toks, 0).Parsed? {
      hide Parse, AllMeaning;
      var stmts, closed := AllWereRead(opts, toks, 0);
    }
  }

  // ---------- the values of one option ----------

  /** What the statements of a text do to the values of a text or boolean option. */
  function Fold(stmts: seq<Statement>, name: string, kind: Kind, values: seq<Value>): seq<Value> {
    if stmts == [] then values
    else
      var s := stmts[0];
      Fold(stmts[1..], name, kind,
           if !s.Assign? || s.name != name || Meanings(kind, s.values).None? then values
           else if s.append then values + Meanings(kind, s.values).value
           else Meanings(kind, s.values).value)
  }

  /** The options keep their names and kinds. */
  predicate SameOptions(a: seq<Opt>, b: seq<Opt>) {
    |a| == |b| && forall i :: 0 <= i < |a| ==> a[i].name == b[i].name && a[i].kind == b[i].kind
  }

  lemma SameOptionsAreFound(a: seq<Opt>, b: seq<Opt>, name: string)
    requires SameOptions(a, b)
    ensures Find(a, name) == Find(b, name)
  {
  }

  lemma MeaningOnValues(s: Statement, opts: seq<Opt>, name: string)
    requires Meaning(s, opts).Some? && Find(opts, name) < |opts|
    requires opts[Find(opts, name)].kind.Text? || opts[Find(opts, name)].kind.Boolean?
    ensures var i := Find(opts, name);
            var after := Meaning(s, opts).value;
            SameOptions(opts, after)
            && after[i].values == Fold([s], name, opts[i].kind, opts[i].values)
  {
    hide Find, SectionPlace, AllMeaning, Meanings;
    assert [s][1..] == [];
    var i := Find(opts, name);
    var j := if s.Remark? then i else Find(opts, s.name);
    FindSeparates(opts, name, if s.Remark? then name else s.name);
  }

  lemma FindSeparates(opts: seq<Opt>, a: string, b: string)
    requires Find(opts, a) < |opts|
    ensures Find(opts, a) == Find(opts, b) <==> a == b
  {
  }

  /**
   After a successful parse the values of a text or boolean option, a list or not, are the fold of its
   statements: `=` replaces what was there, `+=` appends to it, the defaults included, in whatever
   form the values are written.
   */
  lemma {:induction false} ValuesAreFold(stmts: seq<Statement>, opts: seq<Opt>, name: string)
    requires AllMeaning(stmts, opts).Some? && Find(opts, name) < |opts|
    requires opts[Find(opts, name)].kind.Text? || opts[Find(opts, name)].kind.Boolean?
    ensures var i := Find(opts, name);
            var after := AllMeaning(stmts, opts).value;
            SameOptions(opts, after) && after[i].values == Fold(stmts, name, opts[i].kind, opts[i].values)
    decreases stmts
  {
    hide Find, Meaning, Meanings;
    if stmts != [] {
      MeaningOnValues(stmts[0], opts, name);
      var next := Meaning(stmts[0], opts).value;
      SameOptionsAreFound(opts, next, name);
      ValuesAreFold(stmts[1..], next, name);
      assert [stmts[0]][1..] == [];
    }
  }

  lemma ParsedValuesAreFold(opts: seq<Opt>, toks: seq<Token>, name: string) returns (stmts: seq<Statement>)
    requires Parse(Idle(opts), toks, 0).Parsed? && Find(opts, name) < |opts|
    requires opts[Find(opts, name)].kind.Text? || opts[Find(opts, name)].kind.Boolean?
    ensures var i := Find(opts, name);
            var after := Parse(Idle(opts), toks, 0).opts;
            Spell(stmts, toks) && |after| == |opts|
            && after[i].values == Fold(stmts, name, opts[i].kind, opts[i].values)
  {
    var closed;
    stmts, closed := AllWereRead(opts, toks, 0);
    ValuesAreFold(stmts, opts, name);
    hide Parse, Find, AllMeaning, Fold;
  }
}
