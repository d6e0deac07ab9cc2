/**
 What a configuration text says, independent of how it is read: it is a list of statements, each of
 which does something to the options. The parser's machine accepts exactly the texts that spell
 statements with a meaning, and leaves the options as the statements say.
 */
module ConfuseGrammar {
  import opened Wrappers
  import opened ConfuseOptions
  import opened ConfuseParsers

  /** A single value without braces, or any number of values in braces, with or without a last comma. */
  datatype Form = Bare | Braced(trailing: bool)

  datatype Statement =
    | Assign(name: string, append: bool, values: seq<string>, form: Form)
    /** Only the end of the text can stand for the closing brace. */
    | Block(name: string, title: Option<string>, body: seq<Statement>, closed: bool)
    | Call(name: string, args: seq<string>, trailing: bool)
    | Remark

  // ---------- spelling ----------

  function Words(values: seq<string>): seq<Token> {
    if values == [] then [] else [Comma, Word(values[0])] + Words(values[1..])
  }

  /** What follows the first value, up to the bracket `end`. */
  function Tail(values: seq<string>, trailing: bool, end: Token): seq<Token> {
    Words(values) + (if trailing then [Comma] else []) + [end]
  }

  function Bracketed(values: seq<string>, trailing: bool, end: Token): seq<Token> {
    if values == [] then [end] else [Word(values[0])] + Tail(values[1..], trailing, end)
  }

  function Tokens(s: Statement): seq<Token> {
    match s
    case Assign(name, append, values, form) =>
      [Word(name), if append then Plus else Equals]
      + (match form
         case Bare => if values == [] then [] else [Word(values[0])]
         case Braced(trailing) => [Open] + Bracketed(values, trailing, Close))
    case Block(name, title, body, closed) =>
      [Word(name)] + (if title.Some? then [Word(title.value)] else []) + [Open] + AllTokens(body)
      + (if closed then [Close] else [])
    case Call(name, args, trailing) => [Word(name), LParen] + Bracketed(args, trailing, RParen)
    case Remark => [Comment]
  }

  function AllTokens(stmts: seq<Statement>): seq<Token> {
    if stmts == [] then [] else Tokens(stmts[0]) + AllTokens(stmts[1..])
  }

  /** A statement whose text shows where it ends. */
  predicate Complete(s: Statement) {
    match s
    case Assign(_, _, values, form) =>
      (match form case Bare => |values| == 1 case Braced(trailing) => trailing ==> values != [])
    case Block(_, _, body, closed) => closed && AllComplete(body)
    case Call(_, args, trailing) => trailing ==> args != []
    case Remark => true
  }

  predicate AllComplete(stmts: seq<Statement>) {
    stmts == [] || (Complete(stmts[0]) && AllComplete(stmts[1..]))
  }

  /** Statements that make up a whole text: the last one may be a section that nothing closes. */
  predicate Whole(stmts: seq<Statement>) {
    if stmts == [] then true
    else if |stmts| == 1 && stmts[0].Block? && !stmts[0].closed then Whole(stmts[0].body)
    else Complete(stmts[0]) && Whole(stmts[1..])
  }

  // ---------- meaning ----------

  /** The values of a section option with room made for a statement, and where its section stands. */
  datatype Place = Place(values: seq<Value>, index: nat)

  /**
   An option that takes one section goes on with the one it has. Otherwise the statement starts a section
   with the defaults: at the end, or under a title that is there already in place of that one, unless
   the option takes a title once only.
   */
  function SectionPlace(opt: Opt, title: Option<string>): (p: Option<Place>)
    requires opt.kind.Section? && opt.titled == title.Some?
    ensures p.Some? ==> p.value.index < |p.value.values| && p.value.values[p.value.index].Sec?
  {
    var kept := if opt.reset then [] else opt.values;
    var made := Sec(title, opt.subopts);
    if kept == [] then Some(Place([made], 0))
    else if !Many(opt) then
      if kept[0].Sec? then Some(Place(kept, 0))
      else if kept[0].Blank? then Some(Place(kept[0 := made], 0))
      else None
    else if !opt.titled then Some(Place(kept + [made], |kept|))
    else
      var i := FindTitle(kept, title.value);
      if i == |kept| then Some(Place(kept + [made], i))
      else if opt.noTitleDupes then None
      else Some(Place(if opt.multi then kept[i := made] else kept, i))
  }

  lemma SectionIsPlaced(opt: Opt, title: Option<string>)
    requires opt.kind.Section? && opt.titled == title.Some?
    ensures var r, p := SetOpt(opt, title), SectionPlace(opt, title);
            (r.Done? && r.opt.values[r.index].Sec? <==> p.Some?)
            && (p.Some? ==> r.index == p.value.index && r.opt == opt.(values := p.value.values, reset := false))
  {
    hide FindTitle;
    var kept := if opt.reset then [] else opt.values;
    var made := Sec(title, opt.subopts);
    assert (kept + [Blank])[|kept| := made] == kept + [made];
  }

  /** What a statement does to the options, if it is one for them. */
  function Meaning(s: Statement, opts: seq<Opt>): (r: Option<seq<Opt>>)
    decreases s
  {
    match s
    case Assign(name, append, values, form) =>
      var i := Find(opts, name);
      if i == |opts| || !(opts[i].kind.Text? || opts[i].kind.Boolean?) then None
      else if !opts[i].list && (append || form.Braced?) then None
      else
        var all := Meanings(opts[i].kind, values);
        if all.None? then None
        else
          var kept := if append then opts[i].values else [];
          Some(opts[i := opts[i].(values := kept + all.value, reset := !append && values == [])])
    case Block(name, title, body, _) =>
      var i := Find(opts, name);
      if i == |opts| || !opts[i].kind.Section? || opts[i].titled != title.Some? then None
      else
        var p := SectionPlace(opts[i], title);
        if p.None? then None
        else
          var section := p.value.values[p.value.index];
          var inner := AllMeaning(body, section.opts);
          if inner.None? then None
          else
            var filled := p.value.values[p.value.index := section.(opts := inner.value)];
            Some(opts[i := opts[i].(values := filled, reset := false)])
    case Call(name, args, _) =>
      var i := Find(opts, name);
      if i == |opts| || !opts[i].kind.Function? || args in opts[i].kind.refused then None
      else Some(opts[i := opts[i].(calls := opts[i].calls + [args])])
    case Remark => Some(opts)
  }

  function AllMeaning(stmts: seq<Statement>, opts: seq<Opt>): Option<seq<Opt>>
    decreases stmts
  {
    if stmts == [] then Some(opts)
    else
      var first := Meaning(stmts[0], opts);
      if first.None? then None else AllMeaning(stmts[1..], first.value)
  }

  /** A section statement in the terms of the code: set the option, read the body, put the section back. */
  lemma BlockInSteps(s: Statement, opts: seq<Opt>)
    requires s.Block? && Meaning(s, opts).Some?
    ensures var i := Find(opts, s.name);
            i < |opts| && opts[i].kind.Section? && opts[i].titled == s.title.Some?
            && var r := SetOpt(opts[i], s.title);
               r.Done? && r.opt.values[r.index].Sec?
               && var inner := AllMeaning(s.body, r.opt.values[r.index].opts);
                  inner.Some? && Meaning(s, opts).value == Leave(opts[i := r.opt], i, r.index, inner.value)
  {
    hide SetOpt, SectionPlace, AllMeaning, Find;
    SectionIsPlaced(opts[Find(opts, s.name)], s.title);
  }
}
