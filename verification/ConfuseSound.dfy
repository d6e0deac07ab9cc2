/** Every text that is read spells statements with a meaning. */
module ConfuseSound {
  import opened Wrappers
  import opened ConfuseOptions
  import opened ConfuseParsers
  import opened ConfuseGrammar
  import opened ConfuseComplete

  // ---------- every text that is read has a meaning ----------

  /** A tail of values, split off from the tokens that were read as one. */
  datatype Split = Split(values: seq<string>, trailing: bool, rest: seq<Token>)

  lemma {:induction false} TailWasRead(opts: seq<Opt>, cur: nat, num: nat, toks: seq<Token>, level: nat)
    returns (t: Split)
    requires PlainList(opts, cur) && !opts[cur].reset && num > 0
    requires Parse(Separator(opts, cur, num), toks, level).Parsed?
    ensures toks == Tail(t.values, t.trailing, Close) + t.rest
    ensures Meanings(opts[cur].kind, t.values).Some?
    decreases |toks|
  {
    SeparatorWasRead(opts, cur, num, toks, level);
    hide Parse, Bracketed, Meanings, Words;
    if toks[0] == Comma {
      assert toks == [Comma] + toks[1..];
      t := ItemWasRead(opts, cur, num, toks[1..], level);
      BracketedAfterComma(t.values, t.trailing, Close);
      t := Split(t.values, t.values == [] || t.trailing, t.rest);
      assert toks == Tail(t.values, t.trailing, Close) + t.rest;
    } else {
      t := Split([], false, toks[1..]);
      NoValues(opts[cur].kind);
      assert toks == [Close] + t.rest;
    }
  }

  lemma NoValues(kind: Kind)
    ensures Tail([], false, Close) == [Close] && Meanings(kind, []) == Some([])
  {
  }

  lemma SeparatorWasRead(opts: seq<Opt>, cur: nat, num: nat, toks: seq<Token>, level: nat)
    requires cur < |opts| && Parse(Separator(opts, cur, num), toks, level).Parsed?
    ensures toks != [] && (toks[0] == Comma || toks[0] == Close)
    ensures toks[0] == Comma ==> Parse(Item(opts, cur, num), toks[1..], level).Parsed?
  {
  }

  /** The same from state 2 of a list that has values already. */
  lemma {:induction false} ItemWasRead(opts: seq<Opt>, cur: nat, num: nat, toks: seq<Token>, level: nat)
    returns (t: Split)
    requires PlainList(opts, cur) && !opts[cur].reset && num > 0
    requires Parse(Item(opts, cur, num), toks, level).Parsed?
    ensures toks == Bracketed(t.values, t.trailing, Close) + t.rest
    ensures Meanings(opts[cur].kind, t.values).Some?
    ensures t.values == [] ==> !t.trailing
    decreases |toks|
  {
    hide SetOpt, Convert, WordMeaning, Find;
    if toks[0] == Close {
      t := Split([], false, toks[1..]);
    } else {
      var s := toks[0].text;
      ItemIsWord(opts, cur, num, toks, level);
      var next := Appended(opts, cur, [WordMeaning(opts[cur].kind, s).value]);
      ItemStep(opts, cur, num, s, level);
      assert toks == [Word(s)] + toks[1..];
      hide Parse;
      GoesOn(Item(opts, cur, num), Word(s), Separator(next, cur, num + 1), toks, toks[1..], level);
      t := TailWasRead(next, cur, num + 1, toks[1..], level);
      t := Split([s] + t.values, t.trailing, t.rest);
      assert t.values[1..] == t.values[1..];
    }
  }

  /** A word that a list takes means something to it. */
  lemma ItemIsWord(opts: seq<Opt>, cur: nat, num: nat, toks: seq<Token>, level: nat)
    requires PlainList(opts, cur) && toks != [] && toks[0] != Close
    requires Parse(Item(opts, cur, num), toks, level).Parsed?
    ensures toks[0].Word? && WordMeaning(opts[cur].kind, toks[0].text).Some?
  {
    if toks[0].Word? {
      SettingOne(opts[cur], toks[0].text);
    }
    hide SetOpt, Convert, WordMeaning;
  }

  /** A list from state 3 on. */
  lemma ListWasRead(opts: seq<Opt>, cur: nat, toks: seq<Token>, level: nat) returns (form: Form, t: Split)
    requires PlainList(opts, cur) && Parse(ListStart(opts, cur), toks, level).Parsed?
    ensures Meanings(opts[cur].kind, t.values).Some?
    ensures match form
            case Bare => |t.values| == 1 && toks == [Word(t.values[0])] + t.rest
            case Braced(trailing) => (trailing ==> t.values != [])
                                     && toks == [Open] + Bracketed(t.values, trailing, Close) + t.rest
  {
    hide SetOpt, Convert, WordMeaning, Find;
    if toks[0] == Open {
      var more := toks[1..];
      assert toks == [Open] + more;
      hide Parse;
      GoesOn(ListStart(opts, cur), Open, Item(opts, cur, 0), toks, more, level);
      t := FirstItemWasRead(opts, cur, more, level);
      if t.values == [] {
        form := Braced(false);
        assert Bracketed([], t.trailing, Close) == Bracketed([], false, Close);
      } else {
        form := Braced(t.trailing);
      }
    } else {
      assert toks[0].Word?;
      SettingOne(opts[cur], toks[0].text);
      form, t := Bare, Split([toks[0].text], false, toks[1..]);
      assert Meanings(opts[cur].kind, t.values[1..]) == Some([]);
    }
  }

  lemma FirstItemWasRead(opts: seq<Opt>, cur: nat, toks: seq<Token>, level: nat) returns (t: Split)
    requires PlainList(opts, cur) && Parse(Item(opts, cur, 0), toks, level).Parsed?
    ensures toks == Bracketed(t.values, t.trailing, Close) + t.rest
    ensures Meanings(opts[cur].kind, t.values).Some?
  {
    hide SetOpt, Convert, WordMeaning, Find;
    if toks[0] == Close {
      t := Split([], false, toks[1..]);
    } else {
      var s := toks[0].text;
      ItemIsWord(opts, cur, 0, toks, level);
      var next := Filled(opts, cur, [WordMeaning(opts[cur].kind, s).value]);
      FirstItemStep(opts, cur, s, level);
      assert toks == [Word(s)] + toks[1..];
      hide Parse;
      GoesOn(Item(opts, cur, 0), Word(s), Separator(next, cur, 1), toks, toks[1..], level);
      t := TailWasRead(next, cur, 1, toks[1..], level);
      var all := [s] + t.values;
      assert all[1..] == t.values;
      t := Split(all, t.trailing, t.rest);
    }
  }

  /** An assignment, from the equal sign on. */
  lemma AssignWasRead(opts: seq<Opt>, name: string, toks: seq<Token>, level: nat)
    returns (s: Statement, rest: seq<Token>)
    requires var i := Find(opts, name);
             i < |opts| && (opts[i].kind.Text? || opts[i].kind.Boolean?)
             && Parse(Named(opts, i), toks, level).Parsed?
    ensures s.Assign? && Complete(s) && Meaning(s, opts).Some?
    ensures [Word(name)] + toks == Tokens(s) + rest
  {
    hide SetOpt, Convert, WordMeaning, Find;
    var i := Find(opts, name);
    assert toks[0] == Plus || toks[0] == Equals;
    var append := toks[0] == Plus;
    var marked := Marked(opts, i, append);
    var more := toks[1..];
    assert toks == [toks[0]] + more;
    var next := if opts[i].list then ListStart(marked, i) else Item(marked, i, 0);
    assert Step(Named(opts, i), toks[0], level) == Goto(next);
    assert Parse(next, more, level).Parsed?;
    if opts[i].list {
      hide Parse, Step;
      var form, t := ListWasRead(marked, i, more, level);
      s, rest := Assign(name, append, t.values, form), t.rest;
      assert [Word(name)] + toks == [Word(name), toks[0]] + more;
      match form
      case Bare =>
      case Braced(trailing) =>
        assert [Word(name), toks[0]] + ([Open] + Bracketed(t.values, trailing, Close) + t.rest) == Tokens(s) + rest;
    } else {
      s, rest := ScalarWasRead(opts, name, toks, level);
    }
  }

  lemma ScalarWasRead(opts: seq<Opt>, name: string, toks: seq<Token>, level: nat)
    returns (s: Statement, rest: seq<Token>)
    requires var i := Find(opts, name);
             i < |opts| && (opts[i].kind.Text? || opts[i].kind.Boolean?) && !opts[i].list
             && toks != [] && toks[0] == Equals
             && Parse(Item(Marked(opts, i, false), i, 0), toks[1..], level).Parsed?
    ensures s.Assign? && Complete(s) && Meaning(s, opts).Some?
    ensures [Word(name)] + toks == Tokens(s) + rest
  {
    hide SetOpt, Convert, WordMeaning, Find;
    var i := Find(opts, name);
    var marked := Marked(opts, i, false);
    assert |toks| > 1 && toks[1].Word?;
    var w := toks[1].text;
    var freed := Freed(marked[i]);
    assert SetOpt(marked[i], Some(w)).Done? by {
      hide Meanings;
    }
    SettingFreed(marked[i], w);
    s, rest := Assign(name, false, [w], Bare), toks[2..];
    assert Meanings(opts[i].kind, [w][1..]) == Some([]);
    hide Parse;
    assert toks == [Equals, Word(w)] + rest;
  }

  lemma SettingFreed(opt: Opt, s: string)
    requires (opt.kind.Text? || opt.kind.Boolean?) && opt.reset && SetOpt(opt, Some(s)).Done?
    ensures WordMeaning(opt.kind, s).Some?
  {
    assert SetOpt(opt, Some(s)) == SetOpt(Freed(opt), Some(s));
    SettingOne(Freed(opt), s);
  }

  lemma ArgumentIsWord(opts: seq<Opt>, cur: nat, read: seq<string>, toks: seq<Token>, level: nat)
    requires cur < |opts| && toks != [] && toks[0] != RParen
    requires Parse(Argument(opts, cur, read), toks, level).Parsed?
    ensures toks[0].Word? && Parse(Delimiter(opts, cur, read + [toks[0].text]), toks[1..], level).Parsed?
  {
    hide CallFunction;
    if !toks[0].Word? {
      assert false;
    }
  }

  lemma {:induction false} ArgumentsWereRead(opts: seq<Opt>, cur: nat, read: seq<string>, toks: seq<Token>, level: nat)
    returns (t: Split)
    requires cur < |opts| && Parse(Delimiter(opts, cur, read), toks, level).Parsed?
    ensures toks == Tail(t.values, t.trailing, RParen) + t.rest
    decreases |toks|
  {
    DelimiterWasRead(opts, cur, read, toks, level);
    hide Parse, Bracketed;
    if toks[0] == Comma {
      assert toks == [Comma] + toks[1..];
      t := ArgumentWasRead(opts, cur, read, toks[1..], level);
      BracketedAfterComma(t.values, t.trailing, RParen);
      t := Split(t.values, t.values == [] || t.trailing, t.rest);
      assert toks == Tail(t.values, t.trailing, RParen) + t.rest;
    } else {
      t := Split([], false, toks[1..]);
      assert toks == Tail([], false, RParen) + t.rest;
    }
  }

  lemma DelimiterWasRead(opts: seq<Opt>, cur: nat, read: seq<string>, toks: seq<Token>, level: nat)
    requires cur < |opts| && Parse(Delimiter(opts, cur, read), toks, level).Parsed?
    ensures toks != [] && (toks[0] == Comma || toks[0] == RParen)
    ensures toks[0] == Comma ==> Parse(Argument(opts, cur, read), toks[1..], level).Parsed?
  {
    hide CallFunction;
  }

  lemma BracketedAfterComma(values: seq<string>, trailing: bool, end: Token)
    requires values == [] ==> !trailing
    ensures [Comma] + Bracketed(values, trailing, end) == Tail(values, values == [] || trailing, end)
  {
  }

  /** The same from state 8. */
  lemma {:induction false} ArgumentWasRead(opts: seq<Opt>, cur: nat, read: seq<string>, toks: seq<Token>, level: nat)
    returns (t: Split)
    requires cur < |opts| && Parse(Argument(opts, cur, read), toks, level).Parsed?
    ensures toks == Bracketed(t.values, t.trailing, RParen) + t.rest
    ensures t.values == [] ==> !t.trailing
    decreases |toks|
  {
    if toks[0] == RParen {
      t := Split([], false, toks[1..]);
    } else {
      ArgumentIsWord(opts, cur, read, toks, level);
      hide Parse;
      t := ArgumentsWereRead(opts, cur, read + [toks[0].text], toks[1..], level);
      var all := [toks[0].text] + t.values;
      assert all[1..] == t.values;
      t := Split(all, t.trailing, t.rest);
      assert toks == [Word(all[0])] + toks[1..];
    }
  }

  /** A call, from the opening parenthesis on. */
  lemma CallWasRead(opts: seq<Opt>, name: string, toks: seq<Token>, level: nat)
    returns (s: Statement, rest: seq<Token>)
    requires var i := Find(opts, name);
             i < |opts| && opts[i].kind.Function? && Parse(CallStart(opts, i), toks, level).Parsed?
    ensures s.Call? && Complete(s) && Meaning(s, opts).Some?
    ensures [Word(name)] + toks == Tokens(s) + rest
  {
    hide Parse, Find, CallFunction, Meaning, Bracketed;
    var i := Find(opts, name);
    var more := ParenthesisWasRead(opts, i, toks, level);
    var t := ArgumentWasRead(opts, i, [], more, level);
    s, rest := Call(name, t.values, t.trailing), t.rest;
    assert [Word(name)] + toks == Tokens(s) + rest;
    GoesOn(Idle(opts), Word(name), CallStart(opts, i), [Word(name)] + toks, toks, level);
    CallHasMeaning(opts, name, s, rest, [Word(name)] + toks, level);
  }

  lemma ParenthesisWasRead(opts: seq<Opt>, cur: nat, toks: seq<Token>, level: nat) returns (more: seq<Token>)
    requires cur < |opts| && Parse(CallStart(opts, cur), toks, level).Parsed?
    ensures toks == [LParen] + more && Parse(Argument(opts, cur, []), more, level).Parsed?
  {
    more := toks[1..];
  }

  lemma CallHasMeaning(opts: seq<Opt>, name: string, s: Statement, rest: seq<Token>, toks: seq<Token>, level: nat)
    requires s.Call? && Complete(s) && s.name == name && toks == Tokens(s) + rest
    requires var i := Find(opts, name); i < |opts| && opts[i].kind.Function?
    requires Parse(Idle(opts), toks, level).Parsed?
    ensures Meaning(s, opts).Some?
  {
    CallIsRead(name, s.args, s.trailing, opts, rest, level);
    hide Parse, Find;
  }

  // ---------- sections and whole texts ----------

  function Head(name: string, title: Option<string>): seq<Token> {
    [Word(name)] + (if title.Some? then [Word(title.value)] else []) + [Open]
  }

  /** A section, from behind its brace on, when its text was read. */
  lemma {:induction false} BodyWasRead(opts: seq<Opt>, name: string, title: Option<string>, body: seq<Token>,
                                        level: nat)
    returns (s: Statement, rest: seq<Token>)
    requires var i := Find(opts, name);
             i < |opts| && opts[i].kind.Section? && opts[i].titled == title.Some?
             && After(StepSection(opts, i, title, Open), body, level).Parsed?
    ensures s.Block? && Meaning(s, opts).Some?
    ensures if s.closed then Complete(s) && Head(name, title) + body == Tokens(s) + rest
            else Whole(s.body) && Head(name, title) + body == Tokens(s) && rest == []
    decreases |body|, 3
  {
    var i := Find(opts, name);
    SectionIsPlaced(opts[i], title);
    var r := SetOpt(opts[i], title);
    var section := r.opt.values[r.index].opts;
    var head := Head(name, title);
    assert Parse(Idle(section), body, level + 1).Parsed?;
    var stmts, closed := AllWereRead(section, body, level + 1);
    rest := Parse(Idle(section), body, level + 1).rest;
    s := Block(name, title, stmts, closed);
    assert Meaning(s, opts).Some?;
    hide Parse, SetOpt, Find, AllMeaning, AllTokens, Meaning;
    if closed {
      assert head + body == Tokens(s) + rest;
    } else {
      assert head + body == Tokens(s);
    }
  }

  /** A section, from behind its name on. */
  lemma {:induction false} BlockWasRead(opts: seq<Opt>, name: string, toks: seq<Token>, level: nat)
    returns (s: Statement, rest: seq<Token>)
    requires var i := Find(opts, name);
             i < |opts| && opts[i].kind.Section?
             && Parse(if opts[i].titled then Title(opts, i) else SectionStart(opts, i, None), toks, level).Parsed?
    ensures s.Block? && Meaning(s, opts).Some?
    ensures if s.closed then Complete(s) && [Word(name)] + toks == Tokens(s) + rest
            else Whole(s.body) && [Word(name)] + toks == Tokens(s) && rest == []
    decreases |toks|
  {
    var title, body := HeadWasRead(opts, name, toks, level);
    hide Parse, After, StepSection, Find, Meaning, Tokens, Complete, Head;
    s, rest := BodyWasRead(opts, name, title, body, level);
  }

  lemma HeadWasRead(opts: seq<Opt>, name: string, toks: seq<Token>, level: nat)
    returns (title: Option<string>, body: seq<Token>)
    requires var i := Find(opts, name);
             i < |opts| && opts[i].kind.Section?
             && Parse(if opts[i].titled then Title(opts, i) else SectionStart(opts, i, None), toks, level).Parsed?
    ensures var i := Find(opts, name);
            opts[i].titled == title.Some?
            && [Word(name)] + toks == Head(name, title) + body
            && After(StepSection(opts, i, title, Open), body, level).Parsed?
            && |body| < |toks|
  {
    hide Parse, After, StepSection, Find;
    var i := Find(opts, name);
    var more := toks;
    title := None;
    if opts[i].titled {
      TitleWasRead(opts, i, toks, level);
      title, more := Some(toks[0].text), toks[1..];
    }
    BraceWasRead(opts, i, title, more, level);
    body := more[1..];
    assert more == [Open] + body;
    assert title.Some? ==> toks == [Word(title.value)] + more;
  }

  lemma TitleWasRead(opts: seq<Opt>, cur: nat, toks: seq<Token>, level: nat)
    requires cur < |opts| && Parse(Title(opts, cur), toks, level).Parsed?
    ensures toks != [] && toks[0].Word?
    ensures Parse(SectionStart(opts, cur, Some(toks[0].text)), toks[1..], level).Parsed?
  {
    hide StepSection;
  }

  lemma BraceWasRead(opts: seq<Opt>, cur: nat, title: Option<string>, toks: seq<Token>, level: nat)
    requires cur < |opts| && Parse(SectionStart(opts, cur, title), toks, level).Parsed?
    ensures toks != [] && toks[0] == Open && After(StepSection(opts, cur, title, Open), toks[1..], level).Parsed?
  {
    hide SetOpt;
  }

  /** The first statement of a text that was read. */
  lemma {:induction false} StatementWasRead(opts: seq<Opt>, toks: seq<Token>, level: nat)
    returns (s: Statement, rest: seq<Token>)
    requires toks != [] && toks[0] != Close && Parse(Idle(opts), toks, level).Parsed?
    ensures Meaning(s, opts).Some?
    ensures if s.Block? && !s.closed then Whole(s.body) && toks == Tokens(s) && rest == []
            else Complete(s) && toks == Tokens(s) + rest
    decreases |toks|, 1
  {
    hide Find;
    var more := toks[1..];
    assert toks == [toks[0]] + more;
    if toks[0] == Comment {
      s, rest := Remark, more;
    } else {
      assert toks[0].Word?;
      var name := toks[0].text;
      var i := Find(opts, name);
      assert i < |opts|;
      match opts[i].kind
      case Section => s, rest := BlockWasRead(opts, name, more, level);
      case Function(_) => s, rest := CallWasRead(opts, name, more, level);
      case _ => s, rest := AssignWasRead(opts, name, more, level);
    }
  }

  /** All statements up to the closing brace, or up to the end of the text. */
  lemma {:induction false} AllWereRead(opts: seq<Opt>, toks: seq<Token>, level: nat)
    returns (stmts: seq<Statement>, closed: bool)
    requires Parse(Idle(opts), toks, level).Parsed?
    ensures var r := Parse(Idle(opts), toks, level);
            AllMeaning(stmts, opts) == Some(r.opts)
            && if closed then level > 0 && AllComplete(stmts) && toks == AllTokens(stmts) + [Close] + r.rest
               else Whole(stmts) && toks == AllTokens(stmts) && r.rest == []
    decreases |toks|, 2
  {
    var r := Parse(Idle(opts), toks, level);
    if toks == [] {
      stmts, closed := [], false;
    } else if toks[0] == Close {
      stmts, closed := [], true;
      assert toks == AllTokens(stmts) + [Close] + r.rest;
    } else {
      var s, rest := StatementWasRead(opts, toks, level);
      var next := Meaning(s, opts).value;
      if s.Block? && !s.closed {
        OpenBlockIsRead(s, opts, level);
        stmts, closed := [s], false;
        LoneStatement(s, opts);
      } else {
        StatementIsRead(s, opts, rest, level);
        TokensNotEmpty(s);
        stmts, closed := AllWereRead(next, rest, level);
        stmts := JoinStatements(s, stmts, closed, opts, toks, rest, r.rest);
      }
    }
  }

  lemma TokensNotEmpty(s: Statement)
    ensures Tokens(s) != []
  {
    hide AllTokens, Bracketed;
  }

  lemma LoneStatement(s: Statement, opts: seq<Opt>)
    requires s.Block? && !s.closed && Whole(s.body)
    ensures Whole([s]) && AllTokens([s]) == Tokens(s) && AllMeaning([s], opts) == Meaning(s, opts)
  {
    hide Meaning;
    assert [s][1..] == [];
  }

  lemma JoinStatements(s: Statement, rest: seq<Statement>, closed: bool, opts: seq<Opt>, toks: seq<Token>,
                       more: seq<Token>, end: seq<Token>) returns (stmts: seq<Statement>)
    requires Complete(s) && Meaning(s, opts).Some? && toks == Tokens(s) + more
    requires if closed then AllComplete(rest) && more == AllTokens(rest) + [Close] + end
             else Whole(rest) && more == AllTokens(rest)
    ensures AllMeaning(stmts, opts) == AllMeaning(rest, Meaning(s, opts).value)
    ensures if closed then AllComplete(stmts) && toks == AllTokens(stmts) + [Close] + end
            else Whole(stmts) && toks == AllTokens(stmts)
  {
    hide Tokens, Meaning;
    stmts := [s] + rest;
    assert stmts[1..] == rest;
  }
}
