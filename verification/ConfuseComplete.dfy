/** Every text that spells statements with a meaning is read, and the options are left as they say. */
module ConfuseComplete {
  import opened Wrappers
  import opened ConfuseOptions
  import opened ConfuseParsers
  import opened ConfuseGrammar

  // ---------- steps of the machine ----------

  lemma OneStep(c: Control, t: Token, rest: seq<Token>, level: nat)
    requires Ready(c)
    ensures Parse(c, [t] + rest, level) == After(Step(c, t, level), rest, level)
  {
    hide Step, After;
    assert ([t] + rest)[1..] == rest;
  }

  lemma GoesOn(c: Control, t: Token, next: Control, toks: seq<Token>, rest: seq<Token>, level: nat)
    requires Ready(c) && Step(c, t, level) == Goto(next) && toks == [t] + rest
    ensures Parse(c, toks, level) == Parse(next, rest, level)
  {
    hide Step;
    OneStep(c, t, rest, level);
  }

  /** A list option after values were appended to it, none of which is held back by a reset. */
  function Appended(opts: seq<Opt>, cur: nat, values: seq<Value>): seq<Opt>
    requires cur < |opts|
  {
    opts[cur := opts[cur].(values := opts[cur].values + values, reset := false)]
  }

  predicate PlainList(opts: seq<Opt>, cur: nat) {
    cur < |opts| && opts[cur].list && (opts[cur].kind.Text? || opts[cur].kind.Boolean?)
  }

  /** One value of a list, from state 2 or 3: what is kept of the old values, and the new one. */
  lemma ItemIsSet(opts: seq<Opt>, cur: nat, s: string)
    requires PlainList(opts, cur) && WordMeaning(opts[cur].kind, s).Some?
    ensures var r := SetOpt(opts[cur], Some(s));
            r.Done?
            && r.opt == opts[cur].(values := Freed(opts[cur]).values + [WordMeaning(opts[cur].kind, s).value],
                                   reset := false)
  {
    SettingOne(opts[cur], s);
  }

  lemma AppendedNothing(opts: seq<Opt>, cur: nat)
    requires cur < |opts| && !opts[cur].reset
    ensures Appended(opts, cur, []) == opts
  {
    assert opts[cur].values + [] == opts[cur].values;
    assert opts[cur := opts[cur]] == opts;
  }

  lemma AppendedTwice(opts: seq<Opt>, cur: nat, first: seq<Value>, second: seq<Value>)
    requires cur < |opts|
    ensures Appended(Appended(opts, cur, first), cur, second) == Appended(opts, cur, first + second)
  {
    assert opts[cur].values + first + second == opts[cur].values + (first + second);
  }

  /** One value in braces. */
  lemma ItemStep(opts: seq<Opt>, cur: nat, num: nat, s: string, level: nat)
    requires PlainList(opts, cur) && !opts[cur].reset && WordMeaning(opts[cur].kind, s).Some?
    ensures Step(Item(opts, cur, num), Word(s), level)
            == Goto(Separator(Appended(opts, cur, [WordMeaning(opts[cur].kind, s).value]), cur, num + 1))
  {
    ItemIsSet(opts, cur, s);
    hide SetOpt, Convert, WordMeaning;
  }

  /** From a separator on: the values that follow are appended in order. */
  lemma {:induction false} TailIsRead(opts: seq<Opt>, cur: nat, num: nat, values: seq<string>, trailing: bool,
                                      rest: seq<Token>, level: nat)
    requires PlainList(opts, cur) && !opts[cur].reset && num > 0
    requires Meanings(opts[cur].kind, values).Some?
    ensures Parse(Separator(opts, cur, num), Tail(values, trailing, Close) + rest, level)
            == Parse(Idle(Appended(opts, cur, Meanings(opts[cur].kind, values).value)), rest, level)
    decreases values
  {
    hide Parse, SetOpt, Convert, WordMeaning, Find, AllTokens;
    var toks := Tail(values, trailing, Close) + rest;
    if values == [] {
      AppendedNothing(opts, cur);
      hide Appended;
      if trailing {
        assert toks == [Comma] + ([Close] + rest);
        GoesOn(Separator(opts, cur, num), Comma, Item(opts, cur, num), toks, [Close] + rest, level);
        GoesOn(Item(opts, cur, num), Close, Idle(opts), [Close] + rest, rest, level);
      } else {
        assert toks == [Close] + rest;
        GoesOn(Separator(opts, cur, num), Close, Idle(opts), toks, rest, level);
      }
    } else {
      var v := WordMeaning(opts[cur].kind, values[0]).value;
      var more := Meanings(opts[cur].kind, values[1..]).value;
      var next := Appended(opts, cur, [v]);
      var after := Tail(values[1..], trailing, Close) + rest;
      TailStep(opts, cur, num, values, trailing, rest, level);
      TailIsRead(next, cur, num + 1, values[1..], trailing, rest, level);
      AppendedTwice(opts, cur, [v], more);
    }
  }

  lemma TailStep(opts: seq<Opt>, cur: nat, num: nat, values: seq<string>, trailing: bool, rest: seq<Token>,
                 level: nat)
    requires PlainList(opts, cur) && !opts[cur].reset && values != []
    requires WordMeaning(opts[cur].kind, values[0]).Some?
    ensures Parse(Separator(opts, cur, num), Tail(values, trailing, Close) + rest, level)
            == Parse(Separator(Appended(opts, cur, [WordMeaning(opts[cur].kind, values[0]).value]), cur, num + 1),
                     Tail(values[1..], trailing, Close) + rest, level)
  {
    var next := Appended(opts, cur, [WordMeaning(opts[cur].kind, values[0]).value]);
    ItemStep(opts, cur, num, values[0], level);
    hide Parse, SetOpt, Convert, WordMeaning, Find, AllTokens, Appended;
    var toks := Tail(values, trailing, Close) + rest;
    var after := Tail(values[1..], trailing, Close) + rest;
    assert toks == [Comma] + ([Word(values[0])] + after);
    GoesOn(Separator(opts, cur, num), Comma, Item(opts, cur, num), toks, [Word(values[0])] + after, level);
    GoesOn(Item(opts, cur, num), Word(values[0]), Separator(next, cur, num + 1), [Word(values[0])] + after, after,
           level);
  }

  /** A list option after a whole list was read in state 3. */
  function Filled(opts: seq<Opt>, cur: nat, values: seq<Value>): seq<Opt>
    requires cur < |opts|
  {
    opts[cur := opts[cur].(values := Freed(opts[cur]).values + values, reset := opts[cur].reset && values == [])]
  }

  lemma FilledInTwo(opts: seq<Opt>, cur: nat, v: Value, more: seq<Value>)
    requires cur < |opts|
    ensures Appended(Filled(opts, cur, [v]), cur, more) == Filled(opts, cur, [v] + more)
  {
    assert Freed(opts[cur]).values + [v] + more == Freed(opts[cur]).values + ([v] + more);
  }

  lemma FilledWithNothing(opts: seq<Opt>, cur: nat)
    requires cur < |opts|
    ensures Filled(opts, cur, []) == if opts[cur].reset then opts[cur := opts[cur].(values := [])] else opts
  {
    assert Freed(opts[cur]).values + [] == Freed(opts[cur]).values;
    assert opts[cur := opts[cur]] == opts;
  }

  lemma FirstItemStep(opts: seq<Opt>, cur: nat, s: string, level: nat)
    requires PlainList(opts, cur) && WordMeaning(opts[cur].kind, s).Some?
    ensures var next := Filled(opts, cur, [WordMeaning(opts[cur].kind, s).value]);
            Step(Item(opts, cur, 0), Word(s), level) == Goto(Separator(next, cur, 1))
            && Step(ListStart(opts, cur), Word(s), level) == Goto(Idle(next))
            && PlainList(next, cur) && !next[cur].reset && next[cur].kind == opts[cur].kind
  {
    ItemIsSet(opts, cur, s);
    hide SetOpt, Convert, WordMeaning;
  }

  lemma BracedIsRead(opts: seq<Opt>, cur: nat, values: seq<string>, trailing: bool, rest: seq<Token>, level: nat)
    requires PlainList(opts, cur) && Meanings(opts[cur].kind, values).Some?
    requires trailing ==> values != []
    ensures Parse(ListStart(opts, cur), [Open] + Bracketed(values, trailing, Close) + rest, level)
            == Parse(Idle(Filled(opts, cur, Meanings(opts[cur].kind, values).value)), rest, level)
  {
    hide Parse, SetOpt, Convert, WordMeaning, Tail, Appended, Filled;
    var inner := Bracketed(values, trailing, Close) + rest;
    assert [Open] + Bracketed(values, trailing, Close) + rest == [Open] + inner;
    GoesOn(ListStart(opts, cur), Open, Item(opts, cur, 0), [Open] + inner, inner, level);
    if values == [] {
      FilledWithNothing(opts, cur);
      GoesOn(Item(opts, cur, 0), Close, Idle(Filled(opts, cur, [])), inner, rest, level);
    } else {
      var v := WordMeaning(opts[cur].kind, values[0]).value;
      var more := Meanings(opts[cur].kind, values[1..]).value;
      var next := Filled(opts, cur, [v]);
      var after := Tail(values[1..], trailing, Close) + rest;
      assert inner == [Word(values[0])] + after;
      FirstItemStep(opts, cur, values[0], level);
      GoesOn(Item(opts, cur, 0), Word(values[0]), Separator(next, cur, 1), inner, after, level);
      TailIsRead(next, cur, 1, values[1..], trailing, rest, level);
      FilledInTwo(opts, cur, v, more);
    }
  }

  lemma BareIsRead(opts: seq<Opt>, cur: nat, s: string, rest: seq<Token>, level: nat)
    requires PlainList(opts, cur) && WordMeaning(opts[cur].kind, s).Some?
    ensures Parse(ListStart(opts, cur), [Word(s)] + rest, level)
            == Parse(Idle(Filled(opts, cur, [WordMeaning(opts[cur].kind, s).value])), rest, level)
  {
    FirstItemStep(opts, cur, s, level);
    hide Parse, Step, Filled, Convert, WordMeaning;
    GoesOn(ListStart(opts, cur), Word(s), Idle(Filled(opts, cur, [WordMeaning(opts[cur].kind, s).value])),
           [Word(s)] + rest, rest, level);
  }

  /** The options after `=` or `+=`. */
  function Marked(opts: seq<Opt>, cur: nat, append: bool): seq<Opt>
    requires cur < |opts|
  {
    opts[cur := opts[cur].(reset := !append)]
  }

  /** The name and the equal sign lead to state 2 or 3 with the option marked. */
  lemma HeadIsRead(opts: seq<Opt>, name: string, append: bool, toks: seq<Token>, rest: seq<Token>, level: nat)
    requires var i := Find(opts, name);
             i < |opts| && (opts[i].kind.Text? || opts[i].kind.Boolean?) && (append ==> opts[i].list)
    requires toks == [Word(name), if append then Plus else Equals] + rest
    ensures var i := Find(opts, name);
            var marked := Marked(opts, i, append);
            Parse(Idle(opts), toks, level)
            == Parse(if opts[i].list then ListStart(marked, i) else Item(marked, i, 0), rest, level)
  {
    hide Parse, Find, SetOpt;
    var i := Find(opts, name);
    var eq := if append then Plus else Equals;
    var marked := Marked(opts, i, append);
    assert toks == [Word(name)] + ([eq] + rest);
    GoesOn(Idle(opts), Word(name), Named(opts, i), toks, [eq] + rest, level);
    GoesOn(Named(opts, i), eq, if opts[i].list then ListStart(marked, i) else Item(marked, i, 0), [eq] + rest, rest,
           level);
  }

  /** A scalar's single value. */
  lemma ScalarIsRead(opts: seq<Opt>, cur: nat, s: string, rest: seq<Token>, level: nat)
    requires cur < |opts| && (opts[cur].kind.Text? || opts[cur].kind.Boolean?)
    requires !opts[cur].list && opts[cur].reset && WordMeaning(opts[cur].kind, s).Some?
    ensures Parse(Item(opts, cur, 0), [Word(s)] + rest, level)
            == Parse(Idle(Filled(opts, cur, [WordMeaning(opts[cur].kind, s).value])), rest, level)
  {
    ScalarStep(opts, cur, s, level);
    hide Parse, Step, Filled, Convert, WordMeaning;
    GoesOn(Item(opts, cur, 0), Word(s), Idle(Filled(opts, cur, [WordMeaning(opts[cur].kind, s).value])),
           [Word(s)] + rest, rest, level);
  }

  lemma ScalarStep(opts: seq<Opt>, cur: nat, s: string, level: nat)
    requires cur < |opts| && (opts[cur].kind.Text? || opts[cur].kind.Boolean?)
    requires !opts[cur].list && opts[cur].reset && WordMeaning(opts[cur].kind, s).Some?
    ensures Step(Item(opts, cur, 0), Word(s), level)
            == Goto(Idle(Filled(opts, cur, [WordMeaning(opts[cur].kind, s).value])))
  {
    var freed := Freed(opts[cur]);
    assert SetOpt(opts[cur], Some(s)) == SetOpt(freed, Some(s));
    SettingOne(freed, s);
    hide SetOpt, Convert, WordMeaning;
  }

  lemma AssignIsRead(s: Statement, opts: seq<Opt>, rest: seq<Token>, level: nat)
    requires s.Assign? && Complete(s) && Meaning(s, opts).Some?
    ensures Parse(Idle(opts), Tokens(s) + rest, level) == Parse(Idle(Meaning(s, opts).value), rest, level)
  {
    hide Parse, Find, Convert, WordMeaning, Filled;
    var i := Find(opts, s.name);
    var marked := Marked(opts, i, s.append);
    var all := Meanings(opts[i].kind, s.values).value;
    assert Filled(marked, i, all) == Meaning(s, opts).value by {
      FilledIsMeaning(s, opts);
    }
    var eq := if s.append then Plus else Equals;
    match s.form
    case Bare =>
      var v := [Word(s.values[0])];
      assert Tokens(s) + rest == [Word(s.name), eq] + (v + rest);
      HeadIsRead(opts, s.name, s.append, Tokens(s) + rest, v + rest, level);
      assert all == [WordMeaning(opts[i].kind, s.values[0]).value];
      if opts[i].list {
        BareIsRead(marked, i, s.values[0], rest, level);
      } else {
        ScalarIsRead(marked, i, s.values[0], rest, level);
      }
    case Braced(trailing) =>
      var inner := [Open] + Bracketed(s.values, trailing, Close) + rest;
      assert Tokens(s) + rest == [Word(s.name), eq] + inner;
      HeadIsRead(opts, s.name, s.append, Tokens(s) + rest, inner, level);
      BracedIsRead(marked, i, s.values, trailing, rest, level);
  }

  lemma FilledIsMeaning(s: Statement, opts: seq<Opt>)
    requires s.Assign? && Complete(s) && Meaning(s, opts).Some?
    ensures var i := Find(opts, s.name);
            i < |opts| && Filled(Marked(opts, i, s.append), i, Meanings(opts[i].kind, s.values).value)
                          == Meaning(s, opts).value
  {
    hide Convert, WordMeaning, Find;
    var i := Find(opts, s.name);
    var all := Meanings(opts[i].kind, s.values).value;
    assert all == [] <==> s.values == [];
    assert Freed(opts[i].(reset := !s.append)).values == if s.append then opts[i].values else [];
  }

  // ---------- calls ----------

  lemma {:induction false} ArgumentsAreRead(opts: seq<Opt>, cur: nat, read: seq<string>, args: seq<string>,
                                             trailing: bool, rest: seq<Token>, level: nat)
    requires cur < |opts|
    ensures Parse(Delimiter(opts, cur, read), Tail(args, trailing, RParen) + rest, level)
            == After(CallFunction(opts, cur, read + args), rest, level)
    decreases args
  {
    hide Parse, After, CallFunction;
    var toks := Tail(args, trailing, RParen) + rest;
    if args == [] {
      assert read + args == read;
      if trailing {
        assert toks == [Comma] + ([RParen] + rest);
        GoesOn(Delimiter(opts, cur, read), Comma, Argument(opts, cur, read), toks, [RParen] + rest, level);
        OneStep(Argument(opts, cur, read), RParen, rest, level);
      } else {
        assert toks == [RParen] + rest;
        OneStep(Delimiter(opts, cur, read), RParen, rest, level);
      }
    } else {
      var after := Tail(args[1..], trailing, RParen) + rest;
      assert toks == [Comma] + ([Word(args[0])] + after);
      assert read + [args[0]] + args[1..] == read + args;
      GoesOn(Delimiter(opts, cur, read), Comma, Argument(opts, cur, read), toks, [Word(args[0])] + after, level);
      GoesOn(Argument(opts, cur, read), Word(args[0]), Delimiter(opts, cur, read + [args[0]]),
             [Word(args[0])] + after, after, level);
      ArgumentsAreRead(opts, cur, read + [args[0]], args[1..], trailing, rest, level);
    }
  }

  /** A call, from the name to the closing parenthesis. */
  lemma CallIsRead(name: string, args: seq<string>, trailing: bool, opts: seq<Opt>, rest: seq<Token>, level: nat)
    requires trailing ==> args != []
    requires var i := Find(opts, name); i < |opts| && opts[i].kind.Function?
    ensures Parse(Idle(opts), Tokens(Call(name, args, trailing)) + rest, level)
            == After(CallFunction(opts, Find(opts, name), args), rest, level)
  {
    hide Parse, After, CallFunction, Find, Tail;
    var i := Find(opts, name);
    var inner := Bracketed(args, trailing, RParen) + rest;
    assert Tokens(Call(name, args, trailing)) + rest == [Word(name)] + ([LParen] + inner);
    GoesOn(Idle(opts), Word(name), CallStart(opts, i), [Word(name)] + ([LParen] + inner), [LParen] + inner, level);
    GoesOn(CallStart(opts, i), LParen, Argument(opts, i, []), [LParen] + inner, inner, level);
    if args == [] {
      OneStep(Argument(opts, i, []), RParen, rest, level);
    } else {
      var after := Tail(args[1..], trailing, RParen) + rest;
      assert inner == [Word(args[0])] + after;
      assert [] + [args[0]] == [args[0]] && [args[0]] + args[1..] == args;
      GoesOn(Argument(opts, i, []), Word(args[0]), Delimiter(opts, i, [args[0]]), inner, after, level);
      ArgumentsAreRead(opts, i, [args[0]], args[1..], trailing, rest, level);
    }
  }

  // ---------- sections ----------

  /** The name, the title and the brace of a section, up to its own text. */
  lemma BlockIsEntered(name: string, title: Option<string>, opts: seq<Opt>, toks: seq<Token>, rest: seq<Token>,
                       level: nat)
    requires var i := Find(opts, name);
             i < |opts| && opts[i].kind.Section? && opts[i].titled == title.Some?
    requires toks == [Word(name)] + (if title.Some? then [Word(title.value)] else []) + [Open] + rest
    ensures var i := Find(opts, name);
            Parse(Idle(opts), toks, level) == After(StepSection(opts, i, title, Open), rest, level)
  {
    hide Parse, After, StepSection, Find;
    var i := Find(opts, name);
    var start := SectionStart(opts, i, title);
    match title
    case None =>
      assert toks == [Word(name)] + ([Open] + rest);
      GoesOn(Idle(opts), Word(name), start, toks, [Open] + rest, level);
      OneStep(start, Open, rest, level);
    case Some(text) =>
      assert toks == [Word(name)] + ([Word(text)] + ([Open] + rest));
      GoesOn(Idle(opts), Word(name), Title(opts, i), toks, [Word(text)] + ([Open] + rest), level);
      GoesOn(Title(opts, i), Word(text), start, [Word(text)] + ([Open] + rest), [Open] + rest, level);
      OneStep(start, Open, rest, level);
  }

  // ---------- every text with a meaning is read ----------

  lemma {:induction false} StatementIsRead(s: Statement, opts: seq<Opt>, rest: seq<Token>, level: nat)
    requires Complete(s) && Meaning(s, opts).Some?
    ensures Parse(Idle(opts), Tokens(s) + rest, level) == Parse(Idle(Meaning(s, opts).value), rest, level)
    decreases s
  {
    match s
    case Assign(_, _, _, _) => AssignIsRead(s, opts, rest, level);
    case Block(name, title, body, _) => BlockIsRead(name, title, body, opts, rest, level);
    case Call(name, args, trailing) =>
      hide Parse, Find;
      CallIsRead(name, args, trailing, opts, rest, level);
    case Remark =>
      hide Parse, Find;
      GoesOn(Idle(opts), Comment, Idle(opts), [Comment] + rest, rest, level);
  }

  lemma {:induction false} BlockIsRead(name: string, title: Option<string>, body: seq<Statement>, opts: seq<Opt>,
                                        rest: seq<Token>, level: nat)
    requires AllComplete(body) && Meaning(Block(name, title, body, true), opts).Some?
    ensures Parse(Idle(opts), Tokens(Block(name, title, body, true)) + rest, level)
            == Parse(Idle(Meaning(Block(name, title, body, true), opts).value), rest, level)
    decreases body, 2
  {
    hide Parse, SetOpt, Find, AllTokens, AllMeaning, Leave, AllComplete, Meaning;
    var i := Find(opts, name);
    BlockInSteps(Block(name, title, body, true), opts);
    var r := SetOpt(opts[i], title);
    var section := r.opt.values[r.index].opts;
    var inner := AllTokens(body) + ([Close] + rest);
    AllAreRead(body, section, [Close] + rest, level + 1);
    assert Tokens(Block(name, title, body, true)) + rest
           == [Word(name)] + (if title.Some? then [Word(title.value)] else []) + [Open] + inner;
    BlockIsEntered(name, title, opts, Tokens(Block(name, title, body, true)) + rest, inner, level);
    OneStep(Idle(AllMeaning(body, section).value), Close, rest, level + 1);
  }

  lemma {:induction false} AllAreRead(stmts: seq<Statement>, opts: seq<Opt>, rest: seq<Token>, level: nat)
    requires AllComplete(stmts) && AllMeaning(stmts, opts).Some?
    ensures Parse(Idle(opts), AllTokens(stmts) + rest, level)
            == Parse(Idle(AllMeaning(stmts, opts).value), rest, level)
    decreases stmts, 1
  {
    hide Parse, Tokens, Meaning;
    if stmts == [] {
      assert AllTokens(stmts) + rest == rest;
    } else {
      var first := Meaning(stmts[0], opts).value;
      assert AllTokens(stmts) + rest == Tokens(stmts[0]) + (AllTokens(stmts[1..]) + rest);
      StatementIsRead(stmts[0], opts, AllTokens(stmts[1..]) + rest, level);
      AllAreRead(stmts[1..], first, rest, level);
    }
  }

  /** The last section of a text may go unclosed, and so may the last one in it. */
  lemma {:induction false} WholeIsRead(stmts: seq<Statement>, opts: seq<Opt>, level: nat)
    requires Whole(stmts) && AllMeaning(stmts, opts).Some?
    ensures Parse(Idle(opts), AllTokens(stmts), level) == Parsed(AllMeaning(stmts, opts).value, [])
    decreases stmts
  {
    if stmts == [] {
    } else if |stmts| == 1 && stmts[0].Block? && !stmts[0].closed {
      OpenBlockIsRead(stmts[0], opts, level);
      assert AllTokens(stmts) == Tokens(stmts[0]) by {
        assert AllTokens(stmts[1..]) == [];
      }
      assert AllMeaning(stmts, opts) == Meaning(stmts[0], opts);
    } else {
      hide Parse, Tokens, Meaning;
      StatementIsRead(stmts[0], opts, AllTokens(stmts[1..]), level);
      WholeIsRead(stmts[1..], Meaning(stmts[0], opts).value, level);
    }
  }

  lemma {:induction false} OpenBlockIsRead(s: Statement, opts: seq<Opt>, level: nat)
    requires s.Block? && !s.closed && Whole(s.body) && Meaning(s, opts).Some?
    ensures Parse(Idle(opts), Tokens(s), level) == Parsed(Meaning(s, opts).value, [])
    decreases s
  {
    BlockInSteps(s, opts);
    var i := Find(opts, s.name);
    var r := SetOpt(opts[i], s.title);
    var section := r.opt.values[r.index].opts;
    WholeIsRead(s.body, section, level + 1);
    assert forall o: seq<Opt> :: Parse(Idle(o), [], level) == Parsed(o, []);
    hide Parse, SetOpt, Find, AllTokens, AllMeaning, Leave, Meaning;
    assert Tokens(s) == [Word(s.name)] + (if s.title.Some? then [Word(s.title.value)] else []) + [Open]
                        + AllTokens(s.body);
    BlockIsEntered(s.name, s.title, opts, Tokens(s), AllTokens(s.body), level);
  }
}
