/** The parser's loop, with the variables it updates as the fields of one activation. */
module ConfuseReaders {
  import opened Wrappers
  import opened ConfuseOptions
  import opened ConfuseParsers

  /** The input not read yet; all activations share it. */
  class Lexer {
    var input: seq<Token>

    constructor (toks: seq<Token>)
      ensures input == toks
    {
      input := toks;
    }
  }

  class Activation {
    const level: nat
    var state: nat
    var opts: seq<Opt>
    var opt: nat
    var title: Option<string>
    var numValues: nat
    var args: seq<string>

    constructor (opts: seq<Opt>, level: nat)
      ensures Valid() && Held() == Idle(opts) && this.level == level
    {
      this.level, this.opts := level, opts;
      state, opt, title, numValues, args := 0, 0, None, 0, [];
    }

    ghost predicate Valid()
      reads this
    {
      && state <= 9
      && (state != 0 ==> opt < |opts|)
      && (title.Some? ==> state == 5)
      && (args != [] ==> state == 8 || state == 9)
      && (state == 3 ==> numValues == 0)
      && (state == 4 ==> opts[opt].list)
    }

    /** The machine's state; a count of values means something only while a list is read. */
    ghost function Held(): (c: Control)
      requires Valid()
      reads this
      ensures Ready(c)
    {
      match state
      case 0 => Idle(opts)
      case 1 => Named(opts, opt)
      case 2 => Item(opts, opt, if opts[opt].list then numValues else 0)
      case 3 => ListStart(opts, opt)
      case 4 => Separator(opts, opt, numValues)
      case 5 => SectionStart(opts, opt, title)
      case 6 => Title(opts, opt)
      case 7 => CallStart(opts, opt)
      case 8 => Argument(opts, opt, args)
      case _ => Delimiter(opts, opt, args)
    }

    method ReadName(tok: Token) returns (ok: bool, stop: bool)
      requires Valid() && state == 0
      modifies this
      ensures var m := Step(old(Held()), tok, level);
              if !ok then m == Error
              else if stop then m == Stop(opts)
              else Valid() && m == Goto(Held())
    {
      hide Find;
      match tok
      case Close =>
        return level != 0, true;
      case Comment =>
        return true, false;
      case Word(name) =>
        var i := GetOpt(name);
        if i == |opts| {
          return false, false;
        }
        opt := i;
        match opts[opt].kind {
          case Section => state := if opts[opt].titled then 6 else 5;
          case Function(_) => state := 7;
          case _ => state := 1;
        }
        return true, false;
      case _ =>
        return false, false;
    }

    method GetOpt(name: string) returns (i: nat)
      ensures i == Find(opts, name)
    {
      i := 0;
      while i < |opts| && opts[i].name != name
        invariant i <= |opts| && Find(opts, name) == i + Find(opts[i..], name)
      {
        assert opts[i..][1..] == opts[i + 1..];
        i := i + 1;
      }
    }

    method ReadEquals(tok: Token) returns (ok: bool)
      requires Valid() && state == 1
      modifies this
      ensures var m := Step(old(Held()), tok, level);
              if ok then Valid() && m == Goto(Held()) else m == Error
    {
      if tok == Plus {
        if !opts[opt].list {
          return false;
        }
        opts := opts[opt := opts[opt].(reset := false)];
      } else if tok == Equals {
        opts := opts[opt := opts[opt].(reset := true)];
      } else {
        return false;
      }
      if opts[opt].list {
        state := 3;
        numValues := 0;
      } else {
        state := 2;
      }
      return true;
    }

    method ReadValue(tok: Token) returns (ok: bool)
      requires Valid() && state == 2
      modifies this
      ensures var m := Step(old(Held()), tok, level);
              if ok then Valid() && m == Goto(Held()) else m == Error
    {
      hide SetOpt;
      if tok == Close && opts[opt].list {
        state := 0;
        if numValues == 0 && opts[opt].reset {
          opts := opts[opt := opts[opt].(values := [])];
        }
        return true;
      }
      if !tok.Word? {
        return false;
      }
      var r := SetOpt(opts[opt], Some(tok.text));
      SetOptKeeps(opts[opt], Some(tok.text));
      if r.Refused? {
        return false;
      }
      opts := opts[opt := r.opt];
      if opts[opt].list {
        numValues := numValues + 1;
        state := 4;
      } else {
        state := 0;
      }
      return true;
    }

    method ReadListStart(tok: Token) returns (ok: bool)
      requires Valid() && state == 3
      modifies this
      ensures var m := Step(old(Held()), tok, level);
              if ok then Valid() && m == Goto(Held()) else m == Error
    {
      hide SetOpt;
      if tok == Open {
        state := 2;
        return true;
      }
      if !tok.Word? {
        return false;
      }
      var r := SetOpt(opts[opt], Some(tok.text));
      if r.Refused? {
        return false;
      }
      opts := opts[opt := r.opt];
      numValues := numValues + 1;
      state := 0;
      return true;
    }

    method ReadSeparator(tok: Token) returns (ok: bool)
      requires Valid() && state == 4
      modifies this
      ensures var m := Step(old(Held()), tok, level);
              if ok then Valid() && m == Goto(Held()) else m == Error
    {
      if tok == Comma {
        state := 2;
      } else if tok == Close {
        state := 0;
      } else {
        return false;
      }
      return true;
    }

    /** On success the section to be read is the one at `index`. */
    method ReadSectionStart(tok: Token) returns (ok: bool, index: nat)
      requires Valid() && state == 5
      modifies this
      ensures var m := Step(old(Held()), tok, level);
              if ok then Valid() && state == 0 && m == Enter(opts, old(opt), index) && opt == old(opt) else m == Error
    {
      hide SetOpt;
      index := 0;
      if tok != Open {
        return false, 0;
      }
      var r := SetOpt(opts[opt], title);
      if r.Refused? || !r.opt.values[r.index].Sec? {
        return false, 0;
      }
      title := None;
      opts := opts[opt := r.opt];
      state := 0;
      return true, r.index;
    }

    method ReadTitle(tok: Token) returns (ok: bool)
      requires Valid() && state == 6
      modifies this
      ensures var m := Step(old(Held()), tok, level);
              if ok then Valid() && m == Goto(Held()) else m == Error
    {
      if !tok.Word? {
        return false;
      }
      title := Some(tok.text);
      state := 5;
      return true;
    }

    method ReadCall(tok: Token) returns (ok: bool)
      requires Valid() && state in {7, 8, 9}
      modifies this
      ensures var m := Step(old(Held()), tok, level);
              if ok then Valid() && m == Goto(Held()) else m == Error
    {
      if state == 7 {
        if tok != LParen {
          return false;
        }
        state := 8;
        return true;
      }
      if tok == RParen {
        if !opts[opt].kind.Function? || args in opts[opt].kind.refused {
          return false;
        }
        opts := opts[opt := opts[opt].(calls := opts[opt].calls + [args])];
        args := [];
        state := 0;
      } else if state == 8 && tok.Word? {
        args := args + [tok.text];
        state := 9;
      } else if state == 9 && tok == Comma {
        state := 8;
      } else {
        return false;
      }
      return true;
    }

    /** One token in a state other than 0 and 5. */
    method ReadOther(tok: Token) returns (ok: bool)
      requires Valid() && state != 0 && state != 5
      modifies this
      ensures var m := Step(old(Held()), tok, level);
              if ok then Valid() && m == Goto(Held()) else m == Error
    {
      hide Step;
      if state == 1 {
        ok := ReadEquals(tok);
      } else if state == 2 {
        ok := ReadValue(tok);
      } else if state == 3 {
        ok := ReadListStart(tok);
      } else if state == 4 {
        ok := ReadSeparator(tok);
      } else if state == 6 {
        ok := ReadTitle(tok);
      } else {
        ok := ReadCall(tok);
      }
    }

    /** The loop: reads up to the end of the text, or to the brace that closes the section. */
    method ParseInternal(lexer: Lexer) returns (ok: bool)
      requires Valid()
      modifies this, lexer
      ensures var r := Parse(old(Held()), old(lexer.input), level);
              ok == r.Parsed? && (ok ==> opts == r.opts && lexer.input == r.rest)
      decreases |lexer.input|
    {
      hide Step;
      ghost var want := Parse(Held(), lexer.input, level);
      while lexer.input != []
        invariant Valid() && |lexer.input| <= |old(lexer.input)|
        invariant Parse(Held(), lexer.input, level) == want
        decreases |lexer.input|
      {
        var tok := lexer.input[0];
        lexer.input := lexer.input[1..];
        if state == 0 {
          var stop;
          ok, stop := ReadName(tok);
          if !ok || stop {
            return;
          }
        } else if state == 5 {
          var index;
          ok, index := ReadSectionStart(tok);
          if !ok {
            return;
          }
          var section := new Activation(opts[opt].values[index].opts, level + 1);
          var read := section.ParseInternal(lexer);
          if !read {
            return false;
          }
          opts := Leave(opts, opt, index, section.opts);
        } else {
          ok := ReadOther(tok);
          if !ok {
            return;
          }
        }
      }
      return state == 0;
    }
  }
}
