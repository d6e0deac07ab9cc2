/**
 The parser of the configuration file as a machine over tokens, with one constructor for each of its
 states 0 to 9.
 */
module ConfuseParsers {
  import opened Wrappers
  import opened ConfuseOptions

  datatype Token =
    | Word(text: string)
    | Equals
    | Plus
    | Open
    | Close
    | Comma
    | LParen
    | RParen
    | Comment
    /** What the lexer returns when it has reported an error. */
    | Bad

  datatype Control =
    | Idle(opts: seq<Opt>)
    | Named(opts: seq<Opt>, cur: nat)
    | Item(opts: seq<Opt>, cur: nat, num: nat)
    | ListStart(opts: seq<Opt>, cur: nat)
    | Separator(opts: seq<Opt>, cur: nat, num: nat)
    | SectionStart(opts: seq<Opt>, cur: nat, title: Option<string>)
    | Title(opts: seq<Opt>, cur: nat)
    | CallStart(opts: seq<Opt>, cur: nat)
    | Argument(opts: seq<Opt>, cur: nat, args: seq<string>)
    | Delimiter(opts: seq<Opt>, cur: nat, args: seq<string>)

  predicate Ready(c: Control) {
    !c.Idle? ==> c.cur < |c.opts|
  }

  datatype Move =
    | Goto(next: Control)
    | Stop(opts: seq<Opt>)
    | Error
    /** The text that follows belongs to the section at this index of the option's values. */
    | Enter(opts: seq<Opt>, cur: nat, index: nat)

  datatype Result = Parsed(opts: seq<Opt>, rest: seq<Token>) | Failed

  /** The first option of this name, or the number of options. */
  function Find(opts: seq<Opt>, name: string): (i: nat)
    ensures i <= |opts|
    ensures i < |opts| ==> opts[i].name == name
    ensures forall k :: 0 <= k < i ==> opts[k].name != name
  {
    if opts == [] || opts[0].name == name then 0 else 1 + Find(opts[1..], name)
  }

  predicate CanEnter(m: Move) {
    m.Enter? ==> m.cur < |m.opts| && m.index < |m.opts[m.cur].values| && m.opts[m.cur].values[m.index].Sec?
  }

  function Step(c: Control, t: Token, level: nat): (m: Move)
    requires Ready(c)
    ensures m.Goto? ==> Ready(m.next)
    ensures CanEnter(m)
  {
    match c
    case Idle(opts) => StepIdle(opts, t, level)
    case Named(opts, cur) => StepNamed(opts, cur, t)
    case Item(opts, cur, num) => StepItem(opts, cur, num, t)
    case ListStart(opts, cur) =>
      (match t
       case Open => Goto(Item(opts, cur, 0))
       case Word(s) =>
         var r := SetOpt(opts[cur], Some(s));
         if r.Refused? then Error else Goto(Idle(opts[cur := r.opt]))
       case _ => Error)
    case Separator(opts, cur, num) =>
      if t == Comma then Goto(Item(opts, cur, num)) else if t == Close then Goto(Idle(opts)) else Error
    case SectionStart(opts, cur, title) => StepSection(opts, cur, title, t)
    case Title(opts, cur) => if t.Word? then Goto(SectionStart(opts, cur, Some(t.text))) else Error
    case CallStart(opts, cur) => if t == LParen then Goto(Argument(opts, cur, [])) else Error
    case Argument(opts, cur, args) =>
      (match t
       case RParen => CallFunction(opts, cur, args)
       case Word(s) => Goto(Delimiter(opts, cur, args + [s]))
       case _ => Error)
    case Delimiter(opts, cur, args) =>
      if t == RParen then CallFunction(opts, cur, args)
      else if t == Comma then Goto(Argument(opts, cur, args)) else Error
  }

  function StepIdle(opts: seq<Opt>, t: Token, level: nat): (m: Move)
    ensures m.Goto? ==> Ready(m.next)
    ensures !m.Enter?
  {
    match t
    case Close => if level == 0 then Error else Stop(opts)
    case Comment => Goto(Idle(opts))
    case Word(name) =>
      var i := Find(opts, name);
      if i == |opts| then Error
      else (match opts[i].kind
            case Section => Goto(if opts[i].titled then Title(opts, i) else SectionStart(opts, i, None))
            case Function(_) => Goto(CallStart(opts, i))
            case _ => Goto(Named(opts, i)))
    case _ => Error
  }

  function StepNamed(opts: seq<Opt>, cur: nat, t: Token): (m: Move)
    requires cur < |opts|
    ensures m.Goto? ==> Ready(m.next)
    ensures !m.Enter?
  {
    if t == Plus && !opts[cur].list then Error
    else if t == Plus || t == Equals then
      var marked := opts[cur := opts[cur].(reset := t == Equals)];
      Goto(if opts[cur].list then ListStart(marked, cur) else Item(marked, cur, 0))
    else Error
  }

  function StepItem(opts: seq<Opt>, cur: nat, num: nat, t: Token): (m: Move)
    requires cur < |opts|
    ensures m.Goto? ==> Ready(m.next)
    ensures !m.Enter?
  {
    if t == Close && opts[cur].list then
      Goto(Idle(if num == 0 && opts[cur].reset then opts[cur := opts[cur].(values := [])] else opts))
    else if t.Word? then
      var r := SetOpt(opts[cur], Some(t.text));
      if r.Refused? then Error
      else Goto(if r.opt.list then Separator(opts[cur := r.opt], cur, num + 1) else Idle(opts[cur := r.opt]))
    else Error
  }

  function StepSection(opts: seq<Opt>, cur: nat, title: Option<string>, t: Token): (m: Move)
    requires cur < |opts|
    ensures !m.Goto? && CanEnter(m)
  {
    if t != Open then Error
    else
      var r := SetOpt(opts[cur], title);
      if r.Refused? || !r.opt.values[r.index].Sec? then Error
      else Enter(opts[cur := r.opt], cur, r.index)
  }

  function CallFunction(opts: seq<Opt>, cur: nat, args: seq<string>): (m: Move)
    requires cur < |opts|
    ensures !m.Enter? && (m.Goto? ==> Ready(m.next))
  {
    if opts[cur].kind.Function? && args !in opts[cur].kind.refused
    then Goto(Idle(opts[cur := opts[cur].(calls := opts[cur].calls + [args])]))
    else Error
  }

  /** The section's options take the place of those it was entered with. */
  function Leave(opts: seq<Opt>, cur: nat, index: nat, section: seq<Opt>): seq<Opt>
    requires CanEnter(Enter(opts, cur, index))
  {
    var values := opts[cur].values;
    opts[cur := opts[cur].(values := values[index := values[index].(opts := section)])]
  }

  /** The end of the text ends every section that is open, but nothing else. */
  function Parse(c: Control, toks: seq<Token>, level: nat): (r: Result)
    requires Ready(c)
    ensures r.Parsed? ==> |r.rest| <= |toks|
    decreases |toks|, 0
  {
    if toks == [] then if c.Idle? then Parsed(c.opts, []) else Failed
    else After(Step(c, toks[0], level), toks[1..], level)
  }

  function After(m: Move, rest: seq<Token>, level: nat): (r: Result)
    requires CanEnter(m) && (m.Goto? ==> Ready(m.next))
    ensures r.Parsed? ==> |r.rest| <= |rest|
    decreases |rest|, 1
  {
    match m
    case Goto(next) => Parse(next, rest, level)
    case Stop(opts) => Parsed(opts, rest)
    case Error => Failed
    case Enter(opts, cur, index) =>
      var section := Parse(Idle(opts[cur].values[index].opts), rest, level + 1);
      if section.Failed? then Failed
      else Parse(Idle(Leave(opts, cur, index, section.opts)), section.rest, level)
  }
}
