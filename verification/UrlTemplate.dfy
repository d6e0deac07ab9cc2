/** Url templates: text with `{key}` placeholders, compiled once and filled in for every request. */
module UrlTemplates {
  import opened Wrappers
  import opened Bytes
  import opened JsonNumber
  import opened JsonValue
  import JsonCompare

  datatype Part = Literal(data: Text) | Placeholder(data: Text)

  datatype Error = UnexpectedClose | UnexpectedOpen | EmptyPlaceholder | UnclosedPlaceholder

  datatype Compiled = Parts(parts: seq<Part>) | Refused(error: Error)

  predicate IsBrace(b: Byte) {
    b == LBRACE || b == RBRACE
  }

  predicate NoBrace(t: Text) {
    forall i :: 0 <= i < |t| ==> !IsBrace(t[i])
  }

  /** The bytes before the first brace. */
  function Plain(t: Text): (n: nat)
    ensures n <= |t| && NoBrace(t[..n])
    ensures n < |t| ==> IsBrace(t[n])
  {
    if t == [] || IsBrace(t[0]) then 0 else 1 + Plain(t[1..])
  }

  function Prepend(first: seq<Part>, rest: Compiled): Compiled {
    if rest.Refused? then rest else Parts(first + rest.parts)
  }

  /** What the scanner makes of a template, read part by part. */
  function Compile(url: Text): Compiled
    decreases |url|
  {
    if url == [] then Parts([])
    else if url[0] == RBRACE then Refused(UnexpectedClose)
    else if url[0] != LBRACE then Prepend([Literal(url[..Plain(url)])], Compile(url[Plain(url)..]))
    else
      var n := Plain(url[1..]);
      if n + 1 == |url| then Refused(UnclosedPlaceholder)
      else if url[n + 1] == LBRACE then Refused(UnexpectedOpen)
      else if n == 0 then Refused(EmptyPlaceholder)
      else Prepend([Placeholder(url[1..n + 1])], Compile(url[n + 2..]))
  }

  // ---------- what compiling means ----------

  function Spelling(p: Part): Text {
    match p
    case Literal(data) => data
    case Placeholder(key) => [LBRACE] + key + [RBRACE]
  }

  function Spell(parts: seq<Part>): Text {
    if parts == [] then [] else Spelling(parts[0]) + Spell(parts[1..])
  }

  /** Parts are not empty and hold no brace, and no two pieces of plain text meet. */
  predicate Canonical(parts: seq<Part>) {
    && (forall i :: 0 <= i < |parts| ==> parts[i].data != [] && NoBrace(parts[i].data))
    && (forall i :: 0 <= i < |parts| - 1 ==> parts[i].Placeholder? || parts[i + 1].Placeholder?)
  }

  lemma PlainIs(t: Text, n: nat)
    requires n <= |t| && NoBrace(t[..n]) && (n < |t| ==> IsBrace(t[n]))
    ensures Plain(t) == n
  {
    var m := Plain(t);
    assert forall k :: 0 <= k < n ==> t[k] == t[..n][k];
    assert forall k :: 0 <= k < m ==> t[k] == t[..m][k];
  }

  lemma CanonicalTail(parts: seq<Part>)
    requires Canonical(parts) && parts != []
    ensures parts[0].data != [] && NoBrace(parts[0].data)
    ensures Canonical(parts[1..])
    ensures parts[0].Literal? && Spell(parts[1..]) != [] ==> Spell(parts[1..])[0] == LBRACE
  {
    var rest := parts[1..];
    if rest != [] {
      assert rest[0] == parts[1];
    }
  }

  /** The parts that spell a template are the ones the scanner finds, whatever follows them. */
  lemma {:induction false} SpellingIsCompiled(parts: seq<Part>, tail: Text)
    requires Canonical(parts)
    requires tail != [] && (parts != [] && parts[|parts| - 1].Literal?) ==> IsBrace(tail[0])
    ensures Compile(Spell(parts) + tail) == Prepend(parts, Compile(tail))
    decreases |parts|
  {
    hide Compile, Canonical;
    if parts == [] {
      assert Spell(parts) + tail == tail;
      if Compile(tail).Parts? {
        assert [] + Compile(tail).parts == Compile(tail).parts;
      }
    } else {
      var p, rest := parts[0], parts[1..];
      var after := Spell(rest) + tail;
      assert Spell(parts) + tail == Spelling(p) + after;
      CanonicalTail(parts);
      assert rest != [] ==> rest[|rest| - 1] == parts[|parts| - 1];
      SpellingIsCompiled(rest, tail);
      PartIsCompiled(p, after);
      PrependTwice(p, rest, Compile(tail));
      assert [p] + rest == parts;
    }
  }

  lemma PrependTwice(p: Part, rest: seq<Part>, c: Compiled)
    ensures Prepend([p], Prepend(rest, c)) == Prepend([p] + rest, c)
  {
    if c.Parts? {
      assert [p] + (rest + c.parts) == [p] + rest + c.parts;
    }
  }

  lemma PartIsCompiled(p: Part, after: Text)
    requires p.data != [] && NoBrace(p.data)
    requires p.Literal? && after != [] ==> IsBrace(after[0])
    ensures Compile(Spelling(p) + after) == Prepend([p], Compile(after))
  {
    match p
    case Literal(data) => LiteralIsCompiled(data, after);
    case Placeholder(key) => PlaceholderIsCompiled(key, after);
  }

  lemma LiteralIsCompiled(data: Text, after: Text)
    requires data != [] && NoBrace(data) && (after != [] ==> IsBrace(after[0]))
    ensures Compile(data + after) == Prepend([Literal(data)], Compile(after))
  {
    var url := data + after;
    assert url[..|data|] == data && url[|data|..] == after;
    PlainIs(url, |data|);
    assert url[0] == data[0];
  }

  lemma PlaceholderIsCompiled(key: Text, after: Text)
    requires key != [] && NoBrace(key)
    ensures Compile([LBRACE] + key + [RBRACE] + after) == Prepend([Placeholder(key)], Compile(after))
  {
    var url := [LBRACE] + key + [RBRACE] + after;
    assert url[1..] == key + ([RBRACE] + after);
    assert url[1..][..|key|] == key;
    PlainIs(url[1..], |key|);
    assert url[1..|key| + 1] == key && url[|key| + 2..] == after;
  }

  /** The parts found spell the template. */
  lemma {:induction false} CompiledSpells(url: Text)
    requires Compile(url).Parts?
    ensures Canonical(Compile(url).parts) && Spell(Compile(url).parts) == url
    ensures url != [] && IsBrace(url[0]) ==> Compile(url).parts[0].Placeholder?
    decreases |url|
  {
    if url != [] {
      var p, after := FirstPart(url);
      hide Compile;
      CompiledSpells(after);
      var parts := Compile(url).parts;
      assert parts == [p] + Compile(after).parts && parts[1..] == Compile(after).parts;
      CanonicalCons(parts);
    }
  }

  lemma CanonicalCons(parts: seq<Part>)
    requires parts != [] && parts[0].data != [] && NoBrace(parts[0].data)
    requires Canonical(parts[1..])
    requires |parts| > 1 ==> parts[0].Placeholder? || parts[1].Placeholder?
    ensures Canonical(parts)
  {
    forall i | 0 <= i < |parts|
      ensures parts[i].data != [] && NoBrace(parts[i].data)
      ensures i < |parts| - 1 ==> parts[i].Placeholder? || parts[i + 1].Placeholder?
    {
      if i > 0 {
        assert parts[i] == parts[1..][i - 1];
        if i < |parts| - 1 {
          assert parts[i + 1] == parts[1..][i];
        }
      }
    }
  }

  /** How a template is wrong: it spells some parts, and then goes on like this. */
  predicate GoesWrong(tail: Text, e: Error) {
    && tail != []
    && if e.UnexpectedClose? then tail[0] == RBRACE
       else tail[0] == LBRACE && OpensWrong(tail[1..], e)
  }

  /** What follows the opening brace is not a placeholder. */
  predicate OpensWrong(t: Text, e: Error) {
    var n := Plain(t);
    match e
    case UnclosedPlaceholder => n == |t|
    case UnexpectedOpen => n < |t| && t[n] == LBRACE
    case EmptyPlaceholder => n == 0 && t != [] && t[0] == RBRACE
    case UnexpectedClose => false
  }

  ghost predicate WrongAfter(url: Text, parts: seq<Part>, tail: Text, e: Error) {
    Canonical(parts) && url == Spell(parts) + tail && GoesWrong(tail, e)
  }

  lemma {:induction false} RefusedGoesWrong(url: Text) returns (parts: seq<Part>, tail: Text)
    requires Compile(url).Refused?
    ensures WrongAfter(url, parts, tail, Compile(url).error)
    ensures url != [] && IsBrace(url[0]) && parts != [] ==> parts[0].Placeholder?
    decreases |url|
  {
    if GoesWrong(url, Compile(url).error) {
      parts, tail := [], url;
      assert Spell(parts) + tail == url;
    } else {
      var p, after := FirstPart(url);
      hide Compile, GoesWrong, WrongAfter;
      var more;
      more, tail := RefusedGoesWrong(after);
      WrongAfterCons(p, after, more, tail, Compile(after).error);
      parts := [p] + more;
    }
  }

  lemma WrongAfterCons(p: Part, after: Text, more: seq<Part>, tail: Text, e: Error)
    requires WrongAfter(after, more, tail, e) && p.data != [] && NoBrace(p.data)
    requires p.Literal? && more != [] ==> more[0].Placeholder?
    ensures WrongAfter(Spelling(p) + after, [p] + more, tail, e)
  {
    hide GoesWrong;
    var parts := [p] + more;
    assert parts[1..] == more;
    CanonicalCons(parts);
    assert Spelling(p) + Spell(more) + tail == Spelling(p) + (Spell(more) + tail);
  }

  /** A template that does not go wrong at once starts with a part. */
  lemma FirstPart(url: Text) returns (p: Part, after: Text)
    requires url != [] && (Compile(url).Refused? ==> !GoesWrong(url, Compile(url).error))
    ensures p.data != [] && NoBrace(p.data) && url == Spelling(p) + after && |after| < |url|
    ensures Compile(url) == Prepend([p], Compile(after))
    ensures p.Literal? && after != [] ==> IsBrace(after[0])
    ensures IsBrace(url[0]) ==> p.Placeholder?
  {
    if url[0] == LBRACE {
      var t := url[1..];
      var n := Plain(t);
      assert n < |t| && t[n] == RBRACE && n > 0;
      p, after := Placeholder(url[1..n + 1]), url[n + 2..];
      assert t[..n] == url[1..n + 1];
      assert url == [LBRACE] + url[1..n + 1] + [RBRACE] + url[n + 2..];
    } else {
      var n := Plain(url);
      p, after := Literal(url[..n]), url[n..];
      assert url == url[..n] + url[n..];
    }
  }

  lemma WrongIsRefused(tail: Text, e: Error)
    requires GoesWrong(tail, e)
    ensures Compile(tail) == Refused(e)
  {
  }

  /**
   A template compiles to these parts exactly when they are canonical and spell it, so there is at
   most one way to read a template; it is refused for a reason exactly when, behind parts that are in
   order, it goes wrong in this way.
   */
  lemma TemplateIsCompiled(url: Text, parts: seq<Part>, e: Error)
    ensures Compile(url) == Parts(parts) <==> Canonical(parts) && Spell(parts) == url
    ensures Compile(url) == Refused(e) <==> exists before, tail :: WrongAfter(url, before, tail, e)
  {
    hide Compile, Canonical, GoesWrong;
    if Compile(url) == Parts(parts) {
      CompiledSpells(url);
    }
    if Canonical(parts) && Spell(parts) == url {
      SpellingIsCompiled(parts, []);
      NothingCompiles();
      assert Spell(parts) + [] == url && parts + [] == parts;
    }
    if Compile(url) == Refused(e) {
      var before, tail := RefusedGoesWrong(url);
    }
    if before, tail :| WrongAfter(url, before, tail, e) {
      WrongStartsWithBrace(tail, e);
      WrongIsRefused(tail, e);
      SpellingIsCompiled(before, tail);
    }
  }

  lemma NothingCompiles()
    ensures Compile([]) == Parts([])
  {
  }

  lemma WrongStartsWithBrace(tail: Text, e: Error)
    requires GoesWrong(tail, e)
    ensures tail != [] && IsBrace(tail[0])
  {
  }

  // ---------- filling in ----------

  datatype Filled = Url(text: Text) | MissingKey(key: Text) | UnsupportedItem(key: Text)

  /** How a value is written into the url. */
  function Written(v: Json): Option<Text> {
    match v
    case String(t) => Some(CString(t))
    case Number(r) => Some(Decimal(ValueInt(r)))
    case True => Some([49])
    case False => Some([48])
    case _ => None
  }

  /** The value of a placeholder, its key matched without regard to case. */
  function Value(p: Part, members: seq<Member>): Filled {
    match p
    case Literal(data) => Url(data)
    case Placeholder(key) =>
      var item := JsonCompare.Lookup(members, CString(key), false);
      if item.None? then MissingKey(key)
      else if Written(item.value).None? then UnsupportedItem(key)
      else Url(Written(item.value).value)
  }

  /** The parts' texts one after the other, or what is wrong with the first part that has none. */
  function Fill(parts: seq<Part>, members: seq<Member>): Filled {
    if parts == [] then Url([])
    else
      var first := Value(parts[0], members);
      if !first.Url? then first
      else
        var rest := Fill(parts[1..], members);
        if !rest.Url? then rest else Url(first.text + rest.text)
  }

  // What filling in means: every part gives way to a text, and the texts stand side by side.

  /** Member `i` is the first one that the key names. */
  predicate Names(key: Text, members: seq<Member>, i: nat) {
    i < |members| && JsonCompare.SameButCase(CString(key), members[i].key)
    && forall j :: 0 <= j < i ==> !JsonCompare.SameButCase(CString(key), members[j].key)
  }

  predicate Unknown(key: Text, members: seq<Member>) {
    forall i :: 0 <= i < |members| ==> !JsonCompare.SameButCase(CString(key), members[i].key)
  }

  /** What C code takes of a string. */
  predicate UpToNul(text: Text, t: Text) {
    t <= text && NUL !in t && (|t| < |text| ==> text[|t|] == NUL)
  }

  /** Only strings, numbers without their fraction and booleans can be written, these two as `1` and `0`. */
  ghost predicate WrittenAs(v: Json, t: Text) {
    || (v.String? && UpToNul(v.text, t))
    || (v.Number? && exists n :: Truncates(v.value, n) && SpellsInt(t, n))
    || (v == True && t == [49])
    || (v == False && t == [48])
  }

  /** The text that takes the part's place in the url of a request with these members. */
  ghost predicate Stands(p: Part, members: seq<Member>, t: Text) {
    match p
    case Literal(data) => t == data
    case Placeholder(key) => exists i: nat :: Names(key, members, i) && WrittenAs(members[i].value, t)
  }

  ghost predicate Substitution(parts: seq<Part>, members: seq<Member>, texts: seq<Text>) {
    |texts| == |parts| && forall i :: 0 <= i < |parts| ==> Stands(parts[i], members, texts[i])
  }

  function Joined(texts: seq<Text>): Text {
    if texts == [] then [] else texts[0] + Joined(texts[1..])
  }

  lemma {:induction false} CStringIsUpToNul(text: Text, t: Text)
    ensures t == CString(text) <==> UpToNul(text, t)
    decreases |text|
  {
    if text != [] && text[0] != NUL {
      CStringIsUpToNul(text[1..], if t == [] then [] else t[1..]);
      assert text == [text[0]] + text[1..];
      assert t != [] ==> t == [t[0]] + t[1..];
    }
  }

  lemma NumberIsWritten(r: real, t: Text)
    ensures t == Decimal(ValueInt(r)) <==> exists n :: Truncates(r, n) && SpellsInt(t, n)
  {
    hide Decimal, ValueInt, Truncates, SpellsInt;
    ValueIntTruncates(r, ValueInt(r));
    DecimalSpells(t, ValueInt(r));
    forall n | Truncates(r, n) && SpellsInt(t, n) ensures t == Decimal(ValueInt(r)) {
      ValueIntTruncates(r, n);
    }
  }

  lemma ValueIsWritten(v: Json, t: Text)
    ensures Written(v) == Some(t) <==> WrittenAs(v, t)
  {
    hide UpToNul, Decimal, ValueInt, Truncates, SpellsInt, CString;
    match v
    case String(text) => CStringIsUpToNul(text, t);
    case Number(r) => NumberIsWritten(r, t);
    case _ =>
  }

  lemma {:induction false} LookupIsFirst(members: seq<Member>, key: Text) returns (i: nat)
    ensures var r := JsonCompare.Lookup(members, CString(key), false);
            if r.None? then Unknown(key, members)
            else Names(key, members, i) && members[i].value == r.value
  {
    i := 0;
    if members != [] {
      JsonCompare.FoldIgnoresCase(CString(key), members[0].key);
    }
    if members != [] && !JsonCompare.SameButCase(CString(key), members[0].key) {
      var k := LookupIsFirst(members[1..], key);
      assert forall j :: 0 < j < |members| ==> members[j] == members[1..][j - 1];
      i := k + 1;
    }
  }

  lemma OneFirst(key: Text, members: seq<Member>, i: nat)
    ensures Names(key, members, i) ==> forall j: nat :: Names(key, members, j) ==> j == i
    ensures Unknown(key, members) ==> forall j: nat :: !Names(key, members, j)
  {
  }

  lemma ValueStands(p: Part, members: seq<Member>, t: Text)
    ensures Value(p, members) == Url(t) <==> Stands(p, members, t)
  {
    hide Written, WrittenAs;
    if p.Placeholder? {
      var i := LookupIsFirst(members, p.data);
      OneFirst(p.data, members, i);
      if i < |members| {
        ValueIsWritten(members[i].value, t);
      }
    }
  }

  /** The url of a request is what putting a text in the place of every part gives, and no other. */
  lemma UrlIsSubstituted(parts: seq<Part>, members: seq<Member>, text: Text)
    ensures Fill(parts, members) == Url(text)
            <==> exists texts :: Substitution(parts, members, texts) && text == Joined(texts)
  {
    hide Value, Stands;
    if Fill(parts, members) == Url(text) {
      var texts := FilledTexts(parts, members);
      assert Substitution(parts, members, texts);
    }
    forall texts | Substitution(parts, members, texts) ensures Fill(parts, members) == Url(Joined(texts)) {
      SubstitutedIsFilled(parts, members, texts);
    }
  }

  lemma {:induction false} FilledTexts(parts: seq<Part>, members: seq<Member>) returns (texts: seq<Text>)
    requires Fill(parts, members).Url?
    ensures Substitution(parts, members, texts) && Fill(parts, members) == Url(Joined(texts))
  {
    hide Value, Stands;
    texts := [];
    if parts != [] {
      var first := Value(parts[0], members).text;
      ValueStands(parts[0], members, first);
      var rest := FilledTexts(parts[1..], members);
      texts := [first] + rest;
      assert texts[1..] == rest;
      forall i | 0 <= i < |parts| ensures Stands(parts[i], members, texts[i]) {
        assert i > 0 ==> parts[i] == parts[1..][i - 1] && texts[i] == rest[i - 1];
      }
    }
  }

  lemma {:induction false} SubstitutedIsFilled(parts: seq<Part>, members: seq<Member>, texts: seq<Text>)
    requires Substitution(parts, members, texts)
    ensures Fill(parts, members) == Url(Joined(texts))
    decreases |parts|
  {
    hide Value, Stands;
    if parts != [] {
      ValueStands(parts[0], members, texts[0]);
      forall i | 0 <= i < |parts| - 1 ensures Stands(parts[1..][i], members, texts[1..][i]) {
        assert parts[1..][i] == parts[i + 1] && texts[1..][i] == texts[i + 1];
      }
      SubstitutedIsFilled(parts[1..], members, texts[1..]);
    }
  }

  ghost predicate HasText(p: Part, members: seq<Member>) {
    exists t :: Stands(p, members, t)
  }

  /** The parts before `n` have texts, and part `n` is this placeholder. */
  ghost predicate StuckAt(parts: seq<Part>, members: seq<Member>, n: nat, key: Text) {
    n < |parts| && parts[n] == Placeholder(key) && forall i :: 0 <= i < n ==> HasText(parts[i], members)
  }

  /** The key names a member that cannot be written: null, an array or an object. */
  ghost predicate NamesUnwritable(key: Text, members: seq<Member>) {
    exists i: nat :: Names(key, members, i)
                && (members[i].value.Null? || members[i].value.Array? || members[i].value.Object?)
  }

  lemma ValueFails(p: Part, members: seq<Member>, key: Text)
    ensures Value(p, members).Url? <==> HasText(p, members)
    ensures Value(p, members) == MissingKey(key) <==> p == Placeholder(key) && Unknown(key, members)
    ensures Value(p, members) == UnsupportedItem(key) <==> p == Placeholder(key) && NamesUnwritable(key, members)
  {
    if Value(p, members).Url? {
      ValueStands(p, members, Value(p, members).text);
    }
    forall t | Stands(p, members, t) ensures Value(p, members).Url? {
      ValueStands(p, members, t);
    }
    if p.Placeholder? {
      var i := LookupIsFirst(members, p.data);
      OneFirst(p.data, members, i);
    }
  }

  /** It fails exactly on the first key that no member answers to, or whose member cannot be written. */
  lemma {:induction false} FirstBadKeyFails(parts: seq<Part>, members: seq<Member>, key: Text)
    ensures Fill(parts, members) == MissingKey(key)
            <==> (exists n :: StuckAt(parts, members, n, key)) && Unknown(key, members)
    ensures Fill(parts, members) == UnsupportedItem(key)
            <==> (exists n :: StuckAt(parts, members, n, key)) && NamesUnwritable(key, members)
  {
    hide Value, HasText, Unknown, NamesUnwritable;
    if parts != [] {
      ValueFails(parts[0], members, key);
      FirstBadKeyFails(parts[1..], members, key);
      StuckLater(parts, members, key);
    }
  }

  lemma StuckLater(parts: seq<Part>, members: seq<Member>, key: Text)
    requires parts != []
    ensures StuckAt(parts, members, 0, key) <==> parts[0] == Placeholder(key)
    ensures !HasText(parts[0], members) ==> forall n: nat :: StuckAt(parts, members, n, key) ==> n == 0
    ensures forall n: nat :: StuckAt(parts[1..], members, n, key) && HasText(parts[0], members) ==>
                               StuckAt(parts, members, n + 1, key)
    ensures forall n: nat :: n > 0 && StuckAt(parts, members, n, key) ==> StuckAt(parts[1..], members, n - 1, key)
  {
    hide HasText;
    assert forall i :: 0 < i < |parts| ==> parts[i] == parts[1..][i - 1];
  }

  lemma {:induction false} FillJoins(a: seq<Part>, b: seq<Part>, members: seq<Member>)
    requires Fill(a, members).Url?
    ensures Fill(a + b, members)
            == if Fill(b, members).Url? then Url(Fill(a, members).text + Fill(b, members).text) else Fill(b, members)
  {
    if a == [] {
      assert a + b == b;
    } else {
      assert (a + b)[0] == a[0] && (a + b)[1..] == a[1..] + b;
      FillJoins(a[1..], b, members);
    }
  }

  /**
   Filling in is replacing: when every key's value spells the placeholder itself, the url is the
   template, so each `{key}` of the template and nothing else gives way to its value.
   */
  lemma {:induction false} FillingWithPlaceholders(parts: seq<Part>, members: seq<Member>)
    requires forall i :: 0 <= i < |parts| ==> Value(parts[i], members) == Url(Spelling(parts[i]))
    ensures Fill(parts, members) == Url(Spell(parts))
  {
    if parts != [] {
      assert forall i :: 0 <= i < |parts| - 1 ==> parts[1..][i] == parts[i + 1];
      FillingWithPlaceholders(parts[1..], members);
    }
  }

  /** A template without placeholders is every request's url. */
  lemma PlainTemplateIsItsUrl(url: Text, members: seq<Member>)
    requires NoBrace(url)
    ensures Compile(url).Parts? && Fill(Compile(url).parts, members) == Url(url)
  {
    if url != [] {
      var parts := [Literal(url)];
      assert Spell(parts) == url by {
        assert parts[1..] == [];
      }
      TemplateIsCompiled(url, parts, UnexpectedOpen);
      FillingWithPlaceholders(parts, members);
    }
  }

  // ---------- the code ----------

  class TemplateProcessor {
    var uriParts: seq<Part>

    constructor ()
      ensures uriParts == []
    {
      uriParts := [];
    }

    /** The two-state scanner. */
    method ParseUrlTemplate(url: Text) returns (error: Option<Error>)
      modifies this
      ensures match error
              case None => Compile(url).Parts? && uriParts == old(uriParts) + Compile(url).parts
              case Some(e) => Compile(url) == Refused(e)
    {
      hide Compile, Reached;
      var placeholder := false;
      var pos: nat := 0;
      ghost var found: seq<Part> := [];
      ScanStarts(url);
      var i := 0;
      while i < |url|
        invariant 0 <= i <= |url| && pos <= i
        invariant uriParts == old(uriParts) + found
        invariant Reached(url, i, pos, placeholder, found)
      {
        var c := url[i];
        if !placeholder {
          if c == LBRACE {
            OpenStep(url, i, pos, found);
            if i > pos {
              uriParts := uriParts + [Literal(url[pos..i])];
              found := found + [Literal(url[pos..i])];
            }
            pos := i + 1;
            placeholder := true;
          } else if c == RBRACE {
            CloseStep(url, i, pos, found);
            return Some(UnexpectedClose);
          } else {
            OrdinaryStep(url, i, pos, placeholder, found);
          }
        } else {
          BraceStep(url, i, pos, found);
          if c == RBRACE {
            if 1 > i - pos {
              return Some(EmptyPlaceholder);
            }
            uriParts := uriParts + [Placeholder(url[pos..i])];
            found := found + [Placeholder(url[pos..i])];
            pos := i + 1;
            placeholder := false;
          } else if c == LBRACE {
            return Some(UnexpectedOpen);
          } else {
            OrdinaryStep(url, i, pos, placeholder, found);
          }
        }
        i := i + 1;
      }
      EndStep(url, pos, placeholder, found);
      if placeholder {
        return Some(UnclosedPlaceholder);
      }
      if i > pos {
        uriParts := uriParts + [Literal(url[pos..i])];
      }
      return None;
    }

    method GetUrl(members: seq<Member>) returns (r: Filled)
      ensures r == Fill(uriParts, members)
    {
      hide CString, Decimal, ValueInt, JsonCompare.Lookup;
      var ret: Text := [];
      for i := 0 to |uriParts|
        invariant Fill(uriParts[..i], members) == Url(ret)
      {
        var p := uriParts[i];
        assert uriParts[..i + 1] == uriParts[..i] + [p];
        assert [p][1..] == [];
        assert uriParts == uriParts[..i] + uriParts[i..];
        FillJoins(uriParts[..i], [p], members);
        FillJoins(uriParts[..i], uriParts[i..], members);
        match p
        case Literal(data) =>
          ret := ret + data;
        case Placeholder(key) =>
          var item := JsonCompare.GetObjectItem(members, CString(key), false);
          if item.None? {
            return MissingKey(key);
          }
          match item.value {
            case String(t) => ret := ret + CString(t);
            case Number(n) => ret := ret + Decimal(ValueInt(n));
            case True => ret := ret + [49];
            case False => ret := ret + [48];
            case _ => return UnsupportedItem(key);
          }
      }
      assert uriParts[..|uriParts|] == uriParts;
      return Url(ret);
    }
  }

  // ---------- steps of the scanner ----------

  /** The scanner stands before byte `i`: these parts are found, and a part starts at `pos`. */
  ghost predicate Reached(url: Text, i: nat, pos: nat, placeholder: bool, found: seq<Part>) {
    && pos <= i <= |url|
    && NoBrace(url[pos..i])
    && (placeholder ==> pos > 0 && url[pos - 1] == LBRACE)
    && Compile(url) == Prepend(found, Compile(if placeholder then url[pos - 1..] else url[pos..]))
  }

  lemma ScanStarts(url: Text)
    ensures Reached(url, 0, 0, false, [])
  {
    assert url[0..] == url;
    hide Compile;
    if Compile(url).Parts? {
      assert [] + Compile(url).parts == Compile(url).parts;
    }
  }

  lemma OrdinaryStep(url: Text, i: nat, pos: nat, placeholder: bool, found: seq<Part>)
    requires i < |url| && Reached(url, i, pos, placeholder, found) && !IsBrace(url[i])
    ensures Reached(url, i + 1, pos, placeholder, found)
  {
    hide Compile;
    assert url[pos..i + 1] == url[pos..i] + [url[i]];
  }

  lemma PrependLast(found: seq<Part>, p: Part, c: Compiled)
    ensures Prepend(found, Prepend([p], c)) == Prepend(found + [p], c)
  {
    if c.Parts? {
      assert found + ([p] + c.parts) == found + [p] + c.parts;
    }
  }

  /** Plain text before a brace is a part. */
  lemma LiteralStep(url: Text, i: nat, pos: nat, found: seq<Part>)
    requires pos < i < |url| && Reached(url, i, pos, false, found) && IsBrace(url[i])
    ensures Compile(url) == Prepend(found + [Literal(url[pos..i])], Compile(url[i..]))
  {
    hide Compile, Plain;
    assert url[pos..] == url[pos..i] + url[i..];
    LiteralIsCompiled(url[pos..i], url[i..]);
    PrependLast(found, Literal(url[pos..i]), Compile(url[i..]));
  }

  lemma OpenStep(url: Text, i: nat, pos: nat, found: seq<Part>)
    requires i < |url| && Reached(url, i, pos, false, found) && url[i] == LBRACE
    ensures Reached(url, i + 1, i + 1, true, if i > pos then found + [Literal(url[pos..i])] else found)
  {
    hide Compile;
    if i > pos {
      LiteralStep(url, i, pos, found);
    }
  }

  lemma CloseStep(url: Text, i: nat, pos: nat, found: seq<Part>)
    requires i < |url| && Reached(url, i, pos, false, found) && url[i] == RBRACE
    ensures Compile(url) == Refused(UnexpectedClose)
  {
    if i > pos {
      LiteralStep(url, i, pos, found);
    }
    assert Compile(url[i..]) == Refused(UnexpectedClose);
  }

  /** Inside a placeholder: the first brace after the opening one decides. */
  lemma BraceStep(url: Text, i: nat, pos: nat, found: seq<Part>)
    requires i < |url| && Reached(url, i, pos, true, found)
    ensures url[i] == LBRACE ==> Compile(url) == Refused(UnexpectedOpen)
    ensures url[i] == RBRACE && i == pos ==> Compile(url) == Refused(EmptyPlaceholder)
    ensures url[i] == RBRACE && i > pos ==> Reached(url, i + 1, i + 1, false, found + [Placeholder(url[pos..i])])
  {
    if IsBrace(url[i]) {
      var tail := url[pos - 1..];
      assert tail[1..][..i - pos] == url[pos..i];
      PlainIs(tail[1..], i - pos);
      if url[i] == RBRACE && i > pos {
        assert tail == [LBRACE] + url[pos..i] + [RBRACE] + url[i + 1..];
        PlaceholderIsCompiled(url[pos..i], url[i + 1..]);
        hide Compile;
        PrependLast(found, Placeholder(url[pos..i]), Compile(url[i + 1..]));
      }
    }
  }

  lemma EndStep(url: Text, pos: nat, placeholder: bool, found: seq<Part>)
    requires Reached(url, |url|, pos, placeholder, found)
    ensures Compile(url) == if placeholder then Refused(UnclosedPlaceholder)
                            else Parts(if pos < |url| then found + [Literal(url[pos..|url|])] else found)
  {
    assert url[pos..] == url[pos..|url|];
    if placeholder {
      var tail := url[pos - 1..];
      assert tail[1..] == url[pos..] && url[pos..][..|url| - pos] == url[pos..];
      PlainIs(tail[1..], |url| - pos);
    } else if pos < |url| {
      assert url[pos..] + [] == url[pos..];
      LiteralIsCompiled(url[pos..], []);
      assert [Literal(url[pos..])] + [] == [Literal(url[pos..])];
    }
  }
}
