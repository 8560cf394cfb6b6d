/**
 The shell's language as a relation: how a line is written, as text, tokens and a syntax tree, and
 what the tree means. The grammar functions accept exactly the lines that are written so, with
 exactly that meaning, redirections anywhere among the words and `>>` included.
 */
module Syntax {

  import opened Grammar

  // ---- How tokens are written ----

  function Text(t: Tok): string {
    match t
    case Sym(c) => [c]
    case Append => ">>"
    case Word(w) => w
  }

  predicate Proper(t: Tok) {
    match t
    case Sym(c) => Symbol(c)
    case Append => true
    case Word(w) => w != [] && forall i :: 0 <= i < |w| ==> Plain(w[i])
  }

  predicate Blank(s: string) {
    forall i :: 0 <= i < |s| ==> White(s[i])
  }

  /** Two tokens that would be read differently if nothing stood between them. */
  predicate Clings(a: Tok, b: Tok) {
    (a.Word? && b.Word?) || (a == Sym('>') && (b == Sym('>') || b == Append))
  }

  /** t is white space, the first token of ts, and the rest; white space follows where the next token would cling. */
  ghost predicate Split(t: string, ts: seq<Tok>, gap: string, rest: string)
    requires ts != []
  {
    && Blank(gap) && Proper(ts[0]) && t == gap + Text(ts[0]) + rest
    && (|ts| > 1 && Clings(ts[0], ts[1]) ==> rest != [] && White(rest[0]))
  }

  /** t is the tokens ts, with white space before, between and after them, where it is needed at least. */
  ghost predicate Spaced(t: string, ts: seq<Tok>)
    decreases |ts|
  {
    if ts == [] then Blank(t) else exists gap, rest :: Split(t, ts, gap, rest) && Spaced(rest, ts[1..])
  }

  // ---- How commands are written ----

  /** A word or a redirection of a simple command. */
  datatype Part = Arg(w: string) | From(file: string) | Into(file: string) | Onto(file: string)

  datatype Tree =
    | Simple(parts: seq<Part>)
    | Group(body: Tree, parts: seq<Part>)
    | Piped(left: Tree, right: Tree)
    | Amp(body: Tree)
    | Then(left: Tree, right: Tree)

  function PartToks(part: Part): seq<Tok> {
    match part
    case Arg(w) => [Word(w)]
    case From(file) => [Sym('<'), Word(file)]
    case Into(file) => [Sym('>'), Word(file)]
    case Onto(file) => [Append, Word(file)]
  }

  function Spell(parts: seq<Part>): seq<Tok> {
    if parts == [] then [] else PartToks(parts[0]) + Spell(parts[1..])
  }

  function Toks(t: Tree): seq<Tok> {
    match t
    case Simple(parts) => Spell(parts)
    case Group(body, parts) => [Sym('(')] + Toks(body) + [Sym(')')] + Spell(parts)
    case Piped(l, r) => Toks(l) + [Sym('|')] + Toks(r)
    case Amp(body) => Toks(body) + [Sym('&')]
    case Then(l, r) => Toks(l) + [Sym(';')] + Toks(r)
  }

  function ArgsOf(parts: seq<Part>): seq<string> {
    if parts == [] then []
    else (if parts[0].Arg? then [parts[0].w] else []) + ArgsOf(parts[1..])
  }

  /** The words of a simple command are fewer than MAXARGS; a group takes redirections only. */
  predicate IsSimple(t: Tree)
    decreases t, 0
  {
    || (t.Simple? && |ArgsOf(t.parts)| < MAXARGS)
    || (t.Group? && IsLine(t.body) && ArgsOf(t.parts) == [])
  }

  predicate IsPipeline(t: Tree)
    decreases t, 1
  {
    IsSimple(t) || (t.Piped? && IsSimple(t.left) && IsPipeline(t.right))
  }

  predicate IsHead(t: Tree)
    decreases t, 2
  {
    IsPipeline(t) || (t.Amp? && IsHead(t.body))
  }

  predicate IsLine(t: Tree)
    decreases t, 3
  {
    IsHead(t) || (t.Then? && IsHead(t.left) && IsLine(t.right))
  }

  // ---- What they mean ----

  /** The redirections among the parts, the first innermost; both arrows out open for writing and create. */
  function Nest(c: Cmd<string>, parts: seq<Part>): Cmd<string> {
    if parts == [] then c
    else
      var inner := Nest(c, parts[..|parts| - 1]);
      match parts[|parts| - 1]
      case Arg(_) => inner
      case From(file) => Redir(inner, file, O_RDONLY, 0)
      case Into(file) => Redir(inner, file, O_WRONLY + O_CREATE, 1)
      case Onto(file) => Redir(inner, file, O_WRONLY + O_CREATE, 1)
  }

  function Meaning(t: Tree): Cmd<string> {
    match t
    case Simple(parts) => Nest(Exec(ArgsOf(parts)), parts)
    case Group(body, parts) => Nest(Meaning(body), parts)
    case Piped(l, r) => Pipe(Meaning(l), Meaning(r))
    case Amp(body) => Back(Meaning(body))
    case Then(l, r) => List(Meaning(l), Meaning(r))
  }

  /** The line `text` is written as tree t. */
  ghost predicate Written(text: string, t: Tree) {
    IsLine(t) && Spaced(text, Toks(t))
  }

  /** The line `text` means command c. */
  ghost predicate Means(text: string, c: Cmd<string>) {
    exists t :: Written(text, t) && Meaning(t) == c
  }

  // ---- Sequences ----

  lemma Assoc<T>(a: seq<T>, b: seq<T>, c: seq<T>)
    ensures a + b + c == a + (b + c)
  {
  }

  lemma Nothing<T>(a: seq<T>)
    ensures [] + a == a && a + [] == a
  {
  }

  lemma Cons<T>(s: seq<T>)
    requires s != []
    ensures s == [s[0]] + s[1..]
  {
  }

  lemma Snoc<T>(s: seq<T>)
    requires s != []
    ensures s == s[..|s| - 1] + [s[|s| - 1]]
  {
  }

  /** A sequence from its first element. */
  lemma Front<T>(x: T, a: seq<T>)
    ensures ([x] + a)[0] == x && ([x] + a)[1..] == a
  {
  }

  // ---- The lexer reads exactly what is written ----

  lemma {:induction false} LexBlank(gap: string, rest: string)
    requires Blank(gap)
    ensures Lex(gap + rest) == Lex(rest)
  {
    if gap == [] {
      assert gap + rest == rest;
    } else {
      LexBlank(gap[1..], rest);
      assert (gap + rest)[1..] == gap[1..] + rest;
    }
  }

  lemma {:induction false} WordThen(w: string, rest: string)
    requires (forall i :: 0 <= i < |w| ==> Plain(w[i])) && (rest != [] ==> !Plain(rest[0]))
    ensures WordLen(w + rest) == |w|
  {
    if w == [] {
      assert w + rest == rest;
    } else {
      assert (w + rest)[1..] == w[1..] + rest;
      WordThen(w[1..], rest);
    }
  }

  /** The first token is read off if what follows does not cling to it. */
  lemma LexFirst(tok: Tok, rest: string)
    requires Proper(tok)
    requires tok.Word? ==> rest == [] || !Plain(rest[0])
    requires tok == Sym('>') ==> rest == [] || rest[0] != '>'
    ensures Lex(Text(tok) + rest) == [tok] + Lex(rest)
  {
    var t := Text(tok) + rest;
    match tok {
      case Sym(c) =>
        assert t[0] == c && t[1..] == rest;
      case Append =>
        assert t[0] == '>' && t[1] == '>' && t[2..] == rest;
      case Word(w) =>
        assert t[0] == w[0];
        WordThen(w, rest);
        assert t[..|w|] == w && t[|w|..] == rest;
    }
  }

  lemma FirstChar(a: string, b: string)
    ensures if a == [] then a + b == b else (a + b)[0] == a[0]
  {
  }

  /** What a spaced text begins with. */
  lemma SpacedStart(t: string, ts: seq<Tok>)
    requires Spaced(t, ts) && t != [] && !White(t[0])
    ensures ts != [] && Proper(ts[0]) && t[0] == Text(ts[0])[0]
  {
    if ts != [] {
      var gap, rest :| Split(t, ts, gap, rest) && Spaced(rest, ts[1..]);
      assert t == gap + (Text(ts[0]) + rest);
      FirstChar(gap, Text(ts[0]) + rest);
      FirstChar(Text(ts[0]), rest);
    }
  }

  /** A rest that does not begin with white space does not cling to the token before it. */
  lemma RestApart(ts: seq<Tok>, rest: string)
    requires ts != [] && Proper(ts[0]) && Spaced(rest, ts[1..])
    requires |ts| > 1 && Clings(ts[0], ts[1]) ==> rest != [] && White(rest[0])
    ensures ts[0].Word? ==> rest == [] || !Plain(rest[0])
    ensures ts[0] == Sym('>') ==> rest == [] || rest[0] != '>'
  {
    if rest != [] && !White(rest[0]) {
      SpacedStart(rest, ts[1..]);
      assert ts[1..][0] == ts[1];
    }
  }

  lemma {:induction false} LexSpaced(t: string, ts: seq<Tok>)
    requires Spaced(t, ts)
    ensures Lex(t) == ts
    decreases |ts|
  {
    if ts == [] {
      LexBlank(t, []);
      Nothing(t);
    } else {
      var gap, rest :| Split(t, ts, gap, rest) && Spaced(rest, ts[1..]);
      LexSpaced(rest, ts[1..]);
      RestApart(ts, rest);
      Assoc(gap, Text(ts[0]), rest);
      LexBlank(gap, Text(ts[0]) + rest);
      LexFirst(ts[0], rest);
      Cons(ts);
    }
  }

  /** More white space in front. */
  lemma SpacedMore(c: char, t: string, ts: seq<Tok>)
    requires White(c) && Spaced(t, ts)
    ensures Spaced([c] + t, ts)
  {
    if ts != [] {
      var gap, rest :| Split(t, ts, gap, rest) && Spaced(rest, ts[1..]);
      assert [c] + t == ([c] + gap) + Text(ts[0]) + rest;
      assert Split([c] + t, ts, [c] + gap, rest);
    }
  }

  lemma SpacedFirst(tok: Tok, t: string, ts: seq<Tok>)
    requires Proper(tok) && Spaced(t, ts) && (ts != [] && Clings(tok, ts[0]) ==> t != [] && White(t[0]))
    ensures Spaced(Text(tok) + t, [tok] + ts)
  {
    var all := [tok] + ts;
    assert Text(tok) + t == [] + Text(all[0]) + t;
    assert Split(Text(tok) + t, all, [], t) && all[1..] == ts;
  }

  lemma {:induction false} SpacedLex(t: string)
    ensures Spaced(t, Lex(t))
    decreases |t|
  {
    if t == [] {
    } else if White(t[0]) {
      SpacedLex(t[1..]);
      SpacedMore(t[0], t[1..], Lex(t[1..]));
      Cons(t);
    } else if t[0] == '>' && |t| > 1 && t[1] == '>' {
      SpacedLex(t[2..]);
      SpacedFirst(Append, t[2..], Lex(t[2..]));
      assert t == Text(Append) + t[2..];
    } else if Symbol(t[0]) {
      SpacedLex(t[1..]);
      Unclinging(Sym(t[0]), t[1..]);
      SpacedFirst(Sym(t[0]), t[1..], Lex(t[1..]));
      Cons(t);
    } else {
      var n := WordLen(t);
      assert n > 0;
      var w := t[..n];
      SpacedLex(t[n..]);
      Unclinging(Word(w), t[n..]);
      SpacedFirst(Word(w), t[n..], Lex(t[n..]));
      assert t == w + t[n..];
    }
  }

  lemma Unclinging(tok: Tok, t: string)
    requires tok.Word? ==> t == [] || !Plain(t[0])
    requires tok == Sym('>') ==> t == [] || t[0] != '>'
    ensures Lex(t) != [] && Clings(tok, Lex(t)[0]) ==> t != [] && White(t[0])
  {
  }

  /** ts is what the lexer reads if and only if the text is ts with white space where it is needed. */
  lemma LexIs(t: string, ts: seq<Tok>)
    ensures Lex(t) == ts <==> Spaced(t, ts)
  {
    SpacedLex(t);
    if Spaced(t, ts) {
      LexSpaced(t, ts);
    }
  }

  // ---- The grammar accepts exactly the trees ----

  /** The redirections among the parts, as the grammar collects them. */
  function PartTargets(part: Part): seq<Target<string>> {
    match part
    case Arg(_) => []
    case From(file) => [Target(file, O_RDONLY, 0)]
    case Into(file) => [Target(file, O_WRONLY + O_CREATE, 1)]
    case Onto(file) => [Target(file, O_WRONLY + O_CREATE, 1)]
  }

  function TargetsOf(parts: seq<Part>): seq<Target<string>> {
    if parts == [] then [] else PartTargets(parts[0]) + TargetsOf(parts[1..])
  }

  lemma {:induction false} TargetsLast(parts: seq<Part>, last: Part)
    ensures TargetsOf(parts + [last]) == TargetsOf(parts) + PartTargets(last)
  {
    if parts == [] {
      Nothing([last]);
      Nothing(PartTargets(last));
      assert TargetsOf([last]) == PartTargets(last) + TargetsOf([last][1..]);
    } else {
      TargetsLast(parts[1..], last);
      assert (parts + [last])[1..] == parts[1..] + [last];
      Assoc(PartTargets(parts[0]), TargetsOf(parts[1..]), PartTargets(last));
    }
  }

  lemma WrapLast(c: Cmd<string>, rs: seq<Target<string>>, r: Target<string>)
    ensures Wrap(c, rs + [r]) == Redir(Wrap(c, rs), r.file, r.mode, r.fd)
  {
    var all := rs + [r];
    assert all[..|all| - 1] == rs && all[|all| - 1] == r;
  }

  lemma NestLast(c: Cmd<string>, front: seq<Part>, last: Part)
    ensures Nest(c, front + [last]) ==
              if last.Arg? then Nest(c, front)
              else var r := PartTargets(last)[0]; Redir(Nest(c, front), r.file, r.mode, r.fd)
  {
    var all := front + [last];
    assert all[..|all| - 1] == front && all[|all| - 1] == last;
  }

  lemma WrapStep(c: Cmd<string>, front: seq<Part>, last: Part)
    requires Wrap(c, TargetsOf(front)) == Nest(c, front)
    ensures Wrap(c, TargetsOf(front + [last])) == Nest(c, front + [last])
  {
    TargetsLast(front, last);
    NestLast(c, front, last);
    if last.Arg? {
      Nothing(TargetsOf(front));
    } else {
      WrapLast(c, TargetsOf(front), PartTargets(last)[0]);
    }
  }

  lemma {:induction false} WrapNest(c: Cmd<string>, parts: seq<Part>)
    ensures Wrap(c, TargetsOf(parts)) == Nest(c, parts)
    decreases |parts|
  {
    if parts != [] {
      WrapNest(c, parts[..|parts| - 1]);
      WrapStep(c, parts[..|parts| - 1], parts[|parts| - 1]);
      Snoc(parts);
    }
  }

  // The parser reads what is written.

  lemma ArrowsStep(rs: seq<Target<string>>, part: Part, ts: seq<Tok>)
    requires !part.Arg?
    ensures Arrows(rs, PartToks(part) + ts) == Arrows(rs + PartTargets(part), ts)
  {
    var all := PartToks(part) + ts;
    assert all[2..] == ts;
  }

  lemma WordsStep(args: seq<string>, rs: seq<Target<string>>, w: string, ts: seq<Tok>)
    requires |args| + 1 < MAXARGS
    ensures var all := [Word(w)] + ts;
            && Arrows(rs, all) == Targets.Some(rs, all)
            && (Arrows(rs, ts).Some? ==> Words(args, rs, all) == Words(args + [w], Arrows(rs, ts).targets, Arrows(rs, ts).rest))
  {
    var all := [Word(w)] + ts;
    assert all[1..] == ts && all[0] == Word(w);
  }

  lemma {:induction false} PartsRead(args: seq<string>, rs: seq<Target<string>>, parts: seq<Part>, rest: seq<Tok>)
    requires EndsExec(rest) && |args| + |ArgsOf(parts)| < MAXARGS
    ensures var a := Arrows(rs, Spell(parts) + rest);
            a.Some? && Words(args, a.targets, a.rest) == Ok(Wrap(Exec(args + ArgsOf(parts)), rs + TargetsOf(parts)), rest)
    decreases |parts|
  {
    if parts == [] {
      Nothing(rest);
      Nothing(args);
      Nothing(rs);
      assert Arrows(rs, rest) == Targets.Some(rs, rest);
      assert Words(args, rs, rest) == Ok(Wrap(Exec(args), rs), rest);
    } else {
      var part, more := parts[0], parts[1..];
      Assoc(PartToks(part), Spell(more), rest);
      if part.Arg? {
        WordsStep(args, rs, part.w, Spell(more) + rest);
        PartsRead(args + [part.w], rs, more, rest);
        Assoc(args, [part.w], ArgsOf(more));
        Nothing(TargetsOf(more));
      } else {
        ArrowsStep(rs, part, Spell(more) + rest);
        PartsRead(args, rs + PartTargets(part), more, rest);
        Assoc(rs, PartTargets(part), TargetsOf(more));
        Nothing(ArgsOf(more));
      }
    }
  }

  lemma {:induction false} ArrowsRead(got: seq<Target<string>>, parts: seq<Part>, rest: seq<Tok>)
    requires ArgsOf(parts) == [] && (rest == [] || !IsArrow(rest[0]))
    ensures Arrows(got, Spell(parts) + rest) == Targets.Some(got + TargetsOf(parts), rest)
    decreases |parts|
  {
    if parts == [] {
      Nothing(rest);
      Nothing(got);
    } else {
      var part, more := parts[0], parts[1..];
      Assoc(PartToks(part), Spell(more), rest);
      ArrowsStep(got, part, Spell(more) + rest);
      ArrowsRead(got + PartTargets(part), more, rest);
      Assoc(got, PartTargets(part), TargetsOf(more));
    }
  }

  predicate EndsPipe(ts: seq<Tok>) {
    EndsExec(ts) && !Starts(ts, '|')
  }

  predicate EndsHead(ts: seq<Tok>) {
    EndsPipe(ts) && !Starts(ts, '&')
  }

  predicate EndsLine(ts: seq<Tok>) {
    EndsHead(ts) && !Starts(ts, ';')
  }

  lemma {:induction false} SimpleRead(t: Tree, rest: seq<Tok>)
    requires IsSimple(t) && EndsExec(rest)
    ensures Grammar.Simple(Toks(t) + rest) == Ok(Meaning(t), rest)
    decreases t, 0
  {
    match t {
      case Simple(parts) => PlainRead(parts, rest);
      case Group(body, parts) =>
        var after := [Sym(')')] + (Spell(parts) + rest);
        LineRead(body, after);
        GroupRead(body, parts, rest);
    }
  }

  lemma NoParen(parts: seq<Part>, rest: seq<Tok>)
    requires EndsExec(rest)
    ensures !Starts(Spell(parts) + rest, '(')
  {
    if parts == [] {
      Nothing(rest);
    } else {
      assert (Spell(parts) + rest)[0] == PartToks(parts[0])[0];
    }
  }

  lemma PlainRead(parts: seq<Part>, rest: seq<Tok>)
    requires |ArgsOf(parts)| < MAXARGS && EndsExec(rest)
    ensures Grammar.Simple(Spell(parts) + rest) == Ok(Nest(Exec(ArgsOf(parts)), parts), rest)
  {
    var ts := Spell(parts) + rest;
    PartsRead([], [], parts, rest);
    WrapNest(Exec(ArgsOf(parts)), parts);
    Nothing(ArgsOf(parts));
    Nothing(TargetsOf(parts));
    NoParen(parts, rest);
  }

  lemma GroupToks(body: Tree, parts: seq<Part>, rest: seq<Tok>)
    ensures Toks(Group(body, parts)) + rest == [Sym('(')] + (Toks(body) + ([Sym(')')] + (Spell(parts) + rest)))
  {
    FiveParts([Sym('(')], Toks(body), [Sym(')')], Spell(parts), rest);
  }

  lemma FiveParts(a: seq<Tok>, b: seq<Tok>, c: seq<Tok>, d: seq<Tok>, e: seq<Tok>)
    ensures a + b + c + d + e == a + (b + (c + (d + e)))
  {
    Assoc(c, d, e);
    Assoc(b, c, d + e);
    Assoc(a, b, c + (d + e));
    Assoc(a + b, c, d + e);
    Assoc(a + b + c, d, e);
  }

  lemma ThreeParts(a: seq<Tok>, b: seq<Tok>, c: seq<Tok>, d: seq<Tok>)
    ensures a + b + c + d == a + (b + (c + d))
  {
    Assoc(a + b, c, d);
    Assoc(a, b, c + d);
  }

  lemma GroupRead(body: Tree, parts: seq<Part>, rest: seq<Tok>)
    requires ArgsOf(parts) == [] && EndsExec(rest)
    requires var after := [Sym(')')] + (Spell(parts) + rest); Line(Toks(body) + after) == Ok(Meaning(body), after)
    ensures Grammar.Simple(Toks(Group(body, parts)) + rest) == Ok(Nest(Meaning(body), parts), rest)
  {
    var after := [Sym(')')] + (Spell(parts) + rest);
    GroupToks(body, parts, rest);
    Front(Sym('('), Toks(body) + after);
    Front(Sym(')'), Spell(parts) + rest);
    ArrowsRead([], parts, rest);
    Nothing(TargetsOf(parts));
    WrapNest(Meaning(body), parts);
  }

  lemma {:induction false} PipelineRead(t: Tree, rest: seq<Tok>)
    requires IsPipeline(t) && EndsPipe(rest)
    ensures Pipeline(Toks(t) + rest) == Ok(Meaning(t), rest)
    decreases t, 1
  {
    if t.Piped? {
      assert !IsSimple(t);
      var after := [Sym('|')] + (Toks(t.right) + rest);
      ThreeParts(Toks(t.left), [Sym('|')], Toks(t.right), rest);
      Front(Sym('|'), Toks(t.right) + rest);
      SimpleRead(t.left, after);
      PipelineRead(t.right, rest);
    } else {
      SimpleRead(t, rest);
    }
  }

  lemma AmpsEnd(amps: seq<Tok>, rest: seq<Tok>)
    requires EndsHead(rest) && forall i :: 0 <= i < |amps| ==> amps[i] == Sym('&')
    ensures EndsPipe(amps + rest)
  {
    if amps == [] {
      Nothing(rest);
    } else {
      assert (amps + rest)[0] == Sym('&');
    }
  }

  lemma {:induction false} HeadRead(t: Tree, amps: seq<Tok>, rest: seq<Tok>)
    requires IsHead(t) && EndsHead(rest) && forall i :: 0 <= i < |amps| ==> amps[i] == Sym('&')
    ensures Head(Toks(t) + amps + rest) == Backs(Meaning(t), amps + rest)
    decreases t, 2
  {
    if t.Amp? {
      assert !IsSimple(t) && !IsPipeline(t);
      HeadRead(t.body, [Sym('&')] + amps, rest);
      Assoc(Toks(t.body), [Sym('&')], amps);
      Assoc([Sym('&')], amps, rest);
      Front(Sym('&'), amps + rest);
    } else {
      Assoc(Toks(t), amps, rest);
      AmpsEnd(amps, rest);
      PipelineRead(t, amps + rest);
    }
  }

  lemma {:induction false} LineRead(t: Tree, rest: seq<Tok>)
    requires IsLine(t) && EndsLine(rest)
    ensures Line(Toks(t) + rest) == Ok(Meaning(t), rest)
    decreases t, 3
  {
    if t.Then? {
      assert !IsSimple(t) && !IsPipeline(t) && !IsHead(t);
      var after := [Sym(';')] + (Toks(t.right) + rest);
      ThreeParts(Toks(t.left), [Sym(';')], Toks(t.right), rest);
      Front(Sym(';'), Toks(t.right) + rest);
      Nothing(Toks(t.left));
      Nothing(after);
      HeadRead(t.left, [], after);
      LineRead(t.right, rest);
    } else {
      Nothing(Toks(t));
      Nothing(rest);
      HeadRead(t, [], rest);
    }
  }

  // What the parser reads is written so.

  lemma PartsMore(part: Part, more: seq<Part>)
    ensures Spell([part] + more) == PartToks(part) + Spell(more) && TargetsOf([part] + more) == PartTargets(part) + TargetsOf(more)
    ensures ArgsOf([part] + more) == (if part.Arg? then [part.w] else []) + ArgsOf(more)
  {
    assert ([part] + more)[1..] == more;
  }

  /** A redirection as the part it is. */
  lemma ArrowPart(ts: seq<Tok>) returns (part: Part)
    requires |ts| >= 2 && IsArrow(ts[0]) && ts[1].Word?
    ensures !part.Arg? && ts == PartToks(part) + ts[2..] && PartTargets(part) == [TargetOf(ts[0], ts[1].w)]
  {
    var file := ts[1].w;
    part := if ts[0] == Sym('<') then From(file) else if ts[0] == Append then Onto(file) else Into(file);
    assert ts == [ts[0], ts[1]] + ts[2..];
  }

  lemma {:induction false} ArrowsWritten(got: seq<Target<string>>, ts: seq<Tok>) returns (parts: seq<Part>)
    requires Arrows(got, ts).Some?
    ensures var r := Arrows(got, ts);
            ts == Spell(parts) + r.rest && r.targets == got + TargetsOf(parts) && ArgsOf(parts) == []
    decreases |ts|
  {
    if ts == [] || !IsArrow(ts[0]) {
      parts := [];
      Nothing(got);
      Nothing(ts);
    } else {
      var part := ArrowPart(ts);
      var rs := PartTargets(part);
      var more := ArrowsWritten(got + rs, ts[2..]);
      parts := [part] + more;
      PartsMore(part, more);
      Assoc(got, rs, TargetsOf(more));
      Assoc(PartToks(part), Spell(more), Arrows(got, ts).rest);
    }
  }

  /** ts is redirections with the given targets, and then rest. */
  ghost predicate Redirected(ts: seq<Tok>, targets: seq<Target<string>>, rest: seq<Tok>) {
    exists parts :: ArgsOf(parts) == [] && ts == Spell(parts) + rest && targets == TargetsOf(parts)
  }

  /** An arrow without a file. */
  predicate Dangling(ts: seq<Tok>) {
    ts != [] && IsArrow(ts[0]) && (|ts| < 2 || !ts[1].Word?)
  }

  /** The redirections at the front of ts, as far as they go; the parser panics exactly at an arrow without a file. */
  lemma {:induction false} ArrowsAre(got: seq<Target<string>>, ts: seq<Tok>) returns (more: seq<Target<string>>, rest: seq<Tok>)
    ensures Redirected(ts, more, rest)
    ensures Arrows(got, ts) == if Dangling(rest) then Targets.None(MissingFile) else Targets.Some(got + more, rest)
    ensures !Dangling(rest) ==> rest == [] || !IsArrow(rest[0])
    decreases |ts|
  {
    if ts == [] || !IsArrow(ts[0]) || Dangling(ts) {
      more, rest := [], ts;
      Nothing(got);
      Nothing(ts);
      assert ts == Spell([]) + rest && TargetsOf([]) == [] && ArgsOf([]) == [];
    } else {
      var part := ArrowPart(ts);
      var rs := PartTargets(part);
      var m;
      m, rest := ArrowsAre(got + rs, ts[2..]);
      more := rs + m;
      Assoc(got, rs, m);
      var parts :| ArgsOf(parts) == [] && ts[2..] == Spell(parts) + rest && m == TargetsOf(parts);
      PartsMore(part, parts);
      Assoc(PartToks(part), Spell(parts), rest);
    }
  }

  lemma {:induction false} SpellJoin(a: seq<Part>, b: seq<Part>)
    ensures Spell(a + b) == Spell(a) + Spell(b)
  {
    if a == [] {
      Nothing(b);
      Nothing(Spell(b));
    } else {
      SpellJoin(a[1..], b);
      assert (a + b)[0] == a[0] && (a + b)[1..] == a[1..] + b;
      Assoc(PartToks(a[0]), Spell(a[1..]), Spell(b));
    }
  }

  lemma {:induction false} TargetsJoin(a: seq<Part>, b: seq<Part>)
    ensures TargetsOf(a + b) == TargetsOf(a) + TargetsOf(b)
  {
    if a == [] {
      Nothing(b);
      Nothing(TargetsOf(b));
    } else {
      TargetsJoin(a[1..], b);
      assert (a + b)[0] == a[0];
      assert (a + b)[1..] == a[1..] + b;
      Assoc(PartTargets(a[0]), TargetsOf(a[1..]), TargetsOf(b));
    }
  }

  lemma {:induction false} ArgsJoin(a: seq<Part>, b: seq<Part>)
    ensures ArgsOf(a + b) == ArgsOf(a) + ArgsOf(b)
  {
    if a == [] {
      Nothing(b);
      Nothing(ArgsOf(b));
    } else {
      ArgsJoin(a[1..], b);
      assert (a + b)[0] == a[0] && (a + b)[1..] == a[1..] + b;
      Assoc(if a[0].Arg? then [a[0].w] else [], ArgsOf(a[1..]), ArgsOf(b));
    }
  }

  /** Redirections and then more parts. */
  lemma AfterRedirs(redirs: seq<Part>, more: seq<Part>)
    requires ArgsOf(redirs) == []
    ensures Spell(redirs + more) == Spell(redirs) + Spell(more) && ArgsOf(redirs + more) == ArgsOf(more)
    ensures TargetsOf(redirs + more) == TargetsOf(redirs) + TargetsOf(more)
  {
    SpellJoin(redirs, more);
    TargetsJoin(redirs, more);
    ArgsJoin(redirs, more);
    assert [] + ArgsOf(more) == ArgsOf(more);
  }

  lemma {:induction false} WordsWritten(args: seq<string>, rs: seq<Target<string>>, ts: seq<Tok>) returns (parts: seq<Part>)
    requires Words(args, rs, ts).Ok? && |args| < MAXARGS
    ensures var r := Words(args, rs, ts);
            && ts == Spell(parts) + r.rest && r.cmd == Wrap(Exec(args + ArgsOf(parts)), rs + TargetsOf(parts))
            && |args| + |ArgsOf(parts)| < MAXARGS
    decreases |ts|
  {
    if EndsExec(ts) {
      parts := [];
      Nothing(args);
      Nothing(rs);
      Nothing(ts);
    } else {
      var w := ts[0].w;
      var redirs := ArrowsWritten(rs, ts[1..]);
      var a := Arrows(rs, ts[1..]);
      var more := WordsWritten(args + [w], a.targets, a.rest);
      parts := [Arg(w)] + (redirs + more);
      AfterRedirs(redirs, more);
      PartsMore(Arg(w), redirs + more);
      WordsGlue(args, rs, w, redirs, more, ts, Words(args, rs, ts).rest);
    }
  }

  lemma WordsGlue(args: seq<string>, rs: seq<Target<string>>, w: string, redirs: seq<Part>, more: seq<Part>, ts: seq<Tok>, rest: seq<Tok>)
    requires ts != [] && ts[0] == Word(w) && ts[1..] == Spell(redirs) + (Spell(more) + rest)
    ensures args + [w] + ArgsOf(more) == args + ([w] + ArgsOf(more))
    ensures rs + TargetsOf(redirs) + TargetsOf(more) == rs + ([] + (TargetsOf(redirs) + TargetsOf(more)))
    ensures ts == [Word(w)] + (Spell(redirs) + Spell(more)) + rest
  {
    Cons(ts);
    Assoc(args, [w], ArgsOf(more));
    Assoc(rs, TargetsOf(redirs), TargetsOf(more));
    Nothing(TargetsOf(redirs) + TargetsOf(more));
    Assoc(Spell(redirs), Spell(more), rest);
    Assoc([Word(w)], Spell(redirs) + Spell(more), rest);
  }

  lemma {:induction false} SimpleWritten(ts: seq<Tok>) returns (t: Tree)
    requires Grammar.Simple(ts).Ok?
    ensures IsSimple(t) && ts == Toks(t) + Grammar.Simple(ts).rest && Meaning(t) == Grammar.Simple(ts).cmd
    decreases |ts|, 0
  {
    if Starts(ts, '(') {
      var body := LineWritten(ts[1..]);
      t := GroupWritten(ts, body);
    } else {
      var parts := PlainWritten(ts);
      t := Simple(parts);
    }
  }

  lemma GroupGlue(ts: seq<Tok>, body: Tree, rest: seq<Tok>, parts: seq<Part>, after: seq<Tok>)
    requires Starts(ts, '(') && ts[1..] == Toks(body) + rest && Starts(rest, ')') && rest[1..] == Spell(parts) + after
    ensures ts == Toks(Group(body, parts)) + after
  {
    Cons(ts);
    Cons(rest);
    GroupToks(body, parts, after);
  }

  lemma GroupWritten(ts: seq<Tok>, body: Tree) returns (t: Tree)
    requires Starts(ts, '(') && Block(ts).Ok? && IsLine(body)
    requires ts[1..] == Toks(body) + Line(ts[1..]).rest && Meaning(body) == Line(ts[1..]).cmd
    ensures IsSimple(t) && ts == Toks(t) + Block(ts).rest && Meaning(t) == Block(ts).cmd
  {
    var rest := Line(ts[1..]).rest;
    var parts := ArrowsWritten([], rest[1..]);
    t := Group(body, parts);
    WrapNest(Meaning(body), parts);
    Nothing(TargetsOf(parts));
    GroupGlue(ts, body, rest, parts, Arrows([], rest[1..]).rest);
  }

  lemma PlainWritten(ts: seq<Tok>) returns (parts: seq<Part>)
    requires Grammar.Simple(ts).Ok? && !Starts(ts, '(')
    ensures var r := Grammar.Simple(ts);
            |ArgsOf(parts)| < MAXARGS && ts == Spell(parts) + r.rest && r.cmd == Nest(Exec(ArgsOf(parts)), parts)
  {
    var redirs := ArrowsWritten([], ts);
    var a := Arrows([], ts);
    var more := WordsWritten([], a.targets, a.rest);
    parts := redirs + more;
    AfterRedirs(redirs, more);
    WrapNest(Exec(ArgsOf(parts)), parts);
    Nothing(ArgsOf(more));
    Nothing(TargetsOf(redirs));
    Assoc(Spell(redirs), Spell(more), Grammar.Simple(ts).rest);
  }

  lemma {:induction false} PipelineWritten(ts: seq<Tok>) returns (t: Tree)
    requires Pipeline(ts).Ok?
    ensures IsPipeline(t) && ts == Toks(t) + Pipeline(ts).rest && Meaning(t) == Pipeline(ts).cmd
    decreases |ts|, 1
  {
    t := SimpleWritten(ts);
    var rest := Grammar.Simple(ts).rest;
    if Starts(rest, '|') {
      var right := PipelineWritten(rest[1..]);
      var left := t;
      t := Piped(left, right);
      Cons(rest);
      ThreeParts(Toks(left), [Sym('|')], Toks(right), Pipeline(ts).rest);
    }
  }

  lemma {:induction false} BacksWritten(t: Tree, ts: seq<Tok>) returns (u: Tree)
    requires IsHead(t)
    ensures var r := Backs(Meaning(t), ts);
            IsHead(u) && Toks(t) + ts == Toks(u) + r.rest && Meaning(u) == r.cmd
    decreases |ts|
  {
    if Starts(ts, '&') {
      u := BacksWritten(Amp(t), ts[1..]);
      Cons(ts);
      Assoc(Toks(t), [Sym('&')], ts[1..]);
    } else {
      u := t;
    }
  }

  lemma {:induction false} LineWritten(ts: seq<Tok>) returns (t: Tree)
    requires Line(ts).Ok?
    ensures IsLine(t) && ts == Toks(t) + Line(ts).rest && Meaning(t) == Line(ts).cmd
    decreases |ts|, 2
  {
    var p := PipelineWritten(ts);
    var left := BacksWritten(p, Pipeline(ts).rest);
    var rest := Head(ts).rest;
    if Starts(rest, ';') {
      var right := LineWritten(rest[1..]);
      t := Then(left, right);
      Cons(rest);
      ThreeParts(Toks(left), [Sym(';')], Toks(right), Line(ts).rest);
    } else {
      t := left;
    }
  }

  /** The parser accepts a line exactly if it is written as some tree, and its command is what the tree means. */
  lemma CommandIs(text: string, c: Cmd<string>)
    ensures Command(text) == Ok(c, []) <==> Means(text, c)
    ensures Command(text).Ok? <==> exists t :: Written(text, t)
  {
    var ts := Lex(text);
    if Command(text).Ok? {
      var t := LineWritten(ts);
      Nothing(Toks(t));
      LexIs(text, Toks(t));
      assert Written(text, t);
    }
    forall t | Written(text, t)
      ensures Command(text) == Ok(Meaning(t), [])
    {
      LexIs(text, Toks(t));
      LineRead(t, []);
      Nothing(Toks(t));
    }
  }

  /** A line has at most one meaning. */
  lemma OneMeaning(text: string, c: Cmd<string>, d: Cmd<string>)
    requires Means(text, c) && Means(text, d)
    ensures c == d
  {
    CommandIs(text, c);
    CommandIs(text, d);
  }
}
