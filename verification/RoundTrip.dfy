/**
 The shell's parser undoes its canonical printing: for every command the grammar can describe,
 parsing the printed line gives the command back; and it describes exactly what the parser builds.
 */
module RoundTrip {

  import opened Grammar

  // ---- Characters: lexing a rendering gives the tokens back ----

  predicate GoodTok(t: Tok) {
    match t
    case Sym(c) => Symbol(c)
    case Append => true
    case Word(w) => GoodWord(w)
  }

  predicate GoodToks(ts: seq<Tok>) {
    forall i :: 0 <= i < |ts| ==> GoodTok(ts[i])
  }

  lemma {:induction false} WordLenIs(w: string, rest: string)
    requires forall i :: 0 <= i < |w| ==> Plain(w[i])
    requires rest == [] || !Plain(rest[0])
    ensures WordLen(w + rest) == |w|
  {
    if w == [] {
      assert w + rest == rest;
    } else {
      assert (w + rest)[1..] == w[1..] + rest;
      WordLenIs(w[1..], rest);
    }
  }

  lemma LexWord(w: string, rest: string)
    requires GoodWord(w)
    ensures Lex(w + " " + rest) == [Word(w)] + Lex(" " + rest)
  {
    var t := w + (" " + rest);
    assert t == w + " " + rest;
    WordLenIs(w, " " + rest);
    assert t[0] == w[0] && t[..|w|] == w && t[|w|..] == " " + rest;
  }

  lemma LexSpace(rest: string)
    ensures Lex(" " + rest) == Lex(rest)
  {
    assert (" " + rest)[1..] == rest;
  }

  lemma LexSymbol(c: char, rest: string)
    requires Symbol(c)
    ensures Lex([c] + " " + rest) == [Sym(c)] + Lex(" " + rest)
  {
    var t := [c] + " " + rest;
    assert t[1] == ' ' && t[1..] == " " + rest;
  }

  lemma LexAppend(rest: string)
    ensures Lex(">>" + " " + rest) == [Append] + Lex(" " + rest)
  {
    var t := ">>" + " " + rest;
    assert t[2..] == " " + rest;
  }

  lemma {:induction false} LexRender(ts: seq<Tok>)
    requires GoodToks(ts)
    ensures Lex(Render(ts)) == ts
  {
    if ts != [] {
      var rest := Render(ts[1..]);
      LexRender(ts[1..]);
      LexSpace(rest);
      assert GoodTok(ts[0]);
      match ts[0]
      case Sym(c) => LexSymbol(c, rest);
      case Append => LexAppend(rest);
      case Word(w) => LexWord(w, rest);
    }
  }

  // ---- Simple commands: words and redirections ----

  function Base(c: Cmd<string>): Cmd<string> {
    if c.Redir? then Base(c.cmd) else c
  }

  function TargetsOf(c: Cmd<string>): seq<Target<string>> {
    if c.Redir? then TargetsOf(c.cmd) + [Target(c.file, c.mode, c.fd)] else []
  }

  function ArrowToks(rs: seq<Target<string>>): seq<Tok> {
    if rs == [] then [] else Arrow(rs[0]) + ArrowToks(rs[1..])
  }

  predicate GoodTargets(rs: seq<Target<string>>) {
    forall i :: 0 <= i < |rs| ==> GoodTarget(rs[i])
  }

  lemma {:induction false} ArrowToksLast(rs: seq<Target<string>>, r: Target<string>)
    ensures ArrowToks(rs + [r]) == ArrowToks(rs) + Arrow(r)
  {
    if rs == [] {
      assert rs + [r] == [r] && [r][1..] == [];
    } else {
      ArrowToksLast(rs[1..], r);
      assert (rs + [r])[1..] == rs[1..] + [r];
    }
  }

  /** A command is its base under its redirections, and is printed as the base followed by them. */
  lemma {:induction false} Chain(c: Cmd<string>)
    requires Good(c)
    ensures Wrap(Base(c), TargetsOf(c)) == c
    ensures AsSimple(c) == AsSimple(Base(c)) + ArrowToks(TargetsOf(c))
    ensures Good(Base(c)) && !Base(c).Redir? && GoodTargets(TargetsOf(c))
    ensures c.Redir? ==> Size(Base(c)) < Size(c)
  {
    if c.Redir? {
      var r := Target(c.file, c.mode, c.fd);
      Chain(c.cmd);
      ArrowToksLast(TargetsOf(c.cmd), r);
      assert TargetsOf(c)[..|TargetsOf(c)| - 1] == TargetsOf(c.cmd);
    }
  }

  lemma {:induction false} ArrowsBack(got: seq<Target<string>>, rs: seq<Target<string>>, rest: seq<Tok>)
    requires GoodTargets(rs) && (rest == [] || !IsArrow(rest[0]))
    ensures Arrows(got, ArrowToks(rs) + rest) == Some(got + rs, rest)
    decreases |rs|
  {
    var ts := ArrowToks(rs) + rest;
    if rs == [] {
      assert ts == rest && got + rs == got;
    } else {
      assert GoodTarget(rs[0]);
      assert ts == Arrow(rs[0]) + (ArrowToks(rs[1..]) + rest);
      assert ts[2..] == ArrowToks(rs[1..]) + rest;
      ArrowsBack(got + [rs[0]], rs[1..], rest);
      assert got + [rs[0]] + rs[1..] == got + rs;
    }
  }

  /** The tokens of the words before something else, one word at a time. */
  lemma {:induction false} WordToksStep(args: seq<string>, more: seq<Tok>)
    requires args != []
    ensures (WordToks(args) + more)[0] == Word(args[0])
    ensures (WordToks(args) + more)[1..] == WordToks(args[1..]) + more
  {
    var tail := WordToks(args[1..]);
    assert WordToks(args) + more == [Word(args[0])] + (tail + more);
  }

  /** One word read, with what the redirections after it leave. */
  lemma WordsStep(args: seq<string>, ts: seq<Tok>, rs: seq<Target<string>>, rest: seq<Tok>)
    requires ts != [] && ts[0].Word? && |args| + 1 < MAXARGS && Arrows([], ts[1..]) == Some(rs, rest)
    ensures Words(args, [], ts) == Words(args + [ts[0].w], rs, rest)
  {
  }

  lemma {:induction false} WordsBack(done: seq<string>, args: seq<string>, more: seq<Tok>, rs: seq<Target<string>>, rest: seq<Tok>)
    requires args != [] && |done| + |args| < MAXARGS && Arrows([], more) == Some(rs, rest) && EndsExec(rest)
    ensures Words(done, [], WordToks(args) + more) == Ok(Wrap(Exec(done + args), rs), rest)
    decreases |args|
  {
    var tail := WordToks(args[1..]) + more;
    WordToksStep(args, more);
    if |args| == 1 {
      assert tail == more;
      WordsStep(done, WordToks(args) + more, rs, rest);
      assert done + args == done + [args[0]];
    } else {
      WordToksStep(args[1..], more);
      WordsStep(done, WordToks(args) + more, [], tail);
      WordsBack(done + [args[0]], args[1..], more, rs, rest);
      assert done + [args[0]] + args[1..] == done + args;
    }
  }

  lemma ExecBack(args: seq<string>, more: seq<Tok>, rs: seq<Target<string>>, rest: seq<Tok>)
    requires |args| < MAXARGS && Arrows([], more) == Some(rs, rest) && EndsExec(rest) && !Starts(more, '(')
    ensures Simple(WordToks(args) + more) == Ok(Wrap(Exec(args), rs), rest)
  {
    var ts := WordToks(args) + more;
    if args == [] {
      assert ts == more;
    } else {
      assert ts[0] == Word(args[0]);
      assert Arrows([], ts) == Some([], ts);
      WordsBack([], args, more, rs, rest);
      assert [] + args == args;
    }
  }

  lemma BlockBack(b: Cmd<string>, body: seq<Tok>, more: seq<Tok>, rs: seq<Target<string>>, rest: seq<Tok>)
    requires Line(body + ([Sym(')')] + more)) == Ok(b, [Sym(')')] + more) && Arrows([], more) == Some(rs, rest)
    ensures Simple([Sym('(')] + (body + ([Sym(')')] + more))) == Ok(Wrap(b, rs), rest)
  {
    var inner := [Sym(')')] + more;
    var ts := [Sym('(')] + (body + inner);
    assert ts[1..] == body + inner && inner[1..] == more;
  }

  // ---- Whole commands ----

  function Size(c: Cmd<string>): nat {
    match c
    case Exec(_) => 0
    case Redir(x, _, _, _) => 1 + Size(x)
    case Pipe(l, r) => 1 + Size(l) + Size(r)
    case List(l, r) => 1 + Size(l) + Size(r)
    case Back(x) => 1 + Size(x)
  }

  /** The lemmas below call one another on one command in an order that depends on its shape. */
  function Rank(level: nat, c: Cmd<string>): nat {
    (level + 4 - if c.Pipe? then 1 else if c.Back? then 2 else if c.List? then 3 else 0) % 4
  }

  predicate EndsPipeline(ts: seq<Tok>) {
    ts == [] || Starts(ts, ')') || Starts(ts, '&') || Starts(ts, ';')
  }

  predicate EndsLine(ts: seq<Tok>) {
    ts == [] || Starts(ts, ')')
  }

  lemma ArrowsAll(rs: seq<Target<string>>, rest: seq<Tok>)
    requires GoodTargets(rs) && EndsExec(rest)
    ensures Arrows([], ArrowToks(rs) + rest) == Some(rs, rest) && !Starts(ArrowToks(rs) + rest, '(')
  {
    ArrowsBack([], rs, rest);
    assert [] + rs == rs;
    if rs == [] {
      assert ArrowToks(rs) + rest == rest;
    } else {
      assert (ArrowToks(rs) + rest)[0] == Arrow(rs[0])[0];
    }
  }

  lemma {:induction false} SimpleBack(c: Cmd<string>, rest: seq<Tok>)
    requires Good(c) && EndsExec(rest)
    ensures Simple(AsSimple(c) + rest) == Ok(c, rest)
    decreases Size(c), Rank(0, c)
  {
    Chain(c);
    var b, rs := Base(c), TargetsOf(c);
    var more := ArrowToks(rs) + rest;
    ArrowsAll(rs, rest);
    Regroup(AsSimple(b), ArrowToks(rs), rest);
    if b.Exec? {
      ExecBack(b.args, more, rs, rest);
    } else {
      LineBack(b, [Sym(')')] + more);
      BlockBack(b, Open(b), more, rs, rest);
      ParenSplit(Open(b), more);
    }
  }

  lemma Regroup(a: seq<Tok>, b: seq<Tok>, c: seq<Tok>)
    ensures a + b + c == a + (b + c)
  {
  }

  lemma ParenSplit(body: seq<Tok>, more: seq<Tok>)
    ensures [Sym('(')] + body + [Sym(')')] + more == [Sym('(')] + (body + ([Sym(')')] + more))
  {
  }

  lemma {:induction false} PipelineBack(c: Cmd<string>, rest: seq<Tok>)
    requires Good(c) && EndsPipeline(rest)
    ensures Pipeline(AsPipeline(c) + rest) == Ok(c, rest)
    decreases Size(c), Rank(1, c)
  {
    if c.Pipe? {
      var tail := [Sym('|')] + (AsPipeline(c.right) + rest);
      assert AsPipeline(c) + rest == AsSimple(c.left) + tail;
      SimpleBack(c.left, tail);
      assert tail[1..] == AsPipeline(c.right) + rest;
      PipelineBack(c.right, rest);
    } else {
      SimpleBack(c, rest);
    }
  }

  lemma {:induction false} HeadBack(c: Cmd<string>, rest: seq<Tok>)
    requires Good(c) && EndsPipeline(rest)
    ensures Head(AsHead(c) + rest) == Backs(c, rest)
    decreases Size(c), Rank(2, c)
  {
    if c.Back? {
      var tail := [Sym('&')] + rest;
      assert AsHead(c) + rest == AsHead(c.cmd) + tail;
      HeadBack(c.cmd, tail);
      assert tail[1..] == rest;
    } else {
      PipelineBack(c, rest);
    }
  }

  lemma {:induction false} LineBack(c: Cmd<string>, rest: seq<Tok>)
    requires Good(c) && EndsLine(rest)
    ensures Line(Open(c) + rest) == Ok(c, rest)
    decreases Size(c), Rank(3, c)
  {
    if c.List? {
      var tail := [Sym(';')] + (Open(c.right) + rest);
      assert Open(c) + rest == AsHead(c.left) + tail;
      HeadBack(c.left, tail);
      assert tail[1..] == Open(c.right) + rest;
      LineBack(c.right, rest);
    } else {
      HeadBack(c, rest);
    }
  }

  lemma {:induction false} WordToksGood(args: seq<string>)
    requires forall i :: 0 <= i < |args| ==> GoodWord(args[i])
    ensures GoodToks(WordToks(args))
  {
    if args != [] { WordToksGood(args[1..]); }
  }

  lemma ArrowGood(r: Target<string>)
    requires GoodTarget(r)
    ensures GoodToks(Arrow(r))
  {
    assert GoodTok(Arrow(r)[0]) && GoodTok(Arrow(r)[1]);
  }

  lemma {:induction false} OpenGood(c: Cmd<string>)
    requires Good(c)
    ensures GoodToks(Open(c))
  {
    match c
    case Exec(args) => WordToksGood(args);
    case Redir(x, file, mode, fd) =>
      OpenGood(x);
      ArrowGood(Target(file, mode, fd));
      assert GoodToks(AsSimple(x));
    case Pipe(l, r) =>
      OpenGood(l);
      OpenGood(r);
      assert GoodToks(AsSimple(l)) && GoodToks([Sym('|')]) && GoodToks(AsPipeline(r));
    case List(l, r) =>
      OpenGood(l);
      OpenGood(r);
      assert GoodToks(AsHead(l)) && GoodToks([Sym(';')]);
    case Back(x) =>
      OpenGood(x);
      assert GoodToks(AsHead(x)) && GoodToks([Sym('&')]);
  }

  /** Parsing the canonical printing of any command the grammar can describe gives that command. */
  lemma ParsePrint(c: Cmd<string>)
    requires Good(c)
    ensures Command(Print(c)) == Ok(c, [])
  {
    OpenGood(c);
    LexRender(Open(c));
    LineBack(c, []);
    assert Open(c) + [] == Open(c);
  }

  // ---- What the parser can build ----

  /** The text of a C string holds no NUL. */
  predicate NoNul(t: string) {
    forall i :: 0 <= i < |t| ==> t[i] != '\0'
  }

  lemma {:induction false} LexGood(t: string)
    requires NoNul(t)
    ensures GoodToks(Lex(t))
    decreases |t|
  {
    if t != [] {
      if White(t[0]) {
        LexGood(t[1..]);
      } else if t[0] == '>' && |t| > 1 && t[1] == '>' {
        LexGood(t[2..]);
      } else if Symbol(t[0]) {
        LexGood(t[1..]);
      } else {
        LexGood(t[WordLen(t)..]);
        assert GoodTok(Word(t[..WordLen(t)]));
      }
    }
  }

  lemma {:induction false} ArrowsGood(got: seq<Target<string>>, ts: seq<Tok>)
    requires GoodTargets(got) && GoodToks(ts)
    ensures var r := Arrows(got, ts); r.Some? ==> GoodTargets(r.targets) && GoodToks(r.rest)
    decreases |ts|
  {
    if |ts| >= 2 && IsArrow(ts[0]) && ts[1].Word? {
      assert GoodTok(ts[1]);
      ArrowsGood(got + [TargetOf(ts[0], ts[1].w)], ts[2..]);
    }
  }

  lemma {:induction false} WrapGood(c: Cmd<string>, rs: seq<Target<string>>)
    requires Good(c) && GoodTargets(rs)
    ensures Good(Wrap(c, rs))
  {
    if rs != [] { WrapGood(c, rs[..|rs| - 1]); }
  }

  ghost predicate GoodParse(r: Parsed) {
    r.Ok? ==> Good(r.cmd) && GoodToks(r.rest)
  }

  lemma {:induction false} WordsGood(args: seq<string>, rs: seq<Target<string>>, ts: seq<Tok>)
    requires Good(Exec(args)) && GoodTargets(rs) && GoodToks(ts)
    ensures GoodParse(Words(args, rs, ts))
    decreases |ts|
  {
    if EndsExec(ts) {
      WrapGood(Exec(args), rs);
    } else if ts[0].Word? && |args| + 1 < MAXARGS {
      assert GoodTok(ts[0]);
      ArrowsGood(rs, ts[1..]);
      var r := Arrows(rs, ts[1..]);
      if r.Some? { WordsGood(args + [ts[0].w], r.targets, r.rest); }
    }
  }

  lemma {:induction false} SimpleGood(ts: seq<Tok>)
    requires GoodToks(ts)
    ensures GoodParse(Simple(ts))
    decreases |ts|, 0
  {
    if Starts(ts, '(') {
      LineGood(ts[1..]);
      var r := Line(ts[1..]);
      if r.Ok? && Starts(r.rest, ')') {
        ArrowsGood([], r.rest[1..]);
        var a := Arrows([], r.rest[1..]);
        if a.Some? { WrapGood(r.cmd, a.targets); }
      }
    } else {
      ArrowsGood([], ts);
      var a := Arrows([], ts);
      if a.Some? { WordsGood([], a.targets, a.rest); }
    }
  }

  lemma {:induction false} PipelineGood(ts: seq<Tok>)
    requires GoodToks(ts)
    ensures GoodParse(Pipeline(ts))
    decreases |ts|, 1
  {
    SimpleGood(ts);
    var r := Simple(ts);
    if r.Ok? && Starts(r.rest, '|') { PipelineGood(r.rest[1..]); }
  }

  lemma {:induction false} BacksGood(c: Cmd<string>, ts: seq<Tok>)
    requires Good(c) && GoodToks(ts)
    ensures GoodParse(Backs(c, ts))
    decreases |ts|
  {
    if Starts(ts, '&') { BacksGood(Back(c), ts[1..]); }
  }

  lemma {:induction false} LineGood(ts: seq<Tok>)
    requires GoodToks(ts)
    ensures GoodParse(Line(ts))
    decreases |ts|, 2
  {
    PipelineGood(ts);
    var p := Pipeline(ts);
    if p.Ok? {
      BacksGood(p.cmd, p.rest);
      var h := Head(ts);
      if Starts(h.rest, ';') { LineGood(h.rest[1..]); }
    }
  }

  lemma {:induction false} RenderNoNul(ts: seq<Tok>)
    requires GoodToks(ts)
    ensures NoNul(Render(ts))
  {
    if ts != [] {
      assert GoodTok(ts[0]);
      RenderNoNul(ts[1..]);
    }
  }

  /** A command is the result of parsing some line exactly when it is one the grammar can describe. */
  lemma ParserImage(c: Cmd<string>)
    ensures Good(c) <==> exists t :: NoNul(t) && Command(t) == Ok(c, [])
  {
    if Good(c) {
      ParsePrint(c);
      OpenGood(c);
      RenderNoNul(Open(c));
      assert NoNul(Print(c)) && Command(Print(c)) == Ok(c, []);
    }
    forall t | NoNul(t) && Command(t) == Ok(c, []) ensures Good(c) {
      LexGood(t);
      LineGood(Lex(t));
    }
  }
}
