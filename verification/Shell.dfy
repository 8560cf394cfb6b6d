/**
 The shell's parser as user/sh.c runs it: a cursor moves along the line, words are kept as pairs of
 pointers into it, and in the end the line is cut into C strings in place. Each routine is proved
 to parse what the grammar of module Grammar says.
 */
module Shell {

  import opened Grammar
  import RoundTrip
  import Syntax

  /** A word of the line: text[q..eq]. */
  datatype Span = Span(q: nat, eq: nat)

  /** The characters of a word, and a delimiter or the end of the line after them. */
  predicate IsWord(text: string, w: Span) {
    && w.q < w.eq <= |text|
    && (forall i :: w.q <= i < w.eq ==> Plain(text[i]))
    && (w.eq < |text| ==> !Plain(text[w.eq]))
  }

  predicate AllWords(text: string, ws: seq<Span>) {
    forall i :: 0 <= i < |ws| ==> IsWord(text, ws[i])
  }

  predicate Spans(text: string, c: Cmd<Span>) {
    match c
    case Exec(args) => AllWords(text, args)
    case Redir(x, file, _, _) => IsWord(text, file) && Spans(text, x)
    case Pipe(l, r) => Spans(text, l) && Spans(text, r)
    case List(l, r) => Spans(text, l) && Spans(text, r)
    case Back(x) => Spans(text, x)
  }

  function Str(text: string, w: Span): string
    requires IsWord(text, w)
  {
    text[w.q..w.eq]
  }

  function Strs(text: string, ws: seq<Span>): (r: seq<string>)
    requires AllWords(text, ws)
    ensures |r| == |ws| && forall i :: 0 <= i < |ws| ==> r[i] == Str(text, ws[i])
  {
    if ws == [] then [] else Strs(text, ws[..|ws| - 1]) + [Str(text, ws[|ws| - 1])]
  }

  /** The command with the words themselves in place of pointers. */
  function Image(text: string, c: Cmd<Span>): Cmd<string>
    requires Spans(text, c)
  {
    match c
    case Exec(args) => Exec(Strs(text, args))
    case Redir(x, file, mode, fd) => Redir(Image(text, x), Str(text, file), mode, fd)
    case Pipe(l, r) => Pipe(Image(text, l), Image(text, r))
    case List(l, r) => List(Image(text, l), Image(text, r))
    case Back(x) => Back(Image(text, x))
  }

  predicate AllTargets(text: string, rs: seq<Target<Span>>) {
    forall i :: 0 <= i < |rs| ==> IsWord(text, rs[i].file)
  }

  function Files(text: string, rs: seq<Target<Span>>): (r: seq<Target<string>>)
    requires AllTargets(text, rs)
    ensures |r| == |rs| && forall i :: 0 <= i < |rs| ==> r[i] == Target(Str(text, rs[i].file), rs[i].mode, rs[i].fd)
  {
    if rs == [] then []
    else
      var l := rs[|rs| - 1];
      Files(text, rs[..|rs| - 1]) + [Target(Str(text, l.file), l.mode, l.fd)]
  }

  lemma {:induction false} WrapImage(text: string, c: Cmd<Span>, rs: seq<Target<Span>>)
    requires Spans(text, c) && AllTargets(text, rs)
    ensures Spans(text, Wrap(c, rs))
    ensures Image(text, Wrap(c, rs)) == Wrap(Image(text, c), Files(text, rs))
  {
    if rs != [] {
      WrapImage(text, c, rs[..|rs| - 1]);
      assert Files(text, rs)[..|rs| - 1] == Files(text, rs[..|rs| - 1]);
    }
  }

  /** What gettoken returns for a token. */
  function Kind(t: Tok): char {
    match t
    case Sym(c) => c
    case Append => '+'
    case Word(_) => 'a'
  }

  /** The character peek looks at. */
  function Lead(t: Tok): char {
    match t
    case Sym(c) => c
    case Append => '>'
    case Word(w) => if w == [] then '\0' else w[0]
  }

  datatype Result = Done(cmd: Cmd<Span>) | Panicked(why: Panic)

  datatype ArgStep = Stop | More(args: seq<Span>, targets: seq<Target<Span>>) | Bad(why: Panic)

  datatype WordStep = NoMore | NotWord | AWord(w: Span)

  datatype RedirResult = Got(targets: seq<Target<Span>>) | Refused(why: Panic)

  /** A routine's result and the tokens it left are what the grammar says. */
  ghost predicate Agrees(text: string, r: Result, left: seq<Tok>, spec: Parsed) {
    match r
    case Done(c) => Spans(text, c) && spec == Ok(Image(text, c), left)
    case Panicked(why) => spec == Fail(why)
  }

  ghost predicate RedirsAgree(text: string, r: RedirResult, left: seq<Tok>, spec: Targets) {
    match r
    case Got(rs) => AllTargets(text, rs) && spec == Some(Files(text, rs), left)
    case Refused(why) => spec == None(why)
  }

  // ---- Lexing from a position ----

  lemma LexWhite(text: string, s: nat)
    requires s < |text| && White(text[s])
    ensures Lex(text[s..]) == Lex(text[s + 1..])
  {
    assert text[s..][1..] == text[s + 1..];
  }

  lemma LexSym(text: string, s: nat)
    requires s < |text| && Symbol(text[s]) && !(text[s] == '>' && s + 1 < |text| && text[s + 1] == '>')
    ensures Lex(text[s..]) == [Sym(text[s])] + Lex(text[s + 1..])
  {
    assert text[s..][1..] == text[s + 1..];
  }

  lemma LexAppend(text: string, s: nat)
    requires s + 1 < |text| && text[s] == '>' && text[s + 1] == '>'
    ensures Lex(text[s..]) == [Append] + Lex(text[s + 2..])
  {
    assert text[s..][1] == '>' && text[s..][2..] == text[s + 2..];
  }

  lemma LexPlain(text: string, w: Span)
    requires IsWord(text, w)
    ensures Lex(text[w.q..]) == [Word(Str(text, w))] + Lex(text[w.eq..])
  {
    var t := text[w.q..];
    var n := w.eq - w.q;
    assert forall i :: 0 <= i < n ==> Plain(t[i]);
    assert n < |t| ==> !Plain(t[n]);
    assert WordLen(t) == n;
    assert t[..n] == Str(text, w) && t[n..] == text[w.eq..];
  }

  class Parser {
    const text: string
    var s: nat

    /** The cursor is in the line, which is a C string. */
    ghost predicate Valid()
      reads this
    {
      s <= |text| && RoundTrip.NoNul(text)
    }

    constructor (text: string)
      requires RoundTrip.NoNul(text)
      ensures Valid() && this.text == text && s == 0
    {
      this.text := text;
      s := 0;
    }

    ghost function Left(): seq<Tok>
      requires s <= |text|
      reads this
    {
      Lex(text[s..])
    }

    method SkipWhite()
      requires s <= |text|
      modifies this
      ensures old(s) <= s <= |text| && Left() == old(Left())
      ensures s < |text| ==> !White(text[s])
    {
      while s < |text| && White(text[s])
        invariant old(s) <= s <= |text| && Left() == old(Left())
      {
        LexWhite(text, s);
        s := s + 1;
      }
    }

    method GetToken() returns (ret: char, w: Span)
      requires s <= |text|
      modifies this
      ensures old(s) <= s <= |text|
      ensures old(Left()) == [] ==> ret == '\0' && Left() == []
      ensures old(Left()) != [] ==> ret == Kind(old(Left())[0]) && Left() == old(Left())[1..]
      ensures old(Left()) != [] && old(Left())[0].Word? ==> IsWord(text, w) && Str(text, w) == old(Left())[0].w
    {
      SkipWhite();
      var q := s;
      if s == |text| {
        return '\0', Span(q, s);
      }
      ret := text[s];
      if text[s] == '>' {
        s := s + 1;
        if s < |text| && text[s] == '>' {
          LexAppend(text, q);
          ret := '+';
          s := s + 1;
        } else {
          LexSym(text, q);
        }
      } else if Symbol(text[s]) {
        LexSym(text, q);
        s := s + 1;
      } else {
        ret := 'a';
        while s < |text| && !White(text[s]) && !Symbol(text[s])
          invariant q <= s <= |text|
          invariant forall i :: q <= i < s ==> Plain(text[i])
          invariant s == q ==> Plain(text[s])
        {
          s := s + 1;
        }
        LexPlain(text, Span(q, s));
      }
      w := Span(q, s);
      SkipWhite();
    }

    method Peek(toks: string) returns (found: bool)
      requires s <= |text|
      modifies this
      ensures old(s) <= s <= |text| && Left() == old(Left())
      ensures s == |text| <==> Left() == []
      ensures found <==> Left() != [] && Lead(Left()[0]) in toks
    {
      SkipWhite();
      if s == |text| {
        return false;
      }
      LeadAt(text, s);
      return text[s] in toks;
    }

    /** The next token has the form the lexer gives it. */
    lemma NextGood()
      requires Valid()
      ensures Left() != [] ==> RoundTrip.GoodTok(Left()[0])
    {
      RoundTrip.LexGood(text[s..]);
    }

    /** parseredirs: the redirections at the cursor, as far as they go; it panics exactly at an arrow without a file. */
    method ParseRedirs(got: seq<Target<Span>>) returns (r: RedirResult)
      requires Valid() && AllTargets(text, got)
      modifies this
      ensures Valid()
      ensures RedirsAgree(text, r, Left(), Arrows(Files(text, got), old(Left())))
      ensures r.Got? ==>
                exists more :: Syntax.Redirected(old(Left()), more, Left()) && Files(text, r.targets) == Files(text, got) + more
      ensures r.Got? ==> Left() == [] || !IsArrow(Left()[0])
      ensures r.Refused? ==> exists more, rest :: Syntax.Redirected(old(Left()), more, rest) && Syntax.Dangling(rest)
    {
      ghost var more, rest := Syntax.ArrowsAre(Files(text, got), Left());
      r := ReadRedirs(got);
    }

    method ReadRedirs(got: seq<Target<Span>>) returns (r: RedirResult)
      requires Valid() && AllTargets(text, got)
      modifies this
      ensures Valid()
      ensures RedirsAgree(text, r, Left(), Arrows(Files(text, got), old(Left())))
    {
      var rs := got;
      while true
        invariant Valid() && AllTargets(text, rs)
        invariant Arrows(Files(text, got), old(Left())) == Arrows(Files(text, rs), Left())
        decreases |Left()|
      {
        NextGood();
        var more := Peek("<>");
        if !more {
          return Got(rs);
        }
        ghost var ts := Left();
        var ok, target := ReadRedir();
        if !ok {
          return Refused(MissingFile);
        }
        ghost var before := rs;
        rs := rs + [target];
        assert Files(text, rs) == Files(text, before) + [TargetOf(ts[0], ts[1].w)];
      }
    }

    /** One arrow and its file. */
    method ReadRedir() returns (ok: bool, target: Target<Span>)
      requires Valid() && Left() != [] && IsArrow(Left()[0])
      modifies this
      ensures Valid() && |Left()| < |old(Left())|
      ensures ok <==> |old(Left())| >= 2 && old(Left())[1].Word?
      ensures ok ==>
                && Left() == old(Left())[2..] && IsWord(text, target.file)
                && Target(Str(text, target.file), target.mode, target.fd) == TargetOf(old(Left())[0], old(Left())[1].w)
    {
      ghost var ts := Left();
      NextGood();
      var tok, _ := GetToken();
      NextGood();
      var kind, w := GetToken();
      ok := kind == 'a';
      target := if tok == '<' then Target(w, O_RDONLY, 0) else Target(w, O_WRONLY + O_CREATE, 1);
      if ok {
        assert ts[1..][0] == ts[1] && ts[1..][1..] == ts[2..];
      }
    }

    method ParseBlock() returns (r: Result)
      requires Valid() && Starts(Left(), '(')
      modifies this
      ensures Valid()
      ensures Agrees(text, r, Left(), Block(old(Left())))
      decreases |Left()|, 0
    {
      var _, _ := GetToken();
      r := ParseLine();
      if r.Panicked? {
        return;
      }
      NextGood();
      var closed := Peek(")");
      if !closed {
        return Panicked(MissingParen);
      }
      var _, _ := GetToken();
      var rs := ParseRedirs([]);
      if rs.Refused? {
        return Panicked(rs.why);
      }
      WrapImage(text, r.cmd, rs.targets);
      return Done(Wrap(r.cmd, rs.targets));
    }

    method ParseExec() returns (r: Result)
      requires Valid()
      modifies this
      ensures Valid()
      ensures Agrees(text, r, Left(), Simple(old(Left())))
      decreases |Left()|, 1
    {
      NextGood();
      var block := Peek("(");
      if block {
        r := ParseBlock();
        return;
      }
      var rs := ParseRedirs([]);
      if rs.Refused? {
        return Panicked(rs.why);
      }
      r := ParseArgs(rs.targets);
    }

    /** The argument loop of parseexec. */
    method ParseArgs(targets: seq<Target<Span>>) returns (r: Result)
      requires Valid() && AllTargets(text, targets)
      modifies this
      ensures Valid()
      ensures Agrees(text, r, Left(), Words([], Files(text, targets), old(Left())))
    {
      var args: seq<Span> := [];
      var rs := targets;
      while true
        invariant Valid() && AllTargets(text, rs) && AllWords(text, args) && |args| < MAXARGS
        invariant Words([], Files(text, targets), old(Left())) == Words(Strs(text, args), Files(text, rs), Left())
        decreases |Left()|
      {
        var step := ParseArg(args, rs);
        match step {
          case Stop => break;
          case Bad(why) => return Panicked(why);
          case More(args', rs') => args, rs := args', rs';
        }
      }
      WrapImage(text, Exec(args), rs);
      return Done(Wrap(Exec(args), rs));
    }

    /** One turn of that loop. */
    method ParseArg(args: seq<Span>, rs: seq<Target<Span>>) returns (r: ArgStep)
      requires Valid() && AllTargets(text, rs) && AllWords(text, args) && |args| < MAXARGS
      modifies this
      ensures Valid()
      ensures r.Stop? ==> Left() == old(Left()) && EndsExec(Left())
      ensures r.Bad? ==> Words(Strs(text, args), Files(text, rs), old(Left())) == Fail(r.why)
      ensures r.More? ==>
                && |r.args| < MAXARGS && AllWords(text, r.args) && AllTargets(text, r.targets)
                && |Left()| < |old(Left())|
                && Words(Strs(text, args), Files(text, rs), old(Left())) == Words(Strs(text, r.args), Files(text, r.targets), Left())
    {
      var next := NextWord();
      match next {
        case NoMore => return Stop;
        case NotWord => return Bad(Syntax);
        case AWord(_) =>
      }
      var more := args + [next.w];
      assert Strs(text, more) == Strs(text, args) + [Str(text, next.w)];
      if |more| >= MAXARGS {
        return Bad(TooManyArgs);
      }
      var targets := ParseRedirs(rs);
      if targets.Refused? {
        return Bad(targets.why);
      }
      return More(more, targets.targets);
    }

    /** The tests at the head of the loop. */
    method NextWord() returns (r: WordStep)
      requires Valid()
      modifies this
      ensures Valid()
      ensures r.NoMore? ==> Left() == old(Left()) && EndsExec(Left())
      ensures !r.NoMore? ==> !EndsExec(old(Left()))
      ensures r.NotWord? ==> !old(Left())[0].Word?
      ensures r.AWord? ==> IsWord(text, r.w) && old(Left())[0] == Word(Str(text, r.w)) && Left() == old(Left())[1..]
    {
      NextGood();
      var stop := Peek("|)&;");
      if stop {
        return NoMore;
      }
      var tok, w := GetToken();
      if tok == '\0' {
        return NoMore;
      }
      return if tok == 'a' then AWord(w) else NotWord;
    }

    method ParsePipe() returns (r: Result)
      requires Valid()
      modifies this
      ensures Valid()
      ensures Agrees(text, r, Left(), Pipeline(old(Left())))
      decreases |Left()|, 2
    {
      r := ParseExec();
      if r.Panicked? {
        return;
      }
      NextGood();
      var more := Peek("|");
      if more {
        var _, _ := GetToken();
        var right := ParsePipe();
        if right.Panicked? {
          return right;
        }
        r := Done(Pipe(r.cmd, right.cmd));
      }
    }

    method ParseLine() returns (r: Result)
      requires Valid()
      modifies this
      ensures Valid()
      ensures Agrees(text, r, Left(), Line(old(Left())))
      decreases |Left()|, 3
    {
      r := ParsePipe();
      if r.Panicked? {
        return;
      }
      var c := ParseBacks(r.cmd);
      r := Done(c);
      NextGood();
      var more := Peek(";");
      if more {
        var _, _ := GetToken();
        var right := ParseLine();
        if right.Panicked? {
          return right;
        }
        r := Done(List(r.cmd, right.cmd));
      }
    }

    /** The loop over ampersands in parseline. */
    method ParseBacks(c: Cmd<Span>) returns (r: Cmd<Span>)
      requires Valid() && Spans(text, c)
      modifies this
      ensures Valid() && Spans(text, r)
      ensures Backs(Image(text, c), old(Left())) == Ok(Image(text, r), Left())
    {
      r := c;
      while true
        invariant Valid() && Spans(text, r)
        invariant Backs(Image(text, c), old(Left())) == Backs(Image(text, r), Left())
        decreases |Left()|
      {
        NextGood();
        var more := Peek("&");
        if !more {
          break;
        }
        var _, _ := GetToken();
        r := Back(r);
      }
    }

    /** parsecmd up to the NUL termination. */
    method ParseCmd() returns (r: Result)
      requires Valid() && s == 0
      modifies this
      ensures Valid()
      ensures Agrees(text, r, [], Command(text))
      ensures r.Done? ==> Syntax.Means(text, Image(text, r.cmd))
      ensures r.Panicked? ==> forall t :: !Syntax.Written(text, t)
    {
      r := ParseWhole();
      Syntax.CommandIs(text, if r.Done? then Image(text, r.cmd) else Exec([]));
    }

    method ParseWhole() returns (r: Result)
      requires Valid() && s == 0
      modifies this
      ensures Valid()
      ensures Agrees(text, r, [], Command(text))
    {
      assert text[0..] == text;
      r := ParseLine();
      if r.Panicked? {
        return;
      }
      var _ := Peek("");
      if s != |text| {
        return Panicked(Panic.Syntax);
      }
    }
  }

  lemma LeadAt(text: string, s: nat)
    requires s < |text| && !White(text[s])
    ensures Lex(text[s..]) != [] && Lead(Lex(text[s..])[0]) == text[s]
  {
    var t := text[s..];
    assert t[0] == text[s];
    if !Symbol(t[0]) {
      assert WordLen(t) > 0;
    }
  }

  // ---- C strings in place ----

  /** The C string that starts at q. */
  function CString(b: string, q: nat): string
    decreases |b| - q
  {
    if q >= |b| || b[q] == '\0' then [] else [b[q]] + CString(b, q + 1)
  }

  /** The buffer holds the line and its final NUL, and any other change has put a NUL on a delimiter. */
  predicate Cut(text: string, b: string) {
    && |b| > |text| && b[|text|] == '\0'
    && (forall i :: 0 <= i < |text| ==> b[i] == text[i] || (b[i] == '\0' && !Plain(text[i])))
  }

  /** Every word of the command is followed by a NUL. */
  predicate Ended(b: string, c: Cmd<Span>) {
    match c
    case Exec(args) => forall i :: 0 <= i < |args| ==> EndedAt(b, args[i])
    case Redir(x, file, _, _) => EndedAt(b, file) && Ended(b, x)
    case Pipe(l, r) => Ended(b, l) && Ended(b, r)
    case List(l, r) => Ended(b, l) && Ended(b, r)
    case Back(x) => Ended(b, x)
  }

  predicate EndedAt(b: string, w: Span) {
    w.eq < |b| && b[w.eq] == '\0'
  }

  /** The command as exec and open will read it from the buffer. */
  function InBuffer(b: string, c: Cmd<Span>): Cmd<string> {
    match c
    case Exec(args) => Exec(seq(|args|, i requires 0 <= i < |args| => CString(b, args[i].q)))
    case Redir(x, file, mode, fd) => Redir(InBuffer(b, x), CString(b, file.q), mode, fd)
    case Pipe(l, r) => Pipe(InBuffer(b, l), InBuffer(b, r))
    case List(l, r) => List(InBuffer(b, l), InBuffer(b, r))
    case Back(x) => Back(InBuffer(b, x))
  }

  lemma {:induction false} CStringIs(text: string, b: string, w: Span, q: nat)
    requires RoundTrip.NoNul(text) && Cut(text, b) && IsWord(text, w) && EndedAt(b, w) && w.q <= q <= w.eq
    ensures CString(b, q) == text[q..w.eq]
    decreases w.eq - q
  {
    if q < w.eq {
      CStringIs(text, b, w, q + 1);
      assert b[q] == text[q] && text[q..w.eq] == [text[q]] + text[q + 1..w.eq];
    }
  }

  /** In a cut buffer every word of the command is a C string of its own. */
  lemma {:induction false} InBufferIs(text: string, b: string, c: Cmd<Span>)
    requires RoundTrip.NoNul(text) && Cut(text, b) && Spans(text, c) && Ended(b, c)
    ensures InBuffer(b, c) == Image(text, c)
  {
    match c
    case Exec(args) =>
      forall i | 0 <= i < |args| ensures CString(b, args[i].q) == Str(text, args[i]) {
        assert EndedAt(b, args[i]);
        CStringIs(text, b, args[i], args[i].q);
      }
      assert InBuffer(b, c).args == Strs(text, args);
    case Redir(x, file, _, _) =>
      CStringIs(text, b, file, file.q);
      InBufferIs(text, b, x);
    case Pipe(l, r) =>
      InBufferIs(text, b, l);
      InBufferIs(text, b, r);
    case List(l, r) =>
      InBufferIs(text, b, l);
      InBufferIs(text, b, r);
    case Back(x) => InBufferIs(text, b, x);
  }

  /** The NULs of b are NULs of d. */
  predicate MoreNuls(b: string, d: string) {
    |b| == |d| && forall i :: 0 <= i < |b| && b[i] == '\0' ==> d[i] == '\0'
  }

  lemma {:induction false} EndedMore(b: string, d: string, c: Cmd<Span>)
    requires Ended(b, c) && MoreNuls(b, d)
    ensures Ended(d, c)
  {
    match c
    case Exec(args) =>
      forall i | 0 <= i < |args| ensures EndedAt(d, args[i]) { assert EndedAt(b, args[i]); }
    case Redir(x, _, _, _) => EndedMore(b, d, x);
    case Pipe(l, r) =>
      EndedMore(b, d, l);
      EndedMore(b, d, r);
    case List(l, r) =>
      EndedMore(b, d, l);
      EndedMore(b, d, r);
    case Back(x) => EndedMore(b, d, x);
  }

  method NulTerminate(buf: array<char>, c: Cmd<Span>, ghost text: string)
    requires Cut(text, buf[..]) && Spans(text, c)
    modifies buf
    ensures Cut(text, buf[..]) && Ended(buf[..], c) && MoreNuls(old(buf[..]), buf[..])
    decreases c
  {
    match c
    case Exec(args) =>
      for i := 0 to |args|
        invariant Cut(text, buf[..]) && MoreNuls(old(buf[..]), buf[..])
        invariant forall j :: 0 <= j < i ==> EndedAt(buf[..], args[j])
      {
        buf[args[i].eq] := '\0';
      }
    case Redir(x, file, _, _) =>
      NulTerminate(buf, x, text);
      ghost var b := buf[..];
      buf[file.eq] := '\0';
      EndedMore(b, buf[..], x);
    case Pipe(l, r) =>
      NulTerminate(buf, l, text);
      ghost var b := buf[..];
      NulTerminate(buf, r, text);
      EndedMore(b, buf[..], l);
    case List(l, r) =>
      NulTerminate(buf, l, text);
      ghost var b := buf[..];
      NulTerminate(buf, r, text);
      EndedMore(b, buf[..], l);
    case Back(x) =>
      NulTerminate(buf, x, text);
  }

  method Strlen(buf: array<char>) returns (n: nat)
    requires exists i :: 0 <= i < buf.Length && buf[i] == '\0'
    ensures n < buf.Length && buf[n] == '\0' && RoundTrip.NoNul(buf[..n])
  {
    n := 0;
    while buf[n] != '\0'
      invariant n < buf.Length && RoundTrip.NoNul(buf[..n])
      invariant exists i :: n <= i < buf.Length && buf[i] == '\0'
      decreases buf.Length - n
    {
      n := n + 1;
    }
  }

  /** parsecmd: afterwards the words of the command are C strings in the buffer, and they are what the grammar says. */
  method ParseBuffer(buf: array<char>) returns (r: Result, n: nat)
    requires exists i :: 0 <= i < buf.Length && buf[i] == '\0'
    modifies buf
    ensures n < buf.Length && old(buf[n]) == '\0' && RoundTrip.NoNul(old(buf[..n]))
    ensures r.Done? ==> Command(old(buf[..n])) == Ok(InBuffer(buf[..], r.cmd), []) && Syntax.Means(old(buf[..n]), InBuffer(buf[..], r.cmd))
    ensures r.Panicked? ==> Command(old(buf[..n])) == Fail(r.why) && buf[..] == old(buf[..])
    ensures r.Panicked? ==> forall t :: !Syntax.Written(old(buf[..n]), t)
  {
    n := Strlen(buf);
    var text := buf[..n];
    var parser := new Parser(text);
    r := parser.ParseCmd();
    if r.Done? {
      NulTerminate(buf, r.cmd, text);
      InBufferIs(text, buf[..], r.cmd);
    }
  }

  /** parsecmd on a printed command: the buffer then holds the words of that very command. */
  method ParsePrinted(buf: array<char>, ghost c: Cmd<string>) returns (r: Result)
    requires Good(c) && buf[..] == Print(c) + ['\0']
    modifies buf
    ensures r.Done? && InBuffer(buf[..], r.cmd) == c
  {
    ghost var line := Print(c);
    RoundTrip.OpenGood(c);
    RoundTrip.RenderNoNul(Open(c));
    RoundTrip.ParsePrint(c);
    ghost var b := buf[..];
    assert b[|line|] == '\0' && b[..|line|] == line;
    assert buf[|line|] == '\0';
    var n;
    r, n := ParseBuffer(buf);
    assert n == |line|;
  }
}
