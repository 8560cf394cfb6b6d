/**
 The shell's command language (user/sh.c) on values: the lexer, the grammar its recursive-descent
 parser accepts, and a canonical printing. Parsing a printed command gives the command back.
 */
module Grammar {

  const MAXARGS: nat := 10
  const O_RDONLY: nat := 0
  const O_WRONLY: nat := 1
  const O_CREATE: nat := 0x200

  /** A command tree; T is what stands for a word. */
  datatype Cmd<T> =
    | Exec(args: seq<T>)
    | Redir(cmd: Cmd<T>, file: T, mode: nat, fd: nat)
    | Pipe(left: Cmd<T>, right: Cmd<T>)
    | List(left: Cmd<T>, right: Cmd<T>)
    | Back(cmd: Cmd<T>)

  datatype Panic = Syntax | MissingFile | MissingParen | TooManyArgs

  // ---- Tokens ----

  datatype Tok = Sym(c: char) | Append | Word(w: string)

  predicate White(c: char) {
    c == ' ' || c == '\t' || c == '\r' || c == '\n' || c == '\U{0B}'
  }

  predicate Symbol(c: char) {
    c == '<' || c == '|' || c == '>' || c == '&' || c == ';' || c == '(' || c == ')'
  }

  predicate Plain(c: char) {
    !White(c) && !Symbol(c)
  }

  /** The length of the word at the front of t. */
  function WordLen(t: string): (n: nat)
    ensures n <= |t|
    ensures forall i :: 0 <= i < n ==> Plain(t[i])
    ensures n < |t| ==> !Plain(t[n])
  {
    if t == [] || !Plain(t[0]) then 0 else 1 + WordLen(t[1..])
  }

  function Lex(t: string): (ts: seq<Tok>)
    decreases |t|
  {
    if t == [] then []
    else if White(t[0]) then Lex(t[1..])
    else if t[0] == '>' && |t| > 1 && t[1] == '>' then [Append] + Lex(t[2..])
    else if Symbol(t[0]) then [Sym(t[0])] + Lex(t[1..])
    else [Word(t[..WordLen(t)])] + Lex(t[WordLen(t)..])
  }

  // ---- The grammar ----

  datatype Parsed = Ok(cmd: Cmd<string>, rest: seq<Tok>) | Fail(why: Panic)

  /** A redirection: where to, how to open it, and which descriptor. */
  datatype Target<T> = Target(file: T, mode: nat, fd: nat)

  datatype Targets = Some(targets: seq<Target<string>>, rest: seq<Tok>) | None(why: Panic)

  predicate Starts(ts: seq<Tok>, c: char) {
    ts != [] && ts[0] == Sym(c)
  }

  predicate IsArrow(t: Tok) {
    t == Sym('<') || t == Sym('>') || t == Append
  }

  predicate EndsExec(ts: seq<Tok>) {
    ts == [] || Starts(ts, '|') || Starts(ts, ')') || Starts(ts, '&') || Starts(ts, ';')
  }

  function TargetOf(arrow: Tok, file: string): Target<string> {
    if arrow == Sym('<') then Target(file, O_RDONLY, 0) else Target(file, O_WRONLY + O_CREATE, 1)
  }

  /** The redirections that follow one another at the front of ts, after those already read. */
  function Arrows(got: seq<Target<string>>, ts: seq<Tok>): (r: Targets)
    ensures r.Some? ==> |r.rest| <= |ts|
    decreases |ts|
  {
    if ts == [] || !IsArrow(ts[0]) then Some(got, ts)
    else if |ts| < 2 || !ts[1].Word? then None(MissingFile)
    else Arrows(got + [TargetOf(ts[0], ts[1].w)], ts[2..])
  }

  /** Redirections applied to a command, the first innermost. */
  function Wrap<T>(c: Cmd<T>, rs: seq<Target<T>>): Cmd<T> {
    if rs == [] then c
    else var r := rs[|rs| - 1]; Redir(Wrap(c, rs[..|rs| - 1]), r.file, r.mode, r.fd)
  }

  /** The words and redirections of a simple command. */
  function Words(args: seq<string>, rs: seq<Target<string>>, ts: seq<Tok>): (r: Parsed)
    ensures r.Ok? ==> |r.rest| <= |ts|
    decreases |ts|
  {
    if EndsExec(ts) then Ok(Wrap(Exec(args), rs), ts)
    else if !ts[0].Word? then Fail(Syntax)
    else if |args| + 1 >= MAXARGS then Fail(TooManyArgs)
    else
      match Arrows(rs, ts[1..])
      case None(why) => Fail(why)
      case Some(rs', rest) => Words(args + [ts[0].w], rs', rest)
  }

  function Block(ts: seq<Tok>): (r: Parsed)
    requires Starts(ts, '(')
    ensures r.Ok? ==> |r.rest| <= |ts|
    decreases |ts|, 0
  {
    match Line(ts[1..])
    case Fail(why) => Fail(why)
    case Ok(c, rest) =>
      if !Starts(rest, ')') then Fail(MissingParen)
      else
        match Arrows([], rest[1..])
        case None(why) => Fail(why)
        case Some(rs, rest') => Ok(Wrap(c, rs), rest')
  }

  function Simple(ts: seq<Tok>): (r: Parsed)
    ensures r.Ok? ==> |r.rest| <= |ts|
    decreases |ts|, 1
  {
    if Starts(ts, '(') then Block(ts)
    else
      match Arrows([], ts)
      case None(why) => Fail(why)
      case Some(rs, rest) => Words([], rs, rest)
  }

  function Pipeline(ts: seq<Tok>): (r: Parsed)
    ensures r.Ok? ==> |r.rest| <= |ts|
    decreases |ts|, 2
  {
    match Simple(ts)
    case Fail(why) => Fail(why)
    case Ok(c, rest) =>
      if !Starts(rest, '|') then Ok(c, rest)
      else
        match Pipeline(rest[1..])
        case Fail(why) => Fail(why)
        case Ok(d, rest') => Ok(Pipe(c, d), rest')
  }

  /** One Back for every ampersand at the front of ts. */
  function Backs(c: Cmd<string>, ts: seq<Tok>): (r: Parsed)
    ensures r.Ok? && |r.rest| <= |ts|
    decreases |ts|
  {
    if Starts(ts, '&') then Backs(Back(c), ts[1..]) else Ok(c, ts)
  }

  function Head(ts: seq<Tok>): (r: Parsed)
    ensures r.Ok? ==> |r.rest| <= |ts|
    decreases |ts|, 3
  {
    match Pipeline(ts)
    case Fail(why) => Fail(why)
    case Ok(c, rest) => Backs(c, rest)
  }

  function Line(ts: seq<Tok>): (r: Parsed)
    ensures r.Ok? ==> |r.rest| <= |ts|
    decreases |ts|, 4
  {
    match Head(ts)
    case Fail(why) => Fail(why)
    case Ok(c, rest) =>
      if !Starts(rest, ';') then Ok(c, rest)
      else
        match Line(rest[1..])
        case Fail(why) => Fail(why)
        case Ok(d, rest') => Ok(List(c, d), rest')
  }

  /** parsecmd on a whole line: nothing may be left over. */
  function Command(t: string): Parsed {
    var r := Line(Lex(t));
    if r.Ok? && r.rest != [] then Fail(Syntax) else r
  }

  // ---- Canonical printing ----

  predicate GoodWord(w: string) {
    w != [] && forall i :: 0 <= i < |w| ==> Plain(w[i]) && w[i] != '\0'
  }

  predicate GoodTarget(r: Target<string>) {
    GoodWord(r.file) && ((r.mode == O_RDONLY && r.fd == 0) || (r.mode == O_WRONLY + O_CREATE && r.fd == 1))
  }

  /** The commands the grammar can describe. */
  predicate Good(c: Cmd<string>) {
    match c
    case Exec(args) => |args| < MAXARGS && forall i :: 0 <= i < |args| ==> GoodWord(args[i])
    case Redir(x, file, mode, fd) => GoodTarget(Target(file, mode, fd)) && Good(x)
    case Pipe(l, r) => Good(l) && Good(r)
    case List(l, r) => Good(l) && Good(r)
    case Back(x) => Good(x)
  }

  function Arrow(r: Target<string>): seq<Tok> {
    [Sym(if r.fd == 0 then '<' else '>'), Word(r.file)]
  }

  function WordToks(args: seq<string>): seq<Tok> {
    if args == [] then [] else [Word(args[0])] + WordToks(args[1..])
  }

  /** A command as a whole line. */
  function Open(c: Cmd<string>): seq<Tok>
    decreases c, 0
  {
    match c
    case Exec(args) => WordToks(args)
    case Redir(x, file, mode, fd) => AsSimple(x) + Arrow(Target(file, mode, fd))
    case Pipe(l, r) => AsSimple(l) + [Sym('|')] + AsPipeline(r)
    case List(l, r) => AsHead(l) + [Sym(';')] + Open(r)
    case Back(x) => AsHead(x) + [Sym('&')]
  }

  function Paren(c: Cmd<string>): seq<Tok>
    decreases c, 1
  {
    [Sym('(')] + Open(c) + [Sym(')')]
  }

  /** A command where the grammar wants a head, a pipeline or a simple command. */
  function AsHead(c: Cmd<string>): seq<Tok>
    decreases c, 2
  {
    if c.List? then Paren(c) else Open(c)
  }

  function AsPipeline(c: Cmd<string>): seq<Tok>
    decreases c, 2
  {
    if c.List? || c.Back? then Paren(c) else Open(c)
  }

  function AsSimple(c: Cmd<string>): seq<Tok>
    decreases c, 2
  {
    if c.List? || c.Back? || c.Pipe? then Paren(c) else Open(c)
  }

  /** Every token followed by a space. */
  function Render(ts: seq<Tok>): string {
    if ts == [] then []
    else
      (match ts[0]
       case Sym(c) => [c]
       case Append => ">>"
       case Word(w) => w) + " " + Render(ts[1..])
  }

  function Print(c: Cmd<string>): string {
    Render(Open(c))
  }
}
