/** The command parser of user/sh.c.  The input is a C string: its characters before
    the NUL.  A word is the pair of places where it starts and ends. */
module ShellModel {

  const MAXARGS := 10
  const O_RDONLY := 0
  const O_WRONLY := 1
  const O_CREATE := 0x200
  const O_TRUNC := 0x400

  datatype Span = Span(q: nat, eq: nat)

  /** Command trees over words of type T. */
  datatype Cmd<T> =
    | Exec(argv: seq<T>)
    | Redir(cmd: Cmd<T>, file: T, mode: nat, fd: nat)
    | Pipe(left: Cmd<T>, right: Cmd<T>)
    | List(left: Cmd<T>, right: Cmd<T>)
    | Back(cmd: Cmd<T>)

  /** The result of a parsing function: a tree and the new cursor, or a call of panic. */
  datatype Parsed = Ok(cmd: Cmd<Span>, at: nat) | Panic(msg: string)

  predicate White(c: char) { c in " \t\r\n\U{0B}" }
  predicate Symbol(c: char) { c in "<|>&;()" }
  predicate WordChar(c: char) { !White(c) && !Symbol(c) }

  // ---- tokens -----------------------------------------------------------------------

  /** The first place at or after p that is not white space. */
  function Skip(s: string, p: nat): (r: nat)
    requires p <= |s|
    ensures p <= r <= |s| && (r < |s| ==> !White(s[r])) && forall i :: p <= i < r ==> White(s[i])
    decreases |s| - p
  {
    if p < |s| && White(s[p]) then Skip(s, p + 1) else p
  }

  /** The end of the word characters that start at p. */
  function WordEnd(s: string, p: nat): (r: nat)
    requires p <= |s|
    ensures p <= r <= |s| && (r < |s| ==> !WordChar(s[r])) && forall i :: p <= i < r ==> WordChar(s[i])
    decreases |s| - p
  {
    if p < |s| && WordChar(s[p]) then WordEnd(s, p + 1) else p
  }

  /** kind is what gettoken returns: 0 at the end, 'a' for a word, '+' for >>. */
  datatype Token = Token(kind: char, span: Span, next: nat)

  function GetTok(s: string, p: nat): (t: Token)
    requires p <= |s|
    ensures p <= t.span.q <= t.span.eq <= t.next <= |s|
    ensures t.kind != '\0' ==> t.span.q < t.span.eq
  {
    var q := Skip(s, p);
    if q == |s| then Token('\0', Span(q, q), q)
    else
      var (kind, eq) :=
        if s[q] in "|();&<" then (s[q], q + 1)
        else if s[q] == '>' then (if q + 1 < |s| && s[q + 1] == '>' then ('+', q + 2) else ('>', q + 1))
        else ('a', WordEnd(s, q));
      Token(kind, Span(q, eq), Skip(s, eq))
  }

  predicate PeekAt(s: string, p: nat, toks: string)
    requires p <= |s|
  {
    var q := Skip(s, p);
    q < |s| && s[q] in toks
  }

  /** A maximal run of word characters. */
  predicate IsWord(s: string, w: Span) {
    && w.q < w.eq <= |s| && (w.eq < |s| ==> !WordChar(s[w.eq]))
    && forall i :: w.q <= i < w.eq ==> WordChar(s[i])
  }

  /** Every word of the tree is one of s. */
  predicate WordsOk(s: string, c: Cmd<Span>) {
    match c
    case Exec(argv) => forall w :: w in argv ==> IsWord(s, w)
    case Redir(cmd, file, _, _) => WordsOk(s, cmd) && IsWord(s, file)
    case Pipe(l, r) => WordsOk(s, l) && WordsOk(s, r)
    case List(l, r) => WordsOk(s, l) && WordsOk(s, r)
    case Back(cmd) => WordsOk(s, cmd)
  }

  // ---- the parser -------------------------------------------------------------------

  datatype Rd = Rd(file: Span, mode: nat, fd: nat)
  datatype Redirs = Rds(list: seq<Rd>, at: nat) | NoFile

  predicate RdsOk(s: string, list: seq<Rd>) { forall r :: r in list ==> IsWord(s, r.file) }

  /** How parseredirs opens the file after a token of the given kind. */
  function RdFor(kind: char, file: Span): Rd {
    if kind == '<' then Rd(file, O_RDONLY, 0)
    else if kind == '>' then Rd(file, O_WRONLY + O_CREATE + O_TRUNC, 1)
    else Rd(file, O_WRONLY + O_CREATE, 1)
  }

  /** The redirections at p, and the cursor after them. */
  function ParseRedirs(s: string, p: nat): (r: Redirs)
    requires p <= |s|
    ensures r.Rds? ==> p <= r.at <= |s| && RdsOk(s, r.list)
    decreases |s| - p
  {
    if !PeekAt(s, p, "<>") then Rds([], Skip(s, p))
    else
      var tok := GetTok(s, p);
      var file := GetTok(s, tok.next);
      if file.kind != 'a' then NoFile
      else
        var rest := ParseRedirs(s, file.next);
        if rest.NoFile? then NoFile else Rds([RdFor(tok.kind, file.span)] + rest.list, rest.at)
  }

  /** Each redirection wraps what came before it. */
  function Wrap(c: Cmd<Span>, list: seq<Rd>): Cmd<Span>
    decreases |list|
  {
    if list == [] then c
    else
      var r := list[|list| - 1];
      Redir(Wrap(c, list[..|list| - 1]), r.file, r.mode, r.fd)
  }

  lemma {:induction false} WrapWords(s: string, c: Cmd<Span>, list: seq<Rd>)
    requires WordsOk(s, c) && RdsOk(s, list)
    ensures WordsOk(s, Wrap(c, list))
    decreases |list|
  {
    if list != [] { WrapWords(s, c, list[..|list| - 1]); }
  }

  datatype Args = Args(words: seq<Span>, list: seq<Rd>, at: nat) | ArgsPanic(msg: string)

  /** The words of a simple command, with argc of them already read, and the
      redirections between them. */
  function ParseArgs(s: string, p: nat, argc: nat): (r: Args)
    requires p <= |s|
    ensures r.Args? ==> p <= r.at <= |s| && RdsOk(s, r.list) && forall w :: w in r.words ==> IsWord(s, w)
    decreases |s| - p
  {
    if PeekAt(s, p, "|)&;") then Args([], [], Skip(s, p))
    else
      var tok := GetTok(s, p);
      if tok.kind == '\0' then Args([], [], tok.next)
      else if tok.kind != 'a' then ArgsPanic("syntax")
      else if argc + 1 >= MAXARGS then ArgsPanic("too many args")
      else
        var rs := ParseRedirs(s, tok.next);
        if rs.NoFile? then ArgsPanic("missing file for redirection")
        else
          var rest := ParseArgs(s, rs.at, argc + 1);
          if rest.ArgsPanic? then rest
          else Args([tok.span] + rest.words, rs.list + rest.list, rest.at)
  }

  function ParseSimple(s: string, p: nat): (r: Parsed)
    requires p <= |s|
    ensures r.Ok? ==> p <= r.at <= |s| && WordsOk(s, r.cmd)
  {
    var rs := ParseRedirs(s, p);
    if rs.NoFile? then Panic("missing file for redirection")
    else
      var args := ParseArgs(s, rs.at, 0);
      if args.ArgsPanic? then Panic(args.msg)
      else
        WrapWords(s, Exec(args.words), rs.list + args.list);
        Ok(Wrap(Exec(args.words), rs.list + args.list), args.at)
  }

  function ParseExec(s: string, p: nat): (r: Parsed)
    requires p <= |s|
    ensures r.Ok? ==> p <= r.at <= |s| && WordsOk(s, r.cmd)
    decreases |s| - p, 1
  {
    if PeekAt(s, p, "(") then ParseBlock(s, p) else ParseSimple(s, p)
  }

  function ParseBlock(s: string, p: nat): (r: Parsed)
    requires p <= |s|
    ensures r.Ok? ==> p <= r.at <= |s| && WordsOk(s, r.cmd)
    decreases |s| - p, 0
  {
    if !PeekAt(s, p, "(") then Panic("parseblock")
    else
      var line := ParseLine(s, GetTok(s, p).next);
      if line.Panic? then line
      else if !PeekAt(s, line.at, ")") then Panic("syntax - missing )")
      else
        var rs := ParseRedirs(s, GetTok(s, line.at).next);
        if rs.NoFile? then Panic("missing file for redirection")
        else
          WrapWords(s, line.cmd, rs.list);
          Ok(Wrap(line.cmd, rs.list), rs.at)
  }

  function ParsePipe(s: string, p: nat): (r: Parsed)
    requires p <= |s|
    ensures r.Ok? ==> p <= r.at <= |s| && WordsOk(s, r.cmd)
    decreases |s| - p, 2
  {
    var left := ParseExec(s, p);
    if left.Panic? || !PeekAt(s, left.at, "|") then left
    else
      var right := ParsePipe(s, GetTok(s, left.at).next);
      if right.Panic? then right else Ok(Pipe(left.cmd, right.cmd), right.at)
  }

  /** Any number of &. */
  function Backs(s: string, p: nat, c: Cmd<Span>): (r: Parsed)
    requires p <= |s| && WordsOk(s, c)
    ensures r.Ok? && p <= r.at <= |s| && WordsOk(s, r.cmd)
    decreases |s| - p
  {
    if PeekAt(s, p, "&") then Backs(s, GetTok(s, p).next, Back(c)) else Ok(c, Skip(s, p))
  }

  function ParseLine(s: string, p: nat): (r: Parsed)
    requires p <= |s|
    ensures r.Ok? ==> p <= r.at <= |s| && WordsOk(s, r.cmd)
    decreases |s| - p, 3
  {
    var first := ParsePipe(s, p);
    if first.Panic? then first
    else
      var left := Backs(s, first.at, first.cmd);
      if !PeekAt(s, left.at, ";") then left
      else
        var right := ParseLine(s, GetTok(s, left.at).next);
        if right.Panic? then right else Ok(List(left.cmd, right.cmd), right.at)
  }

  /** parsecmd() up to nulterminate. */
  function ParseAll(s: string): Parsed {
    var line := ParseLine(s, 0);
    if line.Ok? && Skip(s, line.at) != |s| then Panic("syntax") else line
  }

  // ---- the printer ---------------------------------------------------------------------

  predicate WordText(w: string) { w != "" && forall i :: 0 <= i < |w| ==> WordChar(w[i]) }

  /** The token that opens a file in the given mode. */
  function OpFor(mode: nat): string {
    if mode == O_RDONLY then "<" else if mode == O_WRONLY + O_CREATE + O_TRUNC then ">" else ">>"
  }

  /** The three ways of opening a file, each with its descriptor. */
  predicate OpensAs(mode: nat, fd: nat) {
    (mode, fd) in {(O_RDONLY, 0), (O_WRONLY + O_CREATE + O_TRUNC, 1), (O_WRONLY + O_CREATE, 1)}
  }

  function Joined(words: seq<string>): string {
    if words == [] then "" else if |words| == 1 then words[0] else words[0] + " " + Joined(words[1..])
  }

  /** The trees the shell builds: at most MAXARGS - 1 words to a command, and the three
      ways of opening a file. */
  predicate Printable(t: Cmd<string>) {
    match t
    case Exec(argv) => |argv| < MAXARGS && forall w :: w in argv ==> WordText(w)
    case Redir(c, file, mode, fd) =>
      && Printable(c) && WordText(file) && OpensAs(mode, fd)
    case Pipe(l, r) => Printable(l) && Printable(r)
    case List(l, r) => Printable(l) && Printable(r)
    case Back(c) => Printable(c)
  }

  /** Every command inside another is put in parentheses. */
  function Print(t: Cmd<string>): string {
    match t
    case Exec(argv) => Joined(argv)
    case Redir(c, file, mode, _) => "(" + Print(c) + ")" + OpFor(mode) + file
    case Pipe(l, r) => "(" + Print(l) + ")" + "|" + "(" + Print(r) + ")"
    case List(l, r) => "(" + Print(l) + ")" + ";" + "(" + Print(r) + ")"
    case Back(c) => "(" + Print(c) + ")" + "&"
  }

  function Text(s: string, w: Span): string
    requires IsWord(s, w)
  {
    s[w.q..w.eq]
  }

  /** The tree with its words read from s. */
  function Read(s: string, c: Cmd<Span>): Cmd<string>
    requires WordsOk(s, c)
  {
    match c
    case Exec(argv) => Exec(seq(|argv|, i requires 0 <= i < |argv| => assert argv[i] in argv; Text(s, argv[i])))
    case Redir(cmd, file, mode, fd) => Redir(Read(s, cmd), Text(s, file), mode, fd)
    case Pipe(l, r) => Pipe(Read(s, l), Read(s, r))
    case List(l, r) => List(Read(s, l), Read(s, r))
    case Back(cmd) => Back(Read(s, cmd))
  }

  // ---- parsing undoes printing -----------------------------------------------------------

  ghost predicate At(s: string, p: nat, x: string) {
    p + |x| <= |s| && s[p..p + |x|] == x
  }

  /** A command ends here: at the end of the input or before a closing parenthesis. */
  predicate Ends(s: string, p: nat) {
    p == |s| || (p < |s| && s[p] == ')')
  }

  /** Here stands a symbol, or the input ends. */
  predicate Stops(s: string, p: nat) {
    p == |s| || (p < |s| && Symbol(s[p]))
  }

  lemma AtParts(s: string, p: nat, x: string, y: string)
    requires At(s, p, x + y)
    ensures At(s, p, x) && At(s, p + |x|, y)
  {
    assert s[p..p + |x|] == s[p..p + |x + y|][..|x|];
    assert s[p + |x|..p + |x| + |y|] == s[p..p + |x + y|][|x|..];
  }

  lemma WordHere(s: string, p: nat, w: string)
    requires At(s, p, w) && WordText(w) && (p + |w| == |s| || !WordChar(s[p + |w|]))
    ensures GetTok(s, p) == Token('a', Span(p, p + |w|), Skip(s, p + |w|)) && IsWord(s, Span(p, p + |w|))
              && Text(s, Span(p, p + |w|)) == w
    ensures WordChar(s[p]) && Skip(s, p) == p
  {
    assert forall i :: p <= i < p + |w| ==> s[i] == w[i - p];
  }

  /** Nothing to redirect where no < or > stands. */
  lemma NoRedirs(s: string, p: nat)
    requires p <= |s| && (p < |s| ==> !White(s[p]) && s[p] !in "<>")
    ensures ParseRedirs(s, p) == Rds([], p)
  {
  }

  lemma ArgsEnd(s: string, p: nat, argc: nat)
    requires Ends(s, p)
    ensures ParseArgs(s, p, argc) == Args([], [], p)
  {
  }

  lemma ArgsStep(s: string, p: nat, argc: nat, w: Span, next: nat)
    requires p < |s| && WordChar(s[p]) && GetTok(s, p) == Token('a', w, next) && ParseRedirs(s, next) == Rds([], next)
    requires argc + 1 < MAXARGS && ParseArgs(s, next, argc + 1).Args? && ParseArgs(s, next, argc + 1).list == []
    ensures var rest := ParseArgs(s, next, argc + 1);
            ParseArgs(s, p, argc) == Args([w] + rest.words, [], rest.at)
  {
  }

  /** The place after the first word and the space behind it, if another word follows. */
  lemma WordThenRest(words: seq<string>, s: string, p: nat) returns (next: nat)
    requires words != [] && At(s, p, Joined(words)) && Ends(s, p + |Joined(words)|) && forall w :: w in words ==>
               WordText(w)
    ensures p < |s| && WordChar(s[p]) && p + |words[0]| <= |s|
    ensures GetTok(s, p) == Token('a', Span(p, p + |words[0]|), next) && IsWord(s, Span(p, p + |words[0]|))
    ensures Text(s, Span(p, p + |words[0]|)) == words[0] && ParseRedirs(s, next) == Rds([], next)
    ensures At(s, next, Joined(words[1..])) && next + |Joined(words[1..])| == p + |Joined(words)|
  {
    hide ParseRedirs; hide GetTok;
    var w := words[0];
    assert w in words;
    if |words| == 1 {
      next := p + |w|;
    } else {
      assert Joined(words) == w + (" " + Joined(words[1..]));
      AtParts(s, p, w, " " + Joined(words[1..]));
      AtParts(s, p + |w|, " ", Joined(words[1..]));
      next := p + |w| + 1;
      FirstOfJoined(words[1..], s, next);
      assert s[p + |w|] == ' ';
    }
    WordHere(s, p, w);
    NoRedirs(s, next);
  }

  lemma {:induction false} ArgsRound(words: seq<string>, s: string, p: nat, argc: nat)
    requires At(s, p, Joined(words)) && Ends(s, p + |Joined(words)|) && argc + |words| < MAXARGS
    requires forall w :: w in words ==> WordText(w)
    ensures var r := ParseArgs(s, p, argc);
            && r.Args? && r.list == [] && r.at == p + |Joined(words)| && |r.words| == |words|
            && forall i :: 0 <= i < |words| ==> IsWord(s, r.words[i]) && Text(s, r.words[i]) == words[i]
    decreases |words|
  {
    hide ParseArgs; hide GetTok; hide ParseRedirs; hide At; hide WordText; hide IsWord; hide WordChar; hide Ends;
    if words == [] {
      ArgsEnd(s, p, argc);
    } else {
      var next := WordThenRest(words, s, p);
      assert forall v :: v in words[1..] ==> v in words;
      ArgsRound(words[1..], s, next, argc + 1);
      ArgsStep(s, p, argc, Span(p, p + |words[0]|), next);
    }
  }

  lemma FirstOfJoined(words: seq<string>, s: string, p: nat)
    requires words != [] && At(s, p, Joined(words)) && forall w :: w in words ==> WordText(w)
    ensures p < |s| && WordChar(s[p])
  {
    assert words[0] in words;
    assert Joined(words)[0] == words[0][0];
    assert s[p] == s[p..p + |Joined(words)|][0];
  }

  /** A printed tree is empty or starts with ( or a word character. */
  lemma PrintStart(t: Cmd<string>)
    requires Printable(t)
    ensures Print(t) != "" ==> Print(t)[0] == '(' || WordChar(Print(t)[0])
  {
    if t.Exec? && t.argv != [] { assert t.argv[0] in t.argv; }
  }

  /** What ParsePipe has read is the whole line when the command ends there. */
  lemma LineEnds(s: string, p: nat, c: Cmd<Span>, at: nat)
    requires p <= |s| && ParsePipe(s, p) == Ok(c, at) && Ends(s, at)
    ensures ParseLine(s, p) == Ok(c, at)
  {
    hide ParsePipe;
    assert Skip(s, at) == at;
  }

  lemma PipeEnds(s: string, p: nat, c: Cmd<Span>, at: nat)
    requires p <= |s| && ParseExec(s, p) == Ok(c, at) && Stops(s, at) && (at < |s| ==> s[at] != '|')
    ensures ParsePipe(s, p) == Ok(c, at)
  {
    hide ParseExec;
    assert Skip(s, at) == at;
  }

  /** t has been read from p to at. */
  ghost predicate Round(t: Cmd<string>, s: string, p: nat, r: Parsed) {
    r.Ok? && r.at == p + |Print(t)| && WordsOk(s, r.cmd) && Read(s, r.cmd) == t
  }

  lemma SimpleRound(words: seq<string>, s: string, p: nat)
    requires Printable(Exec(words)) && At(s, p, Joined(words)) && Ends(s, p + |Joined(words)|)
    ensures Round(Exec(words), s, p, ParseLine(s, p))
  {
    hide ParseArgs; hide ParseLine; hide ParsePipe;
    ArgsRound(words, s, p, 0);
    var args := ParseArgs(s, p, 0);
    if words != [] { FirstOfJoined(words, s, p); }
    NoRedirs(s, p);
    assert ParseSimple(s, p) == Ok(Exec(args.words), args.at) by { assert args.list == []; }
    assert ParseExec(s, p) == ParseSimple(s, p);
    PipeEnds(s, p, Exec(args.words), args.at);
    LineEnds(s, p, Exec(args.words), args.at);
    assert Read(s, Exec(args.words)).argv == words;
  }

  /** A one-character token with no white space after it. */
  lemma SymbolHere(s: string, p: nat)
    requires p < |s| && s[p] in "|();&<" && (p + 1 < |s| ==> !White(s[p + 1]))
    ensures GetTok(s, p) == Token(s[p], Span(p, p + 1), p + 1) && Skip(s, p) == p
    ensures PeekAt(s, p, [s[p]])
  {
  }

  /** What ParseExec makes of "(" + Print(t) + ")" once t has been read. */
  lemma BlockRound(t: Cmd<string>, s: string, p: nat, c: Cmd<Span>, rs: Redirs)
    requires Printable(t) && At(s, p, "(" + Print(t) + ")")
    requires ParseLine(s, p + 1) == Ok(c, p + 1 + |Print(t)|) && Stops(s, p + 2 + |Print(t)|)
    requires rs == ParseRedirs(s, p + 2 + |Print(t)|) && rs.Rds?
    ensures ParseExec(s, p) == Ok(Wrap(c, rs.list), rs.at)
  {
    hide ParseLine; hide ParseRedirs; hide Wrap; hide GetTok; hide PeekAt; hide At; hide Print; hide Printable;
    Brackets(t, s, p);
    SymbolHere(s, p);
    SymbolHere(s, p + 1 + |Print(t)|);
  }

  /** A block with nothing behind it but a symbol that redirects nothing. */
  lemma PlainBlock(t: Cmd<string>, s: string, p: nat)
    requires Printable(t) && At(s, p, "(" + Print(t) + ")") && Round(t, s, p + 1, ParseLine(s, p + 1))
    requires var e := p + 2 + |Print(t)|; Stops(s, e) && (e < |s| ==> s[e] !in "<>")
    ensures ParseExec(s, p) == Ok(ParseLine(s, p + 1).cmd, p + 2 + |Print(t)|)
  {
    hide ParseLine; hide ParseExec; hide At;
    var e := p + 2 + |Print(t)|;
    NoRedirs(s, e);
    BlockRound(t, s, p, ParseLine(s, p + 1).cmd, Rds([], e));
  }

  /** A redirection token and its file, at the end of a command. */
  lemma RedirHere(s: string, p: nat, mode: nat, fd: nat, file: string)
    requires At(s, p, OpFor(mode) + file) && WordText(file) && Ends(s, p + |OpFor(mode)| + |file|)
    requires OpensAs(mode, fd)
    ensures var f := Span(p + |OpFor(mode)|, p + |OpFor(mode)| + |file|);
            IsWord(s, f) && Text(s, f) == file && ParseRedirs(s, p) == Rds([Rd(f, mode, fd)], f.eq) && s[p] in "<>"
  {
    hide ParseRedirs; hide GetTok; hide PeekAt; hide IsWord; hide At; hide Skip;
    var op := OpFor(mode);
    var q, eq := p + |op|, p + |op| + |file|;
    AtParts(s, p, op, file);
    WordHere(s, q, file);
    NoRedirs(s, eq);
    OpToken(s, p, op);
    RedirStep(s, p, GetTok(s, p), GetTok(s, q));
  }

  lemma OpToken(s: string, p: nat, op: string)
    requires op in {"<", ">", ">>"} && At(s, p, op) && p + |op| < |s| && WordChar(s[p + |op|])
    ensures var t := GetTok(s, p); t.kind == (if op == ">>" then '+' else op[0]) && t.next == p + |op|
    ensures PeekAt(s, p, "<>") && s[p] in "<>"
  {
  }

  lemma RedirStep(s: string, p: nat, op: Token, file: Token)
    requires p <= |s| && PeekAt(s, p, "<>") && op == GetTok(s, p) && file == GetTok(s, op.next) && file.kind == 'a'
    requires ParseRedirs(s, file.next) == Rds([], file.next)
    ensures ParseRedirs(s, p) == Rds([RdFor(op.kind, file.span)], file.next)
  {
  }

  lemma RedirRound(c: Cmd<string>, file: string, mode: nat, fd: nat, s: string, p: nat)
    requires Printable(Redir(c, file, mode, fd)) && At(s, p, Print(Redir(c, file, mode, fd)))
    requires Ends(s, p + |Print(Redir(c, file, mode, fd))|) && Round(c, s, p + 1, ParseLine(s, p + 1))
    ensures Round(Redir(c, file, mode, fd), s, p, ParseLine(s, p))
  {
    hide ParseLine; hide ParsePipe; hide ParseExec; hide ParseRedirs; hide At; hide IsWord; hide GetTok;
    var block, e := "(" + Print(c) + ")", p + 2 + |Print(c)|;
    var op := OpFor(mode);
    assert Print(Redir(c, file, mode, fd)) == block + (op + file);
    AtParts(s, p, block, op + file);
    RedirHere(s, e, mode, fd, file);
    var f := Span(e + |op|, e + |op| + |file|);
    var c' := ParseLine(s, p + 1).cmd;
    BlockRound(c, s, p, c', Rds([Rd(f, mode, fd)], f.eq));
    assert Wrap(c', [Rd(f, mode, fd)]) == Redir(c', f, mode, fd) by { assert [Rd(f, mode, fd)][..0] == []; }
    PipeEnds(s, p, Redir(c', f, mode, fd), f.eq);
    LineEnds(s, p, Redir(c', f, mode, fd), f.eq);
  }

  lemma BackRound(c: Cmd<string>, s: string, p: nat)
    requires Printable(c) && At(s, p, Print(Back(c))) && Ends(s, p + |Print(Back(c))|)
               && Round(c, s, p + 1, ParseLine(s, p + 1))
    ensures Round(Back(c), s, p, ParseLine(s, p))
  {
    hide ParsePipe; hide ParseExec; hide At; hide GetTok; hide PeekAt;
    var block, e := "(" + Print(c) + ")", p + 2 + |Print(c)|;
    assert Print(Back(c)) == block + "&";
    AtParts(s, p, block, "&");
    OneChar(s, e, '&');
    PlainBlock(c, s, p);
    var c' := ParseLine(s, p + 1).cmd;
    PipeEnds(s, p, c', e);
    SymbolHere(s, e);
    NoPeek(s, e + 1);
    assert Backs(s, e + 1, Back(c')) == Ok(Back(c'), e + 1);
    assert Backs(s, e, c') == Ok(Back(c'), e + 1);
  }

  lemma OneChar(s: string, p: nat, c: char)
    requires At(s, p, [c])
    ensures p < |s| && s[p] == c
  {
  }

  lemma NoPeek(s: string, p: nat)
    requires Ends(s, p)
    ensures Skip(s, p) == p && !PeekAt(s, p, "&") && !PeekAt(s, p, ";") && !PeekAt(s, p, "|")
  {
  }

  /** Two blocks with one character between them. */
  lemma TwoBlocks(l: Cmd<string>, r: Cmd<string>, op: char, s: string, p: nat, all: string)
    requires Printable(r) && At(s, p, all) && all == "(" + Print(l) + ")" + [op] + "(" + Print(r) + ")"
    ensures var e := p + 2 + |Print(l)|;
            && |all| == 5 + |Print(l)| + |Print(r)| && e + 1 < |s| && s[e] == op && s[e + 1] == '('
            && At(s, p, "(" + Print(l) + ")") && At(s, e + 1, "(" + Print(r) + ")")
  {
    hide At; hide Print; hide Printable;
    var left, right, e := "(" + Print(l) + ")", "(" + Print(r) + ")", p + 2 + |Print(l)|;
    assert all == left + ([op] + right);
    AtParts(s, p, left, [op] + right);
    AtParts(s, e, [op], right);
    OneChar(s, e, op);
    Brackets(r, s, e + 1);
  }

  /** ParsePipe goes on after a command that a | follows. */
  lemma PipeGoesOn(s: string, p: nat, l: Cmd<Span>, e: nat, r: Cmd<Span>, end: nat)
    requires p <= |s| && ParseExec(s, p) == Ok(l, e) && e + 1 < |s| && s[e] == '|' && !White(s[e + 1])
    requires ParsePipe(s, e + 1) == Ok(r, end)
    ensures ParsePipe(s, p) == Ok(Pipe(l, r), end)
  {
    hide ParseExec; hide GetTok; hide PeekAt;
    SymbolHere(s, e);
  }

  /** ParseLine goes on after a command that a ; follows. */
  lemma LineGoesOn(s: string, p: nat, l: Cmd<Span>, e: nat, r: Cmd<Span>, end: nat)
    requires p <= |s| && ParsePipe(s, p) == Ok(l, e) && e + 1 < |s| && s[e] == ';' && !White(s[e + 1])
    requires ParseLine(s, e + 1) == Ok(r, end)
    ensures ParseLine(s, p) == Ok(List(l, r), end)
  {
    hide ParsePipe; hide GetTok; hide PeekAt;
    SymbolHere(s, e);
    NoAmp(s, e);
    assert Backs(s, e, l) == Ok(l, e);
  }

  lemma PrintPair(l: Cmd<string>, r: Cmd<string>)
    ensures Print(Pipe(l, r)) == "(" + Print(l) + ")" + "|" + "(" + Print(r) + ")"
    ensures Print(List(l, r)) == "(" + Print(l) + ")" + ";" + "(" + Print(r) + ")"
  {
  }

  lemma PipeRound(l: Cmd<string>, r: Cmd<string>, s: string, p: nat)
    requires Printable(l) && Printable(r) && At(s, p, Print(Pipe(l, r))) && Ends(s, p + |Print(Pipe(l, r))|)
    requires Round(l, s, p + 1, ParseLine(s, p + 1))
    requires var q := p + 4 + |Print(l)|; q <= |s| && Round(r, s, q, ParseLine(s, q))
    ensures Round(Pipe(l, r), s, p, ParseLine(s, p))
  {
    hide ParseLine; hide ParseExec; hide ParsePipe; hide At; hide Printable; hide Skip; hide WordChar; hide Print;
    PrintPair(l, r);
    TwoBlocks(l, r, '|', s, p, Print(Pipe(l, r)));
    var e, end := p + 2 + |Print(l)|, p + 5 + |Print(l)| + |Print(r)|;
    var l', r' := ParseLine(s, p + 1).cmd, ParseLine(s, e + 2).cmd;
    PlainBlock(l, s, p);
    PlainBlock(r, s, e + 1);
    PipeEnds(s, e + 1, r', end);
    PipeGoesOn(s, p, l', e, r', end);
    LineEnds(s, p, Pipe(l', r'), end);
  }

  lemma ListRound(l: Cmd<string>, r: Cmd<string>, s: string, p: nat)
    requires Printable(l) && Printable(r) && At(s, p, Print(List(l, r))) && Ends(s, p + |Print(List(l, r))|)
    requires Round(l, s, p + 1, ParseLine(s, p + 1))
    requires var q := p + 4 + |Print(l)|; q <= |s| && Round(r, s, q, ParseLine(s, q))
    ensures Round(List(l, r), s, p, ParseLine(s, p))
  {
    hide ParseLine; hide ParseExec; hide ParsePipe; hide At; hide Printable; hide Skip; hide WordChar; hide Print;
    PrintPair(l, r);
    TwoBlocks(l, r, ';', s, p, Print(List(l, r)));
    var e, end := p + 2 + |Print(l)|, p + 5 + |Print(l)| + |Print(r)|;
    var l', r' := ParseLine(s, p + 1).cmd, ParseLine(s, e + 2).cmd;
    PlainBlock(l, s, p);
    PlainBlock(r, s, e + 1);
    PipeEnds(s, e + 1, r', end);
    LineEnds(s, e + 1, r', end);
    PipeEnds(s, p, l', e);
    LineGoesOn(s, p, l', e, r', end);
  }

  lemma NoAmp(s: string, p: nat)
    requires p < |s| && s[p] == ';'
    ensures !PeekAt(s, p, "&") && Skip(s, p) == p
  {
  }

  /** The command inside a redirection or a background command, where it is printed. */
  lemma InnerAt(t: Cmd<string>, s: string, p: nat)
    requires (t.Redir? || t.Back?) && Printable(t) && At(s, p, Print(t))
    ensures Printable(t.cmd) && p + 1 <= |s| && At(s, p + 1, Print(t.cmd)) && Ends(s, p + 1 + |Print(t.cmd)|)
  {
    hide At;
    var block, more := "(" + Print(t.cmd) + ")", if t.Back? then "&" else OpFor(t.mode) + t.file;
    assert Print(t) == block + more;
    AtParts(s, p, block, more);
    Brackets(t.cmd, s, p);
  }

  /** The two commands of a pipe or a list, where they are printed. */
  lemma PairAt(t: Cmd<string>, s: string, p: nat)
    requires (t.Pipe? || t.List?) && Printable(t) && At(s, p, Print(t))
    ensures Printable(t.left) && Printable(t.right)
    ensures p + 1 <= |s| && At(s, p + 1, Print(t.left)) && Ends(s, p + 1 + |Print(t.left)|)
    ensures var q := p + 4 + |Print(t.left)|; q <= |s| && At(s, q, Print(t.right)) && Ends(s, q + |Print(t.right)|)
  {
    hide At;
    TwoBlocks(t.left, t.right, if t.Pipe? then '|' else ';', s, p, Print(t));
    Brackets(t.left, s, p);
    Brackets(t.right, s, p + 3 + |Print(t.left)|);
  }

  /** Parsing a printed tree gives the tree back and stops where the text ends. */
  lemma {:induction false} LineRound(t: Cmd<string>, s: string, p: nat)
    requires Printable(t) && At(s, p, Print(t)) && Ends(s, p + |Print(t)|)
    ensures Round(t, s, p, ParseLine(s, p))
    decreases t
  {
    hide ParseLine; hide Round; hide At; hide Ends; hide Print; hide Printable;
    match t
    case Exec(argv) =>
      PrintExec(argv);
      SimpleRound(argv, s, p);
    case Redir(c, file, mode, fd) =>
      InnerAt(t, s, p);
      LineRound(c, s, p + 1);
      RedirRound(c, file, mode, fd, s, p);
    case Back(c) =>
      InnerAt(t, s, p);
      LineRound(c, s, p + 1);
      BackRound(c, s, p);
    case Pipe(l, r) =>
      PairAt(t, s, p);
      LineRound(l, s, p + 1);
      LineRound(r, s, p + 4 + |Print(l)|);
      PipeRound(l, r, s, p);
    case List(l, r) =>
      PairAt(t, s, p);
      LineRound(l, s, p + 1);
      LineRound(r, s, p + 4 + |Print(l)|);
      ListRound(l, r, s, p);
  }

  lemma PrintExec(argv: seq<string>)
    ensures Print(Exec(argv)) == Joined(argv)
  {
  }

  /** Round trip: parsing the printout of a tree gives the tree and uses all input. */
  lemma ParsePrint(t: Cmd<string>)
    requires Printable(t)
    ensures var s := Print(t); var r := ParseAll(s); r.Ok? && WordsOk(s, r.cmd) && Read(s, r.cmd) == t && r.at == |s|
  {
    hide ParseLine;
    var s := Print(t);
    assert s[0..|s|] == s;
    LineRound(t, s, 0);
  }

  lemma Brackets(t: Cmd<string>, s: string, p: nat)
    requires Printable(t) && At(s, p, "(" + Print(t) + ")")
    ensures var e := p + 1 + |Print(t)|;
            && e < |s| && s[p] == '(' && s[e] == ')' && At(s, p + 1, Print(t)) && !White(s[p + 1])
  {
    var x := "(" + Print(t) + ")";
    assert x == "(" + (Print(t) + ")");
    AtParts(s, p, "(", Print(t) + ")");
    AtParts(s, p + 1, Print(t), ")");
    PrintStart(t);
    assert s[p] == s[p..p + 1][0];
    var e := p + 1 + |Print(t)|;
    assert s[e] == s[e..e + 1][0];
    if Print(t) != "" { assert s[p + 1] == s[p + 1..p + 1 + |Print(t)|][0]; }
  }

  // ---- printing undoes parsing -----------------------------------------------------------

  predicate RdsOpen(list: seq<Rd>) { forall r :: r in list ==> OpensAs(r.mode, r.fd) }

  /** Commands are short enough and files are opened in one of the three ways. */
  predicate Buildable(c: Cmd<Span>) {
    match c
    case Exec(argv) => |argv| < MAXARGS
    case Redir(cmd, _, mode, fd) => Buildable(cmd) && OpensAs(mode, fd)
    case Pipe(l, r) => Buildable(l) && Buildable(r)
    case List(l, r) => Buildable(l) && Buildable(r)
    case Back(cmd) => Buildable(cmd)
  }

  lemma {:induction false} RedirsOpen(s: string, p: nat)
    requires p <= |s|
    ensures ParseRedirs(s, p).Rds? ==> RdsOpen(ParseRedirs(s, p).list)
    decreases |s| - p
  {
    hide GetTok; hide Skip;
    if PeekAt(s, p, "<>") {
      var file := GetTok(s, GetTok(s, p).next);
      if file.kind == 'a' { RedirsOpen(s, file.next); }
    }
  }

  lemma {:induction false} ArgsFit(s: string, p: nat, argc: nat)
    requires p <= |s| && argc < MAXARGS
    ensures var r := ParseArgs(s, p, argc); r.Args? ==> argc + |r.words| < MAXARGS && RdsOpen(r.list)
    decreases |s| - p
  {
    hide GetTok; hide Skip; hide ParseRedirs; hide PeekAt;
    var tok := GetTok(s, p);
    if !PeekAt(s, p, "|)&;") && tok.kind == 'a' && argc + 1 < MAXARGS {
      RedirsOpen(s, tok.next);
      var rs := ParseRedirs(s, tok.next);
      if rs.Rds? { ArgsFit(s, rs.at, argc + 1); }
    }
  }

  lemma {:induction false} WrapBuilds(c: Cmd<Span>, list: seq<Rd>)
    requires Buildable(c) && RdsOpen(list)
    ensures Buildable(Wrap(c, list))
    decreases |list|
  {
    if list != [] { WrapBuilds(c, list[..|list| - 1]); }
  }

  /** r holds a tree the shell can build, or a panic. */
  predicate Builds(r: Parsed) { r.Ok? ==> Buildable(r.cmd) }

  lemma SimpleBuilds(s: string, p: nat)
    requires p <= |s|
    ensures Builds(ParseSimple(s, p))
  {
    hide ParseRedirs; hide ParseArgs; hide Wrap;
    RedirsOpen(s, p);
    var rs := ParseRedirs(s, p);
    if rs.Rds? {
      ArgsFit(s, rs.at, 0);
      var args := ParseArgs(s, rs.at, 0);
      if args.Args? { WrapBuilds(Exec(args.words), rs.list + args.list); }
    }
  }

  lemma {:induction false} BlockBuilds(s: string, p: nat)
    requires p <= |s|
    ensures Builds(ParseBlock(s, p))
    decreases |s| - p, 0
  {
    hide ParseLine; hide ParseRedirs; hide Wrap; hide GetTok; hide Skip;
    if PeekAt(s, p, "(") {
      TokenAdvances(s, p, "(");
      var line := ParseLine(s, GetTok(s, p).next);
      LineBuilds(s, GetTok(s, p).next);
      if line.Ok? && PeekAt(s, line.at, ")") {
        var e := GetTok(s, line.at).next;
        RedirsOpen(s, e);
        if ParseRedirs(s, e).Rds? { WrapBuilds(line.cmd, ParseRedirs(s, e).list); }
      }
    }
  }

  lemma TokenAdvances(s: string, p: nat, toks: string)
    requires p <= |s| && PeekAt(s, p, toks)
    ensures p < GetTok(s, p).next <= |s|
  {
  }

  lemma {:induction false} PipeBuilds(s: string, p: nat)
    requires p <= |s|
    ensures Builds(ParsePipe(s, p))
    decreases |s| - p, 1
  {
    hide ParseBlock; hide ParseSimple; hide GetTok; hide PeekAt;
    if PeekAt(s, p, "(") { BlockBuilds(s, p); } else { SimpleBuilds(s, p); }
    var left := ParseExec(s, p);
    if left.Ok? && PeekAt(s, left.at, "|") {
      TokenAdvances(s, left.at, "|");
      PipeBuilds(s, GetTok(s, left.at).next);
    }
  }

  lemma {:induction false} BacksBuild(s: string, p: nat, c: Cmd<Span>)
    requires p <= |s| && WordsOk(s, c) && Buildable(c)
    ensures Builds(Backs(s, p, c))
    decreases |s| - p
  {
    hide GetTok; hide PeekAt;
    if PeekAt(s, p, "&") {
      TokenAdvances(s, p, "&");
      BacksBuild(s, GetTok(s, p).next, Back(c));
    }
  }

  lemma {:induction false} LineBuilds(s: string, p: nat)
    requires p <= |s|
    ensures Builds(ParseLine(s, p))
    decreases |s| - p, 2
  {
    hide ParsePipe; hide Backs; hide GetTok; hide PeekAt;
    PipeBuilds(s, p);
    var first := ParsePipe(s, p);
    if first.Ok? {
      BacksBuild(s, first.at, first.cmd);
      var left := Backs(s, first.at, first.cmd);
      if PeekAt(s, left.at, ";") {
        TokenAdvances(s, left.at, ";");
        LineBuilds(s, GetTok(s, left.at).next);
      }
    }
  }

  lemma WordIsText(s: string, argv: seq<Span>, i: nat)
    requires i < |argv| && WordsOk(s, Exec(argv))
    ensures WordText(Read(s, Exec(argv)).argv[i])
  {
    assert argv[i] in argv;
  }

  lemma {:induction false} BuildableIsPrintable(s: string, c: Cmd<Span>)
    requires WordsOk(s, c) && Buildable(c)
    ensures Printable(Read(s, c))
  {
    hide WordChar;
    match c
    case Exec(argv) =>
      forall i: nat | i < |argv| ensures WordText(Read(s, c).argv[i]) { WordIsText(s, argv, i); }
    case Redir(cmd, _, _, _) => BuildableIsPrintable(s, cmd);
    case Pipe(l, r) => BuildableIsPrintable(s, l); BuildableIsPrintable(s, r);
    case List(l, r) => BuildableIsPrintable(s, l); BuildableIsPrintable(s, r);
    case Back(cmd) => BuildableIsPrintable(s, cmd);
  }

  /** Every tree that parsing yields can be printed. */
  lemma ParsedIsPrintable(s: string)
    ensures var r := ParseAll(s); r.Ok? ==> WordsOk(s, r.cmd) && Printable(Read(s, r.cmd))
  {
    hide ParseLine; hide Printable;
    LineBuilds(s, 0);
    var line := ParseLine(s, 0);
    if line.Ok? { BuildableIsPrintable(s, line.cmd); }
  }

  /** The other way round: whatever input was accepted, its tree, printed and parsed again,
      is the same tree. */
  lemma PrintParse(s: string)
    requires ParseAll(s).Ok?
    ensures WordsOk(s, ParseAll(s).cmd)
    ensures var t := Read(s, ParseAll(s).cmd);
            var r := ParseAll(Print(t));
            r.Ok? && WordsOk(Print(t), r.cmd) && Read(Print(t), r.cmd) == t
  {
    hide ParseAll; hide Printable; hide Read; hide Print;
    ParsedIsPrintable(s);
    ParsePrint(Read(s, ParseAll(s).cmd));
  }
}
