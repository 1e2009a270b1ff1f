/** The parser of user/sh.c as code: loops that advance a cursor, and nulterminate,
    which writes into the input buffer.  Panics are results. */
module ShellCode {

  import opened ShellModel
  import opened ShellGrammar

  /** gettoken(): the kind of the token, where it starts and ends, the new cursor. */
  method GetToken(s: string, ps: nat) returns (ret: char, q: nat, eq: nat, next: nat)
    requires ps <= |s|
    ensures Token(ret, Span(q, eq), next) == GetTok(s, ps)
  {
    q := SkipWhite(s, ps);
    eq := q;
    if q == |s| {
      ret := '\0';
    } else if s[q] in "|();&<" {
      ret, eq := s[q], q + 1;
    } else if s[q] == '>' {
      ret, eq := '>', q + 1;
      if eq < |s| && s[eq] == '>' { ret, eq := '+', eq + 1; }
    } else {
      ret := 'a';
      while eq < |s| && !White(s[eq]) && !Symbol(s[eq])
        invariant q <= eq <= |s| && WordEnd(s, q) == WordEnd(s, eq)
      {
        eq := eq + 1;
      }
    }
    next := SkipWhite(s, eq);
  }

  method SkipWhite(s: string, ps: nat) returns (r: nat)
    requires ps <= |s|
    ensures r == Skip(s, ps)
  {
    r := ps;
    while r < |s| && White(s[r])
      invariant ps <= r <= |s| && Skip(s, ps) == Skip(s, r)
    {
      r := r + 1;
    }
  }

  /** peek() */
  method Peek(s: string, ps: nat, toks: string) returns (b: bool, next: nat)
    requires ps <= |s|
    ensures b == PeekAt(s, ps, toks) && next == Skip(s, ps)
  {
    next := SkipWhite(s, ps);
    b := next < |s| && s[next] in toks;
  }

  /** Redirections found so far, then those still to be parsed. */
  function Then(list: seq<Rd>, r: Redirs): Redirs {
    if r.NoFile? then NoFile else Rds(list + r.list, r.at)
  }

  lemma RedirsStep(s: string, ps: nat, list: seq<Rd>, p: nat)
    requires ps <= |s| && p <= |s| && ParseRedirs(s, ps) == Then(list, ParseRedirs(s, p))
    ensures !PeekAt(s, p, "<>") ==> ParseRedirs(s, ps) == Rds(list, Skip(s, p))
    ensures PeekAt(s, p, "<>") ==>
              var tok := GetTok(s, p); var file := GetTok(s, tok.next);
              && file.next > p
              && ParseRedirs(s, ps) == if file.kind != 'a' then NoFile
                  else Then(list + [RdFor(tok.kind, file.span)], ParseRedirs(s, file.next))
  {
    hide GetTok; hide Skip;
    if PeekAt(s, p, "<>") {
      PeekConsumes(s, p, "<>");
      var file := GetTok(s, GetTok(s, p).next);
      if file.kind == 'a' {
        var x, rest := RdFor(GetTok(s, p).kind, file.span), ParseRedirs(s, file.next);
        assert rest.Rds? ==> list + ([x] + rest.list) == list + [x] + rest.list;
      }
    }
  }

  lemma PeekConsumes(s: string, p: nat, toks: string)
    requires p <= |s| && PeekAt(s, p, toks)
    ensures GetTok(s, p).next > p && GetTok(s, p).kind != '\0'
  {
  }

  /** parseredirs(): the redirections at the cursor, or NoFile for the panic. */
  method Parseredirs(s: string, ps: nat) returns (r: Redirs)
    requires ps <= |s|
    ensures r == ParseRedirs(s, ps)
  {
    hide ParseRedirs; hide GetTok; hide PeekAt; hide Then; hide RdFor;
    var p, list := ps, [];
    ThenNothing(ParseRedirs(s, ps));
    while true
      invariant ps <= p <= |s| && ParseRedirs(s, ps) == Then(list, ParseRedirs(s, p))
      decreases |s| - p
    {
      RedirsStep(s, ps, list, p);
      var more, at := Peek(s, p, "<>");
      if !more { return Rds(list, at); }
      SkipTwice(s, p);
      var tok, _, _, next := GetToken(s, at);
      var kind, q, eq, after := GetToken(s, next);
      if kind != 'a' { return NoFile; }
      list := list + [RdFor(tok, Span(q, eq))];
      p := after;
    }
  }

  lemma ThenNothing(r: Redirs)
    ensures Then([], r) == r
  {
  }

  /** Words and redirections found so far, then those still to be parsed. */
  function ThenArgs(words: seq<Span>, list: seq<Rd>, r: Args): Args {
    if r.ArgsPanic? then r else Args(words + r.words, list + r.list, r.at)
  }

  lemma ThenArgsNothing(r: Args)
    ensures ThenArgs([], [], r) == r
  {
  }

  lemma ArgsGoOn(s: string, ps: nat, argv: seq<Span>, list: seq<Rd>, p: nat)
    requires ps <= |s| && p <= |s| && ParseArgs(s, ps, 0) == ThenArgs(argv, list, ParseArgs(s, p, |argv|))
    ensures PeekAt(s, p, "|)&;") ==> ParseArgs(s, ps, 0) == Args(argv, list, Skip(s, p))
    ensures !PeekAt(s, p, "|)&;") ==>
              var tok := GetTok(s, p);
              && (tok.kind == '\0' ==> ParseArgs(s, ps, 0) == Args(argv, list, tok.next))
              && (tok.kind != '\0' && tok.kind != 'a' ==> ParseArgs(s, ps, 0) == ArgsPanic("syntax"))
              && (tok.kind == 'a' && |argv| + 1 >= MAXARGS ==> ParseArgs(s, ps, 0) == ArgsPanic("too many args"))
              && (tok.kind == 'a' && |argv| + 1 < MAXARGS ==>
                    tok.next > p && ArgsAfterWord(s, ps, argv, list, tok.span, ParseRedirs(s, tok.next)))
  {
    hide GetTok; hide PeekAt; hide ParseRedirs; hide Skip;
    var tok := GetTok(s, p);
    var rs := ParseRedirs(s, tok.next);
    WordAdvances(s, p);
    if !PeekAt(s, p, "|)&;") && tok.kind == 'a' && |argv| + 1 < MAXARGS && rs.Rds? {
      var rest := ParseArgs(s, rs.at, |argv| + 1);
      assert rest.Args? ==> argv + ([tok.span] + rest.words) == argv + [tok.span] + rest.words;
      assert rest.Args? ==> list + (rs.list + rest.list) == list + rs.list + rest.list;
    }
  }

  lemma WordAdvances(s: string, p: nat)
    requires p <= |s|
    ensures GetTok(s, p).kind == 'a' ==> GetTok(s, p).next > p
  {
  }

  ghost predicate ArgsAfterWord(s: string, ps: nat, argv: seq<Span>, list: seq<Rd>, w: Span, rs: Redirs)
    requires ps <= |s|
  {
    if rs.NoFile? then ParseArgs(s, ps, 0) == ArgsPanic("missing file for redirection")
    else rs.at <= |s| && ParseArgs(s, ps, 0) == ThenArgs(argv + [w], list + rs.list, ParseArgs(s, rs.at, |argv| + 1))
  }

  /** The loop of parseexec over the words of a command. */
  method Parseargs(s: string, ps: nat) returns (r: Args)
    requires ps <= |s|
    ensures r == ParseArgs(s, ps, 0)
  {
    hide ParseArgs; hide ParseRedirs; hide GetTok; hide PeekAt; hide ThenArgs;
    var p, argv, list := ps, [], [];
    ThenArgsNothing(ParseArgs(s, ps, 0));
    while true
      invariant ps <= p <= |s| && ParseArgs(s, ps, 0) == ThenArgs(argv, list, ParseArgs(s, p, |argv|))
      decreases |s| - p
    {
      ArgsGoOn(s, ps, argv, list, p);
      var stop, at := Peek(s, p, "|)&;");
      if stop { return Args(argv, list, at); }
      SkipTwice(s, p);
      var tok, q, eq, next := GetToken(s, at);
      if tok == '\0' { return Args(argv, list, next); }
      if tok != 'a' { return ArgsPanic("syntax"); }
      if |argv| + 1 >= MAXARGS { return ArgsPanic("too many args"); }
      var rs := Parseredirs(s, next);
      if rs.NoFile? { return ArgsPanic("missing file for redirection"); }
      argv, list, p := argv + [Span(q, eq)], list + rs.list, rs.at;
    }
  }

  /** parseexec() of a command that does not start with a parenthesis. */
  method Parsesimple(s: string, ps: nat) returns (r: Parsed)
    requires ps <= |s|
    ensures r == ParseSimple(s, ps)
  {
    hide ParseRedirs; hide ParseArgs;
    var first := Parseredirs(s, ps);
    if first.NoFile? { return Panic("missing file for redirection"); }
    var args := Parseargs(s, first.at);
    r := if args.ArgsPanic? then Panic(args.msg) else Ok(Wrap(Exec(args.words), first.list + args.list), args.at);
  }

  /** parseexec() */
  method Parseexec(s: string, ps: nat) returns (r: Parsed)
    requires ps <= |s|
    ensures r == ParseExec(s, ps) && ReadsExec(s, ps, r)
    decreases |s| - ps, 1
  {
    hide ReadsExec;
    ExecReads(s, ps);
    var block, _ := Peek(s, ps, "(");
    if block { r := Parseblock(s, ps); } else { r := Parsesimple(s, ps); }
  }

  /** parseblock() */
  method Parseblock(s: string, ps: nat) returns (r: Parsed)
    requires ps <= |s|
    ensures r == ParseBlock(s, ps)
    decreases |s| - ps, 0
  {
    var open, _ := Peek(s, ps, "(");
    if !open { return Panic("parseblock"); }
    var _, _, _, p := GetToken(s, ps);
    r := Parseline(s, p);
    if r.Panic? { return; }
    var close, _ := Peek(s, r.at, ")");
    if !close { return Panic("syntax - missing )"); }
    var _, _, _, p' := GetToken(s, r.at);
    var rs := Parseredirs(s, p');
    r := if rs.NoFile? then Panic("missing file for redirection") else Ok(Wrap(r.cmd, rs.list), rs.at);
  }

  /** parsepipe() */
  method Parsepipe(s: string, ps: nat) returns (r: Parsed)
    requires ps <= |s|
    ensures r == ParsePipe(s, ps)
    decreases |s| - ps, 2
  {
    r := Parseexec(s, ps);
    if r.Panic? { return; }
    var more, _ := Peek(s, r.at, "|");
    if more {
      var _, _, _, p := GetToken(s, r.at);
      var right := Parsepipe(s, p);
      r := if right.Panic? then right else Ok(Pipe(r.cmd, right.cmd), right.at);
    }
  }

  /** parseline() */
  method Parseline(s: string, ps: nat) returns (r: Parsed)
    requires ps <= |s|
    ensures r == ParseLine(s, ps)
    decreases |s| - ps, 3
  {
    r := Parsepipe(s, ps);
    if r.Panic? { return; }
    var p, cmd := r.at, r.cmd;
    while true
      invariant r.at <= p <= |s| && WordsOk(s, cmd) && Backs(s, r.at, r.cmd) == Backs(s, p, cmd)
      decreases |s| - p
    {
      var amp, at := Peek(s, p, "&");
      if !amp { p := at; break; }
      var _, _, _, next := GetToken(s, p);
      p, cmd := next, Back(cmd);
    }
    assert Backs(s, r.at, r.cmd) == Ok(cmd, p);
    var semi, _ := Peek(s, p, ";");
    if semi {
      var _, _, _, next := GetToken(s, p);
      var right := Parseline(s, next);
      r := if right.Panic? then right else Ok(List(cmd, right.cmd), right.at);
    } else {
      r := Ok(cmd, p);
    }
  }

  // ---- nulterminate --------------------------------------------------------------------

  ghost function SpanSet(ws: seq<Span>): set<Span> { set w | w in ws }

  /** The words of a tree. */
  ghost function Words(c: Cmd<Span>): set<Span> {
    match c
    case Exec(argv) => SpanSet(argv)
    case Redir(cmd, file, _, _) => Words(cmd) + {file}
    case Pipe(l, r) => Words(l) + Words(r)
    case List(l, r) => Words(l) + Words(r)
    case Back(cmd) => Words(cmd)
  }

  /** b with a NUL at the end of every word of ws. */
  ghost predicate Terminated(b: seq<char>, b': seq<char>, ws: set<Span>) {
    && |b'| == |b|
    && (forall w :: w in ws ==> w.eq < |b| && b'[w.eq] == '\0')
    && (forall i :: 0 <= i < |b| && b'[i] != b[i] ==> exists w :: w in ws && w.eq == i)
  }

  lemma TerminatedTwice(b: seq<char>, b1: seq<char>, b2: seq<char>, ws1: set<Span>, ws2: set<Span>)
    requires Terminated(b, b1, ws1) && Terminated(b1, b2, ws2)
    ensures Terminated(b, b2, ws1 + ws2)
  {
  }

  /** nulterminate() */
  method Nulterminate(buf: array<char>, c: Cmd<Span>)
    requires forall w :: w in Words(c) ==> w.eq < buf.Length
    modifies buf
    ensures Terminated(old(buf[..]), buf[..], Words(c))
    decreases c
  {
    ghost var b := buf[..];
    match c {
      case Exec(argv) =>
        var i := 0;
        while i < |argv|
          invariant 0 <= i <= |argv| && Terminated(b, buf[..], SpanSet(argv[..i]))
        {
          ghost var b1 := buf[..];
          assert argv[i] in Words(c);
          buf[argv[i].eq] := '\0';
          assert Terminated(b1, buf[..], {argv[i]}) by { assert argv[i] in {argv[i]}; }
          TerminatedTwice(b, b1, buf[..], SpanSet(argv[..i]), {argv[i]});
          assert SpanSet(argv[..i + 1]) == SpanSet(argv[..i]) + {argv[i]};
          i := i + 1;
        }
        assert argv[..|argv|] == argv;
      case Redir(cmd, file, _, _) =>
        assert file in Words(c);
        Nulterminate(buf, cmd);
        ghost var b1 := buf[..];
        buf[file.eq] := '\0';
        assert Terminated(b1, buf[..], {file}) by { assert file in {file}; }
        TerminatedTwice(b, b1, buf[..], Words(cmd), {file});
      case Pipe(l, r) =>
        Nulterminate(buf, l);
        ghost var b1 := buf[..];
        Nulterminate(buf, r);
        TerminatedTwice(b, b1, buf[..], Words(l), Words(r));
      case List(l, r) =>
        Nulterminate(buf, l);
        ghost var b1 := buf[..];
        Nulterminate(buf, r);
        TerminatedTwice(b, b1, buf[..], Words(l), Words(r));
      case Back(cmd) => Nulterminate(buf, cmd);
    }
  }

  /** The C string at q: what lies before the next NUL. */
  function CString(b: seq<char>, q: nat): string
    decreases |b| - q
  {
    if q >= |b| || b[q] == '\0' then "" else [b[q]] + CString(b, q + 1)
  }

  lemma {:induction false} CStringIs(b: seq<char>, q: nat, eq: nat)
    requires q <= eq < |b| && b[eq] == '\0' && forall i :: q <= i < eq ==> b[i] != '\0'
    ensures CString(b, q) == b[q..eq]
    decreases eq - q
  {
    if q < eq { CStringIs(b, q + 1, eq); }
  }

  lemma WordsAreOk(s: string, c: Cmd<Span>, w: Span)
    requires WordsOk(s, c) && w in Words(c)
    ensures IsWord(s, w)
  {
  }

  /** Where a word of the tree ends, no other word of it goes on: so after termination
      every word reads as itself. */
  lemma ReadsAsToken(s: string, b: seq<char>, b': seq<char>, c: Cmd<Span>, w: Span)
    requires WordsOk(s, c) && |s| < |b| && b[..|s|] == s && '\0' !in s && Terminated(b, b', Words(c)) && w in Words(c)
    ensures IsWord(s, w) && CString(b', w.q) == Text(s, w)
  {
    WordsAreOk(s, c, w);
    forall i | w.q <= i < w.eq ensures b'[i] == s[i] && b'[i] != '\0' {
      assert s[i] == b[..|s|][i] == b[i] && s[i] in s;
      if b'[i] != b[i] {
        var v :| v in Words(c) && v.eq == i;
        WordsAreOk(s, c, v);
      }
    }
    CStringIs(b', w.q, w.eq);
    assert b'[w.q..w.eq] == s[w.q..w.eq];
  }

  /** parsecmd() on a buffer that holds a NUL. */
  method Parsecmd(buf: array<char>) returns (r: Parsed)
    requires '\0' in buf[..]
    modifies buf
    ensures r == ParseAll(CString(old(buf[..]), 0)) && Derived(CString(old(buf[..]), 0), r)
    ensures r.Panic? ==> buf[..] == old(buf[..])
    ensures var s := CString(old(buf[..]), 0);
            r.Ok? ==> WordsOk(s, r.cmd) && forall w :: w in Words(r.cmd) ==>
                IsWord(s, w)
                && CString(buf[..], w.q) == Text(s, w)
  {
    hide ParseLine; hide Derived;
    ghost var b := buf[..];
    var es := 0;
    while buf[es] != '\0'
      invariant 0 <= es < buf.Length && forall i :: 0 <= i < es ==> buf[i] != '\0'
      decreases buf.Length - es
    {
      assert es + 1 < buf.Length by { var k :| 0 <= k < |b| && b[k] == '\0'; }
      es := es + 1;
    }
    CStringIs(b, 0, es);
    var s := buf[..es];
    AllDerived(s);
    r := Parseline(s, 0);
    if r.Panic? { return; }
    var _, end := Peek(s, r.at, "");
    if end != es { return Panic("syntax"); }
    forall w | w in Words(r.cmd) ensures w.eq < buf.Length { WordsAreOk(s, r.cmd, w); }
    Nulterminate(buf, r.cmd);
    forall w | w in Words(r.cmd) ensures IsWord(s, w) && CString(buf[..], w.q) == Text(s, w) {
      ReadsAsToken(s, b, buf[..], r.cmd, w);
    }
  }
}
