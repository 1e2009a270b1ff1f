/** The language of user/sh.c as a grammar over tokens, and that the parser accepts exactly
    that language and builds the tree of the derivation. */
module ShellGrammar {

  import opened ShellModel

  // ---- the tokens of an input -------------------------------------------------------------

  datatype Tok = Tok(kind: char, span: Span)

  function Toks(s: string, p: nat): seq<Tok>
    requires p <= |s|
    decreases |s| - p
  {
    var t := GetTok(s, p);
    if t.kind == '\0' then [] else [Tok(t.kind, t.span)] + Toks(s, t.next)
  }

  /** A symbol, the two characters >>, or a maximal run of word characters. */
  predicate IsTok(s: string, t: Tok) {
    t.span.q < t.span.eq <= |s| &&
    match t.kind
    case 'a' => IsWord(s, t.span)
    case '+' => s[t.span.q..t.span.eq] == ">>"
    case '>' => s[t.span.q..t.span.eq] == ">" && (t.span.eq < |s| ==> s[t.span.eq] != '>')
    case c => c in "|();&<" && s[t.span.q..t.span.eq] == [c]
  }

  /** The tokens are tokens, stand in order without overlap, and leave out only white space. */
  lemma {:induction false} ToksCover(s: string, p: nat)
    requires p <= |s|
    ensures var ts := Toks(s, p);
            && (forall k :: 0 <= k < |ts| ==> IsTok(s, ts[k]) && p <= ts[k].span.q)
            && (forall j, k :: 0 <= j < k < |ts| ==> ts[j].span.eq <= ts[k].span.q)
            && (forall i :: p <= i < |s| && !White(s[i]) ==>
                  exists k :: 0 <= k < |ts| && ts[k].span.q <= i < ts[k].span.eq)
    decreases |s| - p
  {
    hide GetTok; hide IsTok; hide White;
    var t := GetTok(s, p);
    if t.kind == '\0' {
      NoTokHere(s, p);
    } else {
      ToksCover(s, t.next);
      var ts, rest := Toks(s, p), Toks(s, t.next);
      assert ts == [Tok(t.kind, t.span)] + rest;
      TokHere(s, p);
      forall i | p <= i < |s| && !White(s[i]) ensures exists k :: 0 <= k < |ts| && ts[k].span.q <= i < ts[k].span.eq {
        if i < t.next {
          assert ts[0].span.q <= i < ts[0].span.eq;
        } else {
          var k :| 0 <= k < |rest| && rest[k].span.q <= i < rest[k].span.eq;
          assert ts[k + 1] == rest[k];
        }
      }
    }
  }

  lemma TokHere(s: string, p: nat)
    requires p <= |s| && GetTok(s, p).kind != '\0'
    ensures var t := GetTok(s, p);
            && IsTok(s, Tok(t.kind, t.span))
            && forall i :: p <= i < t.next && !White(s[i]) ==> t.span.q <= i < t.span.eq
  {
  }

  lemma NoTokHere(s: string, p: nat)
    requires p <= |s| && GetTok(s, p).kind == '\0'
    ensures forall i :: p <= i < |s| ==> White(s[i])
  {
  }

  /** The kind of the first token. */
  function Kind(ts: seq<Tok>): char {
    if ts == [] then '\0' else ts[0].kind
  }

  predicate Opens(c: char) { c == '<' || c == '>' || c == '+' }

  /** What peek and gettoken see is the first of the tokens left. */
  lemma Peeks(s: string, p: nat)
    requires p <= |s|
    ensures var k := Kind(Toks(s, p));
            && k == GetTok(s, p).kind && (PeekAt(s, p, "(") <==> k == '(') && (PeekAt(s, p, ")") <==> k == ')')
            && (PeekAt(s, p, "|") <==> k == '|') && (PeekAt(s, p, "&") <==> k == '&')
            && (PeekAt(s, p, ";") <==> k == ';') && (PeekAt(s, p, "<>") <==> Opens(k))
            && (PeekAt(s, p, "|)&;") <==> k == '|' || k == ')' || k == '&' || k == ';')
    ensures Toks(s, Skip(s, p)) == Toks(s, p)
    ensures var t := GetTok(s, p);
            && p <= t.next && (t.kind != '\0' ==> p < t.next && Toks(s, p) == [Tok(t.kind, t.span)] + Toks(s, t.next))
            && (t.kind == '\0' ==> Toks(s, p) == [] == Toks(s, t.next))
  {
    hide PeekAt; hide GetTok;
    PeekKinds(s, p);
    SkipTwice(s, p);
    NothingLeft(s, p);
  }

  /** gettoken takes the first token. */
  lemma Takes(s: string, p: nat, x: Tok, rest: seq<Tok>)
    requires p <= |s| && Toks(s, p) == [x] + rest
    ensures var t := GetTok(s, p); t.kind == x.kind && t.span == x.span && Toks(s, t.next) == rest
  {
    hide GetTok;
    assert Toks(s, p)[1..] == rest && Toks(s, p)[0] == x;
  }

  lemma PeekKinds(s: string, p: nat)
    requires p <= |s|
    ensures var k := GetTok(s, p).kind;
            && (PeekAt(s, p, "(") <==> k == '(') && (PeekAt(s, p, ")") <==> k == ')')
            && (PeekAt(s, p, "|") <==> k == '|') && (PeekAt(s, p, "&") <==> k == '&')
            && (PeekAt(s, p, ";") <==> k == ';') && (PeekAt(s, p, "<>") <==> Opens(k))
            && (PeekAt(s, p, "|)&;") <==> k == '|' || k == ')' || k == '&' || k == ';')
  {
    hide WordEnd;
  }

  lemma SkipTwice(s: string, p: nat)
    requires p <= |s|
    ensures Skip(s, Skip(s, p)) == Skip(s, p) && GetTok(s, Skip(s, p)) == GetTok(s, p)
  {
  }

  lemma NothingLeft(s: string, p: nat)
    requires p <= |s|
    ensures GetTok(s, p).kind == '\0' ==> GetTok(s, GetTok(s, p).next).kind == '\0'
  {
  }

  // ---- the grammar ------------------------------------------------------------------------

  /** The two tokens of a redirection, and what it opens. */
  predicate IsRedir(op: Tok, file: Tok, c: Cmd<Span>) {
    && c.Redir? && file.kind == 'a' && c.file == file.span
    && match op.kind
       case '<' => c.mode == O_RDONLY && c.fd == 0
       case '>' => c.mode == O_WRONLY + O_CREATE + O_TRUNC && c.fd == 1
       case '+' => c.mode == O_WRONLY + O_CREATE && c.fd == 1
       case _ => false
  }

  /** Words, fewer than MAXARGS, with redirections anywhere between them; the last one is
      the outermost of the tree. */
  ghost predicate IsSimple(ts: seq<Tok>, c: Cmd<Span>)
    decreases |ts|
  {
    match c
    case Exec(argv) => |argv| == |ts| < MAXARGS && forall j :: 0 <= j < |ts| ==> ts[j] == Tok('a', argv[j])
    case Redir(inner, _, _, _) =>
      exists i :: LastRedir(ts, i, c) && IsSimple(Cut(ts, i), inner)
    case _ => false
  }

  /** After the redirection at i come only words, and it is not the file of another. */
  predicate LastRedir(ts: seq<Tok>, i: int, c: Cmd<Span>) {
    && 0 <= i < |ts| - 1 && IsRedir(ts[i], ts[i + 1], c) && OnlyWords(ts[i + 2..])
    && (i > 0 ==> ts[i - 1].kind == 'a')
  }

  /** ts without the two tokens at i. */
  function Cut(ts: seq<Tok>, i: nat): seq<Tok>
    requires i + 1 < |ts|
  {
    ts[..i] + ts[i + 2..]
  }

  predicate OnlyWords(ts: seq<Tok>) { forall j :: 0 <= j < |ts| ==> ts[j].kind == 'a' }

  /** A line in parentheses, with redirections after it. */
  ghost predicate IsBlock(ts: seq<Tok>, c: Cmd<Span>)
    decreases |ts|, 0
  {
    var n := |ts|;
    n >= 2 &&
    (|| (ts[0].kind == '(' && ts[n - 1].kind == ')' && IsLine(ts[1..n - 1], c))
     || (IsRedir(ts[n - 2], ts[n - 1], c) && IsBlock(ts[..n - 2], c.cmd)))
  }

  ghost predicate IsExec(ts: seq<Tok>, c: Cmd<Span>)
    decreases |ts|, 1
  {
    IsSimple(ts, c) || IsBlock(ts, c)
  }

  /** exec, or exec | pipe */
  ghost predicate IsPipe(ts: seq<Tok>, c: Cmd<Span>)
    decreases |ts|, 2
  {
    || IsExec(ts, c)
    || (c.Pipe? && exists i :: 0 <= i < |ts| && ts[i].kind == '|' && IsExec(ts[..i], c.left)
                               && IsPipe(ts[i + 1..], c.right))
  }

  /** pipe, then any number of & */
  ghost predicate IsBacks(ts: seq<Tok>, c: Cmd<Span>)
    decreases |ts|, 3
  {
    || IsPipe(ts, c)
    || (c.Back? && ts != [] && ts[|ts| - 1].kind == '&' && IsBacks(ts[..|ts| - 1], c.cmd))
  }

  /** backs, or backs ; line */
  ghost predicate IsLine(ts: seq<Tok>, c: Cmd<Span>)
    decreases |ts|, 4
  {
    || IsBacks(ts, c)
    || (c.List? && exists i :: 0 <= i < |ts| && ts[i].kind == ';' && IsBacks(ts[..i], c.left)
                               && IsLine(ts[i + 1..], c.right))
  }

  // ---- simple commands, read from the left ------------------------------------------------

  /** ts are the words and the redirections, in some order. */
  ghost predicate Items(ts: seq<Tok>, words: seq<Span>, list: seq<Rd>)
    decreases |ts|
  {
    if ts == [] then words == [] && list == []
    else if ts[0].kind == 'a' then words != [] && words[0] == ts[0].span && Items(ts[1..], words[1..], list)
    else
      && Opens(ts[0].kind) && |ts| >= 2 && ts[1].kind == 'a' && list != []
      && list[0] == RdFor(ts[0].kind, ts[1].span) && Items(ts[2..], words, list[1..])
  }

  lemma ItemsWord(w: Tok, ts: seq<Tok>, words: seq<Span>, list: seq<Rd>)
    requires w.kind == 'a' && Items(ts, words, list)
    ensures Items([w] + ts, [w.span] + words, list)
  {
    assert ([w] + ts)[1..] == ts && ([w.span] + words)[1..] == words;
  }

  lemma ItemsRedir(op: Tok, file: Tok, ts: seq<Tok>, words: seq<Span>, list: seq<Rd>)
    requires Opens(op.kind) && file.kind == 'a' && Items(ts, words, list)
    ensures Items([op, file] + ts, words, [RdFor(op.kind, file.span)] + list)
  {
    hide RdFor;
    assert ([op, file] + ts)[2..] == ts && ([RdFor(op.kind, file.span)] + list)[1..] == list;
  }

  lemma EmptyItems()
    ensures Items([], [], [])
  {
  }

  lemma ItemsHead(ts: seq<Tok>, words: seq<Span>, list: seq<Rd>)
    requires Items(ts, words, list)
    ensures ts == [] ==> words == [] && list == []
    ensures ts != [] && ts[0].kind == 'a' ==>
              words != [] && words[0] == ts[0].span && Items(ts[1..], words[1..], list)
    ensures ts != [] && ts[0].kind != 'a' ==>
              && Opens(ts[0].kind) && |ts| >= 2 && ts[1].kind == 'a' && list != []
              && list[0] == RdFor(ts[0].kind, ts[1].span) && Items(ts[2..], words, list[1..])
  {
    hide RdFor;
  }

  lemma {:induction false} ItemsJoin(a: seq<Tok>, w: seq<Span>, l: seq<Rd>, b: seq<Tok>, v: seq<Span>, m: seq<Rd>)
    requires Items(a, w, l) && Items(b, v, m)
    ensures Items(a + b, w + v, l + m)
    decreases |a|
  {
    hide Items; hide RdFor;
    ItemsHead(a, w, l);
    if a == [] {
      assert a + b == b && w + v == v && l + m == m;
    } else if a[0].kind == 'a' {
      ItemsJoin(a[1..], w[1..], l, b, v, m);
      ItemsWord(a[0], a[1..] + b, w[1..] + v, l + m);
      assert a + b == [a[0]] + (a[1..] + b) && w + v == [a[0].span] + (w[1..] + v);
    } else {
      ItemsJoin(a[2..], w, l[1..], b, v, m);
      ItemsRedir(a[0], a[1], a[2..] + b, w + v, l[1..] + m);
      assert a + b == [a[0], a[1]] + (a[2..] + b) && l + m == [l[0]] + (l[1..] + m);
    }
  }

  /** Without redirections there are only words. */
  lemma {:induction false} ItemsWords(ts: seq<Tok>, words: seq<Span>)
    ensures Items(ts, words, []) <==>
              |words| == |ts| && forall j :: 0 <= j < |ts| ==> ts[j] == Tok('a', words[j])
    decreases |ts|
  {
    if ts != [] && words != [] {
      ItemsWords(ts[1..], words[1..]);
      if Items(ts, words, []) {
        forall j | 0 <= j < |ts| ensures ts[j] == Tok('a', words[j]) {
          if j > 0 { assert ts[1..][j - 1] == Tok('a', words[1..][j - 1]); }
        }
      }
    }
  }

  /** Taking out the last redirection. */
  lemma {:induction false} ItemsLast(ts: seq<Tok>, words: seq<Span>, list: seq<Rd>) returns (i: nat)
    requires Items(ts, words, list) && list != []
    ensures i + 1 < |ts| && Opens(ts[i].kind) && ts[i + 1].kind == 'a' && OnlyWords(ts[i + 2..])
    ensures i > 0 ==> ts[i - 1].kind == 'a'
    ensures list[|list| - 1] == RdFor(ts[i].kind, ts[i + 1].span) && Items(Cut(ts, i), words, list[..|list| - 1])
    decreases |ts|
  {
    hide Items; hide RdFor;
    var front := list[..|list| - 1];
    ItemsHead(ts, words, list);
    if ts[0].kind == 'a' {
      var k := ItemsLast(ts[1..], words[1..], list);
      i := k + 1;
      ItemsWord(ts[0], Cut(ts[1..], k), words[1..], front);
      assert Cut(ts, i) == [ts[0]] + Cut(ts[1..], k) && ts[i + 2..] == ts[1..][k + 2..];
      assert words == [ts[0].span] + words[1..];
    } else if |list| == 1 {
      i := 0;
      assert Cut(ts, 0) == ts[2..] && list[1..] == [] == front;
      ItemsWords(ts[2..], words);
    } else {
      var k := ItemsLast(ts[2..], words, list[1..]);
      i := k + 2;
      ItemsRedir(ts[0], ts[1], Cut(ts[2..], k), words, list[1..][..|list| - 2]);
      assert Cut(ts, i) == [ts[0], ts[1]] + Cut(ts[2..], k) && ts[i + 2..] == ts[2..][k + 2..];
      assert front == [list[0]] + list[1..][..|list| - 2];
    }
  }

  /** Putting it back. */
  lemma {:induction false} ItemsPut(ts: seq<Tok>, i: nat, words: seq<Span>, list: seq<Rd>)
    requires i + 1 < |ts| && Opens(ts[i].kind) && ts[i + 1].kind == 'a' && OnlyWords(ts[i + 2..])
    requires i > 0 ==> ts[i - 1].kind == 'a'
    requires Items(Cut(ts, i), words, list)
    ensures Items(ts, words, list + [RdFor(ts[i].kind, ts[i + 1].span)])
    decreases |ts|
  {
    hide Items; hide RdFor;
    var last := [RdFor(ts[i].kind, ts[i + 1].span)];
    ItemsHead(Cut(ts, i), words, list);
    if i == 0 {
      assert Cut(ts, 0) == ts[2..] && ts == [ts[0], ts[1]] + ts[2..];
      OnlyWordsNoRedirs(ts[2..], words, list);
      ItemsRedir(ts[0], ts[1], ts[2..], words, []);
      assert last + [] == list + last;
    } else if ts[0].kind == 'a' {
      assert Cut(ts[1..], i - 1) == Cut(ts, i)[1..] && ts[1..][i - 1 + 2..] == ts[i + 2..];
      ItemsPut(ts[1..], i - 1, words[1..], list);
      ItemsWord(ts[0], ts[1..], words[1..], list + last);
      assert ts == [ts[0]] + ts[1..] && words == [words[0]] + words[1..];
    } else {
      assert Cut(ts[2..], i - 2) == Cut(ts, i)[2..] && ts[2..][i - 2 + 2..] == ts[i + 2..];
      ItemsPut(ts[2..], i - 2, words, list[1..]);
      ItemsRedir(ts[0], ts[1], ts[2..], words, list[1..] + last);
      assert ts == [ts[0], ts[1]] + ts[2..] && list + last == [list[0]] + (list[1..] + last);
    }
  }

  lemma {:induction false} OnlyWordsNoRedirs(ts: seq<Tok>, words: seq<Span>, list: seq<Rd>)
    requires OnlyWords(ts) && Items(ts, words, list)
    ensures list == []
    decreases |ts|
  {
    if ts != [] { OnlyWordsNoRedirs(ts[1..], words[1..], list); }
  }

  lemma RedirIs(op: Tok, file: Tok, c: Cmd<Span>, r: Rd)
    requires Opens(op.kind) && file.kind == 'a' && r == RdFor(op.kind, file.span)
    ensures IsRedir(op, file, Redir(c, r.file, r.mode, r.fd))
  {
  }

  lemma {:induction false} ItemsAreSimple(ts: seq<Tok>, words: seq<Span>, list: seq<Rd>)
    requires Items(ts, words, list) && |words| < MAXARGS
    ensures IsSimple(ts, Wrap(Exec(words), list))
    decreases |list|
  {
    if list == [] {
      ItemsWords(ts, words);
    } else {
      var i := ItemsLast(ts, words, list);
      var front, c := list[..|list| - 1], Wrap(Exec(words), list);
      ItemsAreSimple(Cut(ts, i), words, front);
      RedirIs(ts[i], ts[i + 1], Wrap(Exec(words), front), list[|list| - 1]);
      assert LastRedir(ts, i, c);
    }
  }

  lemma {:induction false} SimpleIsItems(ts: seq<Tok>, c: Cmd<Span>) returns (words: seq<Span>, list: seq<Rd>)
    requires IsSimple(ts, c)
    ensures Items(ts, words, list) && |words| < MAXARGS && c == Wrap(Exec(words), list)
    decreases |ts|
  {
    if c.Exec? {
      words, list := c.argv, [];
      ItemsWords(ts, words);
    } else {
      var i :| LastRedir(ts, i, c) && IsSimple(Cut(ts, i), c.cmd);
      var front;
      words, front := SimpleIsItems(Cut(ts, i), c.cmd);
      ItemsPut(ts, i, words, front);
      list := front + [RdFor(ts[i].kind, ts[i + 1].span)];
      assert list[..|list| - 1] == front;
    }
  }

  /** A block is a line in parentheses and the redirections after it. */
  lemma {:induction false} BlockIsItems(ts: seq<Tok>, c: Cmd<Span>)
      returns (open: Tok, inner: seq<Tok>, close: Tok, after: seq<Tok>, line: Cmd<Span>, list: seq<Rd>)
    requires IsBlock(ts, c)
    ensures ts == [open] + inner + [close] + after && open.kind == '(' && close.kind == ')'
    ensures IsLine(inner, line) && Items(after, [], list) && c == Wrap(line, list)
    decreases |ts|
  {
    hide IsLine; hide Items; hide RdFor; hide IsRedir; hide Wrap;
    var n := |ts|;
    EmptyItems();
    if ts[0].kind == '(' && ts[n - 1].kind == ')' && IsLine(ts[1..n - 1], c) {
      open, inner, close, after, line, list := ts[0], ts[1..n - 1], ts[n - 1], [], c, [];
      assert Wrap(c, []) == c by { WrapNothing(c); }
    } else {
      var front, none: seq<Span> := [], [];
      var op, file := ts[n - 2], ts[n - 1];
      IsRedirFor(op, file, c);
      open, inner, close, after, line, front := BlockIsItems(ts[..n - 2], c.cmd);
      var rd := RdFor(op.kind, file.span);
      WrapLast(line, front, rd);
      ItemsRedir(op, file, [], none, []);
      ItemsJoin(after, none, front, [op, file] + [], none, [rd] + []);
      assert none + none == none;
      assert [rd] + [] == [rd] && [op, file] + [] == [op, file];
      assert ts == ts[..n - 2] + [op, file];
      after, list := after + [op, file], front + [rd];
    }
  }

  lemma WrapNothing(c: Cmd<Span>)
    ensures Wrap(c, []) == c
  {
  }

  lemma WrapLast(c: Cmd<Span>, front: seq<Rd>, r: Rd)
    ensures Wrap(c, front + [r]) == Redir(Wrap(c, front), r.file, r.mode, r.fd)
  {
    assert (front + [r])[..|front|] == front;
  }

  lemma IsRedirFor(op: Tok, file: Tok, c: Cmd<Span>)
    requires IsRedir(op, file, c)
    ensures var r := RdFor(op.kind, file.span);
            Opens(op.kind) && file.kind == 'a' && c == Redir(c.cmd, r.file, r.mode, r.fd)
  {
  }

  lemma {:induction false} ItemsAreBlock(ts: seq<Tok>, line: Cmd<Span>, after: seq<Tok>, list: seq<Rd>)
    requires IsBlock(ts, line) && Items(after, [], list)
    ensures IsBlock(ts + after, Wrap(line, list))
    decreases |list|
  {
    hide IsLine;
    if list == [] {
      ItemsWords(after, []);
      assert ts + after == ts;
    } else {
      var r, ts1 := list[0], ts + after[..2];
      RedirIs(after[0], after[1], line, r);
      assert ts1[..|ts1| - 2] == ts;
      ItemsAreBlock(ts1, Redir(line, r.file, r.mode, r.fd), after[2..], list[1..]);
      WrapFirst(line, list);
      assert ts1 + after[2..] == ts + after;
    }
  }

  lemma {:induction false} WrapFirst(c: Cmd<Span>, list: seq<Rd>)
    requires list != []
    ensures Wrap(c, list) == Wrap(Redir(c, list[0].file, list[0].mode, list[0].fd), list[1..])
    decreases |list|
  {
    if |list| > 1 {
      WrapFirst(c, list[..|list| - 1]);
      assert list[1..][..|list| - 2] == list[..|list| - 1][1..];
    }
  }

  // ---- what the parser accepts is in the language -----------------------------------------

  lemma {:induction false} RedirsSound(s: string, p: nat) returns (ts: seq<Tok>)
    requires p <= |s| && ParseRedirs(s, p).Rds?
    ensures var r := ParseRedirs(s, p); Toks(s, p) == ts + Toks(s, r.at) && Items(ts, [], r.list)
    decreases |s| - p
  {
    hide Toks; hide PeekAt; hide GetTok; hide RdFor; hide Items;
    Peeks(s, p);
    EmptyItems();
    if PeekAt(s, p, "<>") {
      var tok := GetTok(s, p);
      var file := GetTok(s, tok.next);
      Peeks(s, tok.next);
      var rest := RedirsSound(s, file.next);
      ts := [Tok(tok.kind, tok.span), Tok(file.kind, file.span)] + rest;
      ItemsRedir(ts[0], ts[1], rest, [], ParseRedirs(s, file.next).list);
    } else {
      ts := [];
    }
  }

  lemma {:induction false} ArgsSound(s: string, p: nat, argc: nat) returns (ts: seq<Tok>)
    requires p <= |s| && ParseArgs(s, p, argc).Args? && argc < MAXARGS
    ensures var r := ParseArgs(s, p, argc);
            Toks(s, p) == ts + Toks(s, r.at) && Items(ts, r.words, r.list) && argc + |r.words| < MAXARGS
    decreases |s| - p
  {
    hide Toks; hide PeekAt; hide GetTok; hide RdFor; hide ParseRedirs; hide Items;
    Peeks(s, p);
    EmptyItems();
    ts := [];
    var tok := GetTok(s, p);
    if !PeekAt(s, p, "|)&;") && tok.kind != '\0' {
      var rs := ParseRedirs(s, tok.next);
      var redirs := RedirsSound(s, tok.next);
      var rest := ArgsSound(s, rs.at, argc + 1);
      var args := ParseArgs(s, rs.at, argc + 1);
      ItemsJoin(redirs, [], rs.list, rest, args.words, args.list);
      assert [] + args.words == args.words;
      ts := [Tok(tok.kind, tok.span)] + (redirs + rest);
      ItemsWord(ts[0], redirs + rest, args.words, rs.list + args.list);
    }
  }

  lemma SimpleSound(s: string, p: nat) returns (ts: seq<Tok>)
    requires p <= |s| && ParseSimple(s, p).Ok?
    ensures var r := ParseSimple(s, p); Toks(s, p) == ts + Toks(s, r.at) && IsSimple(ts, r.cmd)
  {
    hide Toks; hide ParseRedirs; hide ParseArgs; hide Items; hide IsSimple; hide Wrap;
    var rs := ParseRedirs(s, p);
    var args := ParseArgs(s, rs.at, 0);
    var a := RedirsSound(s, p);
    var b := ArgsSound(s, rs.at, 0);
    ItemsJoin(a, [], rs.list, b, args.words, args.list);
    assert [] + args.words == args.words;
    ts := a + b;
    ItemsAreSimple(ts, args.words, rs.list + args.list);
  }

  lemma {:induction false} BlockSound(s: string, p: nat) returns (ts: seq<Tok>)
    requires p <= |s| && ParseBlock(s, p).Ok?
    ensures var r := ParseBlock(s, p); Toks(s, p) == ts + Toks(s, r.at) && IsBlock(ts, r.cmd)
    decreases |s| - p, 0
  {
    hide Toks; hide ParseRedirs; hide ParseLine; hide PeekAt; hide GetTok; hide Items; hide IsLine; hide Wrap;
    hide IsRedir;
    Peeks(s, p);
    var open := GetTok(s, p);
    var line := ParseLine(s, open.next);
    Peeks(s, line.at);
    var close := GetTok(s, line.at);
    var inner := LineSound(s, open.next);
    var after := RedirsSound(s, close.next);
    var block := [Tok(open.kind, open.span)] + inner + [Tok(close.kind, close.span)];
    assert block[1..|block| - 1] == inner;
    ItemsAreBlock(block, line.cmd, after, ParseRedirs(s, close.next).list);
    ts := block + after;
  }

  lemma {:induction false} ExecSound(s: string, p: nat) returns (ts: seq<Tok>)
    requires p <= |s| && ParseExec(s, p).Ok?
    ensures var r := ParseExec(s, p); Toks(s, p) == ts + Toks(s, r.at) && IsExec(ts, r.cmd)
    decreases |s| - p, 1
  {
    hide Toks; hide ParseBlock; hide ParseSimple; hide PeekAt; hide IsBlock; hide IsSimple;
    if PeekAt(s, p, "(") { ts := BlockSound(s, p); } else { ts := SimpleSound(s, p); }
  }

  /** The tokens between the cursors p and r.at are the command r.cmd. */
  ghost predicate ReadsExec(s: string, p: nat, r: Parsed)
    requires p <= |s| && (r.Ok? ==> r.at <= |s|)
  {
    r.Ok? ==> exists ts :: Toks(s, p) == ts + Toks(s, r.at) && IsExec(ts, r.cmd)
  }

  lemma ExecReads(s: string, p: nat)
    requires p <= |s|
    ensures ReadsExec(s, p, ParseExec(s, p))
  {
    hide Toks; hide IsExec; hide ParseExec;
    if ParseExec(s, p).Ok? { var ts := ExecSound(s, p); }
  }

  lemma {:induction false} PipeSound(s: string, p: nat) returns (ts: seq<Tok>)
    requires p <= |s| && ParsePipe(s, p).Ok?
    ensures var r := ParsePipe(s, p); Toks(s, p) == ts + Toks(s, r.at) && IsPipe(ts, r.cmd)
    decreases |s| - p, 2
  {
    hide Toks; hide ParseExec; hide PeekAt; hide GetTok; hide IsExec;
    var left := ParseExec(s, p);
    ts := ExecSound(s, p);
    Peeks(s, left.at);
    if PeekAt(s, left.at, "|") {
      var bar := GetTok(s, left.at);
      var rest := PipeSound(s, bar.next);
      PipeMore(ts, Tok(bar.kind, bar.span), rest, left.cmd, ParsePipe(s, bar.next).cmd);
      ts := ts + [Tok(bar.kind, bar.span)] + rest;
    }
  }

  lemma {:induction false} BacksSound(s: string, p: nat, c: Cmd<Span>, before: seq<Tok>) returns (ts: seq<Tok>)
    requires p <= |s| && WordsOk(s, c) && IsBacks(before, c)
    ensures var r := Backs(s, p, c); Toks(s, p) == ts + Toks(s, r.at) && IsBacks(before + ts, r.cmd)
    decreases |s| - p
  {
    hide Toks; hide PeekAt; hide GetTok; hide IsBacks;
    Peeks(s, p);
    if PeekAt(s, p, "&") {
      var amp := GetTok(s, p);
      var t := [Tok(amp.kind, amp.span)];
      BacksMore(before, t[0], c);
      var rest := BacksSound(s, amp.next, Back(c), before + t);
      ts := t + rest;
      assert before + ts == before + t + rest;
    } else {
      ts := [];
      assert before + ts == before;
    }
  }

  lemma {:induction false} LineSound(s: string, p: nat) returns (ts: seq<Tok>)
    requires p <= |s| && ParseLine(s, p).Ok?
    ensures var r := ParseLine(s, p); Toks(s, p) == ts + Toks(s, r.at) && IsLine(ts, r.cmd)
    decreases |s| - p, 3
  {
    hide Toks; hide ParsePipe; hide PeekAt; hide GetTok; hide IsBacks; hide Backs;
    var first := ParsePipe(s, p);
    var left := Backs(s, first.at, first.cmd);
    var a := PipeSound(s, p);
    PipeIsBacks(a, first.cmd);
    var b := BacksSound(s, first.at, first.cmd, a);
    ts := a + b;
    Peeks(s, left.at);
    if PeekAt(s, left.at, ";") {
      var semi := GetTok(s, left.at);
      var rest := LineSound(s, semi.next);
      LineMore(ts, Tok(semi.kind, semi.span), rest, left.cmd, ParseLine(s, semi.next).cmd);
      ts := ts + [Tok(semi.kind, semi.span)] + rest;
    }
  }

  lemma PipeMore(a: seq<Tok>, bar: Tok, b: seq<Tok>, l: Cmd<Span>, r: Cmd<Span>)
    requires IsExec(a, l) && bar.kind == '|' && IsPipe(b, r)
    ensures IsPipe(a + [bar] + b, Pipe(l, r))
  {
    hide IsExec;
    var ts, i := a + [bar] + b, |a|;
    assert ts[i] == bar && ts[..i] == a && ts[i + 1..] == b;
  }

  lemma BacksMore(a: seq<Tok>, amp: Tok, c: Cmd<Span>)
    requires IsBacks(a, c) && amp.kind == '&'
    ensures IsBacks(a + [amp], Back(c))
  {
    hide IsPipe;
    assert (a + [amp])[..|a|] == a;
  }

  lemma LineMore(a: seq<Tok>, semi: Tok, b: seq<Tok>, l: Cmd<Span>, r: Cmd<Span>)
    requires IsBacks(a, l) && semi.kind == ';' && IsLine(b, r)
    ensures IsLine(a + [semi] + b, List(l, r))
  {
    hide IsBacks;
    var ts, i := a + [semi] + b, |a|;
    assert ts[i] == semi && ts[..i] == a && ts[i + 1..] == b;
  }

  lemma PipeIsBacks(ts: seq<Tok>, c: Cmd<Span>)
    requires IsPipe(ts, c)
    ensures IsBacks(ts, c)
  {
  }

  // ---- what is in the language the parser accepts -----------------------------------------

  /** The kinds of token that may follow a line, a pipe and a command. */
  predicate EndsLine(k: char) { k == '\0' || k == ')' }

  predicate EndsPipe(k: char) { EndsLine(k) || k == '&' || k == ';' }

  predicate EndsExec(k: char) { EndsPipe(k) || k == '|' }

  lemma {:induction false} RedirsComplete(s: string, p: nat, ts: seq<Tok>, words: seq<Span>, list: seq<Rd>,
      rest: seq<Tok>) returns (more: seq<Tok>, later: seq<Rd>)
    requires p <= |s| && Toks(s, p) == ts + rest && Items(ts, words, list) && EndsExec(Kind(rest))
    ensures var r := ParseRedirs(s, p);
            r.Rds? && list == r.list + later && Toks(s, r.at) == more + rest && Items(more, words, later)
    ensures more == [] || more[0].kind == 'a'
    decreases |ts|
  {
    hide Toks; hide GetTok; hide PeekAt; hide Items; hide RdFor;
    Peeks(s, p);
    ItemsHead(ts, words, list);
    if ts != [] && ts[0].kind != 'a' {
      var tok := GetTok(s, p);
      assert ts + rest == [ts[0]] + ([ts[1]] + (ts[2..] + rest));
      Takes(s, p, ts[0], [ts[1]] + (ts[2..] + rest));
      Takes(s, tok.next, ts[1], ts[2..] + rest);
      var file := GetTok(s, tok.next);
      more, later := RedirsComplete(s, file.next, ts[2..], words, list[1..], rest);
    } else {
      more, later := ts, list;
    }
  }

  lemma {:induction false} ArgsComplete(s: string, p: nat, argc: nat, ts: seq<Tok>, words: seq<Span>, list: seq<Rd>,
      rest: seq<Tok>)
    requires p <= |s| && Toks(s, p) == ts + rest && Items(ts, words, list) && EndsExec(Kind(rest))
    requires (ts == [] || ts[0].kind == 'a') && argc + |words| < MAXARGS
    ensures var r := ParseArgs(s, p, argc);
            r.Args? && r.words == words && r.list == list && Toks(s, r.at) == rest
    decreases |ts|
  {
    hide Toks; hide GetTok; hide PeekAt; hide Items; hide RdFor; hide ParseRedirs;
    Peeks(s, p);
    ItemsHead(ts, words, list);
    if ts == [] {
      assert ts + rest == rest;
    } else {
      var tok := GetTok(s, p);
      assert ts + rest == [ts[0]] + (ts[1..] + rest);
      Takes(s, p, ts[0], ts[1..] + rest);
      var rs := ParseRedirs(s, tok.next);
      var more, later := RedirsComplete(s, tok.next, ts[1..], words[1..], list, rest);
      Fewer(s, tok.next, ts[1..], more, rest);
      ArgsComplete(s, rs.at, argc + 1, more, words[1..], later, rest);
    }
  }

  /** Parsing redirections uses up tokens. */
  lemma Fewer(s: string, p: nat, ts: seq<Tok>, more: seq<Tok>, rest: seq<Tok>)
    requires p <= |s| && Toks(s, p) == ts + rest && ParseRedirs(s, p).Rds?
    requires Toks(s, ParseRedirs(s, p).at) == more + rest
    ensures |more| <= |ts|
  {
    var taken := RedirsSound(s, p);
    assert |ts + rest| == |taken| + |more + rest|;
  }

  /** The parser r has read ts as c and stands before rest. */
  ghost predicate Reads(s: string, r: Parsed, c: Cmd<Span>, rest: seq<Tok>) {
    r.Ok? && r.cmd == c && r.at <= |s| && Toks(s, r.at) == rest
  }

  lemma SimpleComplete(s: string, p: nat, ts: seq<Tok>, c: Cmd<Span>, rest: seq<Tok>)
    requires p <= |s| && Toks(s, p) == ts + rest && IsSimple(ts, c) && EndsExec(Kind(rest))
    ensures Reads(s, ParseExec(s, p), c, rest)
  {
    hide Toks; hide GetTok; hide PeekAt; hide Items; hide ParseRedirs; hide ParseArgs; hide IsSimple; hide Wrap;
    hide ParseBlock;
    var words, list := SimpleIsItems(ts, c);
    ItemsHead(ts, words, list);
    Peeks(s, p);
    var more, later := RedirsComplete(s, p, ts, words, list, rest);
    ArgsComplete(s, ParseRedirs(s, p).at, 0, more, words, later, rest);
  }

  lemma {:induction false} BlockComplete(s: string, p: nat, ts: seq<Tok>, c: Cmd<Span>, rest: seq<Tok>)
    requires p <= |s| && Toks(s, p) == ts + rest && IsBlock(ts, c) && EndsExec(Kind(rest))
    ensures Reads(s, ParseExec(s, p), c, rest)
    decreases |ts|, 0
  {
    hide Toks; hide GetTok; hide PeekAt; hide Items; hide ParseRedirs; hide ParseLine; hide IsBlock; hide Wrap;
    hide IsLine; hide ParseSimple;
    var open, inner, close, after, line, list := BlockIsItems(ts, c);
    Peeks(s, p);
    var q := GetTok(s, p).next;
    var tail := [close] + (after + rest);
    assert ts + rest == [open] + (inner + tail);
    Takes(s, p, open, inner + tail);
    LineComplete(s, q, inner, line, tail);
    var at := ParseLine(s, q).at;
    Peeks(s, at);
    Takes(s, at, close, after + rest);
    var more, later := RedirsComplete(s, GetTok(s, at).next, after, [], list, rest);
    ItemsHead(more, [], later);
    var rs := ParseRedirs(s, GetTok(s, at).next);
    assert more + rest == rest && rs.list + [] == rs.list;
    assert ParseBlock(s, p) == Ok(Wrap(line, rs.list), rs.at);
  }

  lemma {:induction false} ExecComplete(s: string, p: nat, ts: seq<Tok>, c: Cmd<Span>, rest: seq<Tok>)
    requires p <= |s| && Toks(s, p) == ts + rest && IsExec(ts, c) && EndsExec(Kind(rest))
    ensures Reads(s, ParseExec(s, p), c, rest)
    decreases |ts|, 1
  {
    hide Toks; hide IsSimple; hide IsBlock; hide ParseExec; hide Reads;
    if IsSimple(ts, c) { SimpleComplete(s, p, ts, c, rest); } else { BlockComplete(s, p, ts, c, rest); }
  }

  lemma {:induction false} PipeComplete(s: string, p: nat, ts: seq<Tok>, c: Cmd<Span>, rest: seq<Tok>)
    requires p <= |s| && Toks(s, p) == ts + rest && IsPipe(ts, c) && EndsPipe(Kind(rest))
    ensures Reads(s, ParsePipe(s, p), c, rest)
    decreases |ts|, 2
  {
    hide Toks; hide IsExec; hide ParseExec; hide GetTok; hide PeekAt;
    if IsExec(ts, c) {
      ExecComplete(s, p, ts, c, rest);
    } else {
      var i :| 0 <= i < |ts| && ts[i].kind == '|' && IsExec(ts[..i], c.left) && IsPipe(ts[i + 1..], c.right);
      assert ts + rest == ts[..i] + ([ts[i]] + (ts[i + 1..] + rest));
      ExecComplete(s, p, ts[..i], c.left, [ts[i]] + (ts[i + 1..] + rest));
      var at := ParseExec(s, p).at;
      Peeks(s, at);
      Takes(s, at, ts[i], ts[i + 1..] + rest);
      PipeComplete(s, GetTok(s, at).next, ts[i + 1..], c.right, rest);
    }
    Peeks(s, ParseExec(s, p).at);
  }

  /** c in the background n times */
  function Backed(c: Cmd<Span>, n: nat): Cmd<Span> {
    if n == 0 then c else Back(Backed(c, n - 1))
  }

  lemma {:induction false} BackedOnce(c: Cmd<Span>, n: nat)
    ensures Backed(Back(c), n) == Back(Backed(c, n))
  {
    if n > 0 { BackedOnce(c, n - 1); }
  }

  predicate OnlyAmps(ts: seq<Tok>) { forall j :: 0 <= j < |ts| ==> ts[j].kind == '&' }

  lemma {:induction false} BacksParts(ts: seq<Tok>, c: Cmd<Span>) returns (pipe: seq<Tok>, amps: seq<Tok>, d: Cmd<Span>)
    requires IsBacks(ts, c)
    ensures ts == pipe + amps && IsPipe(pipe, d) && OnlyAmps(amps) && c == Backed(d, |amps|)
    decreases |ts|
  {
    hide IsPipe;
    if IsPipe(ts, c) {
      pipe, amps, d := ts, [], c;
    } else {
      pipe, amps, d := BacksParts(ts[..|ts| - 1], c.cmd);
      amps := amps + [ts[|ts| - 1]];
    }
  }

  lemma {:induction false} AmpsComplete(s: string, p: nat, amps: seq<Tok>, c: Cmd<Span>, rest: seq<Tok>)
    requires p <= |s| && WordsOk(s, c) && Toks(s, p) == amps + rest && OnlyAmps(amps) && Kind(rest) != '&'
    ensures Reads(s, Backs(s, p, c), Backed(c, |amps|), rest)
    decreases |amps|
  {
    hide Toks; hide GetTok; hide PeekAt;
    Peeks(s, p);
    if amps != [] {
      assert amps + rest == [amps[0]] + (amps[1..] + rest);
      Takes(s, p, amps[0], amps[1..] + rest);
      AmpsComplete(s, GetTok(s, p).next, amps[1..], Back(c), rest);
      BackedOnce(c, |amps| - 1);
    } else {
      assert amps + rest == rest;
    }
  }

  lemma {:induction false} BacksComplete(s: string, p: nat, ts: seq<Tok>, c: Cmd<Span>, rest: seq<Tok>)
    requires p <= |s| && Toks(s, p) == ts + rest && IsBacks(ts, c) && (EndsLine(Kind(rest)) || Kind(rest) == ';')
    ensures ParsePipe(s, p).Ok? && Reads(s, Backs(s, ParsePipe(s, p).at, ParsePipe(s, p).cmd), c, rest)
    decreases |ts|, 3
  {
    hide Toks; hide ParsePipe; hide Backs; hide Backed; hide IsBacks; hide IsPipe;
    var pipe, amps, d := BacksParts(ts, c);
    assert ts + rest == pipe + (amps + rest);
    PipeComplete(s, p, pipe, d, amps + rest);
    AmpsComplete(s, ParsePipe(s, p).at, amps, d, rest);
  }

  lemma {:induction false} LineComplete(s: string, p: nat, ts: seq<Tok>, c: Cmd<Span>, rest: seq<Tok>)
    requires p <= |s| && Toks(s, p) == ts + rest && IsLine(ts, c) && EndsLine(Kind(rest))
    ensures Reads(s, ParseLine(s, p), c, rest)
    decreases |ts|, 4
  {
    hide Toks; hide ParsePipe; hide Backs; hide IsBacks; hide GetTok; hide PeekAt;
    if IsBacks(ts, c) {
      BacksComplete(s, p, ts, c, rest);
      Peeks(s, Backs(s, ParsePipe(s, p).at, ParsePipe(s, p).cmd).at);
    } else {
      var i :| 0 <= i < |ts| && ts[i].kind == ';' && IsBacks(ts[..i], c.left) && IsLine(ts[i + 1..], c.right);
      assert ts + rest == ts[..i] + ([ts[i]] + (ts[i + 1..] + rest));
      BacksComplete(s, p, ts[..i], c.left, [ts[i]] + (ts[i + 1..] + rest));
      var at := Backs(s, ParsePipe(s, p).at, ParsePipe(s, p).cmd).at;
      Peeks(s, at);
      Takes(s, at, ts[i], ts[i + 1..] + rest);
      LineComplete(s, GetTok(s, at).next, ts[i + 1..], c.right, rest);
    }
  }

  /** The parser accepts exactly the lines of the grammar, and its tree is the derivation:
      every token of the input is used once, in its place. */
  lemma ParserIsGrammar(s: string, c: Cmd<Span>)
    ensures ParseAll(s).Ok? && ParseAll(s).cmd == c <==> IsLine(Toks(s, 0), c)
  {
    hide Toks; hide ParseLine; hide IsLine;
    var line, all := ParseLine(s, 0), Toks(s, 0);
    if ParseAll(s).Ok? {
      var ts := LineSound(s, 0);
      AtEnd(s, line.at);
      assert ts + [] == ts;
    }
    if IsLine(all, c) {
      assert all + [] == all;
      LineComplete(s, 0, all, c, []);
      AtEnd(s, line.at);
    }
  }

  /** What parsecmd returns: the derivation, or a panic if there is none. */
  ghost predicate Derived(s: string, r: Parsed) {
    if r.Ok? then IsLine(Toks(s, 0), r.cmd) else forall c :: !IsLine(Toks(s, 0), c)
  }

  lemma AllDerived(s: string)
    ensures Derived(s, ParseAll(s))
  {
    hide ParseAll; hide IsLine; hide Toks;
    forall c ensures IsLine(Toks(s, 0), c) <==> ParseAll(s).Ok? && ParseAll(s).cmd == c { ParserIsGrammar(s, c); }
  }

  lemma AtEnd(s: string, p: nat)
    requires p <= |s|
    ensures Toks(s, p) == [] <==> Skip(s, p) == |s|
  {
  }

  /** So the grammar is not ambiguous. */
  lemma Unambiguous(s: string, c: Cmd<Span>, d: Cmd<Span>)
    requires IsLine(Toks(s, 0), c) && IsLine(Toks(s, 0), d)
    ensures c == d
  {
    hide ParseAll; hide IsLine;
    ParserIsGrammar(s, c);
    ParserIsGrammar(s, d);
  }
}
