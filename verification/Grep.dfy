/** The matcher of user/grep.c (Kernighan and Pike, The Practice of Programming,
    chapter 9): ^ . * $ and literal characters.  A C string is the sequence of its
    characters before the NUL. */
module Grep {

  // ---- what a pattern means ---------------------------------------------------------

  /** One character, or any number of them; '.' stands for every character. */
  datatype Item = One(c: char) | Star(c: char)

  /** What is left of a pattern after ^: items, and whether they end at $. */
  datatype Pattern = Pattern(items: seq<Item>, end: bool)

  predicate CharOk(c: char, x: char) { c == '.' || c == x }

  function Parse(re: string): Pattern {
    if re == "" then Pattern([], false)
    else if |re| >= 2 && re[1] == '*' then var rest := Parse(re[2..]); Pattern([Star(re[0])] + rest.items, rest.end)
    else if re == "$" then Pattern([], true)
    else var rest := Parse(re[1..]); Pattern([One(re[0])] + rest.items, rest.end)
  }

  /** The pattern as it is typed. */
  function Show(p: Pattern): string
    decreases |p.items|
  {
    if p.items == [] then (if p.end then "$" else "")
    else
      var rest := Show(Pattern(p.items[1..], p.end));
      match p.items[0]
      case One(c) => [c] + rest
      case Star(c) => [c, '*'] + rest
  }

  /** A single character is not followed by *, and a last $ is not a character. */
  predicate Canonical(p: Pattern) {
    && (forall k :: 0 <= k < |p.items| - 1 && p.items[k].One? ==> p.items[k + 1].c != '*')
    && (p.items != [] && p.items[|p.items| - 1] == One('$') ==> p.end)
  }

  /** Every string is the text of one canonical pattern, the one it is read as. */
  lemma {:induction false} ShowParse(re: string)
    ensures Show(Parse(re)) == re && Canonical(Parse(re))
    decreases |re|
  {
    hide Show; hide Canonical;
    if |re| >= 2 && re[1] == '*' {
      ShowParse(re[2..]);
      Unshift(Star(re[0]), Parse(re[2..]));
      assert re == [re[0], '*'] + re[2..];
    } else if re == "" || re == "$" {
      NoItems(re == "$");
    } else {
      ShowParse(re[1..]);
      Unshift(One(re[0]), Parse(re[1..]));
      assert re == [re[0]] + re[1..];
    }
  }

  lemma NoItems(end: bool)
    ensures Show(Pattern([], end)) == (if end then "$" else "") && Canonical(Pattern([], end))
  {
  }

  /** An item in front of a pattern. */
  lemma Unshift(item: Item, p: Pattern)
    requires Canonical(p)
    ensures Show(Pattern([item] + p.items, p.end)) == (if item.One? then [item.c] else [item.c, '*']) + Show(p)
    ensures item.Star? || (if Show(p) == "" then item.c != '$' else Show(p)[0] != '*') ==>
              Canonical(Pattern([item] + p.items, p.end))
  {
    var q := Pattern([item] + p.items, p.end);
    assert q.items[1..] == p.items;
    if p.items != [] { assert Show(p)[0] == p.items[0].c; }
    assert forall k :: 0 <= k < |p.items| ==> q.items[k + 1] == p.items[k];
  }

  lemma {:induction false} ParseShow(p: Pattern)
    requires Canonical(p)
    ensures Parse(Show(p)) == p
    decreases |p.items|
  {
    if p.items != [] {
      var rest := Pattern(p.items[1..], p.end);
      assert forall k :: 0 <= k < |rest.items| ==> rest.items[k] == p.items[k + 1];
      ParseShow(rest);
      Unshift(p.items[0], rest);
      assert [p.items[0]] + rest.items == p.items;
      var re := Show(p);
      if p.items[0].Star? {
        assert re[2..] == Show(rest);
      } else {
        assert re[1..] == Show(rest);
        if rest.items != [] { assert Show(rest)[0] == rest.items[0].c; }
      }
    }
  }

  /** item matches text from index a to index b. */
  ghost predicate Covers(item: Item, text: string, a: nat, b: nat) {
    && a <= b <= |text| && (item.One? ==> b == a + 1)
    && forall i :: a <= i < b ==> CharOk(item.c, text[i])
  }

  /** The cuts split the start of text into one piece for each item. */
  ghost predicate Splits(p: Pattern, text: string, cuts: seq<nat>) {
    && |cuts| == |p.items| + 1 && cuts[0] == 0
    && (forall k :: 0 <= k < |p.items| ==> PieceOk(p, text, cuts, k))
    && (p.end ==> cuts[|p.items|] == |text|)
  }

  ghost predicate PieceOk(p: Pattern, text: string, cuts: seq<nat>, k: nat)
    requires |cuts| == |p.items| + 1 && k < |p.items|
  {
    Covers(p.items[k], text, cuts[k], cuts[k + 1])
  }

  ghost predicate Matches(p: Pattern, text: string) {
    exists cuts :: Splits(p, text, cuts)
  }

  /** Some place of text matches; with a leading ^ only the start counts. */
  ghost predicate Found(re: string, text: string) {
    if re != "" && re[0] == '^' then Matches(Parse(re[1..]), text)
    else exists k :: 0 <= k <= |text| && Matches(Parse(re), text[k..])
  }

  // ---- the meaning, item by item -----------------------------------------------------

  lemma MatchesNone(end: bool, text: string)
    ensures Matches(Pattern([], end), text) <==> !end || text == ""
  {
    if !end || text == "" { assert Splits(Pattern([], end), text, [0]); }
  }

  function Rest(p: Pattern): Pattern
    requires p.items != []
  {
    Pattern(p.items[1..], p.end)
  }

  /** A match of the rest, after a first piece of length b, is a match of the whole. */
  lemma Extend(p: Pattern, text: string, b: nat)
    requires p.items != [] && Covers(p.items[0], text, 0, b) && Matches(Rest(p), text[b..])
    ensures Matches(p, text)
  {
    var cuts :| Splits(Rest(p), text[b..], cuts);
    var all := [0] + seq(|cuts|, i requires 0 <= i < |cuts| => cuts[i] + b);
    forall k | 0 <= k < |p.items| ensures PieceOk(p, text, all, k) {
      if k > 0 {
        assert PieceOk(Rest(p), text[b..], cuts, k - 1);
        forall i | all[k] <= i < all[k + 1] ensures CharOk(p.items[k].c,
            text[i]) { assert text[i] == text[b..][i - b]; }
      }
    }
    assert Splits(p, text, all);
  }

  /** And the other way round. */
  lemma Shrink(p: Pattern, text: string) returns (b: nat)
    requires p.items != [] && Matches(p, text)
    ensures b <= |text| && Covers(p.items[0], text, 0, b) && Matches(Rest(p), text[b..])
  {
    var all :| Splits(p, text, all);
    assert PieceOk(p, text, all, 0);
    b := all[1];
    Increasing(p, text, all);
    var cuts := seq(|all| - 1, i requires 0 <= i < |all| - 1 => all[i + 1] - b);
    forall k | 0 <= k < |p.items| - 1 ensures PieceOk(Rest(p), text[b..], cuts, k) {
      assert PieceOk(p, text, all, k + 1);
    }
    assert Splits(Rest(p), text[b..], cuts);
  }

  lemma Increasing(p: Pattern, text: string, cuts: seq<nat>)
    requires Splits(p, text, cuts) && p.items != []
    ensures forall k :: 1 <= k < |cuts| ==> cuts[1] <= cuts[k]
  {
    var k := 1;
    while k + 1 < |cuts|
      invariant 1 <= k < |cuts| && forall j :: 1 <= j <= k ==> cuts[1] <= cuts[j]
    {
      assert PieceOk(p, text, cuts, k);
      k := k + 1;
    }
  }

  // ---- the matcher ----------------------------------------------------------------------

  /** matchhere() */
  method MatchHere(re: string, text: string) returns (b: bool)
    ensures b <==> Matches(Parse(re), text)
    decreases |re|, |text|, 0
  {
    if re == "" {
      MatchesNone(false, text);
      return true;
    }
    if |re| >= 2 && re[1] == '*' {
      b := MatchStar(re[0], re[2..], text);
      return;
    }
    if re == "$" {
      MatchesNone(true, text);
      return text == "";
    }
    var p := Parse(re);
    assert Rest(p) == Parse(re[1..]);
    if text != "" && (re[0] == '.' || re[0] == text[0]) {
      b := MatchHere(re[1..], text[1..]);
      if b { Extend(p, text, 1); }
    } else {
      b := false;
    }
    if Matches(p, text) { var _ := Shrink(p, text); }
  }

  /** matchstar() */
  method MatchStar(c: char, re: string, text: string) returns (b: bool)
    ensures b <==> Matches(Pattern([Star(c)] + Parse(re).items, Parse(re).end), text)
    decreases |re|, |text|, 1
  {
    ghost var p := Pattern([Star(c)] + Parse(re).items, Parse(re).end);
    assert Rest(p) == Parse(re);
    var i := 0;
    while true
      invariant 0 <= i <= |text| && forall k :: 0 <= k < i ==> CharOk(c, text[k])
      invariant forall k :: 0 <= k < i ==> !Matches(Parse(re), text[k..])
      decreases |text| - i
    {
      b := MatchHere(re, text[i..]);
      if b {
        Extend(p, text, i);
        return true;
      }
      if i < |text| && (text[i] == c || c == '.') { i := i + 1; } else { break; }
    }
    if Matches(p, text) { var _ := Shrink(p, text); }
    return false;
  }

  /** match(): 1 exactly when the pattern is found. */
  method Match(re: string, text: string) returns (b: bool)
    ensures b <==> Found(re, text)
  {
    if re != "" && re[0] == '^' {
      b := MatchHere(re[1..], text);
      return;
    }
    var i := 0;
    while true
      invariant 0 <= i <= |text| && forall k :: 0 <= k < i ==> !Matches(Parse(re), text[k..])
      decreases |text| - i
    {
      b := MatchHere(re, text[i..]);
      if b || i == |text| { return; }
      i := i + 1;
    }
  }
}
