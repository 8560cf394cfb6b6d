/**
 The regular-expression matcher of user/grep.c, proved against a denotational
 reading of patterns.  A C string is a `string`; its terminating NUL is the end
 of the sequence.
 */
module Grep {

  /** One item of a pattern: a single character, or a starred character. */
  datatype Item = One(c: char) | Many(c: char)

  /** A pattern without its leading '^'; `toEnd` records an unstarred final '$'. */
  datatype Pattern = Pattern(items: seq<Item>, toEnd: bool)

  predicate Accepts(c: char, x: char) {
    c == '.' || c == x
  }

  // ---- How patterns are written ----

  /** The text of an item. */
  function Text(item: Item): string {
    match item
    case One(c) => [c]
    case Many(c) => [c, '*']
  }

  /** Items written one after the other, and the dollar sign of a pattern that must reach the end. */
  function Show(p: Pattern): string
    decreases |p.items|
  {
    if p.items == [] then (if p.toEnd then "$" else "")
    else Text(p.items[0]) + Show(p.(items := p.items[1..]))
  }

  /** A character without star is not followed by a star, and is not a final dollar sign. */
  predicate Plainly(p: Pattern)
    decreases |p.items|
  {
    p.items == [] ||
    var rest := p.(items := p.items[1..]);
    && Plainly(rest)
    && (p.items[0].One? ==> (Show(rest) == "" ==> p.items[0].c != '$') && (Show(rest) != "" ==> Show(rest)[0] != '*'))
  }

  /** The grammar of patterns, read left to right. */
  function Compile(re: string): Pattern {
    if re == "" then Pattern([], false)
    else if |re| >= 2 && re[1] == '*' then
      var p := Compile(re[2..]);
      p.(items := [Many(re[0])] + p.items)
    else if re == "$" then Pattern([], true)
    else
      var p := Compile(re[1..]);
      p.(items := [One(re[0])] + p.items)
  }

  /** Every string is the text of exactly one such pattern, the one that Compile gives. */
  lemma {:induction false} ShowCompile(re: string)
    ensures Show(Compile(re)) == re && Plainly(Compile(re))
    decreases |re|
  {
    if re != "" {
      var p := Compile(re);
      if |re| >= 2 && re[1] == '*' {
        ShowCompile(re[2..]);
        assert p.(items := p.items[1..]) == Compile(re[2..]);
        assert re == [re[0], '*'] + re[2..];
      } else if re != "$" {
        ShowCompile(re[1..]);
        assert p.(items := p.items[1..]) == Compile(re[1..]);
        assert re == [re[0]] + re[1..];
      }
    }
  }

  lemma {:induction false} CompileShow(p: Pattern)
    requires Plainly(p)
    ensures Compile(Show(p)) == p
    decreases |p.items|
  {
    if p.items != [] {
      var rest := p.(items := p.items[1..]);
      CompileShow(rest);
      var re := Show(p);
      assert p == rest.(items := [p.items[0]] + rest.items);
      match p.items[0] {
        case One(c) =>
          assert re == [c] + Show(rest) && re[1..] == Show(rest);
        case Many(c) =>
          assert re == [c, '*'] + Show(rest) && re[2..] == Show(rest);
      }
    }
  }

  ghost predicate Fits(item: Item, w: string) {
    match item
    case One(c) => |w| == 1 && Accepts(c, w[0])
    case Many(c) => forall k :: 0 <= k < |w| ==> Accepts(c, w[k])
  }

  function Concat(words: seq<string>): string {
    if words == [] then "" else words[0] + Concat(words[1..])
  }

  /** `s` is written as one word per item, each word fitting its item. */
  ghost predicate Divides(items: seq<Item>, s: string, words: seq<string>) {
    && |words| == |items|
    && Concat(words) == s
    && (forall i :: 0 <= i < |items| ==> Fits(items[i], words[i]))
  }

  /** The language of a list of items. */
  ghost predicate InLanguage(items: seq<Item>, s: string) {
    exists words :: Divides(items, s, words)
  }

  /** `p` describes the substring `text[i..j]`, which must reach the end of `text` if `p` says so. */
  ghost predicate Occurs(p: Pattern, text: string, i: nat, j: nat) {
    && i <= j <= |text|
    && InLanguage(p.items, text[i..j])
    && (p.toEnd ==> j == |text|)
  }

  ghost predicate StartsHere(p: Pattern, text: string, i: nat) {
    exists j: nat :: Occurs(p, text, i, j)
  }

  /** re is the text of p. */
  predicate Writes(re: string, p: Pattern) {
    Plainly(p) && Show(p) == re
  }

  /** The pattern written re occurs in the text from position i on. */
  ghost predicate MatchesAt(re: string, text: string, i: nat) {
    exists p :: Writes(re, p) && StartsHere(p, text, i)
  }

  /** The meaning of `match`: under a leading caret, at the start; otherwise anywhere. */
  ghost predicate Found(re: string, text: string) {
    if re != "" && re[0] == '^' then MatchesAt(re[1..], text, 0)
    else exists i: nat :: MatchesAt(re, text, i)
  }

  lemma MatchesCompiled(re: string, text: string, i: nat)
    ensures MatchesAt(re, text, i) <==> StartsHere(Compile(re), text, i)
  {
    ShowCompile(re);
    assert Writes(re, Compile(re));
    if p :| Writes(re, p) && StartsHere(p, text, i) {
      CompileShow(p);
    }
  }

  // ---- How the language is built from its first item ----

  lemma PrependWord(item: Item, items: seq<Item>, w: string, s: string)
    requires Fits(item, w) && InLanguage(items, s)
    ensures InLanguage([item] + items, w + s)
  {
    var words :| Divides(items, s, words);
    assert ([w] + words)[1..] == words;
    assert Divides([item] + items, w + s, [w] + words);
  }

  lemma DropWord(item: Item, items: seq<Item>, s: string) returns (k: nat)
    requires InLanguage([item] + items, s)
    ensures k <= |s| && Fits(item, s[..k]) && InLanguage(items, s[k..])
  {
    var its := [item] + items;
    var words :| Divides(its, s, words);
    k := |words[0]|;
    assert its[0] == item && s[..k] == words[0] && s[k..] == Concat(words[1..]);
    assert forall i :: 0 <= i < |items| ==> items[i] == its[i + 1];
    assert Divides(items, s[k..], words[1..]);
  }

  lemma EmptyHere(toEnd: bool, text: string, i: nat)
    requires i <= |text|
    ensures StartsHere(Pattern([], toEnd), text, i) <==> (toEnd ==> i == |text|)
  {
    assert Divides([], text[i..i], []);
    if toEnd ==> i == |text| {
      assert Occurs(Pattern([], toEnd), text, i, i);
    }
  }

  lemma OneHere(c: char, p: Pattern, text: string, i: nat)
    requires i <= |text|
    ensures StartsHere(p.(items := [One(c)] + p.items), text, i)
       <==> i < |text| && Accepts(c, text[i]) && StartsHere(p, text, i + 1)
  {
    var q := p.(items := [One(c)] + p.items);
    if StartsHere(q, text, i) {
      var j: nat :| Occurs(q, text, i, j);
      var k := DropWord(One(c), p.items, text[i..j]);
      assert text[i..j][k..] == text[i + 1..j];
      assert Occurs(p, text, i + 1, j);
    }
    if i < |text| && Accepts(c, text[i]) && StartsHere(p, text, i + 1) {
      var j: nat :| Occurs(p, text, i + 1, j);
      PrependWord(One(c), p.items, [text[i]], text[i + 1..j]);
      assert [text[i]] + text[i + 1..j] == text[i..j];
      assert Occurs(q, text, i, j);
    }
  }

  ghost predicate RunOf(c: char, text: string, i: nat, k: nat) {
    i <= k <= |text| && forall x :: i <= x < k ==> Accepts(c, text[x])
  }

  lemma ManyHere(c: char, p: Pattern, text: string, i: nat)
    requires i <= |text|
    ensures StartsHere(p.(items := [Many(c)] + p.items), text, i)
       <==> exists k: nat :: RunOf(c, text, i, k) && StartsHere(p, text, k)
  {
    var q := p.(items := [Many(c)] + p.items);
    if StartsHere(q, text, i) {
      var j: nat :| Occurs(q, text, i, j);
      var w := text[i..j];
      var k := DropWord(Many(c), p.items, w);
      forall x | i <= x < i + k
        ensures Accepts(c, text[x])
      {
        assert w[..k][x - i] == text[x];
      }
      assert RunOf(c, text, i, i + k);
      assert w[k..] == text[i + k..j];
      assert Occurs(p, text, i + k, j);
    }
    if k: nat :| RunOf(c, text, i, k) && StartsHere(p, text, k) {
      var j: nat :| Occurs(p, text, k, j);
      PrependWord(Many(c), p.items, text[i..k], text[k..j]);
      assert text[i..k] + text[k..j] == text[i..j];
      assert Occurs(q, text, i, j);
    }
  }

  // ---- The matcher ----

  /** match: the loop over start positions looks at the empty suffix too. */
  method Match(re: string, text: string) returns (found: bool)
    ensures found <==> Found(re, text)
  {
    if re != "" && re[0] == '^' {
      found := MatchHere(re[1..], text, 0);
      return;
    }
    var i := 0;
    while true
      invariant 0 <= i <= |text|
      invariant forall b :: 0 <= b < i ==> !MatchesAt(re, text, b)
      decreases |text| - i
    {
      found := MatchHere(re, text, i);
      if found {
        return;
      }
      if i == |text| {
        break;
      }
      i := i + 1;
    }
    assert forall b: nat :: b > |text| ==> !MatchesAt(re, text, b);
  }

  method MatchHere(re: string, text: string, i: nat) returns (found: bool)
    requires i <= |text|
    ensures found <==> MatchesAt(re, text, i)
    decreases |re|, 0
  {
    MatchesCompiled(re, text, i);
    if re == "" {
      EmptyHere(false, text, i);
      return true;
    }
    if |re| >= 2 && re[1] == '*' {
      ManyHere(re[0], Compile(re[2..]), text, i);
      forall k: nat
        ensures MatchesAt(re[2..], text, k) <==> StartsHere(Compile(re[2..]), text, k)
      {
        MatchesCompiled(re[2..], text, k);
      }
      found := MatchStar(re[0], re[2..], text, i);
      return;
    }
    if re[0] == '$' && |re| == 1 {
      EmptyHere(true, text, i);
      return i == |text|;
    }
    OneHere(re[0], Compile(re[1..]), text, i);
    MatchesCompiled(re[1..], text, i + 1);
    if i < |text| && (re[0] == '.' || re[0] == text[i]) {
      found := MatchHere(re[1..], text, i + 1);
      return;
    }
    return false;
  }

  method MatchStar(c: char, re: string, text: string, i: nat) returns (found: bool)
    requires i <= |text|
    ensures found <==> exists k: nat :: RunOf(c, text, i, k) && MatchesAt(re, text, k)
    decreases |re|, 1
  {
    var k := i;
    while true
      invariant RunOf(c, text, i, k)
      invariant forall b :: i <= b < k ==> !MatchesAt(re, text, b)
      decreases |text| - k
    {
      found := MatchHere(re, text, k);
      if found {
        return;
      }
      if k == |text| || !(text[k] == c || c == '.') {
        break;
      }
      k := k + 1;
    }
  }
}
