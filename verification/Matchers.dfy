/** The two regular expression matchers: match in user/find.c, which is anchored at both ends, and
    match in user/grep.c.  Strings are the characters before the NUL. */
module Matchers {
  /** What a pattern says: one character, any run of a character, the end of the text. */
  datatype Item = One(c: char) | Many(c: char) | End

  predicate Accepts(c: char, x: char) { c == '.' || c == x }

  predicate Run(c: char, s: string, k: nat)
    requires k <= |s|
  {
    forall j :: 0 <= j < k ==> Accepts(c, s[j])
  }

  /** The items describe a beginning of s. */
  ghost predicate Means(items: seq<Item>, s: string) {
    items == [] ||
    match items[0]
    case One(c) => s != "" && Accepts(c, s[0]) && Means(items[1..], s[1..])
    case Many(c) => exists k: nat :: k <= |s| && Run(c, s, k) && Means(items[1..], s[k..])
    case End => s == "" && Means(items[1..], s)
  }

  /** The items of a find pattern; a star belongs to the character before it. */
  function Plain(p: string): (r: seq<Item>) {
    if p == "" then []
    else if |p| > 1 && p[1] == '*' then [Many(p[0])] + Plain(p[2..])
    else [One(p[0])] + Plain(p[1..])
  }

  /** The items of a grep pattern after its "^"; a last "$" is the end of the text. */
  function Anchored(re: string): (r: seq<Item>) {
    if re == "" then []
    else if |re| > 1 && re[1] == '*' then [Many(re[0])] + Anchored(re[2..])
    else if re == "$" then [End]
    else [One(re[0])] + Anchored(re[1..])
  }

  lemma {:induction false} AnchoredDollar(p: string)
    ensures Anchored(p + "$") == Plain(p) + [End]
  {
    var re := p + "$";
    if p != "" {
      if |p| > 1 && p[1] == '*' {
        assert re[2..] == p[2..] + "$";
        AnchoredDollar(p[2..]);
      } else {
        assert re[1..] == p[1..] + "$" && |re| >= 2 && (|p| == 1 ==> re[1] == '$');
        AnchoredDollar(p[1..]);
      }
    }
  }

  /** A run is empty or starts with an accepted character and goes on. */
  lemma ManyStep(c: char, rest: seq<Item>, s: string)
    ensures Means([Many(c)] + rest, s) <==>
              Means(rest, s) || (s != "" && Accepts(c, s[0]) && Means([Many(c)] + rest, s[1..]))
  {
    var items := [Many(c)] + rest;
    assert items[1..] == rest && s[0..] == s;
    if Means(rest, s) { assert Run(c, s, 0) && Means(rest, s[0..]); }
    if s != "" && Accepts(c, s[0]) && Means(items, s[1..]) {
      var k: nat :| k <= |s[1..]| && Run(c, s[1..], k) && Means(rest, s[1..][k..]);
      assert s[1..][k..] == s[k + 1..];
      assert Run(c, s, k + 1) by {
        forall j | 0 <= j < k + 1 ensures Accepts(c, s[j]) { if j > 0 { assert s[j] == s[1..][j - 1]; } }
      }
    }
    if Means(items, s) {
      var k: nat :| k <= |s| && Run(c, s, k) && Means(rest, s[k..]);
      if k > 0 {
        assert s[1..][k - 1..] == s[k..];
        assert Run(c, s[1..], k - 1) by {
          forall j | 0 <= j < k - 1 ensures Accepts(c, s[1..][j]) { assert s[1..][j] == s[j + 1]; }
        }
      }
    }
  }

  // ----- find -----

  function FindMatch(s: string, p: string): (b: bool)
    decreases |s| + |p|
  {
    if p == "" then s == ""
    else if !(|p| > 1 && p[1] == '*') then
      (if s != "" && (s[0] == p[0] || p[0] == '.') then FindMatch(s[1..], p[1..]) else false)
    else
      (if s != "" && (s[0] == p[0] || p[0] == '.') then FindMatch(s, p[2..]) || FindMatch(s[1..], p) else FindMatch(s, p[2..]))
  }

  /** find's match decides whether the pattern describes the whole string. */
  lemma {:induction false} FindMeans(s: string, p: string)
    ensures FindMatch(s, p) <==> Means(Plain(p) + [End], s)
    decreases |s| + |p|
  {
    var items := Plain(p) + [End];
    if p == "" {
      assert items == [End] && [End][1..] == [];
    } else if |p| > 1 && p[1] == '*' {
      assert items == [Many(p[0])] + (Plain(p[2..]) + [End]);
      ManyStep(p[0], Plain(p[2..]) + [End], s);
      FindMeans(s, p[2..]);
      if s != "" { FindMeans(s[1..], p); }
    } else {
      assert items[1..] == Plain(p[1..]) + [End];
      if s != "" { FindMeans(s[1..], p[1..]); }
    }
  }

  // ----- grep -----

  /** matchhere: the pattern at the beginning of the text. */
  method Matchhere(re: string, text: string) returns (b: bool)
    ensures b <==> Means(Anchored(re), text)
    decreases |re|, 0, |text|
  {
    var items := Anchored(re);
    if re == "" {
      return true;
    }
    if |re| > 1 && re[1] == '*' {
      b := Matchstar(re[0], re[2..], text);
      return;
    }
    if re == "$" {
      assert items[1..] == [];
      return text == "";
    }
    assert items[1..] == Anchored(re[1..]);
    if text != "" && (re[0] == '.' || re[0] == text[0]) {
      b := Matchhere(re[1..], text[1..]);
      return;
    }
    return false;
  }

  /** matchstar: any run of c, then the rest of the pattern. */
  method Matchstar(c: char, re: string, text: string) returns (b: bool)
    ensures b <==> Means([Many(c)] + Anchored(re), text)
    decreases |re|, 1
  {
    var t := text;
    while true
      invariant Means([Many(c)] + Anchored(re), t) <==> Means([Many(c)] + Anchored(re), text)
      decreases |t|
    {
      ManyStep(c, Anchored(re), t);
      b := Matchhere(re, t);
      if b {
        return true;
      }
      if t == "" || !(t[0] == c || c == '.') {
        return false;
      }
      t := t[1..];
    }
  }

  /** What grep looks for: at the beginning after "^", anywhere otherwise. */
  ghost predicate GrepMeans(re: string, text: string) {
    if re != "" && re[0] == '^' then Means(Anchored(re[1..]), text)
    else exists i: nat :: i <= |text| && Means(Anchored(re), text[i..])
  }

  /** match. */
  method Match(re: string, text: string) returns (b: bool)
    ensures b <==> GrepMeans(re, text)
  {
    if re != "" && re[0] == '^' {
      b := Matchhere(re[1..], text);
      return;
    }
    var i := 0;
    while true
      invariant 0 <= i <= |text| && forall j: nat :: j < i ==> !Means(Anchored(re), text[j..])
      decreases |text| - i
    {
      b := Matchhere(re, text[i..]);
      if b {
        return true;
      }
      if i == |text| {
        return false;
      }
      i := i + 1;
    }
  }

  /** The two matchers agree: find on (s, p) is grep for ^p$ in s. */
  lemma MatchersAgree(s: string, p: string)
    ensures FindMatch(s, p) <==> GrepMeans("^" + p + "$", s)
  {
    var re := "^" + p + "$";
    assert re[0] == '^' && re[1..] == p + "$";
    AnchoredDollar(p);
    FindMeans(s, p);
  }
}
