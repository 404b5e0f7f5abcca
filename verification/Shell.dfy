/** The parser of user/sh.c as it runs: scanning loops over the line, recursive descent, and
    nulterminate's writes into the line's own buffer. */
module Shell {
  import opened Grammar
  import Syntax

  // ----- scanning -----

  method Skip(s: string, ps: nat) returns (i: nat)
    requires ps <= |s|
    ensures i == SkipSpace(s, ps)
  {
    i := ps;
    while i < |s| && IsSpace(s[i])
      invariant ps <= i <= |s| && SkipSpace(s, i) == SkipSpace(s, ps)
    {
      i := i + 1;
    }
  }

  /** gettoken. */
  method Gettoken(s: string, ps: nat) returns (t: Token)
    requires ps <= |s| && Line(s)
    ensures t == GetToken(s, ps)
  {
    var q := Skip(s, ps);
    var i := q;
    var kind := if i < |s| then s[i] else '\0';
    if kind == '\0' {
    } else if kind == '|' || kind == '(' || kind == ')' || kind == ';' || kind == '&' || kind == '<' {
      i := i + 1;
    } else if kind == '>' {
      i := i + 1;
      if i < |s| && s[i] == '>' {
        kind := '+';
        i := i + 1;
      }
    } else {
      kind := 'a';
      while i < |s| && !IsSpace(s[i]) && !IsSymbol(s[i])
        invariant q <= i <= |s| && WordEnd(s, i) == WordEnd(s, q)
      {
        i := i + 1;
      }
    }
    var next := Skip(s, i);
    t := Token(kind, Span(q, i), next);
  }

  /** peek. */
  method Peek(s: string, ps: nat, toks: set<char>) returns (b: bool, next: nat)
    requires ps <= |s|
    ensures b == Peeks(s, ps, toks) && next == SkipSpace(s, ps)
  {
    next := Skip(s, ps);
    b := next < |s| && s[next] != '\0' && s[next] in toks;
  }

  // ----- recursive descent -----

  method Parseredirs(s: string, ps: nat, before: seq<Redirection>) returns (r: Parsed<seq<Redirection>>)
    requires ps <= |s| && Line(s)
    ensures r == ParseRedirs(s, ps, before)
  {
    var i, rs := ps, before;
    while true
      invariant ps <= i <= |s| && ParseRedirs(s, i, rs) == ParseRedirs(s, ps, before)
      decreases |s| - i
    {
      var b, j := Peek(s, i, {'<', '>'});
      AfterPeek(s, i);
      if !b {
        return Ok(rs, j);
      }
      var t := Gettoken(s, j);
      var f := Gettoken(s, t.next);
      if f.kind != 'a' {
        return Panic;
      }
      rs := rs + [Redirection(f.span, ModeOf(t.kind))];
      i := f.next;
    }
  }

  method Parseexec(s: string, ps: nat) returns (r: Parsed<Cmd<Span>>)
    requires ps <= |s| && Line(s)
    ensures r == ParseExec(s, ps)
    decreases |s| - ps, 1
  {
    AfterPeek(s, ps);
    var b, i := Peek(s, ps, {'('});
    if b {
      r := Parseblock(s, ps);
      return;
    }
    var rs := Parseredirs(s, ps, []);
    if rs.Panic? {
      return Panic;
    }
    var c := Parseargs(s, rs.pos, rs.value);
    r := if c.Panic? then Panic else Ok(Wrap(Exec(c.value.args), c.value.rs), c.pos);
  }

  /** parseexec's loop over the words. */
  method Parseargs(s: string, ps: nat, before: seq<Redirection>) returns (r: Parsed<Simple>)
    requires ps <= |s| && Line(s)
    ensures r == ParseArgs(s, ps, Simple([], before))
  {
    var i, args, rs := ps, [], before;
    while true
      invariant ps <= i <= |s| && ParseArgs(s, i, Simple(args, rs)) == ParseArgs(s, ps, Simple([], before))
      decreases |s| - i
    {
      var b, j := Peek(s, i, {'|', ')', '&', ';'});
      AfterPeek(s, i);
      if b {
        return Ok(Simple(args, rs), j);
      }
      var t := Gettoken(s, j);
      if t.kind == '\0' {
        return Ok(Simple(args, rs), t.next);
      }
      if t.kind != 'a' {
        return Panic;
      }
      args := args + [t.span];
      if |args| >= MAXARGS {
        return Panic;
      }
      var more := Parseredirs(s, t.next, rs);
      if more.Panic? {
        return Panic;
      }
      rs := more.value;
      i := more.pos;
    }
  }

  method Parseblock(s: string, ps: nat) returns (r: Parsed<Cmd<Span>>)
    requires ps <= |s| && Line(s)
    ensures r == ParseBlock(s, ps)
    decreases |s| - ps, 0
  {
    AfterPeek(s, ps);
    var b, i := Peek(s, ps, {'('});
    if !b {
      return Panic;
    }
    var t := Gettoken(s, i);
    var c := Parseline(s, t.next);
    if c.Panic? {
      return Panic;
    }
    AfterPeek(s, c.pos);
    b, i := Peek(s, c.pos, {')'});
    if !b {
      return Panic;
    }
    t := Gettoken(s, i);
    var rs := Parseredirs(s, t.next, []);
    r := if rs.Panic? then Panic else Ok(Wrap(c.value, rs.value), rs.pos);
  }

  method Parsepipe(s: string, ps: nat) returns (r: Parsed<Cmd<Span>>)
    requires ps <= |s| && Line(s)
    ensures r == ParsePipe(s, ps)
    decreases |s| - ps, 2
  {
    var l := Parseexec(s, ps);
    if l.Panic? {
      return Panic;
    }
    AfterPeek(s, l.pos);
    var b, i := Peek(s, l.pos, {'|'});
    if !b {
      return Ok(l.value, i);
    }
    var t := Gettoken(s, i);
    var q := Parsepipe(s, t.next);
    r := if q.Panic? then Panic else Ok(Pipe(l.value, q.value), q.pos);
  }

  method Parseline(s: string, ps: nat) returns (r: Parsed<Cmd<Span>>)
    requires ps <= |s| && Line(s)
    ensures r == ParseLine(s, ps)
    decreases |s| - ps, 3
  {
    var l := Parsepipe(s, ps);
    if l.Panic? {
      return Panic;
    }
    var c, i := l.value, l.pos;
    while true
      invariant l.pos <= i <= |s| && ParseBacks(s, i, c) == ParseBacks(s, l.pos, l.value)
      decreases |s| - i
    {
      AfterPeek(s, i);
      var b, j := Peek(s, i, {'&'});
      if !b {
        i := j;
        break;
      }
      var t := Gettoken(s, j);
      c := Back(c);
      i := t.next;
    }
    AfterPeek(s, i);
    var b, j := Peek(s, i, {';'});
    if !b {
      return Ok(c, j);
    }
    var t := Gettoken(s, j);
    var q := Parseline(s, t.next);
    r := if q.Panic? then Panic else Ok(List(c, q.value), q.pos);
  }

  // ----- nulterminate -----

  /** k is the end mark of a word of c. */
  predicate Ends(c: Cmd<Span>, k: nat) {
    match c
    case Exec(args) => exists j :: 0 <= j < |args| && args[j].eq == k
    case Redir(d, f, _) => Ends(d, k) || f.eq == k
    case Pipe(l, r) => Ends(l, k) || Ends(r, k)
    case List(l, r) => Ends(l, k) || Ends(r, k)
    case Back(d) => Ends(d, k)
  }

  /** Exactly the end marks of c are cleared. */
  ghost predicate Cleared(before: seq<char>, after: seq<char>, c: Cmd<Span>) {
    |after| == |before| && forall k: nat {:trigger after[k]} :: k < |before| ==> after[k] == if Ends(c, k) then '\0' else before[k]
  }

  method Nulterminate(buf: array<char>, c: Cmd<Span>, ghost s: string)
    requires SpansOk(s, c) && |s| < buf.Length
    modifies buf
    ensures Cleared(old(buf[..]), buf[..], c)
    decreases c
  {
    match c
    case Exec(args) =>
      var i := 0;
      while i < |args|
        invariant 0 <= i <= |args|
        invariant forall k {:trigger buf[k]} :: 0 <= k < buf.Length ==>
                    buf[k] == if exists j :: 0 <= j < i && args[j].eq == k then '\0' else old(buf[k])
      {
        buf[args[i].eq] := '\0';
        i := i + 1;
      }
    case Redir(d, f, _) =>
      Nulterminate(buf, d, s);
      buf[f.eq] := '\0';
    case Pipe(l, r) =>
      Nulterminate(buf, l, s);
      Nulterminate(buf, r, s);
    case List(l, r) =>
      Nulterminate(buf, l, s);
      Nulterminate(buf, r, s);
    case Back(d) =>
      Nulterminate(buf, d, s);
  }

  /** No end mark falls inside a word. */
  lemma {:induction false} EndsOutside(s: string, c: Cmd<Span>, k: nat)
    requires SpansOk(s, c) && Ends(c, k)
    ensures k == |s| || (k < |s| && (IsSpace(s[k]) || IsSymbol(s[k])))
    decreases c
  {
    match c
    case Exec(args) => var j :| 0 <= j < |args| && args[j].eq == k; assert SpanOk(s, args[j]);
    case Redir(d, f, _) => if Ends(d, k) { EndsOutside(s, d, k); }
    case Pipe(l, r) => if Ends(l, k) { EndsOutside(s, l, k); } else { EndsOutside(s, r, k); }
    case List(l, r) => if Ends(l, k) { EndsOutside(s, l, k); } else { EndsOutside(s, r, k); }
    case Back(d) => EndsOutside(s, d, k);
  }

  /** The C string at position i. */
  function CString(b: seq<char>, i: nat): (r: string)
    decreases |b| - i
  {
    if i >= |b| || b[i] == '\0' then "" else [b[i]] + CString(b, i + 1)
  }

  function CStrings(b: seq<char>, args: seq<Span>): (r: seq<string>)
    ensures |r| == |args| && forall k :: 0 <= k < |args| ==> r[k] == CString(b, args[k].q)
  {
    if args == [] then [] else CStrings(b, args[..|args| - 1]) + [CString(b, args[|args| - 1].q)]
  }

  /** The command as runcmd sees it, with every word read from the buffer up to a NUL. */
  function ReadC(b: seq<char>, c: Cmd<Span>): (r: Cmd<string>) {
    match c
    case Exec(args) => Exec(CStrings(b, args))
    case Redir(d, f, m) => Redir(ReadC(b, d), CString(b, f.q), m)
    case Pipe(l, r) => Pipe(ReadC(b, l), ReadC(b, r))
    case List(l, r) => List(ReadC(b, l), ReadC(b, r))
    case Back(d) => Back(ReadC(b, d))
  }

  lemma {:induction false} CStringIs(b: seq<char>, i: nat, j: nat)
    requires i <= j < |b| && b[j] == '\0' && forall k :: i <= k < j ==> b[k] != '\0'
    ensures CString(b, i) == b[i..j]
    decreases j - i
  {
    if i < j { CStringIs(b, i + 1, j); }
  }

  /** The words' own characters are as they were. */
  ghost predicate Kept(s: string, b: seq<char>) {
    && |b| > |s|
    && forall k: nat {:trigger b[k]} :: k < |s| && !IsSpace(s[k]) && !IsSymbol(s[k]) ==> b[k] == s[k]
  }

  lemma WordReads(s: string, b: seq<char>, w: Span)
    requires Line(s) && Kept(s, b) && SpanOk(s, w) && b[w.eq] == '\0'
    ensures CString(b, w.q) == ReadWord(s, w)
  {
    forall k | w.q <= k < w.eq ensures b[k] == s[k] && b[k] != '\0' { assert s[k] in s; }
    CStringIs(b, w.q, w.eq);
    assert b[w.q..w.eq] == s[w.q..w.eq];
  }

  lemma {:induction false} CommandReads(s: string, b: seq<char>, c: Cmd<Span>)
    requires Line(s) && Kept(s, b) && SpansOk(s, c) && forall k: nat {:trigger Ends(c, k)} :: k < |b| && Ends(c, k) ==> b[k] == '\0'
    ensures ReadC(b, c) == Read(s, c)
    decreases c
  {
    match c
    case Exec(args) =>
      forall j | 0 <= j < |args| ensures CString(b, args[j].q) == ReadWord(s, args[j]) {
        assert SpanOk(s, args[j]) && Ends(c, args[j].eq);
        WordReads(s, b, args[j]);
      }
      assert CStrings(b, args) == ReadArgs(s, args);
    case Redir(d, f, _) => SubEnds(b, c, d); CommandReads(s, b, d); assert Ends(c, f.eq); WordReads(s, b, f);
    case Pipe(l, r) => SubEnds(b, c, l); SubEnds(b, c, r); CommandReads(s, b, l); CommandReads(s, b, r);
    case List(l, r) => SubEnds(b, c, l); SubEnds(b, c, r); CommandReads(s, b, l); CommandReads(s, b, r);
    case Back(d) => SubEnds(b, c, d); CommandReads(s, b, d);
  }

  lemma SubEnds(b: seq<char>, c: Cmd<Span>, d: Cmd<Span>)
    requires forall k: nat {:trigger Ends(c, k)} :: k < |b| && Ends(c, k) ==> b[k] == '\0'
    requires match c
             case Exec(_) => false
             case Redir(e, _, _) => d == e
             case Pipe(l, r) => d == l || d == r
             case List(l, r) => d == l || d == r
             case Back(e) => d == e
    ensures forall k: nat {:trigger Ends(d, k)} :: k < |b| && Ends(d, k) ==> b[k] == '\0'
  {
    forall k: nat | k < |b| && Ends(d, k) ensures b[k] == '\0' { assert Ends(c, k); }
  }

  // ----- parsecmd -----

  /** The line in a buffer: what comes before its first NUL. */
  method Strlen(buf: array<char>) returns (n: nat)
    requires '\0' in buf[..]
    ensures n < buf.Length && buf[n] == '\0' && Line(buf[..n])
  {
    n := 0;
    while buf[n] != '\0'
      invariant n < buf.Length && '\0' !in buf[..n]
      decreases buf.Length - n
    {
      assert buf[..n + 1] == buf[..n] + [buf[n]];
      n := n + 1;
      if n == buf.Length { assert buf[..n] == buf[..]; }
    }
  }

  /** parsecmd: the command in the buffer, whose words the buffer now holds as C strings. */
  method Parsecmd(buf: array<char>) returns (r: Parsed<Cmd<Span>>, ghost s: string)
    requires '\0' in buf[..]
    modifies buf
    ensures Line(s) && |s| < buf.Length && old(buf[..])[..|s|] == s && old(buf[..])[|s|] == '\0'
    ensures r == ParseCmd(s) && (r.Ok? ==> ReadC(buf[..], r.value) == Read(s, r.value))
    ensures r.Ok? <==> exists l, gaps :: Syntax.TextOf(s, l, gaps)
    ensures r.Ok? ==> exists l, gaps :: Syntax.TextOf(s, l, gaps) && ReadC(buf[..], r.value) == Syntax.Meaning(l)
  {
    var n := Strlen(buf);
    var line := buf[..n];
    s := line;
    Syntax.Accepts(s);
    var c := Parseline(line, 0);
    if c.Panic? {
      return Panic, s;
    }
    var b, j := Peek(line, c.pos, {});
    if j != |line| {
      return Panic, s;
    }
    LineSpans(s, 0);
    Nulterminate(buf, c.value, s);
    ghost var after := buf[..];
    forall k: nat | k < |s| && !IsSpace(s[k]) && !IsSymbol(s[k]) ensures after[k] == s[k] {
      if Ends(c.value, k) { EndsOutside(s, c.value, k); }
    }
    CommandReads(s, after, c.value);
    r := c;
  }

  /** A buffer with a text of a sentence gives the sentence's meaning, word for word.  So it does for every
      legal command, which has a text by SentenceWritten. */
  method RunsAsWritten(buf: array<char>, ghost x: string, ghost l: Syntax.Sentence, ghost gaps: seq<string>) returns (r: Parsed<Cmd<Span>>)
    requires Syntax.TextOf(x, l, gaps) && |x| < buf.Length && buf[..|x|] == x && buf[|x|] == '\0'
    modifies buf
    ensures r.Ok? && ReadC(buf[..], r.value) == Syntax.Meaning(l)
  {
    ghost var s := *;
    Syntax.TextReads(x, l, gaps);
    assert buf[..][|x|] == '\0';
    r, s := Parsecmd(buf);
    FirstNul(old(buf[..]), x, s);
  }

  lemma FirstNul(b: seq<char>, x: string, s: string)
    requires Line(x) && Line(s) && |x| < |b| && |s| < |b| && b[..|x|] == x && b[..|s|] == s && b[|x|] == '\0' && b[|s|] == '\0'
    ensures x == s
  {
    assert forall k :: 0 <= k < |s| ==> b[k] == s[k] && s[k] in s;
    assert forall k :: 0 <= k < |x| ==> b[k] == x[k] && x[k] in x;
  }
}
