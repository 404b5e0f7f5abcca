/** The parser of user/sh.c as functions on positions of a line: tokens, and the recursive descent to
    command trees whose words are spans of the line. */
module Grammar {
  const MAXARGS: nat := 10

  datatype Mode = Input | Output | Append

  /** Commands with words of type T: spans of the line as the parser makes them, or strings. */
  datatype Cmd<T> =
    | Exec(args: seq<T>)
    | Redir(cmd: Cmd<T>, file: T, mode: Mode)
    | Pipe(left: Cmd<T>, right: Cmd<T>)
    | List(left: Cmd<T>, right: Cmd<T>)
    | Back(cmd: Cmd<T>)

  /** A word of the line: [q, eq). */
  datatype Span = Span(q: nat, eq: nat)

  datatype Parsed<T> = Ok(value: T, pos: nat) | Panic

  predicate IsSpace(c: char) { c == ' ' || c == '\t' || c == '\r' || c == '\n' || c == '\U{B}' }

  predicate IsSymbol(c: char) { c == '<' || c == '|' || c == '>' || c == '&' || c == ';' || c == '(' || c == ')' }

  /** The characters of words; a NUL ends the line and is in none. */
  predicate WordChar(c: char) { !IsSpace(c) && !IsSymbol(c) && c != '\0' }

  predicate Line(s: string) { '\0' !in s }

  // ----- tokens -----

  function SkipSpace(s: string, i: nat): (r: nat)
    requires i <= |s|
    ensures i <= r <= |s|
    decreases |s| - i
  {
    if i < |s| && IsSpace(s[i]) then SkipSpace(s, i + 1) else i
  }

  function WordEnd(s: string, i: nat): (r: nat)
    requires i <= |s|
    ensures i <= r <= |s|
    decreases |s| - i
  {
    if i < |s| && !IsSpace(s[i]) && !IsSymbol(s[i]) then WordEnd(s, i + 1) else i
  }

  /** kind: '\0' at the end, 'a' for a word, '+' for >>, otherwise the symbol. */
  datatype Token = Token(kind: char, span: Span, next: nat)

  function GetToken(s: string, i: nat): (t: Token)
    requires i <= |s|
    ensures i <= t.span.q <= t.span.eq <= t.next <= |s| && (t.kind != '\0' ==> t.next > i)
  {
    var q := SkipSpace(s, i);
    var c := if q < |s| then s[q] else '\0';
    var eq := if c == '\0' then q
              else if c == '>' then if q + 1 < |s| && s[q + 1] == '>' then q + 2 else q + 1
              else if IsSymbol(c) then q + 1
              else WordEnd(s, q);
    var kind := if c == '\0' then c else if c == '>' && eq == q + 2 then '+' else if IsSymbol(c) then c else 'a';
    Token(kind, Span(q, eq), SkipSpace(s, eq))
  }

  /** The character peek would see; at the end of the line, none of toks. */
  predicate Peeks(s: string, i: nat, toks: set<char>)
    requires i <= |s|
  {
    var j := SkipSpace(s, i);
    j < |s| && s[j] != '\0' && s[j] in toks
  }

  // ----- the parser -----

  datatype Redirection = Redirection(file: Span, mode: Mode)

  function Wrap(c: Cmd<Span>, rs: seq<Redirection>): (r: Cmd<Span>) {
    if rs == [] then c else Redir(Wrap(c, rs[..|rs| - 1]), rs[|rs| - 1].file, rs[|rs| - 1].mode)
  }

  function ModeOf(kind: char): (m: Mode) { if kind == '<' then Input else if kind == '>' then Output else Append }

  /** parseredirs; rs are the redirections so far. */
  function ParseRedirs(s: string, i: nat, rs: seq<Redirection>): (r: Parsed<seq<Redirection>>)
    requires i <= |s|
    ensures r.Ok? ==> i <= r.pos <= |s|
    decreases |s| - i
  {
    if !Peeks(s, i, {'<', '>'}) then Ok(rs, SkipSpace(s, i)) else
      var t := GetToken(s, i);
      var f := GetToken(s, t.next);
      if f.kind != 'a' then Panic else ParseRedirs(s, f.next, rs + [Redirection(f.span, ModeOf(t.kind))])
  }

  datatype Simple = Simple(args: seq<Span>, rs: seq<Redirection>)

  /** parseexec's loop over words and redirections. */
  function ParseArgs(s: string, i: nat, c: Simple): (r: Parsed<Simple>)
    requires i <= |s|
    ensures r.Ok? ==> i <= r.pos <= |s|
    decreases |s| - i
  {
    var j := SkipSpace(s, i);
    if Peeks(s, i, {'|', ')', '&', ';'}) then Ok(c, j) else
      var t := GetToken(s, j);
      if t.kind == '\0' then Ok(c, t.next)
      else if t.kind != 'a' || |c.args| + 1 >= MAXARGS then Panic
      else
        var r := ParseRedirs(s, t.next, c.rs);
        if r.Panic? then Panic else ParseArgs(s, r.pos, Simple(c.args + [t.span], r.value))
  }

  function ParseExec(s: string, i: nat): (r: Parsed<Cmd<Span>>)
    requires i <= |s|
    ensures r.Ok? ==> i <= r.pos <= |s|
    decreases |s| - i, 1
  {
    if Peeks(s, i, {'('}) then ParseBlock(s, i) else
      var rs := ParseRedirs(s, i, []);
      if rs.Panic? then Panic else
        var c := ParseArgs(s, rs.pos, Simple([], rs.value));
        if c.Panic? then Panic else Ok(Wrap(Exec(c.value.args), c.value.rs), c.pos)
  }

  function ParseBlock(s: string, i: nat): (r: Parsed<Cmd<Span>>)
    requires i <= |s|
    ensures r.Ok? ==> i <= r.pos <= |s|
    decreases |s| - i, 0
  {
    if !Peeks(s, i, {'('}) then Panic else
      var c := ParseLine(s, GetToken(s, i).next);
      if c.Panic? || !Peeks(s, c.pos, {')'}) then Panic else
        var rs := ParseRedirs(s, GetToken(s, c.pos).next, []);
        if rs.Panic? then Panic else Ok(Wrap(c.value, rs.value), rs.pos)
  }

  function ParsePipe(s: string, i: nat): (r: Parsed<Cmd<Span>>)
    requires i <= |s|
    ensures r.Ok? ==> i <= r.pos <= |s|
    decreases |s| - i, 2
  {
    var l := ParseExec(s, i);
    if l.Panic? || !Peeks(s, l.pos, {'|'}) then (if l.Panic? then Panic else Ok(l.value, SkipSpace(s, l.pos))) else
      var r := ParsePipe(s, GetToken(s, l.pos).next);
      if r.Panic? then Panic else Ok(Pipe(l.value, r.value), r.pos)
  }

  /** The & loop of parseline. */
  function ParseBacks(s: string, i: nat, c: Cmd<Span>): (r: Parsed<Cmd<Span>>)
    requires i <= |s|
    ensures r.Ok? && i <= r.pos <= |s|
    decreases |s| - i
  {
    if !Peeks(s, i, {'&'}) then Ok(c, SkipSpace(s, i)) else ParseBacks(s, GetToken(s, i).next, Back(c))
  }

  function ParseLine(s: string, i: nat): (r: Parsed<Cmd<Span>>)
    requires i <= |s|
    ensures r.Ok? ==> i <= r.pos <= |s|
    decreases |s| - i, 3
  {
    var l := ParsePipe(s, i);
    if l.Panic? then Panic else
      var b := ParseBacks(s, l.pos, l.value);
      if !Peeks(s, b.pos, {';'}) then b else
        var r := ParseLine(s, GetToken(s, b.pos).next);
        if r.Panic? then Panic else Ok(List(b.value, r.value), r.pos)
  }

  /** parsecmd before nulterminate: the whole line must be used up. */
  function ParseCmd(s: string): (r: Parsed<Cmd<Span>>) {
    var c := ParseLine(s, 0);
    if c.Panic? || SkipSpace(s, c.pos) != |s| then Panic else c
  }

  // ----- what the parser's spans are -----

  /** A whole word of the line: between other characters, with none of them inside. */
  ghost predicate SpanOk(s: string, w: Span) {
    && w.q < w.eq <= |s| && (forall k {:trigger s[k]} :: w.q <= k < w.eq ==> !IsSpace(s[k]) && !IsSymbol(s[k]))
    && (w.eq < |s| ==> IsSpace(s[w.eq]) || IsSymbol(s[w.eq]))
  }

  lemma {:induction false} WordEndIs(s: string, i: nat)
    requires i <= |s|
    ensures var r := WordEnd(s, i);
            && (forall k {:trigger s[k]} :: i <= k < r ==> !IsSpace(s[k]) && !IsSymbol(s[k]))
            && (r < |s| ==> IsSpace(s[r]) || IsSymbol(s[r]))
    decreases |s| - i
  {
    if i < |s| && !IsSpace(s[i]) && !IsSymbol(s[i]) { WordEndIs(s, i + 1); }
  }

  lemma {:induction false} SkipSpaceIs(s: string, i: nat)
    requires i <= |s|
    ensures SkipSpace(s, i) < |s| ==> !IsSpace(s[SkipSpace(s, i)])
    decreases |s| - i
  {
    if i < |s| && IsSpace(s[i]) { SkipSpaceIs(s, i + 1); }
  }

  lemma TokenSpan(s: string, i: nat)
    requires i <= |s| && GetToken(s, i).kind == 'a'
    ensures SpanOk(s, GetToken(s, i).span)
  {
    SkipSpaceIs(s, i);
    WordEndIs(s, SkipSpace(s, i));
  }

  ghost predicate ArgsOk(s: string, args: seq<Span>) {
    |args| < MAXARGS && forall k {:trigger args[k]} :: 0 <= k < |args| ==> SpanOk(s, args[k])
  }

  ghost predicate RedirsOk(s: string, rs: seq<Redirection>) {
    forall k {:trigger rs[k]} :: 0 <= k < |rs| ==> SpanOk(s, rs[k].file)
  }

  ghost predicate SpansOk(s: string, c: Cmd<Span>) {
    match c
    case Exec(args) => ArgsOk(s, args)
    case Redir(d, f, _) => SpansOk(s, d) && SpanOk(s, f)
    case Pipe(l, r) => SpansOk(s, l) && SpansOk(s, r)
    case List(l, r) => SpansOk(s, l) && SpansOk(s, r)
    case Back(d) => SpansOk(s, d)
  }

  lemma {:induction false} WrapSpans(s: string, c: Cmd<Span>, rs: seq<Redirection>)
    requires SpansOk(s, c) && RedirsOk(s, rs)
    ensures SpansOk(s, Wrap(c, rs))
  {
    if rs != [] { WrapSpans(s, c, rs[..|rs| - 1]); }
  }

  lemma {:induction false} RedirsSpans(s: string, i: nat, rs: seq<Redirection>)
    requires i <= |s| && RedirsOk(s, rs) && ParseRedirs(s, i, rs).Ok?
    ensures RedirsOk(s, ParseRedirs(s, i, rs).value)
    decreases |s| - i
  {
    if Peeks(s, i, {'<', '>'}) {
      var t := GetToken(s, i);
      var f := GetToken(s, t.next);
      TokenSpan(s, t.next);
      RedirsSpans(s, f.next, rs + [Redirection(f.span, ModeOf(t.kind))]);
    }
  }

  lemma {:induction false} ArgsSpans(s: string, i: nat, c: Simple)
    requires i <= |s| && ArgsOk(s, c.args) && RedirsOk(s, c.rs) && ParseArgs(s, i, c).Ok?
    ensures ArgsOk(s, ParseArgs(s, i, c).value.args) && RedirsOk(s, ParseArgs(s, i, c).value.rs)
    decreases |s| - i
  {
    if !Peeks(s, i, {'|', ')', '&', ';'}) {
      var t := GetToken(s, SkipSpace(s, i));
      if t.kind != '\0' {
        TokenSpan(s, SkipSpace(s, i));
        RedirsSpans(s, t.next, c.rs);
        var r := ParseRedirs(s, t.next, c.rs);
        ArgsSpans(s, r.pos, Simple(c.args + [t.span], r.value));
      }
    }
  }

  lemma {:induction false} BacksSpans(s: string, i: nat, c: Cmd<Span>)
    requires i <= |s| && SpansOk(s, c)
    ensures SpansOk(s, ParseBacks(s, i, c).value)
    decreases |s| - i
  {
    if Peeks(s, i, {'&'}) { BacksSpans(s, GetToken(s, i).next, Back(c)); }
  }

  lemma {:induction false} ExecSpans(s: string, i: nat)
    requires i <= |s| && ParseExec(s, i).Ok?
    ensures SpansOk(s, ParseExec(s, i).value)
    decreases |s| - i, 1
  {
    if Peeks(s, i, {'('}) {
      BlockSpans(s, i);
    } else {
      RedirsSpans(s, i, []);
      var rs := ParseRedirs(s, i, []);
      ArgsSpans(s, rs.pos, Simple([], rs.value));
      var c := ParseArgs(s, rs.pos, Simple([], rs.value));
      WrapSpans(s, Exec(c.value.args), c.value.rs);
    }
  }

  lemma {:induction false} BlockSpans(s: string, i: nat)
    requires i <= |s| && ParseBlock(s, i).Ok?
    ensures SpansOk(s, ParseBlock(s, i).value)
    decreases |s| - i, 0
  {
    LineSpans(s, GetToken(s, i).next);
    var c := ParseLine(s, GetToken(s, i).next);
    RedirsSpans(s, GetToken(s, c.pos).next, []);
    WrapSpans(s, c.value, ParseRedirs(s, GetToken(s, c.pos).next, []).value);
  }

  lemma {:induction false} PipeSpans(s: string, i: nat)
    requires i <= |s| && ParsePipe(s, i).Ok?
    ensures SpansOk(s, ParsePipe(s, i).value)
    decreases |s| - i, 2
  {
    ExecSpans(s, i);
    var l := ParseExec(s, i);
    if Peeks(s, l.pos, {'|'}) { PipeSpans(s, GetToken(s, l.pos).next); }
  }

  /** Every word in the parser's result is a whole word of the line, at most MAXARGS - 1 a command. */
  lemma {:induction false} LineSpans(s: string, i: nat)
    requires i <= |s| && ParseLine(s, i).Ok?
    ensures SpansOk(s, ParseLine(s, i).value)
    decreases |s| - i, 3
  {
    PipeSpans(s, i);
    var l := ParsePipe(s, i);
    BacksSpans(s, l.pos, l.value);
    var b := ParseBacks(s, l.pos, l.value);
    if Peeks(s, b.pos, {';'}) { LineSpans(s, GetToken(s, b.pos).next); }
  }

  // ----- reading the words -----

  predicate LegalWord(w: string) { w != "" && forall k :: 0 <= k < |w| ==> WordChar(w[k]) }

  function ReadWord(s: string, w: Span): (r: string) {
    if w.q <= w.eq <= |s| then s[w.q..w.eq] else ""
  }

  function ReadArgs(s: string, args: seq<Span>): (r: seq<string>)
    ensures |r| == |args| && forall k :: 0 <= k < |args| ==> r[k] == ReadWord(s, args[k])
  {
    if args == [] then [] else ReadArgs(s, args[..|args| - 1]) + [ReadWord(s, args[|args| - 1])]
  }

  /** The command with the words that its spans stand for. */
  function Read(s: string, c: Cmd<Span>): (r: Cmd<string>) {
    match c
    case Exec(args) => Exec(ReadArgs(s, args))
    case Redir(d, f, m) => Redir(Read(s, d), ReadWord(s, f), m)
    case Pipe(l, r) => Pipe(Read(s, l), Read(s, r))
    case List(l, r) => List(Read(s, l), Read(s, r))
    case Back(d) => Back(Read(s, d))
  }

  lemma {:induction false} SkipTwice(s: string, i: nat)
    requires i <= |s|
    ensures SkipSpace(s, SkipSpace(s, i)) == SkipSpace(s, i)
    decreases |s| - i
  {
    if i < |s| && IsSpace(s[i]) { SkipTwice(s, i + 1); }
  }

  /** After a peek everything starts from where it left off. */
  lemma AfterPeek(s: string, i: nat)
    requires i <= |s|
    ensures var j := SkipSpace(s, i);
            SkipSpace(s, j) == j && GetToken(s, j) == GetToken(s, i) && forall toks :: Peeks(s, j, toks) == Peeks(s, i, toks)
  {
    SkipTwice(s, i);
  }
}
