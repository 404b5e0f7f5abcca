/** The command language of user/sh.c as a grammar: which token lists are commands, what they mean, and
    how tokens are spelled.  The parser accepts exactly the spellings of sentences of the grammar, and
    gives exactly their meaning. */
module Syntax {
  import opened Grammar

  // ----- tokens -----

  /** The sign '+' stands for >>. */
  datatype Tok = Word(w: string) | Sign(c: char)

  predicate IsSign(c: char) { IsSymbol(c) || c == '+' }

  predicate LegalTok(t: Tok) { if t.Word? then LegalWord(t.w) else IsSign(t.c) }

  predicate LegalToks(ts: seq<Tok>) { forall k {:trigger ts[k]} :: 0 <= k < |ts| ==> LegalTok(ts[k]) }

  function Chars(t: Tok): (r: string) { if t.Word? then t.w else if t.c == '+' then ">>" else [t.c] }

  predicate AllSpace(w: string) { forall k :: 0 <= k < |w| ==> IsSpace(w[k]) }

  /** The two tokens need space between them: two words, or > before > or >>. */
  predicate Clash(a: Tok, b: Tok) { (a.Word? && b.Word?) || (a == Sign('>') && (b == Sign('>') || b == Sign('+'))) }

  /** Space before, between and after the tokens, with none missing. */
  predicate Spaced(ts: seq<Tok>, gaps: seq<string>) {
    && |gaps| == |ts| + 1 && (forall k {:trigger gaps[k]} :: 0 <= k < |gaps| ==> AllSpace(gaps[k]))
    && forall k {:trigger ts[k]} :: 0 < k < |ts| && Clash(ts[k - 1], ts[k]) ==> gaps[k] != ""
  }

  function Spell(ts: seq<Tok>, gaps: seq<string>): (r: string)
    requires |gaps| == |ts| + 1
  {
    if ts == [] then gaps[0] else gaps[0] + Chars(ts[0]) + Spell(ts[1..], gaps[1..])
  }

  function TokOf(s: string, t: Token): (r: Tok) { if t.kind == 'a' then Word(ReadWord(s, t.span)) else Sign(t.kind) }

  /** The tokens that gettoken finds from position i on. */
  function Lex(s: string, i: nat): (ts: seq<Tok>)
    requires i <= |s|
    decreases |s| - i
  {
    var t := GetToken(s, i);
    if t.kind == '\0' then [] else [TokOf(s, t)] + Lex(s, t.next)
  }

  // ----- the grammar -----

  datatype Target = Target(mode: Mode, file: string)

  datatype Item = Arg(word: string) | To(t: Target)

  /** Words and redirections in any order, or a line in parentheses with redirections after it. */
  datatype Unit = Plain(items: seq<Item>) | Group(line: Sentence, targets: seq<Target>)

  /** Units with | between them. */
  datatype Series = One(u: Unit) | Piped(u: Unit, next: Series)

  /** Series, each with a number of & after it, and ; between them. */
  datatype Sentence = Last(p: Series, backs: nat) | Then(p: Series, backs: nat, next: Sentence)

  function SignOf(m: Mode): (c: char) { match m case Input => '<' case Output => '>' case Append => '+' }

  // Each function gives the tokens of its argument with the tokens of rest after them.

  function TargetToks(t: Target, rest: seq<Tok>): (r: seq<Tok>) { [Sign(SignOf(t.mode))] + ([Word(t.file)] + rest) }

  function TargetsToks(ts: seq<Target>, rest: seq<Tok>): (r: seq<Tok>) {
    if ts == [] then rest else TargetToks(ts[0], TargetsToks(ts[1..], rest))
  }

  function ItemsToks(xs: seq<Item>, rest: seq<Tok>): (r: seq<Tok>) {
    if xs == [] then rest
    else if xs[0].Arg? then [Word(xs[0].word)] + ItemsToks(xs[1..], rest)
    else TargetToks(xs[0].t, ItemsToks(xs[1..], rest))
  }

  function Ands(n: nat, rest: seq<Tok>): (r: seq<Tok>) { if n == 0 then rest else [Sign('&')] + Ands(n - 1, rest) }

  function UnitToks(u: Unit, rest: seq<Tok>): (r: seq<Tok>)
    decreases u
  {
    match u
    case Plain(items) => ItemsToks(items, rest)
    case Group(line, targets) => [Sign('(')] + SentenceToks(line, [Sign(')')] + TargetsToks(targets, rest))
  }

  function SeriesToks(p: Series, rest: seq<Tok>): (r: seq<Tok>)
    decreases p
  {
    match p
    case One(u) => UnitToks(u, rest)
    case Piped(u, next) => UnitToks(u, [Sign('|')] + SeriesToks(next, rest))
  }

  function SentenceToks(l: Sentence, rest: seq<Tok>): (r: seq<Tok>)
    decreases l
  {
    match l
    case Last(p, n) => SeriesToks(p, Ands(n, rest))
    case Then(p, n, next) => SeriesToks(p, Ands(n, [Sign(';')] + SentenceToks(next, rest)))
  }

  // ----- what sentences mean -----

  function Args(xs: seq<Item>): (r: seq<string>) {
    if xs == [] then [] else (if xs[0].Arg? then [xs[0].word] else []) + Args(xs[1..])
  }

  function Targets(xs: seq<Item>): (r: seq<Target>) {
    if xs == [] then [] else (if xs[0].To? then [xs[0].t] else []) + Targets(xs[1..])
  }

  /** The first redirection is the innermost. */
  function Redirected(c: Cmd<string>, ts: seq<Target>): (r: Cmd<string>)
    decreases |ts|
  {
    if ts == [] then c else Redirected(Redir(c, ts[0].file, ts[0].mode), ts[1..])
  }

  function Background(c: Cmd<string>, n: nat): (r: Cmd<string>)
    decreases n
  {
    if n == 0 then c else Background(Back(c), n - 1)
  }

  function UnitMeans(u: Unit): (c: Cmd<string>) {
    match u
    case Plain(items) => Redirected(Exec(Args(items)), Targets(items))
    case Group(line, targets) => Redirected(Meaning(line), targets)
  }

  function SeriesMeans(p: Series): (c: Cmd<string>) {
    match p
    case One(u) => UnitMeans(u)
    case Piped(u, next) => Pipe(UnitMeans(u), SeriesMeans(next))
  }

  function Meaning(l: Sentence): (c: Cmd<string>) {
    match l
    case Last(p, n) => Background(SeriesMeans(p), n)
    case Then(p, n, next) => List(Background(SeriesMeans(p), n), Meaning(next))
  }

  /** No simple command has more words than argv has room for. */
  predicate UnitFits(u: Unit) {
    match u
    case Plain(items) => |Args(items)| < MAXARGS
    case Group(line, _) => Fits(line)
  }

  predicate SeriesFits(p: Series) {
    match p
    case One(u) => UnitFits(u)
    case Piped(u, next) => UnitFits(u) && SeriesFits(next)
  }

  predicate Fits(l: Sentence) {
    match l
    case Last(p, _) => SeriesFits(p)
    case Then(p, _, next) => SeriesFits(p) && Fits(next)
  }

  // ----- peeks and tokens -----

  predicate Starts(ts: seq<Tok>, toks: set<char>) {
    ts != [] && ts[0].Sign? && (ts[0].c in toks || (ts[0].c == '+' && '>' in toks))
  }

  /** What gettoken and peek do, in terms of the tokens ahead. */
  lemma Ahead(s: string, i: nat)
    requires i <= |s| && Line(s)
    ensures var t, ts := GetToken(s, i), Lex(s, i);
            && (t.kind == '\0' <==> ts == [])
            && (ts != [] ==> i < t.next && ts[0] == TokOf(s, t) && ts[1..] == Lex(s, t.next) && LegalTok(ts[0]))
    ensures Lex(s, SkipSpace(s, i)) == Lex(s, i)
    ensures forall toks {:trigger Peeks(s, i, toks)} :: '+' !in toks && (forall c :: c in toks ==> IsSymbol(c)) ==> (Peeks(s, i, toks) <==> Starts(Lex(s, i), toks))
  {
    AfterPeek(s, i);
    var t, q := GetToken(s, i), SkipSpace(s, i);
    SkipSpaceIs(s, i);
    if q < |s| {
      assert s[q] in s;
      if t.kind == 'a' { WordLegal(s, i); }
    }
  }

  lemma WordLegal(s: string, i: nat)
    requires i <= |s| && Line(s) && GetToken(s, i).kind == 'a'
    ensures LegalWord(ReadWord(s, GetToken(s, i).span))
  {
    var w := GetToken(s, i).span;
    TokenSpan(s, i);
    forall k | 0 <= k < w.eq - w.q ensures WordChar(s[w.q..w.eq][k]) { assert s[w.q + k] in s; }
  }

  lemma Assoc<T>(a: seq<T>, x: T, b: seq<T>)
    ensures (a + [x]) + b == a + ([x] + b)
  {
  }

  lemma HeadTail<T>(ts: seq<T>, x: T, rest: seq<T>)
    requires ts == [x] + rest
    ensures ts != [] && ts[0] == x && ts[1..] == rest
  {
  }

  // ----- redirections -----

  function ReadTargets(s: string, rs: seq<Redirection>): (r: seq<Target>)
    ensures |r| == |rs|
  {
    seq(|rs|, k requires 0 <= k < |rs| => Target(rs[k].mode, ReadWord(s, rs[k].file)))
  }

  lemma {:induction false} RedirectedSnoc(c: Cmd<string>, ts: seq<Target>, t: Target)
    ensures Redirected(c, ts + [t]) == Redir(Redirected(c, ts), t.file, t.mode)
    decreases |ts|
  {
    if ts == [] {
      assert ([t])[1..] == [];
    } else {
      assert (ts + [t])[1..] == ts[1..] + [t];
      RedirectedSnoc(Redir(c, ts[0].file, ts[0].mode), ts[1..], t);
    }
  }

  lemma {:induction false} WrapMeans(s: string, c: Cmd<Span>, rs: seq<Redirection>)
    ensures Read(s, Wrap(c, rs)) == Redirected(Read(s, c), ReadTargets(s, rs))
  {
    if rs == [] {
      assert ReadTargets(s, rs) == [];
    } else {
      var n := |rs| - 1;
      WrapMeans(s, c, rs[..n]);
      var t := Target(rs[n].mode, ReadWord(s, rs[n].file));
      assert ReadTargets(s, rs) == ReadTargets(s, rs[..n]) + [t];
      RedirectedSnoc(Read(s, c), ReadTargets(s, rs[..n]), t);
    }
  }

  lemma OneMoreTarget(s: string, rs: seq<Redirection>, f: Span, m: Mode)
    ensures ReadTargets(s, rs + [Redirection(f, m)]) == ReadTargets(s, rs) + [Target(m, ReadWord(s, f))]
  {
  }

  /** The tokens of a redirection at i, and what parseredirs does with them. */
  lemma RedirAhead(s: string, i: nat, t: Target, rest: seq<Tok>, rs: seq<Redirection>) returns (f: Span, n: nat)
    requires i <= |s| && Line(s) && Lex(s, i) == TargetToks(t, rest)
    ensures i < n <= |s| && Lex(s, n) == rest && t.file == ReadWord(s, f)
    ensures ParseRedirs(s, i, rs) == ParseRedirs(s, n, rs + [Redirection(f, t.mode)])
  {
    hide Lex, SkipSpace, GetToken, Peeks;
    Ahead(s, i);
    var a := GetToken(s, i);
    HeadTail(Lex(s, i), Sign(SignOf(t.mode)), [Word(t.file)] + rest);
    Ahead(s, a.next);
    var b := GetToken(s, a.next);
    HeadTail(Lex(s, a.next), Word(t.file), rest);
    f, n := b.span, b.next;
    assert ModeOf(a.kind) == t.mode && Peeks(s, i, {'<', '>'});
  }

  lemma {:induction false} RedirsRead(s: string, i: nat, rs: seq<Redirection>, ts: seq<Target>, rest: seq<Tok>)
    requires i <= |s| && Line(s) && Lex(s, i) == TargetsToks(ts, rest) && !Starts(rest, {'<', '>'})
    ensures var r := ParseRedirs(s, i, rs); r.Ok? && Lex(s, r.pos) == rest && ReadTargets(s, r.value) == ReadTargets(s, rs) + ts
    decreases |ts|
  {
    hide Lex, SkipSpace, GetToken, Peeks, ReadTargets, TargetToks;
    if ts == [] {
      Ahead(s, i);
    } else {
      var f, n := RedirAhead(s, i, ts[0], TargetsToks(ts[1..], rest), rs);
      OneMoreTarget(s, rs, f, ts[0].mode);
      RedirsRead(s, n, rs + [Redirection(f, ts[0].mode)], ts[1..], rest);
      Assoc(ReadTargets(s, rs), ts[0], ts[1..]);
      assert [ts[0]] + ts[1..] == ts;
    }
  }

  /** parseredirs at a sign that is followed by a word. */
  lemma RedirFound(s: string, i: nat, rs: seq<Redirection>) returns (t: Target, f: Span, n: nat)
    requires i <= |s| && Line(s) && Starts(Lex(s, i), {'<', '>'}) && ParseRedirs(s, i, rs).Ok?
    ensures i < n <= |s| && t.file == ReadWord(s, f) && Lex(s, i) == TargetToks(t, Lex(s, n))
    ensures ParseRedirs(s, i, rs) == ParseRedirs(s, n, rs + [Redirection(f, t.mode)])
  {
    hide Lex, SkipSpace, GetToken, Peeks;
    Ahead(s, i);
    assert Peeks(s, i, {'<', '>'});
    var a := GetToken(s, i);
    Ahead(s, a.next);
    var b := GetToken(s, a.next);
    t, f, n := Target(ModeOf(a.kind), ReadWord(s, b.span)), b.span, b.next;
    Whole(Lex(s, i));
    Whole(Lex(s, a.next));
  }

  lemma Whole<T>(ts: seq<T>)
    requires ts != []
    ensures [ts[0]] + ts[1..] == ts
  {
  }

  lemma {:induction false} RedirsShape(s: string, i: nat, rs: seq<Redirection>) returns (ts: seq<Target>)
    requires i <= |s| && Line(s) && ParseRedirs(s, i, rs).Ok?
    ensures var r := ParseRedirs(s, i, rs);
            Lex(s, i) == TargetsToks(ts, Lex(s, r.pos)) && ReadTargets(s, r.value) == ReadTargets(s, rs) + ts
    decreases |s| - i
  {
    hide Lex, SkipSpace, GetToken, Peeks, ReadTargets, TargetToks;
    Ahead(s, i);
    if Peeks(s, i, {'<', '>'}) {
      var t, f, n := RedirFound(s, i, rs);
      OneMoreTarget(s, rs, f, t.mode);
      var more := RedirsShape(s, n, rs + [Redirection(f, t.mode)]);
      ts := [t] + more;
      Assoc(ReadTargets(s, rs), t, more);
      HeadTail(ts, t, more);
    } else {
      ts := [];
    }
  }

  // ----- words and redirections -----

  /** parseexec between two words: redirections, then the loop. */
  function Loop(s: string, i: nat, args: seq<Span>, rs: seq<Redirection>): (r: Parsed<Simple>)
    requires i <= |s|
    ensures r.Ok? ==> i <= r.pos <= |s|
  {
    var p := ParseRedirs(s, i, rs);
    if p.Panic? then Panic else ParseArgs(s, p.pos, Simple(args, p.value))
  }

  /** A simple command ends here. */
  predicate Closes(ts: seq<Tok>) { ts == [] || Starts(ts, {'|', ')', '&', ';'}) }

  lemma LoopEnds(s: string, i: nat, args: seq<Span>, rs: seq<Redirection>)
    requires i <= |s| && Line(s) && Closes(Lex(s, i))
    ensures var r := Loop(s, i, args, rs); r.Ok? && r.value == Simple(args, rs) && Lex(s, r.pos) == Lex(s, i)
  {
    hide Lex, SkipSpace, GetToken, Peeks;
    Ahead(s, i);
    var j := SkipSpace(s, i);
    Ahead(s, j);
    AfterPeek(s, j);
    Ahead(s, SkipSpace(s, j));
    if Lex(s, i) == [] { NoneAfter(s, SkipSpace(s, j)); }
  }

  lemma NoneAfter(s: string, i: nat)
    requires i <= |s| && Line(s) && GetToken(s, i).kind == '\0'
    ensures Lex(s, GetToken(s, i).next) == []
  {
    assert forall k :: 0 <= k < |s| ==> s[k] in s;
  }

  lemma LoopWord(s: string, i: nat, args: seq<Span>, rs: seq<Redirection>)
    requires i <= |s| && Line(s) && Lex(s, i) != [] && Lex(s, i)[0].Word?
    ensures var t := GetToken(s, i);
            Loop(s, i, args, rs) == if |args| + 1 >= MAXARGS then Panic else Loop(s, t.next, args + [t.span], rs)
  {
    hide Lex, SkipSpace, GetToken, Peeks;
    Ahead(s, i);
    AfterPeek(s, i);
    var j := SkipSpace(s, i);
    Ahead(s, j);
    AfterPeek(s, j);
  }

  lemma ReadOneMore(s: string, args: seq<Span>, w: Span)
    ensures ReadArgs(s, args + [w]) == ReadArgs(s, args) + [ReadWord(s, w)]
  {
    assert (args + [w])[..|args|] == args;
  }

  /** The words and redirections of xs have been added to args and rs. */
  ghost predicate Gathered(s: string, args: seq<Span>, rs: seq<Redirection>, xs: seq<Item>, c: Simple) {
    ReadArgs(s, c.args) == ReadArgs(s, args) + Args(xs) && ReadTargets(s, c.rs) == ReadTargets(s, rs) + Targets(xs)
  }

  lemma GatheredArg(s: string, args: seq<Span>, w: Span, rs: seq<Redirection>, xs: seq<Item>, c: Simple)
    requires xs != [] && xs[0] == Arg(ReadWord(s, w)) && Gathered(s, args + [w], rs, xs[1..], c)
    ensures Gathered(s, args, rs, xs, c)
  {
    ReadOneMore(s, args, w);
    Assoc(ReadArgs(s, args), ReadWord(s, w), Args(xs[1..]));
  }

  lemma GatheredTo(s: string, args: seq<Span>, f: Span, rs: seq<Redirection>, xs: seq<Item>, c: Simple)
    requires xs != [] && xs[0].To? && xs[0].t.file == ReadWord(s, f) && Gathered(s, args, rs + [Redirection(f, xs[0].t.mode)], xs[1..], c)
    ensures Gathered(s, args, rs, xs, c)
  {
    OneMoreTarget(s, rs, f, xs[0].t.mode);
    Assoc(ReadTargets(s, rs), xs[0].t, Targets(xs[1..]));
  }

  lemma {:induction false} ItemsRead(s: string, i: nat, args: seq<Span>, rs: seq<Redirection>, xs: seq<Item>, rest: seq<Tok>)
    requires i <= |s| && Line(s) && Lex(s, i) == ItemsToks(xs, rest) && Closes(rest) && |args| + |Args(xs)| < MAXARGS
    ensures var r := Loop(s, i, args, rs); r.Ok? && Lex(s, r.pos) == rest && Gathered(s, args, rs, xs, r.value)
    decreases |xs|
  {
    hide Lex, SkipSpace, GetToken, Peeks, Loop, Gathered, TargetToks;
    if xs == [] {
      LoopEnds(s, i, args, rs);
      GatheredNone(s, args, rs);
    } else if xs[0].Arg? {
      var t := GetToken(s, i);
      Ahead(s, i);
      HeadTail(Lex(s, i), Word(xs[0].word), ItemsToks(xs[1..], rest));
      LoopWord(s, i, args, rs);
      ItemsRead(s, t.next, args + [t.span], rs, xs[1..], rest);
      GatheredArg(s, args, t.span, rs, xs, Loop(s, i, args, rs).value);
    } else {
      var t := xs[0].t;
      var f, n := RedirAhead(s, i, t, ItemsToks(xs[1..], rest), rs);
      LoopAfter(s, i, n, args, rs, rs + [Redirection(f, t.mode)]);
      ItemsRead(s, n, args, rs + [Redirection(f, t.mode)], xs[1..], rest);
      GatheredTo(s, args, f, rs, xs, Loop(s, i, args, rs).value);
    }
  }

  lemma GatheredNone(s: string, args: seq<Span>, rs: seq<Redirection>)
    ensures Gathered(s, args, rs, [], Simple(args, rs))
  {
  }

  lemma LoopAfter(s: string, i: nat, n: nat, args: seq<Span>, rs: seq<Redirection>, rs': seq<Redirection>)
    requires i <= |s| && n <= |s| && ParseRedirs(s, i, rs) == ParseRedirs(s, n, rs')
    ensures Loop(s, i, args, rs) == Loop(s, n, args, rs')
  {
  }

  lemma {:induction false} ItemsShape(s: string, i: nat, args: seq<Span>, rs: seq<Redirection>) returns (xs: seq<Item>)
    requires i <= |s| && Line(s) && |args| < MAXARGS && Loop(s, i, args, rs).Ok?
    ensures var r := Loop(s, i, args, rs);
            Lex(s, i) == ItemsToks(xs, Lex(s, r.pos)) && |args| + |Args(xs)| < MAXARGS && Gathered(s, args, rs, xs, r.value)
    decreases |s| - i
  {
    hide Lex, SkipSpace, GetToken, Peeks, Loop, Gathered, TargetToks;
    Ahead(s, i);
    var ts := Lex(s, i);
    if Closes(ts) {
      LoopEnds(s, i, args, rs);
      GatheredNone(s, args, rs);
      xs := [];
    } else if ts[0].Word? {
      var t := GetToken(s, i);
      LoopWord(s, i, args, rs);
      var more := ItemsShape(s, t.next, args + [t.span], rs);
      xs := [Arg(ts[0].w)] + more;
      HeadTail(xs, Arg(ts[0].w), more);
      Whole(ts);
      GatheredArg(s, args, t.span, rs, xs, Loop(s, i, args, rs).value);
    } else {
      var t, f, n := FirstRedir(s, i, args, rs);
      var more := ItemsShape(s, n, args, rs + [Redirection(f, t.mode)]);
      xs := [To(t)] + more;
      HeadTail(xs, To(t), more);
      GatheredTo(s, args, f, rs, xs, Loop(s, i, args, rs).value);
    }
  }

  /** What else can start a simple command is a redirection. */
  lemma FirstRedir(s: string, i: nat, args: seq<Span>, rs: seq<Redirection>) returns (t: Target, f: Span, n: nat)
    requires i <= |s| && Line(s) && Loop(s, i, args, rs).Ok? && !Closes(Lex(s, i)) && !Lex(s, i)[0].Word?
    ensures i < n <= |s| && t.file == ReadWord(s, f) && Lex(s, i) == TargetToks(t, Lex(s, n))
    ensures Loop(s, i, args, rs) == Loop(s, n, args, rs + [Redirection(f, t.mode)])
  {
    hide Lex, SkipSpace, GetToken, Peeks, TargetToks;
    Ahead(s, i);
    AfterPeek(s, i);
    Ahead(s, SkipSpace(s, i));
    AfterPeek(s, SkipSpace(s, i));
    assert Peeks(s, i, {'<', '>'});
    t, f, n := RedirFound(s, i, rs);
    LoopAfter(s, i, n, args, rs, rs + [Redirection(f, t.mode)]);
  }

  // ----- units, series, sentences -----

  lemma {:induction false} UnitReads(s: string, i: nat, u: Unit, rest: seq<Tok>)
    requires i <= |s| && Line(s) && Lex(s, i) == UnitToks(u, rest) && Closes(rest) && UnitFits(u)
    ensures var r := ParseExec(s, i); r.Ok? && Read(s, r.value) == UnitMeans(u) && Lex(s, r.pos) == rest
    decreases u
  {
    hide Lex, SkipSpace, GetToken, Peeks, Loop, ParseLine, ParseRedirs, Wrap, Gathered, ReadTargets;
    Ahead(s, i);
    match u
    case Plain(xs) =>
      PlainStart(xs, rest);
      ItemsRead(s, i, [], [], xs, rest);
      PlainIs(s, i);
      PlainMeans(s, xs, Loop(s, i, [], []).value);
    case Group(l, ts) =>
      var inner := [Sign(')')] + TargetsToks(ts, rest);
      HeadTail(Lex(s, i), Sign('('), SentenceToks(l, inner));
      var n := GetToken(s, i).next;
      HeadTail(inner, Sign(')'), TargetsToks(ts, rest));
      SentenceReads(s, n, l, inner);
      var c := ParseLine(s, n);
      Ahead(s, c.pos);
      var m := GetToken(s, c.pos).next;
      RedirsRead(s, m, [], ts, rest);
      GroupMeans(s, c.value, ParseRedirs(s, m, []).value, ts);
  }

  lemma PlainMeans(s: string, xs: seq<Item>, c: Simple)
    requires Gathered(s, [], [], xs, c)
    ensures Read(s, Wrap(Exec(c.args), c.rs)) == UnitMeans(Plain(xs))
  {
    WrapMeans(s, Exec(c.args), c.rs);
    assert ReadArgs(s, []) + Args(xs) == Args(xs) && ReadTargets(s, []) + Targets(xs) == Targets(xs);
  }

  lemma GroupMeans(s: string, c: Cmd<Span>, rs: seq<Redirection>, ts: seq<Target>)
    requires ReadTargets(s, rs) == ReadTargets(s, []) + ts
    ensures Read(s, Wrap(c, rs)) == Redirected(Read(s, c), ts)
  {
    WrapMeans(s, c, rs);
    assert ReadTargets(s, []) + ts == ts;
  }

  lemma PlainStart(xs: seq<Item>, rest: seq<Tok>)
    requires Closes(rest)
    ensures !Starts(ItemsToks(xs, rest), {'('})
  {
  }

  /** A simple command is what the loop gathers. */
  lemma PlainIs(s: string, i: nat)
    requires i <= |s| && !Peeks(s, i, {'('})
    ensures var c := Loop(s, i, [], []);
            ParseExec(s, i) == if c.Panic? then Panic else Ok(Wrap(Exec(c.value.args), c.value.rs), c.pos)
  {
  }

  lemma {:induction false} SeriesReads(s: string, i: nat, p: Series, rest: seq<Tok>)
    requires i <= |s| && Line(s) && Lex(s, i) == SeriesToks(p, rest) && Closes(rest) && !Starts(rest, {'|'}) && SeriesFits(p)
    ensures var r := ParsePipe(s, i); r.Ok? && Read(s, r.value) == SeriesMeans(p) && Lex(s, r.pos) == rest
    decreases p
  {
    hide Lex, SkipSpace, GetToken, Peeks, ParseExec;
    match p
    case One(u) =>
      UnitReads(s, i, u, rest);
      Ahead(s, ParseExec(s, i).pos);
    case Piped(u, next) =>
      var more := [Sign('|')] + SeriesToks(next, rest);
      HeadTail(more, Sign('|'), SeriesToks(next, rest));
      UnitReads(s, i, u, more);
      var l := ParseExec(s, i);
      Ahead(s, l.pos);
      SeriesReads(s, GetToken(s, l.pos).next, next, rest);
  }

  lemma {:induction false} AndsRead(s: string, i: nat, c: Cmd<Span>, n: nat, rest: seq<Tok>)
    requires i <= |s| && Line(s) && Lex(s, i) == Ands(n, rest) && !Starts(rest, {'&'})
    ensures var r := ParseBacks(s, i, c); Read(s, r.value) == Background(Read(s, c), n) && Lex(s, r.pos) == rest
    decreases n
  {
    hide Lex, SkipSpace, GetToken, Peeks;
    Ahead(s, i);
    if n > 0 {
      HeadTail(Lex(s, i), Sign('&'), Ands(n - 1, rest));
      AndsRead(s, GetToken(s, i).next, Back(c), n - 1, rest);
    }
  }

  /** What may follow a series and its &s. */
  predicate Ends(ts: seq<Tok>) { ts == [] || Starts(ts, {')'}) }

  /** Where the tokens of a sentence stand, the parser reads its meaning. */
  lemma {:induction false} SentenceReads(s: string, i: nat, l: Sentence, rest: seq<Tok>)
    requires i <= |s| && Line(s) && Lex(s, i) == SentenceToks(l, rest) && Ends(rest) && Fits(l)
    ensures var r := ParseLine(s, i); r.Ok? && Read(s, r.value) == Meaning(l) && Lex(s, r.pos) == rest
    decreases l
  {
    hide Lex, SkipSpace, GetToken, Peeks, ParsePipe, ParseBacks;
    var after := if l.Last? then rest else [Sign(';')] + SentenceToks(l.next, rest);
    if l.Then? { HeadTail(after, Sign(';'), SentenceToks(l.next, rest)); }
    AndsStart(l.backs, after);
    SeriesReads(s, i, l.p, Ands(l.backs, after));
    var p := ParsePipe(s, i);
    AndsRead(s, p.pos, p.value, l.backs, after);
    var b := ParseBacks(s, p.pos, p.value);
    Ahead(s, b.pos);
    if l.Then? {
      SentenceReads(s, GetToken(s, b.pos).next, l.next, rest);
    }
  }

  lemma AndsStart(n: nat, after: seq<Tok>)
    requires Ends(after) || Starts(after, {';'})
    ensures Closes(Ands(n, after)) && !Starts(Ands(n, after), {'|'})
  {
  }

  // ----- whatever parses is a sentence -----

  lemma {:induction false} UnitShape(s: string, i: nat) returns (u: Unit)
    requires i <= |s| && Line(s) && ParseExec(s, i).Ok?
    ensures var r := ParseExec(s, i); Read(s, r.value) == UnitMeans(u) && Lex(s, i) == UnitToks(u, Lex(s, r.pos)) && UnitFits(u)
    decreases |s| - i, 1
  {
    hide Lex, SkipSpace, GetToken, Peeks, Loop, ParseLine, ParseRedirs, Wrap, Gathered;
    Ahead(s, i);
    if Peeks(s, i, {'('}) {
      u := GroupShape(s, i);
    } else {
      PlainIs(s, i);
      var xs := ItemsShape(s, i, [], []);
      u := Plain(xs);
      PlainMeans(s, xs, Loop(s, i, [], []).value);
    }
  }

  lemma {:induction false} GroupShape(s: string, i: nat) returns (u: Unit)
    requires i <= |s| && Line(s) && Peeks(s, i, {'('}) && ParseBlock(s, i).Ok?
    ensures var r := ParseBlock(s, i); Read(s, r.value) == UnitMeans(u) && Lex(s, i) == UnitToks(u, Lex(s, r.pos)) && UnitFits(u)
    decreases |s| - i, 0
  {
    hide Lex, SkipSpace, GetToken, Peeks, ParseLine, ParseRedirs, Wrap, ReadTargets;
    Ahead(s, i);
    var n := GetToken(s, i).next;
    var l := SentenceShape(s, n);
    var c := ParseLine(s, n);
    Ahead(s, c.pos);
    var m := GetToken(s, c.pos).next;
    var ts := RedirsShape(s, m, []);
    var r := ParseRedirs(s, m, []);
    u := Group(l, ts);
    GroupMeans(s, c.value, r.value, ts);
    Whole(Lex(s, i));
    Whole(Lex(s, c.pos));
  }

  lemma {:induction false} SeriesShape(s: string, i: nat) returns (p: Series)
    requires i <= |s| && Line(s) && ParsePipe(s, i).Ok?
    ensures var r := ParsePipe(s, i); Read(s, r.value) == SeriesMeans(p) && Lex(s, i) == SeriesToks(p, Lex(s, r.pos)) && SeriesFits(p)
    decreases |s| - i, 2
  {
    hide Lex, SkipSpace, GetToken, Peeks, ParseExec;
    var u := UnitShape(s, i);
    var l := ParseExec(s, i);
    Ahead(s, l.pos);
    if Peeks(s, l.pos, {'|'}) {
      var n := GetToken(s, l.pos).next;
      var next := SeriesShape(s, n);
      p := Piped(u, next);
      Whole(Lex(s, l.pos));
    } else {
      p := One(u);
    }
  }

  lemma {:induction false} AndsShape(s: string, i: nat, c: Cmd<Span>) returns (n: nat)
    requires i <= |s| && Line(s)
    ensures var r := ParseBacks(s, i, c); Read(s, r.value) == Background(Read(s, c), n) && Lex(s, i) == Ands(n, Lex(s, r.pos))
    decreases |s| - i
  {
    hide Lex, SkipSpace, GetToken, Peeks;
    Ahead(s, i);
    if Peeks(s, i, {'&'}) {
      var m := GetToken(s, i).next;
      var k := AndsShape(s, m, Back(c));
      n := k + 1;
      Whole(Lex(s, i));
    } else {
      n := 0;
    }
  }

  /** What the parser accepts is a sentence, and the result is its meaning. */
  lemma {:induction false} SentenceShape(s: string, i: nat) returns (l: Sentence)
    requires i <= |s| && Line(s) && ParseLine(s, i).Ok?
    ensures var r := ParseLine(s, i); Read(s, r.value) == Meaning(l) && Lex(s, i) == SentenceToks(l, Lex(s, r.pos)) && Fits(l)
    decreases |s| - i, 3
  {
    hide Lex, SkipSpace, GetToken, Peeks, ParsePipe, ParseBacks;
    var p := SeriesShape(s, i);
    var a := ParsePipe(s, i);
    var n := AndsShape(s, a.pos, a.value);
    var b := ParseBacks(s, a.pos, a.value);
    Ahead(s, b.pos);
    if Peeks(s, b.pos, {';'}) {
      var m := GetToken(s, b.pos).next;
      var next := SentenceShape(s, m);
      l := Then(p, n, next);
      Whole(Lex(s, b.pos));
    } else {
      l := Last(p, n);
    }
  }

  // ----- spelling -----

  lemma {:induction false} SkipGap(s: string, i: nat, q: nat)
    requires i <= q <= |s| && (forall k :: i <= k < q ==> IsSpace(s[k])) && (q < |s| ==> !IsSpace(s[q]))
    ensures SkipSpace(s, i) == q
    decreases q - i
  {
    if i < q { SkipGap(s, i + 1, q); }
  }

  lemma {:induction false} WordEndAt(s: string, i: nat, j: nat)
    requires i <= j <= |s| && (forall k :: i <= k < j ==> WordChar(s[k])) && (j < |s| ==> IsSpace(s[j]) || IsSymbol(s[j]))
    ensures WordEnd(s, i) == j
    decreases j - i
  {
    if i < j { WordEndAt(s, i + 1, j); }
  }

  lemma LexSkips(s: string, i: nat)
    requires i <= |s|
    ensures Lex(s, SkipSpace(s, i)) == Lex(s, i)
  {
    AfterPeek(s, i);
  }

  /** Token t can end before position e. */
  predicate EndsAt(s: string, t: Tok, e: nat) {
    e < |s| ==> (t.Word? ==> IsSpace(s[e]) || IsSymbol(s[e])) && (t == Sign('>') ==> s[e] != '>')
  }

  /** s has x at position i. */
  ghost predicate Has(s: string, i: nat, x: string) {
    i + |x| <= |s| && forall k {:trigger x[k]} :: 0 <= k < |x| ==> s[i + k] == x[k]
  }

  lemma WordAt(s: string, i: nat, q: nat, w: string)
    requires i <= q <= |s| && SkipSpace(s, i) == q && Has(s, q, w) && LegalWord(w) && EndsAt(s, Word(w), q + |w|)
    ensures GetToken(s, i) == Token('a', Span(q, q + |w|), SkipSpace(s, q + |w|)) && ReadWord(s, Span(q, q + |w|)) == w
  {
    forall k | q <= k < q + |w| ensures WordChar(s[k]) { assert s[k] == w[k - q]; }
    WordEndAt(s, q, q + |w|);
    assert s[q..q + |w|] == w;
  }

  lemma SignAt(s: string, i: nat, q: nat, c: char)
    requires i <= q <= |s| && SkipSpace(s, i) == q && IsSign(c) && Has(s, q, Chars(Sign(c))) && EndsAt(s, Sign(c), q + |Chars(Sign(c))|)
    ensures var e := q + |Chars(Sign(c))|; GetToken(s, i) == Token(c, Span(q, e), SkipSpace(s, e))
  {
    var x := Chars(Sign(c));
    assert s[q] == x[0];
    if c == '+' { assert s[q + 1] == x[1]; }
  }

  /** A token behind some space. */
  lemma TokenAt(s: string, i: nat, g: string, t: Tok)
    requires Has(s, i, g) && AllSpace(g) && Has(s, i + |g|, Chars(t)) && LegalTok(t) && EndsAt(s, t, i + |g| + |Chars(t)|)
    ensures i + |g| + |Chars(t)| > i && Lex(s, i) == [t] + Lex(s, i + |g| + |Chars(t)|)
  {
    hide SkipSpace, GetToken, Has, Chars, LegalWord, Lex;
    var q, e := i + |g|, i + |g| + |Chars(t)|;
    GapAt(s, i, g, t);
    if t.Word? { WordAt(s, i, q, t.w); } else { SignAt(s, i, q, t.c); }
    LexSkips(s, e);
    LexTok(s, i, t);
  }

  lemma GapAt(s: string, i: nat, g: string, t: Tok)
    requires Has(s, i, g) && AllSpace(g) && Has(s, i + |g|, Chars(t)) && LegalTok(t)
    ensures i <= i + |g| < i + |g| + |Chars(t)| <= |s| && SkipSpace(s, i) == i + |g| && (t.Word? ==> Chars(t) == t.w)
  {
    var q := i + |g|;
    forall k | i <= k < q ensures IsSpace(s[k]) { assert s[i + (k - i)] == g[k - i]; }
    assert s[q] == Chars(t)[0] && !IsSpace(s[q]);
    SkipGap(s, i, q);
  }

  lemma LexTok(s: string, i: nat, t: Tok)
    requires i <= |s| && GetToken(s, i).kind != '\0' && TokOf(s, GetToken(s, i)) == t
    ensures Lex(s, i) == [t] + Lex(s, GetToken(s, i).next)
  {
  }

  /** What a spelling starts with. */
  lemma SpellStarts(ts: seq<Tok>, gaps: seq<string>)
    requires Spaced(ts, gaps) && LegalToks(ts) && Spell(ts, gaps) != ""
    ensures var c := Spell(ts, gaps)[0]; if gaps[0] != "" || ts == [] then IsSpace(c) else c == Chars(ts[0])[0]
  {
    if ts != [] { assert LegalTok(ts[0]); }
  }

  lemma SpacedTail(ts: seq<Tok>, gaps: seq<string>)
    requires Spaced(ts, gaps) && LegalToks(ts) && ts != []
    ensures Spaced(ts[1..], gaps[1..]) && LegalToks(ts[1..])
  {
    forall k | 0 < k < |ts[1..]| && Clash(ts[1..][k - 1], ts[1..][k]) ensures gaps[1..][k] != "" {
      var n := k + 1;
      assert ts[n] == ts[1..][k] && ts[n - 1] == ts[1..][k - 1] && gaps[n] == gaps[1..][k];
    }
    forall k | 0 <= k < |gaps[1..]| ensures AllSpace(gaps[1..][k]) { assert gaps[1..][k] == gaps[k + 1]; }
  }

  /** The tokens of a spelling are those that were spelled. */
  lemma {:induction false} SpellLexes(x: string, ts: seq<Tok>, gaps: seq<string>)
    requires Spaced(ts, gaps) && LegalToks(ts)
    ensures Lex(x + Spell(ts, gaps), |x|) == ts
    decreases |ts|
  {
    if ts == [] {
      OnlySpace(x, gaps[0]);
    } else {
      var y := SpellFirst(x, ts, gaps);
      SpacedTail(ts, gaps);
      hide *;
      SpellLexes(y, ts[1..], gaps[1..]);
      assert ts == [ts[0]] + ts[1..];
    }
  }

  lemma SpellFirst(x: string, ts: seq<Tok>, gaps: seq<string>) returns (y: string)
    requires Spaced(ts, gaps) && LegalToks(ts) && ts != []
    ensures |gaps[1..]| == |ts[1..]| + 1 && x + Spell(ts, gaps) == y + Spell(ts[1..], gaps[1..])
    ensures Lex(x + Spell(ts, gaps), |x|) == [ts[0]] + Lex(y + Spell(ts[1..], gaps[1..]), |y|)
  {
    hide Lex, SkipSpace, GetToken, Has, LegalToks, Spaced, EndsAt;
    y := FirstSpelled(x, ts, gaps);
    Apart(ts, gaps, y);
    TokenAt(x + Spell(ts, gaps), |x|, gaps[0], ts[0]);
    assert |y| == |x| + |gaps[0]| + |Chars(ts[0])|;
  }

  lemma OnlySpace(x: string, g: string)
    requires AllSpace(g)
    ensures Lex(x + g, |x|) == []
  {
    var s := x + g;
    forall k | |x| <= k < |s| ensures IsSpace(s[k]) { assert s[k] == g[k - |x|]; }
    SkipGap(s, |x|, |s|);
  }

  lemma FirstSpelled(x: string, ts: seq<Tok>, gaps: seq<string>) returns (y: string)
    requires Spaced(ts, gaps) && LegalToks(ts) && ts != []
    ensures |gaps| == |ts| + 1 && |gaps[1..]| == |ts[1..]| + 1
    ensures var s := x + Spell(ts, gaps);
            && y == x + gaps[0] + Chars(ts[0]) && s == y + Spell(ts[1..], gaps[1..]) && AllSpace(gaps[0]) && LegalTok(ts[0])
            && Has(s, |x|, gaps[0]) && Has(s, |x| + |gaps[0]|, Chars(ts[0]))
  {
    y := x + gaps[0] + Chars(ts[0]);
    assert x + Spell(ts, gaps) == y + Spell(ts[1..], gaps[1..]);
  }

  /** The first token ends before the rest of a spelling. */
  lemma Apart(ts: seq<Tok>, gaps: seq<string>, y: string)
    requires Spaced(ts, gaps) && LegalToks(ts) && ts != []
    ensures EndsAt(y + Spell(ts[1..], gaps[1..]), ts[0], |y|)
  {
    SpacedTail(ts, gaps);
    var more := Spell(ts[1..], gaps[1..]);
    if more != "" {
      SpellStarts(ts[1..], gaps[1..]);
      assert (y + more)[|y|] == more[0] && gaps[1..][0] == gaps[1];
      if |ts| > 1 && gaps[1] == "" { assert ts[1..][0] == ts[1] && LegalTok(ts[1]) && !Clash(ts[0], ts[1]); }
    }
  }

  /** Every line spells its tokens. */
  lemma {:induction false} LexSpells(s: string, i: nat) returns (gaps: seq<string>)
    requires i <= |s| && Line(s)
    ensures LegalToks(Lex(s, i)) && Spaced(Lex(s, i), gaps) && Spell(Lex(s, i), gaps) == s[i..]
    decreases |s| - i
  {
    hide Lex, GetToken, SkipSpace, Spaced, LegalToks;
    var q, e := Outline(s, i);
    var ts := Lex(s, i);
    if ts == [] {
      gaps := [s[i..]];
      OneGap(s[i..]);
    } else {
      var more := LexSpells(s, e);
      gaps := [s[i..q]] + more;
      assert gaps[1..] == more && ts[1..] == Lex(s, e);
      assert s[i..] == s[i..q] + s[q..e] + s[e..];
      SpacedCons(s, ts, gaps, e);
    }
  }

  lemma OneGap(g: string)
    requires AllSpace(g)
    ensures LegalToks([]) && Spaced([], [g]) && Spell([], [g]) == g
  {
  }

  /** Space up to q, then the next token up to e. */
  lemma Outline(s: string, i: nat) returns (q: nat, e: nat)
    requires i <= |s| && Line(s)
    ensures var ts := Lex(s, i);
            && i <= q <= e <= |s| && (ts == [] ==> AllSpace(s[i..]))
            && (ts != [] ==>
                  && q < e && AllSpace(s[i..q]) && LegalTok(ts[0]) && s[q..e] == Chars(ts[0]) && EndsAt(s, ts[0], e) && ts[1..] == Lex(s, e))
  {
    hide Lex, GetToken, SkipSpace;
    Ahead(s, i);
    SpaceBefore(s, i);
    var t := GetToken(s, i);
    q, e := t.span.q, t.span.eq;
    if Lex(s, i) == [] {
      assert s[i..] == s[i..q];
    } else {
      TokenChars(s, i);
      LexSkips(s, e);
    }
  }

  /** The space that gettoken skips. */
  lemma SpaceBefore(s: string, i: nat)
    requires i <= |s| && Line(s)
    ensures var q := GetToken(s, i).span.q; i <= q <= |s| && AllSpace(s[i..q]) && (GetToken(s, i).kind == '\0' ==> q == |s|)
  {
    SkippedIsSpace(s, i);
    assert forall k :: 0 <= k < |s| ==> s[k] in s;
  }

  lemma {:induction false} SkippedIsSpace(s: string, i: nat)
    requires i <= |s|
    ensures AllSpace(s[i..SkipSpace(s, i)])
    decreases |s| - i
  {
    if i < |s| && IsSpace(s[i]) {
      SkippedIsSpace(s, i + 1);
      assert s[i..SkipSpace(s, i)] == [s[i]] + s[i + 1..SkipSpace(s, i)];
    }
  }

  /** The characters of the token, and that none of them was left out. */
  lemma TokenChars(s: string, i: nat)
    requires i <= |s| && Line(s) && GetToken(s, i).kind != '\0'
    ensures var t := GetToken(s, i);
            && i <= t.span.q < t.span.eq <= |s| && t.next == SkipSpace(s, t.span.eq)
            && s[t.span.q..t.span.eq] == Chars(TokOf(s, t)) && EndsAt(s, TokOf(s, t), t.span.eq)
  {
    SkipSpaceIs(s, i);
    if GetToken(s, i).kind == 'a' { TokenSpan(s, i); } else { SignChars(s, i, SkipSpace(s, i)); }
  }

  lemma SignChars(s: string, i: nat, q: nat)
    requires i <= |s| && q == SkipSpace(s, i) < |s| && GetToken(s, i).kind != 'a' && GetToken(s, i).kind != '\0'
    ensures var t := GetToken(s, i);
            && t.span.q == q < t.span.eq <= |s| && t.next == SkipSpace(s, t.span.eq)
            && s[q..t.span.eq] == Chars(Sign(t.kind)) && EndsAt(s, Sign(t.kind), t.span.eq)
  {
    hide SkipSpace, WordEnd;
    var t := GetToken(s, i);
    if t.kind == '+' { assert s[q..q + 2] == [s[q], s[q + 1]]; } else { assert s[q..q + 1] == [s[q]]; }
  }

  /** One more token in front of a spelling. */
  lemma SpacedCons(s: string, ts: seq<Tok>, gaps: seq<string>, e: nat)
    requires ts != [] && LegalTok(ts[0]) && LegalToks(ts[1..]) && |gaps| > 0 && AllSpace(gaps[0]) && Spaced(ts[1..], gaps[1..])
    requires e <= |s| && EndsAt(s, ts[0], e) && s[e..] == Spell(ts[1..], gaps[1..])
    ensures LegalToks(ts) && Spaced(ts, gaps)
  {
    forall k | 0 <= k < |ts| ensures LegalTok(ts[k]) { if k > 0 { assert ts[k] == ts[1..][k - 1]; } }
    forall k | 0 <= k < |gaps| ensures AllSpace(gaps[k]) { if k > 0 { assert gaps[k] == gaps[1..][k - 1]; } }
    forall k | 0 < k < |ts| && Clash(ts[k - 1], ts[k]) ensures gaps[k] != "" {
      if k == 1 {
        ClashNeedsSpace(s, ts, gaps, e);
      } else {
        var n := k - 1;
        assert ts[1..][n] == ts[k] && ts[1..][n - 1] == ts[k - 1] && gaps[1..][n] == gaps[k];
      }
    }
  }

  lemma ClashNeedsSpace(s: string, ts: seq<Tok>, gaps: seq<string>, e: nat)
    requires |ts| > 1 && LegalToks(ts[1..]) && |gaps| > 0 && Spaced(ts[1..], gaps[1..]) && Clash(ts[0], ts[1])
    requires e <= |s| && EndsAt(s, ts[0], e) && s[e..] == Spell(ts[1..], gaps[1..])
    ensures gaps[1] != ""
  {
    assert ts[1..][0] == ts[1] && gaps[1..][0] == gaps[1] && LegalTok(ts[1]);
  }

  // ----- the parser and the grammar -----

  /** A text of the sentence: its tokens with these gaps. */
  ghost predicate TextOf(s: string, l: Sentence, gaps: seq<string>) {
    && Fits(l) && LegalToks(SentenceToks(l, [])) && Spaced(SentenceToks(l, []), gaps)
    && s == Spell(SentenceToks(l, []), gaps)
  }

  /** Every text of a sentence parses to its meaning, wherever its space is. */
  lemma TextReads(s: string, l: Sentence, gaps: seq<string>)
    requires TextOf(s, l, gaps)
    ensures Line(s) && ParseCmd(s).Ok? && Read(s, ParseCmd(s).value) == Meaning(l)
  {
    hide Lex, SkipSpace, Spell, Spaced, LegalToks, Read, Meaning, Fits;
    TextTokens(s, l, gaps);
    SentenceReads(s, 0, l, []);
    AllRead(s, ParseLine(s, 0).pos);
  }

  lemma TextTokens(s: string, l: Sentence, gaps: seq<string>)
    requires TextOf(s, l, gaps)
    ensures Line(s) && Lex(s, 0) == SentenceToks(l, [])
  {
    hide Lex, Spell, Spaced, LegalToks;
    SpellLine(SentenceToks(l, []), gaps);
    SpellLexes("", SentenceToks(l, []), gaps);
    assert "" + s == s;
  }

  lemma AllRead(s: string, i: nat)
    requires i <= |s| && Line(s)
    ensures Lex(s, i) == [] <==> SkipSpace(s, i) == |s|
  {
    assert forall k :: 0 <= k < |s| ==> s[k] in s;
  }

  /** Whatever parses is a text of a sentence that means the result. */
  lemma ReadsText(s: string) returns (l: Sentence, gaps: seq<string>)
    requires Line(s) && ParseCmd(s).Ok?
    ensures TextOf(s, l, gaps) && Read(s, ParseCmd(s).value) == Meaning(l)
  {
    l := SentenceShape(s, 0);
    AllRead(s, ParseLine(s, 0).pos);
    assert Lex(s, 0) == SentenceToks(l, []);
    gaps := LexSpells(s, 0);
    assert s[0..] == s;
  }

  /** The parser accepts a line and gives c exactly when the line is a text of a sentence that means c. */
  lemma ParsesIff(s: string, c: Cmd<string>)
    requires Line(s)
    ensures (ParseCmd(s).Ok? && Read(s, ParseCmd(s).value) == c) <==> exists l, gaps :: TextOf(s, l, gaps) && Meaning(l) == c
  {
    if ParseCmd(s).Ok? && Read(s, ParseCmd(s).value) == c {
      var l, gaps := ReadsText(s);
      assert TextOf(s, l, gaps) && Meaning(l) == c;
    }
    if l, gaps :| TextOf(s, l, gaps) && Meaning(l) == c { TextReads(s, l, gaps); }
  }

  /** So the parser panics exactly on lines that are no text of any sentence. */
  lemma Accepts(s: string)
    requires Line(s)
    ensures ParseCmd(s).Ok? <==> exists l, gaps :: TextOf(s, l, gaps)
    ensures ParseCmd(s).Ok? ==> exists l, gaps :: TextOf(s, l, gaps) && Meaning(l) == Read(s, ParseCmd(s).value)
  {
    if ParseCmd(s).Ok? {
      var l, gaps := ReadsText(s);
      assert TextOf(s, l, gaps) && Meaning(l) == Read(s, ParseCmd(s).value);
    }
    if l, gaps :| TextOf(s, l, gaps) { TextReads(s, l, gaps); }
  }

  /** Two lines with the same tokens fare the same: space matters only where it separates. */
  lemma SpacingIrrelevant(s: string, t: string)
    requires Line(s) && Line(t) && Lex(s, 0) == Lex(t, 0)
    ensures ParseCmd(s).Ok? <==> ParseCmd(t).Ok?
    ensures ParseCmd(s).Ok? ==> Read(s, ParseCmd(s).value) == Read(t, ParseCmd(t).value)
  {
    if ParseCmd(s).Ok? { SameReading(s, t); }
    if ParseCmd(t).Ok? { SameReading(t, s); }
  }

  lemma SameReading(s: string, t: string)
    requires Line(s) && Line(t) && Lex(s, 0) == Lex(t, 0) && ParseCmd(s).Ok?
    ensures ParseCmd(t).Ok? && Read(s, ParseCmd(s).value) == Read(t, ParseCmd(t).value)
  {
    hide ParseCmd, Lex, Spaced, LegalToks, Spell;
    var l, gaps := ReadsText(s);
    SpellLexes("", SentenceToks(l, []), gaps);
    assert "" + s == s;
    var other := LexSpells(t, 0);
    assert t[0..] == t;
    TextReads(t, l, other);
  }

  /** So a newline or other space at the end of a line changes nothing. */
  lemma TrailingSpace(s: string, w: string)
    requires Line(s) && AllSpace(w)
    ensures Line(s + w) && (ParseCmd(s + w).Ok? <==> ParseCmd(s).Ok?)
    ensures ParseCmd(s).Ok? ==> Read(s + w, ParseCmd(s + w).value) == Read(s, ParseCmd(s).value)
  {
    hide ParseCmd, Lex, Spaced, LegalToks, Spell;
    var ts := Lex(s, 0);
    var gaps := LexSpells(s, 0);
    assert s[0..] == s && "" + (s + w) == s + w;
    SpaceLine(w);
    var longer := MoreSpace(ts, gaps, w);
    SpellLexes("", ts, longer);
    SpacingIrrelevant(s + w, s);
  }

  lemma {:induction false} MoreSpace(ts: seq<Tok>, gaps: seq<string>, w: string) returns (longer: seq<string>)
    requires Spaced(ts, gaps) && LegalToks(ts) && AllSpace(w)
    ensures Spaced(ts, longer) && Spell(ts, longer) == Spell(ts, gaps) + w && longer[0] == if ts == [] then gaps[0] + w else gaps[0]
    decreases |ts|
  {
    if ts == [] {
      longer := [gaps[0] + w];
    } else {
      SpacedTail(ts, gaps);
      var more := MoreSpace(ts[1..], gaps[1..], w);
      longer := [gaps[0]] + more;
      assert longer[1..] == more;
      SpacedBefore(ts, gaps, longer);
    }
  }

  lemma SpacedBefore(ts: seq<Tok>, gaps: seq<string>, longer: seq<string>)
    requires ts != [] && Spaced(ts, gaps) && longer != [] && longer[0] == gaps[0] && Spaced(ts[1..], longer[1..])
    requires |ts| > 1 ==> longer[1..][0] == gaps[1..][0]
    ensures Spaced(ts, longer)
  {
    forall k | 0 <= k < |longer| ensures AllSpace(longer[k]) { if k > 0 { assert longer[k] == longer[1..][k - 1]; } }
    forall k | 0 < k < |ts| && Clash(ts[k - 1], ts[k]) ensures longer[k] != "" {
      if k > 1 {
        var n := k - 1;
        assert ts[1..][n] == ts[k] && ts[1..][n - 1] == ts[k - 1] && longer[1..][n] == longer[k];
      } else {
        assert longer[1..][0] == longer[1] && gaps[1..][0] == gaps[1];
      }
    }
  }

  /** The grammar is unambiguous: the tokens determine the meaning. */
  lemma Unambiguous(l: Sentence, m: Sentence)
    requires SentenceToks(l, []) == SentenceToks(m, []) && LegalToks(SentenceToks(l, [])) && Fits(l) && Fits(m)
    ensures Meaning(l) == Meaning(m)
  {
    var gaps := seq(|SentenceToks(l, [])| + 1, _ => " ");
    var s := Spell(SentenceToks(l, []), gaps);
    TextReads(s, l, gaps);
    TextReads(s, m, gaps);
  }

  lemma {:induction false} SpellLine(ts: seq<Tok>, gaps: seq<string>)
    requires LegalToks(ts) && Spaced(ts, gaps)
    ensures Line(Spell(ts, gaps))
    decreases |ts|
  {
    SpaceLine(gaps[0]);
    if ts != [] {
      assert LegalTok(ts[0]);
      assert Line(Chars(ts[0]));
      SpacedTail(ts, gaps);
      SpellLine(ts[1..], gaps[1..]);
    }
  }

  lemma SpaceLine(g: string)
    requires AllSpace(g)
    ensures Line(g)
  {
  }

  // ----- every command has a text -----

  /** How loosely a command binds: words and redirections, |, &, ;. */
  function Level(c: Cmd<string>): (n: nat) { if c.List? then 3 else if c.Back? then 2 else if c.Pipe? then 1 else 0 }

  function Arguments(args: seq<string>): (xs: seq<Item>)
    ensures |xs| == |args|
  {
    seq(|args|, k requires 0 <= k < |args| => Arg(args[k]))
  }

  function WithTarget(u: Unit, t: Target): (r: Unit) {
    if u.Plain? then Plain(u.items + [To(t)]) else Group(u.line, u.targets + [t])
  }

  /** A sentence for c.  Parts that bind too loosely are in parentheses, and so are those for which extra
      asks it; the whole, when bare, is not. */
  function AsUnit(extra: Cmd<string> -> bool, c: Cmd<string>, bare: bool): (u: Unit)
    requires bare ==> Level(c) == 0
    decreases c, if bare then 0 else 1, 0
  {
    if Level(c) > 0 || (extra(c) && !bare) then Group(AsSentence(extra, c, true), [])
    else if c.Exec? then Plain(Arguments(c.args))
    else WithTarget(AsUnit(extra, c.cmd, false), Target(c.mode, c.file))
  }

  function AsSeries(extra: Cmd<string> -> bool, c: Cmd<string>, bare: bool): (p: Series)
    requires bare ==> Level(c) <= 1
    decreases c, if bare then 0 else 1, 1
  {
    if c.Pipe? && (bare || !extra(c)) then Piped(AsUnit(extra, c.left, false), AsSeries(extra, c.right, false))
    else One(AsUnit(extra, c, bare))
  }

  function AsBacked(extra: Cmd<string> -> bool, c: Cmd<string>, bare: bool): (r: (Series, nat))
    requires bare ==> Level(c) <= 2
    decreases c, if bare then 0 else 1, 2
  {
    if c.Back? && (bare || !extra(c)) then
      var r := AsBacked(extra, c.cmd, false);
      (r.0, r.1 + 1)
    else (AsSeries(extra, c, bare), 0)
  }

  function AsSentence(extra: Cmd<string> -> bool, c: Cmd<string>, bare: bool): (l: Sentence)
    decreases c, if bare then 0 else 1, 3
  {
    if c.List? && (bare || !extra(c)) then
      var r := AsBacked(extra, c.left, false);
      Then(r.0, r.1, AsSentence(extra, c.right, false))
    else
      var r := AsBacked(extra, c, bare);
      Last(r.0, r.1)
  }

  predicate LegalArgs(args: seq<string>) { |args| < MAXARGS && forall k :: 0 <= k < |args| ==> LegalWord(args[k]) }

  /** The words of c can be written, and each of its simple commands fits. */
  predicate Legal(c: Cmd<string>) {
    match c
    case Exec(args) => LegalArgs(args)
    case Redir(d, f, _) => Legal(d) && LegalWord(f)
    case Pipe(l, r) => Legal(l) && Legal(r)
    case List(l, r) => Legal(l) && Legal(r)
    case Back(d) => Legal(d)
  }

  lemma {:induction false} ArgumentsAre(args: seq<string>, rest: seq<Tok>)
    requires LegalToks(rest) && forall k :: 0 <= k < |args| ==> LegalWord(args[k])
    ensures Args(Arguments(args)) == args && Targets(Arguments(args)) == [] && LegalToks(ItemsToks(Arguments(args), rest))
    decreases |args|
  {
    var xs := Arguments(args);
    if args != [] {
      ArgumentsAre(args[1..], rest);
      assert xs[1..] == Arguments(args[1..]);
    }
  }

  lemma {:induction false} ItemsSnoc(xs: seq<Item>, t: Target, rest: seq<Tok>)
    ensures Args(xs + [To(t)]) == Args(xs) && Targets(xs + [To(t)]) == Targets(xs) + [t]
    ensures ItemsToks(xs + [To(t)], rest) == ItemsToks(xs, TargetToks(t, rest))
    decreases |xs|
  {
    hide TargetToks;
    if xs == [] {
      assert ([To(t)])[1..] == [];
    } else {
      assert (xs + [To(t)])[1..] == xs[1..] + [To(t)];
      ItemsSnoc(xs[1..], t, rest);
    }
  }

  lemma {:induction false} TargetsSnoc(ts: seq<Target>, t: Target, rest: seq<Tok>)
    ensures TargetsToks(ts + [t], rest) == TargetsToks(ts, TargetToks(t, rest))
    decreases |ts|
  {
    hide TargetToks;
    if ts == [] {
      assert ([t])[1..] == [];
    } else {
      assert (ts + [t])[1..] == ts[1..] + [t];
      TargetsSnoc(ts[1..], t, rest);
    }
  }

  lemma WithTargetMeans(u: Unit, t: Target, rest: seq<Tok>)
    ensures UnitMeans(WithTarget(u, t)) == Redir(UnitMeans(u), t.file, t.mode) && (UnitFits(WithTarget(u, t)) <==> UnitFits(u))
    ensures UnitToks(WithTarget(u, t), rest) == UnitToks(u, TargetToks(t, rest))
  {
    if u.Plain? {
      ItemsSnoc(u.items, t, rest);
      RedirectedSnoc(Exec(Args(u.items)), Targets(u.items), t);
    } else {
      TargetsSnoc(u.targets, t, rest);
      RedirectedSnoc(Meaning(u.line), u.targets, t);
    }
  }

  lemma {:induction false} BackgroundSnoc(c: Cmd<string>, n: nat)
    ensures Background(c, n + 1) == Back(Background(c, n))
    decreases n
  {
    if n > 0 { BackgroundSnoc(Back(c), n - 1); }
  }

  lemma {:induction false} AndsLegal(n: nat, rest: seq<Tok>)
    requires LegalToks(rest)
    ensures LegalToks(Ands(n, rest))
  {
    if n > 0 { AndsLegal(n - 1, rest); }
  }

  lemma LegalCons(t: Tok, rest: seq<Tok>)
    requires LegalTok(t) && LegalToks(rest)
    ensures LegalToks([t] + rest)
  {
  }

  lemma {:induction false} UnitWritten(extra: Cmd<string> -> bool, c: Cmd<string>, bare: bool, rest: seq<Tok>)
    requires Legal(c) && (bare ==> Level(c) == 0) && LegalToks(rest)
    ensures var u := AsUnit(extra, c, bare); UnitMeans(u) == c && UnitFits(u) && LegalToks(UnitToks(u, rest))
    decreases c, if bare then 0 else 1, 0
  {
    hide LegalToks, AsSentence;
    if Level(c) > 0 || (extra(c) && !bare) {
      LegalCons(Sign(')'), rest);
      SentenceWritten(extra, c, true, [Sign(')')] + rest);
      LegalCons(Sign('('), SentenceToks(AsSentence(extra, c, true), [Sign(')')] + rest));
    } else if c.Exec? {
      ArgumentsAre(c.args, rest);
    } else {
      var t := Target(c.mode, c.file);
      LegalCons(Word(t.file), rest);
      LegalCons(Sign(SignOf(t.mode)), [Word(t.file)] + rest);
      UnitWritten(extra, c.cmd, false, TargetToks(t, rest));
      WithTargetMeans(AsUnit(extra, c.cmd, false), t, rest);
    }
  }

  lemma {:induction false} SeriesWritten(extra: Cmd<string> -> bool, c: Cmd<string>, bare: bool, rest: seq<Tok>)
    requires Legal(c) && (bare ==> Level(c) <= 1) && LegalToks(rest)
    ensures var p := AsSeries(extra, c, bare); SeriesMeans(p) == c && SeriesFits(p) && LegalToks(SeriesToks(p, rest))
    decreases c, if bare then 0 else 1, 1
  {
    hide LegalToks, AsUnit;
    if c.Pipe? && (bare || !extra(c)) {
      SeriesWritten(extra, c.right, false, rest);
      var more := SeriesToks(AsSeries(extra, c.right, false), rest);
      LegalCons(Sign('|'), more);
      UnitWritten(extra, c.left, false, [Sign('|')] + more);
    } else {
      UnitWritten(extra, c, bare, rest);
    }
  }

  lemma {:induction false} BackedWritten(extra: Cmd<string> -> bool, c: Cmd<string>, bare: bool, rest: seq<Tok>)
    requires Legal(c) && (bare ==> Level(c) <= 2) && LegalToks(rest)
    ensures var r := AsBacked(extra, c, bare);
            Background(SeriesMeans(r.0), r.1) == c && SeriesFits(r.0) && LegalToks(SeriesToks(r.0, rest))
    decreases c, if bare then 0 else 1, 2
  {
    hide LegalToks, AsSeries;
    if c.Back? && (bare || !extra(c)) {
      BackedWritten(extra, c.cmd, false, rest);
      var r := AsBacked(extra, c.cmd, false);
      BackgroundSnoc(SeriesMeans(r.0), r.1);
    } else {
      SeriesWritten(extra, c, bare, rest);
    }
  }

  /** Every legal command is the meaning of a sentence with no more parentheses than precedence needs, and
      of one with any that are added. */
  lemma {:induction false} SentenceWritten(extra: Cmd<string> -> bool, c: Cmd<string>, bare: bool, rest: seq<Tok>)
    requires Legal(c) && LegalToks(rest)
    ensures var l := AsSentence(extra, c, bare); Meaning(l) == c && Fits(l) && LegalToks(SentenceToks(l, rest))
    decreases c, if bare then 0 else 1, 3
  {
    hide LegalToks, AsBacked;
    if c.List? && (bare || !extra(c)) {
      var r := AsBacked(extra, c.left, false);
      SentenceWritten(extra, c.right, false, rest);
      var more := SentenceToks(AsSentence(extra, c.right, false), rest);
      LegalCons(Sign(';'), more);
      AndsLegal(r.1, [Sign(';')] + more);
      BackedWritten(extra, c.left, false, Ands(r.1, [Sign(';')] + more));
    } else {
      var r := AsBacked(extra, c, bare);
      AndsLegal(r.1, rest);
      BackedWritten(extra, c, bare, Ands(r.1, rest));
    }
  }

  /** Every legal command is what its texts parse to. */
  lemma RoundTrip(extra: Cmd<string> -> bool, c: Cmd<string>, gaps: seq<string>)
    requires Legal(c) && Spaced(SentenceToks(AsSentence(extra, c, true), []), gaps)
    ensures var s := Spell(SentenceToks(AsSentence(extra, c, true), []), gaps);
            ParseCmd(s).Ok? && Read(s, ParseCmd(s).value) == c
  {
    SentenceWritten(extra, c, true, []);
    var l := AsSentence(extra, c, true);
    TextReads(Spell(SentenceToks(l, []), gaps), l, gaps);
  }
}
