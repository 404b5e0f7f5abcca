/** Log space reservation: begin_op, log_write and end_op of kernel/log.c as a state machine.

    Every step is a section the source runs under log.lock, so runs of the machine are
    the interleavings of file system calls. */
module LogSpace {
  import Counting

  const MAXOPBLOCKS: nat := 10
  const LOGSIZE: nat := 3 * MAXOPBLOCKS
  const NLOG: nat := LOGSIZE          // log.size as mkfs lays it out, header block included

  /** lh.block[..lh.n], the counters, and for each operation between begin_op and end_op
      the distinct blocks it has logged. */
  datatype Space = Space(blocks: seq<int>, outstanding: int, committing: bool, ops: seq<set<int>>)

  /** Erase is commit() reaching log.lh.n = 0; Finish is the last section of end_op. */
  datatype Step = Begin | LogWrite(op: nat, block: int) | End(op: nat) | Erase | Finish

  const INIT := Space([], 0, false, [])

  /** What program order and the wait loop of begin_op allow. */
  predicate Enabled(s: Space, t: Step) {
    match t
    case Begin => !s.committing && |s.blocks| + (s.outstanding + 1) * MAXOPBLOCKS <= LOGSIZE
    case LogWrite(i, _) => i < |s.ops|
    case End(i) => i < |s.ops|
    case Erase => s.committing
    case Finish => s.committing && s.blocks == []
  }

  /** The step runs into one of the source's panics. */
  predicate Panics(s: Space, t: Step) {
    match t
    case LogWrite(_, _) => |s.blocks| >= LOGSIZE || |s.blocks| >= NLOG - 1 || s.outstanding < 1
    case End(_) => s.committing
    case _ => false
  }

  /** Log absorption: a block already logged is not logged again. */
  function Logged(s: Space, i: nat, b: int): (r: Space)
    requires i < |s.ops|
  {
    s.(blocks := if b in s.blocks then s.blocks else s.blocks + [b], ops := s.ops[i := s.ops[i] + {b}])
  }

  function Erased(s: Space): (r: Space) { s.(blocks := []) }

  function Next(s: Space, t: Step): (r: Space)
    requires Enabled(s, t)
  {
    match t
    case Begin => s.(outstanding := s.outstanding + 1, ops := s.ops + [{}])
    case LogWrite(i, b) => Logged(s, i, b)
    case End(i) =>
      s.(outstanding := s.outstanding - 1, committing := s.outstanding == 1, ops := s.ops[..i] + s.ops[i + 1..])
    case Erase => Erased(s)
    case Finish => s.(committing := false)
  }

  /** No operation logs more than `limit` distinct blocks. */
  predicate Within(limit: nat, s: Space, t: Step) {
    t.LogWrite? && t.op < |s.ops| ==> |s.ops[t.op] + {t.block}| <= limit
  }

  /** A run of steps none of which panics or takes an operation over the limit. */
  predicate CanRun(limit: nat, s: Space, steps: seq<Step>)
    decreases |steps|
  {
    steps == [] ||
    (var t := steps[0];
     Enabled(s, t) && Within(limit, s, t) && !Panics(s, t) && CanRun(limit, Next(s, t), steps[1..]))
  }

  function Run(limit: nat, s: Space, steps: seq<Step>): (r: Space)
    requires CanRun(limit, s, steps)
    decreases |steps|
  {
    if steps == [] then s else Run(limit, Next(s, steps[0]), steps[1..])
  }

  /** Room still promised to the operations in progress. */
  function Slack(limit: nat, ops: seq<set<int>>): (n: int)
  {
    if ops == [] then 0 else limit - |ops[0]| + Slack(limit, ops[1..])
  }

  ghost predicate Inv(limit: nat, s: Space) {
    && s.outstanding == |s.ops|
    && (s.committing ==> s.outstanding == 0)
    && (s.outstanding == 0 && !s.committing ==> s.blocks == [])
    && (forall i :: 0 <= i < |s.ops| ==> |s.ops[i]| <= limit)
    && (forall i, b :: 0 <= i < |s.ops| && b in s.ops[i] ==> b in s.blocks)
    && (forall i, j :: 0 <= i < j < |s.blocks| ==> s.blocks[i] != s.blocks[j])
    && |s.blocks| + Slack(limit, s.ops) <= LOGSIZE - 2
  }

  lemma {:induction false} SlackUpdate(limit: nat, ops: seq<set<int>>, i: nat, s: set<int>)
    requires i < |ops|
    ensures Slack(limit, ops[i := s]) == Slack(limit, ops) + |ops[i]| - |s|
  {
    if i > 0 {
      SlackUpdate(limit, ops[1..], i - 1, s);
      assert ops[i := s][1..] == ops[1..][i - 1 := s];
    }
  }

  lemma {:induction false} SlackRemove(limit: nat, ops: seq<set<int>>, i: nat)
    requires i < |ops|
    ensures Slack(limit, ops[..i] + ops[i + 1..]) == Slack(limit, ops) + |ops[i]| - limit
  {
    if i == 0 {
      assert ops[..0] + ops[1..] == ops[1..];
    } else {
      SlackRemove(limit, ops[1..], i - 1);
      assert (ops[..i] + ops[i + 1..])[1..] == ops[1..][..i - 1] + ops[1..][i..];
    }
  }

  lemma {:induction false} SlackBounds(limit: nat, ops: seq<set<int>>)
    requires forall i :: 0 <= i < |ops| ==> |ops[i]| <= limit
    ensures 0 <= Slack(limit, ops) <= limit * |ops|
    ensures Slack(limit, ops + [{}]) == Slack(limit, ops) + limit
  {
    if ops != [] {
      SlackBounds(limit, ops[1..]);
      assert (ops + [{}])[1..] == ops[1..] + [{}];
    } else {
      assert (ops + [{}])[1..] == [];
    }
  }

  lemma InvLogWrite(limit: nat, s: Space, i: nat, b: int)
    requires limit < MAXOPBLOCKS && Inv(limit, s) && i < |s.ops| && |s.ops[i] + {b}| <= limit
    ensures !Panics(s, LogWrite(i, b)) && Inv(limit, Next(s, LogWrite(i, b)))
  {
    var grown := s.ops[i] + {b};
    SlackBounds(limit, s.ops);
    SlackUpdate(limit, s.ops, i, grown);
    var r := Logged(s, i, b);
    LoggedKeeps(limit, s, i, b);
    SlackBounds(limit, r.ops);
    assert b in s.ops[i] ==> grown == s.ops[i];
    assert b !in s.ops[i] ==> |grown| == |s.ops[i]| + 1;
  }

  lemma LoggedKeeps(limit: nat, s: Space, i: nat, b: int)
    requires Inv(limit, s) && i < |s.ops| && |s.ops[i] + {b}| <= limit
    ensures var r := Logged(s, i, b);
            && (forall j :: 0 <= j < |r.ops| ==> |r.ops[j]| <= limit)
            && (forall j, x :: 0 <= j < |r.ops| && x in r.ops[j] ==> x in r.blocks)
            && (forall j, k :: 0 <= j < k < |r.blocks| ==> r.blocks[j] != r.blocks[k])
  {
    var r := Logged(s, i, b);
    assert forall j :: 0 <= j < |r.ops| ==> r.ops[j] == if j == i then s.ops[i] + {b} else s.ops[j];
    forall x | x in s.blocks ensures x in r.blocks {
      var k :| 0 <= k < |s.blocks| && s.blocks[k] == x;
      assert r.blocks[k] == x;
    }
    assert b in r.blocks by {
      if b !in s.blocks { assert r.blocks[|s.blocks|] == b; }
    }
  }

  lemma InvEnd(limit: nat, s: Space, i: nat)
    requires limit < MAXOPBLOCKS && Inv(limit, s) && i < |s.ops|
    ensures !Panics(s, End(i)) && Inv(limit, Next(s, End(i)))
  {
    SlackRemove(limit, s.ops, i);
    var r := Next(s, End(i));
    assert forall j :: 0 <= j < |r.ops| ==> r.ops[j] == s.ops[if j < i then j else j + 1];
  }

  /** Reserving MAXOPBLOCKS for operations that log fewer leaves a spare block per admitted
      operation, and a lone operation starts with an empty log. */
  lemma InvStep(limit: nat, s: Space, t: Step)
    requires limit < MAXOPBLOCKS && Inv(limit, s) && Enabled(s, t) && Within(limit, s, t)
    ensures !Panics(s, t) && Inv(limit, Next(s, t))
  {
    match t
    case Begin =>
      SlackBounds(limit, s.ops);
      assert limit * |s.ops| <= 9 * |s.ops|;
    case LogWrite(i, b) => InvLogWrite(limit, s, i, b);
    case End(i) => InvEnd(limit, s, i);
    case Erase =>
    case Finish =>
  }

  lemma {:induction false} InvRun(limit: nat, s: Space, steps: seq<Step>)
    requires limit < MAXOPBLOCKS && Inv(limit, s) && CanRun(limit, s, steps)
    ensures Inv(limit, Run(limit, s, steps))
    decreases |steps|
  {
    if steps != [] {
      InvStep(limit, s, steps[0]);
      InvRun(limit, Next(s, steps[0]), steps[1..]);
    }
  }

  /** Over every interleaving in which no operation logs more than MAXOPBLOCKS-1 blocks:
      at most 28 blocks are logged, commit never overlaps an operation, and an idle log is empty. */
  lemma LogNeverFills(limit: nat, steps: seq<Step>)
    requires limit < MAXOPBLOCKS && CanRun(limit, INIT, steps)
    ensures var s := Run(limit, INIT, steps);
            && |s.blocks| <= 28
            && (s.committing ==> s.outstanding == 0 && s.ops == [])
            && (s.outstanding == 0 && !s.committing ==> s.blocks == [])
            && forall i, j :: 0 <= i < j < |s.blocks| ==> s.blocks[i] != s.blocks[j]
  {
    InvRun(limit, INIT, steps);
    SlackBounds(limit, Run(limit, INIT, steps).ops);
  }

  // ----- what a run has done, and when begin_op sleeps -----

  /** Operations begun and not ended. */
  function Unended(steps: seq<Step>): (n: int) {
    if steps == [] then 0
    else var t := steps[|steps| - 1];
         Unended(steps[..|steps| - 1]) + if t.Begin? then 1 else if t.End? then -1 else 0
  }

  /** Step i logged a block that has not been committed since. */
  predicate Uncommitted(steps: seq<Step>, i: nat) {
    i < |steps| && steps[i].LogWrite? && forall j :: i < j < |steps| ==> !steps[j].Erase?
  }

  function LoggedBlocks(steps: seq<Step>): (s: set<int>) {
    set i: nat | i < |steps| && Uncommitted(steps, i) :: steps[i].block
  }

  /** Step i ended the last operation, and its commit is not over. */
  predicate Commits(steps: seq<Step>, i: nat) {
    i < |steps| && steps[i].End? && Unended(steps[..i + 1]) == 0 && forall j :: i < j < |steps| ==> !steps[j].Finish?
  }

  lemma {:induction false} RunSnoc(limit: nat, s: Space, steps: seq<Step>, t: Step)
    requires CanRun(limit, s, steps + [t])
    ensures CanRun(limit, s, steps)
    ensures var r := Run(limit, s, steps); Enabled(r, t) && !Panics(r, t) && Run(limit, s, steps + [t]) == Next(r, t)
    decreases |steps|
  {
    if steps == [] {
      assert ([t])[1..] == [];
    } else {
      assert (steps + [t])[1..] == steps[1..] + [t];
      RunSnoc(limit, Next(s, steps[0]), steps[1..], t);
    }
  }

  lemma LoggedBlocksSnoc(steps: seq<Step>, t: Step)
    ensures LoggedBlocks(steps + [t]) ==
            if t.Erase? then {} else LoggedBlocks(steps) + if t.LogWrite? then {t.block} else {}
  {
    var all, n := steps + [t], |steps|;
    forall i: nat | i < n ensures all[i] == steps[i] && (Uncommitted(all, i) <==> Uncommitted(steps, i) && !t.Erase?) {
      assert all[n] == t && forall j :: i < j < n ==> all[j] == steps[j];
    }
    assert Uncommitted(all, n) <==> t.LogWrite?;
    forall b | b in LoggedBlocks(steps) && !t.Erase? ensures b in LoggedBlocks(all) {
      var i: nat :| i < n && Uncommitted(steps, i) && steps[i].block == b;
      assert Uncommitted(all, i) && all[i].block == b;
    }
    if t.LogWrite? { assert all[n].block == t.block && t.block in LoggedBlocks(all); }
  }

  lemma CommitsSnoc(steps: seq<Step>, t: Step)
    ensures (exists i: nat :: Commits(steps + [t], i)) <==>
            (t.End? && Unended(steps + [t]) == 0) || (!t.Finish? && exists i: nat :: Commits(steps, i))
  {
    var all, n := steps + [t], |steps|;
    forall i: nat | i < n ensures Commits(all, i) <==> Commits(steps, i) && !t.Finish? {
      assert all[i] == steps[i] && all[..i + 1] == steps[..i + 1] && all[n] == t && forall j :: i < j < n ==> all[j] == steps[j];
    }
    assert all[..n + 1] == all && all[n] == t;
    assert Commits(all, n) <==> t.End? && Unended(all) == 0;
    if i: nat :| Commits(steps, i) { assert !t.Finish? ==> Commits(all, i); }
  }

  ghost predicate DistinctBlocks(s: Space) { forall i, j :: 0 <= i < j < |s.blocks| ==> s.blocks[i] != s.blocks[j] }

  /** The log's fields are what its history says: who is in progress, which blocks await the commit,
      each once, and whether one is under way. */
  lemma {:induction false} RunIs(limit: nat, steps: seq<Step>)
    requires CanRun(limit, INIT, steps)
    ensures var s := Run(limit, INIT, steps);
            && s.outstanding == Unended(steps) && DistinctBlocks(s) && (set b | b in s.blocks) == LoggedBlocks(steps)
            && (s.committing <==> exists i: nat :: Commits(steps, i))
    decreases |steps|
  {
    if steps != [] {
      var n := |steps| - 1;
      var before, t := steps[..n], steps[n];
      assert steps == before + [t];
      RunSnoc(limit, INIT, before, t);
      RunIs(limit, before);
      LoggedBlocksSnoc(before, t);
      CommitsSnoc(before, t);
      hide CanRun, Run, LoggedBlocks, Commits;
      var s := Run(limit, INIT, before);
      if t.LogWrite? { LoggedOnce(s, t.op, t.block); }
    }
  }

  lemma LoggedOnce(s: Space, i: nat, b: int)
    requires i < |s.ops| && DistinctBlocks(s)
    ensures DistinctBlocks(Logged(s, i, b)) && (set x | x in Logged(s, i, b).blocks) == (set x | x in s.blocks) + {b}
  {
    var r := Logged(s, i, b);
    if b !in s.blocks { assert r.blocks[|s.blocks|] == b; }
    forall x | x in s.blocks ensures x in r.blocks { var k :| 0 <= k < |s.blocks| && s.blocks[k] == x; assert r.blocks[k] == x; }
  }

  /** begin_op sleeps exactly while a commit is under way, or while the blocks logged and MAXOPBLOCKS
      more for every operation in progress and the new one do not fit. */
  lemma SleepsIff(limit: nat, steps: seq<Step>)
    requires CanRun(limit, INIT, steps)
    ensures !Enabled(Run(limit, INIT, steps), Begin) <==>
            || (exists i: nat :: Commits(steps, i))
            || |LoggedBlocks(steps)| + MAXOPBLOCKS * Unended(steps) + MAXOPBLOCKS > LOGSIZE
  {
    RunIs(limit, steps);
    Counting.Elements(Run(limit, INIT, steps).blocks);
  }

  ghost predicate NeverPanics(limit: nat) {
    forall steps, t ::
      CanRun(limit, INIT, steps) && Enabled(Run(limit, INIT, steps), t) && Within(limit, Run(limit, INIT, steps), t)
      ==> !Panics(Run(limit, INIT, steps), t)
  }

  // ----- the documented limit is one too many -----

  /** The k-th log_write of three operations that log ten blocks each. */
  function Tens(k: nat): (t: Step) { LogWrite(k / 10, k) }

  function Fill(j: nat, k: nat): (steps: seq<Step>)
    requires j <= k
  {
    seq(k - j, i requires 0 <= i < k - j => Tens(j + i))
  }

  /** Three operations have begun and k blocks have been logged, ten by each in turn. */
  ghost predicate Filled(k: nat, s: Space) {
    && |s.blocks| == k && (forall i :: 0 <= i < k ==> s.blocks[i] == i)
    && s.outstanding == 3 && !s.committing && |s.ops| == 3
    && forall i, x :: 0 <= i < 3 && x in s.ops[i] ==> 10 * i <= x < 10 * i + 10
  }

  lemma {:induction false} IntervalCard(s: set<int>, a: int, b: int)
    requires a <= b && forall x :: x in s ==> a <= x < b
    ensures |s| <= b - a
    decreases b - a
  {
    if a == b {
      assert s == {};
    } else {
      IntervalCard(s - {a}, a + 1, b);
      assert s == if a in s then (s - {a}) + {a} else s - {a};
    }
  }

  lemma FilledStep(k: nat, s: Space)
    requires k < 30 && Filled(k, s)
    ensures Enabled(s, Tens(k)) && Within(10, s, Tens(k)) && Filled(k + 1, Next(s, Tens(k)))
  {
    var i := k / 10;
    IntervalCard(s.ops[i] + {k}, 10 * i, 10 * i + 10);
  }

  lemma {:induction false} FilledRun(j: nat, k: nat, s: Space, limit: nat)
    requires j <= k <= 29 && 10 <= limit && Filled(j, s)
    ensures CanRun(limit, s, Fill(j, k)) && Filled(k, Run(limit, s, Fill(j, k)))
    decreases k - j
  {
    hide Filled, Next;
    if j < k {
      FilledStep(j, s);
      FilledAdmits(j, s, limit);
      FilledRun(j + 1, k, Next(s, Tens(j)), limit);
      assert Fill(j, k)[1..] == Fill(j + 1, k);
    }
  }

  lemma FilledAdmits(k: nat, s: Space, limit: nat)
    requires k < 29 && 10 <= limit && Filled(k, s)
    ensures Enabled(s, Tens(k)) && Within(limit, s, Tens(k)) && !Panics(s, Tens(k))
  {
    FilledStep(k, s);
  }

  /** Three admitted operations of ten blocks each: the thirtieth log_write panics, because
      the header takes one of the thirty blocks. */
  lemma TenBlocksPanic(limit: nat)
    requires 10 <= limit
    ensures var steps := [Begin, Begin, Begin] + Fill(0, 29);
            && CanRun(limit, INIT, steps)
            && var s := Run(limit, INIT, steps);
               Enabled(s, Tens(29)) && Within(limit, s, Tens(29)) && Panics(s, Tens(29))
  {
    var s1 := Next(INIT, Begin);
    var s2 := Next(s1, Begin);
    var s3 := Next(s2, Begin);
    FilledRun(0, 29, s3, limit);
    var steps := [Begin, Begin, Begin] + Fill(0, 29);
    assert steps[1..][1..][1..] == Fill(0, 29);
    RunCons(limit, s2, steps[1..][1..]);
    RunCons(limit, s1, steps[1..]);
    RunCons(limit, INIT, steps);
    FilledStep(29, Run(limit, s3, Fill(0, 29)));
  }

  lemma RunCons(limit: nat, s: Space, steps: seq<Step>)
    requires steps != [] && Enabled(s, steps[0]) && Within(limit, s, steps[0]) && !Panics(s, steps[0])
    requires CanRun(limit, Next(s, steps[0]), steps[1..])
    ensures CanRun(limit, s, steps) && Run(limit, s, steps) == Run(limit, Next(s, steps[0]), steps[1..])
  {
  }

  /** The log panics are unreachable exactly when operations log fewer than MAXOPBLOCKS blocks. */
  lemma NeverPanicsIff(limit: nat)
    ensures NeverPanics(limit) <==> limit < MAXOPBLOCKS
  {
    if limit < MAXOPBLOCKS {
      forall steps, t |
        CanRun(limit, INIT, steps) && Enabled(Run(limit, INIT, steps), t) && Within(limit, Run(limit, INIT, steps), t)
        ensures !Panics(Run(limit, INIT, steps), t)
      {
        InvRun(limit, INIT, steps);
        InvStep(limit, Run(limit, INIT, steps), t);
      }
    } else {
      TenBlocksPanic(limit);
    }
  }
}
