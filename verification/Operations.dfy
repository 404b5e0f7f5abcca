/** A file system operation as callers of kernel/log.c write it: begin_op, then bread, a change,
    log_write and brelse for each block, then end_op, which commits for the last operation. */
module Operations {
  import opened CrashLog
  import BC = BufferCache
  import Counting
  import L = Log
  import LS = LogSpace

  /** The most blocks an operation may log. */
  const LIMIT: nat := LS.MAXOPBLOCKS - 1

  function Numbers(ws: seq<Write>): (r: seq<int>) {
    seq(|ws|, i requires 0 <= i < |ws| => ws[i].blockno)
  }

  function Blocks(ws: seq<Write>): (s: set<nat>)
    ensures forall i :: 0 <= i < |ws| ==> ws[i].blockno in s
  {
    set i | 0 <= i < |ws| :: ws[i].blockno
  }

  ghost predicate AllHome(l: Layout, blocks: seq<int>, size: nat) {
    forall b {:trigger b in blocks} :: b in blocks ==> 0 <= b < size && !l.Inside(b)
  }

  /** Between log operations: the reservation holds, exactly the logged blocks are pinned, all of
      them home blocks, and the log on disk is empty. */
  ghost predicate Orderly(l: Layout, s: LS.Space, v: BC.View) {
    && LS.Inv(LIMIT, s) && !s.committing && l.size == LS.NLOG
    && v.pinned == multiset(s.blocks) && AllHome(l, s.blocks, |v.disk|)
    && Clean(l, v.disk) && l.size <= |v.disk[l.start]|
  }

  /** An operation that changes ws finds the locks it needs free, a buffer for every block, and
      logs only home blocks, no more than the limit. */
  ghost predicate Affordable(l: Layout, s: LS.Space, v: BC.View, ws: seq<Write>) {
    && AllHome(l, Numbers(ws), |v.disk|) && |Blocks(ws)| <= LIMIT
    && L.LocksFree(l, s.blocks + Numbers(ws), v) && |BC.Refs(v) + Blocks(ws)| < v.n
  }

  /** The reservation after operation op has logged the blocks of ws. */
  function LoggedAll(s: LS.Space, op: nat, ws: seq<Write>): (r: LS.Space)
    requires op < |s.ops|
    ensures |r.ops| == |s.ops| && r == s.(blocks := r.blocks, ops := s.ops[op := r.ops[op]])
  {
    if ws == [] then s else LS.Logged(LoggedAll(s, op, ws[..|ws| - 1]), op, ws[|ws| - 1].blockno)
  }

  /** One block changed: bread, the change, log_write, brelse. */
  method Update(log: L.Log, k: nat, data: Block, ghost op: nat)
    requires log.Valid() && log.bc.view.pinned == multiset(log.space.blocks) && log.l.size == LS.NLOG
    requires op < |log.space.ops| && !LS.Panics(log.space, LS.LogWrite(op, k))
    requires k < |log.bc.disk| && !log.bc.view.HasLock(k)
    requires k in BC.Refs(log.bc.view) || |BC.Refs(log.bc.view)| < log.bc.nbuf
    modifies log, log.block, log.bc, log.bc.buf
    ensures log.Valid() && log.space == LS.Logged(old(log.space), op, k)
    ensures log.bc.view.pinned == multiset(log.space.blocks)
    ensures log.bc.disk == old(log.bc.disk) && log.bc.view.trace == old(log.bc.view).trace
    ensures k < |old(log.bc.view).truth| && log.bc.view.truth == old(log.bc.view).truth[k := data]
    ensures L.Resting(old(log.bc.view), log.bc.view)
  {
    hide BC.View.Ok, BC.OthersKeep, BC.OnlyLocks, L.Resting;
    ghost var u := log.bc.view;
    var b := log.bc.Bread(BC.ROOTDEV, k);
    ghost var v := log.bc.view;
    StoreEnabled(v, k, data);
    log.bc.StoreData(b, data, k);
    ghost var s := log.bc.view;
    log.LogWrite(b, k, op);
    ghost var w := log.bc.view;
    StoreKeeps(v, w, k, data);
    log.bc.Brelse(b, k);
    L.OneRested(u, v, w, log.bc.view, k);
  }

  lemma StoreEnabled(v: BC.View, k: nat, data: Block)
    requires v.Ok() && v.Held(k)
    ensures BC.Enabled(v, BC.Store(k, data)) && BC.Stored(v, k, data).Held(k)
    ensures BC.BufOf(BC.Stored(v, k, data), k).data == data
  {
    assert v.BlockOk(k);
  }

  lemma StoreKeeps(v: BC.View, w: BC.View, k: nat, data: Block)
    requires v.Ok() && v.Held(k) && L.Resting(BC.Stored(v, k, data), w)
    ensures BC.OthersKeep(v, w, {k}) && BC.OnlyLocks(v, w, {})
  {
    var s := BC.Stored(v, k, data);
    assert v.BlockOk(k);
    forall j | j in v.inUse && j != k ensures BC.StillUsed(v, w, j) {
      assert v.RefOk(j) && v.BlockOk(j) && BC.StillUsed(s, w, j);
    }
    forall j | w.HasLock(j) ensures v.HasLock(j) { assert s.HasLock(j); }
  }

  /** The part of an operation between begin_op and end_op. */
  method UpdateAll(log: L.Log, ws: seq<Write>, ghost op: nat)
    requires log.Valid() && op < |log.space.ops| && log.space.ops[op] == {}
    requires Orderly(log.l, log.space, log.bc.view) && Affordable(log.l, log.space, log.bc.view, ws)
    modifies log, log.block, log.bc, log.bc.buf
    ensures log.Valid() && Done(log.l, old(log.space), old(log.bc.view), op, ws, log.space, log.bc.view)
  {
    hide Done, Orderly, Affordable, BC.View.Ok, LS.Inv, LS.Logged, L.Resting, Numbers, Blocks, BC.Refs;
    ghost var s, v := log.space, log.bc.view;
    NoneDone(log.l, s, v, op, ws);
    var i := 0;
    while i < |ws|
      invariant 0 <= i <= |ws| && log.Valid() && Done(log.l, s, v, op, ws[..i], log.space, log.bc.view)
    {
      ghost var t, w := log.space, log.bc.view;
      MayUpdate(log.l, s, v, op, ws, i, t, w);
      Update(log, ws[i].blockno, ws[i].data, op);
      DoneStep(log.l, s, v, op, ws, i, t, w, log.space, log.bc.view);
      i := i + 1;
    }
    assert ws[..i] == ws;
  }

  /** From s and v, the blocks of ws have been changed and logged, and the disk is as it was. */
  ghost predicate Done(l: Layout, s: LS.Space, v: BC.View, op: nat, ws: seq<Write>, t: LS.Space, w: BC.View) {
    && op < |s.ops| && t == LoggedAll(s, op, ws) && t.ops[op] <= Blocks(ws)
    && Orderly(l, s, v) && Orderly(l, t, w) && w.disk == v.disk && w.trace == v.trace && w.truth == Apply(v.truth, ws)
    && L.Resting(v, w) && (forall b {:trigger b in t.blocks} :: b in t.blocks ==> b in s.blocks || b in Numbers(ws))
  }

  lemma NoneDone(l: Layout, s: LS.Space, v: BC.View, op: nat, ws: seq<Write>)
    requires v.Ok() && op < |s.ops| && s.ops[op] == {} && Orderly(l, s, v)
    ensures Done(l, s, v, op, ws[..0], s, v)
  {
    assert ws[..0] == [];
    L.RestingRefl(v);
  }

  /** The next block can be changed: its lock is free, a buffer is there, and the log has room. */
  lemma MayUpdate(l: Layout, s: LS.Space, v: BC.View, op: nat, ws: seq<Write>, i: nat, t: LS.Space, w: BC.View)
    requires i < |ws| && Affordable(l, s, v, ws) && Done(l, s, v, op, ws[..i], t, w)
    ensures l.size == LS.NLOG && w.pinned == multiset(t.blocks) && op < |t.ops| && ws[i].blockno < |w.disk|
    ensures !w.HasLock(ws[i].blockno) && (ws[i].blockno in BC.Refs(w) || |BC.Refs(w)| < w.n)
    ensures LS.Inv(LIMIT, t) && |t.ops[op] + {ws[i].blockno}| <= LIMIT && !LS.Panics(t, LS.LogWrite(op, ws[i].blockno))
  {
    var k := ws[i].blockno;
    assert Numbers(ws)[i] == k;
    assert k in s.blocks + Numbers(ws);
    assert w.HasLock(k) ==> v.HasLock(k);
    WithinLimit(ws, i, t.ops[op]);
    LS.InvLogWrite(LIMIT, t, op, k);
    RefsWithin(s, v, ws, i, t, w);
  }

  lemma WithinLimit(ws: seq<Write>, i: nat, o: set<int>)
    requires i < |ws| && o <= Blocks(ws[..i]) && |Blocks(ws)| <= LIMIT
    ensures |o + {ws[i].blockno}| <= LIMIT
  {
    forall b | b in o + {ws[i].blockno} ensures b in Blocks(ws) {
      if b in o { var j :| 0 <= j < i && ws[..i][j].blockno == b; assert ws[j].blockno == b; }
    }
    Counting.SubsetSize(o + {ws[i].blockno}, Blocks(ws));
  }

  lemma RefsWithin(s: LS.Space, v: BC.View, ws: seq<Write>, i: nat, t: LS.Space, w: BC.View)
    requires i <= |ws| && L.Resting(v, w) && v.pinned == multiset(s.blocks) && w.pinned == multiset(t.blocks)
    requires forall b {:trigger b in t.blocks} :: b in t.blocks ==> b in s.blocks || b in Numbers(ws[..i])
    ensures |BC.Refs(w)| <= |BC.Refs(v) + Blocks(ws)| && w.n == v.n
  {
    forall b: nat | b in BC.Refs(w) ensures b in BC.Refs(v) + Blocks(ws) {
      if b in w.pinned {
        assert b in t.blocks;
        if b in Numbers(ws[..i]) { var j :| 0 <= j < i && Numbers(ws[..i])[j] == b; assert ws[j].blockno == b; }
      }
    }
    Counting.SubsetSize(BC.Refs(w), BC.Refs(v) + Blocks(ws));
  }

  lemma DoneStep(l: Layout, s: LS.Space, v: BC.View, op: nat, ws: seq<Write>, i: nat, t: LS.Space, w: BC.View, t': LS.Space, w': BC.View)
    requires i < |ws| && Affordable(l, s, v, ws) && Done(l, s, v, op, ws[..i], t, w)
    requires LS.Inv(LIMIT, t) && |t.ops[op] + {ws[i].blockno}| <= LIMIT
    requires t' == LS.Logged(t, op, ws[i].blockno) && w'.pinned == multiset(t'.blocks) && L.Resting(w, w')
    requires w'.disk == w.disk && w'.trace == w.trace
    requires ws[i].blockno < |w.truth| && w'.truth == w.truth[ws[i].blockno := ws[i].data]
    ensures Done(l, s, v, op, ws[..i + 1], t', w')
  {
    hide L.Resting, Orderly, Affordable, Numbers, Blocks, LoggedAll, LS.Logged, LS.Inv, Apply;
    assert ws[..i + 1] == ws[..i] + [ws[i]];
    L.RestingTrans(v, w, w');
    LoggedOrderly(l, s, v, t, w, op, t', w', ws, i);
    LoggedMore(s, op, ws, i, t);
    ApplySnoc(v.truth, ws[..i], ws[i]);
  }

  lemma LoggedOrderly(l: Layout, s: LS.Space, v: BC.View, t: LS.Space, w: BC.View, op: nat, t': LS.Space, w': BC.View,
                      ws: seq<Write>, i: nat)
    requires Orderly(l, t, w) && op < |t.ops| && i < |ws| && |t.ops[op] + {ws[i].blockno}| <= LIMIT
    requires t' == LS.Logged(t, op, ws[i].blockno) && w'.pinned == multiset(t'.blocks) && w'.disk == w.disk == v.disk
    requires Affordable(l, s, v, ws)
    ensures Orderly(l, t', w')
  {
    var k := ws[i].blockno;
    LS.InvLogWrite(LIMIT, t, op, k);
    hide LS.Inv;
    assert Numbers(ws)[i] == k && k in Numbers(ws);
  }

  lemma LoggedMore(s: LS.Space, op: nat, ws: seq<Write>, i: nat, t: LS.Space)
    requires i < |ws| && op < |s.ops| && t == LoggedAll(s, op, ws[..i]) && t.ops[op] <= Blocks(ws[..i])
    requires forall b {:trigger b in t.blocks} :: b in t.blocks ==> b in s.blocks || b in Numbers(ws[..i])
    ensures var r := LS.Logged(t, op, ws[i].blockno);
            && r == LoggedAll(s, op, ws[..i + 1]) && r.ops[op] <= Blocks(ws[..i + 1])
            && forall b {:trigger b in r.blocks} :: b in r.blocks ==> b in s.blocks || b in Numbers(ws[..i + 1])
  {
    hide Numbers, Blocks;
    OneMore(ws, i);
    var now, k := ws[..i + 1], ws[i].blockno;
    assert now[..i] == ws[..i] && now[i] == ws[i];
    assert LoggedAll(s, op, now) == LS.Logged(t, op, k);
    forall b | b in LS.Logged(t, op, k).blocks ensures b in s.blocks || b in Numbers(now) {
      if b == k { assert Numbers(now)[|Numbers(ws[..i])|] == b; } else { assert b in t.blocks; }
    }
  }

  lemma OneMore(ws: seq<Write>, i: nat)
    requires i < |ws|
    ensures Blocks(ws[..i + 1]) == Blocks(ws[..i]) + {ws[i].blockno}
    ensures Numbers(ws[..i + 1]) == Numbers(ws[..i]) + [ws[i].blockno as int]
  {
    var a, b := Blocks(ws[..i + 1]), Blocks(ws[..i]) + {ws[i].blockno};
    forall x: nat | x in a ensures x in b {
      var j :| 0 <= j < i + 1 && ws[..i + 1][j].blockno == x;
      if j < i { assert ws[..i][j].blockno == x; }
    }
    forall x: nat | x in b ensures x in a {
      if x in Blocks(ws[..i]) {
        var j :| 0 <= j < i && ws[..i][j].blockno == x;
        assert ws[..i + 1][j].blockno == x;
      } else {
        assert ws[..i + 1][i].blockno == x;
      }
    }
  }

  // ----- the whole operation -----

  lemma BeginOrderly(l: Layout, s: LS.Space, v: BC.View, ws: seq<Write>)
    requires Orderly(l, s, v) && Affordable(l, s, v, ws) && LS.Enabled(s, LS.Begin)
    ensures var b := LS.Next(s, LS.Begin);
            Orderly(l, b, v) && Affordable(l, b, v, ws) && |b.ops| == |s.ops| + 1 && b.ops[|s.ops|] == {}
  {
    LS.InvStep(LIMIT, s, LS.Begin);
  }

  /** end_op's decision: the operation is over without panic, and if it was the last one, what
      commit counts on holds. */
  lemma EndReady(l: Layout, s: LS.Space, v: BC.View, ws: seq<Write>, t: LS.Space, w: BC.View)
    requires LS.Enabled(s, LS.Begin) && w.Ok() && Affordable(l, LS.Next(s, LS.Begin), v, ws)
    requires Done(l, LS.Next(s, LS.Begin), v, |s.ops|, ws, t, w)
    ensures |s.ops| < |t.ops| && !LS.Panics(t, LS.End(|s.ops|)) && L.CanCommit(l, t.blocks, w)
    ensures LS.Next(t, LS.End(|s.ops|)) == LS.Space(t.blocks, s.outstanding, s.outstanding == 0, s.ops)
    ensures s.outstanding > 0 ==> Orderly(l, LS.Next(t, LS.End(|s.ops|)), w)
    ensures w.disk == v.disk && w.trace == v.trace && w.truth == Apply(v.truth, ws) && L.Resting(v, w) && Orderly(l, t, w)
    ensures t.blocks == LoggedAll(LS.Next(s, LS.Begin), |s.ops|, ws).blocks && s.outstanding == |s.ops|
  {
    LS.InvEnd(LIMIT, t, |s.ops|);
    var e := LS.Next(t, LS.End(|s.ops|));
    assert e.ops == s.ops;
    LastCanCommit(l, s, v, ws, t, w);
  }

  lemma LastCanCommit(l: Layout, s: LS.Space, v: BC.View, ws: seq<Write>, t: LS.Space, w: BC.View)
    requires LS.Enabled(s, LS.Begin) && w.Ok() && Affordable(l, LS.Next(s, LS.Begin), v, ws)
    requires Done(l, LS.Next(s, LS.Begin), v, |s.ops|, ws, t, w)
    ensures L.CanCommit(l, t.blocks, w)
  {
    hide L.LocksFree, L.Resting, BC.View.Ok, BC.Refs, LS.Inv, LoggedAll, Numbers, Blocks, TxOk;
    LoggedTxOk(l, t, w);
    LocksStay(l, s.blocks + Numbers(ws), t.blocks, v, w);
    assert ws[..|ws|] == ws;
    RefsWithin(LS.Next(s, LS.Begin), v, ws, |ws|, t, w);
  }

  /** The logged blocks make a transaction that the log can take. */
  lemma LoggedTxOk(l: Layout, t: LS.Space, w: BC.View)
    requires w.Ok() && Orderly(l, t, w)
    ensures |w.truth| == |w.disk| && forall i :: 0 <= i < |t.blocks| ==> 0 <= t.blocks[i] < |w.truth|
    ensures t.blocks != [] ==> TxOk(l, w.disk, L.TxOf(t.blocks, w.truth))
  {
    LS.SlackBounds(LIMIT, t.ops);
    forall i | 0 <= i < |t.blocks| ensures 0 <= t.blocks[i] < |w.disk| && !l.Inside(t.blocks[i]) { assert t.blocks[i] in t.blocks; }
  }

  lemma LocksStay(l: Layout, a: seq<int>, b: seq<int>, v: BC.View, w: BC.View)
    requires L.LocksFree(l, a, v) && L.Resting(v, w) && forall x :: x in b ==> x in a
    ensures L.LocksFree(l, b, w)
  {
    L.LocksStayFree(l, a, v, w);
  }

  /** After the commit of the last operation the disk has the latest contents of every home block. */
  lemma Committed(l: Layout, v: BC.View, t: LS.Space, w: BC.View, x: BC.View)
    requires w.Ok() && Orderly(l, t, w) && L.CanCommit(l, t.blocks, w) && x.pinned == multiset{}
    requires if t.blocks == [] then x == w else L.IssuedCommit(l, t.blocks, w, x)
    requires L.Resting(v, w) && L.Resting(w, x)
    ensures Orderly(l, LS.INIT, x) && SameHome(l, x.disk, w.truth) && L.Resting(v, x)
  {
    L.RestingTrans(v, w, x);
    UnloggedOnDisk(w, t.blocks);
    if t.blocks != [] {
      L.CommitInstalls(l, t.blocks, w, x);
      TruthInstalled(w, t.blocks);
    }
    hide L.CanCommit, L.IssuedCommit, L.Resting, BC.View.Ok, Install, LS.Inv;
    assert LS.Inv(LIMIT, LS.INIT) by { IdleInv(); }
  }

  lemma IdleInv()
    ensures LS.Inv(LIMIT, LS.INIT)
  {
  }

  lemma UnloggedOnDisk(w: BC.View, blocks: seq<int>)
    requires w.Ok() && w.pinned == multiset(blocks)
    ensures |w.disk| == |w.truth| && forall b: nat {:trigger w.disk[b]} :: b < |w.disk| && b !in blocks ==> w.disk[b] == w.truth[b]
  {
    forall b: nat | b < |w.disk| && b !in blocks ensures w.disk[b] == w.truth[b] { assert w.DiskOk(b); }
  }

  lemma TruthInstalled(w: BC.View, blocks: seq<int>)
    requires |w.disk| == |w.truth| && (forall i :: 0 <= i < |blocks| ==> 0 <= blocks[i] < |w.truth|)
    requires forall b: nat {:trigger w.disk[b]} :: b < |w.disk| && b !in blocks ==> w.disk[b] == w.truth[b]
    ensures Install(w.disk, L.TxOf(blocks, w.truth)) == w.truth
  {
    var tx := L.TxOf(blocks, w.truth);
    forall b: nat | b < |w.disk| ensures Install(w.disk, tx)[b] == w.truth[b] {
      if b in blocks {
        var j := IndexOf(blocks, b);
        assert tx.vals[j] == w.truth[blocks[j]];
      }
    }
  }

  /** begin_op to end_op, with no other process in between; false where begin_op sleeps.  The
      changes are the latest contents of their blocks.  Beside other operations nothing reaches the
      disk; the last operation commits, and then the disk has all that was logged.  mid is the
      state when end_op decides. */
  method Operation(log: L.Log, ws: seq<Write>) returns (ok: bool, ghost mid: BC.View)
    requires log.Valid() && (log.committing || Orderly(log.l, log.space, log.bc.view))
    requires Affordable(log.l, log.space, log.bc.view, ws)
    modifies log, log.block, log.bc, log.bc.buf
    ensures log.Valid() && ok == LS.Enabled(old(log.space), LS.Begin)
    ensures ok <==> !old(log.committing) && old(log.n) + (old(log.outstanding) + 1) * LS.MAXOPBLOCKS <= LS.LOGSIZE
    ensures !ok ==> log.bc.view == old(log.bc.view) && log.space == old(log.space)
    ensures L.Resting(old(log.bc.view), log.bc.view)
    ensures ok ==> Ended(log.l, old(log.space), old(log.bc.view), ws, mid, log.space, log.bc.view)
  {
    hide Orderly, Affordable, Done, Ended, LoggedAll, Apply, L.Resting, L.CanCommit, L.IssuedCommit, BC.View.Ok;
    ghost var s, v := log.space, log.bc.view;
    L.RestingRefl(v);
    mid := v;
    ok := log.TryBegin();
    if !ok {
      return;
    }
    ghost var op := |s.ops|;
    BeginOrderly(log.l, s, v, ws);
    UpdateAll(log, ws, op);
    mid := log.bc.view;
    ghost var t := log.space;
    EndReady(log.l, s, v, ws, t, mid);
    var doCommit := log.EndOp(op);
    if doCommit {
      log.Commit();
      log.EndCommit();
      Committed(log.l, v, t, mid, log.bc.view);
    }
    EndedIs(log.l, s, v, ws, t, mid, log.space, log.bc.view);
  }

  /** Operation ws ran from s and v to t and w, by way of mid: the changes are the latest contents,
      and either others are still at work and the disk is as it was, or all that was logged has
      been committed. */
  ghost predicate Ended(l: Layout, s: LS.Space, v: BC.View, ws: seq<Write>, mid: BC.View, t: LS.Space, w: BC.View) {
    && LS.Enabled(s, LS.Begin) && Orderly(l, t, w) && t.ops == s.ops
    && mid.disk == v.disk && mid.trace == v.trace && mid.truth == Apply(v.truth, ws)
    && var blocks := LoggedAll(LS.Next(s, LS.Begin), |s.ops|, ws).blocks;
       if s.outstanding > 0 then w == mid && t.blocks == blocks
       else && t == LS.INIT && SameHome(l, w.disk, mid.truth)
            && L.CanCommit(l, blocks, mid) && (blocks != [] ==> L.IssuedCommit(l, blocks, mid, w))
  }

  lemma EndedIs(l: Layout, s: LS.Space, v: BC.View, ws: seq<Write>, r: LS.Space, mid: BC.View, t: LS.Space, w: BC.View)
    requires LS.Enabled(s, LS.Begin) && Orderly(l, t, w) && t.ops == s.ops
    requires r.blocks == LoggedAll(LS.Next(s, LS.Begin), |s.ops|, ws).blocks
    requires mid.disk == v.disk && mid.trace == v.trace && mid.truth == Apply(v.truth, ws)
    requires s.outstanding > 0 ==> w == mid && t.blocks == r.blocks
    requires s.outstanding <= 0 ==> t == LS.INIT && SameHome(l, w.disk, mid.truth) && L.CanCommit(l, r.blocks, mid)
    requires s.outstanding <= 0 && r.blocks != [] ==> L.IssuedCommit(l, r.blocks, mid, w)
    ensures Ended(l, s, v, ws, mid, t, w)
  {
    hide Orderly, L.CanCommit, L.IssuedCommit, SameHome;
  }
}
