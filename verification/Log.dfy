/** kernel/log.c as the kernel runs it: over the buffer cache.

    The write sequences that commit and recovery send to the disk are proved to be the ones
    whose every cut CrashLog analyses; the log lock's sections are proved to be the steps
    whose interleavings LogSpace analyses. */
module Log {
  import opened CrashLog
  import BC = BufferCache
  import Counting
  import LS = LogSpace

  class Log {
    const l: Layout               // log.start and log.size
    const bc: BC.Bcache
    const block: array<int>       // lh.block
    var n: nat                    // lh.n
    var outstanding: int
    var committing: bool
    ghost var space: LS.Space

    ghost predicate Valid()
      reads this, block, bc, bc.buf
    {
      && bc.Valid()
      && block.Length == LS.LOGSIZE && n <= LS.LOGSIZE
      && space.blocks == block[..n] && space.outstanding == outstanding && space.committing == committing
    }

    /** The fields as initlog sets them, before recovery. */
    constructor (l: Layout, bc: BC.Bcache)
      requires bc.Valid()
      ensures Valid() && fresh(block) && this.l == l && this.bc == bc && space == LS.INIT
    {
      this.l, this.bc := l, bc;
      n, outstanding, committing := 0, 0, false;
      block := new int[LS.LOGSIZE](_ => 0);
      space := LS.INIT;
    }

    /** One iteration of write_log: copy home block k, number i of the header, into the log. */
    method WriteLogBlock(i: nat, ghost k: nat)
      requires Valid() && i < n && block[i] == k < |bc.disk|
      requires l.start + 1 + i < |bc.disk| && k != l.start + 1 + i
      requires !bc.view.HasLock(l.start + 1 + i) && !bc.view.HasLock(k)
      requires k in bc.view.pinned && |BC.Refs(bc.view)| < bc.nbuf
      modifies bc, bc.buf
      ensures Valid() && bc.view.pinned == old(bc.view).pinned && k < |old(bc.view).truth|
      ensures Wrote(old(bc.view), bc.view, l.start + 1 + i, old(bc.view).truth[k])
    {
      hide BC.Both, BC.OnlyLocks, BC.OthersKeep, BC.View.Ok;
      ghost var u, j := bc.view, l.start + 1 + i;
      var to, from := BC.BreadBoth(bc, l.start + i + 1, block[i]);
      ghost var v, data := bc.view, bc.buf[from].data;
      bc.Overwrite(to, bc.buf[from].data, j);
      BC.BothSwap(u, v, to, j, from, k);
      BC.OverwriteKeepsBoth(u, v, bc.view, from, k, to, j, data);
      BC.BrelseBoth(bc, from, k, to, j, u);
    }

    /** One iteration of install_trans: copy log block i to its home k, and unpin the home
        block unless recovering. */
    method InstallBlock(i: nat, recovering: bool, ghost k: nat)
      requires Valid() && i < n && block[i] == k < |bc.disk|
      requires l.start + 1 + i < |bc.disk| && k != l.start + 1 + i
      requires !bc.view.HasLock(l.start + 1 + i) && !bc.view.HasLock(k) && |BC.Refs(bc.view)| < bc.nbuf
      requires if recovering then |BC.Refs(bc.view)| + 1 < bc.nbuf else k in bc.view.pinned
      modifies bc, bc.buf
      ensures Valid() && l.start + 1 + i < |old(bc.view).truth|
      ensures bc.view.pinned == if recovering then old(bc.view).pinned else old(bc.view).pinned - multiset{k}
      ensures Wrote(old(bc.view), bc.view, k, old(bc.view).truth[l.start + 1 + i])
    {
      hide BC.Both, BC.OnlyLocks, BC.OthersKeep, BC.View.Ok;
      ghost var u, j := bc.view, l.start + 1 + i;
      var lbuf, dbuf := BC.BreadBoth(bc, l.start + i + 1, block[i]);
      ghost var v, data := bc.view, bc.buf[lbuf].data;
      bc.Overwrite(dbuf, bc.buf[lbuf].data, k);
      ghost var w := bc.view;
      BC.OverwriteKeepsBoth(u, v, w, lbuf, j, dbuf, k, data);
      if !recovering {
        bc.Bunpin(dbuf, k);
        BC.UnpinKeepsBoth(u, w, lbuf, j, dbuf, k);
      }
      BC.BrelseBoth(bc, lbuf, j, dbuf, k, u);
    }

    /** write_head: the in-memory header over the header block. */
    method WriteHead()
      requires Valid() && l.start < |bc.disk| && n < |bc.disk[l.start]|
      requires l.start !in bc.view.pinned && !bc.view.HasLock(l.start) && |BC.Refs(bc.view)| < bc.nbuf
      modifies bc, bc.buf
      ensures Valid() && bc.view.pinned == old(bc.view).pinned
      ensures Wrote(old(bc.view), bc.view, l.start, HeaderBlock(old(bc.disk)[l.start], block[..n]))
    {
      ghost var u := bc.view;
      assert u.DiskOk(l.start);
      hide BC.View.Ok, BC.OthersKeep, BC.OnlyLocks, Resting;
      var b := bc.Bread(BC.ROOTDEV, l.start);
      ghost var v := bc.view;
      bc.Overwrite(b, HeaderBlock(bc.buf[b].data, block[..n]), l.start);
      ghost var w := bc.view;
      bc.Brelse(b, l.start);
      OneRested(u, v, w, bc.view, l.start);
    }

    /** What commit counts on: the logged blocks are pinned once each, the premises on the
        transaction hold, and whatever other processes are reading, they leave it a buffer and
        the locks of the logged blocks and of the log. */
    ghost predicate Ready()
      reads this, block, bc, bc.buf
    {
      && Valid()
      && CanCommit(l, block[..n], bc.view)
    }

    method WriteLog()
      requires Ready() && 0 < n
      modifies bc, bc.buf
      ensures Valid() && LogPhase(l, block[..n], old(bc.view), bc.view, n)
    {
      ghost var v0, blocks := bc.view, block[..n];
      var tail := 0;
      LogPhaseInit(l, blocks, v0);
      while tail < n
        invariant 0 <= tail <= n && Valid()
        invariant LogPhase(l, blocks, v0, bc.view, tail)
      {
        WriteLogStep(tail, blocks, v0);
        tail := tail + 1;
      }
    }

    method WriteLogStep(tail: nat, ghost blocks: seq<int>, ghost v0: BC.View)
      requires Valid() && tail < n && blocks == block[..n]
      requires CanCommit(l, blocks, v0) && LogPhase(l, blocks, v0, bc.view, tail)
      modifies bc, bc.buf
      ensures Valid() && LogPhase(l, blocks, v0, bc.view, tail + 1)
    {
      hide LogPhase, Wrote;
      ghost var v := bc.view;
      LogPhaseReady(l, blocks, v0, v, tail);
      WriteLogBlock(tail, blocks[tail]);
      LogPhaseStep(l, blocks, v0, v, bc.view, tail);
    }

    method InstallTrans(recovering: bool, ghost tx: Tx)
      requires Valid() && CanInstall(l, tx, bc.view, recovering) && tx.blocks == block[..n]
      modifies bc, bc.buf
      ensures Valid() && InstallPhase(l, tx, old(bc.view), bc.view, n, recovering)
    {
      ghost var v0 := bc.view;
      assert |tx.blocks| == n;
      hide InstallPhase, CanInstall;
      var tail := 0;
      InstallPhaseInit(l, tx, v0, recovering);
      while tail < n
        invariant 0 <= tail <= n && Valid()
        invariant InstallPhase(l, tx, v0, bc.view, tail, recovering)
      {
        InstallStep(tail, recovering, tx, v0);
        tail := tail + 1;
      }
    }

    method InstallStep(tail: nat, recovering: bool, ghost tx: Tx, ghost v0: BC.View)
      requires Valid() && tail < n && tx.blocks == block[..n]
      requires CanInstall(l, tx, v0, recovering) && InstallPhase(l, tx, v0, bc.view, tail, recovering)
      modifies bc, bc.buf
      ensures Valid() && InstallPhase(l, tx, v0, bc.view, tail + 1, recovering)
    {
      hide InstallPhase, CanInstall, Wrote;
      ghost var v := bc.view;
      InstallPhaseReady(l, tx, v0, v, tail, recovering);
      InstallBlock(tail, recovering, tx.blocks[tail]);
      InstallPhaseStep(l, tx, v0, v, bc.view, tail, recovering);
    }

    /** commit up to its commit point: write_log, then write_head. */
    method WriteTransaction()
      requires Ready() && 0 < n
      modifies bc, bc.buf
      ensures Valid() && AtPoint(l, block[..n], old(bc.view), bc.view)
    {
      ghost var blocks, v0 := block[..n], bc.view;
      WriteLog();
      ghost var v1 := bc.view;
      AfterWriteLog(l, blocks, v0, v1);
      WriteHead();
      AfterHead(l, blocks, v0, v1, bc.view);
    }

    /** install_trans(0) on a committed transaction. */
    method InstallCommitted(ghost tx: Tx)
      requires Valid() && tx.blocks == block[..n] && CanInstall(l, tx, bc.view, false)
      modifies bc, bc.buf
      ensures Valid() && bc.view.pinned == multiset{} && Resting(old(bc.view), bc.view)
      ensures |BC.Refs(bc.view)| < bc.nbuf && !bc.view.HasLock(l.start)
      ensures Issued(old(bc.view), bc.view, HomeWrites(tx))
      ensures bc.disk[l.start] == old(bc.disk)[l.start]
    {
      ghost var v := bc.view;
      InstallTrans(false, tx);
      AfterInstall(l, tx, v, bc.view);
    }

    /** commit from its commit point on: install_trans, then write_head with no blocks. */
    method InstallTransaction(ghost v0: BC.View)
      requires Valid() && 0 < n && CanCommit(l, block[..n], v0) && AtPoint(l, block[..n], v0, bc.view) && committing
      modifies this, bc, bc.buf
      ensures Valid() && n == 0 && space == old(space).(blocks := [])
      ensures bc.view.pinned == multiset{} && Resting(v0, bc.view)
      ensures IssuedCommit(l, old(block[..n]), v0, bc.view)
    {
      ghost var blocks, v2 := block[..n], bc.view;
      hide Resting, Issued, Wrote, LocksFree, CanInstall, BC.View.Ok;
      InstallCommitted(TxOf(blocks, v0.truth));
      ghost var v3 := bc.view;
      EraseHead();
      AfterErase(l, blocks, v0, v2, v3, bc.view);
    }

    /** commit(): its disk writes are exactly CommitWrites, the sequence CommitAtomic cuts; every
        buffer that others use is left to them. */
    method Commit()
      requires Ready() && committing
      modifies this, bc, bc.buf
      ensures Valid() && n == 0 && space == LS.Erased(old(space))
      ensures bc.view.pinned == multiset{} && Resting(old(bc.view), bc.view)
      ensures if old(n) == 0 then bc.view == old(bc.view)
              else IssuedCommit(l, old(block[..n]), old(bc.view), bc.view)
    {
      RestingRefl(bc.view);
      if n > 0 {
        ghost var v0 := bc.view;
        WriteTransaction();
        InstallTransaction(v0);
      }
    }

    /** The loop of read_head: header block h into lh. */
    method CopyHeader(h: Block)
      requires Valid() && 0 < |h| && 0 <= h[0] < |h| && h[0] <= LS.LOGSIZE
      modifies `n, `space, block
      ensures Valid() && block[..n] == h[1..1 + h[0]] && space == old(space).(blocks := block[..n])
    {
      n := h[0];
      var i := 0;
      while i < n
        invariant 0 <= i <= n <= block.Length && n == h[0]
        invariant forall j :: 0 <= j < i ==> block[j] == h[1 + j]
        modifies block
      {
        block[i] := h[1 + i];
        i := i + 1;
      }
      space := space.(blocks := block[..n]);
    }

    /** read_head: the header block into memory. */
    method ReadHead()
      requires Valid() && HeaderOk(l, bc.disk) && bc.disk[l.start][0] <= LS.LOGSIZE
      requires bc.view.pinned == multiset{} && !bc.view.HasLock(l.start) && |BC.Refs(bc.view)| < bc.nbuf
      modifies `n, `space, block, bc, bc.buf
      ensures Valid() && BC.SameStore(old(bc.view), bc.view) && Resting(old(bc.view), bc.view)
      ensures block[..n] == HeaderBlocks(l, bc.disk) && space == old(space).(blocks := block[..n])
    {
      ghost var u := bc.view;
      assert u.DiskOk(l.start);
      hide BC.View.Ok, BC.OthersKeep, BC.OnlyLocks, Resting;
      var b := bc.Bread(BC.ROOTDEV, l.start);
      ghost var v := bc.view;
      CopyHeader(bc.buf[b].data);
      bc.Brelse(b, l.start);
      OneRested(u, v, v, bc.view, l.start);
    }

    /** log.lh.n = 0, then write_head. */
    method EraseHead()
      requires Valid() && l.start < |bc.disk| && 0 < |bc.disk[l.start]|
      requires bc.view.pinned == multiset{} && !bc.view.HasLock(l.start) && |BC.Refs(bc.view)| < bc.nbuf
      modifies `n, `space, bc, bc.buf
      ensures Valid() && n == 0 && space == old(space).(blocks := [])
      ensures bc.view.pinned == multiset{}
      ensures Wrote(old(bc.view), bc.view, l.start, HeaderBlock(old(bc.disk)[l.start], []))
    {
      n := 0;
      space := space.(blocks := []);
      assert block[..0] == [];
      WriteHead();
    }

    /** install_trans(1) on the header just read. */
    method InstallLogged()
      requires Valid() && HeaderOk(l, bc.disk) && block[..n] == HeaderBlocks(l, bc.disk)
      requires bc.view.pinned == multiset{} && LocksFree(l, block[..n], bc.view) && |BC.Refs(bc.view)| + 1 < bc.nbuf
      modifies bc, bc.buf
      ensures Valid() && bc.view.pinned == multiset{} && Resting(old(bc.view), bc.view)
      ensures Issued(old(bc.view), bc.view, HomeWrites(LoggedTx(l, old(bc.disk))))
      ensures bc.disk[l.start] == old(bc.disk)[l.start]
    {
      ghost var v1 := bc.view;
      CanRecover(l, v1);
      InstallTrans(true, LoggedTx(l, v1.disk));
      AfterRecover(l, v1, bc.view);
    }

    /** recover_from_log: its disk writes are exactly RecoverWrites. */
    method Recover()
      requires Valid() && HeaderOk(l, bc.disk) && bc.disk[l.start][0] <= LS.LOGSIZE
      requires space == LS.INIT && bc.view.pinned == multiset{} && |BC.Refs(bc.view)| + 1 < bc.nbuf
      requires LocksFree(l, HeaderBlocks(l, bc.disk), bc.view)
      modifies `n, `space, block, bc, bc.buf
      ensures Valid() && space == LS.INIT && bc.view.pinned == multiset{} && Resting(old(bc.view), bc.view)
      ensures Issued(old(bc.view), bc.view, RecoverWrites(l, old(bc.disk)))
    {
      ghost var v0, d := bc.view, bc.disk;
      assert !v0.HasLock(l.start);
      hide LocksFree, Resting, Issued, Wrote, BC.View.Ok, LoggedTx, HomeWrites, RecoverWrites;
      ReadHead();
      ghost var v1 := bc.view;
      RestingRefs(v0, v1);
      LocksStayFree(l, HeaderBlocks(l, d), v0, v1);
      InstallLogged();
      ghost var v2 := bc.view;
      RestingRefs(v1, v2);
      LocksStayFree(l, HeaderBlocks(l, d), v1, v2);
      EraseHead();
      Recovered(l, v0, v1, v2, bc.view);
    }

    /** One turn of begin_op's loop, under log.lock; false means it sleeps. */
    method TryBegin() returns (ok: bool)
      requires Valid()
      modifies this
      ensures Valid() && n == old(n) && ok == LS.Enabled(old(space), LS.Begin)
      ensures ok <==> !old(committing) && old(n) + (old(outstanding) + 1) * LS.MAXOPBLOCKS <= LS.LOGSIZE
      ensures space == if ok then LS.Next(old(space), LS.Begin) else old(space)
    {
      if committing {
        return false;
      }
      if n + (outstanding + 1) * LS.MAXOPBLOCKS > LS.LOGSIZE {
        return false;
      }
      outstanding := outstanding + 1;
      space := LS.Next(space, LS.Begin);
      return true;
    }

    /** The absorption search of log_write. */
    method FindLogged(blockno: int) returns (i: nat)
      requires Valid()
      ensures i <= n && (i < n <==> blockno in space.blocks) && (i < n ==> block[i] == blockno)
    {
      i := 0;
      while i < n && block[i] != blockno
        invariant 0 <= i <= n
        invariant forall j :: 0 <= j < i ==> block[j] != blockno
      {
        i := i + 1;
      }
    }

    /** log_write by operation op on buffer b, which holds block k locked. */
    method LogWrite(b: nat, ghost k: nat, ghost op: nat)
      requires Valid() && bc.Names(b, k) && bc.view.Held(k) && bc.view.pinned == multiset(space.blocks)
      requires op < |space.ops| && !LS.Panics(space, LS.LogWrite(op, k)) && l.size == LS.NLOG
      modifies this, block, bc, bc.buf
      ensures Valid() && space == LS.Logged(old(space), op, k)
      ensures bc.view.pinned == multiset(space.blocks) && bc.view.inUse == old(bc.view).inUse
      ensures k < |old(bc.view).truth| && bc.view.truth == old(bc.view).truth[k := BC.BufOf(old(bc.view), k).data]
      ensures bc.disk == old(bc.disk) && bc.view.trace == old(bc.view).trace && bc.view.slot == old(bc.view).slot
      ensures bc.Names(b, k) && bc.view.Held(k) && bc.buf[b].data == old(bc.buf[b].data) && Resting(old(bc.view), bc.view)
    {
      ghost var v := bc.view;
      LogSteps(v, k);
      hide Resting, BC.View.Ok, BC.Enabled;
      var i := FindLogged(bc.buf[b].blockno);
      PinsFollow(v.pinned, space, op, k);
      Touch(b, i == n, k);
      Record(i, bc.buf[b].blockno, op);
    }

    /** What log_write does to the buffer: a pin unless the block was logged before, and its
        contents in memory become the latest. */
    method Touch(b: nat, isNew: bool, ghost k: nat)
      requires Valid() && bc.Names(b, k) && bc.view.Held(k) && (k in bc.view.pinned || isNew)
      modifies bc, bc.buf
      ensures Valid() && Touched(old(bc.view), bc.view, k, isNew) && bc.disk == old(bc.disk)
    {
      LogSteps(bc.view, k);
      TouchedIs(bc.view, k, isNew);
      hide Touched, BC.View.Ok;
      if isNew {
        bc.Bpin(b, k);
      }
      bc.MarkLogged(k);
    }

    /** The stores of log_write to the in-memory header. */
    method Record(i: nat, blockno: int, ghost op: nat)
      requires Valid() && op < |space.ops| && n < LS.LOGSIZE
      requires i <= n && (i < n <==> blockno in space.blocks) && (i < n ==> block[i] == blockno)
      modifies `n, `space, block
      ensures Valid() && space == LS.Logged(old(space), op, blockno)
    {
      block[i] := blockno;
      if i == n {
        n := n + 1;
      }
      space := LS.Logged(space, op, blockno);
      assert block[..n] == space.blocks;
    }

    /** First section of end_op. */
    method EndOp(ghost op: nat) returns (doCommit: bool)
      requires Valid() && op < |space.ops| && !LS.Panics(space, LS.End(op))
      modifies this
      ensures Valid() && n == old(n) && space == LS.Next(old(space), LS.End(op))
      ensures doCommit == committing && (doCommit <==> old(outstanding) == 1) && outstanding == old(outstanding) - 1
    {
      outstanding := outstanding - 1;
      doCommit := outstanding == 0;
      if doCommit {
        committing := true;
      }
      space := LS.Next(space, LS.End(op));
    }

    /** Last section of end_op, after commit. */
    method EndCommit()
      requires Valid() && committing && n == 0
      modifies this
      ensures Valid() && n == old(n) && space == LS.Next(old(space), LS.Finish)
    {
      committing := false;
      space := LS.Next(space, LS.Finish);
    }
  }

  lemma CanRecover(l: Layout, v: BC.View)
    requires v.Ok() && HeaderOk(l, v.disk) && v.pinned == multiset{}
    requires LocksFree(l, HeaderBlocks(l, v.disk), v) && |BC.Refs(v)| + 1 < v.n
    ensures CanInstall(l, LoggedTx(l, v.disk), v, true)
  {
    forall b: nat | b < |v.disk| ensures v.truth[b] == v.disk[b] {
      assert v.DiskOk(b);
    }
  }

  lemma AfterRecover(l: Layout, v1: BC.View, v2: BC.View)
    requires HeaderOk(l, v1.disk) && CanInstall(l, LoggedTx(l, v1.disk), v1, true)
    requires InstallPhase(l, LoggedTx(l, v1.disk), v1, v2, v1.disk[l.start][0], true)
    ensures v2.pinned == multiset{} && Resting(v1, v2) && |v2.disk| == |v1.disk|
    ensures v2.disk[l.start] == v1.disk[l.start]
    ensures Issued(v1, v2, HomeWrites(LoggedTx(l, v1.disk)))
  {
    var ws := HomeWrites(LoggedTx(l, v1.disk));
    assert ws[..v1.disk[l.start][0]] == ws;
    ApplyFrame(v1.disk, ws, l.start);
  }

  /** Nobody has the lock of a logged block or of a block of the log. */
  ghost predicate LocksFree(l: Layout, blocks: seq<int>, v: BC.View) {
    forall b: nat {:trigger v.HasLock(b)} :: l.Inside(b) || b in blocks ==> !v.HasLock(b)
  }

  /** Other processes' uses of buffers, their locks and what they hold under them are as before,
      and no lock is left behind. */
  ghost predicate Resting(v: BC.View, w: BC.View) {
    w.n == v.n && w.inUse == v.inUse && BC.OnlyLocks(v, w, {}) && BC.OthersKeep(v, w, {})
  }

  lemma LocksStayFree(l: Layout, blocks: seq<int>, v: BC.View, w: BC.View)
    requires LocksFree(l, blocks, v) && Resting(v, w)
    ensures LocksFree(l, blocks, w)
  {
  }

  lemma RestingTrans(u: BC.View, v: BC.View, w: BC.View)
    requires Resting(u, v) && Resting(v, w)
    ensures Resting(u, w)
  {
    forall j | w.HasLock(j) ensures u.HasLock(j) { assert v.HasLock(j); }
    BC.KeepTrans(u, v, w);
  }

  lemma RestingRefl(v: BC.View)
    requires v.Ok()
    ensures Resting(v, v)
  {
    forall j | j in v.inUse ensures BC.StillUsed(v, v, j) { assert v.RefOk(j) && v.BlockOk(j); }
  }

  /** bread of k, perhaps a change to it, and brelse. */
  lemma OneRested(u: BC.View, v: BC.View, w: BC.View, x: BC.View, k: nat)
    requires !u.HasLock(k) && BC.OthersKeep(u, v, {}) && BC.OnlyLocks(u, v, {k}) && v.inUse == u.inUse + multiset{k} && v.n == u.n
    requires w == v || (BC.OthersKeep(v, w, {k}) && BC.OnlyLocks(v, w, {}))
    requires w.slot == v.slot == x.slot && |w.bufs| == |v.bufs| == |x.bufs| && w.inUse == v.inUse && w.n == v.n
    requires BC.OthersKeep(w, x, {k}) && BC.OnlyLocks(w, x, {}) && !x.HasLock(k) && x.inUse == w.inUse - multiset{k} && x.n == w.n
    ensures Resting(u, x)
  {
    if w != v { BC.KeepBut(u, v, w, k); }
    forall j | w.HasLock(j) ensures u.HasLock(j) || j == k { assert v.HasLock(j); }
    BC.LastReleased(u, w, x, k);
  }

  /** Every other process keeps its lock and what it holds. */
  lemma HoldersKeep(v: BC.View, w: BC.View, j: nat)
    requires v.Ok() && Resting(v, w) && v.Held(j)
    ensures w.Held(j) && w.slot[j] == v.slot[j] && BC.BufOf(w, j).data == BC.BufOf(v, j).data
  {
    BC.HeldInUse(v, j);
    assert BC.StillUsed(v, w, j);
  }

  /** What log_write needs at its two steps on the cache. */
  lemma LogSteps(v: BC.View, k: nat)
    requires v.Ok() && v.Held(k)
    ensures |v.truth| == |v.disk| && BC.Enabled(v, BC.Pin(k)) && k < |v.disk| && BC.BufOf(v, k).blockno == k
    ensures var w := BC.Pinned(v, k); k in w.pinned && w.Held(k) && BC.Enabled(w, BC.Log(k))
    ensures k in v.pinned ==> BC.Enabled(v, BC.Log(k))
  {
    assert v.BlockOk(k);
  }

  lemma PinsFollow(pinned: multiset<nat>, s: LS.Space, op: nat, k: nat)
    requires pinned == multiset(s.blocks) && op < |s.ops|
    ensures multiset(LS.Logged(s, op, k).blocks) == if k in s.blocks then pinned else pinned + multiset{k}
    ensures k in s.blocks <==> k in pinned
  {
  }

  /** log_write's effect on the cache: it disturbs nobody. */
  ghost predicate Touched(v: BC.View, w: BC.View, k: nat, isNew: bool)
    requires v.Held(k)
  {
    && w.pinned == (if isNew then v.pinned + multiset{k} else v.pinned)
    && k < |v.truth| && w.truth == v.truth[k := BC.BufOf(v, k).data] && w.disk == v.disk && w.trace == v.trace
    && w.slot == v.slot && w.Held(k) && BC.BufOf(w, k).data == BC.BufOf(v, k).data && BC.BufOf(w, k).blockno == k && Resting(v, w)
  }

  lemma TouchedIs(v: BC.View, k: nat, isNew: bool)
    requires v.Ok() && v.Held(k)
    ensures k < |v.truth| && Touched(v, BC.Logged(if isNew then BC.Pinned(v, k) else v, k), k, isNew)
  {
    assert v.BlockOk(k);
    var w := BC.Logged(if isNew then BC.Pinned(v, k) else v, k);
    forall j | j in v.inUse ensures BC.StillUsed(v, w, j) { assert v.RefOk(j) && v.BlockOk(j); }
    forall j | w.HasLock(j) ensures v.HasLock(j) { }
  }

  lemma RestingRefs(v: BC.View, w: BC.View)
    requires Resting(v, w) && w.pinned <= v.pinned
    ensures |BC.Refs(w)| <= |BC.Refs(v)|
  {
    Counting.SubsetSize(BC.Refs(w), BC.Refs(v));
  }

  /** From view v to view w, exactly the writes ws reached the disk. */
  ghost predicate Issued(v: BC.View, w: BC.View, ws: seq<Write>) {
    |w.disk| == |v.disk| && w.disk == Apply(v.disk, ws) && w.trace == v.trace + ws
  }

  /** From view v to view w, exactly the writes of a commit of the logged blocks. */
  ghost predicate IssuedCommit(l: Layout, blocks: seq<int>, v: BC.View, w: BC.View)
    requires CanCommit(l, blocks, v) && 0 < |blocks|
  {
    Issued(v, w, CommitWrites(l, v.disk, TxOf(blocks, v.truth)))
  }

  /** Power may fail after any k of the writes that Commit issued, and recovery may be cut any
      number of times: the home blocks then hold the whole transaction or none of it, decided
      by the first header write. */
  lemma CommitCrashSafe(l: Layout, blocks: seq<int>, v: BC.View, w: BC.View, k: nat, cuts: seq<nat>)
    requires CanCommit(l, blocks, v) && 0 < |blocks| && Clean(l, v.disk) && IssuedCommit(l, blocks, v, w)
    requires k <= |w.trace| - |v.trace|
    ensures var e := Apply(v.disk, w.trace[|v.trace|..][..k]);
            && HeaderOk(l, e)
            && var r, tx := Reboot(l, e, cuts), TxOf(blocks, v.truth);
               Clean(l, r) && SameHome(l, r, if |blocks| < k then Install(v.disk, tx) else v.disk)
  {
    assert w.trace[|v.trace|..] == CommitWrites(l, v.disk, TxOf(blocks, v.truth));
    CommitAtomic(l, v.disk, TxOf(blocks, v.truth), k, cuts, []);
  }

  /** Without a crash the transaction is installed and the log ready for the next one. */
  lemma CommitInstalls(l: Layout, blocks: seq<int>, v: BC.View, w: BC.View)
    requires CanCommit(l, blocks, v) && 0 < |blocks| && Clean(l, v.disk) && IssuedCommit(l, blocks, v, w)
    ensures Clean(l, w.disk) && SameHome(l, w.disk, Install(v.disk, TxOf(blocks, v.truth)))
    ensures SameHeaderSize(l, v.disk, w.disk)
  {
    var ws := CommitWrites(l, v.disk, TxOf(blocks, v.truth));
    CommitCut(l, v.disk, TxOf(blocks, v.truth), |ws|);
    assert ws[..|ws|] == ws;
  }

  /** write_log and write_head have run. */
  ghost predicate AtPoint(l: Layout, blocks: seq<int>, v0: BC.View, v: BC.View)
    requires CanCommit(l, blocks, v0) && 0 < |blocks|
  {
    var tx, h := TxOf(blocks, v0.truth), HeaderBlock(v0.disk[l.start], blocks);
    var ws := LogWrites(l, tx) + [Write(l.start, h)];
    && Issued(v0, v, ws) && v.disk[l.start] == h
    && CanInstall(l, tx, v, false) && Resting(v0, v)
  }

  lemma AfterWriteLog(l: Layout, blocks: seq<int>, v0: BC.View, v1: BC.View)
    requires CanCommit(l, blocks, v0) && 0 < |blocks| && LogPhase(l, blocks, v0, v1, |blocks|)
    ensures Issued(v0, v1, LogWrites(l, TxOf(blocks, v0.truth)))
    ensures v1.disk[l.start] == v0.disk[l.start]
    ensures l.start !in v1.pinned && |BC.Refs(v1)| < v1.n && !v1.HasLock(l.start)
  {
    var ws := LogWrites(l, TxOf(blocks, v0.truth));
    assert ws[..|blocks|] == ws;
    ApplyFrame(v0.disk, ws, l.start);
    RestingRefs(v0, v1);
  }

  lemma AfterHead(l: Layout, blocks: seq<int>, v0: BC.View, v1: BC.View, v2: BC.View)
    requires CanCommit(l, blocks, v0) && 0 < |blocks| && LogPhase(l, blocks, v0, v1, |blocks|)
    requires Wrote(v1, v2, l.start, HeaderBlock(v0.disk[l.start], blocks)) && v2.pinned == v1.pinned
    ensures Resting(v0, v2) && AtPoint(l, blocks, v0, v2)
  {
    AfterWriteLog(l, blocks, v0, v1);
    RestingTrans(v0, v1, v2);
    LocksStayFree(l, blocks, v0, v2);
    RestingRefs(v0, v2);
    var tx, h := TxOf(blocks, v0.truth), HeaderBlock(v0.disk[l.start], blocks);
    WroteIssued(v1, v2, l.start, h);
    IssuedAppend(v0, v1, v2, LogWrites(l, tx), [Write(l.start, h)]);
    hide Resting, LocksFree, Issued;
  }

  lemma AfterInstall(l: Layout, tx: Tx, v: BC.View, w: BC.View)
    requires CanInstall(l, tx, v, false) && InstallPhase(l, tx, v, w, |tx.blocks|, false)
    ensures w.pinned == multiset{} && Issued(v, w, HomeWrites(tx)) && w.disk[l.start] == v.disk[l.start]
    ensures Resting(v, w) && |BC.Refs(w)| < w.n && !w.HasLock(l.start)
  {
    var ws := HomeWrites(tx);
    assert ws[..|tx.blocks|] == ws;
    assert tx.blocks[|tx.blocks|..] == [];
    ApplyFrame(v.disk, ws, l.start);
    RestingRefs(v, w);
  }

  lemma IssuedAppend(v: BC.View, w: BC.View, x: BC.View, a: seq<Write>, b: seq<Write>)
    requires Issued(v, w, a) && Issued(w, x, b)
    ensures Issued(v, x, a + b)
  {
    ApplyAppend(v.disk, a, b);
    assert v.trace + (a + b) == v.trace + a + b;
  }

  lemma WroteIssued(v: BC.View, w: BC.View, k: nat, data: Block)
    requires Wrote(v, w, k, data)
    ensures Issued(v, w, [Write(k, data)])
  {
    ApplySnoc(v.disk, [], Write(k, data));
    assert [] + [Write(k, data)] == [Write(k, data)];
  }

  lemma Recovered(l: Layout, v0: BC.View, v1: BC.View, v2: BC.View, v3: BC.View)
    requires HeaderOk(l, v0.disk) && BC.SameStore(v0, v1) && Resting(v0, v1) && Resting(v1, v2)
    requires Issued(v1, v2, HomeWrites(LoggedTx(l, v0.disk)))
    requires Wrote(v2, v3, l.start, HeaderBlock(v0.disk[l.start], []))
    ensures Resting(v0, v3) && Issued(v0, v3, RecoverWrites(l, v0.disk))
  {
    RestingTrans(v0, v1, v2);
    RestingTrans(v0, v2, v3);
    var e := Write(l.start, HeaderBlock(v0.disk[l.start], []));
    WroteIssued(v2, v3, l.start, e.data);
    hide Resting;
    IssuedAppend(v1, v2, v3, HomeWrites(LoggedTx(l, v0.disk)), [e]);
  }

  lemma IssuedStep(v0: BC.View, v: BC.View, w: BC.View, ws: seq<Write>, tail: nat)
    requires tail < |ws| && Issued(v0, v, ws[..tail]) && Wrote(v, w, ws[tail].blockno, ws[tail].data)
    ensures Issued(v0, w, ws[..tail + 1])
  {
    WroteIssued(v, w, ws[tail].blockno, ws[tail].data);
    IssuedAppend(v0, v, w, ws[..tail], [ws[tail]]);
    assert ws[..tail + 1] == ws[..tail] + [ws[tail]];
  }

  lemma AfterErase(l: Layout, blocks: seq<int>, v0: BC.View, v2: BC.View, v3: BC.View, v4: BC.View)
    requires CanCommit(l, blocks, v0) && 0 < |blocks| && AtPoint(l, blocks, v0, v2)
    requires Issued(v2, v3, HomeWrites(TxOf(blocks, v0.truth))) && Resting(v2, v3)
    requires Wrote(v3, v4, l.start, HeaderBlock(HeaderBlock(v0.disk[l.start], blocks), []))
    ensures IssuedCommit(l, blocks, v0, v4) && Resting(v0, v4)
  {
    RestingTrans(v0, v2, v3);
    RestingTrans(v0, v3, v4);
    hide Resting;
    var tx, h := TxOf(blocks, v0.truth), HeaderBlock(v0.disk[l.start], blocks);
    var a, b := LogWrites(l, tx) + [Write(l.start, h)], HomeWrites(tx);
    WroteIssued(v3, v4, l.start, HeaderBlock(h, []));
    IssuedAppend(v0, v2, v3, a, b);
    IssuedAppend(v0, v3, v4, a + b, [Write(l.start, HeaderBlock(h, []))]);
  }

  /** The transaction that commit will write: the logged blocks and their latest contents. */
  ghost function TxOf(blocks: seq<int>, truth: seq<Block>): (tx: Tx)
    requires forall i :: 0 <= i < |blocks| ==> 0 <= blocks[i] < |truth|
  {
    Tx(blocks, seq(|blocks|, i requires 0 <= i < |blocks| => truth[blocks[i]]))
  }

  ghost predicate CanCommit(l: Layout, blocks: seq<int>, v: BC.View) {
    && |v.truth| == |v.disk|
    && (forall i :: 0 <= i < |blocks| ==> 0 <= blocks[i] < |v.truth|)
    && (0 < |blocks| ==> TxOk(l, v.disk, TxOf(blocks, v.truth)))
    && v.pinned == multiset(blocks)
    && LocksFree(l, blocks, v) && |BC.Refs(v)| < v.n
  }

  /** After `tail` iterations of write_log. */
  ghost predicate LogPhase(l: Layout, blocks: seq<int>, v0: BC.View, v: BC.View, tail: nat)
    requires CanCommit(l, blocks, v0) && 0 < |blocks| && tail <= |blocks|
  {
    && v.pinned == v0.pinned && Resting(v0, v)
    && Issued(v0, v, LogWrites(l, TxOf(blocks, v0.truth))[..tail])
    && |v.truth| == |v0.truth|
    && (forall b :: 0 <= b < |v.truth| && !l.Inside(b) ==> v.truth[b] == v0.truth[b])
    && (forall i :: 0 <= i < tail ==> v.truth[l.start + 1 + i] == v0.truth[blocks[i]])
  }

  lemma LogPhaseInit(l: Layout, blocks: seq<int>, v0: BC.View)
    requires v0.Ok() && CanCommit(l, blocks, v0) && 0 < |blocks|
    ensures LogPhase(l, blocks, v0, v0, 0)
  {
    RestingRefl(v0);
    assert v0.trace + [] == v0.trace;
  }

  /** v is w with block k overwritten by data, on disk too. */
  ghost predicate Wrote(v: BC.View, w: BC.View, k: int, data: Block) {
    && 0 <= k < |v.disk| == |v.truth|
    && Resting(v, w)
    && w.disk == v.disk[k := data] && w.truth == v.truth[k := data] && w.trace == v.trace + [Write(k, data)]
  }

  lemma LogPhaseStep(l: Layout, blocks: seq<int>, v0: BC.View, v: BC.View, w: BC.View, tail: nat)
    requires CanCommit(l, blocks, v0) && tail < |blocks| && LogPhase(l, blocks, v0, v, tail)
    requires Wrote(v, w, l.start + 1 + tail, v.truth[blocks[tail]]) && w.pinned == v.pinned
    ensures LogPhase(l, blocks, v0, w, tail + 1)
  {
    RestingTrans(v0, v, w);
    IssuedStep(v0, v, w, LogWrites(l, TxOf(blocks, v0.truth)), tail);
    hide Resting, LocksFree, Issued;
  }

  lemma LogPhaseReady(l: Layout, blocks: seq<int>, v0: BC.View, v: BC.View, tail: nat)
    requires CanCommit(l, blocks, v0) && tail < |blocks| && LogPhase(l, blocks, v0, v, tail)
    ensures |BC.Refs(v)| < v.n && blocks[tail] in v.pinned
    ensures !v.HasLock(blocks[tail]) && !v.HasLock(l.start + 1 + tail)
    ensures 0 <= blocks[tail] < |v.disk| && l.start + 1 + tail < |v.disk| && blocks[tail] != l.start + 1 + tail
  {
    assert blocks[tail] in multiset(blocks);
    RestingRefs(v0, v);
  }

  /** What install_trans needs: the log blocks hold tx, and there are buffers enough. */
  ghost predicate CanInstall(l: Layout, tx: Tx, v: BC.View, recovering: bool) {
    && |v.truth| == |v.disk| && l.start + l.size <= |v.disk|
    && |tx.blocks| == |tx.vals| && |tx.blocks| < l.size
    && (forall i :: 0 <= i < |tx.blocks| ==> 0 <= tx.blocks[i] < |v.disk| && !l.Inside(tx.blocks[i]))
    && (forall i :: 0 <= i < |tx.blocks| ==> v.truth[l.start + 1 + i] == tx.vals[i])
    && LocksFree(l, tx.blocks, v)
    && if recovering then v.pinned == multiset{} && |BC.Refs(v)| + 1 < v.n
       else v.pinned == multiset(tx.blocks) && |BC.Refs(v)| < v.n
  }

  /** After `tail` iterations of install_trans. */
  ghost predicate InstallPhase(l: Layout, tx: Tx, v0: BC.View, v: BC.View, tail: nat, recovering: bool)
    requires CanInstall(l, tx, v0, recovering) && tail <= |tx.blocks|
  {
    && Resting(v0, v)
    && v.pinned == (if recovering then multiset{} else multiset(tx.blocks[tail..]))
    && Issued(v0, v, HomeWrites(tx)[..tail])
    && |v.truth| == |v0.truth|
    && forall b :: l.Inside(b) ==> v.truth[b] == v0.truth[b]
  }

  lemma InstallPhaseInit(l: Layout, tx: Tx, v0: BC.View, recovering: bool)
    requires v0.Ok() && CanInstall(l, tx, v0, recovering)
    ensures InstallPhase(l, tx, v0, v0, 0, recovering)
  {
    RestingRefl(v0);
    assert tx.blocks[0..] == tx.blocks;
    assert v0.trace + [] == v0.trace;
  }

  lemma InstallPhaseReady(l: Layout, tx: Tx, v0: BC.View, v: BC.View, tail: nat, recovering: bool)
    requires CanInstall(l, tx, v0, recovering) && tail < |tx.blocks|
    requires InstallPhase(l, tx, v0, v, tail, recovering)
    ensures |BC.Refs(v)| < v.n && (recovering ==> |BC.Refs(v)| + 1 < v.n)
    ensures !recovering ==> tx.blocks[tail] in v.pinned
    ensures 0 <= tx.blocks[tail] && !v.HasLock(tx.blocks[tail]) && !v.HasLock(l.start + 1 + tail)
    ensures l.start + 1 + tail < |v.disk| && 0 <= tx.blocks[tail] < |v.disk| && tx.blocks[tail] != l.start + 1 + tail
  {
    if !recovering {
      assert tx.blocks[tail..][0] == tx.blocks[tail];
      assert tx.blocks == tx.blocks[..tail] + tx.blocks[tail..];
    }
    RestingRefs(v0, v);
  }

  lemma InstallPhaseStep(l: Layout, tx: Tx, v0: BC.View, v: BC.View, w: BC.View, tail: nat, recovering: bool)
    requires CanInstall(l, tx, v0, recovering) && tail < |tx.blocks|
    requires InstallPhase(l, tx, v0, v, tail, recovering)
    requires Wrote(v, w, tx.blocks[tail], v.truth[l.start + 1 + tail])
    requires w.pinned == if recovering then v.pinned else v.pinned - multiset{tx.blocks[tail] as nat}
    ensures InstallPhase(l, tx, v0, w, tail + 1, recovering)
  {
    hide Resting, LocksFree, Issued, HomeWrites;
    RestingTrans(v0, v, w);
    HomeWriteAt(tx, tail);
    IssuedStep(v0, v, w, HomeWrites(tx), tail);
    PinsAfter(tx.blocks, tail);
  }

  lemma HomeWriteAt(tx: Tx, i: nat)
    requires |tx.blocks| == |tx.vals| && i < |tx.blocks| && forall i :: 0 <= i < |tx.blocks| ==> 0 <= tx.blocks[i]
    ensures |HomeWrites(tx)| == |tx.blocks| && HomeWrites(tx)[i] == Write(tx.blocks[i], tx.vals[i])
  {
  }

  lemma PinsAfter(s: seq<int>, i: nat)
    requires i < |s|
    ensures multiset(s[i..]) - multiset{s[i]} == multiset(s[i + 1..])
  {
    assert s[i..] == [s[i]] + s[i + 1..];
  }
}
