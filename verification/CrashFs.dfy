/** Crash atomicity of file system operations: what a group of operations of Fs logs, committed
    through the log together, leaves on disk the file system before them or after them, whatever
    crashes intervene. */
module CrashFs {
  import opened FileBlocks
  import C = CrashLog
  import Fs
  import Counting

  /** How the bitmap and the inodes are written down in blocks; any functions will do. */
  datatype Encoding = Encoding(bits: seq<bool> -> Block, nodes: seq<Inode> -> Block)

  /** The order mkfs gives the disk: log, inode blocks, one bitmap block, data blocks. */
  ghost predicate LaidOut(l: C.Layout, v: View) {
    && l.start + l.size <= v.inodestart && v.inodestart + |v.inodes| / IPB < v.bmapstart < v.nmeta <= |v.data|
    && OneBitmapBlock(v) && 8 <= l.size
  }

  /** The inodes in inode block j. */
  ghost function Part(nodes: seq<Inode>, j: nat): (r: seq<Inode>) {
    seq(IPB, m requires 0 <= m < IPB => if j * IPB + m < |nodes| then nodes[j * IPB + m] else Inode([], 0))
  }

  /** The disk that holds file system v; boot block, super block and log are those of base. */
  ghost function Image(e: Encoding, v: View, base: C.Disk): (d: C.Disk)
    requires |base| == |v.data|
    ensures |d| == |base|
  {
    seq(|base|, b requires 0 <= b < |base| => BlockOf(e, v, base, b))
  }

  ghost function BlockOf(e: Encoding, v: View, base: C.Disk, b: nat): (x: Block)
    requires b < |base| == |v.data|
  {
    if b >= v.nmeta then v.data[b]
    else if b == v.bmapstart then e.bits(v.used)
    else if v.inodestart <= b <= v.inodestart + |v.inodes| / IPB then e.nodes(Part(v.inodes, b - v.inodestart))
    else base[b]
  }

  /** Every block whose image changes from v to w is in log, and only home blocks are. */
  ghost predicate Covered(e: Encoding, l: C.Layout, v: View, w: View, log: set<nat>, base: C.Disk)
    requires |base| == |v.data| == |w.data|
  {
    && (forall b: nat {:trigger BlockOf(e, w, base, b)} :: b < |base| && b !in log ==> BlockOf(e, w, base, b) == BlockOf(e, v, base, b))
    && forall b: nat {:trigger b in log} :: b in log ==> b < |base| && !l.Inside(b)
  }

  /** One after another, two operations are covered by what they log together. */
  lemma CoveredTrans(e: Encoding, l: C.Layout, u: View, v: View, w: View, a: set<nat>, b: set<nat>, base: C.Disk)
    requires |base| == |u.data| == |v.data| == |w.data| && Covered(e, l, u, v, a, base) && Covered(e, l, v, w, b, base)
    ensures Covered(e, l, u, w, a + b, base)
  {
    forall x: nat | x < |base| && x !in a + b ensures BlockOf(e, w, base, x) == BlockOf(e, u, base, x) {
      assert BlockOf(e, w, base, x) == BlockOf(e, v, base, x);
    }
    forall x: nat | x in a + b ensures x < |base| && !l.Inside(x) { assert x in a || x in b; }
  }

  /** blocks lists the logged blocks, each once. */
  ghost predicate Lists(blocks: seq<int>, logged: set<nat>) {
    C.Distinct(blocks) && forall b: int {:trigger b in blocks} :: b in blocks <==> b >= 0 && b in logged
  }

  lemma {:induction false} ListCard(blocks: seq<int>, logged: set<nat>)
    requires Lists(blocks, logged)
    ensures |blocks| == |logged|
    decreases |blocks|
  {
    if blocks == [] {
      assert forall b :: b in logged ==> b in blocks;
      assert logged == {};
    } else {
      var n := |blocks| - 1;
      var r, x := blocks[..n], blocks[n];
      assert blocks == r + [x] && x in blocks;
      forall b: int ensures b in r <==> b >= 0 && b in logged - {x} {
        assert b in blocks <==> b in r || b == x;
        if b in r { var j :| 0 <= j < n && r[j] == b; assert blocks[j] != blocks[n]; }
      }
      ListCard(r, logged - {x});
    }
  }

  /** The transaction that commits the logged blocks as w has them. */
  ghost function TxOf(e: Encoding, w: View, base: C.Disk, blocks: seq<int>): (tx: C.Tx)
    requires |base| == |w.data| && forall b {:trigger b in blocks} :: b in blocks ==> 0 <= b < |base|
    ensures |tx.blocks| == |tx.vals|
  {
    C.Tx(blocks, seq(|blocks|, j requires 0 <= j < |blocks| => assert blocks[j] in blocks; BlockOf(e, w, base, blocks[j])))
  }

  lemma InstallsImage(e: Encoding, l: C.Layout, v: View, w: View, log: set<nat>, base: C.Disk, blocks: seq<int>)
    requires |base| == |v.data| == |w.data| && Covered(e, l, v, w, log, base) && Lists(blocks, log)
    ensures forall b {:trigger b in blocks} :: b in blocks ==> 0 <= b < |base|
    ensures C.Install(Image(e, v, base), TxOf(e, w, base, blocks)) == Image(e, w, base)
  {
    forall b | b in blocks ensures 0 <= b < |base| { assert b in log; }
    var tx := TxOf(e, w, base, blocks);
    forall b | 0 <= b < |base| ensures C.Install(Image(e, v, base), tx)[b] == Image(e, w, base)[b] {
      if b in blocks {
        var j := C.IndexOf(blocks, b);
        assert tx.vals[j] == BlockOf(e, w, base, blocks[j]);
      } else {
        assert b !in log;
        assert BlockOf(e, w, base, b) == BlockOf(e, v, base, b);
      }
    }
  }

  lemma CanCommitTx(e: Encoding, l: C.Layout, v: View, w: View, log: set<nat>, base: C.Disk, blocks: seq<int>, d: C.Disk)
    requires |base| == |v.data| == |w.data| == |d| && Covered(e, l, v, w, log, base) && Lists(blocks, log) && 0 < |log| < l.size
    requires l.start + l.size <= |d| && l.size <= |d[l.start]|
    ensures forall b {:trigger b in blocks} :: b in blocks ==> 0 <= b < |base|
    ensures C.TxOk(l, d, TxOf(e, w, base, blocks))
  {
    ListCard(blocks, log);
    forall b | b in blocks ensures 0 <= b < |d| && !l.Inside(b) { assert b in log; }
    forall j | 0 <= j < |blocks| ensures 0 <= blocks[j] < |d| && !l.Inside(blocks[j]) { assert blocks[j] in blocks; }
  }

  /** Cut the commit after any k writes, and recovery any number of times: the disk holds the file
      system v, or w when the header write was made.  log is all that was logged from v to w, by
      one operation or by many. */
  lemma CommitOfImage(e: Encoding, l: C.Layout, v: View, w: View, log: set<nat>, base: C.Disk, d: C.Disk, blocks: seq<int>,
                      k: nat, cuts: seq<nat>)
    requires |base| == |v.data| == |w.data| == |d| && Covered(e, l, v, w, log, base) && Lists(blocks, log) && 0 < |log| < l.size
    requires C.Clean(l, d) && C.SameHome(l, Image(e, v, base), d) && l.size <= |d[l.start]|
    ensures forall b {:trigger b in blocks} :: b in blocks ==> 0 <= b < |base|
    ensures C.TxOk(l, d, TxOf(e, w, base, blocks))
    ensures var ws := C.CommitWrites(l, d, TxOf(e, w, base, blocks));
            k <= |ws| ==>
              && C.HeaderOk(l, C.Apply(d, ws[..k]))
              && var r := C.Reboot(l, C.Apply(d, ws[..k]), cuts);
                 C.Clean(l, r) && C.SameHome(l, r, Image(e, if |blocks| < k then w else v, base))
  {
    assert l.start + l.size <= |d|;
    hide Covered, Lists, Image, C.Apply, C.CommitWrites, C.Reboot, C.Install, C.HeaderOk, C.TxOk, C.SameHome, C.Clean;
    CanCommitTx(e, l, v, w, log, base, blocks, d);
    InstallsImage(e, l, v, w, log, base, blocks);
    CommitOver(l, Image(e, v, base), d, TxOf(e, w, base, blocks), k, cuts);
  }

  /** A commit cut short over a disk whose home blocks are those of a. */
  lemma CommitOver(l: C.Layout, a: C.Disk, d: C.Disk, tx: C.Tx, k: nat, cuts: seq<nat>)
    requires C.Clean(l, d) && C.SameHome(l, a, d) && C.TxOk(l, d, tx)
    ensures var ws := C.CommitWrites(l, d, tx);
            k <= |ws| ==>
              && C.HeaderOk(l, C.Apply(d, ws[..k]))
              && var r := C.Reboot(l, C.Apply(d, ws[..k]), cuts);
                 C.Clean(l, r) && C.SameHome(l, r, if |tx.blocks| < k then C.Install(a, tx) else a)
  {
    hide C.Apply, C.CommitWrites, C.Reboot, C.Install, C.HeaderOk;
    if k <= |C.CommitWrites(l, d, tx)| {
      C.CommitAtomic(l, d, tx, k, cuts, []);
      InstallHome(l, a, d, tx);
    }
  }

  lemma InstallHome(l: C.Layout, a: C.Disk, d: C.Disk, tx: C.Tx)
    requires |tx.blocks| == |tx.vals| && C.SameHome(l, a, d)
    ensures C.SameHome(l, C.Install(a, tx), C.Install(d, tx))
  {
  }

  // ----- operations of Fs -----

  lemma TouchedHome(v: View, i: nat, m: nat, n: nat, b: nat)
    requires v.Ok() && i < |v.inodes| && n <= MAXFILE && b in Touched(v, i, m, n)
    ensures b == v.bmapstart || v.nmeta <= b < |v.data|
  {
    if b != v.bmapstart {
      assert v.SlotOk(i, NDIRECT);
      if v.inodes[i].addrs[NDIRECT] != 0 && b == v.inodes[i].addrs[NDIRECT] { assert v.OwnerOk(b); } else { BlocksHome(v, i, m, n, b); }
    }
  }

  lemma {:induction false} BlocksHome(v: View, i: nat, m: nat, n: nat, b: nat)
    requires v.Ok() && i < |v.inodes| && n <= MAXFILE && b in BlocksOf(v, i, m, n)
    ensures v.nmeta <= b < |v.data|
    decreases n
  {
    assert v.SlotOk(i, SlotOf(n - 1));
    if v.Addr(i, SlotOf(n - 1)) != 0 && b == v.Addr(i, SlotOf(n - 1)) { assert v.OwnerOk(b); } else { BlocksHome(v, i, m, n - 1, b); }
  }

  lemma OtherInodes(v: View, w: View, i: nat, j: nat)
    requires v.Ok() && w.Ok() && OthersSame(v, w, i) && j < |v.inodes| && j != i
    ensures w.inodes[j] == v.inodes[j]
  {
    forall k: nat | k <= NDIRECT ensures w.inodes[j].addrs[k] == v.inodes[j].addrs[k] {
      assert w.Addr(j, k) == v.Addr(j, k);
    }
    assert w.inodes[j].addrs == v.inodes[j].addrs && w.inodes[j].size == v.inodes[j].size;
  }

  lemma SamePart(v: View, w: View, i: nat, j: nat)
    requires |w.inodes| == |v.inodes| && i / IPB != j
    requires forall x: nat {:trigger w.inodes[x]} :: x < |v.inodes| && x != i ==> w.inodes[x] == v.inodes[x]
    ensures Part(w.inodes, j) == Part(v.inodes, j)
  {
    forall m | 0 <= m < IPB ensures Part(w.inodes, j)[m] == Part(v.inodes, j)[m] {
      assert j * IPB + m != i;
    }
  }

  /** The block of inode i is one of the inode blocks. */
  lemma IblockHome(l: C.Layout, v: View, i: nat)
    requires i < |v.inodes| && LaidOut(l, v)
    ensures v.inodestart <= v.Iblock(i) < v.bmapstart && !l.Inside(v.Iblock(i)) && v.Iblock(i) < |v.data|
    ensures !l.Inside(v.bmapstart) && v.bmapstart < |v.data|
  {
    assert i / IPB <= |v.inodes| / IPB;
  }

  /** A step that grows inode i in blocks m .. n and accounts for it changes no other block of the
      disk than those it logs and, once it is written back, the inode's. */
  lemma StepKeepsBlock(e: Encoding, l: C.Layout, v: View, w: View, base: C.Disk, i: nat, m: nat, n: nat, b: nat)
    requires v.Ok() && w.Ok() && i < |v.inodes| && OthersSame(v, w, i) && Accounted(Fs.Begun(v), w, i, m, n)
    requires b < |base| == |v.data| == |w.data| && LaidOut(l, v) && b !in w.logged && b != v.Iblock(i)
    ensures BlockOf(e, w, base, b) == BlockOf(e, v, base, b)
  {
    assert Explained(Fs.Begun(v), w, i, m, n, b);
    if b == v.bmapstart {
      BegunBits(v, w, i, m, n);
    } else if v.inodestart <= b < v.bmapstart {
      forall x: nat | x < |v.inodes| && x != i ensures w.inodes[x] == v.inodes[x] { OtherInodes(v, w, i, x); }
      SamePart(v, w, i, b - v.inodestart);
    }
  }

  lemma WriteLogsHome(l: C.Layout, v: View, w: View, i: nat, off: nat, n: nat, b: nat)
    requires v.Ok() && w.Ok() && i < |v.inodes| && off + n <= MAXFILE * BSIZE && Fs.Transacted(v, w, i, off, n)
    requires LaidOut(l, v) && b in w.logged
    ensures b < |w.data| && !l.Inside(b)
  {
    IblockHome(l, v, i);
    if b != w.Iblock(i) { TouchedHome(w, i, off / BSIZE, EndBlock(off, n), b); }
  }

  /** What a write of at most CHUNK bytes changes is covered by what it logs, seven blocks at most. */
  lemma WriteCovered(e: Encoding, l: C.Layout, v: View, w: View, base: C.Disk, i: nat, off: nat, n: nat)
    requires v.Ok() && w.Ok() && i < |v.inodes| && off + n <= MAXFILE * BSIZE && n <= Fs.CHUNK && Fs.Transacted(v, w, i, off, n)
    requires |base| == |v.data| == |w.data| && LaidOut(l, v)
    ensures Covered(e, l, v, w, w.logged, base) && 0 < |w.logged| <= 7
  {
    forall b: nat | b < |base| && b !in w.logged ensures BlockOf(e, w, base, b) == BlockOf(e, v, base, b) {
      StepKeepsBlock(e, l, v, w, base, i, off / BSIZE, EndBlock(off, n), b);
    }
    forall b: nat | b in w.logged ensures b < |base| && !l.Inside(b) { WriteLogsHome(l, v, w, i, off, n, b); }
    SevenBlocks(w, i, off, n);
    Counting.SubsetSize(w.logged, Touched(w, i, off / BSIZE, EndBlock(off, n)) + {w.Iblock(i)});
    assert w.logged != {};
  }

  /** What one turn of writei's loop changes is covered by what it logs and the inode's block, which
      the end of writei logs. */
  lemma ChunkCovered(e: Encoding, l: C.Layout, v: View, w: View, base: C.Disk, i: nat, m: nat)
    requires v.Ok() && w.Ok() && i < |v.inodes| && m < MAXFILE && OthersSame(v, w, i) && Accounted(Fs.Begun(v), w, i, m, m + 1)
    requires |base| == |v.data| == |w.data| && LaidOut(l, v) && w.logged <= Touched(w, i, m, m + 1)
    ensures Covered(e, l, v, w, w.logged + {v.Iblock(i)}, base) && |w.logged| <= 3
  {
    forall b: nat | b < |base| && b !in w.logged + {v.Iblock(i)} ensures BlockOf(e, w, base, b) == BlockOf(e, v, base, b) {
      StepKeepsBlock(e, l, v, w, base, i, m, m + 1, b);
    }
    IblockHome(l, v, i);
    forall b: nat | b in w.logged + {v.Iblock(i)} ensures b < |base| && !l.Inside(b) {
      if b != v.Iblock(i) { TouchedHome(w, i, m, m + 1, b); }
    }
    BlocksOfCard(w, i, m, m + 1);
    Counting.SubsetSize(w.logged, Touched(w, i, m, m + 1));
  }

  /** So is iupdate. */
  lemma UpdateCovered(e: Encoding, l: C.Layout, v: View, w: View, base: C.Disk, i: nat, size: nat)
    requires v.Ok() && i < |v.inodes| && w == Resized(Fs.Begun(v), i, size) && |base| == |v.data| && LaidOut(l, v)
    ensures |w.data| == |base| && w.logged == {v.Iblock(i)} && Covered(e, l, v, w, w.logged, base)
  {
    IblockHome(l, v, i);
    forall b: nat | b < |base| && b !in w.logged ensures BlockOf(e, w, base, b) == BlockOf(e, v, base, b) {
      if v.inodestart <= b < v.bmapstart { SamePart(v, w, i, b - v.inodestart); }
    }
  }

  lemma BegunBits(v: View, w: View, i: nat, m: nat, n: nat)
    requires v.Ok() && w.Ok() && Accounted(Fs.Begun(v), w, i, m, n) && OneBitmapBlock(w) && w.bmapstart !in w.logged
    ensures w.used == v.used
  {
    forall b: nat | b < |v.used| ensures w.used[b] == v.used[b] {
      assert Explained(Fs.Begun(v), w, i, m, n, b);
      BblockSame(w, b);
    }
  }

  /** What truncation itself logs. */
  ghost function TruncationLog(v: View, i: nat): (log: set<nat>)
    requires i < |v.inodes|
  {
    Truncated(Fs.Begun(v), i).logged
  }

  /** What truncation changes is covered by what it logs, two blocks at most. */
  lemma TruncateCovered(e: Encoding, l: C.Layout, v: View, w: View, log: set<nat>, base: C.Disk, i: nat)
    requires v.Ok() && i < |v.inodes| && |base| == |v.data| && LaidOut(l, v)
    requires w == Truncated(v, i) && log == TruncationLog(v, i)
    ensures |w.data| == |base| && Covered(e, l, v, w, log, base) && 0 < |log| <= 2
  {
    TruncationHome(l, v, i);
    hide *;
    forall b: nat | b < |base| && b !in log ensures |w.data| == |base| && BlockOf(e, w, base, b) == BlockOf(e, v, base, b) {
      TruncateKeepsBlock(e, l, v, base, i, b);
    }
  }

  lemma TruncationHome(l: C.Layout, v: View, i: nat)
    requires v.Ok() && i < |v.inodes| && LaidOut(l, v)
    ensures |Truncated(v, i).data| == |v.data| && 0 < |TruncationLog(v, i)| <= 2
    ensures forall b: nat {:trigger b in TruncationLog(v, i)} :: b in TruncationLog(v, i) ==> b < |v.data| && !l.Inside(b)
  {
    TruncatedKeeps(v, i);
    TruncationSize(v, i);
    TruncationLogs(v, i);
    IblockHome(l, v, i);
    hide Truncated, TruncationLog;
  }

  lemma TruncationSize(v: View, i: nat)
    requires v.Ok() && i < |v.inodes| && OneBitmapBlock(v)
    ensures 0 < |TruncationLog(v, i)| <= 2
  {
    TruncationLogs(v, i);
    hide TruncationLog;
    Counting.SubsetSize(TruncationLog(v, i), {v.bmapstart, v.Iblock(i)});
    assert TruncationLog(v, i) != {};
  }

  lemma TruncateKeepsBlock(e: Encoding, l: C.Layout, v: View, base: C.Disk, i: nat, b: nat)
    requires v.Ok() && i < |v.inodes| && b < |base| == |v.data| && LaidOut(l, v) && b !in TruncationLog(v, i)
    ensures |Truncated(v, i).data| == |base| && BlockOf(e, Truncated(v, i), base, b) == BlockOf(e, v, base, b)
  {
    TruncatedKeeps(v, i);
    TruncationLogs(v, i);
    if b == v.bmapstart {
      TruncatedBits(v, i);
    } else if v.inodestart <= b < v.bmapstart {
      SamePart(v, Truncated(v, i), i, b - v.inodestart);
    }
  }

  lemma TruncatedKeeps(v: View, i: nat)
    requires i < |v.inodes|
    ensures var w := Truncated(v, i);
            && w.data == v.data && w.nmeta == v.nmeta && w.bmapstart == v.bmapstart && w.inodestart == v.inodestart
            && |w.inodes| == |v.inodes| && |w.used| == |v.used|
            && forall x: nat {:trigger w.inodes[x]} :: x < |v.inodes| && x != i ==> w.inodes[x] == v.inodes[x]
  {
  }

  lemma TruncatedBits(v: View, i: nat)
    requires v.Ok() && i < |v.inodes| && OneBitmapBlock(v) && v.bmapstart !in TruncationLog(v, i)
    ensures Truncated(v, i).used == v.used
  {
    forall c: nat | c in v.owner ensures v.owner[c].ino != i {
      assert v.OwnerOk(c);
      BblockSame(v, c);
    }
  }

  /** Truncation logs the inode's block and, at most, the bitmap block. */
  lemma TruncationLogs(v: View, i: nat)
    requires v.Ok() && i < |v.inodes| && OneBitmapBlock(v)
    ensures v.Iblock(i) in TruncationLog(v, i) && TruncationLog(v, i) <= {v.bmapstart, v.Iblock(i)}
  {
    forall b: nat | b in TruncationLog(v, i) ensures b == v.bmapstart || b == v.Iblock(i) {
      if b != v.Iblock(i) {
        var c :| c in v.owner && v.owner[c].ino == i && b == v.Bblock(c);
        assert v.OwnerOk(c);
        BblockSame(v, c);
      }
    }
  }
}
