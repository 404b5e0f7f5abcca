/** What survives crashes, in terms of files: groups of operations that are committed together, any
    number of groups, and any number of power cycles.  Operations on different files take turns. */
module Durability {
  import opened CrashFs
  import opened FileBlocks
  import BC = BufferCache
  import C = CrashLog
  import Counting
  import Fs
  import L = Log

  // ----- steps of operations, in any order -----

  /** The bytes a file has room for, and how many of them count. */
  datatype File = File(bytes: seq<int>, size: nat)

  /** Write: a whole transaction of filewrite, r of the bytes stored.  Chunk: one turn of writei's
      loop, failing on a full disk.  Update: the end of writei.  Truncate: itrunc. */
  datatype Act =
    | Write(i: nat, off: nat, src: seq<int>, r: nat)
    | Chunk(i: nat, off: nat, src: seq<int>, ok: bool)
    | Update(i: nat)
    | Truncate(i: nat)

  predicate Fits(files: seq<File>, a: Act) {
    && a.i < |files|
    && (a.Write? ==> a.off <= |files[a.i].bytes| == files[a.i].size && a.r <= |a.src|)
    && (a.Chunk? ==> a.off <= |files[a.i].bytes|)
  }

  /** All files after an act. */
  function After(files: seq<File>, a: Act): (r: seq<File>)
    requires Fits(files, a)
    ensures |r| == |files|
  {
    var f := files[a.i];
    files[a.i := match a
                 case Write(_, off, src, r) => var s := Splice(f.bytes, off, src[..r]); File(s, |s|)
                 case Chunk(_, off, src, ok) => if ok then f.(bytes := Splice(f.bytes, off, src)) else f
                 case Update(_) => f.(size := |f.bytes|)
                 case Truncate(_) => File([], 0)]
  }

  ghost predicate FileAs(v: View, j: nat, f: File)
    requires v.Shape() && j < |v.inodes|
  {
    v.inodes[j].size == f.size && Holds(v, j, f.bytes)
  }

  ghost predicate FilesAre(v: View, files: seq<File>)
    requires v.Shape()
  {
    |files| == |v.inodes| && forall j: nat {:trigger files[j]} :: j < |files| ==> FileAs(v, j, files[j])
  }

  /** No operation on a file is under way: every file is exactly its bytes. */
  predicate Quiet(files: seq<File>) { forall f {:trigger f in files} :: f in files ==> f.size == |f.bytes| }

  lemma QuietFile(v: View, files: seq<File>, j: nat)
    requires v.Shape() && FilesAre(v, files) && Quiet(files) && j < |files|
    ensures FileIs(v, j, files[j].bytes)
  {
    assert files[j] in files && FileAs(v, j, files[j]);
  }

  /** From v to w an act ran and logged the blocks of log, as the methods of Fs ensure. */
  ghost predicate Ran(v: View, files: seq<File>, a: Act, w: View, log: set<nat>) {
    && v.Ok() && w.Ok() && FilesAre(v, files) && Fits(files, a)
    && match a
       case Write(i, off, src, r) =>
         && off + |src| <= MAXFILE * BSIZE && |src| <= Fs.CHUNK && Fs.Transacted(v, w, i, off, |src|)
         && FileIs(w, i, Splice(files[i].bytes, off, src[..r])) && log == w.logged
       case Chunk(i, off, src, ok) => Fs.TurnDone(v, w, i, off, src, After(files, a)[i].bytes) && log == w.logged
       case Update(i) => w == Resized(Fs.Begun(v), i, |files[i].bytes|) && log == w.logged
       case Truncate(i) => w == Truncated(v, i) && log == TruncationLog(v, i)
  }

  lemma RanFiles(v: View, files: seq<File>, a: Act, w: View, log: set<nat>)
    requires Ran(v, files, a, w, log)
    ensures FilesAre(w, After(files, a))
  {
    var r := After(files, a);
    hide Fs.Transacted, Fs.TurnDone, Truncated, Holds;
    RanInodes(v, files, a, w, log);
    forall j: nat | j < |r| ensures FileAs(w, j, r[j]) {
      assert FileAs(v, j, files[j]);
      if j == a.i { RanOwn(v, files, a, w, log); } else { RanOther(v, files, a, w, log, j); }
    }
  }

  lemma RanInodes(v: View, files: seq<File>, a: Act, w: View, log: set<nat>)
    requires Ran(v, files, a, w, log)
    ensures |w.inodes| == |v.inodes|
  {
  }

  lemma RanOwn(v: View, files: seq<File>, a: Act, w: View, log: set<nat>)
    requires Ran(v, files, a, w, log)
    ensures a.i < |w.inodes| && FileAs(w, a.i, After(files, a)[a.i])
  {
    assert FileAs(v, a.i, files[a.i]);
    if a.Update? {
      Fs.BegunHolds(v, a.i, files[a.i].bytes);
      ResizedHolds(Fs.Begun(v), a.i, |files[a.i].bytes|, files[a.i].bytes);
    } else if a.Truncate? {
      TruncatedOk(v, a.i);
    }
  }

  lemma RanOther(v: View, files: seq<File>, a: Act, w: View, log: set<nat>, j: nat)
    requires Ran(v, files, a, w, log) && j < |files| && j != a.i
    ensures j < |w.inodes| && FileAs(w, j, files[j])
  {
    var s := files[j].bytes;
    assert FileAs(v, j, files[j]);
    match a {
      case Write(i, off, src, r) => OthersHold(v, w, i, j, s);
      case Chunk(i, off, src, ok) => OthersHold(v, w, i, j, s);
      case Update(i) =>
        Fs.BegunHolds(v, j, s);
        ResizedOk(Fs.Begun(v), i, |files[i].bytes|);
        OthersHold(Fs.Begun(v), w, i, j, s);
      case Truncate(i) => TruncatedHolds(v, i, j, s);
    }
  }

  /** Acts of any processes on any files, one after another, from state to state. */
  ghost predicate Runs(vs: seq<View>, files: seq<seq<File>>, acts: seq<Act>, logs: seq<set<nat>>) {
    && |vs| == |files| == |acts| + 1 && |logs| == |acts|
    && forall x: nat {:trigger acts[x]} :: x < |acts| ==>
         Ran(vs[x], files[x], acts[x], vs[x + 1], logs[x]) && files[x + 1] == After(files[x], acts[x])
  }

  ghost function Union(logs: seq<set<nat>>): (s: set<nat>) {
    if logs == [] then {} else Union(logs[..|logs| - 1]) + logs[|logs| - 1]
  }

  /** The inodes whose writes are not yet followed by their update. */
  function Owed(acts: seq<Act>): (s: set<nat>) {
    if acts == [] then {} else
      var a := acts[|acts| - 1];
      if a.Chunk? then Owed(acts[..|acts| - 1]) + {a.i} else Owed(acts[..|acts| - 1]) - {a.i}
  }

  function InodeBlocks(v: View, owed: set<nat>): (s: set<nat>) { set i | i in owed :: v.Iblock(i) }

  lemma RanCovered(e: Encoding, l: C.Layout, v: View, files: seq<File>, a: Act, w: View, log: set<nat>, base: C.Disk)
    requires Ran(v, files, a, w, log) && |base| == |v.data| && LaidOut(l, v)
    ensures |w.data| == |base| && LaidOut(l, w) && w.inodestart == v.inodestart && |log| <= 7
    ensures Covered(e, l, v, w, if a.Chunk? then log + {v.Iblock(a.i)} else log, base)
    ensures !a.Chunk? ==> v.Iblock(a.i) in log
  {
    hide Covered, Accounted, OthersSame, Touched, Truncated, Resized, TruncationLog, LaidOut, FilesAre, Holds, View.Ok;
    RanShape(l, v, files, a, w, log);
    match a {
      case Write(i, off, src, r) => WriteCovered(e, l, v, w, base, i, off, |src|);
      case Chunk(i, off, src, ok) => ChunkCovered(e, l, v, w, base, i, off / BSIZE);
      case Update(i) => UpdateCovered(e, l, v, w, base, i, |files[i].bytes|);
      case Truncate(i) => TruncateCovered(e, l, v, w, log, base, i);
    }
  }

  /** No act moves a part of the disk; all but chunks log their inode's block. */
  lemma RanShape(l: C.Layout, v: View, files: seq<File>, a: Act, w: View, log: set<nat>)
    requires Ran(v, files, a, w, log) && LaidOut(l, v)
    ensures |w.data| == |v.data| && LaidOut(l, w) && w.inodestart == v.inodestart && OneBitmapBlock(w) && a.i < |v.inodes|
    ensures !a.Chunk? ==> v.Iblock(a.i) in log
  {
    if a.Truncate? { TruncatedKeeps(v, a.i); TruncationLogs(v, a.i); }
  }

  /** A sequence of acts is covered by what all of them log and the inode blocks still owed. */
  lemma {:induction false} RunsCovered(e: Encoding, l: C.Layout, vs: seq<View>, files: seq<seq<File>>, acts: seq<Act>,
                                       logs: seq<set<nat>>, base: C.Disk)
    requires Runs(vs, files, acts, logs) && |base| == |vs[0].data| && LaidOut(l, vs[0])
    ensures var w := vs[|acts|];
            && |w.data| == |base| && LaidOut(l, w) && w.inodestart == vs[0].inodestart
            && Covered(e, l, vs[0], w, Union(logs) + InodeBlocks(w, Owed(acts)), base)
    ensures |Union(logs)| <= 7 * |acts|
    decreases |acts|
  {
    hide Ran, Covered, LaidOut, InodeBlocks;
    if acts == [] {
      NoneCovered(e, l, vs[0], base);
    } else {
      var n := |acts| - 1;
      RunsCovered(e, l, vs[..n + 1], files[..n + 1], acts[..n], logs[..n], base);
      assert Ran(vs[n], files[n], acts[n], vs[n + 1], logs[n]);
      RanCovered(e, l, vs[n], files[n], acts[n], vs[n + 1], logs[n], base);
      var a := Union(logs[..n]) + InodeBlocks(vs[n], Owed(acts[..n]));
      var b := if acts[n].Chunk? then logs[n] + {vs[n].Iblock(acts[n].i)} else logs[n];
      CoveredTrans(e, l, vs[0], vs[n], vs[n + 1], a, b, base);
      OwedNext(vs[n], vs[n + 1], acts, Union(logs[..n]), logs[n]);
    }
  }

  lemma NoneCovered(e: Encoding, l: C.Layout, v: View, base: C.Disk)
    requires |base| == |v.data|
    ensures Covered(e, l, v, v, {} + InodeBlocks(v, {}), base)
  {
  }

  lemma OwedNext(v: View, w: View, acts: seq<Act>, u: set<nat>, log: set<nat>)
    requires acts != [] && w.inodestart == v.inodestart
    requires !acts[|acts| - 1].Chunk? ==> v.Iblock(acts[|acts| - 1].i) in log
    ensures var n := |acts| - 1;
            u + InodeBlocks(v, Owed(acts[..n])) + (if acts[n].Chunk? then log + {v.Iblock(acts[n].i)} else log)
              == u + log + InodeBlocks(w, Owed(acts))
  {
    var n := |acts| - 1;
    var a, before, now := acts[n], Owed(acts[..n]), Owed(acts);
    forall b | b in InodeBlocks(v, before) ensures b in InodeBlocks(w, now) || b in log {
      var i :| i in before && b == v.Iblock(i);
      if i in now { assert w.Iblock(i) == b; }
    }
    forall b | b in InodeBlocks(w, now) ensures b in InodeBlocks(v, before) || (a.Chunk? && b == v.Iblock(a.i)) {
      var i :| i in now && b == w.Iblock(i);
      if i in before { assert v.Iblock(i) == b; }
    }
    if a.Chunk? { assert a.i in now && w.Iblock(a.i) == v.Iblock(a.i); }
  }

  /** Where nothing is owed, no write is half done. */
  lemma {:induction false} RunsQuiet(vs: seq<View>, files: seq<seq<File>>, acts: seq<Act>, logs: seq<set<nat>>)
    requires Runs(vs, files, acts, logs) && Quiet(files[0])
    ensures forall j: nat {:trigger files[|acts|][j]} :: j < |files[|acts|]| && j !in Owed(acts) ==>
              files[|acts|][j].size == |files[|acts|][j].bytes|
    decreases |acts|
  {
    hide Ran;
    if acts == [] {
      forall j: nat | j < |files[0]| ensures files[0][j].size == |files[0][j].bytes| { assert files[0][j] in files[0]; }
    } else {
      var n := |acts| - 1;
      RunsQuiet(vs[..n + 1], files[..n + 1], acts[..n], logs[..n]);
      assert acts[..n + 1][n] == acts[n];
      RanFits(vs[n], files[n], acts[n], vs[n + 1], logs[n]);
      assert files[..n + 1][n] == files[n] && files[n + 1] == After(files[n], acts[n]);
    }
  }

  lemma RanFits(v: View, files: seq<File>, a: Act, w: View, log: set<nat>)
    requires Ran(v, files, a, w, log)
    ensures Fits(files, a)
  {
  }

  // ----- a group that is committed together -----

  /** Acts from state to state, the blocks each logged, and the order of the blocks in the log. */
  datatype Group = Group(vs: seq<View>, files: seq<seq<File>>, acts: seq<Act>, logs: seq<set<nat>>, blocks: seq<int>)
  {
    ghost predicate Ok(l: C.Layout) {
      && Runs(vs, files, acts, logs) && acts != [] && Owed(acts) == {}
      && Lists(blocks, Union(logs)) && |Union(logs)| < l.size
    }

    function End(): (v: View)
      requires |vs| > 0
    {
      vs[|vs| - 1]
    }

    function EndFiles(): (f: seq<File>)
      requires |files| > 0
    {
      files[|files| - 1]
    }

    /** The transaction that commit writes for the group. */
    ghost function Tx(e: Encoding, base: C.Disk): (tx: C.Tx)
      ensures |tx.blocks| == |tx.vals|
    {
      if |vs| > 0 && |End().data| == |base| && forall b {:trigger b in blocks} :: b in blocks ==> 0 <= b < |base|
      then TxOf(e, End(), base, blocks) else C.Tx([], [])
    }
  }

  lemma GroupCovered(e: Encoding, l: C.Layout, g: Group, base: C.Disk)
    requires g.Ok(l) && LaidOut(l, g.vs[0]) && |base| == |g.vs[0].data|
    ensures |g.End().data| == |base| && LaidOut(l, g.End()) && g.vs[0].Ok() && g.End().Ok()
    ensures Covered(e, l, g.vs[0], g.End(), Union(g.logs), base) && 0 < |Union(g.logs)|
    ensures FilesAre(g.vs[0], g.files[0]) && FilesAre(g.End(), g.EndFiles())
  {
    hide Covered, LaidOut, Lists;
    var n := |g.acts|;
    RunsCovered(e, l, g.vs, g.files, g.acts, g.logs, base);
    assert Union(g.logs) + InodeBlocks(g.End(), {}) == Union(g.logs);
    assert Ran(g.vs[0], g.files[0], g.acts[0], g.vs[1], g.logs[0]);
    assert Ran(g.vs[n - 1], g.files[n - 1], g.acts[n - 1], g.vs[n], g.logs[n - 1]);
    RanFiles(g.vs[n - 1], g.files[n - 1], g.acts[n - 1], g.vs[n], g.logs[n - 1]);
    SomethingLogged(e, l, g, base);
  }

  /** The last act of a finished group is not a chunk, so it logs its inode's block. */
  lemma SomethingLogged(e: Encoding, l: C.Layout, g: Group, base: C.Disk)
    requires g.Ok(l) && LaidOut(l, g.vs[0]) && |base| == |g.vs[0].data|
    ensures 0 < |Union(g.logs)|
  {
    hide Covered, LaidOut, Lists, Ran;
    var n := |g.acts| - 1;
    var a := g.acts[n];
    assert a.Chunk? ==> a.i in Owed(g.acts);
    RunsCovered(e, l, g.vs[..n + 1], g.files[..n + 1], g.acts[..n], g.logs[..n], base);
    assert g.vs[..n + 1][n] == g.vs[n];
    assert Ran(g.vs[n], g.files[n], a, g.vs[n + 1], g.logs[n]);
    RanCovered(e, l, g.vs[n], g.files[n], a, g.vs[n + 1], g.logs[n], base);
    assert g.vs[n].Iblock(a.i) in Union(g.logs);
  }

  /** The acts of a group are atomic: after a crash anywhere in its commit, and in any number of
      recoveries, the disk holds a sound file system in which every file is as it was before all of
      them, or every file is as after. */
  lemma GroupAtomic(e: Encoding, l: C.Layout, g: Group, base: C.Disk, d: C.Disk, k: nat, cuts: seq<nat>)
    requires g.Ok(l) && LaidOut(l, g.vs[0]) && |base| == |g.vs[0].data| == |d|
    requires C.Clean(l, d) && C.SameHome(l, Image(e, g.vs[0], base), d) && l.size <= |d[l.start]|
    ensures |g.End().data| == |base| && g.Tx(e, base).blocks == g.blocks && C.TxOk(l, d, g.Tx(e, base))
    ensures var ws := C.CommitWrites(l, d, g.Tx(e, base));
            k <= |ws| ==>
              && C.HeaderOk(l, C.Apply(d, ws[..k]))
              && var x := C.Reboot(l, C.Apply(d, ws[..k]), cuts);
                 var w, f := if |g.blocks| < k then g.End() else g.vs[0], if |g.blocks| < k then g.EndFiles() else g.files[0];
                 && C.Clean(l, x) && C.SameHome(l, x, Image(e, w, base)) && w.Ok() && FilesAre(w, f)
  {
    assert |g.vs| > 0 && |g.files| > 0;
    hide Covered, LaidOut, Lists, Runs, FilesAre, Image, C.Apply, C.CommitWrites, C.Reboot, C.HeaderOk, C.TxOk;
    GroupCovered(e, l, g, base);
    CommitOfImage(e, l, g.vs[0], g.End(), Union(g.logs), base, d, g.blocks, k, cuts);
  }

  // ----- the log of the kernel writes that transaction -----

  /** Where the cache's latest contents are the file system after the group, the transaction of
      Log.Commit is the group's. */
  lemma CommitIsGroup(e: Encoding, l: C.Layout, g: Group, base: C.Disk, v: BC.View)
    requires g.Ok(l) && LaidOut(l, g.vs[0]) && |base| == |g.vs[0].data|
    requires L.CanCommit(l, g.blocks, v) && |g.End().data| == |base| && C.SameHome(l, v.truth, Image(e, g.End(), base))
    ensures L.TxOf(g.blocks, v.truth) == g.Tx(e, base)
  {
    assert |g.vs| > 0;
    hide LaidOut, Runs, Covered, Lists, FilesAre;
    GroupCovered(e, l, g, base);
    LoggedHome(e, l, g.vs[0], g.End(), Union(g.logs), base, g.blocks);
    SameTx(e, l, g.End(), base, v.truth, g.blocks);
  }

  lemma LoggedHome(e: Encoding, l: C.Layout, v: View, w: View, log: set<nat>, base: C.Disk, blocks: seq<int>)
    requires |base| == |v.data| == |w.data| && Covered(e, l, v, w, log, base) && Lists(blocks, log)
    ensures forall b {:trigger b in blocks} :: b in blocks ==> 0 <= b < |base| && !l.Inside(b)
  {
    forall b | b in blocks ensures 0 <= b < |base| && !l.Inside(b) { assert b in log; }
  }

  lemma SameTx(e: Encoding, l: C.Layout, w: View, base: C.Disk, truth: C.Disk, blocks: seq<int>)
    requires |base| == |w.data| && C.SameHome(l, truth, Image(e, w, base))
    requires forall b {:trigger b in blocks} :: b in blocks ==> 0 <= b < |base| && !l.Inside(b)
    requires forall i :: 0 <= i < |blocks| ==> 0 <= blocks[i] < |truth|
    ensures L.TxOf(blocks, truth) == TxOf(e, w, base, blocks)
  {
    var a, b := L.TxOf(blocks, truth), TxOf(e, w, base, blocks);
    forall j | 0 <= j < |blocks| ensures a.vals[j] == b.vals[j] {
      assert blocks[j] in blocks;
      assert truth[blocks[j]] == Image(e, w, base)[blocks[j]];
    }
    assert a.vals == b.vals;
  }

  /** So power may fail after any k of the writes that Log.Commit issued: every file is as before
      the group, or every file as after it. */
  lemma CommittedFiles(e: Encoding, l: C.Layout, g: Group, base: C.Disk, v: BC.View, w: BC.View, k: nat, cuts: seq<nat>)
    requires g.Ok(l) && LaidOut(l, g.vs[0]) && |base| == |g.vs[0].data| == |v.disk|
    requires C.Clean(l, v.disk) && C.SameHome(l, Image(e, g.vs[0], base), v.disk) && l.size <= |v.disk[l.start]|
    requires L.CanCommit(l, g.blocks, v) && |g.End().data| == |base| && C.SameHome(l, v.truth, Image(e, g.End(), base))
    requires 0 < |g.blocks| && L.IssuedCommit(l, g.blocks, v, w) && k <= |w.trace| - |v.trace|
    ensures var d := C.Apply(v.disk, w.trace[|v.trace|..][..k]);
            && C.HeaderOk(l, d)
            && var x := C.Reboot(l, d, cuts);
               var z, f := if |g.blocks| < k then g.End() else g.vs[0], if |g.blocks| < k then g.EndFiles() else g.files[0];
               && C.Clean(l, x) && C.SameHome(l, x, Image(e, z, base)) && z.Ok() && FilesAre(z, f)
  {
    CommitIsGroup(e, l, g, base, v);
    assert w.trace[|v.trace|..] == C.CommitWrites(l, v.disk, g.Tx(e, base));
    hide *;
    GroupAtomic(e, l, g, base, v.disk, k, cuts);
  }

  /** Writing the logged blocks as w has them turns the image of v into that of w. */
  lemma WritesImage(e: Encoding, l: C.Layout, v: View, w: View, log: set<nat>, base: C.Disk, truth: C.Disk, ws: seq<C.Write>)
    requires |base| == |v.data| == |w.data| && Covered(e, l, v, w, log, base) && C.SameHome(l, truth, Image(e, v, base))
    requires forall b: nat {:trigger b in log} :: b in log <==> exists i :: 0 <= i < |ws| && ws[i].blockno == b
    requires forall i :: 0 <= i < |ws| ==> ws[i].blockno < |base| && ws[i].data == BlockOf(e, w, base, ws[i].blockno)
    ensures C.SameHome(l, C.Apply(truth, ws), Image(e, w, base))
  {
    forall b: nat | b < |base| && !l.Inside(b) ensures C.Apply(truth, ws)[b] == Image(e, w, base)[b] {
      if b in log {
        WrittenLast(truth, ws, b, BlockOf(e, w, base, b));
      } else {
        C.ApplyFrame(truth, ws, b);
        assert truth[b] == Image(e, v, base)[b] && BlockOf(e, w, base, b) == BlockOf(e, v, base, b);
      }
    }
  }

  lemma {:induction false} WrittenLast(d: C.Disk, ws: seq<C.Write>, b: nat, data: Block)
    requires b < |d| && (exists i :: 0 <= i < |ws| && ws[i].blockno == b)
    requires forall i :: 0 <= i < |ws| && ws[i].blockno == b ==> ws[i].data == data
    ensures C.Apply(d, ws)[b] == data
    decreases |ws|
  {
    var n := |ws| - 1;
    if ws[n].blockno != b {
      var i :| 0 <= i < |ws| && ws[i].blockno == b;
      assert ws[..n][i].blockno == b;
      WrittenLast(d, ws[..n], b, data);
    }
  }

  // ----- many groups, many power cycles -----

  /** Each group starts where the one before it ended. */
  ghost predicate Chained(l: C.Layout, v: View, files: seq<File>, gs: seq<Group>)
    decreases |gs|
  {
    gs == [] || (gs[0].Ok(l) && gs[0].vs[0] == v && gs[0].files[0] == files && Chained(l, gs[0].End(), gs[0].EndFiles(), gs[1..]))
  }

  ghost function Txs(e: Encoding, base: C.Disk, gs: seq<Group>): (txs: seq<C.Tx>)
    ensures |txs| == |gs| && C.Sized(txs) && (forall i :: 0 <= i < |gs| ==> txs[i] == gs[i].Tx(e, base))
  {
    seq(|gs|, i requires 0 <= i < |gs| => gs[i].Tx(e, base))
  }

  /** The file system and its files after the first j groups. */
  ghost function StateAfter(v: View, gs: seq<Group>, j: nat): (w: View)
    requires j <= |gs| && forall i :: 0 <= i < |gs| ==> |gs[i].vs| > 0
  {
    if j == 0 then v else gs[j - 1].End()
  }

  ghost function FilesAfter(files: seq<File>, gs: seq<Group>, j: nat): (f: seq<File>)
    requires j <= |gs| && forall i :: 0 <= i < |gs| ==> |gs[i].files| > 0
  {
    if j == 0 then files else gs[j - 1].EndFiles()
  }

  lemma {:induction false} ChainedParts(l: C.Layout, v: View, files: seq<File>, gs: seq<Group>)
    requires Chained(l, v, files, gs)
    ensures forall i :: 0 <= i < |gs| ==> gs[i].Ok(l) && |gs[i].vs| > 0 && |gs[i].files| > 0
    decreases |gs|
  {
    if gs != [] {
      ChainedParts(l, gs[0].End(), gs[0].EndFiles(), gs[1..]);
      forall i | 0 <= i < |gs| ensures gs[i].Ok(l) && |gs[i].vs| > 0 && |gs[i].files| > 0 { if i > 0 { assert gs[i] == gs[1..][i - 1]; } }
    }
  }

  /** Installing the first j transactions makes the image of v that of the state after j groups. */
  lemma {:induction false} ChainInstalls(e: Encoding, l: C.Layout, v: View, files: seq<File>, gs: seq<Group>, base: C.Disk, d: C.Disk, j: nat)
    requires Chained(l, v, files, gs) && v.Ok() && FilesAre(v, files) && LaidOut(l, v) && |base| == |v.data| == |d| && j <= |gs|
    requires l.start + l.size <= |d| && l.size <= |d[l.start]|
    ensures forall i :: 0 <= i < |gs| ==> |gs[i].vs| > 0 && |gs[i].files| > 0
    ensures var w := StateAfter(v, gs, j);
            && w.Ok() && FilesAre(w, FilesAfter(files, gs, j)) && LaidOut(l, w) && |w.data| == |base|
            && C.InstallTxs(Image(e, v, base), Txs(e, base, gs)[..j]) == Image(e, w, base)
    ensures C.TxsOk(l, d, Txs(e, base, gs))
    decreases |gs|
  {
    hide LaidOut, FilesAre, Image, C.TxOk, Group.Ok, C.Install, View.Ok, Group.Tx;
    ChainedParts(l, v, files, gs);
    if gs != [] {
      var g := gs[0];
      GroupInstalls(e, l, g, base, d);
      var k := if j == 0 then 0 else j - 1;
      ChainInstalls(e, l, g.End(), g.EndFiles(), gs[1..], base, d, k);
      TxsTail(e, base, gs, j);
      assert k > 0 ==> gs[1..][k - 1] == gs[j - 1];
      forall i | 0 <= i < |gs| ensures C.TxOk(l, d, Txs(e, base, gs)[i]) { if i > 0 { assert gs[i] == gs[1..][i - 1]; } }
    }
  }

  lemma TxsTail(e: Encoding, base: C.Disk, gs: seq<Group>, j: nat)
    requires gs != [] && j <= |gs|
    ensures j == 0 ==> Txs(e, base, gs)[..j] == []
    ensures j > 0 ==> Txs(e, base, gs)[..j] != [] && Txs(e, base, gs)[..j][0] == gs[0].Tx(e, base) && Txs(e, base, gs)[..j][1..] == Txs(e, base, gs[1..])[..j - 1]
  {
  }

  lemma GroupInstalls(e: Encoding, l: C.Layout, g: Group, base: C.Disk, d: C.Disk)
    requires g.Ok(l) && LaidOut(l, g.vs[0]) && |base| == |g.vs[0].data| == |d|
    requires l.start + l.size <= |d| && l.size <= |d[l.start]|
    ensures |g.End().data| == |base| && LaidOut(l, g.End()) && g.End().Ok() && FilesAre(g.End(), g.EndFiles())
    ensures C.TxOk(l, d, g.Tx(e, base)) && C.Install(Image(e, g.vs[0], base), g.Tx(e, base)) == Image(e, g.End(), base)
  {
    assert |g.vs| > 0 && |g.files| > 0;
    hide Covered, LaidOut, Lists, Runs, FilesAre, Image, C.TxOk, C.Install;
    GroupCovered(e, l, g, base);
    CanCommitTx(e, l, g.vs[0], g.End(), Union(g.logs), base, g.blocks, d);
    InstallsImage(e, l, g.vs[0], g.End(), Union(g.logs), base, g.blocks);
  }

  /** One power cycle: the groups it commits, the write after which power fails, and the recoveries
      that are cut short. */
  datatype Cycle = Cycle(groups: seq<Group>, crash: nat, cuts: seq<nat>)

  ghost function Survived(e: Encoding, base: C.Disk, c: Cycle): (j: nat)
    ensures j <= |c.groups|
  {
    C.Committed(Txs(e, base, c.groups), c.crash)
  }

  /** Each cycle works on what the cycle before it left. */
  ghost predicate CyclesOk(e: Encoding, l: C.Layout, base: C.Disk, v: View, files: seq<File>, cs: seq<Cycle>)
    decreases |cs|
  {
    cs == [] ||
    (var c, j := cs[0], Survived(e, base, cs[0]);
     && Chained(l, v, files, c.groups)
     && (forall i :: 0 <= i < |c.groups| ==> |c.groups[i].vs| > 0 && |c.groups[i].files| > 0)
     && CyclesOk(e, l, base, StateAfter(v, c.groups, j), FilesAfter(files, c.groups, j), cs[1..]))
  }

  /** The file system and its files after all cycles. */
  ghost function Outcome(e: Encoding, l: C.Layout, base: C.Disk, v: View, files: seq<File>, cs: seq<Cycle>): (r: (View, seq<File>))
    requires CyclesOk(e, l, base, v, files, cs)
    decreases |cs|
  {
    if cs == [] then (v, files) else
      var c, j := cs[0], Survived(e, base, cs[0]);
      Outcome(e, l, base, StateAfter(v, c.groups, j), FilesAfter(files, c.groups, j), cs[1..])
  }

  ghost function Boots(e: Encoding, base: C.Disk, cs: seq<Cycle>): (bs: seq<C.Boot>)
    ensures |bs| == |cs|
  {
    seq(|cs|, i requires 0 <= i < |cs| => C.Boot(Txs(e, base, cs[i].groups), cs[i].crash, cs[i].cuts))
  }

  /** Over any number of power cycles, each cut anywhere, the disk holds a sound file system whose
      files are those that exactly the committed groups of every cycle made, in order. */
  lemma {:induction false} FilesDurable(e: Encoding, l: C.Layout, base: C.Disk, v: View, files: seq<File>, d: C.Disk, cs: seq<Cycle>)
    requires CyclesOk(e, l, base, v, files, cs) && v.Ok() && FilesAre(v, files) && LaidOut(l, v) && |base| == |v.data| == |d|
    requires C.Clean(l, d) && C.SameHome(l, Image(e, v, base), d) && l.size <= |d[l.start]|
    ensures C.BootsOk(l, d, Boots(e, base, cs))
    ensures var r, o := C.AfterBoots(l, d, Boots(e, base, cs)), Outcome(e, l, base, v, files, cs);
            && C.Clean(l, r) && o.0.Ok() && FilesAre(o.0, o.1) && |o.0.data| == |base| && C.SameHome(l, r, Image(e, o.0, base))
    decreases |cs|
  {
    if cs != [] {
      var c, j := cs[0], Survived(e, base, cs[0]);
      var r := CycleDurable(e, l, base, v, files, d, c);
      var w, f := StateAfter(v, c.groups, j), FilesAfter(files, c.groups, j);
      FilesDurable(e, l, base, w, f, r, cs[1..]);
      BootsTail(e, l, base, d, r, cs);
    } else {
      assert Boots(e, base, cs) == [];
    }
  }

  /** One cycle: the disk after its recovery. */
  lemma CycleDurable(e: Encoding, l: C.Layout, base: C.Disk, v: View, files: seq<File>, d: C.Disk, c: Cycle) returns (r: C.Disk)
    requires Chained(l, v, files, c.groups) && v.Ok() && FilesAre(v, files) && LaidOut(l, v) && |base| == |v.data| == |d|
    requires C.Clean(l, d) && C.SameHome(l, Image(e, v, base), d) && l.size <= |d[l.start]|
    ensures forall i :: 0 <= i < |c.groups| ==> |c.groups[i].vs| > 0 && |c.groups[i].files| > 0
    ensures var txs := Txs(e, base, c.groups);
            C.TxsOk(l, d, txs) && C.HeaderOk(l, C.CrashAt(l, d, txs, c.crash)) && r == C.Reboot(l, C.CrashAt(l, d, txs, c.crash), c.cuts)
    ensures var j := Survived(e, base, c);
            var w := StateAfter(v, c.groups, j);
            && w.Ok() && FilesAre(w, FilesAfter(files, c.groups, j)) && LaidOut(l, w) && |w.data| == |base| == |r|
            && C.Clean(l, r) && C.SameHome(l, Image(e, w, base), r) && l.size <= |r[l.start]|
  {
    var j, txs := Survived(e, base, c), Txs(e, base, c.groups);
    assert l.start + l.size <= |d|;
    hide LaidOut, FilesAre, Image, Chained, C.CrashAt, C.Reboot, C.HeaderOk, C.TxsOk, C.InstallTxs;
    ChainInstalls(e, l, v, files, c.groups, base, d, j);
    C.RunAtomic(l, d, txs, c.crash, c.cuts);
    r := C.Reboot(l, C.CrashAt(l, d, txs, c.crash), c.cuts);
    C.InstallTxsHome(l, Image(e, v, base), d, txs[..j]);
  }

  lemma BootsTail(e: Encoding, l: C.Layout, base: C.Disk, d: C.Disk, r: C.Disk, cs: seq<Cycle>)
    requires cs != [] && C.Clean(l, d) && C.Clean(l, r) && |r| == |d| && l.size <= |d[l.start]| && l.size <= |r[l.start]|
    requires var txs := Txs(e, base, cs[0].groups);
             C.TxsOk(l, d, txs) && C.HeaderOk(l, C.CrashAt(l, d, txs, cs[0].crash)) && r == C.Reboot(l, C.CrashAt(l, d, txs, cs[0].crash), cs[0].cuts)
    requires C.BootsOk(l, r, Boots(e, base, cs[1..]))
    ensures C.BootsOk(l, d, Boots(e, base, cs))
    ensures C.AfterBoots(l, d, Boots(e, base, cs)) == C.AfterBoots(l, r, Boots(e, base, cs[1..]))
  {
    var bs := Boots(e, base, cs);
    assert bs[1..] == Boots(e, base, cs[1..]);
    forall i | 0 <= i < |bs| ensures C.TxsOk(l, d, bs[i].txs) { if i > 0 { assert bs[i] == bs[1..][i - 1]; } }
  }
}
