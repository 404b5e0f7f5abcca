/** The on-disk redo log of kernel/log.c as a theory of block writes.

    The disk changes only by whole-block writes, and a crash may fall between
    any two of them.  `CommitWrites` and `RecoverWrites` are the write sequences
    that `Log.Commit` and `Log.Recover` are proved to issue; the theorems
    here say what every cut of those sequences leaves behind. */
module CrashLog {

  /** A block is BSIZE bytes seen as 32-bit words, the view `struct logheader` takes. */
  type Block = seq<int>
  type Disk = seq<Block>

  datatype Write = Write(blockno: nat, data: Block)

  /** The log occupies blocks start .. start+size; the header is the first of them. */
  datatype Layout = Layout(start: nat, size: nat) {
    predicate Inside(b: int) { start <= b < start + size }
  }

  /** A transaction: the logged home blocks and the contents they are to get. */
  datatype Tx = Tx(blocks: seq<int>, vals: seq<Block>)

  function Apply(d: Disk, ws: seq<Write>): (r: Disk)
    ensures |r| == |d|
  {
    if ws == [] then d else
      var w := ws[|ws| - 1];
      var r := Apply(d, ws[..|ws| - 1]);
      if w.blockno < |r| then r[w.blockno := w.data] else r
  }

  /** What write_head stores: n, then the n block numbers, over the old header block. */
  function HeaderBlock(prev: Block, blocks: seq<int>): (r: Block)
    requires |blocks| < |prev|
    ensures |r| == |prev| && r[0] == |blocks| && r[1..1 + |blocks|] == blocks
  {
    [|blocks|] + blocks + prev[1 + |blocks|..]
  }

  predicate HeaderOk(l: Layout, d: Disk) {
    && 0 < l.size
    && l.start + l.size <= |d|
    && var h := d[l.start];
       && 0 < |h|
       && 0 <= h[0] < l.size
       && h[0] < |h|
       && forall i :: 1 <= i <= h[0] ==> 0 <= h[i] < |d| && !l.Inside(h[i])
  }

  function HeaderBlocks(l: Layout, d: Disk): (r: seq<int>)
    requires HeaderOk(l, d)
  {
    d[l.start][1..1 + d[l.start][0]]
  }

  predicate Clean(l: Layout, d: Disk) {
    HeaderOk(l, d) && d[l.start][0] == 0
  }

  /** The premises on a transaction: absorption keeps the numbers distinct, and
      no caller logs a block of the log area. */
  predicate TxOk(l: Layout, d: Disk, tx: Tx) {
    && 0 < |tx.blocks| == |tx.vals|
    && |tx.blocks| < l.size
    && l.start + l.size <= |d|
    && |tx.blocks| < |d[l.start]|
    && Distinct(tx.blocks)
    && forall i :: 0 <= i < |tx.blocks| ==> 0 <= tx.blocks[i] < |d| && !l.Inside(tx.blocks[i])
  }

  predicate Distinct(s: seq<int>) {
    forall i, j :: 0 <= i < j < |s| ==> s[i] != s[j]
  }

  function LogWrites(l: Layout, tx: Tx): (ws: seq<Write>)
    requires |tx.blocks| == |tx.vals|
  {
    seq(|tx.blocks|, i requires 0 <= i < |tx.blocks| => Write(l.start + 1 + i, tx.vals[i]))
  }

  function HomeWrites(tx: Tx): (ws: seq<Write>)
    requires |tx.blocks| == |tx.vals|
    requires forall i :: 0 <= i < |tx.blocks| ==> 0 <= tx.blocks[i]
  {
    seq(|tx.blocks|, i requires 0 <= i < |tx.blocks| => Write(tx.blocks[i], tx.vals[i]))
  }

  /** write_log, write_head, install_trans, and write_head with n == 0. */
  function CommitWrites(l: Layout, d: Disk, tx: Tx): (ws: seq<Write>)
    requires TxOk(l, d, tx)
    ensures |ws| == 2 * |tx.blocks| + 2
  {
    var h := HeaderBlock(d[l.start], tx.blocks);
    LogWrites(l, tx) + [Write(l.start, h)] + HomeWrites(tx) + [Write(l.start, HeaderBlock(h, []))]
  }

  /** The transaction a recovery finds in the log. */
  function LoggedTx(l: Layout, d: Disk): (tx: Tx)
    requires HeaderOk(l, d)
  {
    Tx(HeaderBlocks(l, d), d[l.start + 1..l.start + 1 + d[l.start][0]])
  }

  function RecoverWrites(l: Layout, d: Disk): (ws: seq<Write>)
    requires HeaderOk(l, d)
  {
    HomeWrites(LoggedTx(l, d)) + [Write(l.start, HeaderBlock(d[l.start], []))]
  }

  /** The specification of a transaction: its blocks change, all at once. */
  function Install(d: Disk, tx: Tx): (r: Disk)
    requires |tx.blocks| == |tx.vals|
    ensures |r| == |d|
  {
    seq(|d|, b requires 0 <= b < |d| =>
      if b in tx.blocks then tx.vals[IndexOf(tx.blocks, b)] else d[b])
  }

  function IndexOf(s: seq<int>, x: int): (i: nat)
    requires x in s
    ensures i < |s| && s[i] == x
  {
    if s[0] == x then 0 else 1 + IndexOf(s[1..], x)
  }

  predicate SameHome(l: Layout, d: Disk, e: Disk) {
    |d| == |e| && forall b :: 0 <= b < |d| && !l.Inside(b) ==> d[b] == e[b]
  }

  /** The header block keeps its length. */
  predicate SameHeaderSize(l: Layout, d: Disk, e: Disk) {
    l.start < |d| && l.start < |e| && |d[l.start]| == |e[l.start]|
  }

  /** Some transaction tx is committed in the log of d and not yet erased, and
      home blocks outside tx are those of base. */
  predicate Pending(l: Layout, base: Disk, d: Disk, tx: Tx) {
    && HeaderOk(l, d)
    && |d| == |base|
    && SameHeaderSize(l, base, d)
    && LoggedTx(l, d) == tx
    && forall b :: 0 <= b < |d| && !l.Inside(b) && b !in tx.blocks ==> d[b] == base[b]
  }

  lemma ApplySnoc(d: Disk, ws: seq<Write>, w: Write)
    ensures Apply(d, ws + [w]) == Apply(Apply(d, ws), [w])
    ensures w.blockno < |d| ==> Apply(d, ws + [w]) == Apply(d, ws)[w.blockno := w.data]
  {
    assert (ws + [w])[..|ws|] == ws;
    assert [w][..0] == [];
  }

  lemma {:induction false} ApplyAppend(d: Disk, ws: seq<Write>, vs: seq<Write>)
    ensures Apply(d, ws + vs) == Apply(Apply(d, ws), vs)
    decreases |vs|
  {
    if vs == [] {
      assert ws + vs == ws;
    } else {
      var init, last := vs[..|vs| - 1], vs[|vs| - 1];
      assert vs == init + [last];
      assert ws + vs == (ws + init) + [last];
      ApplySnoc(d, ws + init, last);
      ApplySnoc(Apply(d, ws), init, last);
      ApplyAppend(d, ws, init);
    }
  }

  /** A block no write names is unchanged. */
  lemma {:induction false} ApplyFrame(d: Disk, ws: seq<Write>, b: nat)
    requires b < |d|
    requires forall i :: 0 <= i < |ws| ==> ws[i].blockno != b
    ensures Apply(d, ws)[b] == d[b]
    decreases |ws|
  {
    if ws != [] {
      ApplyFrame(d, ws[..|ws| - 1], b);
    }
  }

  /** The last write to a block is the one that shows. */
  lemma {:induction false} ApplyLast(d: Disk, ws: seq<Write>, k: nat)
    requires k < |ws| && ws[k].blockno < |d|
    requires forall i :: k < i < |ws| ==> ws[i].blockno != ws[k].blockno
    ensures Apply(d, ws)[ws[k].blockno] == ws[k].data
    decreases |ws|
  {
    if k < |ws| - 1 {
      ApplyLast(d, ws[..|ws| - 1], k);
    }
  }

  /** Writes before the commit point touch only free log blocks. */
  lemma BeforeCommitPoint(l: Layout, d: Disk, tx: Tx, k: nat)
    requires Clean(l, d) && TxOk(l, d, tx) && k <= |tx.blocks|
    ensures Clean(l, Apply(d, LogWrites(l, tx)[..k]))
    ensures SameHome(l, d, Apply(d, LogWrites(l, tx)[..k]))
    ensures SameHeaderSize(l, d, Apply(d, LogWrites(l, tx)[..k]))
  {
    var ws := LogWrites(l, tx)[..k];
    forall b: nat | b < |d| && (b == l.start || !l.Inside(b)) ensures Apply(d, ws)[b] == d[b] {
      ApplyFrame(d, ws, b);
    }
  }

  /** The header write commits: the whole transaction is in the log and home is untouched. */
  lemma AtCommitPoint(l: Layout, d: Disk, tx: Tx)
    requires Clean(l, d) && TxOk(l, d, tx)
    ensures Pending(l, d, Apply(d, LogWrites(l, tx) + [Write(l.start, HeaderBlock(d[l.start], tx.blocks))]), tx)
  {
    var ws, h := LogWrites(l, tx), HeaderBlock(d[l.start], tx.blocks);
    BeforeCommitPoint(l, d, tx, |tx.blocks|);
    assert ws[..|tx.blocks|] == ws;
    ApplySnoc(d, ws, Write(l.start, h));
    forall i | 0 <= i < |tx.blocks| ensures Apply(d, ws)[l.start + 1 + i] == tx.vals[i] { LogHolds(l, d, tx, i); }
    HeaderCommits(l, d, Apply(d, ws), tx);
  }

  lemma LogHolds(l: Layout, d: Disk, tx: Tx, i: nat)
    requires TxOk(l, d, tx) && i < |tx.blocks|
    ensures Apply(d, LogWrites(l, tx))[l.start + 1 + i] == tx.vals[i]
  {
    ApplyLast(d, LogWrites(l, tx), i);
  }

  lemma HeaderCommits(l: Layout, d: Disk, e: Disk, tx: Tx)
    requires TxOk(l, d, tx) && SameHome(l, d, e)
    requires forall i :: 0 <= i < |tx.blocks| ==> e[l.start + 1 + i] == tx.vals[i]
    ensures Pending(l, d, e[l.start := HeaderBlock(d[l.start], tx.blocks)], tx)
  {
    var h := HeaderBlock(d[l.start], tx.blocks);
    assert forall i :: 1 <= i <= |tx.blocks| ==> h[i] == tx.blocks[i - 1];
    assert LoggedTx(l, e[l.start := h]).vals == tx.vals;
  }

  /** Installing any part of a committed transaction keeps it committed. */
  lemma InstallCut(l: Layout, base: Disk, d: Disk, tx: Tx, k: nat)
    requires Pending(l, base, d, tx) && k <= |tx.blocks|
    ensures Pending(l, base, Apply(d, HomeWrites(tx)[..k]), tx)
  {
    var ws := HomeWrites(tx)[..k];
    var e := Apply(d, ws);
    forall b: nat | b < |d| && (l.Inside(b) || b !in tx.blocks) ensures e[b] == d[b] {
      ApplyFrame(d, ws, b);
    }
    assert LoggedTx(l, e).vals == LoggedTx(l, d).vals;
  }

  /** A complete install makes home equal to the transaction applied to base. */
  lemma InstallAll(l: Layout, base: Disk, d: Disk, tx: Tx)
    requires Pending(l, base, d, tx) && Distinct(tx.blocks)
    ensures SameHome(l, Install(base, tx), Apply(d, HomeWrites(tx)))
  {
    var ws := HomeWrites(tx);
    assert ws[..|tx.blocks|] == ws;
    InstallCut(l, base, d, tx, |tx.blocks|);
    forall b: nat | b < |d| && b in tx.blocks ensures Apply(d, ws)[b] == Install(base, tx)[b] {
      ApplyLast(d, ws, IndexOf(tx.blocks, b));
    }
  }

  /** A recovery cut short leaves the transaction pending; one that completes installs it. */
  lemma RecoverCut(l: Layout, base: Disk, d: Disk, tx: Tx, k: nat)
    requires Pending(l, base, d, tx) && Distinct(tx.blocks)
    requires k <= |RecoverWrites(l, d)|
    ensures var e := Apply(d, RecoverWrites(l, d)[..k]);
            if k <= |tx.blocks| then Pending(l, base, e, tx)
            else Clean(l, e) && SameHome(l, Install(base, tx), e) && SameHeaderSize(l, base, e)
  {
    var home := HomeWrites(tx);
    var w := Write(l.start, HeaderBlock(d[l.start], []));
    if k <= |tx.blocks| {
      assert RecoverWrites(l, d)[..k] == home[..k];
      InstallCut(l, base, d, tx, k);
    } else {
      assert RecoverWrites(l, d)[..k] == home + [w];
      EraseHeader(l, base, d, tx, w.data);
    }
  }

  lemma EraseHeader(l: Layout, base: Disk, d: Disk, tx: Tx, h: Block)
    requires Pending(l, base, d, tx) && Distinct(tx.blocks)
    requires 0 < |h| && h[0] == 0
    ensures var e := Apply(d, HomeWrites(tx) + [Write(l.start, h)]);
            Clean(l, e) && SameHome(l, Install(base, tx), e) && e[l.start] == h
  {
    InstallAll(l, base, d, tx);
    ApplySnoc(d, HomeWrites(tx), Write(l.start, h));
  }

  /** Recovery of a disk with nothing committed writes the header back unchanged. */
  lemma RecoverClean(l: Layout, d: Disk, k: nat)
    requires Clean(l, d) && k <= |RecoverWrites(l, d)|
    ensures |RecoverWrites(l, d)| == 1
    ensures Apply(d, RecoverWrites(l, d)[..k]) == d
  {
    var h := d[l.start];
    assert HeaderBlock(h, []) == h;
    if k == 1 {
      var w := Write(l.start, h);
      assert RecoverWrites(l, d)[..k] == [w];
      assert [w][..0] == [];
      assert d[l.start := h] == d;
    }
  }

  // ----- whole histories -----

  function Min(a: nat, b: nat): (m: nat) { if a <= b then a else b }

  lemma RecoverKeepsHeaderOk(l: Layout, d: Disk, k: nat)
    requires HeaderOk(l, d) && k <= |RecoverWrites(l, d)|
    ensures HeaderOk(l, Apply(d, RecoverWrites(l, d)[..k]))
  {
    var tx := LoggedTx(l, d);
    var home, w := HomeWrites(tx), Write(l.start, HeaderBlock(d[l.start], []));
    InstallCut(l, d, d, tx, Min(k, |home|));
    if k <= |home| {
      assert RecoverWrites(l, d)[..k] == home[..k];
    } else {
      assert RecoverWrites(l, d)[..k] == home + [w] && home[..|home|] == home;
      ApplySnoc(d, home, w);
      assert [w][..0] == [];
    }
  }

  /** Recovery attempts one after another, each cut after the given number of writes. */
  function RecoverCuts(l: Layout, d: Disk, cuts: seq<nat>): (r: Disk)
    requires HeaderOk(l, d)
    ensures HeaderOk(l, r)
    decreases |cuts|
  {
    if cuts == [] then d else
      var ws := RecoverWrites(l, d);
      var k := Min(cuts[0], |ws|);
      RecoverKeepsHeaderOk(l, d, k);
      RecoverCuts(l, Apply(d, ws[..k]), cuts[1..])
  }

  /** Attempts cut short by crashes, and then one that completes. */
  function Reboot(l: Layout, d: Disk, cuts: seq<nat>): (r: Disk)
    requires HeaderOk(l, d)
  {
    var e := RecoverCuts(l, d, cuts);
    Apply(e, RecoverWrites(l, e))
  }

  lemma {:induction false} RebootClean(l: Layout, d: Disk, cuts: seq<nat>)
    requires Clean(l, d)
    ensures Reboot(l, d, cuts) == d
    decreases |cuts|
  {
    var ws := RecoverWrites(l, d);
    RecoverClean(l, d, 1);
    assert ws[..1] == ws;
    if cuts != [] {
      RecoverClean(l, d, Min(cuts[0], |ws|));
      RebootClean(l, d, cuts[1..]);
    }
  }

  lemma {:induction false} RebootPending(l: Layout, base: Disk, d: Disk, tx: Tx, cuts: seq<nat>)
    requires Pending(l, base, d, tx) && Distinct(tx.blocks)
    ensures Clean(l, Reboot(l, d, cuts)) && SameHome(l, Install(base, tx), Reboot(l, d, cuts))
    ensures SameHeaderSize(l, base, Reboot(l, d, cuts))
    decreases |cuts|
  {
    var ws := RecoverWrites(l, d);
    if cuts == [] {
      assert ws[..|ws|] == ws;
      RecoverCut(l, base, d, tx, |ws|);
    } else {
      var k := Min(cuts[0], |ws|);
      var e := Apply(d, ws[..k]);
      RecoverCut(l, base, d, tx, k);
      if k <= |tx.blocks| {
        RebootPending(l, base, e, tx, cuts[1..]);
      } else {
        RebootClean(l, e, cuts[1..]);
      }
    }
  }

  /** Crash atomicity of one commit.  Cut commit after any k writes, then cut recovery
      any number of times; the home blocks end up all new when the first header write
      was among the k, and all old when not.  Recovering again changes nothing. */
  lemma CommitAtomic(l: Layout, d: Disk, tx: Tx, k: nat, cuts: seq<nat>, again: seq<nat>)
    requires Clean(l, d) && TxOk(l, d, tx) && k <= |CommitWrites(l, d, tx)|
    ensures var e := Apply(d, CommitWrites(l, d, tx)[..k]);
            && HeaderOk(l, e)
            && var r := Reboot(l, e, cuts);
               && Clean(l, r)
               && SameHeaderSize(l, d, r)
               && SameHome(l, r, if |tx.blocks| < k then Install(d, tx) else d)
               && Reboot(l, r, again) == r
  {
    var e := Apply(d, CommitWrites(l, d, tx)[..k]);
    CommitCut(l, d, tx, k);
    if k <= |tx.blocks| || k == 2 * |tx.blocks| + 2 {
      RebootClean(l, e, cuts);
    } else {
      RebootPending(l, d, e, tx, cuts);
    }
    RebootClean(l, Reboot(l, e, cuts), again);
  }

  /** The disk after any number of commit's writes. */
  lemma CommitCut(l: Layout, d: Disk, tx: Tx, k: nat)
    requires Clean(l, d) && TxOk(l, d, tx) && k <= |CommitWrites(l, d, tx)|
    ensures var e := Apply(d, CommitWrites(l, d, tx)[..k]);
            if k <= |tx.blocks| then Clean(l, e) && SameHome(l, d, e) && SameHeaderSize(l, d, e)
            else if k <= 2 * |tx.blocks| + 1 then Pending(l, d, e, tx)
            else Clean(l, e) && SameHome(l, Install(d, tx), e) && SameHeaderSize(l, d, e)
  {
    assert |d| > l.start && HeaderBlock.requires(d[l.start], tx.blocks);
    hide Clean, TxOk, Pending, SameHome, SameHeaderSize, Install, Apply, HeaderBlock;
    var n, ws := |tx.blocks|, CommitWrites(l, d, tx);
    var h := HeaderBlock(d[l.start], tx.blocks);
    var log, home, erase := LogWrites(l, tx), HomeWrites(tx), Write(l.start, HeaderBlock(h, []));
    var prefix := log + [Write(l.start, h)];
    if k <= n {
      assert ws[..k] == log[..k];
      BeforeCommitPoint(l, d, tx, k);
    } else {
      AtCommitPoint(l, d, tx);
      var c := Apply(d, prefix);
      if k <= 2 * n + 1 {
        assert ws[..k] == prefix + home[..k - n - 1];
        ApplyAppend(d, prefix, home[..k - n - 1]);
        InstallCut(l, d, c, tx, k - n - 1);
      } else {
        assert ws[..k] == prefix + (home + [erase]);
        ApplyAppend(d, prefix, home + [erase]);
        EraseHeader(l, d, c, tx, erase.data);
      }
    }
  }

  // ----- many transactions, many boots -----

  ghost predicate TxsOk(l: Layout, d: Disk, txs: seq<Tx>) {
    forall i :: 0 <= i < |txs| ==> TxOk(l, d, txs[i])
  }

  /** The disk when power fails after k writes of the commits of txs, in order. */
  ghost function CrashAt(l: Layout, d: Disk, txs: seq<Tx>, k: nat): (r: Disk)
    requires Clean(l, d) && TxsOk(l, d, txs)
    decreases |txs|
  {
    if txs == [] then d else
      var ws := CommitWrites(l, d, txs[0]);
      if k < |ws| then Apply(d, ws[..k]) else
        CommitWhole(l, d, txs);
        CrashAt(l, Apply(d, ws), txs[1..], k - |ws|)
  }

  lemma CommitWhole(l: Layout, d: Disk, txs: seq<Tx>)
    requires txs != [] && Clean(l, d) && TxsOk(l, d, txs)
    ensures var e := Apply(d, CommitWrites(l, d, txs[0]));
            && Clean(l, e) && SameHome(l, Install(d, txs[0]), e) && SameHeaderSize(l, d, e)
            && TxsOk(l, e, txs[1..])
  {
    var ws := CommitWrites(l, d, txs[0]);
    CommitCut(l, d, txs[0], |ws|);
    assert ws[..|ws|] == ws;
  }

  /** How many commit points lie among the first k writes. */
  function Committed(txs: seq<Tx>, k: nat): (j: nat)
    ensures j <= |txs|
  {
    if txs == [] || k <= |txs[0].blocks| then 0
    else if k < 2 * |txs[0].blocks| + 2 then 1
    else 1 + Committed(txs[1..], k - (2 * |txs[0].blocks| + 2))
  }

  predicate Sized(txs: seq<Tx>) {
    forall i :: 0 <= i < |txs| ==> |txs[i].blocks| == |txs[i].vals|
  }

  function InstallTxs(d: Disk, txs: seq<Tx>): (r: Disk)
    requires Sized(txs)
    ensures |r| == |d|
    decreases |txs|
  {
    if txs == [] then d else InstallTxs(Install(d, txs[0]), txs[1..])
  }

  lemma {:induction false} InstallTxsHome(l: Layout, d: Disk, e: Disk, txs: seq<Tx>)
    requires Sized(txs)
    requires SameHome(l, d, e)
    ensures SameHome(l, InstallTxs(d, txs), InstallTxs(e, txs))
    decreases |txs|
  {
    if txs != [] {
      InstallTxsHome(l, Install(d, txs[0]), Install(e, txs[0]), txs[1..]);
    }
  }

  /** Disk r is clean and its home blocks are those of d with txs installed. */
  ghost predicate Holds(l: Layout, d: Disk, txs: seq<Tx>, r: Disk) {
    && Clean(l, r)
    && SameHeaderSize(l, d, r)
    && Sized(txs)
    && SameHome(l, InstallTxs(d, txs), r)
  }

  lemma HoldsCons(l: Layout, d: Disk, e: Disk, tx: Tx, txs: seq<Tx>, r: Disk)
    requires |tx.blocks| == |tx.vals|
    requires SameHeaderSize(l, d, e) && SameHome(l, Install(d, tx), e) && Holds(l, e, txs, r)
    ensures Holds(l, d, [tx] + txs, r)
  {
    InstallTxsHome(l, Install(d, tx), e, txs);
    assert ([tx] + txs)[1..] == txs;
  }

  /** Whatever the run and wherever the crash, what survives is exactly the
      transactions whose header write reached the disk, in order. */
  lemma {:induction false} RunAtomic(l: Layout, d: Disk, txs: seq<Tx>, k: nat, cuts: seq<nat>)
    requires Clean(l, d) && TxsOk(l, d, txs)
    ensures HeaderOk(l, CrashAt(l, d, txs, k))
    ensures Holds(l, d, txs[..Committed(txs, k)], Reboot(l, CrashAt(l, d, txs, k), cuts))
    decreases |txs|
  {
    if txs == [] {
      RebootClean(l, d, cuts);
    } else if k < |CommitWrites(l, d, txs[0])| {
      RunAtomicFirst(l, d, txs, k, cuts);
    } else {
      RunAtomicRest(l, d, txs, k, cuts);
    }
  }

  lemma OneHolds(l: Layout, d: Disk, tx: Tx, k: nat, cuts: seq<nat>)
    requires Clean(l, d) && TxOk(l, d, tx) && k <= |CommitWrites(l, d, tx)|
    ensures HeaderOk(l, Apply(d, CommitWrites(l, d, tx)[..k]))
    ensures Holds(l, d, if k <= |tx.blocks| then [] else [tx],
                  Reboot(l, Apply(d, CommitWrites(l, d, tx)[..k]), cuts))
  {
    hide Reboot, Apply, CommitWrites, HeaderOk, Clean;
    CommitAtomic(l, d, tx, k, cuts, []);
    var r := Reboot(l, Apply(d, CommitWrites(l, d, tx)[..k]), cuts);
    if |tx.blocks| < k { OneInstalled(l, d, tx, r); }
  }

  lemma OneInstalled(l: Layout, d: Disk, tx: Tx, r: Disk)
    requires Clean(l, r) && SameHeaderSize(l, d, r) && |tx.blocks| == |tx.vals| && SameHome(l, r, Install(d, tx))
    ensures Holds(l, d, [tx], r)
  {
    assert [tx][1..] == [];
    assert InstallTxs(Install(d, tx), []) == Install(d, tx);
  }

  lemma RunAtomicFirst(l: Layout, d: Disk, txs: seq<Tx>, k: nat, cuts: seq<nat>)
    requires txs != [] && Clean(l, d) && TxsOk(l, d, txs) && k < |CommitWrites(l, d, txs[0])|
    ensures HeaderOk(l, CrashAt(l, d, txs, k))
    ensures Holds(l, d, txs[..Committed(txs, k)], Reboot(l, CrashAt(l, d, txs, k), cuts))
  {
    OneHolds(l, d, txs[0], k, cuts);
    assert txs[..Committed(txs, k)] == if k <= |txs[0].blocks| then [] else [txs[0]];
  }

  lemma CrashAtRest(l: Layout, d: Disk, txs: seq<Tx>, k: nat)
    requires txs != [] && Clean(l, d) && TxsOk(l, d, txs) && |CommitWrites(l, d, txs[0])| <= k
    ensures var ws := CommitWrites(l, d, txs[0]);
            && Clean(l, Apply(d, ws)) && TxsOk(l, Apply(d, ws), txs[1..])
            && CrashAt(l, d, txs, k) == CrashAt(l, Apply(d, ws), txs[1..], k - |ws|)
            && txs[..Committed(txs, k)] == [txs[0]] + txs[1..][..Committed(txs[1..], k - |ws|)]
  {
    CommitWhole(l, d, txs);
    CommittedRest(txs, k);
  }

  lemma CommittedRest(txs: seq<Tx>, k: nat)
    requires txs != [] && 2 * |txs[0].blocks| + 2 <= k
    ensures txs[..Committed(txs, k)] == [txs[0]] + txs[1..][..Committed(txs[1..], k - (2 * |txs[0].blocks| + 2))]
  {
  }

  lemma {:induction false} RunAtomicRest(l: Layout, d: Disk, txs: seq<Tx>, k: nat, cuts: seq<nat>)
    requires txs != [] && Clean(l, d) && TxsOk(l, d, txs) && |CommitWrites(l, d, txs[0])| <= k
    ensures HeaderOk(l, CrashAt(l, d, txs, k))
    ensures Holds(l, d, txs[..Committed(txs, k)], Reboot(l, CrashAt(l, d, txs, k), cuts))
    decreases |txs|, 0
  {
    var ws, rest := CommitWrites(l, d, txs[0]), txs[1..];
    var e, k' := Apply(d, ws), k - |ws|;
    CommitWhole(l, d, txs);
    CrashAtRest(l, d, txs, k);
    RunAtomic(l, e, rest, k', cuts);
    HoldsCons(l, d, e, txs[0], rest[..Committed(rest, k')], Reboot(l, CrashAt(l, e, rest, k'), cuts));
  }

  /** One power cycle: the transactions it commits, the crash, and the cut recoveries. */
  datatype Boot = Boot(txs: seq<Tx>, crash: nat, cuts: seq<nat>)

  ghost predicate BootsOk(l: Layout, d: Disk, boots: seq<Boot>) {
    forall i :: 0 <= i < |boots| ==> TxsOk(l, d, boots[i].txs)
  }

  ghost function AfterBoots(l: Layout, d: Disk, boots: seq<Boot>): (r: Disk)
    requires Clean(l, d) && BootsOk(l, d, boots)
    decreases |boots|
  {
    if boots == [] then d else
      RunAtomic(l, d, boots[0].txs, boots[0].crash, boots[0].cuts);
      AfterBoots(l, Reboot(l, CrashAt(l, d, boots[0].txs, boots[0].crash), boots[0].cuts), boots[1..])
  }

  ghost function Survivors(boots: seq<Boot>): (txs: seq<Tx>)
  {
    if boots == [] then []
    else boots[0].txs[..Committed(boots[0].txs, boots[0].crash)] + Survivors(boots[1..])
  }

  lemma {:induction false} InstallTxsAppend(d: Disk, a: seq<Tx>, b: seq<Tx>)
    requires Sized(a) && Sized(b)
    ensures InstallTxs(d, a + b) == InstallTxs(InstallTxs(d, a), b)
    decreases |a|
  {
    if a == [] {
      assert a + b == b;
    } else {
      assert (a + b)[1..] == a[1..] + b;
      InstallTxsAppend(Install(d, a[0]), a[1..], b);
    }
  }

  /** Durability over any number of power cycles: the home blocks always hold the
      committed transactions of every cycle, in order, and nothing else. */
  lemma {:induction false} BootsDurable(l: Layout, d: Disk, boots: seq<Boot>)
    requires Clean(l, d) && BootsOk(l, d, boots)
    ensures Holds(l, d, Survivors(boots), AfterBoots(l, d, boots))
    decreases |boots|
  {
    if boots != [] {
      var b, rest := boots[0], boots[1..];
      RunAtomic(l, d, b.txs, b.crash, b.cuts);
      var e := Reboot(l, CrashAt(l, d, b.txs, b.crash), b.cuts);
      BootsDurable(l, e, rest);
      HoldsAppend(l, d, e, b.txs[..Committed(b.txs, b.crash)], Survivors(rest), AfterBoots(l, e, rest));
    }
  }

  lemma HoldsAppend(l: Layout, d: Disk, e: Disk, a: seq<Tx>, b: seq<Tx>, r: Disk)
    requires Holds(l, d, a, e) && Holds(l, e, b, r)
    ensures Holds(l, d, a + b, r)
  {
    InstallTxsHome(l, InstallTxs(d, a), e, b);
    InstallTxsAppend(d, a, b);
  }
}
