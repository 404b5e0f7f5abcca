/** Disk blocks and file contents of kernel/fs.c: the bitmap allocator, the block map of an
    inode, truncation, and byte-level reads and writes.

    A ghost owner map says which slot of which inode holds every allocated block, so "held by
    exactly one slot" is built in and the invariant ties it to bitmap, inodes and indirect blocks. */
module FileBlocks {
  const BSIZE: nat := 1024
  const BPB: nat := 8192               // bitmap bits per block
  const IPB: nat := 16                 // inodes per block
  const NDIRECT: nat := 12
  const NINDIRECT: nat := 256          // BSIZE / sizeof(uint)
  const MAXFILE: nat := NDIRECT + NINDIRECT
  const UINT: nat := 0x1_0000_0000

  type Block = seq<int>                // BSIZE bytes

  /** What the inode keeps for its blocks: NDIRECT addresses, the indirect block, the size. */
  datatype Inode = Inode(addrs: seq<nat>, size: nat)

  function Zeros(): (b: Block)
    ensures |b| == BSIZE && forall i :: 0 <= i < BSIZE ==> b[i] == 0
  {
    seq(BSIZE, _ => 0)
  }

  // ----- 32-bit words of a block -----

  function Le32(s: seq<int>): (w: int)
    requires |s| == 4
  {
    s[0] + 256 * s[1] + 65536 * s[2] + 16777216 * s[3]
  }

  function Bytes4(w: nat): (s: seq<int>)
    ensures |s| == 4
  {
    [w % 256, w / 256 % 256, w / 65536 % 256, w / 16777216]
  }

  lemma Le32Bytes(w: nat)
    ensures Le32(Bytes4(w)) == w
  {
    assert w / 65536 == w / 256 / 256 && w / 16777216 == w / 65536 / 256;
  }

  function Word(b: Block, j: nat): (w: int)
    requires 4 * j + 4 <= |b|
  {
    Le32(b[4 * j..4 * j + 4])
  }

  function SetWord(b: Block, j: nat, w: nat): (r: Block)
    requires 4 * j + 4 <= |b|
    ensures |r| == |b|
  {
    b[..4 * j] + Bytes4(w) + b[4 * j + 4..]
  }

  lemma WordAfter(b: Block, j: nat, w: nat, i: nat)
    requires 4 * i + 4 <= |b| && 4 * j + 4 <= |b|
    ensures Word(SetWord(b, j, w), i) == if i == j then w else Word(b, i)
  {
    var r := SetWord(b, j, w);
    if i == j {
      assert r[4 * i..4 * i + 4] == Bytes4(w);
      Le32Bytes(w);
    } else {
      assert r[4 * i..4 * i + 4] == b[4 * i..4 * i + 4];
    }
  }

  // ----- the disk and its owners -----

  /** Slot k of inode ino: a direct address, the indirect block at NDIRECT, and after it the
      entries of the indirect block. */
  datatype Slot = Slot(ino: nat, k: nat)

  const NSLOTS: nat := NDIRECT + 1 + NINDIRECT

  /** The slot of a file's n-th block. */
  function SlotOf(n: nat): (k: nat) { if n < NDIRECT then n else n + 1 }

  /** nmeta: boot block to bitmap, never free.  logged: blocks passed to log_write. */
  datatype View = View(nmeta: nat, bmapstart: nat, inodestart: nat, used: seq<bool>, data: seq<Block>,
                       inodes: seq<Inode>, owner: map<nat, Slot>, logged: set<nat>)
  {
    ghost predicate Shape() {
      && |used| == |data| <= UINT && 0 < nmeta <= |used|
      && (forall b {:trigger data[b]} :: 0 <= b < |data| ==> |data[b]| == BSIZE)
      && (forall i {:trigger inodes[i]} :: 0 <= i < |inodes| ==> |inodes[i].addrs| == NDIRECT + 1)
    }

    /** The address in a slot; an absent indirect block holds only zeros. */
    ghost function Addr(i: nat, k: nat): (a: int)
      requires Shape() && i < |inodes| && k < NSLOTS
    {
      if k <= NDIRECT then inodes[i].addrs[k] else
        var t := inodes[i].addrs[NDIRECT];
        if t == 0 || t >= |data| then 0 else Word(data[t], k - NDIRECT - 1)
    }

    ghost predicate SlotOk(i: nat, k: nat)
      requires Shape() && i < |inodes| && k < NSLOTS
    {
      var a := Addr(i, k);
      a != 0 ==> a >= 0 && a in owner && owner[a] == Slot(i, k)
    }

    ghost predicate OwnerOk(b: nat)
      requires Shape() && b in owner
    {
      && nmeta <= b < |used| && used[b]
      && owner[b].ino < |inodes| && owner[b].k < NSLOTS && Addr(owner[b].ino, owner[b].k) == b
    }

    ghost predicate Ok() {
      && Shape()
      && (forall i: nat, k: nat {:trigger SlotOk(i, k)} :: i < |inodes| && k < NSLOTS ==> SlotOk(i, k))
      && (forall b {:trigger OwnerOk(b)} :: b in owner ==> OwnerOk(b))
      && (forall b {:trigger used[b]} :: 0 <= b < nmeta ==> used[b])
    }

    function Bblock(b: nat): (n: nat) { b / BPB + bmapstart }
    function Iblock(i: nat): (n: nat) { i / IPB + inodestart }
  }

  /** Every slot keeps its address. */
  ghost predicate SameSlots(v: View, w: View)
    requires v.Shape() && w.Shape()
  {
    |w.inodes| == |v.inodes| &&
    forall i: nat, k: nat {:trigger w.Addr(i, k)} :: i < |v.inodes| && k < NSLOTS ==> w.Addr(i, k) == v.Addr(i, k)
  }

  /** balloc's choice of block b: marked and zeroed. */
  ghost function Taken(v: View, b: nat): (w: View)
    requires b < |v.used| && b < |v.data|
  {
    v.(used := v.used[b := true], data := v.data[b := Zeros()], logged := v.logged + {v.Bblock(b), b})
  }

  lemma TakenOk(v: View, b: nat)
    requires v.Ok() && b < |v.used| && !v.used[b]
    ensures Taken(v, b).Ok() && SameSlots(v, Taken(v, b)) && b !in v.owner && b != 0
  {
    var w := Taken(v, b);
    forall c | c in v.owner ensures c != b {
      assert v.OwnerOk(c);
    }
    forall i: nat, k: nat | i < |v.inodes| && k < NSLOTS ensures w.Addr(i, k) == v.Addr(i, k) && w.SlotOk(i, k) {
      assert v.SlotOk(i, k) && v.SlotOk(i, NDIRECT);
    }
    forall c | c in w.owner ensures w.OwnerOk(c) {
      assert v.OwnerOk(c);
      assert w.Addr(v.owner[c].ino, v.owner[c].k) == v.Addr(v.owner[c].ino, v.owner[c].k);
    }
  }

  /** bmap's store of a new block's address in an empty slot. */
  ghost function Placed(v: View, i: nat, k: nat, b: nat): (w: View)
    requires v.Shape() && i < |v.inodes| && k < NSLOTS && (k > NDIRECT ==> HasIndirect(v, i))
  {
    if k <= NDIRECT then
      v.(inodes := v.inodes[i := v.inodes[i].(addrs := v.inodes[i].addrs[k := b])], owner := v.owner[b := Slot(i, k)])
    else
      var t := v.inodes[i].addrs[NDIRECT];
      v.(data := v.data[t := SetWord(v.data[t], k - NDIRECT - 1, b)], owner := v.owner[b := Slot(i, k)],
         logged := v.logged + {t})
  }

  ghost predicate HasIndirect(v: View, i: nat)
    requires v.Shape() && i < |v.inodes|
  {
    0 < v.inodes[i].addrs[NDIRECT] < |v.data|
  }

  /** b is allocated to nobody and holds zeros. */
  ghost predicate Loose(v: View, b: nat)
    requires v.Shape()
  {
    v.nmeta <= b < |v.used| && v.used[b] && b !in v.owner && v.data[b] == Zeros()
  }

  lemma ZeroWords(j: nat)
    requires j < NINDIRECT
    ensures Word(Zeros(), j) == 0
  {
  }

  lemma PlacedAddr(v: View, i: nat, k: nat, b: nat, i': nat, k': nat)
    requires v.Ok() && i < |v.inodes| && k < NSLOTS && (k > NDIRECT ==> HasIndirect(v, i)) && v.Addr(i, k) == 0 && Loose(v, b)
    requires i' < |v.inodes| && k' < NSLOTS
    ensures Placed(v, i, k, b).Shape()
    ensures Placed(v, i, k, b).Addr(i', k') == if i' == i && k' == k then b else v.Addr(i', k')
  {
    assert v.SlotOk(i, NDIRECT) && v.SlotOk(i', NDIRECT);
    if k > NDIRECT && k' > NDIRECT {
      var t := v.inodes[i].addrs[NDIRECT];
      if i' == i { WordAfter(v.data[t], k - NDIRECT - 1, b, k' - NDIRECT - 1); }
    } else if k == NDIRECT && i' == i && k' > NDIRECT {
      ZeroWords(k' - NDIRECT - 1);
    }
  }

  lemma PlacedOk(v: View, i: nat, k: nat, b: nat)
    requires v.Ok() && i < |v.inodes| && k < NSLOTS && (k > NDIRECT ==> HasIndirect(v, i)) && v.Addr(i, k) == 0 && Loose(v, b)
    ensures Placed(v, i, k, b).Ok()
  {
    var w := Placed(v, i, k, b);
    PlacedAddr(v, i, k, b, i, k);
    forall i': nat, k': nat | i' < |w.inodes| && k' < NSLOTS ensures w.SlotOk(i', k') {
      assert v.SlotOk(i', k');
      PlacedAddr(v, i, k, b, i', k');
    }
    forall c | c in w.owner ensures w.OwnerOk(c) {
      if c != b {
        assert v.OwnerOk(c);
        PlacedAddr(v, i, k, b, v.owner[c].ino, v.owner[c].k);
      }
    }
  }

  /** From v to w inode i may have gained blocks; every address and every data block that was
      there is unchanged, and so are the other inodes. */
  ghost predicate Grown(v: View, w: View, i: nat)
    requires v.Shape() && w.Shape()
  {
    && |w.inodes| == |v.inodes| && |w.used| == |v.used|
    && w.nmeta == v.nmeta && w.bmapstart == v.bmapstart && w.inodestart == v.inodestart
    && (forall j: nat {:trigger w.inodes[j]} :: j < |v.inodes| ==> w.inodes[j].size == v.inodes[j].size)
    && (forall j: nat, k: nat {:trigger w.Addr(j, k)} :: j < |v.inodes| && k < NSLOTS && (v.Addr(j, k) != 0 || j != i)
          ==> w.Addr(j, k) == v.Addr(j, k))
    && (forall b {:trigger Steady(v, w, b)} :: b in v.owner && b < |v.data| ==> Steady(v, w, b))
  }

  ghost predicate Steady(v: View, w: View, b: nat)
    requires b in v.owner && b < |v.data|
  {
    b in w.owner && w.owner[b] == v.owner[b] && b < |w.data| && (v.owner[b].k != NDIRECT ==> w.data[b] == v.data[b])
  }

  lemma GrownRefl(v: View, i: nat)
    requires v.Ok()
    ensures Grown(v, v, i)
  {
  }

  lemma GrownTrans(u: View, v: View, w: View, i: nat)
    requires u.Ok() && v.Ok() && w.Ok() && Grown(u, v, i) && Grown(v, w, i)
    ensures Grown(u, w, i)
  {
    forall b | b in u.owner && b < |u.data| ensures Steady(u, w, b) {
      assert Steady(u, v, b) && Steady(v, w, b);
    }
    forall j: nat, k: nat | j < |u.inodes| && k < NSLOTS && (u.Addr(j, k) != 0 || j != i) ensures w.Addr(j, k) == u.Addr(j, k) {
      assert v.Addr(j, k) == u.Addr(j, k);
    }
    forall j: nat | j < |u.inodes| ensures w.inodes[j].size == u.inodes[j].size {
      assert v.inodes[j].size == u.inodes[j].size;
    }
  }

  /** balloc followed by bmap's store. */
  lemma GrownByOne(v: View, i: nat, k: nat, b: nat)
    requires v.Ok() && i < |v.inodes| && k < NSLOTS && (k > NDIRECT ==> HasIndirect(v, i)) && v.Addr(i, k) == 0
    requires b < |v.used| && !v.used[b]
    ensures var t := Taken(v, b); t.Ok() && (k > NDIRECT ==> HasIndirect(t, i))
    ensures var w := Placed(Taken(v, b), i, k, b);
            && w.Ok() && Grown(v, w, i) && w.Addr(i, k) == b && b != 0 && b < |w.data|
            && b in w.owner && w.owner[b] == Slot(i, k) && w.data[b] == Zeros()
  {
    TakenOk(v, b);
    var t := Taken(v, b);
    assert t.Addr(i, k) == v.Addr(i, k);
    assert v.SlotOk(i, NDIRECT);
    PlacedOk(t, i, k, b);
    PlacedAddr(t, i, k, b, i, k);
    var w := Placed(t, i, k, b);
    forall j: nat, m: nat | j < |v.inodes| && m < NSLOTS && (v.Addr(j, m) != 0 || j != i) ensures w.Addr(j, m) == v.Addr(j, m) {
      PlacedAddr(t, i, k, b, j, m);
      assert t.Addr(j, m) == v.Addr(j, m);
    }
    forall c | c in v.owner && c < |v.data| ensures Steady(v, w, c) {
      assert v.OwnerOk(c);
    }
  }

  // ----- the account of a transaction -----

  /** Slot k is the indirect block or that of a file block in m .. n. */
  ghost predicate InRange(k: nat, m: nat, n: nat) {
    k == NDIRECT || (k < NDIRECT && m <= k < n) || (k > NDIRECT && m <= k - 1 < n)
  }

  /** From v to w block b is left alone, or becomes one of inode i's own in that range; a change of
      its bitmap bit or its contents is logged. */
  ghost predicate Explained(v: View, w: View, i: nat, m: nat, n: nat, b: nat)
    requires b < |v.used| && b < |w.used| && b < |v.data| && b < |w.data|
  {
    && (w.used[b] != v.used[b] ==> w.used[b] && b in w.owner && w.Bblock(b) in w.logged)
    && (b in v.owner ==> b in w.owner && w.owner[b] == v.owner[b])
    && (b in w.owner && b !in v.owner ==> w.owner[b].ino == i && InRange(w.owner[b].k, m, n) && !v.used[b])
    && (w.data[b] != v.data[b] ==> b in w.logged)
  }

  /** Every change from v to w is inode i growing in the range m .. n, and is logged. */
  ghost predicate Accounted(v: View, w: View, i: nat, m: nat, n: nat) {
    && |w.used| == |v.used| == |v.data| == |w.data| && w.bmapstart == v.bmapstart && v.logged <= w.logged
    && forall b: nat {:trigger Explained(v, w, i, m, n, b)} :: b < |v.used| ==> Explained(v, w, i, m, n, b)
  }

  lemma AccountedRefl(v: View, i: nat, m: nat, n: nat)
    requires v.Ok()
    ensures Accounted(v, v, i, m, n)
  {
  }

  lemma AccountedTrans(u: View, v: View, w: View, i: nat, m: nat, n: nat)
    requires u.Ok() && v.Ok() && w.Ok() && Accounted(u, v, i, m, n) && Accounted(v, w, i, m, n)
    ensures Accounted(u, w, i, m, n)
  {
    forall b: nat | b < |u.used| ensures Explained(u, w, i, m, n, b) {
      assert Explained(u, v, i, m, n, b) && Explained(v, w, i, m, n, b);
      if b in v.owner { assert v.OwnerOk(b); }
    }
  }

  lemma AccountedWider(v: View, w: View, i: nat, m: nat, n: nat, m': nat, n': nat)
    requires Accounted(v, w, i, m, n) && m' <= m && n <= n'
    ensures Accounted(v, w, i, m', n')
  {
    forall b: nat | b < |v.used| ensures Explained(v, w, i, m', n', b) { assert Explained(v, w, i, m, n, b); }
  }

  lemma AccountedOne(v: View, i: nat, k: nat, b: nat, m: nat, n: nat)
    requires v.Ok() && i < |v.inodes| && k < NSLOTS && b < |v.used| && !v.used[b] && b !in v.owner && InRange(k, m, n)
    requires Taken(v, b).Shape() && (k > NDIRECT ==> HasIndirect(Taken(v, b), i))
    ensures Accounted(v, Placed(Taken(v, b), i, k, b), i, m, n)
  {
    var w := Placed(Taken(v, b), i, k, b);
    forall c: nat | c < |v.used| ensures Explained(v, w, i, m, n, c) {
    }
  }

  lemma AccountedStore(v: View, i: nat, b: nat, data: Block, m: nat, n: nat)
    requires v.Ok() && b < |v.data|
    ensures Accounted(v, Stored(v, b, data), i, m, n)
  {
    forall c: nat | c < |v.used| ensures Explained(v, Stored(v, b, data), i, m, n, c) {
    }
  }

  lemma AccountedResize(v: View, i: nat, size: nat, m: nat, n: nat)
    requires v.Ok() && i < |v.inodes|
    ensures Accounted(v, Resized(v, i, size), i, m, n)
  {
    forall c: nat | c < |v.used| ensures Explained(v, Resized(v, i, size), i, m, n, c) {
    }
  }

  /** All bitmap bits fit one block, so every allocation logs the same one. */
  ghost predicate OneBitmapBlock(v: View) { |v.used| <= BPB }

  lemma BblockSame(v: View, b: nat)
    requires OneBitmapBlock(v) && b < |v.used|
    ensures v.Bblock(b) == v.bmapstart
  {
  }

  /** The blocks that bmap and writei may log while they work on file blocks m .. n of inode i:
      the bitmap block, the indirect block, and the data blocks themselves. */
  ghost function Touched(v: View, i: nat, m: nat, n: nat): (s: set<nat>)
    requires v.Ok() && i < |v.inodes| && n <= MAXFILE
  {
    {v.bmapstart} + (if v.inodes[i].addrs[NDIRECT] == 0 then {} else {v.inodes[i].addrs[NDIRECT]}) +
    BlocksOf(v, i, m, n)
  }

  ghost function BlocksOf(v: View, i: nat, m: nat, n: nat): (s: set<nat>)
    requires v.Ok() && i < |v.inodes| && n <= MAXFILE
    decreases n
  {
    if n <= m then {} else
      assert v.SlotOk(i, SlotOf(n - 1));
      var a := v.Addr(i, SlotOf(n - 1));
      BlocksOf(v, i, m, n - 1) + if a == 0 then {} else {a as nat}
  }

  lemma {:induction false} BlocksOfCard(v: View, i: nat, m: nat, n: nat)
    requires v.Ok() && i < |v.inodes| && n <= MAXFILE && m <= n
    ensures |BlocksOf(v, i, m, n)| <= n - m
    decreases n
  {
    if m < n { BlocksOfCard(v, i, m, n - 1); }
  }

  // ----- file contents -----

  /** The first |s| bytes of file i are s, and no block below that is missing. */
  ghost predicate Holds(v: View, i: nat, s: seq<int>)
    requires v.Shape() && i < |v.inodes|
  {
    && |s| <= MAXFILE * BSIZE
    && forall p: nat {:trigger ByteIs(v, i, p, s)} :: p < |s| ==> ByteIs(v, i, p, s)
  }

  ghost predicate ByteIs(v: View, i: nat, p: nat, s: seq<int>)
    requires v.Shape() && i < |v.inodes| && p < |s| <= MAXFILE * BSIZE
  {
    var a := v.Addr(i, FileSlot(p));
    0 < a < |v.data| && v.data[a][p % BSIZE] == s[p]
  }

  /** The slot of the block that holds byte p of a file. */
  function FileSlot(p: nat): (k: nat)
    requires p < MAXFILE * BSIZE
    ensures k < NSLOTS && k != NDIRECT
  {
    assert p / BSIZE < MAXFILE;
    SlotOf(p / BSIZE)
  }

  /** File i is exactly s. */
  ghost predicate FileIs(v: View, i: nat, s: seq<int>)
    requires v.Shape() && i < |v.inodes|
  {
    v.inodes[i].size == |s| && Holds(v, i, s)
  }

  lemma GrownHolds(v: View, w: View, i: nat, j: nat, s: seq<int>)
    requires v.Ok() && w.Ok() && Grown(v, w, i) && j < |v.inodes| && Holds(v, j, s)
    ensures Holds(w, j, s)
  {
    forall p: nat | p < |s| ensures ByteIs(w, j, p, s) {
      assert ByteIs(v, j, p, s);
      var k := FileSlot(p);
      assert v.SlotOk(j, k) && w.Addr(j, k) == v.Addr(j, k);
      assert Steady(v, w, v.Addr(j, k));
    }
  }

  /** A store to a data block. */
  ghost function Stored(v: View, b: nat, data: Block): (w: View)
    requires b < |v.data|
  {
    v.(data := v.data[b := data], logged := v.logged + {b})
  }

  lemma StoredOk(v: View, b: nat, data: Block)
    requires v.Ok() && b in v.owner && v.owner[b].k != NDIRECT && |data| == BSIZE
    ensures b < |v.data| && Stored(v, b, data).Ok() && SameSlots(v, Stored(v, b, data))
  {
    assert v.OwnerOk(b);
    var w := Stored(v, b, data);
    forall i: nat, k: nat | i < |v.inodes| && k < NSLOTS ensures w.Addr(i, k) == v.Addr(i, k) && w.SlotOk(i, k) {
      assert v.SlotOk(i, k) && v.SlotOk(i, NDIRECT);
    }
    forall c | c in w.owner ensures w.OwnerOk(c) {
      assert v.OwnerOk(c);
      assert w.Addr(v.owner[c].ino, v.owner[c].k) == v.Addr(v.owner[c].ino, v.owner[c].k);
    }
  }

  /** From v to w nothing of any inode but i has changed, and i has lost nothing. */
  ghost predicate OthersSame(v: View, w: View, i: nat)
    requires v.Shape() && w.Shape()
  {
    && |w.inodes| == |v.inodes| && |w.used| == |v.used|
    && w.nmeta == v.nmeta && w.bmapstart == v.bmapstart && w.inodestart == v.inodestart
    && (forall j: nat {:trigger w.inodes[j]} :: j < |v.inodes| && j != i ==> w.inodes[j].size == v.inodes[j].size)
    && (forall j: nat, k: nat {:trigger w.Addr(j, k)} :: j < |v.inodes| && k < NSLOTS && (v.Addr(j, k) != 0 || j != i)
          ==> w.Addr(j, k) == v.Addr(j, k))
    && (forall b {:trigger Spared(v, w, i, b)} :: b in v.owner && b < |v.data| ==> Spared(v, w, i, b))
  }

  ghost predicate Spared(v: View, w: View, i: nat, b: nat)
    requires b in v.owner && b < |v.data|
  {
    && b in w.owner && w.owner[b] == v.owner[b] && b < |w.data|
    && (v.owner[b].k != NDIRECT && v.owner[b].ino != i ==> w.data[b] == v.data[b])
  }

  lemma OthersTrans(u: View, v: View, w: View, i: nat)
    requires u.Ok() && v.Ok() && w.Ok() && OthersSame(u, v, i) && OthersSame(v, w, i)
    ensures OthersSame(u, w, i)
  {
    forall b | b in u.owner && b < |u.data| ensures Spared(u, w, i, b) {
      assert Spared(u, v, i, b) && Spared(v, w, i, b);
    }
    forall j: nat, k: nat | j < |u.inodes| && k < NSLOTS && (u.Addr(j, k) != 0 || j != i) ensures w.Addr(j, k) == u.Addr(j, k) {
      assert v.Addr(j, k) == u.Addr(j, k);
    }
    forall j: nat | j < |u.inodes| && j != i ensures w.inodes[j].size == u.inodes[j].size {
      assert v.inodes[j].size == u.inodes[j].size;
    }
  }

  /** Growing inode i and then storing into one of its data blocks spares all others. */
  lemma OthersByStore(v: View, w: View, i: nat, b: nat, data: Block)
    requires v.Ok() && w.Ok() && Grown(v, w, i) && b in w.owner && w.owner[b].ino == i && w.owner[b].k != NDIRECT
    requires |data| == BSIZE && b < |w.data|
    ensures OthersSame(v, w, i) && Stored(w, b, data).Ok() && OthersSame(v, Stored(w, b, data), i)
  {
    StoredOk(w, b, data);
    var x := Stored(w, b, data);
    forall c | c in v.owner && c < |v.data| ensures Spared(v, w, i, c) && Spared(v, x, i, c) {
      assert Steady(v, w, c);
    }
    forall j: nat, k: nat | j < |v.inodes| && k < NSLOTS && (v.Addr(j, k) != 0 || j != i) ensures x.Addr(j, k) == v.Addr(j, k) {
      assert x.Addr(j, k) == w.Addr(j, k) && w.Addr(j, k) == v.Addr(j, k);
    }
    forall j: nat | j < |v.inodes| ensures x.inodes[j].size == v.inodes[j].size && w.inodes[j].size == v.inodes[j].size {
      assert w.inodes[j].size == v.inodes[j].size;
    }
  }

  lemma OthersByGrowth(v: View, w: View, i: nat)
    requires v.Ok() && w.Ok() && Grown(v, w, i)
    ensures OthersSame(v, w, i)
  {
    forall c | c in v.owner && c < |v.data| ensures Spared(v, w, i, c) {
      assert Steady(v, w, c);
    }
  }

  /** Every other file keeps its bytes. */
  lemma OthersHold(v: View, w: View, i: nat, j: nat, s: seq<int>)
    requires v.Ok() && w.Ok() && OthersSame(v, w, i) && j < |v.inodes| && j != i && Holds(v, j, s)
    ensures Holds(w, j, s) && w.inodes[j].size == v.inodes[j].size
  {
    assert w.inodes[j].size == v.inodes[j].size;
    forall p: nat | p < |s| ensures ByteIs(w, j, p, s) {
      assert ByteIs(v, j, p, s);
      assert v.SlotOk(j, FileSlot(p)) && w.Addr(j, FileSlot(p)) == v.Addr(j, FileSlot(p));
      assert Spared(v, w, i, v.Addr(j, FileSlot(p)));
    }
  }

  lemma {:induction false} BlocksOfOthers(v: View, w: View, i: nat, m: nat, n: nat)
    requires v.Ok() && w.Ok() && i < |v.inodes| && n <= MAXFILE && OthersSame(v, w, i)
    ensures BlocksOf(v, i, m, n) <= BlocksOf(w, i, m, n)
    decreases n
  {
    if m < n {
      BlocksOfOthers(v, w, i, m, n - 1);
      assert v.Addr(i, SlotOf(n - 1)) != 0 ==> w.Addr(i, SlotOf(n - 1)) == v.Addr(i, SlotOf(n - 1));
    }
  }

  lemma {:induction false} BlocksOfWider(v: View, i: nat, l: nat, m: nat, n: nat, o: nat)
    requires v.Ok() && i < |v.inodes| && l <= m && n <= o <= MAXFILE
    ensures BlocksOf(v, i, m, n) <= BlocksOf(v, i, l, o)
    decreases o
  {
    hide View.Ok, View.Addr;
    if n < o {
      BlocksOfWider(v, i, l, m, n, o - 1);
    } else if m < n {
      BlocksOfWider(v, i, l, m, n - 1, o - 1);
    }
  }

  /** What was touched stays within what is touched over a wider range, later. */
  lemma TouchedWider(v: View, w: View, i: nat, l: nat, m: nat, n: nat, o: nat)
    requires v.Ok() && w.Ok() && i < |v.inodes| && l <= m && n <= o <= MAXFILE && OthersSame(v, w, i)
    ensures Touched(v, i, m, n) <= Touched(w, i, l, o)
  {
    BlocksOfWider(v, i, l, m, n, o);
    BlocksOfOthers(v, w, i, l, o);
    assert v.Addr(i, NDIRECT) != 0 ==> w.Addr(i, NDIRECT) == v.Addr(i, NDIRECT);
  }

  /** The end of writei: a new size, and iupdate's log_write of the inode block. */
  ghost function Resized(v: View, i: nat, size: nat): (w: View)
    requires i < |v.inodes|
  {
    v.(inodes := v.inodes[i := v.inodes[i].(size := size)], logged := v.logged + {v.Iblock(i)})
  }

  lemma ResizedOk(v: View, i: nat, size: nat)
    requires v.Ok() && i < |v.inodes|
    ensures var w := Resized(v, i, size); w.Ok() && SameSlots(v, w) && OthersSame(v, w, i)
  {
    var w := Resized(v, i, size);
    forall j: nat, k: nat | j < |v.inodes| && k < NSLOTS ensures w.Addr(j, k) == v.Addr(j, k) && w.SlotOk(j, k) {
      assert v.SlotOk(j, k);
    }
    forall b | b in w.owner ensures w.OwnerOk(b) {
      assert v.OwnerOk(b);
      assert w.Addr(v.owner[b].ino, v.owner[b].k) == v.Addr(v.owner[b].ino, v.owner[b].k);
    }
  }

  lemma ResizedHolds(v: View, i: nat, size: nat, s: seq<int>)
    requires v.Ok() && i < |v.inodes| && Holds(v, i, s)
    ensures Resized(v, i, size).Ok() && Holds(Resized(v, i, size), i, s)
  {
    ResizedOk(v, i, size);
    var w := Resized(v, i, size);
    forall p: nat | p < |s| ensures ByteIs(w, i, p, s) {
      assert ByteIs(v, i, p, s);
      assert w.Addr(i, FileSlot(p)) == v.Addr(i, FileSlot(p));
    }
  }

  /** One past the last file block that bytes off .. off+n fall into. */
  function EndBlock(off: nat, n: nat): (e: nat)
    ensures off / BSIZE <= e && (off + n <= MAXFILE * BSIZE ==> e <= MAXFILE)
    ensures n <= 3 * BSIZE ==> e <= off / BSIZE + 4
  {
    (off + n + BSIZE - 1) / BSIZE
  }

  /** A write of at most three blocks' worth of bytes, at any offset, logs at most seven blocks. */
  lemma SevenBlocks(v: View, i: nat, off: nat, n: nat)
    requires v.Ok() && i < |v.inodes| && off + n <= MAXFILE * BSIZE && n <= 3 * BSIZE
    ensures |Touched(v, i, off / BSIZE, EndBlock(off, n)) + {v.Iblock(i)}| <= 7
  {
    BlocksOfCard(v, i, off / BSIZE, EndBlock(off, n));
  }

  lemma SpliceTwice(s: seq<int>, off: nat, a: seq<int>, b: seq<int>)
    requires off <= |s|
    ensures off + |a| <= |Splice(s, off, a)| && Splice(Splice(s, off, a), off + |a|, b) == Splice(s, off, a + b)
  {
  }

  /** s with src written over it from off on. */
  function Splice(s: seq<int>, off: nat, src: seq<int>): (r: seq<int>)
    requires off <= |s|
    ensures |r| == if off + |src| <= |s| then |s| else off + |src|
  {
    s[..off] + src + if off + |src| <= |s| then s[off + |src|..] else []
  }

  /** The part of a block that one turn of writei's loop overwrites. */
  function Chunk(data: Block, at: nat, src: seq<int>): (r: Block)
    requires |data| == BSIZE && at + |src| <= BSIZE
    ensures |r| == BSIZE
  {
    data[..at] + src + data[at + |src|..]
  }

  /** One turn of writei's loop, once bmap has supplied the block. */
  lemma ChunkHolds(v: View, i: nat, s: seq<int>, off: nat, src: seq<int>)
    requires v.Ok() && i < |v.inodes| && Holds(v, i, s) && off <= |s| && off + |src| <= MAXFILE * BSIZE
    requires 0 < |src| <= BSIZE - off % BSIZE
    requires v.Addr(i, FileSlot(off)) != 0
    ensures var b := v.Addr(i, FileSlot(off));
            && 0 < b < |v.data| && b in v.owner && v.owner[b].k != NDIRECT
            && var w := Stored(v, b, Chunk(v.data[b], off % BSIZE, src));
               w.Ok() && Holds(w, i, Splice(s, off, src))
  {
    var b := v.Addr(i, FileSlot(off));
    assert v.SlotOk(i, FileSlot(off)) && v.OwnerOk(b);
    var w := Stored(v, b, Chunk(v.data[b], off % BSIZE, src));
    StoredOk(v, b, Chunk(v.data[b], off % BSIZE, src));
    var r := Splice(s, off, src);
    forall p: nat | p < |r| ensures ByteIs(w, i, p, r) {
      assert w.Addr(i, FileSlot(p)) == v.Addr(i, FileSlot(p));
      if off <= p < off + |src| {
        SameBlock(off, p, |src|);
      } else {
        assert r[p] == s[p] && ByteIs(v, i, p, s);
        if p / BSIZE == off / BSIZE { OutsideChunk(v.data[b], off, p, src); }
        assert v.SlotOk(i, FileSlot(p));
      }
    }
  }

  lemma SameBlock(off: nat, p: nat, m: nat)
    requires off <= p < off + m && m <= BSIZE - off % BSIZE
    ensures p / BSIZE == off / BSIZE && p % BSIZE == off % BSIZE + (p - off)
  {
  }

  lemma OutsideChunk(data: Block, off: nat, p: nat, src: seq<int>)
    requires |data| == BSIZE && p / BSIZE == off / BSIZE && !(off <= p < off + |src|) && off % BSIZE + |src| <= BSIZE
    ensures Chunk(data, off % BSIZE, src)[p % BSIZE] == data[p % BSIZE]
  {
    assert p - off == p % BSIZE - off % BSIZE;
  }

  // ----- truncation -----

  /** The bitmap with the blocks in the given slots of inode i freed. */
  ghost function Unused(v: View, i: nat, done: set<nat>): (u: seq<bool>)
    ensures |u| == |v.used|
  {
    seq(|v.used|, b requires 0 <= b < |v.used| => v.used[b] && !(b in v.owner && v.owner[b].ino == i && v.owner[b].k in done))
  }

  lemma UnusedStep(v: View, i: nat, done: set<nat>, k: nat)
    requires v.Ok() && i < |v.inodes| && k < NSLOTS && k !in done
    ensures var a := v.Addr(i, k);
            if a == 0 then Unused(v, i, done + {k}) == Unused(v, i, done)
            else && v.nmeta <= a < |v.used| && Unused(v, i, done)[a]
                 && Unused(v, i, done + {k}) == Unused(v, i, done)[a := false]
  {
    assert v.SlotOk(i, k);
    var a := v.Addr(i, k);
    if a != 0 { assert v.OwnerOk(a); }
    forall b | 0 <= b < |v.used|
      ensures Unused(v, i, done + {k})[b] == if a != 0 && b == a then false else Unused(v, i, done)[b]
    {
      if b in v.owner { assert v.OwnerOk(b); }
    }
  }

  /** itrunc: all of inode i's blocks are free, and only those. */
  ghost function Truncated(v: View, i: nat): (w: View)
    requires i < |v.inodes|
  {
    v.(used := seq(|v.used|, b requires 0 <= b < |v.used| => v.used[b] && !(b in v.owner && v.owner[b].ino == i)),
       inodes := v.inodes[i := Inode(seq(NDIRECT + 1, _ => 0), 0)],
       owner := map b | b in v.owner && v.owner[b].ino != i :: v.owner[b],
       logged := v.logged + (set b | b in v.owner && v.owner[b].ino == i :: v.Bblock(b)) + {v.Iblock(i)})
  }

  lemma TruncatedOk(v: View, i: nat)
    requires v.Ok() && i < |v.inodes|
    ensures Truncated(v, i).Ok()
    ensures var w := Truncated(v, i);
            forall j: nat, k: nat {:trigger w.Addr(j, k)} :: j < |v.inodes| && k < NSLOTS ==>
              w.Addr(j, k) == if j == i then 0 else v.Addr(j, k)
  {
    var w := Truncated(v, i);
    forall j: nat, k: nat | j < |v.inodes| && k < NSLOTS
      ensures w.Addr(j, k) == (if j == i then 0 else v.Addr(j, k)) && w.SlotOk(j, k)
    {
      assert v.SlotOk(j, k);
    }
    forall b | b in w.owner ensures w.OwnerOk(b) {
      assert v.OwnerOk(b);
      assert w.Addr(v.owner[b].ino, v.owner[b].k) == v.Addr(v.owner[b].ino, v.owner[b].k);
    }
    forall b | b in v.owner ensures v.nmeta <= b {
      assert v.OwnerOk(b);
    }
    forall b | 0 <= b < w.nmeta ensures w.used[b] {
      assert v.used[b];
    }
  }

  /** Every block that truncation changes, bitmap or inode, is logged; data blocks stay. */
  lemma TruncatedLogged(v: View, i: nat, b: nat)
    requires v.Ok() && i < |v.inodes| && b < |v.used|
    ensures var w := Truncated(v, i);
            && w.data == v.data && w.Iblock(i) in w.logged && v.logged <= w.logged
            && (w.used[b] != v.used[b] <==> b in v.owner && v.owner[b].ino == i)
            && (w.used[b] != v.used[b] ==> !w.used[b] && w.Bblock(b) in w.logged)
  {
    if b in v.owner { assert v.OwnerOk(b); }
  }

  /** Truncating one file leaves the bytes of every other. */
  lemma TruncatedHolds(v: View, i: nat, j: nat, s: seq<int>)
    requires v.Ok() && i < |v.inodes| && j < |v.inodes| && j != i && Holds(v, j, s)
    ensures Truncated(v, i).Ok() && Holds(Truncated(v, i), j, s) && FileIs(Truncated(v, i), i, [])
    ensures Truncated(v, i).inodes[j] == v.inodes[j]
  {
    TruncatedOk(v, i);
    var w := Truncated(v, i);
    forall p: nat | p < |s| ensures ByteIs(w, j, p, s) {
      assert ByteIs(v, j, p, s);
      assert w.Addr(j, FileSlot(p)) == v.Addr(j, FileSlot(p));
    }
  }

  /** The sound states of a file system. */
  type Sound = v: View | v.Ok() ghost witness Empty()

  ghost function Empty(): (v: View)
    ensures v.Ok()
  {
    View(1, 0, 0, [true], [Zeros()], [], map[], {})
  }
}
