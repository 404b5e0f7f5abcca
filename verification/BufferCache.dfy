/** The buffer cache of kernel/bio.c.

    Buffers live in a fixed array, so the pointers of the LRU list are indices;
    index `nbuf` is the list head.  Each method is one section that the source
    runs under bcache.lock or under a buffer's sleep-lock, so any interleaving of
    processes is a sequence of calls, and what the methods keep holds in all of them. */
module BufferCache {
  import opened CrashLog
  import Counting

  const ROOTDEV: nat := 1

  datatype Buf = Buf(valid: bool, dev: nat, blockno: nat, refcnt: nat, prev: nat, next: nat,
                     data: Block, locked: bool)

  datatype Option<T> = None | Some(value: T)

  // ----- the prev/next ring -----

  /** Nothing but list links differs. */
  predicate SameButLinks(x: Buf, y: Buf) {
    x.(prev := 0, next := 0) == y.(prev := 0, next := 0)
  }

  predicate Injective(s: seq<nat>) {
    forall i, j :: 0 <= i < j < |s| ==> s[i] != s[j]
  }

  /** y follows x in the list, both ways round. */
  predicate Joined(b: seq<Buf>, x: nat, y: nat) {
    x < |b| && y < |b| && b[x].next == y && b[y].prev == x
  }

  /** Following next from s[0] visits s in order and returns; prev goes the other way. */
  predicate Linked(b: seq<Buf>, s: seq<nat>) {
    && 0 < |s|
    && Injective(s)
    && (forall i :: 0 < i < |s| ==> Joined(b, s[i - 1], s[i]))
    && Joined(b, s[|s| - 1], s[0])
  }

  /** The two stores that take x out of the ring. */
  function Unlink(b: seq<Buf>, x: nat): (r: seq<Buf>)
    requires x < |b| && b[x].next < |b| && b[x].prev < |b|
    ensures |r| == |b| && forall i :: 0 <= i < |b| ==> SameButLinks(b[i], r[i])
  {
    var b1 := b[b[x].next := b[b[x].next].(prev := b[x].prev)];
    b1[b[x].prev := b1[b[x].prev].(next := b[x].next)]
  }

  /** The four stores that put x right after the head. */
  function PushFront(b: seq<Buf>, head: nat, x: nat): (r: seq<Buf>)
    requires x < |b| && head < |b| && x != head && b[head].next < |b|
    ensures |r| == |b| && forall i :: 0 <= i < |b| ==> SameButLinks(b[i], r[i])
  {
    var b1 := b[x := b[x].(next := b[head].next, prev := head)];
    var b2 := b1[b1[head].next := b1[b1[head].next].(prev := x)];
    b2[head := b2[head].(next := x)]
  }

  lemma UnlinkLinked(b: seq<Buf>, s: seq<nat>, k: nat)
    requires Linked(b, s) && 0 < k < |s|
    ensures s[k] < |b| && b[s[k]].next < |b| && b[s[k]].prev < |b|
    ensures Linked(Unlink(b, s[k]), s[..k] + s[k + 1..])
  {
    var x, t := s[k], s[..k] + s[k + 1..];
    var p, n := s[k - 1], if k + 1 < |s| then s[k + 1] else s[0];
    assert Joined(b, p, x) && Joined(b, x, n);
    var r := Unlink(b, x);
    assert Joined(r, p, n);
    forall i | 0 < i < |t| ensures Joined(r, t[i - 1], t[i]) {
      if i < k {
        assert Joined(b, s[i - 1], s[i]) && s[i - 1] != p && s[i] != n;
      } else if k < i {
        assert Joined(b, s[i], s[i + 1]) && s[i] != p && s[i + 1] != n;
      }
    }
    if k + 1 < |s| {
      assert Joined(b, s[|s| - 1], s[0]) && s[|s| - 1] != p && s[0] != n;
    }
  }

  lemma PushFrontLinked(b: seq<Buf>, s: seq<nat>, x: nat)
    requires Linked(b, s) && x < |b| && x !in s
    ensures s[0] < |b| && b[s[0]].next < |b|
    ensures Linked(PushFront(b, s[0], x), [s[0], x] + s[1..])
  {
    var h, t := s[0], [s[0], x] + s[1..];
    var n := if |s| == 1 then h else s[1];
    assert Joined(b, h, n);
    var r := PushFront(b, h, x);
    assert Joined(r, h, x) && Joined(r, x, n);
    forall i | 0 < i < |t| ensures Joined(r, t[i - 1], t[i]) {
      if 2 < i {
        assert Joined(b, s[i - 2], s[i - 1]) && s[i - 2] != h && s[i - 1] != n;
      }
    }
    if |s| > 1 {
      assert Joined(b, s[|s| - 1], h) && s[|s| - 1] != h && h != n;
    }
  }

  // ----- recency order -----

  function Position(s: seq<nat>, x: nat): (k: nat)
    requires x in s
    ensures k < |s| && s[k] == x
  {
    if s[0] == x then 0 else 1 + Position(s[1..], x)
  }

  function MoveFront(s: seq<nat>, x: nat): (r: seq<nat>)
    requires x in s
    ensures |r| == |s|
  {
    var k := Position(s, x);
    [x] + s[..k] + s[k + 1..]
  }

  /** binit leaves the last buffer at the front. */
  function Initial(n: nat): (r: seq<nat>)
    ensures |r| == n
  {
    seq(n, i requires 0 <= i < n => n - 1 - i)
  }

  ghost predicate Permutes(s: seq<nat>, n: nat) {
    |s| == n && Injective(s) && (forall i :: 0 <= i < |s| ==> s[i] < n) && forall x: nat :: x < n ==> x in s
  }

  /** The list order that a history of final releases produces. */
  ghost function OrderOf(n: nat, releases: seq<nat>): (r: seq<nat>)
    requires forall i :: 0 <= i < |releases| ==> releases[i] < n
    ensures Permutes(r, n)
  {
    if releases == [] then
      InitialPermutes(n);
      Initial(n)
    else
      var s := OrderOf(n, releases[..|releases| - 1]);
      MoveFrontPermutes(s, n, releases[|releases| - 1]);
      MoveFront(s, releases[|releases| - 1])
  }

  lemma InitialPermutes(n: nat)
    ensures Permutes(Initial(n), n)
  {
    forall x: nat | x < n ensures x in Initial(n) {
      assert Initial(n)[n - 1 - x] == x;
    }
  }

  lemma MoveFrontPermutes(s: seq<nat>, n: nat, x: nat)
    requires Permutes(s, n) && x < n
    ensures Permutes(MoveFront(s, x), n)
  {
    var k, r := Position(s, x), MoveFront(s, x);
    forall y: nat | y < n ensures y in r {
      var p := Position(s, y);
      assert p < k ==> r[p + 1] == y;
      assert p > k ==> r[p] == y;
    }
  }

  /** One more than the index of x's last final release; 0 when it has had none. */
  function LastRelease(releases: seq<int>, x: int): (t: nat)
  {
    if releases == [] then 0
    else if releases[|releases| - 1] == x then |releases|
    else LastRelease(releases[..|releases| - 1], x)
  }

  lemma {:induction false} LastReleaseBound(releases: seq<int>, x: int)
    ensures LastRelease(releases, x) <= |releases|
  {
    if releases != [] { LastReleaseBound(releases[..|releases| - 1], x); }
  }

  /** Where the element after the front at j came from. */
  function Shifted(s: seq<nat>, x: nat, j: nat): (i: nat)
    requires x in s && 0 < j
  {
    if j <= Position(s, x) then j - 1 else j
  }

  lemma MoveFrontAt(s: seq<nat>, n: nat, x: nat, j: nat)
    requires Permutes(s, n) && x < n && 0 < j < n
    ensures x in s && MoveFront(s, x)[0] == x
    ensures MoveFront(s, x)[j] == s[Shifted(s, x, j)] != x && Shifted(s, x, j) < n
    ensures forall i :: 0 < i < j ==> Shifted(s, x, i) < Shifted(s, x, j)
  {
  }

  /** The list is sorted by recency: whoever is nearer the front was released later,
      unless neither has been released since boot. */
  lemma {:induction false} OrderIsRecency(n: nat, releases: seq<nat>, i: nat, j: nat)
    requires forall i :: 0 <= i < |releases| ==> releases[i] < n
    requires i < j < n
    ensures var s := OrderOf(n, releases);
            || LastRelease(releases, s[i]) > LastRelease(releases, s[j])
            || (LastRelease(releases, s[i]) == 0 == LastRelease(releases, s[j]) && s[i] > s[j])
    decreases |releases|
  {
    if releases != [] {
      var init, x := releases[..|releases| - 1], releases[|releases| - 1];
      var before, s := OrderOf(n, init), OrderOf(n, releases);
      hide OrderOf, Permutes;
      MoveFrontAt(before, n, x, j);
      if i == 0 {
        LastReleaseBound(init, s[j]);
      } else {
        MoveFrontAt(before, n, x, i);
        OrderIsRecency(n, init, Shifted(before, x, i), Shifted(before, x, j));
      }
    }
  }

  /** What the cache means: the buffers, which of them holds a cached block, the outstanding
      pins (bpin minus bunpin) and uses (bget minus brelse) of each block, the contents last
      logged or written (truth), the disk with every write it received, and the buffers'
      final releases in order. */
  datatype View = View(n: nat, bufs: seq<Buf>, slot: map<nat, nat>, pinned: multiset<nat>,
                       inUse: multiset<nat>, truth: seq<Block>, disk: Disk, trace: seq<Write>,
                       releases: seq<nat>)
  {
    ghost predicate BufOk(i: nat)
      requires i < |bufs|
    {
      if bufs[i].dev == 0 then bufs[i].refcnt == 0 && !bufs[i].locked
      else bufs[i].dev == ROOTDEV && bufs[i].blockno in slot && slot[bufs[i].blockno] == i
    }

    ghost predicate BlockOk(k: nat)
      requires k in slot && n < |bufs| && |truth| == |disk|
    {
      && k < |disk|
      && slot[k] < n
      && var b := bufs[slot[k]];
         && b.dev == ROOTDEV && b.blockno == k
         && b.refcnt == pinned[k] + inUse[k]
         && (b.locked ==> k in inUse)
         && (k in pinned ==> b.valid)
         && (b.valid && !b.locked ==> b.data == truth[k])
    }

    /** At most one buffer per block; counts are exact; a block's latest contents are in its
        buffer when that is valid, and on disk unless the block is pinned. */
    ghost predicate Coherent() {
      && |bufs| == n + 1
      && |truth| == |disk|
      && (forall i {:trigger BufOk(i)} :: 0 <= i < n ==> BufOk(i))
      && (forall k {:trigger BlockOk(k)} :: k in slot ==> BlockOk(k))
      && (forall k {:trigger RefOk(k)} :: RefOk(k))
      && (forall k: nat {:trigger DiskOk(k)} :: k < |disk| ==> DiskOk(k))
    }

    ghost predicate RefOk(k: nat) {
      k in pinned || k in inUse ==> k in slot
    }

    ghost predicate DiskOk(k: nat)
      requires k < |disk| == |truth|
    {
      k in pinned || disk[k] == truth[k]
    }

    ghost predicate RingOk() {
      && (forall i :: 0 <= i < |releases| ==> releases[i] < n)
      && Linked(bufs, [n] + OrderOf(n, releases))
    }

    /** The list from head.next on. */
    ghost function Order(): (s: seq<nat>)
      requires RingOk()
    {
      OrderOf(n, releases)
    }

    ghost predicate Ok() { Coherent() && RingOk() }

    ghost predicate SameElsewhere(v: View, k: nat) {
      && v.n == n && v.slot == slot && v.releases == releases
      && |v.truth| == |truth| && |v.disk| == |disk|
      && (forall j :: j != k ==> v.pinned[j] == pinned[j] && v.inUse[j] == inUse[j])
      && (forall j :: 0 <= j < |truth| && j != k ==> v.truth[j] == truth[j])
      && (forall j :: 0 <= j < |disk| && j != k ==> v.disk[j] == disk[j])
    }

    /** A process has block k locked and read in. */
    ghost predicate Held(k: nat) {
      HasLock(k) && bufs[slot[k]].valid
    }

    /** Some process has block k locked. */
    ghost predicate HasLock(k: nat) {
      k in slot && slot[k] < |bufs| && bufs[slot[k]].locked
    }
  }

  /** The states of the cache. */
  type Sound = v: View | v.Ok() ghost witness Empty()

  ghost function Empty(): (v: View)
    ensures v.Ok()
  {
    var v := View(0, [Buf(false, 0, 0, 0, 0, 0, [], false)], map[], multiset{}, multiset{}, [], [], [], []);
    assert Joined(v.bufs, 0, 0);
    v
  }

  // ----- what each operation does to the view -----

  /** The buffer of a cached block. */
  ghost function BufOf(v: View, k: nat): (x: Buf)
    requires k in v.slot && v.slot[k] < |v.bufs|
  {
    v.bufs[v.slot[k]]
  }

  ghost function WithBuf(v: View, k: nat, x: Buf): (w: View)
    requires k in v.slot && v.slot[k] < |v.bufs|
  {
    v.(bufs := v.bufs[v.slot[k] := x])
  }

  ghost function Reused(v: View, k: nat): (w: View)
    requires k in v.slot && v.slot[k] < |v.bufs|
  {
    WithBuf(v, k, BufOf(v, k).(refcnt := BufOf(v, k).refcnt + 1)).(inUse := v.inUse + multiset{k})
  }

  ghost function Recycled(v: View, b: nat, k: nat): (w: View)
    requires b < |v.bufs|
  {
    v.(bufs := v.bufs[b := v.bufs[b].(dev := ROOTDEV, blockno := k, valid := false, refcnt := 1)],
       slot := (if v.bufs[b].dev == 0 then v.slot else v.slot - {v.bufs[b].blockno})[k := b],
       inUse := v.inUse + multiset{k})
  }

  ghost function Locked(v: View, k: nat): (w: View)
    requires k in v.slot && v.slot[k] < |v.bufs|
  {
    WithBuf(v, k, BufOf(v, k).(locked := true))
  }

  ghost function Filled(v: View, k: nat): (w: View)
    requires k in v.slot && v.slot[k] < |v.bufs| && k < |v.disk|
  {
    if BufOf(v, k).valid then v
    else WithBuf(v, k, BufOf(v, k).(data := v.disk[k], valid := true))
  }

  ghost function Stored(v: View, k: nat, data: Block): (w: View)
    requires k in v.slot && v.slot[k] < |v.bufs|
  {
    WithBuf(v, k, BufOf(v, k).(data := data))
  }

  ghost function Written(v: View, k: nat): (w: View)
    requires k in v.slot && v.slot[k] < |v.bufs| && k < |v.disk| == |v.truth|
  {
    var data := BufOf(v, k).data;
    v.(disk := v.disk[k := data], truth := v.truth[k := data], trace := v.trace + [Write(k, data)])
  }

  ghost function Pinned(v: View, k: nat): (w: View)
    requires k in v.slot && v.slot[k] < |v.bufs|
  {
    WithBuf(v, k, BufOf(v, k).(refcnt := BufOf(v, k).refcnt + 1)).(pinned := v.pinned + multiset{k})
  }

  /** log_write has recorded the block: its contents in memory become the latest. */
  ghost function Logged(v: View, k: nat): (w: View)
    requires k in v.slot && v.slot[k] < |v.bufs| && k < |v.truth|
  {
    v.(truth := v.truth[k := BufOf(v, k).data])
  }

  ghost function Unpinned(v: View, k: nat): (w: View)
    requires k in v.slot && v.slot[k] < |v.bufs| && 0 < BufOf(v, k).refcnt
  {
    WithBuf(v, k, BufOf(v, k).(refcnt := BufOf(v, k).refcnt - 1)).(pinned := v.pinned - multiset{k})
  }

  ghost function Unlocked(v: View, k: nat): (w: View)
    requires k in v.slot && v.slot[k] < |v.bufs|
  {
    WithBuf(v, k, BufOf(v, k).(locked := false))
  }

  ghost function Unreferenced(v: View, k: nat): (w: View)
    requires k in v.slot && v.slot[k] < |v.bufs| && 0 < BufOf(v, k).refcnt
  {
    WithBuf(v, k, BufOf(v, k).(refcnt := BufOf(v, k).refcnt - 1)).(inUse := v.inUse - multiset{k})
  }

  ghost predicate Movable(v: View, b: nat) {
    && b < v.n < |v.bufs|
    && v.bufs[b].next < |v.bufs| && v.bufs[b].prev < |v.bufs|
    && Unlink(v.bufs, b)[v.n].next < |v.bufs|
  }

  ghost function MovedToFront(v: View, b: nat): (w: View)
    requires Movable(v, b)
  {
    v.(bufs := PushFront(Unlink(v.bufs, b), v.n, b), releases := v.releases + [b])
  }

  /** One reference fewer; the last one out moves the buffer to the front of the list. */
  ghost function Dropped(v: View, k: nat): (w: View)
    requires k in v.slot && v.slot[k] < |v.bufs| && 0 < BufOf(v, k).refcnt
    requires BufOf(v, k).refcnt == 1 ==> Movable(Unreferenced(v, k), v.slot[k])
  {
    var w := Unreferenced(v, k);
    if 1 < BufOf(v, k).refcnt then w else MovedToFront(w, v.slot[k])
  }

  // ----- every operation keeps the view sound -----

  /** A change confined to one cached block needs checking for that block alone. */
  lemma OneBlock(v: View, w: View, k: nat)
    requires v.Ok() && k in v.slot && v.SameElsewhere(w, k)
    requires |w.bufs| == |v.bufs| && v.BlockOk(k) && w.bufs == v.bufs[v.slot[k] := w.bufs[v.slot[k]]]
    requires w.bufs[v.slot[k]].next == v.bufs[v.slot[k]].next && w.bufs[v.slot[k]].prev == v.bufs[v.slot[k]].prev
    requires w.BlockOk(k)
    requires k !in w.pinned ==> w.disk[k] == w.truth[k]
    ensures w.Ok()
  {
    LinkedFrame(v.bufs, w.bufs, [v.n] + v.Order());
    forall i | 0 <= i < w.n ensures w.BufOk(i) {
      assert v.BufOk(i);
    }
    forall j | j in w.slot ensures w.BlockOk(j) {
      assert v.BlockOk(j);
      if j != k { assert w.pinned[j] == v.pinned[j] && w.inUse[j] == v.inUse[j]; }
    }
    forall j ensures w.RefOk(j) {
      assert v.RefOk(j);
      if j != k { assert w.pinned[j] == v.pinned[j] && w.inUse[j] == v.inUse[j]; }
    }
    forall j: nat | j < |w.disk| ensures w.DiskOk(j) {
      assert v.DiskOk(j);
      if j != k { assert w.pinned[j] == v.pinned[j]; }
    }
  }

  /** Giving an unreferenced buffer to another block loses nothing: its old block is not
      pinned, so the disk has that block's latest contents. */
  lemma RecycledOk(v: View, b: nat, k: nat)
    requires v.Ok() && b < v.n && v.bufs[b].refcnt == 0 && k !in v.slot && k < |v.disk|
    ensures Recycled(v, b, k).Ok()
  {
    LinkedFrame(v.bufs, Recycled(v, b, k).bufs, [v.n] + v.Order());
    RecycledCoherent(v, b, k);
  }

  lemma RecycledCoherent(v: View, b: nat, k: nat)
    requires v.Coherent() && b < v.n && v.bufs[b].refcnt == 0 && k !in v.slot && k < |v.disk|
    ensures Recycled(v, b, k).Coherent()
  {
    var w := Recycled(v, b, k);
    assert v.BufOk(b) && v.RefOk(k);
    if v.bufs[b].dev != 0 { assert v.BlockOk(v.bufs[b].blockno); }
    forall i | 0 <= i < w.n ensures w.BufOk(i) {
      assert v.BufOk(i);
      assert i != b && v.bufs[i].dev != 0 ==> w.slot[v.bufs[i].blockno] == i;
    }
    forall j | j in w.slot ensures w.BlockOk(j) {
      if j != k {
        assert v.BlockOk(j) && w.slot[j] == v.slot[j] != b;
      }
    }
    forall j ensures w.RefOk(j) {
      assert v.RefOk(j);
    }
    forall j: nat | j < |w.disk| ensures w.DiskOk(j) {
      assert v.DiskOk(j);
    }
  }

  lemma MovedToFrontOk(v: View, b: nat)
    requires v.Ok() && b < v.n
    ensures Movable(v, b) && MovedToFront(v, b).Ok()
  {
    MoveFrontLinked(v.bufs, v.n, v.Order(), b);
    var w := MovedToFront(v, b);
    assert w.releases[..|v.releases|] == v.releases;
    CoherentFrame(v, w);
  }

  lemma CoherentFrame(v: View, w: View)
    requires v.Coherent() && |w.bufs| == |v.bufs|
    requires w == v.(bufs := w.bufs, releases := w.releases)
    requires forall i :: 0 <= i < |v.bufs| ==> SameButLinks(v.bufs[i], w.bufs[i])
    ensures w.Coherent()
  {
    forall i | 0 <= i < w.n ensures w.BufOk(i) {
      assert v.BufOk(i);
    }
    forall j | j in w.slot ensures w.BlockOk(j) {
      assert v.BlockOk(j);
    }
    forall j ensures w.RefOk(j) {
      assert v.RefOk(j);
    }
    forall j: nat | j < |w.disk| ensures w.DiskOk(j) {
      assert v.DiskOk(j);
    }
  }

  lemma DroppedOk(v: View, k: nat)
    requires v.Ok() && k in v.slot && k in v.inUse && v.slot[k] < |v.bufs|
    requires BufOf(v, k).locked ==> v.inUse[k] > 1
    ensures 0 < BufOf(v, k).refcnt
    ensures BufOf(v, k).refcnt == 1 ==> Movable(Unreferenced(v, k), v.slot[k])
    ensures Dropped(v, k).Ok()
  {
    assert v.BlockOk(k) && v.DiskOk(k);
    OneBlock(v, Unreferenced(v, k), k);
    MovedToFrontOk(Unreferenced(v, k), v.slot[k]);
  }

  /** The steps of the cache: bget is Reuse or Recycle, then Lock; bread adds Fill; brelse is
      Unlock, then Drop; log_write is Pin where needed, then Log. */
  datatype Op = Reuse(k: nat) | Recycle(b: nat, k: nat) | Lock(k: nat) | Fill(k: nat)
              | Store(k: nat, data: Block) | Put(k: nat) | Pin(k: nat) | Log(k: nat)
              | Unpin(k: nat) | Unlock(k: nat) | Drop(k: nat)

  /** The buffers after a reference goes. */
  lemma DropCases(v: View, k: nat)
    requires v.Ok() && Enabled(v, Drop(k))
    ensures k in v.slot && v.slot[k] < v.n < |v.bufs| && 0 < BufOf(v, k).refcnt
    ensures BufOf(v, k).refcnt == 1 ==> Movable(Unreferenced(v, k), v.slot[k])
    ensures Next(v, Drop(k)) == Dropped(v, k) && Dropped(v, k).Ok()
  {
    DroppedOk(v, k);
    assert v.BlockOk(k);
    hide View.Ok, Dropped, Movable, Unreferenced;
  }

  /** When callers may take each step; a lock holder may change the data, and logs or writes
      it before unlocking; a pin goes only when the disk has caught up. */
  ghost predicate Enabled(v: View, op: Op)
    requires |v.truth| == |v.disk|
  {
    if op.Recycle? then
      op.b < v.n && op.b < |v.bufs| && v.bufs[op.b].refcnt == 0 && op.k !in v.slot && op.k < |v.disk|
    else
      op.k in v.slot && v.slot[op.k] < |v.bufs| && op.k < |v.disk| &&
      match op
      case Reuse(k) => true
      case Lock(k) => k in v.inUse && !BufOf(v, k).locked
      case Fill(k) => BufOf(v, k).locked
      case Store(k, _) => v.Held(k)
      case Put(k) => v.Held(k)
      case Pin(k) => v.Held(k)
      case Log(k) => v.Held(k) && k in v.pinned
      case Unpin(k) => v.Held(k) && k in v.pinned && (v.pinned[k] == 1 ==> v.disk[k] == v.truth[k])
      case Unlock(k) => v.Held(k) && BufOf(v, k).data == v.truth[k]
      case Drop(k) => k in v.inUse && (BufOf(v, k).locked ==> v.inUse[k] > 1)
  }

  ghost function Next(v: View, op: Op): (w: View)
    requires v.Ok() && Enabled(v, op)
  {
    match op
    case Recycle(b, k) => Recycled(v, b, k)
    case Reuse(k) => Reused(v, k)
    case Lock(k) => Locked(v, k)
    case Fill(k) => Filled(v, k)
    case Store(k, data) => Stored(v, k, data)
    case Put(k) => Written(v, k)
    case Pin(k) => Pinned(v, k)
    case Log(k) => Logged(v, k)
    case Unpin(k) => assert v.BlockOk(k); Unpinned(v, k)
    case Unlock(k) => Unlocked(v, k)
    case Drop(k) => DroppedOk(v, k); Dropped(v, k)
  }

  /** Every step of every process keeps the cache coherent and the list in order. */
  lemma NextOk(v: View, op: Op)
    requires v.Ok() && Enabled(v, op)
    ensures Next(v, op).Ok()
  {
    if op.Recycle? {
      RecycledOk(v, op.b, op.k);
    } else if op.Drop? {
      DroppedOk(v, op.k);
    } else if op.Reuse? || op.Pin? || op.Unpin? {
      CountsOk(v, op);
    } else {
      ContentsOk(v, op);
    }
  }

  /** A release is recorded exactly when brelse gives up the last reference to a buffer, pins included;
      then, and only then, the buffer goes to the front of the list. */
  lemma ReleaseRecorded(v: View, op: Op)
    requires v.Ok() && Enabled(v, op)
    ensures var last := op.Drop? && v.pinned[op.k] + v.inUse[op.k] == 1;
            && Next(v, op).n == v.n && Next(v, op).RingOk()
            && Next(v, op).releases == v.releases + (if last then [v.slot[op.k]] else [])
            && Next(v, op).Order() == if last then MoveFront(v.Order(), v.slot[op.k]) else v.Order()
  {
    NextOk(v, op);
    if op.Drop? {
      assert v.BlockOk(op.k);
      var last := v.pinned[op.k] + v.inUse[op.k] == 1;
      if last {
        assert (v.releases + [v.slot[op.k]])[..|v.releases|] == v.releases;
      }
    }
  }

  lemma CountsOk(v: View, op: Op)
    requires v.Ok() && Enabled(v, op) && (op.Reuse? || op.Pin? || op.Unpin?)
    ensures Next(v, op).Ok()
  {
    assert v.BlockOk(op.k) && v.DiskOk(op.k);
    OneBlock(v, Next(v, op), op.k);
  }

  lemma ContentsOk(v: View, op: Op)
    requires v.Ok() && Enabled(v, op)
    requires op.Lock? || op.Fill? || op.Store? || op.Put? || op.Log? || op.Unlock?
    ensures Next(v, op).Ok()
  {
    assert v.BlockOk(op.k) && v.DiskOk(op.k);
    OneBlock(v, Next(v, op), op.k);
  }

  /** A freshly initialised cache. */
  ghost predicate Booted(v: View) {
    && v.Ok() && v.slot == map[] && v.pinned == multiset{} && v.inUse == multiset{}
    && v.truth == v.disk && v.trace == [] && v.releases == []
  }

  ghost predicate Step(v: View, op: Op, w: View) {
    v.Ok() && Enabled(v, op) && w == Next(v, op)
  }

  /** The states that steps of any processes, in any order, can lead to. */
  least predicate Reachable(v: View) {
    Booted(v) || exists u, op :: Reachable(u) && Step(u, op, v)
  }

  least lemma ReachableOk(v: View)
    requires Reachable(v)
    ensures v.Ok()
  {
    if !Booted(v) {
      var u, op :| Reachable(u) && Step(u, op, v);
      NextOk(u, op);
    }
  }

  /** In any reachable state, whoever locks a block and fills its buffer sees the contents
      last logged or written. */
  lemma BreadLatest(v: View, k: nat)
    requires v.Ok() && Enabled(v, Lock(k))
    ensures BufOf(Filled(Locked(v, k), k), k).data == v.truth[k]
  {
    assert v.BlockOk(k) && v.DiskOk(k);
  }

  /** A block whose latest contents are not yet on disk cannot lose its buffer. */
  lemma UninstalledStays(v: View, op: Op, k: nat)
    requires v.Ok() && Enabled(v, op)
    requires k < |v.disk| && v.disk[k] != v.truth[k]
    ensures k in v.slot && k in Next(v, op).slot && Next(v, op).slot[k] == v.slot[k]
  {
    assert v.DiskOk(k) && v.RefOk(k);
    assert v.BlockOk(k);
    if op.Recycle? { assert v.BufOk(op.b); }
  }

  /** For a real device number at most one buffer holds a block. */
  lemma OneBufferPerBlock(v: View, i: nat, j: nat)
    requires v.Ok() && i < j < v.n && v.bufs[i].dev != 0 && v.bufs[j].dev != 0
    ensures v.bufs[i].blockno != v.bufs[j].blockno
  {
    assert v.BufOk(i) && v.BufOk(j);
  }

  /** Unlinking b and pushing it on the front realises MoveFront on the order. */
  lemma MoveFrontLinked(c: seq<Buf>, n: nat, s: seq<nat>, b: nat)
    requires Linked(c, [n] + s) && b in s
    ensures b < |c| && n < |c| && b != n && c[b].next < |c| && c[b].prev < |c|
    ensures Unlink(c, b)[n].next < |c|
    ensures Linked(PushFront(Unlink(c, b), n, b), [n] + MoveFront(s, b))
  {
    hide Unlink, PushFront, Joined;
    var ring, k := [n] + s, Position(s, b);
    UnlinkLinked(c, ring, k + 1);
    var rest := ring[..k + 1] + ring[k + 2..];
    Without(ring, k + 1);
    PushFrontLinked(Unlink(c, b), rest, b);
    MoveFrontIs(n, s, b);
    RingMember(c, ring, k + 1);
  }

  lemma RingMember(c: seq<Buf>, ring: seq<nat>, k: nat)
    requires Linked(c, ring) && 0 < k < |ring|
    ensures ring[k] < |c| && ring[0] < |c| && ring[k] != ring[0] && c[ring[k]].next < |c| && c[ring[k]].prev < |c|
  {
    assert Joined(c, ring[k - 1], ring[k]);
    if k + 1 < |ring| { assert Joined(c, ring[k], ring[k + 1]); }
  }

  lemma Without(ring: seq<nat>, k: nat)
    requires Injective(ring) && k < |ring|
    ensures ring[k] !in ring[..k] + ring[k + 1..]
  {
  }

  lemma MoveFrontIs(n: nat, s: seq<nat>, b: nat)
    requires b in s
    ensures var k, ring := Position(s, b), [n] + s;
            [n, b] + (ring[..k + 1] + ring[k + 2..])[1..] == [n] + MoveFront(s, b)
  {
  }

  lemma LinkedFrame(b: seq<Buf>, c: seq<Buf>, s: seq<nat>)
    requires Linked(b, s) && |b| == |c|
    requires forall i :: 0 <= i < |b| ==> b[i].next == c[i].next && b[i].prev == c[i].prev
    ensures Linked(c, s)
  {
    forall i | 0 < i < |s| ensures Joined(c, s[i - 1], s[i]) {
      assert Joined(b, s[i - 1], s[i]);
    }
  }

  method PushFrontInPlace(buf: array<Buf>, head: nat, x: nat)
    requires x < buf.Length && head < buf.Length && x != head && buf[head].next < buf.Length
    modifies buf
    ensures buf[..] == PushFront(old(buf[..]), head, x)
    ensures forall i :: 0 <= i < buf.Length ==> SameButLinks(buf[i], old(buf[i]))
  {
    buf[x] := buf[x].(next := buf[head].next, prev := head);
    buf[buf[head].next] := buf[buf[head].next].(prev := x);
    buf[head] := buf[head].(next := x);
  }

  method UnlinkInPlace(buf: array<Buf>, x: nat)
    requires x < buf.Length && buf[x].next < buf.Length && buf[x].prev < buf.Length
    modifies buf
    ensures buf[..] == Unlink(old(buf[..]), x)
    ensures forall i :: 0 <= i < buf.Length ==> SameButLinks(buf[i], old(buf[i]))
  {
    var next, prev := buf[x].next, buf[x].prev;
    buf[next] := buf[next].(prev := prev);
    buf[prev] := buf[prev].(next := next);
  }

  /** The loop of binit: buffers are pushed one by one on an empty list. */
  method InitRing(buf: array<Buf>, n: nat)
    requires buf.Length == n + 1 && Joined(buf[..], n, n)
    modifies buf
    ensures Linked(buf[..], [n] + OrderOf(n, []))
    ensures forall i :: 0 <= i <= n ==> SameButLinks(buf[i], old(buf[i]))
  {
    assert Linked(buf[..], [n] + []);
    var i := 0;
    ghost var s: seq<nat> := [];
    while i < n
      invariant 0 <= i <= n && |s| == i
      invariant forall j :: 0 <= j < i ==> s[j] == i - 1 - j
      invariant Linked(buf[..], [n] + s)
      invariant forall j :: 0 <= j <= n ==> SameButLinks(buf[j], old(buf[j]))
    {
      assert i !in [n] + s;
      PushFrontLinked(buf[..], [n] + s, i);
      PushFrontInPlace(buf, n, i);
      assert [n, i] + ([n] + s)[1..] == [n] + ([i] + s);
      s := [i] + s;
      i := i + 1;
    }
    assert s == Initial(n);
  }

  class Bcache {
    const nbuf: nat
    const buf: array<Buf>      // the buffers, then the list head
    var disk: Disk
    ghost var view: Sound

    ghost predicate Valid()
      reads this, buf
    {
      view.n == nbuf && view.bufs == buf[..] && view.disk == disk
    }

    /** b is the buffer of block k. */
    ghost predicate Names(b: nat, k: nat)
      reads this
    {
      k in view.slot && view.slot[k] == b < |view.bufs|
    }

    /** binit, over a disk that nobody has cached yet. */
    constructor (n: nat, d: Disk)
      ensures Valid() && fresh(buf) && nbuf == n
      ensures view == View(n, buf[..], map[], multiset{}, multiset{}, d, d, [], [])
    {
      nbuf, disk := n, d;
      buf := new Buf[n + 1](_ => Buf(false, 0, 0, 0, n, n, [], false));
      view := Empty();
      new;
      InitRing(buf, n);
      view := View(n, buf[..], map[], multiset{}, multiset{}, d, d, [], []);
    }

    /** First loop of bget: is the block cached? */
    method FindCached(dev: nat, blockno: nat) returns (b: nat)
      requires Valid() && dev == ROOTDEV
      ensures b <= nbuf
      ensures b < nbuf <==> blockno in view.slot
      ensures b < nbuf ==> view.slot[blockno] == b
    {
      ghost var ring := [nbuf] + view.Order();
      ghost var i := 1;
      assert Joined(buf[..], ring[nbuf], ring[0]);
      assert nbuf > 0 ==> Joined(buf[..], ring[0], ring[1]);
      b := buf[nbuf].next;
      while b != nbuf
        invariant 1 <= i <= nbuf + 1
        invariant b == if i <= nbuf then ring[i] else nbuf
        invariant forall j :: 1 <= j < i ==> !(blockno in view.slot && view.slot[blockno] == ring[j])
        decreases nbuf + 1 - i
      {
        assert view.BufOk(b);
        if buf[b].dev == dev && buf[b].blockno == blockno {
          return;
        }
        if blockno in view.slot { assert view.BlockOk(blockno); }
        assert i < nbuf ==> Joined(buf[..], ring[i], ring[i + 1]);
        b, i := buf[b].next, i + 1;
      }
      if blockno in view.slot {
        assert view.BlockOk(blockno);
        OnRing(nbuf, view.Order(), view.slot[blockno]);
      }
    }

    /** Second loop of bget: the least recently used buffer nobody refers to. */
    method FindVictim() returns (b: nat)
      requires Valid()
      ensures b <= nbuf
      ensures b < nbuf ==> IsVictim(view, b)
      ensures b == nbuf ==> AllReferenced(view)
    {
      ghost var ring := [nbuf] + view.Order();
      ghost var i := nbuf;
      assert Joined(buf[..], ring[nbuf], ring[0]);
      b := buf[nbuf].prev;
      while b != nbuf
        invariant 0 <= i <= nbuf
        invariant b == ring[i]
        invariant forall j :: i < j <= nbuf ==> view.bufs[ring[j]].refcnt > 0
        decreases i
      {
        if buf[b].refcnt == 0 {
          VictimAt(view, i - 1);
          return;
        }
        assert Joined(buf[..], ring[i - 1], ring[i]);
        b, i := buf[b].prev, i - 1;
      }
      forall j | 0 <= j < nbuf ensures buf[j].refcnt > 0 {
        OnRing(nbuf, view.Order(), j);
      }
    }

    /** bget: a reference to the buffer for a block, or None where the source panics. */
    method Bget(dev: nat, blockno: nat) returns (r: Option<nat>)
      requires Valid() && dev == ROOTDEV && blockno < |disk|
      modifies `view, buf
      ensures Valid()
      ensures r.None? ==> view == old(view) && AllReferenced(view) && blockno !in view.slot
      ensures r.Some? ==> Supplies(old(view), r.value, blockno) && view == Gotten(old(view), r.value, blockno)
      ensures r.Some? && blockno !in old(view).slot ==> IsVictim(old(view), r.value)
    {
      var b := FindCached(dev, blockno);
      if b < nbuf {
        assert view.BlockOk(blockno);
        TakeCached(b, blockno);
        return Some(b);
      }
      b := FindVictim();
      if b == nbuf {
        return None;
      }
      TakeVictim(b, dev, blockno);
      return Some(b);
    }

    method TakeCached(b: nat, ghost k: nat)
      requires Valid() && Names(b, k)
      modifies `view, buf
      ensures Valid() && view == Reused(old(view), k)
    {
      assert view.BlockOk(k);
      NextOk(view, Reuse(k));
      buf[b] := buf[b].(refcnt := buf[b].refcnt + 1);
      view := Reused(view, k);
    }

    /** An unreferenced buffer for a block that has none. */
    method TakeVictim(b: nat, dev: nat, blockno: nat)
      requires Valid() && dev == ROOTDEV && Enabled(view, Recycle(b, blockno))
      modifies `view, buf
      ensures Valid() && view == Recycled(old(view), b, blockno)
    {
      NextOk(view, Recycle(b, blockno));
      buf[b] := buf[b].(dev := dev, blockno := blockno, valid := false, refcnt := 1);
      view := Recycled(view, b, blockno);
    }

    /** acquiresleep by a process that has a reference; it may have waited for the lock. */
    method Acquire(b: nat, ghost k: nat)
      requires Valid() && Names(b, k) && Enabled(view, Lock(k))
      modifies `view, buf
      ensures Valid() && view == Locked(old(view), k)
    {
      NextOk(view, Lock(k));
      buf[b] := buf[b].(locked := true);
      view := Locked(view, k);
    }

    /** The disk read of bread. */
    method FillBuf(b: nat, ghost k: nat)
      requires Valid() && Names(b, k) && Enabled(view, Fill(k))
      modifies `view, buf
      ensures Valid() && view == Filled(old(view), k)
    {
      assert view.BlockOk(k);
      NextOk(view, Fill(k));
      if !buf[b].valid {
        buf[b] := buf[b].(data := disk[buf[b].blockno], valid := true);
      }
      view := Filled(view, k);
    }

    /** The holder changes the data in memory. */
    method StoreData(b: nat, data: Block, ghost k: nat)
      requires Valid() && Names(b, k) && Enabled(view, Store(k, data))
      modifies `view, buf
      ensures Valid() && view == Stored(old(view), k, data)
    {
      NextOk(view, Store(k, data));
      buf[b] := buf[b].(data := data);
      view := Stored(view, k, data);
    }

    method Bwrite(b: nat, ghost k: nat)
      requires Valid() && Names(b, k) && Enabled(view, Put(k))
      modifies `view, `disk
      ensures Valid() && view == Written(old(view), k)
    {
      assert view.BlockOk(k);
      NextOk(view, Put(k));
      disk := disk[buf[b].blockno := buf[b].data];
      view := Written(view, k);
    }

    method Bpin(b: nat, ghost k: nat)
      requires Valid() && Names(b, k) && Enabled(view, Pin(k))
      modifies `view, buf
      ensures Valid() && view == Pinned(old(view), k)
    {
      NextOk(view, Pin(k));
      buf[b] := buf[b].(refcnt := buf[b].refcnt + 1);
      view := Pinned(view, k);
    }

    /** The moment log_write has recorded a held, pinned block. */
    ghost method MarkLogged(k: nat)
      requires Valid() && Enabled(view, Log(k))
      modifies `view
      ensures Valid() && view == Logged(old(view), k)
    {
      NextOk(view, Log(k));
      view := Logged(view, k);
    }

    method Bunpin(b: nat, ghost k: nat)
      requires Valid() && Names(b, k) && Enabled(view, Unpin(k))
      modifies `view, buf
      ensures Valid() && 0 < BufOf(old(view), k).refcnt && view == Unpinned(old(view), k)
    {
      assert view.BlockOk(k);
      NextOk(view, Unpin(k));
      buf[b] := buf[b].(refcnt := buf[b].refcnt - 1);
      view := Unpinned(view, k);
    }

    /** The releasesleep of brelse. */
    method Release(b: nat, ghost k: nat)
      requires Valid() && Names(b, k) && Enabled(view, Unlock(k))
      modifies `view, buf
      ensures Valid() && view == Unlocked(old(view), k)
    {
      NextOk(view, Unlock(k));
      buf[b] := buf[b].(locked := false);
      view := Unlocked(view, k);
    }

    /** The rest of brelse, under bcache.lock. */
    method DropRef(b: nat, ghost k: nat)
      requires Valid() && Names(b, k) && Enabled(view, Drop(k))
      modifies `view, buf
      ensures Valid() && view == Next(old(view), Drop(k))
    {
      hide View.Ok, Next, Enabled;
      DropCases(view, k);
      ghost var w: Sound := Dropped(view, k);
      buf[b] := buf[b].(refcnt := buf[b].refcnt - 1);
      assert buf[..] == Unreferenced(view, k).bufs;
      if buf[b].refcnt == 0 {
        UnlinkInPlace(buf, b);
        PushFrontInPlace(buf, nbuf, b);
      }
      view := w;
    }

    /** The holder replaces the contents and writes them to disk. */
    method Overwrite(b: nat, data: Block, ghost k: nat)
      requires Valid() && Names(b, k) && view.Held(k)
      modifies `view, `disk, buf
      ensures Valid() && OverwrittenAs(old(view), view, k, data)
    {
      OverwriteKeeps(view, k, data);
      StoreData(b, data, k);
      Bwrite(b, k);
    }

    /** bread of a block whose lock is free, whoever else refers to it; a referenced block or a
        buffer that nobody refers to rules bget's panic out. */
    method Bread(dev: nat, blockno: nat) returns (b: nat)
      requires Valid() && dev == ROOTDEV && blockno < |disk|
      requires !view.HasLock(blockno) && (blockno in Refs(view) || |Refs(view)| < nbuf)
      modifies `view, buf
      ensures Valid()
      ensures Names(b, blockno) && view.Held(blockno)
      ensures blockno < |view.truth| && buf[b].data == view.truth[blockno]
      ensures SameStore(old(view), view) && view.inUse == old(view).inUse + multiset{blockno}
      ensures OthersKeep(old(view), view, {}) && OnlyLocks(old(view), view, {blockno})
    {
      ghost var v: Sound := view;
      if AllReferenced(v) { AllReferencedCount(v); }
      assert v.RefOk(blockno);
      var r := Bget(dev, blockno);
      b := r.value;
      GottenOk(v, b, blockno);
      Acquire(b, blockno);
      FillBuf(b, blockno);
      ReadInOk(v, b, blockno);
      ReadInKeepsAll(v, b, blockno);
    }

    /** brelse by the process that has the block locked, its change logged or written. */
    method Brelse(b: nat, ghost k: nat)
      requires Valid() && Names(b, k) && view.Held(k)
      requires k < |view.truth| && buf[b].data == view.truth[k]
      modifies `view, buf
      ensures Valid()
      ensures SameStore(old(view), view) && view.inUse == old(view).inUse - multiset{k} && view.slot == old(view).slot
      ensures OthersKeep(old(view), view, {k}) && OnlyLocks(old(view), view, {}) && !view.HasLock(k)
    {
      ghost var v: Sound := view;
      PutBackOk(v, k);
      assert v.BlockOk(k);
      Release(b, k);
      DropRef(b, k);
      PutBackKeepsAll(v, k);
    }
  }

  /** From v to w, only the given blocks may have become locked. */
  ghost predicate OnlyLocks(v: View, w: View, blocks: set<nat>) {
    forall j {:trigger w.HasLock(j)} :: w.HasLock(j) ==> v.HasLock(j) || j in blocks
  }

  /** Whoever uses block j still finds it in its buffer, and whoever has it locked still has it
      locked, with the same contents. */
  ghost predicate StillUsed(v: View, w: View, j: nat) {
    && j in v.slot && j in w.slot && w.slot[j] == v.slot[j] && v.slot[j] < |v.bufs| && v.slot[j] < |w.bufs|
    && (v.HasLock(j) ==> w.HasLock(j) && BufOf(w, j).valid == BufOf(v, j).valid && BufOf(w, j).data == BufOf(v, j).data)
  }

  /** From v to w, every use of a block is kept, but for those of the given blocks. */
  ghost predicate OthersKeep(v: View, w: View, but: set<nat>) {
    forall j {:trigger StillUsed(v, w, j)} :: j in v.inUse && j !in but ==> StillUsed(v, w, j)
  }

  /** A lock holder is a user. */
  lemma HeldInUse(v: View, j: nat)
    requires v.Ok() && v.HasLock(j)
    ensures j in v.inUse
  {
    assert v.BlockOk(j);
  }

  /** The two buffers that one iteration of write_log or install_trans holds; u is the state
      before it got them. */
  ghost predicate Both(u: View, v: View, b1: nat, k1: nat, b2: nat, k2: nat) {
    && k1 != k2 && v.Held(k1) && v.Held(k2) && v.slot[k1] == b1 && v.slot[k2] == b2
    && v.inUse == u.inUse + multiset{k1, k2} && OnlyLocks(u, v, {k1, k2})
    && OthersKeep(u, v, {}) && !u.HasLock(k1) && !u.HasLock(k2)
    && k1 < |v.truth| && BufOf(v, k1).data == v.truth[k1]
    && k2 < |v.truth| && BufOf(v, k2).data == v.truth[k2]
  }

  method BreadBoth(bc: Bcache, k1: nat, k2: nat) returns (b1: nat, b2: nat)
    requires bc.Valid() && !bc.view.HasLock(k1) && !bc.view.HasLock(k2)
    requires k1 != k2 && k1 < |bc.disk| && k2 < |bc.disk|
    requires |Refs(bc.view)| < bc.nbuf && (k2 in bc.view.pinned || |Refs(bc.view)| + 1 < bc.nbuf)
    modifies bc, bc.buf
    ensures bc.Valid() && SameStore(old(bc.view), bc.view)
    ensures Both(old(bc.view), bc.view, b1, k1, b2, k2) && bc.disk == old(bc.disk)
    ensures bc.Names(b1, k1) && bc.Names(b2, k2) && bc.view.Held(k1) && bc.view.Held(k2)
    ensures k1 < |bc.view.truth| && bc.buf[b1].data == bc.view.truth[k1]
    ensures k2 < |bc.view.truth| && bc.buf[b2].data == bc.view.truth[k2]
  {
    ghost var u := bc.view;
    b1 := bc.Bread(ROOTDEV, k1);
    ghost var v := bc.view;
    assert Refs(v) == Refs(u) + {k1};
    b2 := bc.Bread(ROOTDEV, k2);
    BothRead(u, v, bc.view, b1, k1, b2, k2);
  }

  lemma BothRead(u: View, v: View, w: View, b1: nat, k1: nat, b2: nat, k2: nat)
    requires k1 != k2 && !u.HasLock(k1) && !u.HasLock(k2) && v.Held(k1) && v.slot[k1] == b1 && w.Held(k2) && w.slot[k2] == b2
    requires OthersKeep(u, v, {}) && OnlyLocks(u, v, {k1}) && v.inUse == u.inUse + multiset{k1}
    requires OthersKeep(v, w, {}) && OnlyLocks(v, w, {k2}) && w.inUse == v.inUse + multiset{k2}
    requires SameStore(u, v) && SameStore(v, w) && k1 < |v.truth| && BufOf(v, k1).data == v.truth[k1]
    requires k2 < |w.truth| && BufOf(w, k2).data == w.truth[k2]
    ensures Both(u, w, b1, k1, b2, k2)
  {
    assert StillUsed(v, w, k1);
    KeepTrans(u, v, w);
    forall j | w.HasLock(j) ensures u.HasLock(j) || j in {k1, k2} { assert v.HasLock(j) || j == k2; }
  }

  lemma KeepTrans(u: View, v: View, w: View)
    requires OthersKeep(u, v, {}) && OthersKeep(v, w, {}) && u.inUse <= v.inUse
    ensures OthersKeep(u, w, {})
  {
    forall j | j in u.inUse ensures StillUsed(u, w, j) { assert StillUsed(u, v, j) && StillUsed(v, w, j); }
  }

  /** What happens to the contents of a block that u had unlocked disturbs no user of u. */
  lemma KeepBut(u: View, v: View, w: View, k: nat)
    requires OthersKeep(u, v, {}) && OthersKeep(v, w, {k}) && u.inUse <= v.inUse && !u.HasLock(k)
    requires w.slot == v.slot && |w.bufs| == |v.bufs|
    ensures OthersKeep(u, w, {})
  {
    forall j | j in u.inUse ensures StillUsed(u, w, j) { assert StillUsed(u, v, j) && (j != k ==> StillUsed(v, w, j)); }
  }

  lemma UnpinKeepsBoth(u: View, v: View, b1: nat, k1: nat, b2: nat, k2: nat)
    requires v.Ok() && Both(u, v, b1, k1, b2, k2) && 0 < BufOf(v, k2).refcnt
    ensures Both(u, Unpinned(v, k2), b1, k1, b2, k2)
  {
    assert v.BlockOk(k1) && v.BlockOk(k2);
    var w := Unpinned(v, k2);
    forall j | w.HasLock(j) ensures v.HasLock(j) { }
    forall j | j in u.inUse ensures StillUsed(u, w, j) { assert StillUsed(u, v, j); }
  }

  lemma OverwriteKeepsBoth(u: View, v: View, w: View, b1: nat, k1: nat, b2: nat, k2: nat, data: Block)
    requires Both(u, v, b1, k1, b2, k2) && OverwrittenAs(v, w, k2, data)
    ensures Both(u, w, b1, k1, b2, k2)
  {
    assert StillUsed(v, w, k1);
    KeepBut(u, v, w, k2);
    forall j | w.HasLock(j) ensures u.HasLock(j) || j in {k1, k2} { assert v.HasLock(j); }
  }

  lemma BothSwap(u: View, v: View, b1: nat, k1: nat, b2: nat, k2: nat)
    requires Both(u, v, b1, k1, b2, k2)
    ensures Both(u, v, b2, k2, b1, k1)
  {
    assert multiset{k1, k2} == multiset{k2, k1};
  }

  /** brelse of the first buffer, then of the second. */
  method BrelseBoth(bc: Bcache, b1: nat, ghost k1: nat, b2: nat, ghost k2: nat, ghost u: View)
    requires bc.Valid() && Both(u, bc.view, b1, k1, b2, k2)
    modifies bc, bc.buf
    ensures bc.Valid() && SameStore(old(bc.view), bc.view) && bc.disk == old(bc.disk)
    ensures bc.view.inUse == u.inUse && OnlyLocks(u, bc.view, {}) && OthersKeep(u, bc.view, {})
  {
    hide OthersKeep, OnlyLocks, View.Ok;
    ghost var v := bc.view;
    bc.Brelse(b1, k1);
    ghost var w := bc.view;
    FirstReleased(u, v, w, b1, k1, b2, k2);
    bc.Brelse(b2, k2);
    LastReleased(u, w, bc.view, k2);
  }

  lemma FirstReleased(u: View, v: View, w: View, b1: nat, k1: nat, b2: nat, k2: nat)
    requires Both(u, v, b1, k1, b2, k2) && SameStore(v, w) && w.inUse == v.inUse - multiset{k1}
    requires w.slot == v.slot && |w.bufs| == |v.bufs| && OthersKeep(v, w, {k1}) && OnlyLocks(v, w, {}) && !w.HasLock(k1)
    ensures w.Held(k2) && w.slot[k2] == b2 && BufOf(w, k2).data == w.truth[k2]
    ensures OthersKeep(u, w, {}) && OnlyLocks(u, w, {k2}) && w.inUse == u.inUse + multiset{k2}
  {
    assert StillUsed(v, w, k2);
    KeepBut(u, v, w, k1);
    forall j | w.HasLock(j) ensures u.HasLock(j) || j == k2 { assert v.HasLock(j); }
    assert u.inUse + multiset{k1, k2} - multiset{k1} == u.inUse + multiset{k2};
  }

  lemma LastReleased(u: View, w: View, x: View, k: nat)
    requires OthersKeep(u, w, {}) && OnlyLocks(u, w, {k}) && w.inUse == u.inUse + multiset{k} && !u.HasLock(k)
    requires x.inUse == w.inUse - multiset{k} && x.slot == w.slot && |x.bufs| == |w.bufs|
    requires OthersKeep(w, x, {k}) && OnlyLocks(w, x, {}) && !x.HasLock(k)
    ensures x.inUse == u.inUse && OnlyLocks(u, x, {}) && OthersKeep(u, x, {})
  {
    KeepBut(u, w, x, k);
    forall j | x.HasLock(j) ensures u.HasLock(j) { assert w.HasLock(j); }
    assert u.inUse + multiset{k} - multiset{k} == u.inUse;
  }

  ghost predicate OverwrittenAs(v: View, w: View, k: nat, data: Block)
    requires v.Held(k)
  {
    && k < |v.disk| == |v.truth|
    && w.disk == v.disk[k := data] && w.truth == v.truth[k := data] && w.trace == v.trace + [Write(k, data)]
    && w.n == v.n && w.pinned == v.pinned && w.inUse == v.inUse && w.slot == v.slot && |w.bufs| == |v.bufs|
    && w.Held(k) && BufOf(w, k).data == data
    && OnlyLocks(v, w, {}) && OthersKeep(v, w, {k})
  }

  lemma OverwriteKeeps(v: View, k: nat, data: Block)
    requires v.Ok() && v.Held(k)
    ensures k < |v.disk| == |v.truth|
    ensures OverwrittenAs(v, Written(Stored(v, k, data), k), k, data)
  {
    assert v.BlockOk(k);
    var w := Written(Stored(v, k, data), k);
    forall j | j in v.inUse && j != k ensures StillUsed(v, w, j) {
      assert v.RefOk(j) && v.BlockOk(j);
    }
  }

  /** b is the buffer bget gives for block k. */
  ghost predicate Supplies(v: View, b: nat, k: nat) {
    b < v.n < |v.bufs| && k < |v.disk| &&
    if k in v.slot then v.slot[k] == b && v.bufs[b].blockno == k else v.bufs[b].refcnt == 0
  }

  ghost function ReadIn(v: View, b: nat, k: nat): (w: View)
    requires Supplies(v, b, k)
  {
    Filled(Locked(Gotten(v, b, k), k), k)
  }

  ghost function PutBack(v: View, k: nat): (w: View)
    requires k in v.slot && v.slot[k] < |v.bufs| && 0 < BufOf(v, k).refcnt
    requires BufOf(v, k).refcnt == 1 ==> Movable(Unreferenced(Unlocked(v, k), k), v.slot[k])
  {
    Dropped(Unlocked(v, k), k)
  }

  ghost function Gotten(v: View, b: nat, k: nat): (w: View)
    requires Supplies(v, b, k)
  {
    if k in v.slot then Reused(v, k) else Recycled(v, b, k)
  }

  /** After bget the block's buffer is unlocked, so acquiresleep does not wait. */
  lemma GottenOk(v: View, b: nat, k: nat)
    requires v.Ok() && Supplies(v, b, k) && !v.HasLock(k)
    ensures var w := Gotten(v, b, k);
            && w.Ok()
            && k in w.slot && w.slot[k] == b && !BufOf(w, k).locked
            && SameStore(v, w) && w.inUse == v.inUse + multiset{k}
  {
    if k in v.slot {
      assert v.BlockOk(k);
      NextOk(v, Reuse(k));
    } else {
      assert v.BufOk(b);
      if v.bufs[b].dev != 0 { assert v.BlockOk(v.bufs[b].blockno); }
      NextOk(v, Recycle(b, k));
    }
  }

  lemma ReadInOk(v: View, b: nat, k: nat)
    requires v.Ok() && Supplies(v, b, k) && !v.HasLock(k)
    ensures var w := ReadIn(v, b, k);
            && w.Ok()
            && w.Held(k) && w.slot[k] == b && BufOf(w, k).data == v.truth[k] && BufOf(w, k).blockno == k
            && SameStore(v, w) && w.inUse == v.inUse + multiset{k}
  {
    var v1 := Gotten(v, b, k);
    GottenOk(v, b, k);
    assert v1.BlockOk(k);
    NextOk(v1, Lock(k));
    var v2 := Locked(v1, k);
    LockKeepsLatest(v1, k);
    NextOk(v2, Fill(k));
    FillLatest(v2, k);
  }

  lemma LockKeepsLatest(v: View, k: nat)
    requires v.Ok() && Enabled(v, Lock(k))
    ensures var x := BufOf(Locked(v, k), k);
            x.locked && x.blockno == k && (x.valid ==> x.data == v.truth[k]) && SameStore(v, Locked(v, k))
  {
    assert v.BlockOk(k);
  }

  lemma FillLatest(v: View, k: nat)
    requires v.Ok() && Enabled(v, Fill(k))
    ensures var x, y := BufOf(v, k), BufOf(Filled(v, k), k);
            y.locked && y.valid && y.blockno == x.blockno && y.data == (if x.valid then x.data else v.truth[k])
  {
    assert v.BlockOk(k) && v.DiskOk(k);
  }

  lemma ReadInKeeps(v: View, b: nat, k: nat, j: nat)
    requires v.Ok() && Supplies(v, b, k) && !v.HasLock(k) && j in v.inUse
    ensures StillUsed(v, ReadIn(v, b, k), j)
  {
    assert v.RefOk(j) && v.BlockOk(j);
    if k in v.slot { assert v.BlockOk(k); } else { assert v.BufOk(b); }
  }

  lemma ReadInKeepsAll(v: View, b: nat, k: nat)
    requires v.Ok() && Supplies(v, b, k) && !v.HasLock(k)
    ensures OthersKeep(v, ReadIn(v, b, k), {}) && OnlyLocks(v, ReadIn(v, b, k), {k})
  {
    forall j | j in v.inUse ensures StillUsed(v, ReadIn(v, b, k), j) { ReadInKeeps(v, b, k, j); }
    forall j | ReadIn(v, b, k).HasLock(j) ensures v.HasLock(j) || j == k {
      if j in v.slot { assert v.BlockOk(j); }
    }
  }

  lemma PutBackKeepsAll(v: View, k: nat)
    requires v.Ok() && v.Held(k) && 0 < BufOf(v, k).refcnt
    requires BufOf(v, k).refcnt == 1 ==> Movable(Unreferenced(Unlocked(v, k), k), v.slot[k])
    ensures OthersKeep(v, PutBack(v, k), {k}) && OnlyLocks(v, PutBack(v, k), {}) && !PutBack(v, k).HasLock(k)
  {
    forall j | j in v.inUse && j != k ensures StillUsed(v, PutBack(v, k), j) { PutBackKeeps(v, k, j); }
    PutBackLocks(v, k);
  }

  lemma PutBackLocks(v: View, k: nat)
    requires v.Ok() && v.Held(k) && 0 < BufOf(v, k).refcnt
    requires BufOf(v, k).refcnt == 1 ==> Movable(Unreferenced(Unlocked(v, k), k), v.slot[k])
    ensures OnlyLocks(v, PutBack(v, k), {}) && !PutBack(v, k).HasLock(k)
  {
    var u, b, w := Unreferenced(Unlocked(v, k), k), v.slot[k], PutBack(v, k);
    forall j | j in v.slot ensures v.slot[j] < |v.bufs| && w.bufs[v.slot[j]].locked == u.bufs[v.slot[j]].locked {
      assert v.BlockOk(j);
      if BufOf(v, k).refcnt == 1 {
        assert SameButLinks(u.bufs[v.slot[j]], Unlink(u.bufs, b)[v.slot[j]]);
        assert SameButLinks(Unlink(u.bufs, b)[v.slot[j]], PushFront(Unlink(u.bufs, b), v.n, b)[v.slot[j]]);
      }
    }
  }

  lemma PutBackOk(v: View, k: nat)
    requires v.Ok() && v.Held(k) && k < |v.truth|
    requires BufOf(v, k).data == v.truth[k]
    ensures 0 < BufOf(v, k).refcnt
    ensures BufOf(v, k).refcnt == 1 ==> Movable(Unreferenced(Unlocked(v, k), k), v.slot[k])
    ensures var w := PutBack(v, k);
            w.Ok() && SameStore(v, w) && w.inUse == v.inUse - multiset{k} && w.slot == v.slot
  {
    assert v.BlockOk(k);
    NextOk(v, Unlock(k));
    DroppedOk(Unlocked(v, k), k);
    NextOk(Unlocked(v, k), Drop(k));
  }

  lemma PutBackKeeps(v: View, k: nat, j: nat)
    requires v.Ok() && v.Held(k) && j in v.inUse && j != k && 0 < BufOf(v, k).refcnt
    requires BufOf(v, k).refcnt == 1 ==> Movable(Unreferenced(Unlocked(v, k), k), v.slot[k])
    ensures StillUsed(v, PutBack(v, k), j)
  {
    assert v.RefOk(j) && v.BlockOk(j) && v.BlockOk(k);
    var u, b := Unreferenced(Unlocked(v, k), k), v.slot[k];
    if BufOf(v, k).refcnt == 1 {
      assert SameButLinks(u.bufs[v.slot[j]], Unlink(u.bufs, b)[v.slot[j]]);
      assert SameButLinks(Unlink(u.bufs, b)[v.slot[j]], PushFront(Unlink(u.bufs, b), v.n, b)[v.slot[j]]);
    }
  }

  /** The parts of the view that bread and brelse leave alone. */
  ghost predicate SameStore(v: View, w: View) {
    v.n == w.n && v.truth == w.truth && v.disk == w.disk && v.trace == w.trace && v.pinned == w.pinned
  }

  /** The blocks somebody pins or uses. */
  ghost function Refs(v: View): (s: set<nat>)
  {
    set k | k in v.pinned + v.inUse
  }

  /** If every buffer is referenced, there are as many referenced blocks as buffers:
      bget's "no buffers" panic needs that many. */
  lemma AllReferencedCount(v: View)
    requires v.Ok() && AllReferenced(v)
    ensures v.n <= |Refs(v)|
  {
    var held := set i | 0 <= i < v.n :: v.bufs[i].blockno;
    forall i | 0 <= i < v.n ensures v.bufs[i].blockno in Refs(v) {
      assert v.BufOk(i) && v.BlockOk(v.bufs[i].blockno);
    }
    assert held <= Refs(v);
    DistinctBlocks(v, v.n);
    Counting.SubsetSize(held, Refs(v));
  }

  lemma {:induction false} DistinctBlocks(v: View, m: nat)
    requires v.Ok() && AllReferenced(v) && m <= v.n
    ensures |set i | 0 <= i < m :: v.bufs[i].blockno| == m
  {
    if m > 0 {
      DistinctBlocks(v, m - 1);
      var s, x := set i | 0 <= i < m - 1 :: v.bufs[i].blockno, v.bufs[m - 1].blockno;
      forall i | 0 <= i < m - 1 ensures v.bufs[i].blockno != x {
        assert v.BufOk(i) && v.BufOk(m - 1);
      }
      assert (set i | 0 <= i < m :: v.bufs[i].blockno) == s + {x};
    }
  }

  ghost predicate AllReferenced(v: View) {
    v.n <= |v.bufs| && forall i :: 0 <= i < v.n ==> v.bufs[i].refcnt > 0
  }

  /** b is unreferenced, and every buffer less recently released than b is referenced. */
  ghost predicate IsVictim(v: View, b: nat)
    requires v.Ok()
  {
    && b < v.n && v.bufs[b].refcnt == 0
    && forall j :: Position(v.Order(), b) < j < v.n ==> v.bufs[v.Order()[j]].refcnt > 0
  }

  lemma VictimAt(v: View, i: nat)
    requires v.Ok() && i < v.n && v.bufs[v.Order()[i]].refcnt == 0
    requires forall j :: i + 1 < j <= v.n ==> v.bufs[([v.n] + v.Order())[j]].refcnt > 0
    ensures IsVictim(v, v.Order()[i])
  {
    assert Position(v.Order(), v.Order()[i]) == i;
    forall j | i < j < v.n ensures v.bufs[v.Order()[j]].refcnt > 0 {
      assert ([v.n] + v.Order())[j + 1] == v.Order()[j];
    }
  }

  lemma OnRing(n: nat, s: seq<nat>, b: nat)
    requires b in s
    ensures exists j :: 1 <= j <= |s| && ([n] + s)[j] == b
  {
    assert ([n] + s)[1 + Position(s, b)] == b;
  }
}
