/** The free list of user/umalloc.c as sorted blocks, and its circular links through memory.
    Addresses and sizes count headers; BASE is the address of the static list head. */
module FreeList {
  const BASE: nat := 1

  datatype Block = Block(addr: nat, size: nat)
  {
    function End(): (e: nat) { addr + size }
  }

  ghost function Range(a: nat, n: nat): (s: set<nat>)
    ensures forall u: nat {:trigger u in s} :: u in s <==> a <= u < a + n
  {
    if n == 0 then {} else Range(a, n - 1) + {a + n - 1}
  }

  /** All units of a list of blocks. */
  ghost function Units(bs: seq<Block>): (s: set<nat>) {
    if bs == [] then {} else Range(bs[0].addr, bs[0].size) + Units(bs[1..])
  }

  lemma {:induction false} UnitsConcat(a: seq<Block>, b: seq<Block>)
    ensures Units(a + b) == Units(a) + Units(b)
  {
    if a == [] {
      assert a + b == b;
    } else {
      assert (a + b)[1..] == a[1..] + b;
      UnitsConcat(a[1..], b);
    }
  }

  lemma UnitsSplit(bs: seq<Block>, i: nat)
    requires i < |bs|
    ensures Units(bs) == Units(bs[..i]) + Range(bs[i].addr, bs[i].size) + Units(bs[i + 1..])
  {
    assert bs == bs[..i] + bs[i..] && bs[i..][1..] == bs[i + 1..];
    UnitsConcat(bs[..i], bs[i..]);
  }

  // ----- order -----

  ghost predicate Apart(bs: seq<Block>, i: nat)
    requires i + 1 < |bs|
  {
    bs[i].End() < bs[i + 1].addr
  }

  ghost predicate Follows(bs: seq<Block>, i: nat)
    requires i + 1 < |bs|
  {
    bs[i].End() <= bs[i + 1].addr
  }

  /** Address order, without overlap, of blocks that are not empty. */
  ghost predicate Ordered(bs: seq<Block>) {
    && (forall i {:trigger bs[i]} :: 0 <= i < |bs| ==> bs[i].size > 0 && bs[i].addr > BASE)
    && (forall i: nat {:trigger Follows(bs, i)} :: i + 1 < |bs| ==> Follows(bs, i))
  }

  /** ... and no two of them touch. */
  ghost predicate Canonical(bs: seq<Block>) {
    Ordered(bs) && forall i: nat {:trigger Apart(bs, i)} :: i + 1 < |bs| ==> Apart(bs, i)
  }

  lemma {:induction false} OrderedPair(bs: seq<Block>, i: nat, j: nat)
    requires Ordered(bs) && i < j < |bs|
    ensures bs[i].End() <= bs[j].addr
    decreases j
  {
    assert Follows(bs, j - 1);
    if i < j - 1 { OrderedPair(bs, i, j - 1); }
  }

  lemma {:induction false} UnitsIn(bs: seq<Block>, u: nat) returns (i: nat)
    requires u in Units(bs)
    ensures i < |bs| && bs[i].addr <= u < bs[i].End()
  {
    if u in Range(bs[0].addr, bs[0].size) {
      i := 0;
    } else {
      i := UnitsIn(bs[1..], u);
      i := i + 1;
    }
  }

  lemma InUnits(bs: seq<Block>, i: nat, u: nat)
    requires i < |bs| && bs[i].addr <= u < bs[i].End()
    ensures u in Units(bs)
  {
    UnitsSplit(bs, i);
  }

  /** The blocks after the first lie beyond it. */
  lemma {:induction false} TailBeyond(bs: seq<Block>, u: nat)
    requires Canonical(bs) && bs != [] && u in Units(bs[1..])
    ensures u > bs[0].End()
  {
    var i := UnitsIn(bs[1..], u);
    assert Apart(bs, 0);
    if i > 0 { OrderedPair(bs, 1, i + 1); }
  }

  lemma TailCanonical(bs: seq<Block>)
    requires Canonical(bs) && bs != []
    ensures Canonical(bs[1..])
  {
    var t := bs[1..];
    forall i: nat | i + 1 < |t| ensures Follows(t, i) && Apart(t, i) {
      assert Follows(bs, i + 1) && Apart(bs, i + 1);
    }
  }

  /** The first block is the first run of units, so equal units give equal first blocks. */
  lemma HeadFirst(a: seq<Block>, b: seq<Block>)
    requires Canonical(a) && Canonical(b) && Units(a) == Units(b) && a != [] && b != []
    ensures a[0].addr <= b[0].addr && a[0].End() >= b[0].End()
  {
    InUnits(b, 0, b[0].addr);
    var i := UnitsIn(a, b[0].addr);
    if i > 0 { OrderedPair(a, 0, i); }
    InUnits(a, 0, a[0].addr);
    var j := UnitsIn(b, a[0].addr);
    if j > 0 { OrderedPair(b, 0, j); }
    if a[0].End() < b[0].End() {
      InUnits(b, 0, a[0].End());
      var m := UnitsIn(a, a[0].End());
      if m > 0 { InTail(a, m, a[0].End()); TailBeyond(a, a[0].End()); }
    }
  }

  lemma InTail(a: seq<Block>, m: nat, u: nat)
    requires 0 < m < |a| && a[m].addr <= u < a[m].End()
    ensures u in Units(a[1..])
  {
    InUnits(a[1..], m - 1, u);
  }

  lemma NoUnits(bs: seq<Block>)
    requires Canonical(bs)
    ensures bs == [] <==> Units(bs) == {}
  {
    if bs != [] { InUnits(bs, 0, bs[0].addr); }
  }

  /** Full coalescing: the list is determined by the set of free units. */
  lemma {:induction false} CanonicalUnique(a: seq<Block>, b: seq<Block>)
    requires Canonical(a) && Canonical(b) && Units(a) == Units(b)
    ensures a == b
  {
    NoUnits(a);
    NoUnits(b);
    if a != [] {
      HeadFirst(a, b);
      HeadFirst(b, a);
      assert a[0] == b[0];
      forall u | u in Units(a[1..]) ensures u in Units(b[1..]) { TailBeyond(a, u); }
      forall u | u in Units(b[1..]) ensures u in Units(a[1..]) { TailBeyond(b, u); }
      TailCanonical(a);
      TailCanonical(b);
      CanonicalUnique(a[1..], b[1..]);
      assert a == [a[0]] + a[1..] && b == [b[0]] + b[1..];
    }
  }

  // ----- putting a block in -----

  /** The number of blocks below an address, free's place for it. */
  ghost predicate PlaceOf(bs: seq<Block>, addr: nat, t: nat) {
    && t <= |bs|
    && (forall i {:trigger bs[i]} :: 0 <= i < t ==> bs[i].addr < addr)
    && (forall i {:trigger bs[i]} :: t <= i < |bs| ==> addr < bs[i].addr)
  }

  ghost function InsertAt(bs: seq<Block>, t: nat, b: Block): (r: seq<Block>)
    requires t <= |bs|
  {
    bs[..t] + [b] + bs[t..]
  }

  /** Block i swallows block i + 1. */
  ghost function MergeAt(bs: seq<Block>, i: nat): (r: seq<Block>)
    requires i + 1 < |bs|
  {
    bs[..i] + [Block(bs[i].addr, bs[i].size + bs[i + 1].size)] + bs[i + 2..]
  }

  predicate Touches(bs: seq<Block>, i: nat) { i + 1 < |bs| && bs[i].End() == bs[i + 1].addr }

  /** Apart everywhere but perhaps after the blocks in holes. */
  ghost predicate ApartBut(bs: seq<Block>, holes: set<int>) {
    Ordered(bs) && forall i: nat {:trigger Apart(bs, i)} :: i + 1 < |bs| && i !in holes ==> Apart(bs, i)
  }

  lemma InsertOrdered(bs: seq<Block>, t: nat, b: Block)
    requires Canonical(bs) && PlaceOf(bs, b.addr, t) && b.size > 0 && b.addr > BASE && Units(bs) !! Range(b.addr, b.size)
    ensures ApartBut(InsertAt(bs, t, b), {t - 1, t})
  {
    var r := InsertAt(bs, t, b);
    forall i: nat | i + 1 < |r| ensures Follows(r, i) && (i != t - 1 && i != t ==> Apart(r, i)) {
      if i == t - 1 {
        if bs[i].End() > b.addr { InUnits(bs, i, b.addr); }
      } else if i == t {
        if b.End() > bs[t].addr { InUnits(bs, t, bs[t].addr); }
      } else if i < t - 1 {
        assert Follows(bs, i) && Apart(bs, i);
      } else {
        assert Follows(bs, i - 1) && Apart(bs, i - 1);
      }
    }
  }

  lemma InsertUnits(bs: seq<Block>, t: nat, b: Block)
    requires t <= |bs|
    ensures Units(InsertAt(bs, t, b)) == Units(bs) + Range(b.addr, b.size)
  {
    assert bs == bs[..t] + bs[t..] && InsertAt(bs, t, b) == bs[..t] + ([b] + bs[t..]);
    UnitsConcat(bs[..t], bs[t..]);
    UnitsConcat(bs[..t], [b] + bs[t..]);
    UnitsSplit([b] + bs[t..], 0);
    assert ([b] + bs[t..])[1..] == bs[t..];
  }

  lemma MergeOrdered(bs: seq<Block>, i: nat, holes: set<int>)
    requires ApartBut(bs, holes) && Touches(bs, i) && forall h {:trigger h in holes} :: h in holes ==> h <= i
    ensures ApartBut(MergeAt(bs, i), holes - {i})
  {
    var r := MergeAt(bs, i);
    forall j: nat | j + 1 < |r| ensures Follows(r, j) && (j !in holes - {i} ==> Apart(r, j)) {
      if j < i {
        assert Follows(bs, j) && (j !in holes ==> Apart(bs, j));
      } else {
        assert Follows(bs, j + 1) && Apart(bs, j + 1);
      }
    }
  }

  lemma MergeUnits(bs: seq<Block>, i: nat)
    requires Touches(bs, i)
    ensures Units(MergeAt(bs, i)) == Units(bs)
  {
    Pieces(bs, i);
    SameMiddle(bs[..i], bs[i], bs[i + 1], bs[i + 2..]);
  }

  lemma Pieces(bs: seq<Block>, i: nat)
    requires i + 1 < |bs|
    ensures bs == bs[..i] + [bs[i], bs[i + 1]] + bs[i + 2..]
  {
  }

  lemma SameMiddle(pre: seq<Block>, a: Block, b: Block, post: seq<Block>)
    requires a.End() == b.addr
    ensures Units(pre + [a, b] + post) == Units(pre + [Block(a.addr, a.size + b.size)] + post)
  {
    UnitsMiddle(pre, [a, b], post);
    UnitsMiddle(pre, [Block(a.addr, a.size + b.size)], post);
    TwoUnits(a, b);
  }

  lemma UnitsMiddle(a: seq<Block>, m: seq<Block>, b: seq<Block>)
    ensures Units(a + m + b) == Units(a) + Units(m) + Units(b)
  {
    UnitsConcat(a + m, b);
    UnitsConcat(a, m);
  }

  lemma TwoUnits(a: Block, b: Block)
    requires a.End() == b.addr
    ensures Units([a, b]) == Units([Block(a.addr, a.size + b.size)])
  {
    OneUnits(a);
    OneUnits(b);
    OneUnits(Block(a.addr, a.size + b.size));
    UnitsConcat([a], [b]);
    assert [a, b] == [a] + [b];
  }

  lemma OneUnits(b: Block)
    ensures Units([b]) == Range(b.addr, b.size)
  {
    UnitsSplit([b], 0);
  }

  ghost function MergeIf(bs: seq<Block>, i: int): (r: seq<Block>) {
    if 0 <= i && Touches(bs, i) then MergeAt(bs, i) else bs
  }

  /** free's new list: the block in its place, joined with its upper and its lower neighbour. */
  ghost function Put(bs: seq<Block>, t: nat, b: Block): (r: seq<Block>)
    requires t <= |bs|
  {
    MergeIf(MergeIf(InsertAt(bs, t, b), t), t - 1)
  }

  lemma UpperJoined(bs: seq<Block>, t: nat, b: Block)
    requires Canonical(bs) && PlaceOf(bs, b.addr, t) && b.size > 0 && b.addr > BASE && Units(bs) !! Range(b.addr, b.size)
    ensures ApartBut(MergeIf(InsertAt(bs, t, b), t), {t - 1})
    ensures Units(MergeIf(InsertAt(bs, t, b), t)) == Units(bs) + Range(b.addr, b.size)
  {
    InsertOrdered(bs, t, b);
    InsertUnits(bs, t, b);
    var r := InsertAt(bs, t, b);
    if Touches(r, t) {
      MergeOrdered(r, t, {t - 1, t});
      MergeUnits(r, t);
      assert {t - 1, t} - {t} == {t - 1};
    } else if t + 1 < |r| {
      assert Follows(r, t);
    }
  }

  lemma PutCanonical(bs: seq<Block>, t: nat, b: Block)
    requires Canonical(bs) && PlaceOf(bs, b.addr, t) && b.size > 0 && b.addr > BASE && Units(bs) !! Range(b.addr, b.size)
    ensures Canonical(Put(bs, t, b)) && Units(Put(bs, t, b)) == Units(bs) + Range(b.addr, b.size)
  {
    UpperJoined(bs, t, b);
    var q := MergeIf(InsertAt(bs, t, b), t);
    if t > 0 && Touches(q, t - 1) {
      MergeOrdered(q, t - 1, {t - 1});
      MergeUnits(q, t - 1);
      assert {t - 1} - {t - 1} == {};
    } else if 0 < t < |q| {
      assert Follows(q, t - 1);
    }
  }

  // ----- taking units out -----

  /** malloc takes the last n units of block i, or all of it. */
  ghost function Cut(bs: seq<Block>, i: nat, n: nat): (r: seq<Block>)
    requires i < |bs| && n <= bs[i].size
  {
    if bs[i].size == n then bs[..i] + bs[i + 1..] else bs[i := Block(bs[i].addr, bs[i].size - n)]
  }

  lemma CutCanonical(bs: seq<Block>, i: nat, n: nat)
    requires Canonical(bs) && i < |bs| && 0 < n <= bs[i].size
    ensures Canonical(Cut(bs, i, n))
  {
    var r := Cut(bs, i, n);
    forall j: nat | j + 1 < |r| ensures Follows(r, j) && Apart(r, j) {
      if bs[i].size == n && j + 1 == i && i + 1 < |bs| {
        assert Apart(bs, j) && Apart(bs, i);
      } else if bs[i].size == n && j >= i {
        assert Apart(bs, j + 1);
      } else {
        assert Apart(bs, j);
      }
    }
  }

  lemma CutUnits(bs: seq<Block>, i: nat, n: nat)
    requires Ordered(bs) && i < |bs| && n <= bs[i].size
    ensures Units(Cut(bs, i, n)) == Units(bs) - Range(bs[i].End() - n, n)
    ensures Range(bs[i].End() - n, n) <= Units(bs)
  {
    var b := bs[i];
    UnitsSplit(bs, i);
    CutDisjoint(bs, i);
    CutRange(b, n);
    SetCut(Units(bs[..i]), Range(b.addr, b.size), Units(bs[i + 1..]), Range(b.End() - n, n));
    CutPieces(bs, i, n);
  }

  lemma CutPieces(bs: seq<Block>, i: nat, n: nat)
    requires i < |bs| && n <= bs[i].size
    ensures Units(Cut(bs, i, n)) == Units(bs[..i]) + Range(bs[i].addr, bs[i].size - n) + Units(bs[i + 1..])
  {
    if bs[i].size == n {
      UnitsConcat(bs[..i], bs[i + 1..]);
    } else {
      var c := Block(bs[i].addr, bs[i].size - n);
      assert bs[i := c] == bs[..i] + [c] + bs[i + 1..];
      UnitsMiddle(bs[..i], [c], bs[i + 1..]);
      OneUnits(c);
    }
  }

  lemma SetCut(a: set<nat>, r: set<nat>, b: set<nat>, x: set<nat>)
    requires a !! r && b !! r && x <= r
    ensures (a + r + b) - x == a + (r - x) + b && x <= a + r + b
  {
  }

  lemma CutRange(b: Block, n: nat)
    requires n <= b.size
    ensures Range(b.addr, b.size - n) == Range(b.addr, b.size) - Range(b.End() - n, n)
    ensures Range(b.End() - n, n) <= Range(b.addr, b.size)
  {
  }

  /** A block's units are in no other block. */
  lemma CutDisjoint(bs: seq<Block>, i: nat)
    requires Ordered(bs) && i < |bs|
    ensures Units(bs[..i]) !! Range(bs[i].addr, bs[i].size) && Units(bs[i + 1..]) !! Range(bs[i].addr, bs[i].size)
  {
    forall u | u in Units(bs[..i]) ensures u !in Range(bs[i].addr, bs[i].size) {
      var j := UnitsIn(bs[..i], u);
      OrderedPair(bs, j, i);
    }
    forall u | u in Units(bs[i + 1..]) ensures u !in Range(bs[i].addr, bs[i].size) {
      var j := UnitsIn(bs[i + 1..], u);
      OrderedPair(bs, i, i + 1 + j);
    }
  }

  // ----- the circular list in memory -----

  /** Node 0 is the static head; node k is free block k - 1. */
  ghost function Node(bs: seq<Block>, k: nat): (a: nat)
    requires k <= |bs|
  {
    if k == 0 then BASE else bs[k - 1].addr
  }

  ghost function NodeSize(bs: seq<Block>, k: nat): (n: nat)
    requires k <= |bs|
  {
    if k == 0 then 0 else bs[k - 1].size
  }

  ghost function Succ(bs: seq<Block>, k: nat): (j: nat)
    requires k <= |bs|
    ensures j <= |bs|
  {
    if k == |bs| then 0 else k + 1
  }

  type Words = map<nat, nat>

  ghost predicate LinkOk(bs: seq<Block>, ptr: Words, size: Words, k: nat)
    requires k <= |bs|
  {
    var a := Node(bs, k);
    a in ptr && ptr[a] == Node(bs, Succ(bs, k)) && a in size && size[a] == NodeSize(bs, k)
  }

  ghost predicate Linked(bs: seq<Block>, ptr: Words, size: Words) {
    forall k: nat {:trigger LinkOk(bs, ptr, size, k)} :: k <= |bs| ==> LinkOk(bs, ptr, size, k)
  }

  lemma NodesRise(bs: seq<Block>, i: nat, j: nat)
    requires Ordered(bs) && i < j <= |bs|
    ensures Node(bs, i) < Node(bs, j)
  {
    if i > 0 { OrderedPair(bs, i - 1, j - 1); }
  }

  lemma LinkInsert(bs: seq<Block>, t: nat, b: Block, ptr: Words, size: Words)
    requires Ordered(bs) && PlaceOf(bs, b.addr, t) && b.addr > BASE && Linked(bs, ptr, size)
    requires b.addr in size && size[b.addr] == b.size
    ensures Linked(InsertAt(bs, t, b), ptr[b.addr := Node(bs, Succ(bs, t))][Node(bs, t) := b.addr], size)
  {
    var r := InsertAt(bs, t, b);
    var ptr' := ptr[b.addr := Node(bs, Succ(bs, t))][Node(bs, t) := b.addr];
    forall k: nat | k <= |r| ensures LinkOk(r, ptr', size, k) {
      if k <= t {
        assert LinkOk(bs, ptr, size, k);
        if k < t { NodesRise(bs, k, t); }
      } else if k > t + 1 {
        assert LinkOk(bs, ptr, size, k - 1);
        NodesRise(bs, t, k - 1);
      }
    }
  }

  lemma LinkMerge(bs: seq<Block>, i: nat, ptr: Words, size: Words)
    requires Ordered(bs) && i + 1 < |bs| && Linked(bs, ptr, size)
    ensures bs[i + 1].addr in ptr
    ensures Linked(MergeAt(bs, i), ptr[bs[i].addr := ptr[bs[i + 1].addr]], size[bs[i].addr := bs[i].size + bs[i + 1].size])
  {
    assert LinkOk(bs, ptr, size, i + 2);
    var r := MergeAt(bs, i);
    var ptr', size' := ptr[bs[i].addr := ptr[bs[i + 1].addr]], size[bs[i].addr := bs[i].size + bs[i + 1].size];
    forall k: nat | k <= |r| ensures LinkOk(r, ptr', size', k) {
      if k <= i {
        assert LinkOk(bs, ptr, size, k);
        NodesRise(bs, k, i + 1);
      } else if k > i + 1 {
        assert LinkOk(bs, ptr, size, k + 1);
        NodesRise(bs, i + 1, k + 1);
      }
    }
  }

  lemma LinkRemove(bs: seq<Block>, i: nat, ptr: Words, size: Words)
    requires Ordered(bs) && i < |bs| && Linked(bs, ptr, size)
    ensures bs[i].addr in ptr
    ensures Linked(bs[..i] + bs[i + 1..], ptr[Node(bs, i) := ptr[bs[i].addr]], size)
  {
    assert LinkOk(bs, ptr, size, i + 1);
    var r := bs[..i] + bs[i + 1..];
    var ptr' := ptr[Node(bs, i) := ptr[bs[i].addr]];
    forall k: nat | k <= |r| ensures LinkOk(r, ptr', size, k) {
      if k <= i {
        assert LinkOk(bs, ptr, size, k);
        if k < i { NodesRise(bs, k, i); }
      } else {
        assert LinkOk(bs, ptr, size, k + 1);
        NodesRise(bs, i, k + 1);
      }
    }
  }

  lemma LinkShrink(bs: seq<Block>, i: nat, n: nat, ptr: Words, size: Words)
    requires Ordered(bs) && i < |bs| && 0 < n < bs[i].size && Linked(bs, ptr, size)
    ensures Linked(bs[i := Block(bs[i].addr, bs[i].size - n)], ptr,
                   size[bs[i].addr := bs[i].size - n][bs[i].End() - n := n])
  {
    var r := bs[i := Block(bs[i].addr, bs[i].size - n)];
    var size' := size[bs[i].addr := bs[i].size - n][bs[i].End() - n := n];
    forall k: nat | k <= |r| ensures LinkOk(r, ptr, size', k) {
      assert LinkOk(bs, ptr, size, k);
      if k <= i {
        NodesRise(bs, k, i + 1);
      } else if k > i + 1 {
        NodesRise(bs, i + 1, k);
        OrderedPair(bs, i, k - 1);
      }
    }
  }

  // ----- the whole heap -----

  /** live: blocks handed out, with their sizes.  at: the live block of each unit.  arena: every
      unit obtained from sbrk. */
  datatype View = View(free: seq<Block>, live: Words, at: Words, arena: set<nat>)
  {
    ghost predicate AtOk(u: nat)
      requires u in at
    {
      at[u] in live && at[u] <= u < at[u] + live[at[u]]
    }

    ghost predicate LiveOk(a: nat)
      requires a in live
    {
      && a > BASE && live[a] > 0
      && forall u: nat {:trigger u in at} :: a <= u < a + live[a] ==> u in at && at[u] == a
    }

    /** Free and live blocks tile the arena. */
    ghost predicate Ok() {
      && Canonical(free)
      && Units(free) !! at.Keys && Units(free) + at.Keys == arena
      && (forall u {:trigger AtOk(u)} :: u in at ==> AtOk(u))
      && (forall a {:trigger LiveOk(a)} :: a in live ==> LiveOk(a))
    }
  }

  type Sound = v: View | v.Ok() ghost witness View([], map[], map[], {})

  /** A live block shares no unit with another live block or with the free list. */
  lemma LiveDisjoint(v: View, a: nat, b: nat)
    requires v.Ok() && a in v.live && b in v.live && a != b
    ensures Range(a, v.live[a]) !! Range(b, v.live[b]) && Range(a, v.live[a]) !! Units(v.free)
    ensures Range(a, v.live[a]) <= v.arena
  {
    assert v.LiveOk(a) && v.LiveOk(b);
    forall u | u in Range(a, v.live[a]) ensures u !in Range(b, v.live[b]) && u in v.at { assert u in v.at; }
  }

  /** The units of a new live block. */
  ghost function Claimed(a: nat, n: nat): (m: Words) { map u | u in Range(a, n) :: a }

  ghost function Allocated(v: View, i: nat, n: nat): (w: View)
    requires i < |v.free| && n <= v.free[i].size
  {
    var a := v.free[i].End() - n;
    v.(free := Cut(v.free, i, n), live := v.live[a := n], at := v.at + Claimed(a, n))
  }

  /** New units a .. a + n are live until they are freed into the list. */
  ghost function Grown(v: View, a: nat, n: nat): (w: View) {
    v.(live := v.live[a := n], at := v.at + Claimed(a, n), arena := v.arena + Range(a, n))
  }

  ghost function Returned(v: View, a: nat, t: nat): (w: View)
    requires a in v.live && t <= |v.free|
  {
    v.(free := Put(v.free, t, Block(a, v.live[a])), live := v.live - {a}, at := v.at - Range(a, v.live[a]))
  }

  lemma ClaimOk(v: View, w: View, a: nat, n: nat)
    requires v.Ok() && n > 0 && a > BASE && Range(a, n) !! v.at.Keys
    requires w.live == v.live[a := n] && w.at == v.at + Claimed(a, n)
    ensures forall u {:trigger w.AtOk(u)} :: u in w.at ==> w.AtOk(u)
    ensures forall b {:trigger w.LiveOk(b)} :: b in w.live ==> w.LiveOk(b)
    ensures a !in v.live && w.at.Keys == v.at.Keys + Range(a, n)
  {
    forall b | b in v.live ensures b in v.at { assert v.LiveOk(b); }
    assert a in Range(a, n);
    forall u | u in w.at ensures w.AtOk(u) {
      if u !in Range(a, n) { assert v.AtOk(u); }
    }
    forall b | b in w.live ensures w.LiveOk(b) {
      if b != a { assert v.LiveOk(b); }
      forall u: nat | b <= u < b + w.live[b] ensures u in w.at && w.at[u] == b {
        assert b != a ==> u in v.at && v.at[u] == b;
        assert u in Range(a, n) || u !in Range(a, n);
      }
    }
  }

  lemma AllocatedOk(v: View, i: nat, n: nat)
    requires v.Ok() && i < |v.free| && 0 < n <= v.free[i].size
    ensures Allocated(v, i, n).Ok() && v.free[i].End() - n !in v.live
  {
    var w := Allocated(v, i, n);
    var a := v.free[i].End() - n;
    CutCanonical(v.free, i, n);
    CutUnits(v.free, i, n);
    var f, k, x := Units(v.free), v.at.Keys, Range(a, n);
    SetMove(f, k, x);
    ClaimOk(v, w, a, n);
    assert Units(w.free) == f - x && w.at.Keys == k + x;
  }

  lemma SetMove(f: set<nat>, k: set<nat>, x: set<nat>)
    requires f !! k && x <= f
    ensures x !! k && (f - x) !! (k + x) && (f - x) + (k + x) == f + k
  {
  }

  lemma GrownOk(v: View, a: nat, n: nat)
    requires v.Ok() && n > 0 && a > BASE && Range(a, n) !! v.arena
    ensures Grown(v, a, n).Ok() && a !in v.live
  {
    ClaimOk(v, Grown(v, a, n), a, n);
  }

  lemma ReturnedOk(v: View, a: nat, t: nat)
    requires v.Ok() && a in v.live && PlaceOf(v.free, a, t)
    ensures Returned(v, a, t).Ok()
  {
    var w := Returned(v, a, t);
    assert v.LiveOk(a);
    forall u | u in Range(a, v.live[a]) ensures u in v.at { assert a <= u < a + v.live[a]; }
    PutCanonical(v.free, t, Block(a, v.live[a]));
    forall u | u in w.at ensures w.AtOk(u) {
      assert v.AtOk(u);
      assert u !in Range(a, v.live[a]);
    }
    forall b | b in w.live ensures w.LiveOk(b) {
      assert v.LiveOk(b);
      forall u: nat | b <= u < b + w.live[b] ensures u in w.at && w.at[u] == b {
        assert u in v.at && v.at[u] == b;
        assert u !in Range(a, v.live[a]);
      }
    }
  }
}
