/** The Kernighan and Ritchie allocator of user/umalloc.c over memory words ptr and size. */
module Umalloc {
  import opened FreeList

  const HEADER: nat := 16        // sizeof(Header)
  const MINUNITS: nat := 4096    // morecore's least request

  class Heap {
    var ptr: Words
    var size: Words
    var freep: nat               // 0 before the first call
    ghost var view: Sound
    ghost var pos: nat           // the node that freep points to

    ghost predicate Valid()
      reads this
    {
      if freep == 0 then view.free == [] && view.live == map[]
      else
        && pos <= |view.free| && freep == Node(view.free, pos) && Linked(view.free, ptr, size)
        && Headers(view.live, size)
    }

    constructor ()
      ensures Valid() && view == View([], map[], map[], {})
    {
      freep := 0;
      view := View([], map[], map[], {});
    }

    /** free: the block joins the free list, merged with the neighbours that it touches. */
    method Free(ap: nat) returns (ghost t: nat)
      requires Valid() && ap > 0 && ap - 1 in view.live
      modifies this
      ensures Valid() && freep != 0 && PlaceOf(old(view).free, ap - 1, t) && view == Returned(old(view), ap - 1, t)
      ensures pos == t
    {
      var bp := ap - 1;
      assert view.LiveOk(bp);
      var p;
      LiveApart(view, bp);
      p, t := Place(bp);
      Join(bp, p, t);
    }

    /** free's scan for the node after which bp belongs; it ends from every start. */
    method Place(bp: nat) returns (p: nat, ghost t: nat)
      requires Valid() && freep != 0 && bp > BASE && bp !in Units(view.free)
      ensures PlaceOf(view.free, bp, t) && p == Node(view.free, t)
    {
      ghost var bs := view.free;
      t := FindPlace(bs, bp);
      p := freep;
      ghost var i: nat := pos;
      assert LinkOk(bs, ptr, size, i);
      while !(bp > p && bp < ptr[p])
        invariant i <= |bs| && p == Node(bs, i) && LinkOk(bs, ptr, size, i)
        decreases if i <= t then t - i else |bs| + 1 - i + t
      {
        AtPlace(bs, bp, t, i);
        if p >= ptr[p] && (bp > p || bp < ptr[p]) {
          break;
        }
        p := ptr[p];
        i := Succ(bs, i);
        assert LinkOk(bs, ptr, size, i);
      }
      AtPlace(bs, bp, t, i);
    }

    /** The block goes behind node p and joins its neighbours. */
    method Join(bp: nat, p: nat, ghost t: nat)
      requires Valid() && freep != 0 && Freeing(view, bp, t) && p == Node(view.free, t)
      modifies this
      ensures Valid() && freep == p && freep != 0 && pos == t && view == Returned(old(view), bp, t)
    {
      ghost var v: Sound := view;
      JoinUpper(bp, p, t);
      JoinLower(bp, p, t);
      ReturnedOk(v, bp, t);
      PosAfter(v.free, t, Block(bp, v.live[bp]));
      freep := p;
      pos := t;
      view := Returned(v, bp, t);
    }

    method JoinUpper(bp: nat, p: nat, ghost t: nat)
      requires Freeing(view, bp, t) && p == Node(view.free, t) && Linked(view.free, ptr, size) && Headers(view.live, size)
      modifies `ptr, `size
      ensures bp in ptr && Linked(Upper(view, bp, t), ptr[p := bp], size) && Headers(view.live - {bp}, size)
    {
      assert LinkOk(view.free, ptr, size, t);
      NodeNotLive(view, t);
      UpperLinked(view, bp, t, ptr, size);
      var next := ptr[p];
      if bp + size[bp] == next {
        size := size[bp := size[bp] + size[next]];
        ptr := ptr[bp := ptr[next]];
      } else {
        ptr := ptr[bp := next];
      }
    }

    method JoinLower(bp: nat, p: nat, ghost t: nat)
      requires Freeing(view, bp, t) && p == Node(view.free, t) && bp in ptr
      requires Linked(Upper(view, bp, t), ptr[p := bp], size) && Headers(view.live - {bp}, size)
      modifies `ptr, `size
      ensures Linked(Put(view.free, t, Block(bp, view.live[bp])), ptr, size) && Headers(view.live - {bp}, size)
    {
      hide Linked, Put, Upper, View.Ok;
      NodeNotLive(view, t);
      LowerLinked(view, bp, t, ptr, size);
      if p + size[p] == bp {
        size := size[p := size[p] + size[bp]];
        ptr := ptr[p := ptr[bp]];
      } else {
        ptr := ptr[p := bp];
      }
    }

    /** morecore: at least MINUNITS more units, freed into the list.  brk is what sbrk returns, 0
        for failure; f is a block that now fits. */
    method Morecore(nu: nat, brk: nat) returns (p: nat, ghost f: nat)
      requires Valid() && freep != 0 && nu > 0 && SbrkOk(view, brk)
      modifies this
      ensures Valid() && freep != 0
      ensures brk == 0 ==> p == 0 && view == old(view) && pos == old(pos)
      ensures brk != 0 ==>
                && p == freep && p != 0 && f < |view.free| && view.free[f].size >= nu
                && view.live == old(view).live && view.arena == old(view).arena + Range(brk, Extent(nu))
    {
      if brk == 0 {
        return 0, 0;
      }
      ghost var v: Sound := view;
      var n := if nu < MINUNITS then MINUNITS else nu;
      AddCore(n, brk);
      ghost var t := Free(brk + 1);
      f := Coalesced(v, brk, n, t);
      p := freep;
    }

    method AddCore(n: nat, brk: nat)
      requires Valid() && freep != 0 && n > 0 && brk != 0 && SbrkOk(view, brk)
      modifies `size, `view
      ensures Valid() && view == Grown(old(view), brk, n)
    {
      NewCore(view, brk, n, ptr, size);
      size := size[brk := n];
      view := Grown(view, brk, n);
    }

    /** A block of n units cut from the node after node i; freep stays at node i. */
    method Take(prevp: nat, p: nat, n: nat, ghost i: nat) returns (a: nat)
      requires Valid() && freep != 0 && i < |view.free| && prevp == Node(view.free, i) && p == Node(view.free, i + 1)
      requires 0 < n <= view.free[i].size
      modifies this
      ensures Valid() && freep != 0
      ensures a !in old(view).live && view.live == old(view).live[a := n] && view.arena == old(view).arena
      ensures a == old(view).free[i].End() - n && view.free == Cut(old(view).free, i, n) && pos == i
    {
      ghost var v: Sound := view;
      assert LinkOk(v.free, ptr, size, i + 1);
      hide Allocated, Cut, Linked, View.Ok, Units;
      AllocatedOk(v, i, n);
      AllocatedIs(v, i, n);
      CutNode(v.free, i, n);
      if size[p] == n {
        a := Unlink(prevp, p, i);
      } else {
        a := Split(p, n, i);
      }
      freep := prevp;
      pos := i;
      view := Allocated(v, i, n);
    }

    method Unlink(prevp: nat, p: nat, ghost i: nat) returns (a: nat)
      requires Linked(view.free, ptr, size) && Headers(view.live, size) && i < |view.free| && prevp == Node(view.free, i) && p == Node(view.free, i + 1)
      modifies `ptr
      ensures a == view.free[i].addr && Linked(Cut(view.free, i, view.free[i].size), ptr, size)
      ensures Headers(view.live[a := view.free[i].size], size)
    {
      assert LinkOk(view.free, ptr, size, i + 1);
      LinkRemove(view.free, i, ptr, size);
      ptr := ptr[prevp := ptr[p]];
      a := p;
    }

    method Split(p: nat, n: nat, ghost i: nat) returns (a: nat)
      requires Linked(view.free, ptr, size) && Headers(view.live, size)
      requires i < |view.free| && p == view.free[i].addr && 0 < n < view.free[i].size
      modifies `size
      ensures a == view.free[i].End() - n && Linked(Cut(view.free, i, n), ptr, size) && Headers(view.live[a := n], size)
    {
      assert LinkOk(view.free, ptr, size, i + 1);
      NodeNotLive(view, i + 1);
      LinkShrink(view.free, i, n, ptr, size);
      size := size[p := size[p] - n];
      a := p + size[p];
      size := size[a := n];
    }

    /** The list head, before the first search. */
    method Init()
      requires Valid()
      modifies `ptr, `size, `freep, `pos
      ensures Valid() && freep != 0 && (old(freep) != 0 ==> freep == old(freep) && pos == old(pos))
    {
      if freep == 0 {
        ptr := ptr[BASE := BASE];
        freep := BASE;
        size := size[BASE := 0];
        pos := 0;
      }
    }

    /** malloc: a block big enough and disjoint from every live one, or 0 when nothing fits and sbrk
        fails.  The search ends: a full turn without a fit grows the heap, and then one fits. */
    method Malloc(nbytes: nat, brk: nat) returns (r: nat)
      requires Valid() && SbrkOk(view, brk)
      modifies this
      ensures Valid() && freep != 0
      ensures r == 0 ==> brk == 0 && view == old(view) && NoFit(view, NUnits(nbytes))
      ensures r > 0 ==> Served(old(view), view, r - 1, NUnits(nbytes), brk)
      ensures !NoFit(old(view), NUnits(nbytes)) ==>
                && r > 0 && old(freep) != 0 && FirstFit(old(view).free, old(pos), pos, NUnits(nbytes))
                && TakenFrom(old(view).free, view.free, pos, NUnits(nbytes), r - 1)
    {
      hide View.Ok, Searched, Progress, Distance, Units, Served, NoFit, FirstFit;
      var n := NUnits(nbytes);
      NoneFits(view, n);
      Init();
      ghost var v: Sound := view;
      var prevp := freep;
      ghost var i: nat, start: nat := pos, pos;
      SearchBegins(v, n, brk, i);
      assert LinkOk(view.free, ptr, size, i);
      var p := ptr[prevp];
      ghost var grown := false;
      ghost var f: nat := 0;
      while true
        invariant Valid() && freep != 0 && i <= |view.free| && prevp == Node(view.free, i) && p == Node(view.free, Succ(view.free, i))
        invariant Searched(view.free, pos, Succ(view.free, i), n)
        invariant Progress(v, view, n, brk, grown, f) && 0 <= Distance(|view.free|, pos, Succ(view.free, i))
        invariant !grown ==> pos == start
        decreases !grown, Distance(|view.free|, pos, Succ(view.free, i))
      {
        assert LinkOk(view.free, ptr, size, Succ(view.free, i));
        if size[p] >= n {
          ghost var w: Sound := view;
          var a := Take(prevp, p, n, i);
          TakenServed(v, w, view, a, n, brk, grown, f);
          TakenFirst(v, w, start, i, n, brk, grown, f);
          return a + 1;
        }
        prevp, p, i, grown, f := Advance(p, n, brk, v, Succ(view.free, i), grown, f);
        if prevp == 0 {
          return 0;
        }
      }
    }

    /** Node c, at p, is too small: go on to the next, with more core after a full turn. */
    method Advance(p: nat, n: nat, brk: nat, ghost v: Sound, ghost c: nat, ghost before: bool, ghost was: nat)
      returns (prevp: nat, next: nat, ghost i: nat, ghost grown: bool, ghost f: nat)
      requires Valid() && freep != 0 && n > 0 && c <= |view.free| && p == Node(view.free, c) && SbrkOk(v, brk)
      requires Searched(view.free, pos, c, n) && NodeSize(view.free, c) < n && Progress(v, view, n, brk, before, was)
      modifies this
      ensures Valid() && freep != 0
      ensures prevp == 0 ==> brk == 0 && view == v && NoFit(v, n)
      ensures prevp != 0 ==> && i <= |view.free| && prevp == Node(view.free, i) && next == Node(view.free, Succ(view.free, i))
                             && Searched(view.free, pos, Succ(view.free, i), n) && Progress(v, view, n, brk, grown, f)
      ensures prevp != 0 && !grown ==> pos == old(pos)
      ensures prevp != 0 ==> (before ==> grown) && 0 <= Distance(|view.free|, pos, Succ(view.free, i))
      ensures prevp != 0 && grown == before ==> Distance(|view.free|, pos, Succ(view.free, i)) < Distance(|old(view).free|, old(pos), c)
    {
      SearchedStep(view.free, pos, c, n);
      prevp, i, grown, f := p, c, before, was;
      if p == freep {
        SameNode(view.free, pos, c);
        AllSearched(view, n, f);
        prevp, f := Morecore(n, brk);
        if prevp == 0 {
          return 0, 0, 0, false, 0;
        }
        grown := true;
        i := pos;
      }
      assert LinkOk(view.free, ptr, size, i);
      next := ptr[prevp];
    }
  }

  // ----- the search of malloc -----

  lemma AllocatedIs(v: View, i: nat, n: nat)
    requires i < |v.free| && n <= v.free[i].size
    ensures var w := Allocated(v, i, n);
            w.free == Cut(v.free, i, n) && w.live == v.live[v.free[i].End() - n := n] && w.arena == v.arena
  {
  }

  lemma CutNode(bs: seq<Block>, i: nat, n: nat)
    requires i < |bs| && n <= bs[i].size
    ensures i <= |Cut(bs, i, n)| && Node(Cut(bs, i, n), i) == Node(bs, i)
  {
  }

  /** The least number of units that hold a header and nbytes bytes. */
  function NUnits(nbytes: nat): (n: nat)
    ensures n > 0 && (n - 1) * HEADER >= nbytes && (n > 1 ==> (n - 2) * HEADER < nbytes)
  {
    (nbytes + HEADER - 1) / HEADER + 1
  }

  /** What morecore asks for: the units needed, and no fewer than MINUNITS. */
  function Extent(nu: nat): (n: nat)
    ensures n >= nu && n >= MINUNITS && (n == nu || n == MINUNITS)
  {
    if nu < MINUNITS then MINUNITS else nu
  }

  /** sbrk returns addresses above everything it has returned before. */
  ghost predicate SbrkOk(v: View, brk: nat) {
    brk != 0 ==> brk > BASE && forall u {:trigger u in v.arena} :: u in v.arena ==> u < brk
  }

  ghost predicate NoFit(v: View, n: nat) { forall i :: 0 <= i < |v.free| ==> v.free[i].size < n }

  /** Nothing fitted, so the heap has grown. */
  ghost predicate Supplied(v: View, w: View, n: nat, brk: nat) {
    NoFit(v, n) && brk != 0 && w.live == v.live && w.arena == v.arena + Range(brk, Extent(n))
  }

  /** Before or after the heap has grown, when block f fits. */
  ghost predicate Progress(v: View, w: View, n: nat, brk: nat, grown: bool, f: nat) {
    if grown then f < |w.free| && w.free[f].size >= n && Supplied(v, w, n, brk) else w == v
  }

  /** A new live block a of n units; the arena is as before, unless nothing fitted. */
  ghost predicate Served(v: View, w: View, a: nat, n: nat, brk: nat) {
    && a !in v.live && w.live == v.live[a := n]
    && (w.arena == v.arena || (NoFit(v, n) && brk != 0 && w.arena == v.arena + Range(brk, Extent(n))))
  }

  /** Node x lies on the way from the node after j up to the one before c. */
  ghost predicate Passed(j: nat, c: nat, x: nat) { if j < c then j < x < c else x > j || x < c }

  ghost predicate Searched(bs: seq<Block>, j: nat, c: nat, n: nat) {
    forall x: nat {:trigger NodeSize(bs, x)} :: x <= |bs| && Passed(j, c, x) ==> NodeSize(bs, x) < n
  }

  /** Block i is the first in the circle after node j that has n units. */
  ghost predicate FirstFit(bs: seq<Block>, j: nat, i: nat, n: nat) {
    i < |bs| && bs[i].size >= n && forall x: nat {:trigger NodeSize(bs, x)} :: x <= |bs| && Passed(j, i + 1, x) ==> NodeSize(bs, x) < n
  }

  /** The last n units of block i were taken, at address a. */
  ghost predicate TakenFrom(bs: seq<Block>, r: seq<Block>, i: nat, n: nat, a: nat) {
    i < |bs| && n <= bs[i].size && a == bs[i].End() - n && r == Cut(bs, i, n)
  }

  ghost function Distance(n: nat, j: nat, c: nat): (d: int) { if c <= j then j - c else n + 1 - c + j }

  lemma SearchBegins(v: View, n: nat, brk: nat, i: nat)
    requires i <= |v.free|
    ensures Searched(v.free, i, Succ(v.free, i), n) && Progress(v, v, n, brk, false, 0) && 0 <= Distance(|v.free|, i, Succ(v.free, i))
  {
  }

  lemma TakenServed(v: View, w: View, x: View, a: nat, n: nat, brk: nat, grown: bool, f: nat)
    requires Progress(v, w, n, brk, grown, f) && a !in w.live && x.live == w.live[a := n] && x.arena == w.arena
    ensures Served(v, x, a, n, brk)
  {
  }

  /** The block taken is the first that fits, unless none does and the heap has grown. */
  lemma TakenFirst(v: View, w: View, j: nat, i: nat, n: nat, brk: nat, grown: bool, f: nat)
    requires Progress(v, w, n, brk, grown, f) && i < |w.free| && w.free[i].size >= n && (!grown ==> Searched(w.free, j, i + 1, n))
    ensures if grown then NoFit(v, n) else w == v && FirstFit(v.free, j, i, n)
  {
  }

  lemma NoneFits(v: View, n: nat)
    ensures v.free == [] ==> NoFit(v, n)
  {
  }

  lemma SearchedStep(bs: seq<Block>, j: nat, c: nat, n: nat)
    requires j <= |bs| && c <= |bs| && Searched(bs, j, c, n) && NodeSize(bs, c) < n
    ensures c != j ==> Searched(bs, j, Succ(bs, c), n) && 0 <= Distance(|bs|, j, Succ(bs, c)) < Distance(|bs|, j, c)
    ensures c == j ==> forall x: nat {:trigger NodeSize(bs, x)} :: x <= |bs| ==> NodeSize(bs, x) < n
  {
  }

  lemma SameNode(bs: seq<Block>, i: nat, j: nat)
    requires Ordered(bs) && i <= |bs| && j <= |bs| && Node(bs, i) == Node(bs, j)
    ensures i == j
  {
    if i < j { NodesRise(bs, i, j); }
    if j < i { NodesRise(bs, j, i); }
  }

  lemma AllSearched(v: View, n: nat, f: nat)
    requires forall x: nat {:trigger NodeSize(v.free, x)} :: x <= |v.free| ==> NodeSize(v.free, x) < n
    ensures NoFit(v, n) && (f < |v.free| ==> v.free[f].size < n)
  {
    forall i | 0 <= i < |v.free| ensures v.free[i].size < n { assert NodeSize(v.free, i + 1) < n; }
  }

  // ----- growth -----

  lemma NewCore(v: View, brk: nat, n: nat, ptr: Words, size: Words)
    requires v.Ok() && brk != 0 && SbrkOk(v, brk) && n > 0 && Linked(v.free, ptr, size) && Headers(v.live, size)
    ensures Grown(v, brk, n).Ok() && brk !in v.live && Linked(v.free, ptr, size[brk := n])
    ensures Headers(v.live[brk := n], size[brk := n])
  {
    GrownOk(v, brk, n);
    var size' := size[brk := n];
    forall k: nat | k <= |v.free| ensures LinkOk(v.free, ptr, size', k) {
      assert LinkOk(v.free, ptr, size, k);
      if k > 0 { InUnits(v.free, k - 1, v.free[k - 1].addr); }
    }
  }

  /** After the merge, one block holds all the new units. */
  lemma Coalesced(v: View, brk: nat, n: nat, t: nat) returns (f: nat)
    requires v.Ok() && brk != 0 && SbrkOk(v, brk) && n > 0 && PlaceOf(v.free, brk, t)
    ensures var w := Returned(Grown(v, brk, n), brk, t);
            f < |w.free| && w.free[f].size >= n && w.live == v.live && w.arena == v.arena + Range(brk, n)
  {
    GrownOk(v, brk, n);
    var u := Grown(v, brk, n);
    LiveApart(u, brk);
    assert u.LiveOk(brk);
    PutCanonical(u.free, t, Block(brk, n));
    f := RunInBlock(Returned(u, brk, t).free, brk, n);
    assert v.live[brk := n] - {brk} == v.live;
  }

  /** In a canonical list a run of units lies in one block. */
  lemma RunInBlock(bs: seq<Block>, a: nat, n: nat) returns (i: nat)
    requires Canonical(bs) && n > 0 && Range(a, n) <= Units(bs)
    ensures i < |bs| && bs[i].addr <= a && a + n <= bs[i].End()
  {
    assert a in Range(a, n);
    i := UnitsIn(bs, a);
    if bs[i].End() < a + n {
      assert bs[i].End() in Range(a, n);
      var j := UnitsIn(bs, bs[i].End());
      if j < i { OrderedPair(bs, j, i); }
      if i < j { assert Apart(bs, i); if i + 1 < j { OrderedPair(bs, i + 1, j); } }
    }
  }

  /** The list once bp is linked behind p and joined with the block above it. */
  ghost function Upper(v: View, bp: nat, t: nat): (q: seq<Block>)
    requires bp in v.live && t <= |v.free|
  {
    MergeIf(InsertAt(v.free, t, Block(bp, v.live[bp])), t)
  }

  ghost predicate Freeing(v: View, bp: nat, t: nat) {
    v.Ok() && bp in v.live && PlaceOf(v.free, bp, t)
  }

  lemma UpperLinked(v: View, bp: nat, t: nat, ptr: Words, size: Words)
    requires Freeing(v, bp, t) && Linked(v.free, ptr, size) && Headers(v.live, size)
    ensures var p, next := Node(v.free, t), Node(v.free, Succ(v.free, t));
            && next in ptr && next in size
            && if bp + v.live[bp] == next
               then Linked(Upper(v, bp, t), ptr[bp := ptr[next]][p := bp], size[bp := v.live[bp] + size[next]])
               else Linked(Upper(v, bp, t), ptr[bp := next][p := bp], size)
  {
    hide Linked, LinkOk, InsertAt, MergeAt, Upper, Units, Touches, View.Ok, Ordered, Node, Succ;
    var p, next := Node(v.free, t), Node(v.free, Succ(v.free, t));
    var r, links: Words := InsertAt(v.free, t, Block(bp, v.live[bp])), ptr[bp := next][p := bp];
    UpperInserted(v, bp, t, ptr, size);
    UpperCases(v, bp, t);
    if bp + v.live[bp] == next {
      LinkMerge(r, t, links, size);
      NextStays(ptr, p, bp, next);
    }
  }

  /** Before any join: the freed block in its place, linked. */
  lemma UpperInserted(v: View, bp: nat, t: nat, ptr: Words, size: Words)
    requires Freeing(v, bp, t) && Linked(v.free, ptr, size) && Headers(v.live, size)
    ensures var p, next, r := Node(v.free, t), Node(v.free, Succ(v.free, t)), InsertAt(v.free, t, Block(bp, v.live[bp]));
            && next in ptr && next in size && Ordered(r) && Linked(r, ptr[bp := next][p := bp], size)
            && size[next] == NodeSize(v.free, Succ(v.free, t))
  {
    hide InsertAt, Units;
    var b := Block(bp, v.live[bp]);
    assert v.LiveOk(bp) && LinkOk(v.free, ptr, size, Succ(v.free, t));
    LiveApart(v, bp);
    LinkInsert(v.free, t, b, ptr, size);
    InsertOrdered(v.free, t, b);
  }

  /** The freed block joins the next one exactly when it ends where that begins. */
  lemma UpperCases(v: View, bp: nat, t: nat)
    requires Freeing(v, bp, t)
    ensures var p, next, r := Node(v.free, t), Node(v.free, Succ(v.free, t)), InsertAt(v.free, t, Block(bp, v.live[bp]));
            if bp + v.live[bp] == next
            then && t + 1 < |r| && r[t] == Block(bp, v.live[bp]) && r[t + 1] == Block(next, NodeSize(v.free, Succ(v.free, t)))
                 && Upper(v, bp, t) == MergeAt(r, t) && p != bp && p != next && bp != next
            else Upper(v, bp, t) == r
  {
    assert v.LiveOk(bp);
    if t > 0 { NodesRise(v.free, 0, t); }
    if t < |v.free| { NodesRise(v.free, t, t + 1); }
  }

  lemma NextStays(ptr: Words, p: nat, bp: nat, next: nat)
    requires next in ptr && p != bp && p != next && bp != next
    ensures var links: Words := ptr[bp := next][p := bp]; next in links && links[bp := links[next]] == ptr[bp := ptr[next]][p := bp]
  {
  }

  lemma UpperShape(v: View, bp: nat, t: nat)
    requires bp in v.live && t <= |v.free|
    ensures t < |Upper(v, bp, t)| && Upper(v, bp, t)[t].addr == bp && (t > 0 ==> Upper(v, bp, t)[t - 1] == v.free[t - 1])
  {
  }

  lemma LowerIs(v: View, bp: nat, t: nat)
    requires bp in v.live && t <= |v.free|
    ensures var q := Upper(v, bp, t);
            Put(v.free, t, Block(bp, v.live[bp])) == if t > 0 && Touches(q, t - 1) then MergeAt(q, t - 1) else q
  {
  }

  lemma LowerLinked(v: View, bp: nat, t: nat, ptr: Words, size: Words)
    requires Freeing(v, bp, t) && bp in ptr && Linked(Upper(v, bp, t), ptr[Node(v.free, t) := bp], size)
    ensures var p := Node(v.free, t);
            && p in size && bp in size
            && if p + size[p] == bp
               then Linked(Put(v.free, t, Block(bp, v.live[bp])), ptr[p := ptr[bp]], size[p := size[p] + size[bp]])
               else Linked(Put(v.free, t, Block(bp, v.live[bp])), ptr[p := bp], size)
  {
    hide Put, Upper, Units, Linked, LinkOk, Touches, MergeAt, View.Ok, Ordered;
    LowerIs(v, bp, t);
    var p, q := Node(v.free, t), Upper(v, bp, t);
    var links: Words := ptr[p := bp];
    LowerCases(v, bp, t, links, size);
    if p + size[p] == bp {
      LinkMerge(q, t - 1, links, size);
      assert links[p := links[bp]] == ptr[p := ptr[bp]];
    }
  }

  /** The node before the freed block joins it exactly when it ends where that begins. */
  lemma LowerCases(v: View, bp: nat, t: nat, links: Words, size: Words)
    requires Freeing(v, bp, t) && Linked(Upper(v, bp, t), links, size)
    ensures var p, q := Node(v.free, t), Upper(v, bp, t);
            && p in size && bp in size && p != bp && Ordered(q)
            && (t > 0 && Touches(q, t - 1) <==> p + size[p] == bp)
            && (t > 0 ==> t < |q| && q[t - 1].addr == p && q[t - 1].size == size[p] && q[t].addr == bp && q[t].size == size[bp])
  {
    assert v.LiveOk(bp);
    LiveApart(v, bp);
    UpperJoined(v.free, t, Block(bp, v.live[bp]));
    UpperShape(v, bp, t);
    hide Upper, Units, View.Ok;
    var q := Upper(v, bp, t);
    assert LinkOk(q, links, size, t) && LinkOk(q, links, size, t + 1);
  }

  lemma LiveApart(v: View, a: nat)
    requires v.Ok() && a in v.live
    ensures Range(a, v.live[a]) !! Units(v.free) && a !in Units(v.free)
  {
    assert v.LiveOk(a);
    forall u | u in Range(a, v.live[a]) ensures u in v.at { assert a <= u < a + v.live[a]; }
    assert a in Range(a, v.live[a]);
  }

  lemma NodeNotLive(v: View, k: nat)
    requires v.Ok() && k <= |v.free|
    ensures Node(v.free, k) !in v.live
  {
    forall a | a in v.live ensures a > BASE && a !in Units(v.free) { assert v.LiveOk(a); LiveApart(v, a); }
    if k > 0 { InUnits(v.free, k - 1, v.free[k - 1].addr); }
  }

  /** The node before a freed block keeps its place. */
  lemma PosAfter(bs: seq<Block>, t: nat, b: Block)
    requires t <= |bs|
    ensures t <= |Put(bs, t, b)| && Node(Put(bs, t, b), t) == Node(bs, t)
  {
  }

  ghost predicate Headers(live: Words, size: Words) {
    forall a {:trigger a in live} :: a in live ==> a in size && size[a] == live[a]
  }

  lemma {:induction false} FindPlace(bs: seq<Block>, addr: nat) returns (t: nat)
    requires Ordered(bs) && addr !in Units(bs)
    ensures PlaceOf(bs, addr, t)
  {
    t := 0;
    while t < |bs| && bs[t].addr < addr
      invariant t <= |bs| && forall i {:trigger bs[i]} :: 0 <= i < t ==> bs[i].addr < addr
    {
      t := t + 1;
    }
    forall i | t <= i < |bs| ensures addr < bs[i].addr {
      if t < i { OrderedPair(bs, t, i); }
      if bs[t].addr == addr { InUnits(bs, t, addr); }
    }
  }

  /** The test of free's scan holds at the right node and at no other. */
  lemma AtPlace(bs: seq<Block>, addr: nat, t: nat, i: nat)
    requires Ordered(bs) && PlaceOf(bs, addr, t) && addr > BASE && i <= |bs|
    ensures var p, n := Node(bs, i), Node(bs, Succ(bs, i));
            ((addr > p && addr < n) || (p >= n && (addr > p || addr < n))) <==> i == t
  {
    if i < |bs| { NodesRise(bs, i, i + 1); }
    if 0 < i { NodesRise(bs, 0, i); }
  }
}
