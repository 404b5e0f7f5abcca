/** The loops of kernel/virtio_disk.c over descriptors and rings, in place. */
module VirtioDisk {
  import opened VirtQueue
  import Counting

  datatype Desc = Desc(next: nat, more: bool)      // flags: only VRING_DESC_F_NEXT

  class Disk {
    const free: array<bool>
    const desc: array<Desc>
    const info: array<Info>
    const ring: array<nat>         // avail->ring
    const usedRing: array<nat>     // used->ring
    var availIdx: nat              // avail->idx
    var takenIdx: nat              // how far the device has read avail
    var usedIdx: nat               // used->idx, the device's
    var seenIdx: nat               // disk.used_idx, the driver's
    var busy: set<nat>             // buffers with b->disk == 1
    ghost var view: Sound

    ghost predicate Valid()
      reads this, free, desc, info, ring, usedRing
    {
      && free[..] == view.free && info[..] == view.info && ring[..] == view.ring && usedRing[..] == view.usedRing
      && desc.Length == NUM && Links(desc[..], view) && ring != usedRing
      && Indices() && busy == view.busy
    }

    ghost predicate Indices()
      reads this
    {
      && availIdx == |view.avail| % IDX && takenIdx == view.taken % IDX
      && usedIdx == |view.used| % IDX && seenIdx == view.seen % IDX
    }

    constructor ()
      ensures Valid() && view == Empty()
      ensures fresh(free) && fresh(desc) && fresh(info) && fresh(ring) && fresh(usedRing)
    {
      free := new bool[NUM](_ => true);
      desc := new Desc[NUM](_ => Desc(0, false));
      info := new Info[NUM](_ => Info(-1, 0));
      ring := new nat[NUM](_ => 0);
      usedRing := new nat[NUM](_ => 0);
      availIdx, takenIdx, usedIdx, seenIdx, busy := 0, 0, 0, 0, {};
      view := Empty();
    }

    /** alloc_desc: the first free descriptor, or -1. */
    method AllocDesc() returns (r: int)
      modifies free
      ensures -1 <= r < free.Length
      ensures r < 0 ==> free[..] == old(free[..]) && forall i :: 0 <= i < free.Length ==> !free[i]
      ensures r >= 0 ==> old(free[r]) && free[..] == old(free[..])[r := false]
    {
      var i := 0;
      while i < free.Length
        invariant 0 <= i <= free.Length && free[..] == old(free[..]) && forall j :: 0 <= j < i ==> !free[j]
      {
        if free[i] {
          free[i] := false;
          return i;
        }
        i := i + 1;
      }
      return -1;
    }

    /** free_desc; a descriptor that is free would panic. */
    method FreeDesc(i: nat)
      requires i < free.Length && i < desc.Length && !free[i]
      modifies free, desc
      ensures free[..] == old(free[..])[i := true] && desc[..] == old(desc[..])[i := Desc(0, false)]
    {
      desc[i] := Desc(0, false);
      free[i] := true;
    }

    /** alloc3_desc: three descriptors, or none; then got holds every free one, at most two. */
    method Alloc3() returns (idx: seq<nat>, ghost got: seq<nat>)
      requires free.Length == desc.Length
      modifies free, desc
      ensures idx == [] || |idx| == 3
      ensures forall k :: 0 <= k < free.Length ==> free[k] == (old(free[k]) && k !in idx)
      ensures forall k :: 0 <= k < desc.Length ==> desc[k] == old(desc[k]) || old(free[k])
      ensures Distinct(idx) && forall j :: 0 <= j < |idx| ==> idx[j] < free.Length && old(free[idx[j]])
      ensures idx == [] ==> |got| <= 2 && forall k :: 0 <= k < free.Length && free[k] ==> k in got
    {
      idx, got := [], [];
      while |idx| < 3
        invariant |idx| <= 3 && Distinct(idx) && (forall j :: 0 <= j < |idx| ==> idx[j] < free.Length && old(free[idx[j]]))
        invariant forall k :: 0 <= k < free.Length ==> free[k] == (old(free[k]) && k !in idx)
        invariant desc[..] == old(desc[..])
      {
        var i := AllocDesc();
        if i < 0 {
          GiveBack(idx);
          got := idx;
          idx := [];
          return;
        }
        idx := idx + [i];
      }
    }

    /** alloc3_desc's inner loop. */
    method GiveBack(idx: seq<nat>)
      requires free.Length == desc.Length && Distinct(idx) && forall j :: 0 <= j < |idx| ==> idx[j] < free.Length && !free[idx[j]]
      modifies free, desc
      ensures forall k :: 0 <= k < free.Length ==> free[k] == (old(free[k]) || k in idx)
      ensures forall k :: 0 <= k < desc.Length ==> desc[k] == old(desc[k]) || k in idx
    {
      var j := 0;
      while j < |idx|
        invariant 0 <= j <= |idx|
        invariant forall k :: 0 <= k < free.Length ==> free[k] == (old(free[k]) || k in idx[..j])
        invariant forall k :: 0 <= k < desc.Length ==> desc[k] == old(desc[k]) || k in idx
      {
        assert idx[j] !in idx[..j];
        FreeDesc(idx[j]);
        assert idx[..j + 1] == idx[..j] + [idx[j]];
        j := j + 1;
      }
    }

    /** free_chain: the three descriptors of head h and no others. */
    method FreeChain(h: nat)
      requires free[..] == view.free && desc.Length == NUM && Links(desc[..], view) && h in view.chains
      modifies free, desc
      ensures var c := view.chains[h];
              && c.mid < NUM && c.tail < NUM && h < NUM
              && free[..] == view.free[h := true][c.mid := true][c.tail := true]
              && forall k :: 0 <= k < NUM && k != h && k != c.mid && k != c.tail ==> desc[k] == old(desc[k])
    {
      ghost var c := view.chains[h];
      ghost var chain := [h, c.mid, c.tail];
      assert view.ChainOk(h) && view.DescOk(h) && view.DescOk(c.mid) && view.DescOk(c.tail);
      var i := h;
      ghost var n := 0;
      while true
        invariant 0 <= n < 3 && i == chain[n] && desc[i] == old(desc[i])
        invariant free[..] == Opened(view.free, chain, n)
        invariant forall k :: 0 <= k < NUM && (k == h ==> n == 0) && (k == c.mid ==> n <= 1) ==> desc[k] == old(desc[k])
        decreases 3 - n
      {
        var more, next := desc[i].more, desc[i].next;
        FreeDesc(i);
        if !more {
          break;
        }
        i := next;
        n := n + 1;
      }
    }

    // ----- virtio_disk_rw, from one sleep to the next -----

    /** The request for buffer b is published, with head h, or must wait as two are in flight. */
    method Submit(b: nat) returns (h: int, ghost mid: nat, ghost tail: nat)
      requires Valid() && forall g {:trigger g in view.chains} :: g in view.chains ==> view.chains[g].b != b
      modifies `availIdx, `busy, `view, free, desc, info, ring
      ensures Valid()
      ensures h < 0 ==> view == old(view) && |view.chains| == 2
      ensures h >= 0 ==> h !in old(view).chains && CanSubmit(old(view), h, mid, tail, b)
      ensures h >= 0 ==> view == Submitted(old(view), h, mid, tail, b)
    {
      ghost var v: Sound := view;
      var idx;
      ghost var got;
      idx, got := Alloc3();
      if idx == [] {
        assert free[..] == v.free;
        TwoInFlight(v, got);
        return -1, 0, 0;
      }
      h, mid, tail := idx[0], idx[1], idx[2];
      assert free[..] == v.free[h := false][mid := false][tail := false];
      Publish(idx[0], idx[1], idx[2], b);
    }

    method WriteChain(h: nat, mid: nat, tail: nat)
      requires h < desc.Length && mid < desc.Length && tail < desc.Length
      modifies desc
      ensures desc[..] == old(desc[..])[h := Desc(mid, true)][mid := Desc(tail, true)][tail := Desc(0, false)]
    {
      desc[h] := Desc(mid, true);
      desc[mid] := Desc(tail, true);
      desc[tail] := Desc(0, false);
    }

    /** The head goes into the available ring, and the index moves on; the ring has had n entries. */
    method Offer(h: nat, ghost n: nat)
      requires availIdx == n % IDX && ring.Length == NUM
      modifies `availIdx, ring
      ensures ring[..] == old(ring[..])[n % NUM := h] && availIdx == (n + 1) % IDX
    {
      WrapIndex(n);
      ring[availIdx % NUM] := h;
      availIdx := (availIdx + 1) % IDX;
    }

    method Publish(h: nat, mid: nat, tail: nat, b: nat)
      requires CanSubmit(view, h, mid, tail, b) && free[..] == view.free[h := false][mid := false][tail := false]
      requires info[..] == view.info && ring[..] == view.ring && usedRing[..] == view.usedRing
      requires desc.Length == NUM && Links(desc[..], view) && ring != usedRing
      requires Indices() && busy == view.busy
      modifies `availIdx, `busy, `view, desc, info, ring
      ensures Valid() && view == Submitted(old(view), h, mid, tail, b) && h !in old(view).chains
    {
      assert h < NUM && mid < NUM && tail < NUM && view.Shape();
      hide View.Ok, CanSubmit;
      ghost var v: Sound := view;
      SubmittedOk(v, h, mid, tail, b);
      SubmittedCounts(v, h, mid, tail, b);
      WriteChain(h, mid, tail);
      ChainLinks(v, old(desc[..]), h, mid, tail, b);
      busy := busy + {b};
      info[h] := Info(b, 255);
      Offer(h, |v.avail|);
      view := Submitted(v, h, mid, tail, b);
    }

    /** The wait for b and the release of its chain: done only once the device has finished it and
        the interrupt handler has seen that. */
    method Complete(h: nat, b: nat) returns (done: bool)
      requires Valid() && h in view.chains && view.chains[h].b == b
      modifies `view, free, desc, info
      ensures Valid() && done == old(view).chains[h].phase.Seen?
      ensures old(view).ChainOk(h) && view == if done then Released(old(view), h) else old(view)
    {
      ghost var v: Sound := view;
      assert v.ChainOk(h);
      if b in busy {
        return false;
      }
      info[h] := info[h].(b := -1);
      FreeChain(h);
      FreedLinks(v, old(desc[..]), desc[..], h);
      ReleasedOk(v, h);
      view := Released(v, h);
      return true;
    }

    // ----- the device, which uses each available head once -----

    /** The device takes the next head when the indices differ. */
    method DeviceTake() returns (h: int)
      requires Valid()
      modifies `takenIdx, `view
      ensures Valid() && (h < 0 <==> old(view).taken == |old(view).avail|)
      ensures h < 0 ==> view == old(view)
      ensures h >= 0 ==> h == old(view).avail[old(view).taken] && h in old(view).chains && view == DeviceTook(old(view))
    {
      RingsFit(view);
      if takenIdx == availIdx {
        return -1;
      }
      assert view.AvailOk(view.taken);
      DeviceTookOk(view);
      WrapIndex(view.taken);
      h := ring[takenIdx % NUM];
      takenIdx := (takenIdx + 1) % IDX;
      view := DeviceTook(view);
    }

    /** The device finishes a request it has taken. */
    method DeviceFinish(h: nat)
      requires Valid() && h in view.chains && view.chains[h].phase.Taken?
      modifies `usedIdx, `view, info, usedRing
      ensures Valid() && h < NUM && view == DeviceDone(old(view), h)
    {
      ghost var v: Sound := view;
      DeviceDoneOk(v, h);
      WrapIndex(|v.used|);
      info[h] := info[h].(status := 0);
      usedRing[usedIdx % NUM] := h;
      usedIdx := (usedIdx + 1) % IDX;
      view := DeviceDone(v, h);
    }

    /** One turn of the interrupt handler. */
    method Notice()
      requires Valid() && view.seen < |view.used|
      modifies `seenIdx, `busy, `view
      ensures Valid() && old(view).used[old(view).seen] in old(view).chains && view == Noticed(old(view))
    {
      ghost var u: Sound := view;
      UsedEntry(u);
      NoticedOk(u);
      WrapIndex(u.seen);
      var id := usedRing[seenIdx % NUM];
      assert info[id].status == 0;
      busy := busy - {info[id].b};
      seenIdx := (seenIdx + 1) % IDX;
      view := Noticed(u);
    }

    /** virtio_disk_intr: exactly the finished requests become seen and exactly their buffers are
        no longer busy; rings, descriptors and all other requests are as before. */
    method Intr()
      requires Valid()
      modifies `seenIdx, `busy, `view
      ensures Valid() && view == AllSeen(old(view))
    {
      ghost var v: Sound := view;
      NoneSeen(v);
      hide View.Ok, Noticed, SeenUpTo, AllSeen;
      while seenIdx != usedIdx
        invariant Valid() && view.seen <= |v.used| && view == SeenUpTo(v, view.seen) && view.used == v.used
        decreases |view.used| - view.seen
      {
        IndexesDiffer(view);
        SeenNext(v, view);
        Notice();
      }
      IndexesDiffer(view);
      SeenToTheEnd(v);
    }
  }

  lemma ChainLinks(v: View, desc: seq<Desc>, h: nat, mid: nat, tail: nat, b: nat)
    requires v.Ok() && CanSubmit(v, h, mid, tail, b) && |desc| == NUM && Links(desc, v)
    ensures Links(desc[h := Desc(mid, true)][mid := Desc(tail, true)][tail := Desc(0, false)], Submitted(v, h, mid, tail, b))
  {
    var r := desc[h := Desc(mid, true)][mid := Desc(tail, true)][tail := Desc(0, false)];
    var w := Submitted(v, h, mid, tail, b);
    forall i | 0 <= i < NUM && !w.free[i] ensures r[i] == Desc(w.next[i], w.more[i]) {
      assert v.free[i] || desc[i] == Desc(v.next[i], v.more[i]);
    }
  }

  lemma FreedLinks(v: View, before: seq<Desc>, after: seq<Desc>, h: nat)
    requires v.Ok() && h in v.chains && v.ChainOk(h) && |before| == NUM && |after| == NUM && Links(before, v)
    requires var c := v.chains[h];
             forall k :: 0 <= k < NUM && k != h && k != c.mid && k != c.tail ==> after[k] == before[k]
    ensures Links(after, Released(v, h))
  {
    var w := Released(v, h);
    forall i | 0 <= i < NUM && !w.free[i] ensures after[i] == Desc(w.next[i], w.more[i]) {
      assert before[i] == Desc(v.next[i], v.more[i]);
    }
  }

  /** The first n descriptors of a chain are free again. */
  ghost function Opened(free: seq<bool>, chain: seq<nat>, n: nat): (r: seq<bool>)
    requires n <= |chain| && forall i :: 0 <= i < |chain| ==> chain[i] < |free|
    ensures |r| == |free|
  {
    if n == 0 then free else Opened(free, chain, n - 1)[chain[n - 1] := true]
  }

  ghost predicate Distinct(s: seq<nat>) { forall i, j :: 0 <= i < j < |s| ==> s[i] != s[j] }

  /** Every finished request is seen. */
  ghost function AllSeen(v: View): (w: View) {
    v.(seen := |v.used|,
       busy := v.busy - (set h | h in v.chains && v.chains[h].phase.Finished? :: v.chains[h].b),
       chains := map h | h in v.chains :: if v.chains[h].phase.Finished? then v.chains[h].(phase := Seen) else v.chains[h])
  }

  ghost predicate DoneBy(c: Chain, n: nat) { c.phase.Finished? && c.phase.k < n }

  /** Those are seen whose entry is among the first n of the used history. */
  ghost function SeenUpTo(v: View, n: nat): (w: View) {
    v.(seen := n,
       busy := v.busy - (set h | h in v.chains && DoneBy(v.chains[h], n) :: v.chains[h].b),
       chains := map h | h in v.chains :: if DoneBy(v.chains[h], n) then v.chains[h].(phase := Seen) else v.chains[h])
  }

  lemma NoneSeen(v: View)
    requires v.Ok()
    ensures v == SeenUpTo(v, v.seen) && v.seen <= |v.used|
  {
    forall h | h in v.chains ensures !DoneBy(v.chains[h], v.seen) { assert v.ChainOk(h); }
  }

  lemma SeenNext(v: View, w: View)
    requires v.Ok() && w.Ok() && w.seen < |w.used| && w == SeenUpTo(v, w.seen)
    ensures w.used[w.seen] in w.chains && Noticed(w) == SeenUpTo(v, Noticed(w).seen)
    ensures Noticed(w).seen == w.seen + 1 && Noticed(w).used == w.used
  {
    var n, g := w.seen, w.used[w.seen];
    assert w.UsedOk(n) && v.chains[g].phase == Finished(n);
    forall h | h in v.chains ensures DoneBy(v.chains[h], n + 1) <==> DoneBy(v.chains[h], n) || h == g {
      assert v.ChainOk(h);
    }
    var x, y := Noticed(w), SeenUpTo(v, n + 1);
    assert x.chains == y.chains && x.busy == y.busy;
  }

  lemma SeenToTheEnd(v: View)
    requires v.Ok()
    ensures SeenUpTo(v, |v.used|) == AllSeen(v)
  {
    forall h | h in v.chains ensures DoneBy(v.chains[h], |v.used|) <==> v.chains[h].phase.Finished? { assert v.ChainOk(h); }
    var x, y := SeenUpTo(v, |v.used|), AllSeen(v);
    assert x.chains == y.chains && x.busy == y.busy;
  }

  lemma WrapIndex(n: nat)
    ensures n % IDX % NUM == n % NUM && (n % IDX + 1) % IDX == (n + 1) % IDX
  {
    ModOfMod(n % IDX, n / IDX * 8192);
    assert n == n % IDX + NUM * (n / IDX * 8192);
  }

  lemma {:induction false} ModOfMod(a: nat, m: nat)
    ensures (a + NUM * m) % NUM == a % NUM
  {
    if m > 0 { ModOfMod(a, m - 1); }
  }

  /** The 16-bit indices differ exactly when there is an entry to see. */
  lemma IndexesDiffer(v: View)
    requires v.Ok()
    ensures v.seen % IDX != |v.used| % IDX <==> v.seen < |v.used|
  {
    RingsFit(v);
  }

  /** Fewer than three free descriptors mean two requests. */
  lemma TwoInFlight(v: View, got: seq<nat>)
    requires v.Ok() && |got| <= 2 && forall k :: 0 <= k < NUM && v.free[k] ==> k in got
    ensures |v.chains| == 2
  {
    var free: set<nat> := set k: nat | k in got && k < NUM && v.free[k];
    FreeCount(v, free);
    Counting.Elements(got);
    Counting.SubsetSize(free, set k | k in got);
  }

  /** The links of descriptors in chains; a free descriptor's are of no account. */
  ghost predicate Links(desc: seq<Desc>, v: View)
    requires v.Shape() && |desc| == NUM
  {
    forall i {:trigger desc[i]} :: 0 <= i < NUM && !v.free[i] ==> desc[i] == Desc(v.next[i], v.more[i])
  }
}
