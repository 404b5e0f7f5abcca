/** The descriptor and ring bookkeeping of kernel/virtio_disk.c, with the device as the other side.

    A request is a chain of three descriptors, known by its head.  It is queued in the avail ring,
    taken by the device, finished in the used ring, seen by the interrupt handler, and then freed
    by the process that made it.  The histories avail and used list every entry ever put in. */
module VirtQueue {
  import Counting

  const NUM: nat := 8
  const IDX: nat := 0x1_0000       // 16-bit ring indices

  /** Where a request is; queued and finished ones know their place in the histories. */
  datatype Phase = Queued(k: nat) | Taken | Finished(k: nat) | Seen

  datatype Chain = Chain(mid: nat, tail: nat, b: nat, phase: Phase)

  datatype Info = Info(b: int, status: nat)     // b is -1 for none

  datatype View = View(free: seq<bool>, next: seq<nat>, more: seq<bool>, info: seq<Info>,
                       ring: seq<nat>, avail: seq<nat>, taken: nat,
                       usedRing: seq<nat>, used: seq<nat>, seen: nat,
                       busy: set<nat>, chains: map<nat, Chain>, owner: map<nat, nat>)
  {
    ghost predicate Shape() {
      && |free| == NUM && |next| == NUM && |more| == NUM && |info| == NUM && |ring| == NUM && |usedRing| == NUM
      && taken <= |avail| && seen <= |used|
    }

    /** The chain of head h: three descriptors of its own, linked, with its buffer on record. */
    ghost predicate ChainOk(h: nat)
      requires Shape() && h in chains
    {
      var c := chains[h];
      && h < NUM && c.mid < NUM && c.tail < NUM && h != c.mid && h != c.tail && c.mid != c.tail
      && h in owner && owner[h] == h && c.mid in owner && owner[c.mid] == h && c.tail in owner && owner[c.tail] == h
      && more[h] && next[h] == c.mid && more[c.mid] && next[c.mid] == c.tail && !more[c.tail]
      && info[h].b == c.b && (c.b in busy <==> !c.phase.Seen?)
      && match c.phase
         case Queued(k) => taken <= k < |avail| && avail[k] == h && info[h].status == 255
         case Taken => info[h].status == 255
         case Finished(k) => seen <= k < |used| && used[k] == h && info[h].status == 0
         case Seen => true
    }

    ghost predicate DescOk(i: nat)
      requires Shape() && i < NUM
    {
      && (free[i] <==> i !in owner)
      && (i in owner ==> owner[i] in chains && (i == owner[i] || i == chains[owner[i]].mid || i == chains[owner[i]].tail))
    }

    ghost predicate AvailOk(k: nat)
      requires Shape() && taken <= k < |avail|
    {
      ring[k % NUM] == avail[k] && avail[k] in chains && chains[avail[k]].phase == Queued(k)
    }

    ghost predicate UsedOk(k: nat)
      requires Shape() && seen <= k < |used|
    {
      usedRing[k % NUM] == used[k] && used[k] in chains && chains[used[k]].phase == Finished(k)
    }

    /** Two requests never share a buffer: its sleep lock is held for each. */
    ghost predicate OwnBuf(g: nat, h: nat)
      requires g in chains && h in chains
    {
      chains[g].b == chains[h].b ==> g == h
    }

    ghost predicate Ok() {
      && Shape() && (forall i {:trigger i in owner} :: i in owner ==> i < NUM) && |owner| == 3 * |chains|
      && (forall i: nat {:trigger DescOk(i)} :: i < NUM ==> DescOk(i))
      && (forall h {:trigger ChainOk(h)} :: h in chains ==> ChainOk(h))
      && (forall k: nat {:trigger AvailOk(k)} :: taken <= k < |avail| ==> AvailOk(k))
      && (forall k: nat {:trigger UsedOk(k)} :: seen <= k < |used| ==> UsedOk(k))
      && (forall g, h {:trigger OwnBuf(g, h)} :: g in chains && h in chains ==> OwnBuf(g, h))
    }
  }

  type Sound = v: View | v.Ok() ghost witness Empty()

  ghost function Empty(): (v: View)
    ensures v.Ok()
  {
    View(seq(NUM, _ => true), seq(NUM, _ => 0), seq(NUM, _ => false), seq(NUM, _ => Info(-1, 0)),
         seq(NUM, _ => 0), [], 0, seq(NUM, _ => 0), [], 0, {}, map[], map[])
  }

  ghost function Descriptors(n: nat): (s: set<nat>)
    ensures |s| == n && forall i: nat {:trigger i in s} :: i in s <==> i < n
  {
    if n == 0 then {} else Descriptors(n - 1) + {n - 1}
  }

  ghost predicate AllDescriptors(all: set<nat>) {
    forall i: nat {:trigger i in all} :: i in all <==> i < NUM
  }

  lemma FreeIsRest(v: View, all: set<nat>, free: set<nat>)
    requires v.Ok() && AllDescriptors(all) && forall i: nat {:trigger i in free} :: i in free <==> i < NUM && v.free[i]
    ensures free == all - v.owner.Keys && v.owner.Keys <= all
  {
    forall i: nat | i in all ensures i in free <==> i !in v.owner { assert v.DescOk(i); }
  }

  /** Between lock holds, the free descriptors are all but three per request in flight. */
  lemma FreeCount(v: View, free: set<nat>)
    requires v.Ok() && forall i: nat {:trigger i in free} :: i in free <==> i < NUM && v.free[i]
    ensures |free| == NUM - 3 * |v.chains|
  {
    var all := Everyone(NUM);
    FreeIsRest(v, all, free);
    DifferenceCard(all, v.owner.Keys);
    KeysCard(v.owner);
  }

  lemma Everyone(n: nat) returns (all: set<nat>)
    ensures |all| == n && forall i: nat {:trigger i in all} :: i in all <==> i < n
  {
    all := Descriptors(n);
  }

  lemma KeysCard(m: map<nat, nat>)
    ensures |m.Keys| == |m|
  {
  }

  lemma ThreeMore(m: map<nat, nat>, a: nat, b: nat, c: nat, x: nat)
    requires a !in m && b !in m && c !in m && a != b && a != c && b != c
    ensures |m[a := x][b := x][c := x]| == |m| + 3
  {
    OneMore(m, a, x);
    OneMore(m[a := x], b, x);
    OneMore(m[a := x][b := x], c, x);
  }

  lemma OneMore<T>(m: map<nat, T>, a: nat, x: T)
    requires a !in m
    ensures |m[a := x]| == |m| + 1
  {
    assert m[a := x].Keys == m.Keys + {a};
    assert |m[a := x].Keys| == |m.Keys| + 1;
  }

  lemma OneLess<T>(m: map<nat, T>, a: nat)
    requires a in m
    ensures |m - {a}| == |m| - 1
  {
    assert (m - {a}).Keys == m.Keys - {a};
    assert |(m - {a}).Keys| == |m.Keys| - 1;
  }

  lemma DifferenceCard(a: set<nat>, b: set<nat>)
    requires b <= a
    ensures |a - b| == |a| - |b|
  {
    assert a == (a - b) + b;
  }

  lemma DistinctBound(s: seq<nat>, n: nat)
    requires forall i {:trigger s[i]} :: 0 <= i < |s| ==> s[i] < n
    requires forall i, j {:trigger s[i], s[j]} :: 0 <= i < j < |s| ==> s[i] != s[j]
    ensures |s| <= n
  {
    Counting.Elements(s);
    Counting.SubsetSize((set x | x in s), Descriptors(n));
  }

  /** Neither ring ever holds more than NUM entries that are still to be read. */
  lemma RingsFit(v: View)
    requires v.Ok()
    ensures |v.avail| - v.taken <= NUM && |v.used| - v.seen <= NUM
  {
    var s: seq<nat>, t: seq<nat> := v.avail[v.taken..], v.used[v.seen..];
    forall i | 0 <= i < |s| ensures s[i] < NUM && s[i] in v.chains && v.chains[s[i]].phase == Queued(v.taken + i) {
      assert v.AvailOk(v.taken + i) && v.ChainOk(s[i]);
    }
    forall i | 0 <= i < |t| ensures t[i] < NUM && t[i] in v.chains && v.chains[t[i]].phase == Finished(v.seen + i) {
      assert v.UsedOk(v.seen + i) && v.ChainOk(t[i]);
    }
    DistinctBound(s, NUM);
    DistinctBound(t, NUM);
  }

  /** ... and with a free descriptor for a new head, the avail ring has a slot to spare. */
  lemma RingRoom(v: View, h: nat)
    requires v.Ok() && h < NUM && v.free[h]
    ensures |v.avail| - v.taken < NUM
  {
    var s: seq<nat> := v.avail[v.taken..] + [h];
    assert v.DescOk(h);
    forall i | 0 <= i < |s| - 1 ensures s[i] < NUM && s[i] != h && s[i] in v.chains && v.chains[s[i]].phase == Queued(v.taken + i) {
      assert v.AvailOk(v.taken + i) && v.ChainOk(s[i]);
    }
    DistinctBound(s, NUM);
  }

  lemma UsedRoom(v: View, h: nat)
    requires v.Ok() && h in v.chains && v.chains[h].phase.Taken?
    ensures |v.used| - v.seen < NUM
  {
    var t: seq<nat> := v.used[v.seen..] + [h];
    assert v.ChainOk(h);
    forall i | 0 <= i < |t| - 1 ensures t[i] < NUM && t[i] in v.chains && v.chains[t[i]].phase == Finished(v.seen + i) {
      assert v.UsedOk(v.seen + i) && v.ChainOk(t[i]);
    }
    DistinctBound(t, NUM);
  }

  // ----- the driver's and the device's steps -----

  /** virtio_disk_rw up to the notification: a chain of three free descriptors for buffer b. */
  ghost function Submitted(v: View, h: nat, mid: nat, tail: nat, b: nat): (w: View)
    requires v.Shape() && h < NUM && mid < NUM && tail < NUM
  {
    v.(free := v.free[h := false][mid := false][tail := false],
       next := v.next[h := mid][mid := tail][tail := 0], more := v.more[h := true][mid := true][tail := false],
       info := v.info[h := Info(b, 255)], ring := v.ring[|v.avail| % NUM := h], avail := v.avail + [h],
       busy := v.busy + {b}, chains := v.chains[h := Chain(mid, tail, b, Queued(|v.avail|))],
       owner := v.owner[h := h][mid := h][tail := h])
  }

  ghost function WithPhase(v: View, h: nat, p: Phase): (w: View)
    requires h in v.chains
  {
    v.(chains := v.chains[h := v.chains[h].(phase := p)])
  }

  /** The device reads the next avail entry. */
  ghost function DeviceTook(v: View): (w: View)
    requires v.taken < |v.avail| && v.avail[v.taken] in v.chains
  {
    WithPhase(v, v.avail[v.taken], Taken).(taken := v.taken + 1)
  }

  /** The device writes the status and a used entry for head h. */
  ghost function DeviceDone(v: View, h: nat): (w: View)
    requires v.Shape() && h in v.chains && h < NUM
  {
    WithPhase(v, h, Finished(|v.used|)).(info := v.info[h := v.info[h].(status := 0)],
      usedRing := v.usedRing[|v.used| % NUM := h], used := v.used + [h])
  }

  /** The interrupt handler's turn for one used entry. */
  ghost function Noticed(v: View): (w: View)
    requires v.seen < |v.used| && v.used[v.seen] in v.chains
  {
    var h := v.used[v.seen];
    WithPhase(v, h, Seen).(seen := v.seen + 1, busy := v.busy - {v.chains[h].b})
  }

  /** The rest of virtio_disk_rw: the chain is freed. */
  ghost function Released(v: View, h: nat): (w: View)
    requires v.Shape() && h in v.chains && h < NUM && v.chains[h].mid < NUM && v.chains[h].tail < NUM
  {
    var c := v.chains[h];
    v.(free := v.free[h := true][c.mid := true][c.tail := true],
       next := v.next[h := 0][c.mid := 0][c.tail := 0], more := v.more[h := false][c.mid := false][c.tail := false],
       info := v.info[h := v.info[h].(b := -1)],
       chains := v.chains - {h}, owner := v.owner - {h, c.mid, c.tail})
  }

  ghost predicate CanSubmit(v: View, h: nat, mid: nat, tail: nat, b: nat)
    requires v.Ok()
  {
    && h < NUM && mid < NUM && tail < NUM && h != mid && h != tail && mid != tail && v.free[h] && v.free[mid] && v.free[tail]
    && forall g {:trigger g in v.chains} :: g in v.chains ==> v.chains[g].b != b
  }

  lemma SubmittedCounts(v: View, h: nat, mid: nat, tail: nat, b: nat)
    requires v.Ok() && CanSubmit(v, h, mid, tail, b)
    ensures var w := Submitted(v, h, mid, tail, b);
            |w.owner| == 3 * |w.chains| && forall i {:trigger i in w.owner} :: i in w.owner ==> i < NUM
    ensures h !in v.chains && h !in v.owner && mid !in v.owner && tail !in v.owner
  {
    var w := Submitted(v, h, mid, tail, b);
    assert v.DescOk(h) && v.DescOk(mid) && v.DescOk(tail);
    assert h in v.chains ==> v.ChainOk(h);
    ThreeMore(v.owner, h, mid, tail, h);
    OneMore(v.chains, h, w.chains[h]);
  }

  lemma SubmittedChains(v: View, h: nat, mid: nat, tail: nat, b: nat, g: nat)
    requires v.Ok() && CanSubmit(v, h, mid, tail, b) && g in Submitted(v, h, mid, tail, b).chains
    ensures Submitted(v, h, mid, tail, b).ChainOk(g)
  {
    SubmittedCounts(v, h, mid, tail, b);
    if g != h { assert v.ChainOk(g); }
  }

  lemma SubmittedRings(v: View, h: nat, mid: nat, tail: nat, b: nat)
    requires v.Ok() && CanSubmit(v, h, mid, tail, b)
    ensures var w := Submitted(v, h, mid, tail, b);
            && (forall k: nat {:trigger w.AvailOk(k)} :: w.taken <= k < |w.avail| ==> w.AvailOk(k))
            && (forall k: nat {:trigger w.UsedOk(k)} :: w.seen <= k < |w.used| ==> w.UsedOk(k))
  {
    var w := Submitted(v, h, mid, tail, b);
    RingRoom(v, h);
    SubmittedCounts(v, h, mid, tail, b);
    forall k: nat | w.taken <= k < |w.avail| ensures w.AvailOk(k) {
      if k < |v.avail| { assert v.AvailOk(k); Counting.OtherSlot(k, |v.avail|, NUM); }
    }
    forall k: nat | w.seen <= k < |w.used| ensures w.UsedOk(k) { assert v.UsedOk(k); }
  }

  lemma SubmittedDescs(v: View, h: nat, mid: nat, tail: nat, b: nat, i: nat)
    requires v.Ok() && CanSubmit(v, h, mid, tail, b) && i < NUM
    ensures Submitted(v, h, mid, tail, b).DescOk(i)
  {
    SubmittedCounts(v, h, mid, tail, b);
    assert v.DescOk(i);
  }

  lemma SubmittedOk(v: View, h: nat, mid: nat, tail: nat, b: nat)
    requires v.Ok() && CanSubmit(v, h, mid, tail, b)
    ensures Submitted(v, h, mid, tail, b).Ok()
  {
    hide View.DescOk, View.ChainOk, View.AvailOk, View.UsedOk, View.OwnBuf;
    var w := Submitted(v, h, mid, tail, b);
    SubmittedRings(v, h, mid, tail, b);
    SubmittedCounts(v, h, mid, tail, b);
    forall i: nat | i < NUM ensures w.DescOk(i) { SubmittedDescs(v, h, mid, tail, b, i); }
    forall g | g in w.chains ensures w.ChainOk(g) { SubmittedChains(v, h, mid, tail, b, g); }
    forall g, f | g in w.chains && f in w.chains ensures w.OwnBuf(g, f) { SubmittedOwn(v, h, mid, tail, b, g, f); }
  }

  lemma SubmittedOwn(v: View, h: nat, mid: nat, tail: nat, b: nat, g: nat, f: nat)
    requires v.Ok() && CanSubmit(v, h, mid, tail, b)
    requires g in Submitted(v, h, mid, tail, b).chains && f in Submitted(v, h, mid, tail, b).chains
    ensures Submitted(v, h, mid, tail, b).OwnBuf(g, f)
  {
    if g in v.chains && f in v.chains { assert v.OwnBuf(g, f); }
  }

  /** A request changes phase: the rest of the invariant stays. */
  lemma PhaseOk(v: View, w: View, h: nat)
    requires v.Ok() && w.Shape() && h in v.chains && w.free == v.free && w.next == v.next && w.more == v.more && w.owner == v.owner
    requires h in w.chains && w.chains == v.chains[h := v.chains[h].(phase := w.chains[h].phase)]
    requires w.ChainOk(h) && forall g {:trigger w.ChainOk(g)} :: g in v.chains && g != h ==> w.ChainOk(g)
    requires forall k: nat {:trigger w.AvailOk(k)} :: w.taken <= k < |w.avail| ==> w.AvailOk(k)
    requires forall k: nat {:trigger w.UsedOk(k)} :: w.seen <= k < |w.used| ==> w.UsedOk(k)
    ensures w.Ok()
  {
    assert w.chains.Keys == v.chains.Keys;
    SameCard(v.chains, w.chains);
    forall i: nat | i < NUM ensures w.DescOk(i) { assert v.DescOk(i); }
    forall g, f | g in w.chains && f in w.chains ensures w.OwnBuf(g, f) { assert v.OwnBuf(g, f); }
  }

  lemma SameCard<T>(m: map<nat, T>, n: map<nat, T>)
    requires m.Keys == n.Keys
    ensures |m| == |n|
  {
    assert |m.Keys| == |n.Keys|;
  }

  lemma DeviceTookOk(v: View)
    requires v.Ok() && v.taken < |v.avail|
    ensures v.avail[v.taken] in v.chains && DeviceTook(v).Ok()
  {
    assert v.AvailOk(v.taken);
    var w, h := DeviceTook(v), v.avail[v.taken];
    assert v.ChainOk(h);
    forall g | g in v.chains && g != h ensures w.ChainOk(g) { assert v.ChainOk(g); }
    forall k: nat | w.taken <= k < |w.avail| ensures w.AvailOk(k) { assert v.AvailOk(k); }
    forall k: nat | w.seen <= k < |w.used| ensures w.UsedOk(k) { assert v.UsedOk(k); }
    PhaseOk(v, w, h);
  }

  lemma DeviceDoneOk(v: View, h: nat)
    requires v.Ok() && h in v.chains && v.chains[h].phase.Taken?
    ensures h < NUM && DeviceDone(v, h).Ok()
  {
    assert v.ChainOk(h);
    var w := DeviceDone(v, h);
    UsedRoom(v, h);
    forall g | g in v.chains && g != h ensures w.ChainOk(g) { assert v.ChainOk(g); }
    forall k: nat | w.taken <= k < |w.avail| ensures w.AvailOk(k) { assert v.AvailOk(k); }
    forall k: nat | w.seen <= k < |w.used| ensures w.UsedOk(k) {
      if k < |v.used| { assert v.UsedOk(k); Counting.OtherSlot(k, |v.used|, NUM); }
    }
    PhaseOk(v, w, h);
  }

  /** The next used entry is a request whose buffer is on record, with a good status. */
  lemma UsedEntry(v: View)
    requires v.Ok() && v.seen < |v.used|
    ensures var h := v.usedRing[v.seen % NUM];
            h == v.used[v.seen] && h in v.chains && h < NUM && v.info[h] == Info(v.chains[h].b, 0) && v.chains[h].b in v.busy
  {
    assert v.UsedOk(v.seen) && v.ChainOk(v.used[v.seen]);
  }

  lemma NoticedChain(v: View, g: nat)
    requires v.Ok() && v.seen < |v.used| && v.used[v.seen] in v.chains && g in v.chains && g != v.used[v.seen]
    ensures Noticed(v).ChainOk(g)
  {
    assert v.ChainOk(g) && v.OwnBuf(g, v.used[v.seen]);
  }

  lemma NoticedOk(v: View)
    requires v.Ok() && v.seen < |v.used|
    ensures v.used[v.seen] in v.chains && Noticed(v).Ok()
  {
    UsedEntry(v);
    var w, h := Noticed(v), v.used[v.seen];
    assert v.UsedOk(v.seen) && v.ChainOk(h);
    forall g | g in v.chains && g != h ensures w.ChainOk(g) { NoticedChain(v, g); }
    forall k: nat | w.taken <= k < |w.avail| ensures w.AvailOk(k) { assert v.AvailOk(k); }
    forall k: nat | w.seen <= k < |w.used| ensures w.UsedOk(k) { assert v.UsedOk(k); }
    PhaseOk(v, w, h);
  }

  lemma ReleasedCounts(v: View, h: nat)
    requires v.Ok() && h in v.chains && v.ChainOk(h)
    ensures |Released(v, h).owner| == 3 * |Released(v, h).chains|
  {
    var c := v.chains[h];
    OneLess(v.chains, h);
    OneLess(v.owner, h);
    OneLess(v.owner - {h}, c.mid);
    OneLess(v.owner - {h} - {c.mid}, c.tail);
    assert v.owner - {h} - {c.mid} - {c.tail} == v.owner - {h, c.mid, c.tail};
  }

  lemma ReleasedParts(v: View, h: nat, g: nat)
    requires v.Ok() && h in v.chains && v.ChainOk(h) && v.chains[h].phase.Seen?
    ensures g < NUM ==> Released(v, h).DescOk(g)
    ensures g in v.chains && g != h ==> Released(v, h).ChainOk(g)
  {
    if g < NUM { assert v.DescOk(g); }
    if g in v.chains { assert v.ChainOk(g); }
  }

  lemma ReleasedOk(v: View, h: nat)
    requires v.Ok() && h in v.chains && v.ChainOk(h) && v.chains[h].phase.Seen?
    ensures Released(v, h).Ok()
  {
    var w := Released(v, h);
    ReleasedCounts(v, h);
    forall i: nat | i < NUM ensures w.DescOk(i) { ReleasedParts(v, h, i); }
    forall g | g in w.chains ensures w.ChainOk(g) { ReleasedParts(v, h, g); }
    forall k: nat | w.taken <= k < |w.avail| ensures w.AvailOk(k) { assert v.AvailOk(k); }
    forall k: nat | w.seen <= k < |w.used| ensures w.UsedOk(k) { assert v.UsedOk(k); }
    forall g, f | g in w.chains && f in w.chains ensures w.OwnBuf(g, f) { assert v.OwnBuf(g, f); }
  }
}
