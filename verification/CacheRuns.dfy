/** Runs of the buffer cache of kernel/bio.c as lists of steps.  The counts, contents and the order
    of the list, which the cache keeps as it goes, are here read off the calls that were made. */
module CacheRuns {
  import opened BufferCache
  import opened CrashLog

  /** bget's of block k less brelse's. */
  function Uses(ops: seq<Op>, k: nat): (n: int) {
    if ops == [] then 0
    else var t := ops[|ops| - 1];
         Uses(ops[..|ops| - 1], k) + if t.k != k then 0 else if t.Reuse? || t.Recycle? then 1 else if t.Drop? then -1 else 0
  }

  /** bpin's of block k less bunpin's. */
  function Pins(ops: seq<Op>, k: nat): (n: int) {
    if ops == [] then 0
    else var t := ops[|ops| - 1];
         Pins(ops[..|ops| - 1], k) + if t.k != k then 0 else if t.Pin? then 1 else if t.Unpin? then -1 else 0
  }

  /** The buffer that bget last recycled for block k, or -1. */
  function Home(ops: seq<Op>, k: nat): (b: int) {
    if ops == [] then -1
    else var t := ops[|ops| - 1];
         if t.Recycle? && t.k == k then t.b else Home(ops[..|ops| - 1], k)
  }

  /** The buffers whose count brelse brought to zero, in order. */
  function Releases(ops: seq<Op>): (r: seq<int>) {
    if ops == [] then []
    else var t := ops[|ops| - 1];
         Releases(ops[..|ops| - 1]) + if t.Drop? && Uses(ops, t.k) + Pins(ops, t.k) == 0 then [Home(ops, t.k)] else []
  }

  /** What a holder last stored in block k; d is the disk at boot. */
  function Memory(d: Disk, ops: seq<Op>, k: nat): (data: Block)
    requires k < |d|
  {
    if ops == [] then d[k]
    else var t := ops[|ops| - 1];
         if t.Store? && t.k == k then t.data else Memory(d, ops[..|ops| - 1], k)
  }

  /** The contents of block k as of its last log_write or bwrite. */
  function Latest(d: Disk, ops: seq<Op>, k: nat): (data: Block)
    requires k < |d|
  {
    if ops == [] then d[k]
    else var t, h := ops[|ops| - 1], ops[..|ops| - 1];
         if (t.Put? || t.Log?) && t.k == k then Memory(d, h, k) else Latest(d, h, k)
  }

  ghost predicate RunOf(vs: seq<View>, ops: seq<Op>) {
    && |vs| == |ops| + 1 && Booted(vs[0])
    && forall i {:trigger ops[i]} :: 0 <= i < |ops| ==> Step(vs[i], ops[i], vs[i + 1])
  }

  /** What the steps say about block k is so in v. */
  ghost predicate Agrees(d: Disk, ops: seq<Op>, v: View, k: nat) {
    && |v.truth| == |d| && v.inUse[k] == Uses(ops, k) && v.pinned[k] == Pins(ops, k)
    && (k in v.slot ==> v.slot[k] == Home(ops, k))
    && (k < |d| ==> v.truth[k] == Latest(d, ops, k))
    && (k < |d| ==> Memory(d, ops, k) == if ReadIn(v, k) then BufOf(v, k).data else v.truth[k])
  }

  lemma AgreesStep(d: Disk, ops: seq<Op>, v: View, op: Op, k: nat)
    requires v.Ok() && Enabled(v, op) && Agrees(d, ops, v, k)
    ensures Agrees(d, ops + [op], Next(v, op), k)
  {
    hide View.Ok, Next, Enabled;
    var all := ops + [op];
    assert all[..|all| - 1] == ops;
    if op.Drop? { DropKeeps(v, op.k, k); } else if op.Recycle? { RecycleKeeps(v, op.b, op.k, k); } else { OtherKeeps(v, op, k); }
  }

  /** Block j has a buffer that is read in. */
  ghost predicate ReadIn(v: View, j: nat) { j in v.slot && v.slot[j] < |v.bufs| && BufOf(v, j).valid }

  lemma DropKeeps(v: View, k: nat, j: nat)
    requires v.Ok() && Enabled(v, Drop(k))
    ensures var w := Next(v, Drop(k));
            && w.truth == v.truth && w.pinned == v.pinned && w.slot == v.slot && w.inUse[j] == v.inUse[j] - (if j == k then 1 else 0)
            && (ReadIn(w, j) <==> ReadIn(v, j)) && (ReadIn(v, j) ==> BufOf(w, j).data == BufOf(v, j).data)
  {
    DropCases(v, k);
    assert v.BlockOk(k);
    assert j in v.slot ==> v.BlockOk(j);
    hide View.Ok, Enabled, Next;
  }

  lemma RecycleKeeps(v: View, b: nat, k: nat, j: nat)
    requires v.Ok() && Enabled(v, Recycle(b, k))
    ensures var w := Next(v, Recycle(b, k));
            && w.truth == v.truth && w.pinned == v.pinned && w.inUse[j] == v.inUse[j] + (if j == k then 1 else 0)
            && (j in w.slot ==> w.slot[j] == if j == k then b else if j in v.slot then v.slot[j] else -1)
            && (ReadIn(w, j) ==> ReadIn(v, j) && BufOf(w, j).data == BufOf(v, j).data)
            && (ReadIn(v, j) && !ReadIn(w, j) && j < |v.truth| ==> BufOf(v, j).data == v.truth[j])
  {
    assert v.BufOk(b);
    assert j in v.slot ==> v.BlockOk(j);
  }

  /** The steps that neither give nor take a buffer. */
  lemma OtherKeeps(v: View, op: Op, j: nat)
    requires v.Ok() && Enabled(v, op) && !op.Drop? && !op.Recycle?
    ensures var w := Next(v, op);
            && w.slot == v.slot && |w.truth| == |v.truth|
            && w.inUse[j] == v.inUse[j] + (if op == Reuse(j) then 1 else 0)
            && w.pinned[j] == v.pinned[j] + (if op == Pin(j) then 1 else if op == Unpin(j) then -1 else 0)
            && (j < |v.truth| && !(op == Put(j) || op == Log(j)) ==> w.truth[j] == v.truth[j])
            && ((op == Put(j) || op == Log(j)) && j < |v.truth| ==> ReadIn(v, j) && w.truth[j] == BufOf(v, j).data)
            && (ReadIn(v, j) ==> ReadIn(w, j) && (BufOf(w, j).data == if op.Store? && op.k == j then op.data else BufOf(v, j).data))
            && (ReadIn(w, j) && !ReadIn(v, j) && j < |v.truth| ==> !op.Store? && BufOf(w, j).data == v.truth[j])
            && (op.Store? && op.k == j ==> ReadIn(v, j))
  {
    assert v.BlockOk(op.k);
    assert j in v.slot ==> v.BlockOk(j);
    assert j < |v.disk| ==> v.DiskOk(j);
  }

  /** The counts of a block, its buffer, its latest contents, and what its buffer holds are what the
      calls of the run made them. */
  lemma {:induction false} RunAgrees(vs: seq<View>, ops: seq<Op>, k: nat)
    requires RunOf(vs, ops)
    ensures vs[|ops|].Ok() && Agrees(vs[0].disk, ops, vs[|ops|], k)
    decreases |ops|
  {
    hide Agrees, RunOf, Enabled, Next, View.Ok;
    if ops == [] {
      Starts(vs, k);
    } else {
      var n := |ops| - 1;
      var v, t := LastStep(vs, ops);
      RunAgrees(vs[..n + 1], ops[..n], k);
      NextOk(v, t);
      AgreesStep(vs[0].disk, ops[..n], v, t, k);
    }
  }

  lemma Starts(vs: seq<View>, k: nat)
    requires RunOf(vs, [])
    ensures vs[0].Ok() && Agrees(vs[0].disk, [], vs[0], k)
  {
  }

  lemma LastStep(vs: seq<View>, ops: seq<Op>) returns (v: View, t: Op)
    requires RunOf(vs, ops) && ops != []
    ensures var n := |ops| - 1;
            && |vs| == n + 2 && v == vs[n] && t == ops[n] && v.Ok() && Enabled(v, t) && vs[n + 1] == Next(v, t)
            && RunOf(vs[..n + 1], ops[..n]) && vs[..n + 1][0] == vs[0] && ops == ops[..n] + [t]
  {
    hide Next, Enabled, View.Ok, Booted;
    var n := |ops| - 1;
    v, t := vs[n], ops[n];
    assert Step(v, t, vs[n + 1]);
    forall i | 0 <= i < n ensures Step(vs[..n + 1][i], ops[..n][i], vs[..n + 1][i + 1]) { assert Step(vs[i], ops[i], vs[i + 1]); }
  }

  /** The list is ordered by what brelse did, and by nothing else. */
  lemma {:induction false} RunReleases(vs: seq<View>, ops: seq<Op>)
    requires RunOf(vs, ops)
    ensures vs[|ops|].Ok() && vs[|ops|].n == vs[0].n && vs[|ops|].releases == Releases(ops)
    decreases |ops|
  {
    if ops == [] {
      Starts(vs, 0);
    } else {
      hide RunOf, Next, View.Ok, View.RingOk, Agrees, Enabled;
      var n := |ops| - 1;
      var v, t := LastStep(vs, ops);
      RunReleases(vs[..n + 1], ops[..n]);
      NextOk(v, t);
      RunAgrees(vs[..n + 1], ops[..n], t.k);
      ReleaseStep(vs[0].disk, ops[..n], v, t);
    }
  }

  lemma ReleaseStep(d: Disk, h: seq<Op>, v: View, t: Op)
    requires v.Ok() && Enabled(v, t) && Agrees(d, h, v, t.k) && v.releases == Releases(h)
    ensures Next(v, t).n == v.n && Next(v, t).releases == Releases(h + [t])
  {
    hide View.Ok, View.RingOk, Next, View.Order, Enabled, BufOf;
    ReleaseRecorded(v, t);
    ReleasesSnoc(h, t);
    if t.Drop? { assert t.k in v.slot by { DropsCached(v, t.k); } }
  }

  lemma DropsCached(v: View, k: nat)
    requires v.Ok() && Enabled(v, Drop(k))
    ensures k in v.slot
  {
  }

  lemma ReleasesSnoc(h: seq<Op>, t: Op)
    ensures Releases(h + [t]) == Releases(h) + if t.Drop? && Uses(h, t.k) + Pins(h, t.k) == 1 then [Home(h, t.k)] else []
  {
    assert (h + [t])[..|h|] == h;
  }

  /** In every run, the buffer that bget recycles is the unreferenced one whose count brelse brought to
      zero longest ago; those never released go first, in the order of binit. */
  lemma VictimOldest(vs: seq<View>, ops: seq<Op>, b: nat, c: nat)
    requires RunOf(vs, ops) && vs[|ops|].Ok() && IsVictim(vs[|ops|], b)
    requires c < |vs[|ops|].bufs| - 1 && c != b && vs[|ops|].bufs[c].refcnt == 0
    ensures var r := Releases(ops);
            || LastRelease(r, b) < LastRelease(r, c)
            || (LastRelease(r, b) == 0 == LastRelease(r, c) && b < c)
  {
    RunReleases(vs, ops);
    var v := vs[|ops|];
    var i, j := Position(v.Order(), c), Position(v.Order(), b);
    assert i != j;
    OrderIsRecency(v.n, v.releases, i, j);
  }
}
