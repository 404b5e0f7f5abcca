/** What becomes of a process of kernel/proc.c: which steps change its state, its parent and its
    killed flag, and what wait and exit have done when they are over. */
module Lifecycle {
  import opened Processes

  /** Process p has a child among the first k slots. */
  predicate HasChild(v: View, p: nat, k: nat) { exists b: nat :: b < k && b < |v.procs| && v.procs[b].parent == p }

  /** wait's havekids is right for the slots it has passed. */
  ghost predicate ScanOk(v: View, p: nat)
    requires p < |v.procs|
  {
    var x := v.procs[p].point;
    x.Scan? ==> x.k <= |v.procs| && (x.kids <==> HasChild(v, p, x.k))
  }

  ghost predicate Scanned(v: View) { forall p: nat {:trigger ScanOk(v, p)} :: p < |v.procs| ==> ScanOk(v, p) }

  // ----- how a process changes -----

  /** The process of CPU c. */
  predicate By(v: View, s: Step, p: nat) { s.Act? && Runs(v, s.c) && v.cpus[s.c].proc == p }

  /** Process p of CPU c frees zombie q in wait. */
  predicate Reaps(v: View, s: Step, p: nat, q: nat) {
    && By(v, s, p) && p < |v.procs| && q < |v.procs| && s.a.WaitScan? && !s.a.copyFails
    && v.procs[p].point.Scan? && v.procs[p].point.k == q && v.procs[q].parent == p && v.procs[q].state.Zombie?
  }

  /** Process p's wakeup of the sleepers on chan has come to q. */
  predicate Rouses(v: View, s: Step, p: nat, q: nat) {
    && By(v, s, p) && p < |v.procs| && q < |v.procs| && p != q && v.procs[q].state.Sleeping?
    && var x := v.procs[p].point;
       || (s.a.WakeInit? && x.WakingInit? && x.j == q && v.procs[q].chan == Of(INIT))
       || (s.a.WakeParent? && x.WakingParent? && x.j == q && v.procs[p].parent >= 0 && v.procs[q].chan == Of(v.procs[p].parent))
  }

  /** What the invariant says about the process that acts. */
  ghost predicate Acts(v: View, c: nat) {
    && Runs(v, c) && INIT < |v.procs|
    && var p := v.cpus[c].proc;
       var q := v.procs[p];
       && q.parent != p && q.parent < |v.procs|
       && q.state == (if q.point.Marked? then Zombie else Running)
       && (q.point.Forked? || q.point.Parented? ==> q.point.np < |v.procs| && q.point.np != p && v.procs[q.point.np].state.Used?)
       && (Exiting(q.point) ==> p != INIT && q.parent >= 0) && (Region(q.point) ==> v.wlock == p)
  }

  lemma ActsNow(v: View, c: nat)
    requires v.Ok() && Runs(v, c)
    ensures Acts(v, c)
  {
    assert v.CpuOk(c);
    Known(v, v.cpus[c].proc);
  }

  /** From v to w, process q entered a state exactly by these steps: RUNNING by the scheduler's choice,
      SLEEPING by itself, ZOMBIE by its own exit, USED by fork's allocation, UNUSED by its parent's
      wait, and RUNNABLE by giving up the CPU, at the end of the fork that made it, or from a sleep
      when it is woken on its own channel or killed. */
  ghost predicate Entered(v: View, s: Step, w: View, q: nat)
    requires q < |v.procs| == |w.procs| && (s.Act? ==> Runs(v, s.c))
  {
    var a, b := v.procs[q].state, w.procs[q].state;
    && (b.Running? && a != b <==> s.Pick? && s.k == q)
    && (b.Sleeping? && a != b <==> By(v, s, q) && (s.a.Sleep? || s.a.SleepSet?))
    && (b.Zombie? && a != b <==> By(v, s, q) && s.a.Mark?)
    && (b.Used? && a != b <==> s.Act? && s.a == ForkAlloc(q))
    && (b.Unused? && a != b <==> s.Act? && Reaps(v, s, v.cpus[s.c].proc, q))
    && (b.Runnable? && a != b <==>
          || (By(v, s, q) && s.a.Yield?)
          || (s.Act? && s.a.ForkRun? && v.procs[v.cpus[s.c].proc].point == Parented(q))
          || (a.Sleeping? && ((s.Wake? && s.k == q) || (s.Kill? && s.k == q) || (s.Act? && Rouses(v, s, v.cpus[s.c].proc, q)))))
  }

  /** kill marks its target and wakes it; nothing but wait's freeing takes the mark away. */
  ghost predicate Flagged(v: View, s: Step, w: View, q: nat)
    requires q < |v.procs| == |w.procs| && (s.Act? ==> Runs(v, s.c))
  {
    && (w.procs[q].killed <==> (v.procs[q].killed && !(s.Act? && Reaps(v, s, v.cpus[s.c].proc, q))) || (s.Kill? && s.k == q))
    && (s.Kill? && s.k == q ==> !w.procs[q].state.Sleeping?)
  }

  /** The parent of q: fork gives it one, the parent's exit hands it to init, wait takes it away, and
      nothing else changes it. */
  ghost predicate Related(v: View, s: Step, w: View, q: nat)
    requires q < |v.procs| == |w.procs| && (s.Act? ==> Runs(v, s.c))
  {
    w.procs[q].parent ==
      if s.Act? && s.a.ForkParent? && v.procs[v.cpus[s.c].proc].point == Forked(q) then v.cpus[s.c].proc
      else if s.Act? && s.a.Reparent? && v.procs[v.cpus[s.c].proc].point == Reparenting(q) && v.procs[q].parent == v.cpus[s.c].proc then INIT
      else if s.Act? && Reaps(v, s, v.cpus[s.c].proc, q) then -1
      else v.procs[q].parent
  }

  /** A scan of wait starts afresh, stays where it is, or goes past one slot and notes a child there. */
  ghost predicate ScanMoved(v: View, s: Step, w: View, p: nat)
    requires p < |v.procs| == |w.procs|
  {
    var x, y := v.procs[p].point, w.procs[p].point;
    y.Scan? ==>
      || y == x || y == Scan(0, false)
      || (x.Scan? && x.k < |v.procs| && y == Scan(x.k + 1, x.kids || v.procs[x.k].parent == p))
  }

  lemma Scheduled(v: View, s: Step, q: nat)
    requires q < |v.procs| && Enabled(v, s) && (s.Act? ==> Acts(v, s.c))
    requires !s.Act?
    ensures var w := Next(v, s); |w.procs| == |v.procs| && Entered(v, s, w, q) && Flagged(v, s, w, q) && Related(v, s, w, q) && ScanMoved(v, s, w, q)
  {
  }

  lemma Rested(v: View, s: Step, q: nat)
    requires q < |v.procs| && Enabled(v, s) && (s.Act? ==> Acts(v, s.c))
    requires s.Act? && (s.a.Yield? || s.a.Sleep? || s.a.SleepSet? || s.a.SleepLock? || s.a.SleepRelease?)
    ensures var w := Next(v, s); |w.procs| == |v.procs| && Entered(v, s, w, q) && Flagged(v, s, w, q) && Related(v, s, w, q) && ScanMoved(v, s, w, q)
  {
  }

  lemma Bred(v: View, s: Step, q: nat)
    requires q < |v.procs| && Enabled(v, s) && (s.Act? ==> Acts(v, s.c))
    requires s.Act? && (s.a.ForkAlloc? || s.a.ForkParent? || s.a.ForkRun?)
    ensures var w := Next(v, s); |w.procs| == |v.procs| && Entered(v, s, w, q) && Flagged(v, s, w, q) && Related(v, s, w, q) && ScanMoved(v, s, w, q)
  {
  }

  lemma Left(v: View, s: Step, q: nat)
    requires q < |v.procs| && Enabled(v, s) && (s.Act? ==> Acts(v, s.c))
    requires s.Act? && (s.a.ExitLock? || s.a.Reparent? || s.a.Mark? || s.a.ExitSwitch?)
    ensures var w := Next(v, s); |w.procs| == |v.procs| && Entered(v, s, w, q) && Flagged(v, s, w, q) && Related(v, s, w, q) && ScanMoved(v, s, w, q)
  {
  }

  lemma Roused(v: View, s: Step, q: nat)
    requires q < |v.procs| && Enabled(v, s) && (s.Act? ==> Acts(v, s.c))
    requires s.Act? && (s.a.WakeInit? || s.a.WakeParent?)
    ensures var w := Next(v, s); |w.procs| == |v.procs| && Entered(v, s, w, q) && Flagged(v, s, w, q) && Related(v, s, w, q) && ScanMoved(v, s, w, q)
  {
  }

  lemma Awaited(v: View, s: Step, q: nat)
    requires q < |v.procs| && Enabled(v, s) && (s.Act? ==> Acts(v, s.c))
    requires s.Act? && (s.a.WaitLock? || s.a.WaitScan?)
    ensures var w := Next(v, s); |w.procs| == |v.procs| && Entered(v, s, w, q) && Flagged(v, s, w, q) && Related(v, s, w, q) && ScanMoved(v, s, w, q)
  {
  }

  /** Every step changes state, mark and parent of every process in these ways only. */
  lemma Changes(v: View, s: Step, q: nat)
    requires v.Ok() && Enabled(v, s) && q < |v.procs|
    ensures var w := Next(v, s); |w.procs| == |v.procs| && Entered(v, s, w, q) && Flagged(v, s, w, q) && Related(v, s, w, q) && ScanMoved(v, s, w, q)
  {
    hide View.Ok, Next, Entered, Flagged, Related, ScanMoved, Acts;
    if !s.Act? {
      Scheduled(v, s, q);
    } else {
      ActsNow(v, s.c);
      match s.a
      case Yield => Rested(v, s, q);
      case Sleep(_) => Rested(v, s, q);
      case SleepSet => Rested(v, s, q);
      case SleepLock => Rested(v, s, q);
      case SleepRelease => Rested(v, s, q);
      case ForkAlloc(_) => Bred(v, s, q);
      case ForkParent => Bred(v, s, q);
      case ForkRun => Bred(v, s, q);
      case ExitLock => Left(v, s, q);
      case Reparent => Left(v, s, q);
      case Mark => Left(v, s, q);
      case ExitSwitch => Left(v, s, q);
      case WakeInit => Roused(v, s, q);
      case WakeParent => Roused(v, s, q);
      case WaitLock => Awaited(v, s, q);
      case WaitScan(_) => Awaited(v, s, q);
    }
  }

  // ----- exit -----

  /** When a process becomes a zombie it has no children left, nobody waits asleep for it, and it had a
      living parent that will find it. */
  lemma ExitLeaves(v: View, c: nat, b: nat)
    requires v.Ok() && Enabled(v, Act(c, Mark)) && b < |v.procs|
    ensures var p := v.cpus[c].proc;
            && v.procs[b].parent != p
            && 0 <= v.procs[p].parent < |v.procs| && Alive(v.procs[v.procs[p].parent].state) && !v.Dozing(v.procs[p].parent)
  {
    var p := v.cpus[c].proc;
    assert v.CpuOk(c);
    Known(v, p);
    Known(v, b);
  }

  // ----- wait -----

  /** While p scans, nobody changes whose child anybody is. */
  lemma ChildrenStay(v: View, s: Step, w: View, p: nat, q: nat)
    requires v.Ok() && Enabled(v, s) && w == Next(v, s) && |w.procs| == |v.procs| && p < |v.procs| && q < |v.procs|
    requires v.procs[p].point.Scan? && w.procs[p].point.Scan?
    ensures w.procs[q].parent == v.procs[q].parent
  {
    hide View.Ok, Entered, Flagged, ScanMoved;
    Changes(v, s, q);
    Known(v, p);
    if s.Act? { ActsNow(v, s.c); }
  }

  lemma ScanStep(v: View, s: Step, p: nat)
    requires v.Ok() && Scanned(v) && Enabled(v, s) && p < |v.procs|
    ensures |Next(v, s).procs| == |v.procs| && ScanOk(Next(v, s), p)
  {
    hide View.Ok, Enabled, Next, Entered, Flagged, Related;
    var w := Next(v, s);
    assert ScanOk(v, p);
    Changes(v, s, p);
    if v.procs[p].point.Scan? && w.procs[p].point.Scan? {
      forall b: nat | b < |v.procs| ensures w.procs[b].parent == v.procs[b].parent { ChildrenStay(v, s, w, p, b); }
      SameChildren(v, w, p, v.procs[p].point.k);
      OneMoreSlot(w, p, v.procs[p].point.k);
    }
  }

  lemma SameChildren(v: View, w: View, p: nat, k: nat)
    requires |w.procs| == |v.procs| && forall b: nat {:trigger w.procs[b]} :: b < |v.procs| ==> w.procs[b].parent == v.procs[b].parent
    ensures HasChild(w, p, k) == HasChild(v, p, k)
  {
    if b: nat :| b < k && b < |v.procs| && v.procs[b].parent == p { assert w.procs[b].parent == p; }
  }

  lemma OneMoreSlot(v: View, p: nat, k: nat)
    ensures HasChild(v, p, k + 1) <==> HasChild(v, p, k) || (k < |v.procs| && v.procs[k].parent == p)
  {
  }

  lemma ScannedNext(v: View, s: Step)
    requires v.Ok() && Scanned(v) && Enabled(v, s)
    ensures Scanned(Next(v, s))
  {
    assert INIT < |v.procs|;
    hide View.Ok, Enabled, Next, ScanOk;
    ScanStep(v, s, INIT);
    forall p: nat | p < |Next(v, s).procs| ensures ScanOk(Next(v, s), p) { ScanStep(v, s, p); }
  }

  least lemma ReachableScanned(v: View)
    requires Reachable(v)
    ensures v.Ok() && Scanned(v)
  {
    if n: nat, m: nat :| INIT < n && v == Boot(n, m) {
      BootOk(n, m);
    } else {
      var u: View, s: Step :| Reachable(u) && Enabled(u, s) && v == Next(u, s);
      ReachableScanned(u);
      NextOk(u, s);
      ScannedNext(u, s);
    }
  }

  /** The end of wait's scan, in every interleaving: it returns without a child exactly when there is
      none or the process has been killed; otherwise it goes on to sleep, and no child is a zombie. */
  lemma WaitEnds(v: View, c: nat, f: bool)
    requires Reachable(v) && Enabled(v, Act(c, WaitScan(f))) && v.procs[v.cpus[c].proc].point.k >= |v.procs|
    ensures var p, w := v.cpus[c].proc, Next(v, Act(c, WaitScan(f)));
            var alone := forall b: nat :: b < |v.procs| ==> v.procs[b].parent != p;
            && w.procs == v.procs[p := v.procs[p].(point := w.procs[p].point)]
            && (w.procs[p].point == User && w.wlock == -1 <==> alone || v.procs[p].killed)
            && (w.procs[p].point == Tired && w.wlock == p <==> !alone && !v.procs[p].killed)
            && forall b: nat :: b < |v.procs| && v.procs[b].parent == p ==> !v.procs[b].state.Zombie?
  {
    hide View.Ok, Next, Enabled, Acts;
    ReachableScanned(v);
    Acting(v, c, WaitScan(f));
    ActsNow(v, c);
    var p := v.cpus[c].proc;
    assert ScanOk(v, p);
    NoZombieBefore(v, p);
    EndTurn(v, c, f);
    if b: nat :| b < |v.procs| && v.procs[b].parent == p { assert HasChild(v, p, |v.procs|); }
  }

  lemma EndTurn(v: View, c: nat, f: bool)
    requires Acts(v, c) && Enabled(v, Act(c, WaitScan(f))) && v.procs[v.cpus[c].proc].point.k >= |v.procs|
    ensures var p, w := v.cpus[c].proc, Next(v, Act(c, WaitScan(f)));
            && w.procs == v.procs[p := v.procs[p].(point := w.procs[p].point)]
            && if v.procs[p].point.kids && !v.procs[p].killed then w.procs[p].point == Tired && w.wlock == p
               else w.procs[p].point == User && w.wlock == -1
  {
  }

  lemma NoZombieBefore(v: View, p: nat)
    requires v.Ok() && p < |v.procs| && v.procs[p].point.Scan?
    ensures forall b: nat :: b < v.procs[p].point.k && b < |v.procs| && v.procs[b].parent == p ==> !v.procs[b].state.Zombie?
  {
    forall b: nat | b < v.procs[p].point.k && b < |v.procs| && v.procs[b].parent == p ensures !v.procs[b].state.Zombie? {
      assert v.ChildOk(p, b);
    }
  }

  /** A turn of wait's scan that finds a zombie child: it is freed and wait is over, unless its status
      cannot be copied out, which ends wait and leaves it.  It is the first zombie child. */
  lemma WaitReaps(v: View, c: nat, f: bool, k: nat)
    requires Reachable(v) && Enabled(v, Act(c, WaitScan(f))) && k < |v.procs| && v.procs[v.cpus[c].proc].point.k == k
    requires v.procs[k].parent == v.cpus[c].proc && v.procs[k].state.Zombie?
    ensures var p, w := v.cpus[c].proc, Next(v, Act(c, WaitScan(f)));
            && k != p && |w.procs| == |v.procs| && w.procs[p] == v.procs[p].(point := User) && w.wlock == -1
            && (if f then w.procs[k] == v.procs[k] else w.procs[k].state.Unused? && w.procs[k].reaps == v.procs[k].reaps + 1)
            && (forall b: nat :: b < |v.procs| && b != p && b != k ==> w.procs[b] == v.procs[b])
            && (forall b: nat :: b < k && v.procs[b].parent == p ==> !v.procs[b].state.Zombie?)
  {
    hide View.Ok, Next, Enabled, Acts;
    ReachableOk(v);
    Acting(v, c, WaitScan(f));
    ActsNow(v, c);
    NoZombieBefore(v, v.cpus[c].proc);
    ReapTurn(v, c, f, k);
  }

  lemma Acting(v: View, c: nat, a: Action)
    requires Enabled(v, Act(c, a))
    ensures Runs(v, c) && (a.WaitScan? ==> v.procs[v.cpus[c].proc].point.Scan?)
  {
  }

  lemma ReapTurn(v: View, c: nat, f: bool, k: nat)
    requires Acts(v, c) && Enabled(v, Act(c, WaitScan(f))) && k < |v.procs| && v.procs[v.cpus[c].proc].point.k == k
    requires v.procs[k].parent == v.cpus[c].proc && v.procs[k].state.Zombie?
    ensures var p, w := v.cpus[c].proc, Next(v, Act(c, WaitScan(f)));
            && k != p && |w.procs| == |v.procs| && w.procs[p] == v.procs[p].(point := User) && w.wlock == -1
            && (if f then w.procs[k] == v.procs[k] else w.procs[k].state.Unused? && w.procs[k].reaps == v.procs[k].reaps + 1)
            && (forall b: nat :: b < |v.procs| && b != p && b != k ==> w.procs[b] == v.procs[b])
  {
  }

  /** Any other slot is passed by, and nothing else changes. */
  lemma WaitPasses(v: View, c: nat, f: bool, k: nat)
    requires Reachable(v) && Enabled(v, Act(c, WaitScan(f))) && k < |v.procs| && v.procs[v.cpus[c].proc].point.k == k
    requires v.procs[k].parent != v.cpus[c].proc || !v.procs[k].state.Zombie?
    ensures var p, w := v.cpus[c].proc, Next(v, Act(c, WaitScan(f)));
            && |w.procs| == |v.procs| && w.procs[p].point.Scan? && w.procs[p].point.k == k + 1 && w.wlock == p
            && w.procs == v.procs[p := v.procs[p].(point := w.procs[p].point)]
  {
    hide View.Ok, Next, Enabled, Acts;
    ReachableOk(v);
    Acting(v, c, WaitScan(f));
    ActsNow(v, c);
    PassTurn(v, c, f, k);
  }

  lemma PassTurn(v: View, c: nat, f: bool, k: nat)
    requires Acts(v, c) && Enabled(v, Act(c, WaitScan(f))) && k < |v.procs| && v.procs[v.cpus[c].proc].point.k == k
    requires v.procs[k].parent != v.cpus[c].proc || !v.procs[k].state.Zombie?
    ensures var p, w := v.cpus[c].proc, Next(v, Act(c, WaitScan(f)));
            && |w.procs| == |v.procs| && w.procs[p].point.Scan? && w.procs[p].point.k == k + 1 && w.wlock == p
            && w.procs == v.procs[p := v.procs[p].(point := w.procs[p].point)]
  {
  }

  // ----- no deadlock -----

  /** Whoever holds a process lock can go on: no step that gives one up waits for anything. */
  lemma LockHolderMoves(v: View, j: nat)
    requires Reachable(v) && j < |v.procs| && v.procs[j].lock != -1
    ensures var c := v.procs[j].lock;
            && 0 <= c < |v.cpus| && v.cpus[c].proc == j
            && (Enabled(v, Back(c)) || Enabled(v, Resume(c)) || exists a :: Enabled(v, Act(c, a)))
  {
    ReachableOk(v);
    Known(v, j);
    var c, x := v.procs[j].lock, v.procs[j].point;
    if Runs(v, c) {
      assert Enabled(v, Act(c, if x.Locked? then SleepRelease else if x.Dropped? then SleepSet else ExitSwitch));
    }
  }

  /** What a process does next at a point where it holds wait_lock. */
  function Onward(x: Point): (a: Action) {
    match x
    case Reparenting(_) => Reparent
    case WakingInit(_, _) => WakeInit
    case WakingParent(_) => WakeParent
    case Marking => Mark
    case Marked => ExitSwitch
    case Scan(_, _) => WaitScan(false)
    case Tired => SleepLock
    case _ => SleepRelease
  }

  /** At point x a process waits for the lock of process j. */
  predicate WaitsFor(v: View, x: Point, j: nat) {
    j < |v.procs| && v.procs[j].lock != -1 && ((x.Scan? && x.k == j) || (x.WakingInit? && x.j == j) || (x.WakingParent? && x.j == j))
  }

  /** The slot that process p looks at. */
  function Looks(x: Point): (j: nat) { if x.Scan? then x.k else if x.WakingInit? || x.WakingParent? then x.j else 0 }

  lemma MovesOrWaits(v: View, c: nat, p: nat)
    requires Runs(v, c) && p == v.cpus[c].proc && Region(v.procs[p].point)
    ensures var x := v.procs[p].point; Enabled(v, Act(c, Onward(x))) || WaitsFor(v, x, Looks(x))
  {
  }

  /** The holder of wait_lock runs, and can go on unless the process it comes to next is locked; then
      the holder of that lock can. */
  lemma WaitLockHolderMoves(v: View)
    requires Reachable(v) && v.wlock != -1
    ensures var p := v.wlock;
            && 0 <= p < |v.procs| && 0 <= v.procs[p].on < |v.cpus| && v.cpus[v.procs[p].on].proc == p
            && (Enabled(v, Act(v.procs[p].on, Onward(v.procs[p].point))) || WaitsFor(v, v.procs[p].point, Looks(v.procs[p].point)))
  {
    hide View.Ok, Enabled, WaitsFor, Onward;
    ReachableOk(v);
    HolderRuns(v);
    MovesOrWaits(v, v.procs[v.wlock].on, v.wlock);
  }

  /** The holder of wait_lock is at one of the points that hold it, and runs. */
  lemma HolderRuns(v: View)
    requires v.Ok() && v.wlock != -1
    ensures var p := v.wlock;
            && 0 <= p < |v.procs| && Region(v.procs[p].point) && 0 <= v.procs[p].on < |v.cpus|
            && Runs(v, v.procs[p].on) && v.cpus[v.procs[p].on].proc == p
  {
    Known(v, v.wlock);
  }

  // ----- what can happen next -----

  /** An idle CPU can switch to exactly those runnable processes that no CPU has. */
  lemma SchedulerCan(v: View, c: nat, k: nat)
    requires Reachable(v) && c < |v.cpus| && v.cpus[c].mode.Picking?
    ensures Enabled(v, Pick(c, k)) <==> k < |v.procs| && v.procs[k].state.Runnable? && forall d: nat :: d < |v.cpus| ==> v.cpus[d].proc != k
  {
    ReachableOk(v);
    if k < |v.procs| {
      Known(v, k);
      forall d: nat | d < |v.cpus| && v.cpus[d].proc == k ensures v.procs[k].on == d { assert v.CpuOk(d); }
      if v.procs[k].on >= 0 { assert v.cpus[v.procs[k].on].proc == k; }
    }
  }

  /** A process in user code can give up the CPU or sleep, fork into any unused slot, and enter wait or,
      but for init, exit when wait_lock is free. */
  lemma UserCan(v: View, c: nat, k: nat, x: int)
    requires Reachable(v) && Runs(v, c) && v.procs[v.cpus[c].proc].point == User
    ensures Enabled(v, Act(c, Yield)) && Enabled(v, Act(c, Sleep(x)))
    ensures Enabled(v, Act(c, ForkAlloc(k))) <==> k < |v.procs| && v.procs[k].state.Unused?
    ensures Enabled(v, Act(c, WaitLock)) <==> v.wlock == -1
    ensures Enabled(v, Act(c, ExitLock)) <==> v.wlock == -1 && v.cpus[c].proc != INIT
  {
    hide View.Ok, View.Placed, Enabled;
    ReachableOk(v);
    if k < |v.procs| { UnusedUnlocked(v, k); }
    UserGuards(v, c, k, x);
  }

  lemma UserGuards(v: View, c: nat, k: nat, x: int)
    requires Runs(v, c) && v.procs[v.cpus[c].proc].point == User && (k < |v.procs| && v.procs[k].state.Unused? ==> v.procs[k].lock == -1)
    ensures Enabled(v, Act(c, Yield)) && Enabled(v, Act(c, Sleep(x)))
    ensures Enabled(v, Act(c, ForkAlloc(k))) <==> k < |v.procs| && v.procs[k].state.Unused?
    ensures Enabled(v, Act(c, WaitLock)) <==> v.wlock == -1
    ensures Enabled(v, Act(c, ExitLock)) <==> v.wlock == -1 && v.cpus[c].proc != INIT
  {
  }

  lemma UnusedUnlocked(v: View, k: nat)
    requires v.Ok() && k < |v.procs|
    ensures v.procs[k].state.Unused? ==> v.procs[k].lock == -1
  {
    Known(v, k);
  }

  /** fork goes on when wait_lock is free, and then cannot be held up: nobody has the child's lock. */
  lemma ForkCan(v: View, c: nat)
    requires Reachable(v) && Runs(v, c)
    ensures v.procs[v.cpus[c].proc].point.Forked? ==> (Enabled(v, Act(c, ForkParent)) <==> v.wlock == -1)
    ensures v.procs[v.cpus[c].proc].point.Parented? ==> Enabled(v, Act(c, ForkRun))
  {
    hide View.Ok;
    ReachableOk(v);
    ActsNow(v, c);
    var x := v.procs[v.cpus[c].proc].point;
    if x.Parented? { Known(v, x.np); }
  }
}
