/** Processes of kernel/proc.c as a state machine of lock-protected steps, over any number of CPUs:
    the scheduler, yield, sleep, wakeup, kill, fork, reparent, exit and wait.

    A step is what one CPU does while it holds, or between taking and dropping, a lock.  Each
    process has a program point; the loops of reparent, wakeup and wait step through the table. */
module Processes {
  const INIT: nat := 0

  datatype State = Unused | Used | Runnable | Running | Sleeping | Zombie

  /** Where a process's kernel thread is.
      Forked, Parented: in fork, before and after np->parent is set.
      Reparenting .. Marked: in exit, with wait_lock.  Scan .. Locked: in wait, with wait_lock;
      Dropped has released it but not p->lock, Asleep is the sleep, WaitAgain comes after it. */
  datatype Point =
    | Idle | User | Dead
    | Forked(np: nat) | Parented(np: nat)
    | Reparenting(k: nat) | WakingInit(k: nat, j: nat) | WakingParent(j: nat) | Marking | Marked
    | Scan(k: nat, kids: bool) | Tired | Locked | Dropped | Asleep | WaitAgain

  datatype Chan = Nowhere | Of(p: nat) | Other(x: int)

  /** inSched: between the switch away in sched and the release of p->lock after the switch back.
      lock: the CPU that holds p->lock.  on: the CPU whose c->proc is p.  forker: who allocated it.
      deaths, reaps: how often the slot became a zombie and was freed by wait.  -1 is none. */
  datatype Proc = Proc(state: State, point: Point, inSched: bool, parent: int, chan: Chan, killed: bool, lock: int, on: int, forker: int,
                       deaths: nat, reaps: nat)

  datatype Mode = Picking | Executing | Returning

  datatype Cpu = Cpu(proc: int, mode: Mode)

  /** An executing process holds its own lock. */
  predicate Guarded(q: Proc) { q.inSched || q.point.Locked? || q.point.Dropped? || q.point.Marked? }

  /** Points without a spinlock, where a timer interrupt may yield. */
  predicate Preemptible(x: Point) { x.User? || x.Forked? || x.Parented? || x.WaitAgain? }

  predicate Exiting(x: Point) { x.Reparenting? || x.WakingInit? || x.WakingParent? || x.Marking? || x.Marked? }

  /** The points that hold wait_lock. */
  predicate Region(x: Point) { Exiting(x) || x.Scan? || x.Tired? || x.Locked? }

  predicate Alive(s: State) { s.Runnable? || s.Running? || s.Sleeping? }

  datatype View = View(procs: seq<Proc>, cpus: seq<Cpu>, wlock: int)
  {
    /** Asleep in wait, or past the point where wait could still see an exit. */
    predicate Dozing(p: nat)
      requires p < |procs|
    {
      procs[p].point.Dropped? || (procs[p].point.Asleep? && procs[p].state.Sleeping?)
    }

    ghost predicate CpuOk(c: nat)
      requires c < |cpus|
    {
      && -1 <= cpus[c].proc < |procs| && (cpus[c].mode.Picking? <==> cpus[c].proc == -1)
      && (cpus[c].proc >= 0 ==> procs[cpus[c].proc].on == c)
    }

    /** The state fits the program point, and p->lock is held where the code holds it. */
    ghost predicate Placed(p: nat)
      requires p < |procs|
    {
      var q := procs[p];
      && -1 <= q.on < |cpus| && (q.on >= 0 ==> cpus[q.on].proc == p)
      && (q.lock == if q.on >= 0 && (cpus[q.on].mode.Returning? || Guarded(q)) then q.on else -1)
      && (q.inSched ==> Preemptible(q.point) || q.point.Asleep?)
      && if q.on >= 0 && cpus[q.on].mode.Executing?
         then !q.point.Idle? && !q.point.Dead? && (q.point.Asleep? ==> q.inSched) &&
              q.state == if q.point.Marked? then Zombie else Running
         else match q.state
              case Unused => q.on < 0 && q.point.Idle?
              case Used => q.on < 0 && q.point.Idle?
              case Runnable => q.inSched
              case Sleeping => q.inSched && ((q.point.User? && q.chan != Of(p)) || (q.point.Asleep? && q.chan == Of(p)))
              case Zombie => q.point.Dead?
              case Running => false
    }

    ghost predicate ProcOk(p: nat)
      requires p < |procs|
    {
      var q := procs[p];
      && Placed(p)
      && (Region(q.point) <==> wlock == p)
      && -1 <= q.parent < |procs| && q.parent != p
      && (q.state.Unused? ==> q.parent == -1)
      && (p == INIT ==> Alive(q.state) && q.parent == -1 && !Exiting(q.point))
      && (p != INIT && (Alive(q.state) || q.state.Zombie?) ==> q.parent >= 0)
      && (q.state.Used? ==> 0 <= q.forker < |procs| && (procs[q.forker].point == Forked(p) || procs[q.forker].point == Parented(p)))
      && q.deaths == q.reaps + if q.state.Zombie? then 1 else 0
    }

    /** The wakeup of init by the process that holds wait_lock has yet to come to p. */
    ghost predicate Rescued(p: nat) {
      && 0 <= wlock < |procs| && procs[wlock].point.WakingInit? && p == INIT && procs[wlock].point.j <= p
    }

    /** What holds between a parent p and its child q. */
    ghost predicate ChildOk(p: nat, q: nat)
      requires p < |procs| && q < |procs| && procs[q].parent == p
    {
      var x, y := procs[p].point, procs[q].point;
      && Alive(procs[p].state)
      && (Exiting(x) ==> (x.Reparenting? && x.k <= q) || (x.WakingInit? && x.k < q))
      && (procs[q].state.Zombie? ==> (x.Scan? ==> x.k <= q) && !x.Tired? && !x.Locked? && (Dozing(p) ==> Rescued(p)))
      && (y.Marking? || (y.WakingParent? && p < y.j) ==> !Dozing(p))
    }

    /** The child that p is forking. */
    ghost predicate ForkOk(p: nat)
      requires p < |procs|
    {
      var x := procs[p].point;
      x.Forked? || x.Parented? ==>
        && x.np < |procs| && procs[x.np].state.Used? && procs[x.np].forker == p && x.np != p
        && procs[x.np].parent == if x.Forked? then -1 else p
    }

    ghost predicate Ok() {
      && INIT < |procs| && -1 <= wlock < |procs|
      && (forall c: nat {:trigger CpuOk(c)} :: c < |cpus| ==> CpuOk(c))
      && (forall p: nat {:trigger ProcOk(p)} :: p < |procs| ==> ProcOk(p))
      && (forall p: nat {:trigger ForkOk(p)} :: p < |procs| ==> ForkOk(p))
      && (forall p: nat, q: nat {:trigger ChildOk(p, q)} :: p < |procs| && q < |procs| && procs[q].parent == p ==> ChildOk(p, q))
    }
  }

  // ----- what the invariant means -----

  /** No lost child exit: with wait_lock free, nobody sleeps in wait while a child is a zombie. */
  lemma NoLostExit(v: View, p: nat, q: nat)
    requires v.Ok() && p < |v.procs| && q < |v.procs| && v.wlock == -1
    requires v.procs[p].state.Sleeping? && v.procs[p].chan == Of(p) && v.procs[q].parent == p
    ensures !v.procs[q].state.Zombie?
  {
    assert v.ProcOk(p) && v.Placed(p) && v.ChildOk(p, q);
  }

  /** At most one CPU runs a process, and with p->lock free it runs exactly when some CPU has it. */
  lemma OneCpu(v: View, p: nat)
    requires v.Ok() && p < |v.procs|
    ensures forall c: nat, d: nat :: c < |v.cpus| && d < |v.cpus| && v.cpus[c].proc == p && v.cpus[d].proc == p ==> c == d
    ensures v.procs[p].lock == -1 ==> (v.procs[p].state.Running? <==> exists c: nat :: c < |v.cpus| && v.cpus[c].proc == p)
  {
    forall c: nat | c < |v.cpus| && v.cpus[c].proc == p ensures v.procs[p].on == c { assert v.CpuOk(c); }
    assert v.ProcOk(p) && v.Placed(p);
    if v.procs[p].on >= 0 { assert v.CpuOk(v.procs[p].on); }
  }

  /** Every zombie has a living parent, and each death is reaped at most once. */
  lemma ZombieHasParent(v: View, q: nat)
    requires v.Ok() && q < |v.procs| && v.procs[q].state.Zombie?
    ensures 0 <= v.procs[q].parent < |v.procs| && Alive(v.procs[v.procs[q].parent].state)
    ensures v.procs[q].deaths == v.procs[q].reaps + 1
  {
    assert v.ProcOk(q) && v.ChildOk(v.procs[q].parent, q);
  }

  // ----- the steps -----

  /** c is the CPU that acts.  Kill and Wake (of a channel other than wait's) may come from any. */
  datatype Step = Pick(c: nat, k: nat) | Back(c: nat) | Resume(c: nat) | Wake(k: nat, x: int) | Kill(k: nat) | Act(c: nat, a: Action)

  /** What a process does at its point. */
  datatype Action =
    | Yield | Sleep(x: int)
    | ForkAlloc(k: nat) | ForkParent | ForkRun
    | ExitLock | Reparent | WakeInit | WakeParent | Mark | ExitSwitch
    | WaitLock | WaitScan(copyFails: bool) | SleepLock | SleepRelease | SleepSet

  /** CPU c executes kernel or user code of its process, past the switch. */
  predicate Runs(v: View, c: nat) {
    c < |v.cpus| && v.cpus[c].mode.Executing? && 0 <= v.cpus[c].proc < |v.procs| && !v.procs[v.cpus[c].proc].inSched
  }

  /** wakeup's turn j by process p: it skips itself and waits for the lock of any other. */
  predicate CanTouch(v: View, p: nat, j: nat)
    requires j < |v.procs|
  {
    j == p || v.procs[j].lock == -1
  }

  predicate Enabled(v: View, s: Step) {
    match s
    case Pick(c, k) => c < |v.cpus| && v.cpus[c].mode.Picking? && k < |v.procs| && v.procs[k].lock == -1 && v.procs[k].state.Runnable?
    case Back(c) => c < |v.cpus| && v.cpus[c].mode.Returning? && 0 <= v.cpus[c].proc < |v.procs|
    case Resume(c) => c < |v.cpus| && v.cpus[c].mode.Executing? && 0 <= v.cpus[c].proc < |v.procs| && v.procs[v.cpus[c].proc].inSched
    case Wake(k, x) => k < |v.procs| && v.procs[k].lock == -1 && v.procs[k].state.Sleeping? && v.procs[k].chan == Other(x)
    case Kill(k) => k < |v.procs| && v.procs[k].lock == -1 && !v.procs[k].state.Unused?
    case Act(c, a) => Runs(v, c) && CanAct(v, a, v.cpus[c].proc)
  }

  /** The guard of a step that process p takes itself. */
  predicate CanAct(v: View, a: Action, p: nat)
    requires p < |v.procs|
  {
    var x := v.procs[p].point;
    match a
    case Yield => Preemptible(x)
    case Sleep(_) => x.User?
    case ForkAlloc(k) => x.User? && k < |v.procs| && v.procs[k].lock == -1 && v.procs[k].state.Unused?
    case ForkParent => x.Forked? && v.wlock == -1 && x.np < |v.procs|
    case ForkRun => x.Parented? && x.np < |v.procs| && v.procs[x.np].lock == -1
    case ExitLock => x.User? && p != INIT && v.wlock == -1
    case Reparent => x.Reparenting?
    case WakeInit => x.WakingInit? && (x.j < |v.procs| ==> CanTouch(v, p, x.j))
    case WakeParent => x.WakingParent? && (x.j < |v.procs| ==> CanTouch(v, p, x.j))
    case Mark => x.Marking?
    case ExitSwitch => x.Marked?
    case WaitLock => (x.User? || x.WaitAgain?) && v.wlock == -1
    case WaitScan(_) => x.Scan? && (x.k < |v.procs| && v.procs[x.k].parent == p ==> v.procs[x.k].lock == -1)
    case SleepLock => x.Tired?
    case SleepRelease => x.Locked?
    case SleepSet => x.Dropped?
  }

  function With(v: View, p: nat, q: Proc): (w: View)
    requires p < |v.procs|
  {
    v.(procs := v.procs[p := q])
  }

  /** Process p goes on at point x. */
  function At(v: View, p: nat, x: Point): (w: View)
    requires p < |v.procs|
  {
    With(v, p, v.procs[p].(point := x))
  }

  /** p, holding its lock, switches to the scheduler of CPU c. */
  function Switch(v: View, c: nat, p: nat, q: Proc): (w: View)
    requires c < |v.cpus| && p < |v.procs|
  {
    With(v, p, q.(lock := c)).(cpus := v.cpus[c := Cpu(p, Returning)])
  }

  /** wakeup's effect on process j. */
  function Woken(v: View, p: nat, j: nat, chan: Chan): (w: View)
    requires j < |v.procs|
  {
    if j != p && v.procs[j].state.Sleeping? && v.procs[j].chan == chan then With(v, j, v.procs[j].(state := Runnable)) else v
  }

  /** freeproc by wait. */
  function Reaped(v: View, k: nat): (w: View)
    requires k < |v.procs|
  {
    var q := v.procs[k];
    With(v, k, q.(state := Unused, point := Idle, parent := -1, chan := Nowhere, killed := false, reaps := q.reaps + 1))
  }

  function Next(v: View, s: Step): (w: View)
    requires Enabled(v, s)
  {
    match s
    case Pick(c, k) => With(v, k, v.procs[k].(state := Running, on := c, lock := c)).(cpus := v.cpus[c := Cpu(k, Executing)])
    case Back(c) =>
      var p := v.cpus[c].proc;
      With(v, p, v.procs[p].(on := -1, lock := -1)).(cpus := v.cpus[c := Cpu(-1, Picking)])
    case Resume(c) =>
      var p := v.cpus[c].proc;
      var q := v.procs[p];
      With(v, p, q.(inSched := false, chan := Nowhere, lock := -1, point := if q.point.Asleep? then WaitAgain else q.point))
    case Wake(k, _) => With(v, k, v.procs[k].(state := Runnable))
    case Kill(k) =>
      var q := v.procs[k].(killed := true);
      With(v, k, if q.state.Sleeping? then q.(state := Runnable) else q)
    case Act(c, a) => Acted(v, a, c, v.cpus[c].proc)
  }

  function Acted(v: View, a: Action, c: nat, p: nat): (w: View)
    requires p < |v.procs| && c < |v.cpus| && CanAct(v, a, p)
  {
    var n, q := |v.procs|, v.procs[p];
    var x := q.point;
    match a
    case Yield => Switch(v, c, p, q.(state := Runnable, inSched := true))
    case Sleep(y) => Switch(v, c, p, q.(state := Sleeping, chan := Other(y), inSched := true))
    case ForkAlloc(k) => At(With(v, k, v.procs[k].(state := Used, forker := p)), p, Forked(k))
    case ForkParent => At(With(v, x.np, v.procs[x.np].(parent := p)), p, Parented(x.np))
    case ForkRun => At(With(v, x.np, v.procs[x.np].(state := Runnable, point := User, inSched := true)), p, User)
    case ExitLock => At(v, p, Reparenting(0)).(wlock := p)
    case Reparent =>
      if x.k >= n then At(v, p, WakingParent(0))
      else if v.procs[x.k].parent == p then At(With(v, x.k, v.procs[x.k].(parent := INIT)), p, WakingInit(x.k, 0))
      else At(v, p, Reparenting(x.k + 1))
    case WakeInit =>
      if x.j >= n then At(v, p, Reparenting(x.k + 1))
      else At(Woken(v, p, x.j, Of(INIT)), p, WakingInit(x.k, x.j + 1))
    case WakeParent =>
      if x.j >= n then At(v, p, Marking)
      else At(Woken(v, p, x.j, if q.parent >= 0 then Of(q.parent) else Nowhere), p, WakingParent(x.j + 1))
    case Mark => With(v, p, q.(state := Zombie, point := Marked, lock := c, deaths := q.deaths + 1))
    case ExitSwitch => Switch(v, c, p, q.(point := Dead)).(wlock := -1)
    case WaitLock => At(v, p, Scan(0, false)).(wlock := p)
    case WaitScan(copyFails) =>
      if x.k >= n then
        if !x.kids || q.killed then At(v, p, User).(wlock := -1) else At(v, p, Tired)
      else if v.procs[x.k].parent != p then At(v, p, Scan(x.k + 1, x.kids))
      else if !v.procs[x.k].state.Zombie? then At(v, p, Scan(x.k + 1, true))
      else if copyFails then At(v, p, User).(wlock := -1)
      else At(Reaped(v, x.k), p, User).(wlock := -1)
    case SleepLock => With(v, p, q.(point := Locked, lock := c))
    case SleepRelease => At(v, p, Dropped).(wlock := -1)
    case SleepSet => Switch(v, c, p, q.(state := Sleeping, chan := Of(p), point := Asleep, inSched := true))
  }

  // ----- every step keeps the invariant -----

  /** p is not in fork, unless for a child among p and k. */
  ghost predicate ForksWithin(x: Point, p: nat, k: nat) { x.Forked? || x.Parented? ==> x.np == p || x.np == k }

  /** Only CPU c, process p (there or not running) and process k differ between v and w. */
  ghost predicate Frame(v: View, w: View, c: nat, p: nat, k: nat) {
    && |w.procs| == |v.procs| && |w.cpus| == |v.cpus| && p < |v.procs| && k < |v.procs|
    && (forall d: nat {:trigger w.cpus[d]} :: d < |v.cpus| && d != c ==> w.cpus[d] == v.cpus[d])
    && (forall q: nat {:trigger w.procs[q]} :: q < |v.procs| && q != p && q != k ==> w.procs[q] == v.procs[q])
    && (c < |v.cpus| ==> v.cpus[c].proc == p || v.cpus[c].proc == -1)
    && (w.procs[p].on == v.procs[p].on || v.procs[p].on == -1 || v.procs[p].on == c)
    && (k != p ==> w.procs[k].on == v.procs[k].on)
  }

  /** What the step does to p and k is of no concern to the others. */
  ghost predicate Discreet(v: View, w: View, p: nat, k: nat)
    requires |w.procs| == |v.procs| && p < |v.procs| && k < |v.procs|
  {
    && (w.wlock == v.wlock || ((w.wlock == -1 || w.wlock == p) && (v.wlock == -1 || v.wlock == p)))
    && (w.procs[p].point == v.procs[p].point || ForksWithin(v.procs[p].point, p, k))
    && (w.procs[k].point == v.procs[k].point || ForksWithin(v.procs[k].point, p, k))
    && (v.procs[p].state.Used? ==> w.procs[p].state.Used? && w.procs[p].forker == v.procs[p].forker && w.procs[p].parent == v.procs[p].parent)
    && (v.procs[k].state.Used? && v.procs[k].forker != p ==>
          w.procs[k].state.Used? && w.procs[k].forker == v.procs[k].forker && w.procs[k].parent == v.procs[k].parent)
  }

  /** Unless init is among p and k, a wakeup it waits for is still to come. */
  ghost predicate RescueKept(v: View, w: View, p: nat, k: nat) {
    INIT != p && INIT != k && v.Rescued(INIT) ==> w.Rescued(INIT)
  }

  lemma FrameCpus(v: View, w: View, c: nat, p: nat, k: nat, d: nat)
    requires v.Ok() && Frame(v, w, c, p, k) && d < |v.cpus| && d != c
    ensures w.CpuOk(d)
  {
    assert v.CpuOk(d) && w.cpus[d] == v.cpus[d];
    var q := v.cpus[d].proc;
    if q >= 0 { assert w.procs[q].on == v.procs[q].on; }
  }

  lemma FrameProcs(v: View, w: View, c: nat, p: nat, k: nat, q: nat)
    requires v.Ok() && Frame(v, w, c, p, k) && Discreet(v, w, p, k) && q < |v.procs| && q != p && q != k
    ensures w.ProcOk(q) && w.ForkOk(q)
  {
    assert w.procs[q] == v.procs[q] && v.ProcOk(q) && v.Placed(q) && v.ForkOk(q);
    assert w.Placed(q);
    if v.procs[q].state.Used? {
      var f := v.procs[q].forker;
      assert w.procs[f].point == v.procs[f].point;
    }
  }

  lemma FrameChildren(v: View, w: View, c: nat, p: nat, k: nat, a: nat, b: nat)
    requires v.Ok() && Frame(v, w, c, p, k) && RescueKept(v, w, p, k)
    requires a < |v.procs| && b < |v.procs| && a != p && a != k && b != p && b != k && w.procs[b].parent == a
    ensures w.ChildOk(a, b)
  {
    assert w.procs[a] == v.procs[a] && w.procs[b] == v.procs[b];
    assert v.ChildOk(a, b);
  }

  /** The invariant of w from its new parts: CPU c and processes p and k. */
  lemma StepOk(v: View, w: View, c: nat, p: nat, k: nat)
    requires v.Ok() && Frame(v, w, c, p, k) && Discreet(v, w, p, k) && RescueKept(v, w, p, k)
    requires -1 <= w.wlock < |w.procs| && (c < |w.cpus| ==> w.CpuOk(c))
    requires w.ProcOk(p) && w.ProcOk(k) && w.ForkOk(p) && w.ForkOk(k)
    requires forall b: nat {:trigger w.ChildOk(p, b)} :: b < |w.procs| && w.procs[b].parent == p ==> w.ChildOk(p, b)
    requires forall b: nat {:trigger w.ChildOk(k, b)} :: b < |w.procs| && w.procs[b].parent == k ==> w.ChildOk(k, b)
    requires 0 <= w.procs[p].parent < |w.procs| ==> w.ChildOk(w.procs[p].parent, p)
    requires 0 <= w.procs[k].parent < |w.procs| ==> w.ChildOk(w.procs[k].parent, k)
    ensures w.Ok()
  {
    forall d: nat | d < |w.cpus| ensures w.CpuOk(d) {
      if d != c { FrameCpus(v, w, c, p, k, d); }
    }
    forall q: nat | q < |w.procs| ensures w.ProcOk(q) && w.ForkOk(q) {
      if q != p && q != k { FrameProcs(v, w, c, p, k, q); }
    }
    forall a: nat, b: nat | a < |w.procs| && b < |w.procs| && w.procs[b].parent == a ensures w.ChildOk(a, b) {
      if a != p && a != k && b != p && b != k { FrameChildren(v, w, c, p, k, a, b); }
    }
  }

  /** The facts about process p and its family that every step starts from. */
  lemma Known(v: View, p: nat)
    requires v.Ok() && p < |v.procs|
    ensures v.ProcOk(p) && v.Placed(p) && v.ForkOk(p)
    ensures v.procs[p].state.Used? ==> v.ForkOk(v.procs[p].forker)
    ensures v.procs[p].on >= 0 ==> v.CpuOk(v.procs[p].on)
    ensures (v.procs[p].parent >= 0 ==> v.ProcOk(v.procs[p].parent) && v.ChildOk(v.procs[p].parent, p))
  {
    assert v.ProcOk(p);
    if v.procs[p].on >= 0 { assert v.CpuOk(v.procs[p].on); }
    if v.procs[p].state.Used? { assert v.ForkOk(v.procs[p].forker); }
  }


  lemma PickOk(v: View, c: nat, k: nat)
    requires v.Ok() && Enabled(v, Pick(c, k))
    ensures Next(v, Pick(c, k)).Ok()
  {
    var w, p := Next(v, Pick(c, k)), k;
    assert v.CpuOk(c);
    Known(v, p);
    assert w.Placed(p);
    forall b: nat | b < |w.procs| && w.procs[b].parent == p ensures w.ChildOk(p, b) { Known(v, b); }
    StepOk(v, w, c, p, p);
  }

  lemma BackOk(v: View, c: nat)
    requires v.Ok() && Enabled(v, Back(c))
    ensures Next(v, Back(c)).Ok()
  {
    var w, p := Next(v, Back(c)), v.cpus[c].proc;
    assert v.CpuOk(c);
    Known(v, p);
    assert w.Placed(p);
    forall b: nat | b < |w.procs| && w.procs[b].parent == p ensures w.ChildOk(p, b) { Known(v, b); }
    StepOk(v, w, c, p, p);
  }

  lemma ResumeOk(v: View, c: nat)
    requires v.Ok() && Enabled(v, Resume(c))
    ensures Next(v, Resume(c)).Ok()
  {
    var w, p := Next(v, Resume(c)), v.cpus[c].proc;
    assert v.CpuOk(c);
    Known(v, p);
    assert w.Placed(p);
    forall b: nat | b < |w.procs| && w.procs[b].parent == p ensures w.ChildOk(p, b) { Known(v, b); }
    StepOk(v, w, c, p, p);
  }

  /** A sleeper whose lock is free becomes runnable. */
  lemma AwakeOk(v: View, k: nat)
    requires v.Ok() && k < |v.procs| && v.procs[k].lock == -1 && v.procs[k].state.Sleeping?
    ensures With(v, k, v.procs[k].(state := Runnable)).Ok()
  {
    var w := With(v, k, v.procs[k].(state := Runnable));
    Known(v, k);
    assert w.Placed(k);
    forall b: nat | b < |w.procs| && w.procs[b].parent == k ensures w.ChildOk(k, b) { Known(v, b); }
    StepOk(v, w, |v.cpus|, k, k);
  }

  lemma WakeOk(v: View, k: nat, x: int)
    requires v.Ok() && Enabled(v, Wake(k, x))
    ensures Next(v, Wake(k, x)).Ok()
  {
    AwakeOk(v, k);
  }

  lemma FlagOk(v: View, k: nat)
    requires v.Ok() && k < |v.procs|
    ensures With(v, k, v.procs[k].(killed := true)).Ok()
  {
    hide View.Placed;
    var w := With(v, k, v.procs[k].(killed := true));
    Known(v, k);
    FlaggedProc(v, k);
    forall b: nat | b < |w.procs| && w.procs[b].parent == k ensures w.ChildOk(k, b) { Known(v, b); }
    StepOk(v, w, |v.cpus|, k, k);
  }

  lemma FlaggedProc(v: View, k: nat)
    requires v.Ok() && k < |v.procs|
    ensures With(v, k, v.procs[k].(killed := true)).ProcOk(k)
  {
    Known(v, k);
    assert With(v, k, v.procs[k].(killed := true)).Placed(k);
  }

  lemma KillOk(v: View, k: nat)
    requires v.Ok() && Enabled(v, Kill(k))
    ensures Next(v, Kill(k)).Ok()
  {
    FlagOk(v, k);
    var u := With(v, k, v.procs[k].(killed := true));
    if v.procs[k].state.Sleeping? {
      AwakeOk(u, k);
      assert Next(v, Kill(k)) == With(u, k, u.procs[k].(state := Runnable));
    }
  }

  lemma YieldOk(v: View, c: nat)
    requires v.Ok() && Enabled(v, Act(c, Yield))
    ensures Next(v, Act(c, Yield)).Ok()
  {
    var w, p := Next(v, Act(c, Yield)), v.cpus[c].proc;
    assert v.CpuOk(c);
    Known(v, p);
    assert w.Placed(p);
    forall b: nat | b < |w.procs| && w.procs[b].parent == p ensures w.ChildOk(p, b) { Known(v, b); }
    StepOk(v, w, c, p, p);
  }

  lemma SleepOk(v: View, c: nat, x: int)
    requires v.Ok() && Enabled(v, Act(c, Sleep(x)))
    ensures Next(v, Act(c, Sleep(x))).Ok()
  {
    var w, p := Next(v, Act(c, Sleep(x))), v.cpus[c].proc;
    assert v.CpuOk(c);
    Known(v, p);
    assert w.Placed(p);
    forall b: nat | b < |w.procs| && w.procs[b].parent == p ensures w.ChildOk(p, b) { Known(v, b); }
    StepOk(v, w, c, p, p);
  }

  lemma ExitLockOk(v: View, c: nat)
    requires v.Ok() && Enabled(v, Act(c, ExitLock))
    ensures Next(v, Act(c, ExitLock)).Ok()
  {
    var w, p := Next(v, Act(c, ExitLock)), v.cpus[c].proc;
    assert v.CpuOk(c);
    Known(v, p);
    assert w.Placed(p);
    forall b: nat | b < |w.procs| && w.procs[b].parent == p ensures w.ChildOk(p, b) { Known(v, b); }
    StepOk(v, w, c, p, p);
  }

  lemma MarkOk(v: View, c: nat)
    requires v.Ok() && Enabled(v, Act(c, Mark))
    ensures Next(v, Act(c, Mark)).Ok()
  {
    var w, p := Next(v, Act(c, Mark)), v.cpus[c].proc;
    assert v.CpuOk(c);
    Known(v, p);
    assert w.Placed(p);
    forall b: nat | b < |w.procs| ensures w.procs[b].parent != p { Known(v, b); }
    StepOk(v, w, c, p, p);
  }

  lemma ExitSwitchOk(v: View, c: nat)
    requires v.Ok() && Enabled(v, Act(c, ExitSwitch))
    ensures Next(v, Act(c, ExitSwitch)).Ok()
  {
    var w, p := Next(v, Act(c, ExitSwitch)), v.cpus[c].proc;
    assert v.CpuOk(c);
    Known(v, p);
    assert w.Placed(p);
    forall b: nat | b < |w.procs| ensures w.procs[b].parent != p { Known(v, b); }
    StepOk(v, w, c, p, p);
  }

  lemma WaitLockOk(v: View, c: nat)
    requires v.Ok() && Enabled(v, Act(c, WaitLock))
    ensures Next(v, Act(c, WaitLock)).Ok()
  {
    var w, p := Next(v, Act(c, WaitLock)), v.cpus[c].proc;
    assert v.CpuOk(c);
    Known(v, p);
    assert w.Placed(p);
    forall b: nat | b < |w.procs| && w.procs[b].parent == p ensures w.ChildOk(p, b) { Known(v, b); }
    StepOk(v, w, c, p, p);
  }

  lemma SleepLockOk(v: View, c: nat)
    requires v.Ok() && Enabled(v, Act(c, SleepLock))
    ensures Next(v, Act(c, SleepLock)).Ok()
  {
    var w, p := Next(v, Act(c, SleepLock)), v.cpus[c].proc;
    assert v.CpuOk(c);
    Known(v, p);
    assert w.Placed(p);
    forall b: nat | b < |w.procs| && w.procs[b].parent == p ensures w.ChildOk(p, b) { Known(v, b); }
    StepOk(v, w, c, p, p);
  }

  lemma SleepReleaseOk(v: View, c: nat)
    requires v.Ok() && Enabled(v, Act(c, SleepRelease))
    ensures Next(v, Act(c, SleepRelease)).Ok()
  {
    var w, p := Next(v, Act(c, SleepRelease)), v.cpus[c].proc;
    assert v.CpuOk(c);
    Known(v, p);
    assert w.Placed(p);
    forall b: nat | b < |w.procs| && w.procs[b].parent == p ensures w.ChildOk(p, b) { Known(v, b); }
    StepOk(v, w, c, p, p);
  }

  lemma SleepSetOk(v: View, c: nat)
    requires v.Ok() && Enabled(v, Act(c, SleepSet))
    ensures Next(v, Act(c, SleepSet)).Ok()
  {
    var w, p := Next(v, Act(c, SleepSet)), v.cpus[c].proc;
    assert v.CpuOk(c);
    Known(v, p);
    assert w.Placed(p);
    forall b: nat | b < |w.procs| && w.procs[b].parent == p ensures w.ChildOk(p, b) { Known(v, b); }
    StepOk(v, w, c, p, p);
  }

  lemma ForkAllocProcs(v: View, c: nat, k: nat)
    requires v.Ok() && Enabled(v, Act(c, ForkAlloc(k)))
    ensures var w, p := Next(v, Act(c, ForkAlloc(k))), v.cpus[c].proc;
            w.CpuOk(c) && w.ProcOk(p) && w.ProcOk(k) && w.ForkOk(p) && w.ForkOk(k)
  {
    var w, p := Next(v, Act(c, ForkAlloc(k))), v.cpus[c].proc;
    assert v.CpuOk(c);
    Known(v, p);
    Known(v, k);
    assert w.Placed(p) && w.Placed(k);
  }

  lemma ForkAllocOk(v: View, c: nat, k: nat)
    requires v.Ok() && Enabled(v, Act(c, ForkAlloc(k)))
    ensures Next(v, Act(c, ForkAlloc(k))).Ok()
  {
    hide View.Placed;
    var w, p := Next(v, Act(c, ForkAlloc(k))), v.cpus[c].proc;
    assert v.CpuOk(c) && v.ProcOk(INIT);
    Known(v, p);
    Known(v, k);
    ForkAllocProcs(v, c, k);
    forall b: nat | b < |w.procs| ensures w.procs[b].parent != k && (w.procs[b].parent == p ==> w.ChildOk(p, b)) { Known(v, b); }
    StepOk(v, w, c, p, k);
  }

  lemma ForkParentProcs(v: View, c: nat)
    requires v.Ok() && Enabled(v, Act(c, ForkParent))
    ensures var w, p, k := Next(v, Act(c, ForkParent)), v.cpus[c].proc, v.procs[v.cpus[c].proc].point.np;
            w.CpuOk(c) && w.ProcOk(p) && w.ProcOk(k) && w.ForkOk(p) && w.ForkOk(k)
  {
    var w, p, k := Next(v, Act(c, ForkParent)), v.cpus[c].proc, v.procs[v.cpus[c].proc].point.np;
    assert v.CpuOk(c);
    Known(v, p);
    Known(v, k);
    assert w.Placed(p) && w.Placed(k);
  }

  lemma ForkParentOk(v: View, c: nat)
    requires v.Ok() && Enabled(v, Act(c, ForkParent))
    ensures Next(v, Act(c, ForkParent)).Ok()
  {
    hide View.Placed;
    var w, p, k := Next(v, Act(c, ForkParent)), v.cpus[c].proc, v.procs[v.cpus[c].proc].point.np;
    assert v.CpuOk(c) && v.ProcOk(INIT);
    Known(v, p);
    Known(v, k);
    ForkParentProcs(v, c);
    forall b: nat | b < |w.procs| ensures w.procs[b].parent != k && (w.procs[b].parent == p ==> w.ChildOk(p, b)) { Known(v, b); }
    StepOk(v, w, c, p, k);
  }

  lemma ForkRunProcs(v: View, c: nat)
    requires v.Ok() && Enabled(v, Act(c, ForkRun))
    ensures var w, p, k := Next(v, Act(c, ForkRun)), v.cpus[c].proc, v.procs[v.cpus[c].proc].point.np;
            w.CpuOk(c) && w.ProcOk(p) && w.ProcOk(k) && w.ForkOk(p) && w.ForkOk(k)
  {
    var w, p, k := Next(v, Act(c, ForkRun)), v.cpus[c].proc, v.procs[v.cpus[c].proc].point.np;
    assert v.CpuOk(c);
    Known(v, p);
    Known(v, k);
    assert w.Placed(p) && w.Placed(k);
  }

  lemma ForkRunOk(v: View, c: nat)
    requires v.Ok() && Enabled(v, Act(c, ForkRun))
    ensures Next(v, Act(c, ForkRun)).Ok()
  {
    hide View.Placed;
    var w, p, k := Next(v, Act(c, ForkRun)), v.cpus[c].proc, v.procs[v.cpus[c].proc].point.np;
    assert v.CpuOk(c) && v.ProcOk(INIT);
    Known(v, p);
    Known(v, k);
    ForkRunProcs(v, c);
    forall b: nat | b < |w.procs| ensures w.procs[b].parent != k && (w.procs[b].parent == p ==> w.ChildOk(p, b)) { Known(v, b); }
    StepOk(v, w, c, p, k);
  }

  /** A step of p alone that moves it to another point of the same critical section. */
  lemma MoveOk(v: View, c: nat, p: nat, x: Point)
    requires v.Ok() && Runs(v, c) && p == v.cpus[c].proc
    requires Region(v.procs[p].point) && Region(x) && !Guarded(v.procs[p]) && !x.Locked? && !x.Marked?
    requires (Exiting(x) <==> Exiting(v.procs[p].point)) && !v.Rescued(INIT)
    requires forall b: nat {:trigger v.ChildOk(p, b)} :: b < |v.procs| && v.procs[b].parent == p ==>
               && (Exiting(x) ==> (x.Reparenting? && x.k <= b) || (x.WakingInit? && x.k < b))
               && (v.procs[b].state.Zombie? ==> (x.Scan? ==> x.k <= b) && !x.Tired?)
    requires var m := v.procs[p].parent;
             0 <= m < |v.procs| && (x.Marking? || (x.WakingParent? && m < x.j)) ==> !v.Dozing(m)
    ensures At(v, p, x).Ok()
  {
    var w := At(v, p, x);
    assert v.CpuOk(c);
    Known(v, p);
    assert w.Placed(p);
    forall b: nat | b < |w.procs| && w.procs[b].parent == p ensures w.ChildOk(p, b) {
      Known(v, b);
      assert v.ChildOk(p, b);
    }
    StepOk(v, w, c, p, p);
  }

  ghost predicate CanAdopt(v: View, c: nat, p: nat, k: nat) {
    && v.Ok() && Runs(v, c) && p == v.cpus[c].proc && v.procs[p].point == Reparenting(k) && k < |v.procs| && v.procs[k].parent == p
  }

  lemma AdoptProcs(v: View, c: nat, p: nat, k: nat)
    requires CanAdopt(v, c, p, k)
    ensures var w := Next(v, Act(c, Reparent));
            w.CpuOk(c) && w.ProcOk(p) && w.ProcOk(k) && w.ForkOk(p) && w.ForkOk(k) && w.ChildOk(INIT, k) && Discreet(v, w, p, k)
  {
    var w := Next(v, Act(c, Reparent));
    assert v.CpuOk(c) && v.ProcOk(INIT);
    Known(v, p);
    Known(v, k);
    assert w.Placed(p) && w.Placed(k);
  }

  /** reparent's turn for a child: it becomes init's, and init's wakeup starts. */
  lemma AdoptOk(v: View, c: nat, p: nat, k: nat)
    requires CanAdopt(v, c, p, k)
    ensures Next(v, Act(c, Reparent)).Ok()
  {
    hide View.Placed;
    var w := Next(v, Act(c, Reparent));
    assert v.CpuOk(c);
    Known(v, p);
    Known(v, k);
    AdoptProcs(v, c, p, k);
    forall b: nat | b < |w.procs| ensures (w.procs[b].parent == k ==> w.ChildOk(k, b)) && (w.procs[b].parent == p ==> w.ChildOk(p, b)) {
      Known(v, b);
    }
    StepOk(v, w, c, p, k);
  }

  lemma ReparentOk(v: View, c: nat)
    requires v.Ok() && Enabled(v, Act(c, Reparent))
    ensures Next(v, Act(c, Reparent)).Ok()
  {
    var p := v.cpus[c].proc;
    var k := v.procs[p].point.k;
    Known(v, p);
    if k < |v.procs| && v.procs[k].parent == p {
      AdoptOk(v, c, p, k);
    } else {
      forall b: nat | b < |v.procs| && v.procs[b].parent == p ensures k < b { Known(v, b); }
      MoveOk(v, c, p, if k >= |v.procs| then WakingParent(0) else Reparenting(k + 1));
    }
  }

  /** One turn of wakeup(init): after it, a sleeping init has no wakeup left to wait for. */
  lemma WakeInitOk(v: View, c: nat)
    requires v.Ok() && Enabled(v, Act(c, WakeInit))
    ensures Next(v, Act(c, WakeInit)).Ok()
  {
    var w, p := Next(v, Act(c, WakeInit)), v.cpus[c].proc;
    var x := v.procs[p].point;
    Known(v, p);
    if x.j >= |v.procs| {
      forall b: nat | b < |v.procs| && v.procs[b].parent == p ensures x.k < b { Known(v, b); }
      MoveOk(v, c, p, Reparenting(x.k + 1));
    } else {
      WokenOk(v, c, p, x.j, Of(INIT), WakingInit(x.k, x.j + 1));
    }
  }

  lemma WakeParentOk(v: View, c: nat)
    requires v.Ok() && Enabled(v, Act(c, WakeParent))
    ensures Next(v, Act(c, WakeParent)).Ok()
  {
    var w, p := Next(v, Act(c, WakeParent)), v.cpus[c].proc;
    var x := v.procs[p].point;
    Known(v, p);
    if x.j >= |v.procs| {
      forall b: nat | b < |v.procs| ensures v.procs[b].parent != p { Known(v, b); }
      MoveOk(v, c, p, Marking);
    } else {
      WokenOk(v, c, p, x.j, if v.procs[p].parent >= 0 then Of(v.procs[p].parent) else Nowhere, WakingParent(x.j + 1));
    }
  }

  /** p, in one of exit's wakeups on chan, comes to process j and goes on at x. */
  ghost predicate CanWake(v: View, c: nat, p: nat, j: nat, chan: Chan, x: Point) {
    && v.Ok() && Runs(v, c) && p == v.cpus[c].proc && j < |v.procs| && CanTouch(v, p, j)
    && var y := v.procs[p].point;
       || (y.WakingInit? && y.j == j && x == WakingInit(y.k, j + 1) && chan == Of(INIT))
       || (y == WakingParent(j) && x == WakingParent(j + 1) && v.procs[p].parent >= 0 && chan == Of(v.procs[p].parent))
  }

  lemma WokenProcs(v: View, c: nat, p: nat, j: nat, chan: Chan, x: Point)
    requires CanWake(v, c, p, j, chan, x)
    ensures var w := At(Woken(v, p, j, chan), p, x);
            w.CpuOk(c) && w.ProcOk(p) && w.ProcOk(j) && w.ForkOk(p) && w.ForkOk(j) && Discreet(v, w, p, j)
  {
    hide Discreet, View.Placed, View.ForkOk, View.Ok;
    WakerProc(v, c, p, j, chan, x);
    if j != p { WokenProc(v, c, p, j, chan, x); }
    WokenDiscreet(v, c, p, j, chan, x);
  }

  lemma WakerProc(v: View, c: nat, p: nat, j: nat, chan: Chan, x: Point)
    requires CanWake(v, c, p, j, chan, x)
    ensures var w := At(Woken(v, p, j, chan), p, x); w.CpuOk(c) && w.ProcOk(p) && w.ForkOk(p)
  {
    assert v.CpuOk(c);
    Known(v, p);
    assert At(Woken(v, p, j, chan), p, x).Placed(p);
  }

  lemma WokenProc(v: View, c: nat, p: nat, j: nat, chan: Chan, x: Point)
    requires CanWake(v, c, p, j, chan, x) && j != p
    ensures var w := At(Woken(v, p, j, chan), p, x); w.ProcOk(j) && w.ForkOk(j)
  {
    assert v.CpuOk(c);
    Known(v, p);
    Known(v, j);
    assert At(Woken(v, p, j, chan), p, x).Placed(j);
  }

  lemma WokenDiscreet(v: View, c: nat, p: nat, j: nat, chan: Chan, x: Point)
    requires CanWake(v, c, p, j, chan, x)
    ensures Discreet(v, At(Woken(v, p, j, chan), p, x), p, j)
  {
    assert v.CpuOk(c);
    Known(v, p);
    Known(v, j);
  }

  /** Nobody falls asleep, and process j is awake if the wakeup is for its wait. */
  lemma WokenDozing(v: View, c: nat, p: nat, j: nat, chan: Chan, x: Point, a: nat)
    requires CanWake(v, c, p, j, chan, x) && a < |v.procs|
    ensures var w := At(Woken(v, p, j, chan), p, x);
            (w.Dozing(a) ==> v.Dozing(a)) && (a == j && chan == Of(j) ==> !w.Dozing(a))
  {
    Known(v, a);
    Known(v, p);
  }

  lemma WokenChild(v: View, c: nat, p: nat, j: nat, chan: Chan, x: Point, a: nat, b: nat)
    requires CanWake(v, c, p, j, chan, x) && a < |v.procs| && b < |v.procs| && v.procs[b].parent == a
    ensures At(Woken(v, p, j, chan), p, x).ChildOk(a, b)
  {
    WokenDozing(v, c, p, j, chan, x, a);
    assert v.ProcOk(p) && v.ChildOk(a, b);
  }

  /** A turn of exit's wakeups: process j is woken if it sleeps on chan, and p moves on. */
  lemma WokenOk(v: View, c: nat, p: nat, j: nat, chan: Chan, x: Point)
    requires CanWake(v, c, p, j, chan, x)
    ensures At(Woken(v, p, j, chan), p, x).Ok()
  {
    var w := At(Woken(v, p, j, chan), p, x);
    WokenProcs(v, c, p, j, chan, x);
    assert v.CpuOk(c) && v.ProcOk(p);
    forall a: nat, b: nat | a < |w.procs| && b < |w.procs| && w.procs[b].parent == a ensures w.ChildOk(a, b) {
      WokenChild(v, c, p, j, chan, x, a, b);
    }
    StepOk(v, w, c, p, j);
  }

  /** wait gives up: wait_lock is dropped and nothing else changes. */
  lemma LeaveOk(v: View, c: nat, p: nat)
    requires v.Ok() && Runs(v, c) && p == v.cpus[c].proc && v.procs[p].point.Scan?
    ensures At(v, p, User).(wlock := -1).Ok()
  {
    var w := At(v, p, User).(wlock := -1);
    assert v.CpuOk(c);
    Known(v, p);
    assert w.Placed(p);
    forall b: nat | b < |w.procs| && w.procs[b].parent == p ensures w.ChildOk(p, b) { Known(v, b); }
    StepOk(v, w, c, p, p);
  }

  /** wait frees a zombie child; it is on no CPU. */
  lemma ReapOk(v: View, c: nat, p: nat, k: nat)
    requires v.Ok() && Runs(v, c) && p == v.cpus[c].proc && v.procs[p].point.Scan?
    requires k < |v.procs| && v.procs[k].parent == p && v.procs[k].lock == -1 && v.procs[k].state.Zombie?
    ensures At(Reaped(v, k), p, User).(wlock := -1).Ok()
    ensures forall d: nat :: d < |v.cpus| ==> v.cpus[d].proc != k
  {
    var w := At(Reaped(v, k), p, User).(wlock := -1);
    assert v.CpuOk(c);
    Known(v, p);
    Known(v, k);
    assert w.Placed(p) && w.Placed(k);
    forall b: nat | b < |w.procs| ensures w.procs[b].parent != k && (w.procs[b].parent == p ==> w.ChildOk(p, b)) { Known(v, b); }
    StepOk(v, w, c, p, k);
    ZombieOffCpu(v, k);
  }

  lemma ZombieOffCpu(v: View, k: nat)
    requires v.Ok() && k < |v.procs| && v.procs[k].lock == -1 && v.procs[k].state.Zombie?
    ensures forall d: nat :: d < |v.cpus| ==> v.cpus[d].proc != k
  {
    Known(v, k);
    OneCpu(v, k);
    forall d: nat | d < |v.cpus| ensures v.cpus[d].proc != k { assert v.CpuOk(d); }
  }

  lemma WaitScanOk(v: View, c: nat, f: bool)
    requires v.Ok() && Enabled(v, Act(c, WaitScan(f)))
    ensures Next(v, Act(c, WaitScan(f))).Ok()
  {
    var p := v.cpus[c].proc;
    var x := v.procs[p].point;
    Known(v, p);
    if x.k >= |v.procs| {
      if !x.kids || v.procs[p].killed {
        LeaveOk(v, c, p);
      } else {
        forall b: nat | b < |v.procs| && v.procs[b].parent == p ensures !v.procs[b].state.Zombie? { Known(v, b); }
        MoveOk(v, c, p, Tired);
      }
    } else if v.procs[x.k].parent == p && v.procs[x.k].state.Zombie? {
      if f { LeaveOk(v, c, p); } else { ReapOk(v, c, p, x.k); }
    } else {
      forall b: nat | b < |v.procs| && v.procs[b].parent == p && v.procs[b].state.Zombie? ensures x.k < b { Known(v, b); }
      MoveOk(v, c, p, Scan(x.k + 1, x.kids || v.procs[x.k].parent == p));
    }
  }

  lemma ActOk(v: View, c: nat, a: Action)
    requires v.Ok() && Enabled(v, Act(c, a))
    ensures Next(v, Act(c, a)).Ok()
  {
    match a
    case Yield => YieldOk(v, c);
    case Sleep(x) => SleepOk(v, c, x);
    case ForkAlloc(k) => ForkAllocOk(v, c, k);
    case ForkParent => ForkParentOk(v, c);
    case ForkRun => ForkRunOk(v, c);
    case ExitLock => ExitLockOk(v, c);
    case Reparent => ReparentOk(v, c);
    case WakeInit => WakeInitOk(v, c);
    case WakeParent => WakeParentOk(v, c);
    case Mark => MarkOk(v, c);
    case ExitSwitch => ExitSwitchOk(v, c);
    case WaitLock => WaitLockOk(v, c);
    case WaitScan(f) => WaitScanOk(v, c, f);
    case SleepLock => SleepLockOk(v, c);
    case SleepRelease => SleepReleaseOk(v, c);
    case SleepSet => SleepSetOk(v, c);
  }

  lemma NextOk(v: View, s: Step)
    requires v.Ok() && Enabled(v, s)
    ensures Next(v, s).Ok()
  {
    match s
    case Pick(c, k) => PickOk(v, c, k);
    case Back(c) => BackOk(v, c);
    case Resume(c) => ResumeOk(v, c);
    case Wake(k, x) => WakeOk(v, k, x);
    case Kill(k) => KillOk(v, k);
    case Act(c, a) => ActOk(v, c, a);
  }

  // ----- runs -----

  /** The state that userinit leaves: init ready to run, every other slot unused. */
  function Boot(nproc: nat, ncpu: nat): (v: View)
    requires INIT < nproc
  {
    var free := Proc(Unused, Idle, false, -1, Nowhere, false, -1, -1, -1, 0, 0);
    View(seq(nproc, i => if i == INIT then free.(state := Runnable, point := User, inSched := true) else free),
         seq(ncpu, _ => Cpu(-1, Picking)), -1)
  }

  lemma BootOk(nproc: nat, ncpu: nat)
    requires INIT < nproc
    ensures Boot(nproc, ncpu).Ok()
  {
    var v := Boot(nproc, ncpu);
    forall p: nat | p < nproc ensures v.ProcOk(p) && v.ForkOk(p) { assert v.Placed(p); }
  }

  /** v is reached from the boot state by a sequence of enabled steps. */
  least predicate Reachable(v: View) {
    (exists n: nat, m: nat :: INIT < n && v == Boot(n, m)) || (exists u: View, s: Step :: Reachable(u) && Enabled(u, s) && v == Next(u, s))
  }

  least lemma ReachableOk(v: View)
    requires Reachable(v)
    ensures v.Ok()
  {
    if n: nat, m: nat :| INIT < n && v == Boot(n, m) {
      BootOk(n, m);
    } else {
      var u: View, s: Step :| Reachable(u) && Enabled(u, s) && v == Next(u, s);
      ReachableOk(u);
      NextOk(u, s);
    }
  }

  /** In every interleaving: no child exit is lost, one CPU per process, and reaping is safe. */
  lemma EveryRun(v: View, p: nat, q: nat)
    requires Reachable(v) && p < |v.procs| && q < |v.procs|
    ensures v.wlock == -1 && v.procs[p].state.Sleeping? && v.procs[p].chan == Of(p) && v.procs[q].parent == p ==> !v.procs[q].state.Zombie?
    ensures forall c: nat, d: nat :: c < |v.cpus| && d < |v.cpus| && v.cpus[c].proc == p && v.cpus[d].proc == p ==> c == d
    ensures v.procs[p].lock == -1 ==> (v.procs[p].state.Running? <==> exists c: nat :: c < |v.cpus| && v.cpus[c].proc == p)
    ensures v.procs[q].reaps <= v.procs[q].deaths <= v.procs[q].reaps + 1
  {
    ReachableOk(v);
    OneCpu(v, p);
    assert v.ProcOk(q);
    if v.wlock == -1 && v.procs[p].state.Sleeping? && v.procs[p].chan == Of(p) && v.procs[q].parent == p { NoLostExit(v, p, q); }
  }
}
