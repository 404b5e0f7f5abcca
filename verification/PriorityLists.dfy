/** The process lists by priority that kernel/proc.c adds to the scheduler's table. */
module PriorityLists {
  const NULL: int := -1

  /** lists: for each priority, the linked processes in order of arrival. */
  datatype View = View(head: seq<int>, present: seq<bool>, next: seq<int>, prio: seq<nat>, lists: seq<seq<nat>>)
  {
    ghost predicate Shape() { |present| == |head| && |lists| == |head| && |prio| == |next| }

    ghost predicate Linked(p: nat) { exists q: nat :: q < |lists| && p in lists[q] }

    /** Entry k of list q is where the links lead, and of that priority. */
    ghost predicate EntryOk(q: nat, k: nat)
      requires Shape() && q < |lists| && k < |lists[q]|
    {
      var p := lists[q][k];
      p < |next| && prio[p] == q && next[p] == if k + 1 < |lists[q]| then lists[q][k + 1] else NULL
    }

    ghost predicate HeadOk(q: nat)
      requires Shape() && q < |lists|
    {
      (present[q] <==> head[q] != NULL) && head[q] == if lists[q] == [] then NULL else lists[q][0]
    }

    /** No process is linked twice. */
    ghost predicate Once(q: nat, i: nat, r: nat, j: nat)
      requires q < |lists| && r < |lists| && i < |lists[q]| && j < |lists[r]|
    {
      lists[q][i] == lists[r][j] ==> q == r && i == j
    }

    ghost predicate Ok() {
      && Shape()
      && (forall q: nat {:trigger HeadOk(q)} :: q < |lists| ==> HeadOk(q))
      && (forall q: nat, k: nat {:trigger EntryOk(q, k)} :: q < |lists| && k < |lists[q]| ==> EntryOk(q, k))
      && (forall q: nat, i: nat, r: nat, j: nat {:trigger Once(q, i, r, j)} ::
            q < |lists| && r < |lists| && i < |lists[q]| && j < |lists[r]| ==> Once(q, i, r, j))
      && (forall p: nat {:trigger next[p]} :: p < |next| && next[p] != NULL ==> Linked(p))
    }
  }

  type Sound = v: View | v.Ok() ghost witness View([], [], [], [], [])

  // ----- where the links lead -----

  /** n steps along the links. */
  ghost function Walk(next: seq<int>, a: int, n: nat): (r: int)
    decreases n
  {
    if n == 0 then a else
      var b := Walk(next, a, n - 1);
      if 0 <= b < |next| then next[b] else NULL
  }

  /** The links from the head visit the list in order, and then stop. */
  lemma {:induction false} WalkIs(v: View, q: nat, n: nat)
    requires v.Ok() && q < |v.lists|
    ensures Walk(v.next, v.head[q], n) == if n < |v.lists[q]| then v.lists[q][n] else NULL
    decreases n
  {
    assert v.HeadOk(q);
    if n > 0 {
      WalkIs(v, q, n - 1);
      if n - 1 < |v.lists[q]| { assert v.EntryOk(q, n - 1); }
    }
  }

  // ----- adding and freeing -----

  /** allocproc: the process gets its priority and goes to the end of that list. */
  ghost function Added(v: View, p: nat, q: nat): (w: View)
    requires v.Shape() && p < |v.next| && q < |v.lists| && (v.lists[q] != [] ==> v.lists[q][|v.lists[q]| - 1] < |v.next|)
  {
    var l := v.lists[q];
    View(if v.head[q] == NULL then v.head[q := p] else v.head, v.present[q := true],
         if v.head[q] == NULL || l == [] then v.next else v.next[l[|l| - 1] := p],
         v.prio[p := q], v.lists[q := l + [p]])
  }

  /** free_process_priority: entry k of list q is taken out. */
  ghost function Removed(v: View, q: nat, k: nat): (w: View)
    requires v.Shape() && q < |v.lists| && k < |v.lists[q]| && (k > 0 ==> v.lists[q][k - 1] < |v.next|) && v.lists[q][k] < |v.next|
  {
    var l := v.lists[q];
    var p := l[k];
    View(if k == 0 then v.head[q := v.next[p]] else v.head, if |l| == 1 then v.present[q := false] else v.present,
         (if k > 0 then v.next[l[k - 1] := v.next[p]] else v.next)[p := NULL],
         v.prio, v.lists[q := l[..k] + l[k + 1..]])
  }

  lemma AddedOk(v: View, p: nat, q: nat)
    requires v.Ok() && p < |v.next| && q < |v.lists| && !v.Linked(p)
    ensures v.lists[q] != [] ==> v.lists[q][|v.lists[q]| - 1] < |v.next|
    ensures Added(v, p, q).Ok()
  {
    var l := v.lists[q];
    if l != [] { assert v.EntryOk(q, |l| - 1); }
    var w := Added(v, p, q);
    assert v.HeadOk(q) && v.next[p] == NULL;
    forall r: nat | r < |w.lists| ensures w.HeadOk(r) { assert v.HeadOk(r); }
    forall r: nat, k: nat | r < |w.lists| && k < |w.lists[r]| ensures w.EntryOk(r, k) {
      if r != q || k < |l| {
        assert v.EntryOk(r, k) && v.lists[r][k] != p;
        if l != [] { assert v.Once(r, k, q, |l| - 1); }
      }
    }
    forall r: nat, i: nat, t: nat, j: nat | r < |w.lists| && t < |w.lists| && i < |w.lists[r]| && j < |w.lists[t]|
      ensures w.Once(r, i, t, j)
    {
      if (r != q || i < |l|) && (t != q || j < |l|) { assert v.Once(r, i, t, j); }
    }
    forall x: nat | x < |w.next| && w.next[x] != NULL ensures w.Linked(x) {
      if v.next[x] != NULL {
        var r: nat :| r < |v.lists| && x in v.lists[r];
        assert x in w.lists[r];
      } else {
        assert x in w.lists[q];
      }
    }
  }

  lemma RemovedEntries(v: View, q: nat, k: nat, r: nat, i: nat)
    requires v.Ok() && q < |v.lists| && k < |v.lists[q]|
    ensures v.lists[q][k] < |v.next| && (k > 0 ==> v.lists[q][k - 1] < |v.next|)
    ensures var w := Removed(v, q, k);
            r < |w.lists| && i < |w.lists[r]| ==> w.EntryOk(r, i)
  {
    assert v.EntryOk(q, k);
    if k > 0 { assert v.EntryOk(q, k - 1); }
    var l, w := v.lists[q], Removed(v, q, k);
    if r < |w.lists| && i < |w.lists[r]| {
      var j := if r == q && i >= k then i + 1 else i;
      assert v.EntryOk(r, j) && w.lists[r][i] == v.lists[r][j];
      assert v.Once(r, j, q, k);
      if k > 0 { assert v.Once(r, j, q, k - 1); }
    }
  }

  lemma RemovedOk(v: View, q: nat, k: nat)
    requires v.Ok() && q < |v.lists| && k < |v.lists[q]|
    ensures v.lists[q][k] < |v.next| && (k > 0 ==> v.lists[q][k - 1] < |v.next|)
    ensures Removed(v, q, k).Ok() && !Removed(v, q, k).Linked(v.lists[q][k])
  {
    RemovedEntries(v, q, k, 0, 0);
    var l, w := v.lists[q], Removed(v, q, k);
    assert v.EntryOk(q, k) && v.HeadOk(q);
    forall r: nat | r < |w.lists| ensures w.HeadOk(r) { assert v.HeadOk(r); }
    forall r: nat, i: nat | r < |w.lists| && i < |w.lists[r]| ensures w.EntryOk(r, i) { RemovedEntries(v, q, k, r, i); }
    forall r: nat, i: nat, t: nat, j: nat | r < |w.lists| && t < |w.lists| && i < |w.lists[r]| && j < |w.lists[t]|
      ensures w.Once(r, i, t, j)
    {
      assert v.Once(r, if r == q && i >= k then i + 1 else i, t, if t == q && j >= k then j + 1 else j);
    }
    RemovedLinked(v, q, k);
  }

  /** The process taken out is in no list; every other linked process still is. */
  lemma RemovedLinked(v: View, q: nat, k: nat)
    requires v.Ok() && q < |v.lists| && k < |v.lists[q]| && v.lists[q][k] < |v.next| && (k > 0 ==> v.lists[q][k - 1] < |v.next|)
    ensures var w := Removed(v, q, k);
            !w.Linked(v.lists[q][k]) && forall x: nat {:trigger w.next[x]} :: x < |w.next| && w.next[x] != NULL ==> w.Linked(x)
  {
    var l, w := v.lists[q], Removed(v, q, k);
    var p := l[k];
    forall r: nat | r < |w.lists| ensures p !in w.lists[r] {
      forall i: nat | i < |w.lists[r]| ensures w.lists[r][i] != p {
        assert v.Once(r, if r == q && i >= k then i + 1 else i, q, k);
      }
    }
    forall x: nat | x < |w.next| && w.next[x] != NULL ensures w.Linked(x) {
      assert v.EntryOk(q, k);
      if k > 0 { assert v.EntryOk(q, k - 1); }
      assert v.Linked(x);
      var r: nat :| r < |v.lists| && x in v.lists[r];
      var j: nat :| j < |v.lists[r]| && v.lists[r][j] == x;
      var i := if r == q && j > k then j - 1 else j;
      assert r != q || j != k;
      assert w.lists[r][i] == x;
    }
  }

  /** Freeing the process just added gives back the lists and links there were. */
  lemma AddThenFree(v: View, p: nat, q: nat)
    requires v.Ok() && p < |v.next| && q < |v.lists| && !v.Linked(p)
    ensures v.lists[q] != [] ==> v.lists[q][|v.lists[q]| - 1] < |v.next|
    ensures var w := Added(v, p, q);
            var k := |v.lists[q]|;
            && w.lists[q][k] == p
            && Removed(w, q, k) == v.(prio := v.prio[p := q])
  {
    AddedOk(v, p, q);
    var l := v.lists[q];
    var w := Added(v, p, q);
    assert v.HeadOk(q) && v.next[p] == NULL;
    if l != [] { assert v.EntryOk(q, |l| - 1); }
    var u := Removed(w, q, |l|);
    assert u.lists[q] == l && u.lists == v.lists;
    assert u.next == v.next && u.head == v.head && u.present == v.present;
  }

  // ----- adding a process that is still linked -----

  /** x is on the way from the head of list q. */
  ghost predicate Reaches(v: View, q: nat, x: nat)
    requires q < |v.head|
  {
    exists n: nat :: Walk(v.next, v.head[q], n) == x
  }

  lemma ReachesIs(v: View, q: nat, x: nat)
    requires v.Ok() && q < |v.lists|
    ensures Reaches(v, q, x) <==> x in v.lists[q]
  {
    if Reaches(v, q, x) {
      var n: nat :| Walk(v.next, v.head[q], n) == x;
      WalkIs(v, q, n);
    }
    if x in v.lists[q] {
      var k: nat :| k < |v.lists[q]| && v.lists[q][k] == x;
      WalkIs(v, q, k);
    }
  }

  /** Links that agree on the first n nodes lead the same way. */
  lemma {:induction false} SameWalk(v: View, next: seq<int>, q: nat, n: nat, last: int)
    requires v.Ok() && q < |v.lists| && n < |v.lists[q]| && |next| == |v.next|
    requires forall x {:trigger next[x]} :: 0 <= x < |next| && x != last ==> next[x] == v.next[x]
    requires forall k :: 0 <= k < n ==> v.lists[q][k] != last
    ensures Walk(next, v.head[q], n) == v.lists[q][n]
    decreases n
  {
    assert v.HeadOk(q);
    if n > 0 {
      SameWalk(v, next, q, n - 1, last);
      assert v.EntryOk(q, n - 1);
    }
  }

  /** The lists can be told apart after adding p exactly when p was not linked.  fork's exit for a
      failed copy frees its child without unlinking it, and the slot is added again by the next
      allocproc that takes it: its list then runs in a circle, or into another list. */
  lemma AddKeepsListsIff(v: View, p: nat, q: nat)
    requires v.Ok() && p < |v.next| && q < |v.lists| && (v.lists[q] != [] ==> v.lists[q][|v.lists[q]| - 1] < |v.next|)
    ensures (exists lists :: Added(v, p, q).(lists := lists).Ok()) <==> !v.Linked(p)
  {
    var w := Added(v, p, q);
    if !v.Linked(p) {
      AddedOk(v, p, q);
      assert w.(lists := w.lists).Ok();
    } else {
      var r: nat :| r < |v.lists| && p in v.lists[r];
      forall lists ensures !w.(lists := lists).Ok() {
        if r == q { Circle(v, p, q, lists); } else { Crossing(v, p, q, r, lists); }
      }
    }
  }

  /** The smallest run: the first process and its child are added, fork gives the child up, and
      its slot is added once more.  The child then leads to itself. */
  lemma AddedTwice()
    ensures var v := Added(Added(View([NULL], [false], [NULL, NULL], [0, 0], [[]]), 0, 0), 1, 0);
            v.Ok() && v.lists[0] == [0, 1] && v.next == [1, NULL] && Added(v, 1, 0).next == [1, 1]
  {
    var u := View([NULL], [false], [NULL, NULL], [0, 0], [[]]);
    assert u.Ok();
    AddedOk(u, 0, 0);
    var a := Added(u, 0, 0);
    assert a.lists[0] == [0];
    AddedOk(a, 1, 0);
    assert Added(a, 1, 0).lists[0] == [0, 1];
  }

  /** Same list: the last process now leads back to p, and no walk from the head ends. */
  lemma Circle(v: View, p: nat, q: nat, lists: seq<seq<nat>>)
    requires v.Ok() && p < |v.next| && q < |v.lists| && p in v.lists[q] && v.lists[q][|v.lists[q]| - 1] < |v.next|
    ensures !Added(v, p, q).(lists := lists).Ok()
  {
    var w := Added(v, p, q).(lists := lists);
    forall n: nat ensures Walk(w.next, w.head[q], n) in v.lists[q] { NeverNull(v, p, q, n); }
    if w.Ok() { WalkIs(w, q, |lists[q]|); }
  }

  lemma {:induction false} NeverNull(v: View, p: nat, q: nat, n: nat)
    requires v.Ok() && p < |v.next| && q < |v.lists| && p in v.lists[q] && v.lists[q][|v.lists[q]| - 1] < |v.next|
    ensures Walk(Added(v, p, q).next, Added(v, p, q).head[q], n) in v.lists[q]
    decreases n
  {
    var l, w := v.lists[q], Added(v, p, q);
    assert v.HeadOk(q);
    if n > 0 {
      NeverNull(v, p, q, n - 1);
      var a := Walk(w.next, w.head[q], n - 1);
      var k: nat :| k < |l| && l[k] == a;
      assert v.EntryOk(q, k);
    }
  }

  /** Another list: p is now on the way from two heads. */
  lemma Crossing(v: View, p: nat, q: nat, r: nat, lists: seq<seq<nat>>)
    requires v.Ok() && p < |v.next| && q < |v.lists| && (v.lists[q] != [] ==> v.lists[q][|v.lists[q]| - 1] < |v.next|)
    requires r < |v.lists| && r != q && p in v.lists[r]
    ensures !Added(v, p, q).(lists := lists).Ok()
  {
    var w := Added(v, p, q).(lists := lists);
    FromOld(v, p, q, r);
    FromNew(v, p, q);
    if w.Ok() {
      ReachesIs(w, q, p);
      ReachesIs(w, r, p);
      Apart(w, q, r, p);
    }
  }

  lemma Apart(v: View, q: nat, r: nat, p: nat)
    requires v.Ok() && q < |v.lists| && r < |v.lists| && q != r
    ensures !(p in v.lists[q] && p in v.lists[r])
  {
    forall i: nat, j: nat | i < |v.lists[q]| && j < |v.lists[r]| ensures v.lists[q][i] != p || v.lists[r][j] != p {
      assert v.Once(q, i, r, j);
    }
  }

  lemma FromOld(v: View, p: nat, q: nat, r: nat)
    requires v.Ok() && p < |v.next| && q < |v.lists| && (v.lists[q] != [] ==> v.lists[q][|v.lists[q]| - 1] < |v.next|)
    requires r < |v.lists| && r != q && p in v.lists[r]
    ensures Reaches(Added(v, p, q), r, p)
  {
    var l, w := v.lists[q], Added(v, p, q);
    var k: nat :| k < |v.lists[r]| && v.lists[r][k] == p;
    var last := if l == [] then NULL else l[|l| - 1];
    if l != [] {
      forall i | 0 <= i < k ensures v.lists[r][i] != last { assert v.Once(r, i, q, |l| - 1); }
    } else {
      forall i | 0 <= i < k ensures v.lists[r][i] != last { assert v.EntryOk(r, i); }
    }
    SameWalk(v, w.next, r, k, last);
    assert Walk(w.next, w.head[r], k) == p;
  }

  lemma FromNew(v: View, p: nat, q: nat)
    requires v.Ok() && p < |v.next| && q < |v.lists| && (v.lists[q] != [] ==> v.lists[q][|v.lists[q]| - 1] < |v.next|)
    ensures Reaches(Added(v, p, q), q, p)
  {
    var l, w := v.lists[q], Added(v, p, q);
    assert v.HeadOk(q);
    if l == [] {
      assert Walk(w.next, w.head[q], 0) == p;
    } else {
      var n := |l| - 1;
      forall i | 0 <= i < n ensures l[i] != l[n] { assert v.Once(q, i, q, n); }
      SameWalk(v, w.next, q, n, l[n]);
      assert Walk(w.next, w.head[q], n + 1) == p;
    }
  }

  // ----- the code -----

  class PriorityControl {
    const head: array<int>
    const present: array<bool>
    const next: array<int>       // p->next_p_priority
    const prio: array<nat>       // p->priority
    ghost var view: Sound

    ghost predicate Valid()
      reads this, head, present, next, prio
    {
      && head != next && view.head == head[..] && view.present == present[..] && view.next == next[..] && view.prio == prio[..]
    }

    /** init_priority_control. */
    constructor (nproc: nat, maxPriority: nat)
      ensures Valid() && fresh(head) && fresh(present) && fresh(next) && fresh(prio)
      ensures |view.lists| == maxPriority && |view.next| == nproc && forall q :: 0 <= q < maxPriority ==> view.lists[q] == []
    {
      head := new int[maxPriority](_ => NULL);
      present := new bool[maxPriority](_ => false);
      next := new int[nproc](_ => NULL);
      prio := new nat[nproc](_ => 0);
      view := View([], [], [], [], []);
      new;
      view := View(head[..], present[..], next[..], prio[..], seq(maxPriority, _ => []));
    }

    /** allocproc's use of add_process_priority: p, in no list, goes to the end of list q. */
    method Add(p: nat, q: nat)
      requires Valid() && p < next.Length && q < head.Length && !view.Linked(p)
      modifies `view, head, present, next, prio
      ensures Valid() && view.lists == old(view).lists[q := old(view).lists[q] + [p]]
      ensures view.prio == old(view).prio[p := q]
    {
      ghost var v: Sound := view;
      AddedOk(v, p, q);
      assert v.HeadOk(q);
      prio[p] := q;
      present[q] := true;
      if head[q] == NULL {
        head[q] := p;
      } else {
        var last := Last(q);
        next[last] := p;
      }
      view := Added(v, p, q);
    }

    /** The scan for the end of a list. */
    method Last(q: nat) returns (aux: nat)
      requires view.next == next[..] && view.head == head[..] && q < head.Length && view.lists[q] != []
      ensures aux == view.lists[q][|view.lists[q]| - 1] && aux < next.Length
    {
      ghost var l, k := view.lists[q], 0;
      assert view.HeadOk(q) && view.EntryOk(q, 0);
      aux := head[q];
      while next[aux] != NULL
        invariant 0 <= k < |l| && aux == l[k] && view.EntryOk(q, k)
        decreases |l| - k
      {
        aux := next[aux];
        k := k + 1;
        assert view.EntryOk(q, k);
      }
    }

    /** free_process_priority: p, linked under its priority, leaves its list; the rest keep their order. */
    method Free(p: nat) returns (ghost k: nat)
      requires Valid() && p < next.Length && prio[p] < head.Length && p in view.lists[prio[p]]
      modifies `view, head, present, next
      ensures var q, l := old(prio[p]), old(view).lists[old(prio[p])];
              Valid() && k < |l| && l[k] == p && view.lists == old(view).lists[q := l[..k] + l[k + 1..]]
      ensures !view.Linked(p) && view.prio == old(view).prio
    {
      ghost var v: Sound := view;
      var q := prio[p];
      ghost var l := v.lists[q];
      k :| 0 <= k < |l| && l[k] == p;
      RemovedOk(v, q, k);
      assert v.HeadOk(q) && v.EntryOk(q, k) && v.Once(q, 0, q, k);
      if head[q] == p {
        if next[p] == NULL {
          present[q] := false;
          head[q] := NULL;
        } else {
          head[q] := next[p];
          next[p] := NULL;
        }
      } else {
        var aux := Before(p, q, k);
        next[aux] := next[p];
        next[p] := NULL;
      }
      view := Removed(v, q, k);
    }

    /** The scan for the process before p. */
    method Before(p: nat, q: nat, ghost k: nat) returns (aux: nat)
      requires view.next == next[..] && view.head == head[..] && q < head.Length && 0 < k < |view.lists[q]| && view.lists[q][k] == p
      ensures aux == view.lists[q][k - 1] && aux < next.Length
    {
      ghost var l, i := view.lists[q], 0;
      assert view.HeadOk(q) && view.EntryOk(q, 0) && view.Once(q, 1, q, k);
      aux := head[q];
      while next[aux] != p
        invariant 0 <= i < k && aux == l[i] && view.EntryOk(q, i) && view.Once(q, i + 1, q, k)
        decreases k - i
      {
        aux := next[aux];
        i := i + 1;
        assert view.EntryOk(q, i) && view.Once(q, i + 1, q, k);
      }
    }
  }
}
