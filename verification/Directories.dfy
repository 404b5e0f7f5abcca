/** Directory entries, link counts and the directory tree of kernel/fs.c and kernel/sysfile.c.

    Two ghost maps make the tree explicit: up says which entry names a directory, depth how far it
    lies below the root.  pend counts the sys_link calls between their nlink++ and their dirlink. */
module Directories {
  const DIRSIZ: nat := 14
  const ROOT: nat := 1

  /** A dirent; inum 0 marks a free slot. */
  datatype Entry = Entry(inum: nat, name: string)

  datatype Kind = Free | File | Device | Directory

  datatype Inode = Inode(kind: Kind, nlink: int, ents: seq<Entry>)

  /** The part of a name that strncpy stores and strncmp compares. */
  function Clip(s: string): (r: string) { if |s| <= DIRSIZ then s else s[..DIRSIZ] }

  predicate Matches(e: Entry, name: string) { e.inum != 0 && Clip(e.name) == Clip(name) }

  /** dirlookup's slot for a name, or the number of slots. */
  function Find(ents: seq<Entry>, name: string): (k: nat)
    ensures k <= |ents| && (k < |ents| ==> Matches(ents[k], name))
    ensures forall j :: 0 <= j < k ==> !Matches(ents[j], name)
  {
    if |ents| == 0 || Matches(ents[0], name) then 0 else 1 + Find(ents[1..], name)
  }

  /** The first free slot, or the number of slots. */
  function Gap(ents: seq<Entry>): (k: nat)
    ensures k <= |ents| && (k < |ents| ==> ents[k].inum == 0)
    ensures forall j :: 0 <= j < k ==> ents[j].inum != 0
  {
    if |ents| == 0 || ents[0].inum == 0 then 0 else 1 + Gap(ents[1..])
  }

  function Put(ents: seq<Entry>, k: nat, e: Entry): (r: seq<Entry>)
    requires k <= |ents|
  {
    if k < |ents| then ents[k := e] else ents + [e]
  }

  // ----- the state and its invariant -----

  datatype View = View(nodes: seq<Inode>, refs: seq<nat>, pend: seq<nat>, up: seq<(nat, nat)>, depth: seq<nat>)
  {
    ghost predicate Shape() {
      && ROOT < |nodes| && |refs| == |nodes| && |pend| == |nodes| && |up| == |nodes| && |depth| == |nodes|
    }

    /** A directory that still has links. */
    predicate Live(d: nat) { d < |nodes| && nodes[d].kind == Directory && nodes[d].nlink > 0 }

    /** Slot k of live directory d names i, by a name other than ".". */
    predicate Names(d: nat, k: nat, i: nat) {
      i != 0 && Live(d) && k < |nodes[d].ents| && nodes[d].ents[k].inum == i && nodes[d].ents[k].name != "."
    }

    ghost function NamesOf(i: nat): (s: set<(nat, nat)>) {
      set d: nat, k: nat {:trigger Names(d, k, i)} | d < |nodes| && k < |nodes[d].ents| && Names(d, k, i) :: (d, k)
    }

    ghost predicate CountOk(i: nat)
      requires Shape() && i < |nodes|
    {
      && nodes[i].nlink == |NamesOf(i)| + pend[i]
      && (nodes[i].kind == Directory ==> pend[i] == 0)
      && (nodes[i].kind == Free ==> nodes[i] == Inode(Free, 0, []) && refs[i] == 0)
    }

    /** A live directory starts with "." and ".."; the entry up[d] of its parent names it. */
    ghost predicate UpOk(d: nat)
      requires Shape() && Live(d)
    {
      var ents := nodes[d].ents;
      && |ents| >= 2 && ents[0] == Entry(d, ".") && ents[1].name == ".."
      && if d == ROOT then ents[1].inum == ROOT else
           var p, k := up[d].0, up[d].1;
           && Live(p) && 2 <= k < |nodes[p].ents| && nodes[p].ents[k].inum == d
           && ents[1].inum == p && depth[d] == depth[p] + 1
    }

    /** Every further entry of a live directory names an inode in use, and a directory only from up. */
    ghost predicate EntryOk(d: nat, k: nat)
      requires Shape() && Live(d) && 2 <= k < |nodes[d].ents|
    {
      var e := nodes[d].ents[k];
      e.inum != 0 ==>
        && e.inum < |nodes| && nodes[e.inum].kind != Free && |e.name| <= DIRSIZ && e.name != "." && e.name != ".."
        && (nodes[e.inum].kind == Directory ==> e.inum != ROOT && Live(e.inum) && up[e.inum] == (d, k))
    }

    ghost predicate Distinct(d: nat, j: nat, k: nat)
      requires Live(d) && j < k < |nodes[d].ents|
    {
      var ents := nodes[d].ents;
      ents[j].inum != 0 && ents[k].inum != 0 ==> Clip(ents[j].name) != Clip(ents[k].name)
    }

    /** A directory without links is empty. */
    ghost predicate DeadOk(d: nat)
      requires d < |nodes|
    {
      nodes[d].kind == Directory && nodes[d].nlink <= 0 ==>
        forall k {:trigger nodes[d].ents[k]} :: 0 <= k < |nodes[d].ents| ==>
          nodes[d].ents[k].inum == 0 || nodes[d].ents[k].name == "." || nodes[d].ents[k].name == ".."
    }

    ghost predicate Ok() {
      && Shape() && nodes[0].kind == Free && Live(ROOT)
      && (forall i: nat {:trigger CountOk(i)} :: i < |nodes| ==> CountOk(i))
      && (forall d: nat {:trigger UpOk(d)} :: Live(d) ==> UpOk(d))
      && (forall d: nat, k: nat {:trigger EntryOk(d, k)} :: Live(d) && 2 <= k < |nodes[d].ents| ==> EntryOk(d, k))
      && (forall d: nat, j: nat, k: nat {:trigger Distinct(d, j, k)} :: Live(d) && j < k < |nodes[d].ents| ==> Distinct(d, j, k))
      && (forall d: nat {:trigger DeadOk(d)} :: d < |nodes| ==> DeadOk(d))
    }
  }

  type Sound = v: View | v.Ok() ghost witness Fresh(2)

  /** What mkfs builds: a root directory that is its own parent. */
  ghost function Fresh(n: nat): (v: View)
    requires ROOT < n
    ensures v.Ok()
  {
    var root := Inode(Directory, 1, [Entry(ROOT, "."), Entry(ROOT, "..")]);
    var v := View(seq(n, _ => Inode(Free, 0, []))[ROOT := root], seq(n, _ => 0), seq(n, _ => 0), seq(n, _ => (0, 0)), seq(n, _ => 0));
    FreshOk(n, v);
    v
  }

  lemma FreshOk(n: nat, v: View)
    requires ROOT < n
    requires v == View(seq(n, _ => Inode(Free, 0, []))[ROOT := Inode(Directory, 1, [Entry(ROOT, "."), Entry(ROOT, "..")])],
                       seq(n, _ => 0), seq(n, _ => 0), seq(n, _ => (0, 0)), seq(n, _ => 0))
    ensures v.Ok()
  {
    forall i: nat | i < n ensures v.CountOk(i) {
      if i == ROOT {
        assert v.Names(ROOT, 1, ROOT);
        assert v.NamesOf(ROOT) == {(ROOT, 1)};
      } else {
        assert v.NamesOf(i) == {};
      }
    }
  }

  // ----- what the invariant means -----

  /** The parent of a live directory, its "..". */
  function Parent(v: View, d: nat): (p: nat)
    requires v.Live(d) && |v.nodes[d].ents| >= 2
  {
    v.nodes[d].ents[1].inum
  }

  /** Following ".." n times. */
  ghost function Ancestor(v: View, d: nat, n: nat): (a: nat)
    requires v.Ok() && v.Live(d)
    ensures v.Live(a)
    decreases n
  {
    assert v.UpOk(d);
    if n == 0 then d else Ancestor(v, Parent(v, d), n - 1)
  }

  /** Directories form a tree: from every live one, ".." leads to the root, never back to itself. */
  lemma {:induction false} Tree(v: View, d: nat)
    requires v.Ok() && v.Live(d)
    ensures exists n: nat :: Ancestor(v, d, n) == ROOT
    decreases v.depth[d]
  {
    assert v.UpOk(d);
    if d == ROOT {
      assert Ancestor(v, d, 0) == ROOT;
    } else {
      Tree(v, Parent(v, d));
      var n: nat :| Ancestor(v, Parent(v, d), n) == ROOT;
      assert Ancestor(v, d, n + 1) == ROOT;
    }
  }

  lemma {:induction false} Acyclic(v: View, d: nat, n: nat)
    requires v.Ok() && v.Live(d) && n > 0
    ensures Ancestor(v, d, n) == d ==> d == ROOT
    ensures Ancestor(v, d, n) != ROOT ==> v.depth[Ancestor(v, d, n)] + n == v.depth[d]
    decreases n
  {
    assert v.UpOk(d);
    if n > 1 && d != ROOT { Acyclic(v, Parent(v, d), n - 1); }
    if d == ROOT { RootStays(v, n); }
  }

  lemma {:induction false} RootStays(v: View, n: nat)
    requires v.Ok()
    ensures Ancestor(v, ROOT, n) == ROOT
    decreases n
  {
    assert v.UpOk(ROOT);
    if n > 0 { RootStays(v, n - 1); }
  }

  /** Every live directory but the root has exactly one proper name. */
  lemma OneName(v: View, d: nat)
    requires v.Ok() && v.Live(d) && d != ROOT
    ensures v.Names(v.up[d].0, v.up[d].1, d)
    ensures forall p: nat, k: nat :: v.Names(p, k, d) && k >= 2 ==> (p, k) == v.up[d]
  {
    assert v.UpOk(d);
    var p, k := v.up[d].0, v.up[d].1;
    assert v.EntryOk(p, k);
    forall p: nat, k: nat | v.Names(p, k, d) && k >= 2 ensures (p, k) == v.up[d] {
      assert v.EntryOk(p, k) && v.CountOk(0);
    }
  }

  /** The slot found for a name is the only one with that name. */
  lemma UniqueName(v: View, d: nat, name: string, k: nat)
    requires v.Ok() && v.Live(d) && k < |v.nodes[d].ents|
    ensures Matches(v.nodes[d].ents[k], name) <==> k == Find(v.nodes[d].ents, name)
  {
    var f := Find(v.nodes[d].ents, name);
    if f < k { assert v.Distinct(d, f, k); }
  }

  /** An inode that iput may free, without links, has no name in any live directory. */
  lemma FreedUnnamed(v: View, i: nat)
    requires v.Ok() && i < |v.nodes| && v.nodes[i].nlink == 0
    ensures forall d: nat, k: nat :: !v.Names(d, k, i)
  {
    assert v.CountOk(i);
    forall d: nat, k: nat ensures !v.Names(d, k, i) {
      assert v.Names(d, k, i) ==> (d, k) in v.NamesOf(i);
    }
  }

  // ----- references -----

  ghost function Acquired(v: View, i: nat): (w: View)
    requires v.Shape() && i < |v.nodes|
  {
    v.(refs := v.refs[i := v.refs[i] + 1])
  }

  /** iput: the last reference to an inode without links frees it. */
  ghost function Released(v: View, i: nat): (w: View)
    requires v.Shape() && i < |v.nodes| && v.refs[i] > 0
  {
    var w := v.(refs := v.refs[i := v.refs[i] - 1]);
    if v.refs[i] == 1 && v.nodes[i].nlink == 0 then w.(nodes := v.nodes[i := Inode(Free, 0, [])]) else w
  }

  /** Only directory d may differ between v and w in what its entries count for. */
  ghost predicate SameBut(v: View, w: View, d: nat) {
    && |w.nodes| == |v.nodes|
    && forall c: nat {:trigger v.Live(c)} {:trigger w.Live(c)} :: c != d ==> w.Live(c) == v.Live(c) && (v.Live(c) ==> w.nodes[c].ents == v.nodes[c].ents)
  }

  lemma NamesSame(v: View, w: View, i: nat)
    requires SameBut(v, w, |v.nodes|)
    ensures w.NamesOf(i) == v.NamesOf(i)
  {
    forall d: nat, k: nat ensures w.Names(d, k, i) == v.Names(d, k, i) {
      assert w.Live(d) == v.Live(d);
    }
  }

  /** A change that leaves directories alone. */
  lemma FrameOk(v: View, w: View)
    requires v.Ok() && w.Shape() && SameBut(v, w, |v.nodes|) && w.up == v.up && w.depth == v.depth
    requires w.nodes[0].kind == Free
    requires forall i: nat {:trigger w.nodes[i]} :: i < |v.nodes| ==>
               ((w.nodes[i].kind == v.nodes[i].kind && w.nodes[i].ents == v.nodes[i].ents) || (v.nodes[i].nlink == 0 && w.nodes[i].kind == Free))
    requires forall i: nat {:trigger w.CountOk(i)} :: i < |v.nodes| && w.NamesOf(i) == v.NamesOf(i) ==> w.CountOk(i)
    ensures w.Ok()
  {
    forall i: nat | i < |v.nodes| ensures w.CountOk(i) {
      NamesSame(v, w, i);
    }
    forall d: nat | w.Live(d) ensures w.UpOk(d) {
      assert v.UpOk(d) && (d != ROOT ==> v.Live(v.up[d].0));
    }
    forall d: nat, k: nat | w.Live(d) && 2 <= k < |w.nodes[d].ents| ensures w.EntryOk(d, k) {
      assert v.Live(d) && v.EntryOk(d, k);
      if v.nodes[d].ents[k].inum != 0 { LookedUp(v, d, k); }
    }
    forall d: nat, j: nat, k: nat | w.Live(d) && j < k < |w.nodes[d].ents| ensures w.Distinct(d, j, k) {
      assert v.Live(d) && v.Distinct(d, j, k);
    }
    forall d: nat | d < |w.nodes| ensures w.DeadOk(d) {
      assert v.DeadOk(d) && w.Live(d) == v.Live(d);
    }
  }

  lemma AcquiredOk(v: View, i: nat)
    requires v.Ok() && i < |v.nodes| && v.nodes[i].kind != Free
    ensures Acquired(v, i).Ok()
  {
    var w := Acquired(v, i);
    forall j: nat | j < |v.nodes| && w.NamesOf(j) == v.NamesOf(j) ensures w.CountOk(j) { assert v.CountOk(j); }
    FrameOk(v, w);
  }

  lemma ReleasedOk(v: View, i: nat)
    requires v.Ok() && i < |v.nodes| && v.refs[i] > 0
    ensures Released(v, i).Ok()
  {
    var w := Released(v, i);
    assert v.CountOk(i);
    forall j: nat | j < |v.nodes| && w.NamesOf(j) == v.NamesOf(j) ensures w.CountOk(j) { assert v.CountOk(j); }
    FrameOk(v, w);
  }

  /** iget and iput of a named inode cancel. */
  lemma LookedUp(v: View, d: nat, k: nat)
    requires v.Ok() && v.Live(d) && 2 <= k < |v.nodes[d].ents| && v.nodes[d].ents[k].inum != 0
    ensures var i := v.nodes[d].ents[k].inum;
            i < |v.nodes| && v.nodes[i].nlink > 0 && Released(Acquired(v, i), i) == v
  {
    assert v.EntryOk(d, k);
    var i := v.nodes[d].ents[k].inum;
    assert v.CountOk(i) && v.Names(d, k, i) && (d, k) in v.NamesOf(i);
  }

  // ----- sys_link -----

  /** nlink++ before the new name exists. */
  ghost function LinkBegun(v: View, i: nat): (w: View)
    requires v.Shape() && i < |v.nodes|
  {
    v.(nodes := v.nodes[i := v.nodes[i].(nlink := v.nodes[i].nlink + 1)], pend := v.pend[i := v.pend[i] + 1])
  }

  lemma LinkBegunOk(v: View, i: nat)
    requires v.Ok() && i < |v.nodes| && v.nodes[i].kind != Free && v.nodes[i].kind != Directory
    ensures LinkBegun(v, i).Ok()
  {
    var w := LinkBegun(v, i);
    assert v.CountOk(i);
    forall j: nat | j < |v.nodes| && w.NamesOf(j) == v.NamesOf(j) ensures w.CountOk(j) { assert v.CountOk(j); }
    FrameOk(v, w);
  }

  /** The bad exit: nlink-- again. */
  ghost function LinkUndone(v: View, i: nat): (w: View)
    requires v.Shape() && i < |v.nodes| && v.pend[i] > 0
  {
    v.(nodes := v.nodes[i := v.nodes[i].(nlink := v.nodes[i].nlink - 1)], pend := v.pend[i := v.pend[i] - 1])
  }

  lemma LinkUndoneOk(v: View, i: nat)
    requires v.Ok() && i < |v.nodes| && v.pend[i] > 0
    ensures LinkUndone(v, i).Ok()
  {
    var w := LinkUndone(v, i);
    assert v.CountOk(i);
    forall j: nat | j < |v.nodes| && w.NamesOf(j) == v.NamesOf(j) ensures w.CountOk(j) { assert v.CountOk(j); }
    FrameOk(v, w);
  }

  /** dirlink's write of a new entry. */
  ghost function WithEntry(v: View, d: nat, name: string, i: nat): (w: View)
    requires d < |v.nodes|
  {
    var ents := v.nodes[d].ents;
    v.(nodes := v.nodes[d := v.nodes[d].(ents := Put(ents, Gap(ents), Entry(i, Clip(name))))])
  }

  /** The link is complete: an entry replaces the pending count. */
  ghost function Linked(v: View, d: nat, name: string, i: nat): (w: View)
    requires v.Shape() && d < |v.nodes| && i < |v.nodes| && v.pend[i] > 0
  {
    WithEntry(v, d, name, i).(pend := v.pend[i := v.pend[i] - 1])
  }

  /** A new entry adds one name, for the inode it names. */
  lemma NamesAfterPut(v: View, w: View, d: nat, k: nat, e: Entry, i: nat)
    requires v.Live(d) && w.Live(d) && SameBut(v, w, d) && k <= |v.nodes[d].ents| && e.name != "."
    requires k < |v.nodes[d].ents| ==> v.nodes[d].ents[k].inum == 0
    requires w.nodes[d].ents == Put(v.nodes[d].ents, k, e)
    ensures (d, k) !in v.NamesOf(i)
    ensures w.NamesOf(i) == v.NamesOf(i) + if i == e.inum && i != 0 then {(d, k)} else {}
  {
    forall c: nat, j: nat ensures w.Names(c, j, i) == (v.Names(c, j, i) || (i != 0 && i == e.inum && c == d && j == k)) {
      assert w.Live(c) == v.Live(c);
    }
    assert i == e.inum && i != 0 ==> w.Names(d, k, i);
  }

  /** What a new proper name must meet. */
  ghost predicate NewName(v: View, d: nat, name: string)
    requires d < |v.nodes|
  {
    Find(v.nodes[d].ents, name) == |v.nodes[d].ents|
  }

  /** A name that is not found is neither "." nor "..", and its slot comes after theirs. */
  lemma NewNameOk(v: View, d: nat, name: string)
    requires v.Ok() && v.Live(d) && NewName(v, d, name)
    ensures Clip(name) != "." && Clip(name) != ".." && Gap(v.nodes[d].ents) >= 2 && d != 0
  {
    assert v.UpOk(d);
    var ents := v.nodes[d].ents;
    assert !Matches(ents[0], name) && !Matches(ents[1], name);
  }

  lemma {:induction false} ClipTwice(s: string)
    ensures Clip(Clip(s)) == Clip(s)
  {
    assert |Clip(s)| <= DIRSIZ;
  }

  /** The directory keeps distinct names when a new one is put in its gap. */
  lemma DistinctAfterPut(v: View, w: View, d: nat, name: string, i: nat, a: nat, b: nat)
    requires v.Ok() && v.Live(d) && NewName(v, d, name) && w.Live(d)
    requires w.nodes[d].ents == Put(v.nodes[d].ents, Gap(v.nodes[d].ents), Entry(i, Clip(name)))
    requires a < b < |w.nodes[d].ents|
    ensures w.Distinct(d, a, b)
  {
    ClipTwice(name);
    var k := Gap(v.nodes[d].ents);
    if a == k {
      assert !Matches(v.nodes[d].ents[b], name);
    } else if b == k {
      assert !Matches(v.nodes[d].ents[a], name);
    } else {
      assert v.Distinct(d, a, b);
    }
  }

  /** The entries of w are sound when only directory d got a new one, for an inode in use that is
      not a directory or has its up there, and every sound directory stays as it was. */
  lemma EntriesAfterPut(v: View, w: View, d: nat, name: string, i: nat)
    requires v.Ok() && w.Shape() && v.Live(d) && NewName(v, d, name) && SameBut(v, w, d) && w.Live(d)
    requires i < |w.nodes| && i != 0 && i != ROOT && w.nodes[i].kind != Free && !w.Live(i)
    requires w.nodes[i].kind != Directory
    requires w.nodes[d].ents == Put(v.nodes[d].ents, Gap(v.nodes[d].ents), Entry(i, Clip(name)))
    requires w.up == v.up && w.depth == v.depth
    requires forall j: nat {:trigger w.nodes[j]} :: j < |v.nodes| && v.nodes[j].kind != Free ==> w.nodes[j].kind == v.nodes[j].kind
    ensures forall c: nat {:trigger w.UpOk(c)} :: w.Live(c) ==> w.UpOk(c)
    ensures forall c: nat, k: nat {:trigger w.EntryOk(c, k)} :: w.Live(c) && 2 <= k < |w.nodes[c].ents| ==> w.EntryOk(c, k)
    ensures forall c: nat, j: nat, k: nat {:trigger w.Distinct(c, j, k)} :: w.Live(c) && j < k < |w.nodes[c].ents| ==> w.Distinct(c, j, k)
  {
    NewNameOk(v, d, name);
    forall c: nat | w.Live(c) ensures w.UpOk(c) {
      assert v.Live(c) && v.UpOk(c);
      if c != ROOT { assert v.Live(v.up[c].0) && w.Live(v.up[c].0); }
    }
    forall c: nat, k: nat | w.Live(c) && 2 <= k < |w.nodes[c].ents| ensures w.EntryOk(c, k) {
      assert v.Live(c);
      if c != d || k != Gap(v.nodes[d].ents) {
        assert v.EntryOk(c, k);
        assert w.Live(w.nodes[c].ents[k].inum) == v.Live(w.nodes[c].ents[k].inum);
      }
    }
    forall c: nat, j: nat, k: nat | w.Live(c) && j < k < |w.nodes[c].ents| ensures w.Distinct(c, j, k) {
      assert v.Live(c);
      if c == d { DistinctAfterPut(v, w, d, name, i, j, k); } else { assert v.Distinct(c, j, k); }
    }
  }

  lemma LinkedOk(v: View, d: nat, name: string, i: nat)
    requires v.Ok() && v.Live(d) && i < |v.nodes| && v.pend[i] > 0 && NewName(v, d, name)
    ensures Linked(v, d, name, i).Ok()
  {
    var w := Linked(v, d, name, i);
    assert v.CountOk(i) && v.CountOk(0);
    NewNameOk(v, d, name);
    EntriesAfterPut(v, w, d, name, i);
    forall j: nat | j < |v.nodes| ensures w.CountOk(j) && w.DeadOk(j) {
      assert v.CountOk(j) && v.DeadOk(j);
      NamesAfterPut(v, w, d, Gap(v.nodes[d].ents), Entry(i, Clip(name)), j);
    }
  }

  // ----- create -----

  /** create's new inode i, in use by its caller, named in d.  A directory gets "." and "..", and
      the latter is one more link to d. */
  ghost function Made(v: View, d: nat, name: string, kind: Kind, i: nat): (w: View)
    requires v.Shape() && d < |v.nodes| && i < |v.nodes|
  {
    if kind == Directory then MadeDir(v, d, name, i) else MadeFile(v, d, name, kind, i)
  }

  ghost function MadeFile(v: View, d: nat, name: string, kind: Kind, i: nat): (w: View)
    requires v.Shape() && d < |v.nodes| && i < |v.nodes|
  {
    WithEntry(v.(nodes := v.nodes[i := Inode(kind, 1, [])], refs := v.refs[i := 1]), d, name, i)
  }

  ghost function MadeDir(v: View, d: nat, name: string, i: nat): (w: View)
    requires v.Shape() && d < |v.nodes| && i < |v.nodes|
  {
    var ents := v.nodes[d].ents;
    var parent := v.nodes[d].(nlink := v.nodes[d].nlink + 1, ents := Put(ents, Gap(ents), Entry(i, Clip(name))));
    v.(nodes := v.nodes[i := Inode(Directory, 1, [Entry(i, "."), Entry(d, "..")])][d := parent],
       refs := v.refs[i := 1], up := v.up[i := (d, Gap(ents))], depth := v.depth[i := v.depth[d] + 1])
  }

  lemma FreeUnnamed(v: View, i: nat)
    requires v.Ok() && i < |v.nodes| && v.nodes[i].kind == Free
    ensures v.NamesOf(i) == {} && v.pend[i] == 0 && v.nodes[i].nlink == 0
    ensures forall c: nat, k: nat {:trigger v.EntryOk(c, k)} :: v.Live(c) && 2 <= k < |v.nodes[c].ents| && i != 0 ==> v.nodes[c].ents[k].inum != i
  {
    assert v.CountOk(i);
    FreedUnnamed(v, i);
    forall c: nat, k: nat | v.Live(c) && 2 <= k < |v.nodes[c].ents| && i != 0 ensures v.nodes[c].ents[k].inum != i {
      assert v.EntryOk(c, k) && !v.Names(c, k, i);
    }
  }

  lemma MadeFileOk(v: View, d: nat, name: string, kind: Kind, i: nat)
    requires v.Ok() && v.Live(d) && 0 < i < |v.nodes| && v.nodes[i].kind == Free && NewName(v, d, name)
    requires kind != Free && kind != Directory
    ensures MadeFile(v, d, name, kind, i).Ok()
  {
    var w := MadeFile(v, d, name, kind, i);
    FreeUnnamed(v, i);
    NewNameOk(v, d, name);
    EntriesAfterPut(v, w, d, name, i);
    hide View.NamesOf;
    forall j: nat | j < |v.nodes| ensures w.CountOk(j) && w.DeadOk(j) { MadeFileCount(v, d, name, kind, i, j); }
  }

  lemma MadeFileCount(v: View, d: nat, name: string, kind: Kind, i: nat, j: nat)
    requires v.Ok() && v.Live(d) && 0 < i < |v.nodes| && v.nodes[i].kind == Free && NewName(v, d, name)
    requires kind != Free && kind != Directory && j < |v.nodes|
    ensures var w := MadeFile(v, d, name, kind, i); w.CountOk(j) && w.DeadOk(j)
  {
    var w := MadeFile(v, d, name, kind, i);
    FreeUnnamed(v, i);
    NewNameOk(v, d, name);
    assert v.CountOk(j) && v.DeadOk(j);
    NamesAfterPut(v, w, d, Gap(v.nodes[d].ents), Entry(i, Clip(name)), j);
  }

  /** The new directory brings two names: its own, and ".." for its parent. */
  lemma NamesAfterMkdir(v: View, d: nat, name: string, i: nat, j: nat)
    requires v.Ok() && v.Live(d) && 0 < i < |v.nodes| && v.nodes[i].kind == Free && NewName(v, d, name)
    ensures var w := MadeDir(v, d, name, i);
            var k := Gap(v.nodes[d].ents);
            && (i, 1) !in v.NamesOf(j) && (d, k) !in v.NamesOf(j)
            && w.NamesOf(j) == v.NamesOf(j) + (if j == i then {(d, k)} else {}) + if j == d then {(i, 1)} else {}
  {
    var w := MadeDir(v, d, name, i);
    var k := Gap(v.nodes[d].ents);
    NewNameOk(v, d, name);
    forall c: nat, m: nat
      ensures w.Names(c, m, j) == (v.Names(c, m, j) || (j == i && c == d && m == k) || (j == d && c == i && m == 1))
    {
      assert w.Live(c) == (v.Live(c) || c == i);
    }
    assert j == i ==> w.Names(d, k, i);
    assert j == d ==> w.Names(i, 1, d);
  }

  lemma MadeDirEntries(v: View, d: nat, name: string, i: nat)
    requires v.Ok() && v.Live(d) && 0 < i < |v.nodes| && v.nodes[i].kind == Free && NewName(v, d, name)
    ensures var w := MadeDir(v, d, name, i);
            forall c: nat, k: nat {:trigger w.EntryOk(c, k)} :: w.Live(c) && 2 <= k < |w.nodes[c].ents| ==> w.EntryOk(c, k)
    ensures var w := MadeDir(v, d, name, i);
            forall c: nat {:trigger w.UpOk(c)} :: w.Live(c) ==> w.UpOk(c)
  {
    var w := MadeDir(v, d, name, i);
    FreeUnnamed(v, i);
    NewNameOk(v, d, name);
    forall c: nat, k: nat | w.Live(c) && 2 <= k < |w.nodes[c].ents| ensures w.EntryOk(c, k) {
      if c != d || k != Gap(v.nodes[d].ents) { assert v.Live(c) && v.EntryOk(c, k); }
    }
    forall c: nat | w.Live(c) ensures w.UpOk(c) {
      if c != i {
        assert v.Live(c) && v.UpOk(c);
        if c != ROOT { assert v.EntryOk(v.up[c].0, v.up[c].1); }
      }
    }
  }

  lemma MadeDirOk(v: View, d: nat, name: string, i: nat)
    requires v.Ok() && v.Live(d) && 0 < i < |v.nodes| && v.nodes[i].kind == Free && NewName(v, d, name)
    ensures MadeDir(v, d, name, i).Ok()
  {
    var w := MadeDir(v, d, name, i);
    FreeUnnamed(v, i);
    MadeDirEntries(v, d, name, i);
    forall j: nat | j < |v.nodes| ensures w.CountOk(j) && w.DeadOk(j) {
      assert v.CountOk(j) && v.DeadOk(j);
      NamesAfterMkdir(v, d, name, i, j);
    }
    forall c: nat, j: nat, k: nat | w.Live(c) && j < k < |w.nodes[c].ents| ensures w.Distinct(c, j, k) {
      if c == d {
        DistinctAfterPut(v, w, d, name, i, j, k);
      } else if c != i {
        assert v.Live(c) && v.Distinct(c, j, k);
      }
    }
  }

  // ----- sys_unlink -----

  /** isdirempty: nothing after "." and "..". */
  predicate Empty(ents: seq<Entry>) { forall k :: 2 <= k < |ents| ==> ents[k].inum == 0 }

  /** Slot k of d is cleared and the inode loses a link; a directory's ".." no longer links d. */
  ghost function Unlinked(v: View, d: nat, k: nat): (w: View)
    requires d < |v.nodes| && k < |v.nodes[d].ents| && v.nodes[d].ents[k].inum < |v.nodes|
  {
    var i := v.nodes[d].ents[k].inum;
    var nodes := v.nodes[d := v.nodes[d].(ents := v.nodes[d].ents[k := Entry(0, "")])];
    var nodes := if nodes[i].kind == Directory then nodes[d := nodes[d].(nlink := nodes[d].nlink - 1)] else nodes;
    v.(nodes := nodes[i := nodes[i].(nlink := nodes[i].nlink - 1)])
  }

  /** What sys_unlink has checked when it clears slot k of d. */
  ghost predicate CanUnlink(v: View, d: nat, k: nat)
    requires v.Ok()
  {
    && v.Live(d) && 2 <= k < |v.nodes[d].ents| && v.nodes[d].ents[k].inum != 0
    && v.EntryOk(d, k)
    && var i := v.nodes[d].ents[k].inum; v.nodes[i].kind == Directory ==> Empty(v.nodes[i].ents)
  }

  /** An empty directory has one link: its only name, as no other directory has it as parent. */
  lemma EmptyHasOneName(v: View, d: nat, k: nat)
    requires v.Ok() && CanUnlink(v, d, k) && v.nodes[v.nodes[d].ents[k].inum].kind == Directory
    ensures var i := v.nodes[d].ents[k].inum;
            i != d && i != ROOT && v.NamesOf(i) == {(d, k)} && v.nodes[i].nlink == 1
  {
    var i := v.nodes[d].ents[k].inum;
    assert v.Names(d, k, i);
    forall c: nat, m: nat | v.Names(c, m, i) ensures (c, m) == (d, k) {
      assert v.UpOk(c);
      if m >= 2 { assert v.EntryOk(c, m); }
    }
    assert v.NamesOf(i) == {(d, k)};
    assert v.CountOk(i) && v.UpOk(i);
  }

  /** Only (d, k) stops naming i, and a directory's ".." its parent. */
  lemma NamesAfterUnlink(v: View, d: nat, k: nat, j: nat)
    requires v.Ok() && CanUnlink(v, d, k)
    ensures var w := Unlinked(v, d, k);
            var i := v.nodes[d].ents[k].inum;
            && (j == i ==> (d, k) in v.NamesOf(j))
            && (j == d && v.nodes[i].kind == Directory ==> (i, 1) in v.NamesOf(j))
            && w.NamesOf(j) == v.NamesOf(j) - (if j == i then {(d, k)} else {})
                                            - if j == d && v.nodes[i].kind == Directory then {(i, 1)} else {}
  {
    var w := Unlinked(v, d, k);
    var i := v.nodes[d].ents[k].inum;
    var dir := v.nodes[i].kind == Directory;
    UnlinkLive(v, d, k);
    forall c: nat, m: nat
      ensures w.Names(c, m, j) == (v.Names(c, m, j) && !(j == i && c == d && m == k) && !(dir && j == d && c == i && m == 1))
    {
      if c == i && dir { assert v.UpOk(i); }
    }
    assert v.Names(d, k, i);
    if dir { assert v.UpOk(i) && v.Names(i, 1, d); }
  }

  /** Unlinking takes the life of an empty directory, and of nothing else. */
  lemma UnlinkLive(v: View, d: nat, k: nat)
    requires v.Ok() && CanUnlink(v, d, k)
    ensures var i := v.nodes[d].ents[k].inum;
            forall c: nat {:trigger Unlinked(v, d, k).Live(c)} ::
              Unlinked(v, d, k).Live(c) == (v.Live(c) && !(c == i && v.nodes[i].kind == Directory))
  {
    var i := v.nodes[d].ents[k].inum;
    if v.nodes[i].kind == Directory {
      EmptyHasOneName(v, d, k);
      assert v.UpOk(i) && v.CountOk(d);
      TwoNames(v, d, i);
    }
  }

  /** The parent of a live directory has a second link, so it stays live without the first. */
  lemma TwoNames(v: View, d: nat, i: nat)
    requires v.Ok() && v.Live(d) && v.Live(i) && i != ROOT && i != d && v.up[i].0 == d
    ensures v.nodes[d].nlink >= 2
  {
    assert v.UpOk(i) && v.UpOk(d) && v.CountOk(d);
    assert v.Names(i, 1, d);
    if d == ROOT {
      assert v.Names(d, 1, d);
      assert {(i, 1), (d, 1)} <= v.NamesOf(d);
      CardTwo((i, 1), (d, 1), v.NamesOf(d));
    } else {
      var p, m := v.up[d].0, v.up[d].1;
      assert v.EntryOk(p, m);
      assert v.Names(p, m, d);
      CardTwo((i, 1), (p, m), v.NamesOf(d));
    }
  }

  lemma CardTwo(a: (nat, nat), b: (nat, nat), s: set<(nat, nat)>)
    requires a in s && b in s && a != b
    ensures |s| >= 2
  {
    assert s == {a, b} + (s - {a, b});
  }

  lemma UnlinkedUps(v: View, d: nat, k: nat, c: nat)
    requires v.Ok() && CanUnlink(v, d, k) && Unlinked(v, d, k).Live(c)
    ensures Unlinked(v, d, k).UpOk(c)
  {
    var w := Unlinked(v, d, k);
    UnlinkLive(v, d, k);
    assert v.Live(c) && v.UpOk(c);
    if c != ROOT {
      assert v.EntryOk(v.up[c].0, v.up[c].1);
      ParentStays(v, d, k, c);
      assert w.Live(v.up[c].0);
    }
  }

  lemma UnlinkedEntries(v: View, d: nat, k: nat, c: nat, m: nat)
    requires v.Ok() && CanUnlink(v, d, k) && Unlinked(v, d, k).Live(c) && 2 <= m < |Unlinked(v, d, k).nodes[c].ents|
    ensures Unlinked(v, d, k).EntryOk(c, m)
  {
    var w := Unlinked(v, d, k);
    UnlinkLive(v, d, k);
    assert v.Live(c) && v.EntryOk(c, m);
    var j := v.nodes[c].ents[m].inum;
    assert w.Live(j) == (v.Live(j) && !(j == v.nodes[d].ents[k].inum && v.nodes[j].kind == Directory));
  }

  lemma UnlinkedCount(v: View, d: nat, k: nat, j: nat)
    requires v.Ok() && CanUnlink(v, d, k) && j < |v.nodes|
    ensures Unlinked(v, d, k).CountOk(j)
  {
    assert v.CountOk(j);
    NamesAfterUnlink(v, d, k, j);
    hide View.NamesOf;
    UnlinkLive(v, d, k);
    if v.nodes[v.nodes[d].ents[k].inum].kind == Directory { EmptyHasOneName(v, d, k); }
  }

  lemma UnlinkedDead(v: View, d: nat, k: nat, j: nat)
    requires v.Ok() && CanUnlink(v, d, k) && j < |v.nodes|
    ensures Unlinked(v, d, k).DeadOk(j)
  {
    assert v.DeadOk(j);
    UnlinkLive(v, d, k);
    var i := v.nodes[d].ents[k].inum;
    if v.nodes[i].kind == Directory { assert v.UpOk(i); }
    assert Unlinked(v, d, k).Live(j) || !Unlinked(v, d, k).Live(j);
  }

  lemma UnlinkedOk(v: View, d: nat, k: nat)
    requires v.Ok() && CanUnlink(v, d, k)
    ensures Unlinked(v, d, k).Ok()
  {
    var w := Unlinked(v, d, k);
    UnlinkLive(v, d, k);
    if v.nodes[v.nodes[d].ents[k].inum].kind == Directory { EmptyHasOneName(v, d, k); }
    forall j: nat | j < |v.nodes| ensures w.CountOk(j) && w.DeadOk(j) {
      UnlinkedCount(v, d, k, j);
      UnlinkedDead(v, d, k, j);
    }
    assert w.Live(ROOT);
    forall c: nat | w.Live(c) ensures w.UpOk(c) { UnlinkedUps(v, d, k, c); }
    forall c: nat, m: nat | w.Live(c) && 2 <= m < |w.nodes[c].ents| ensures w.EntryOk(c, m) { UnlinkedEntries(v, d, k, c, m); }
    forall c: nat, a: nat, b: nat | w.Live(c) && a < b < |w.nodes[c].ents| ensures w.Distinct(c, a, b) {
      assert v.Live(c) && v.Distinct(c, a, b);
    }
  }

  /** No directory that stays has the unlinked one as parent. */
  lemma ParentStays(v: View, d: nat, k: nat, c: nat)
    requires v.Ok() && CanUnlink(v, d, k) && v.Live(c) && c != ROOT
    ensures var i := v.nodes[d].ents[k].inum;
            v.nodes[i].kind == Directory ==> v.up[c].0 != i
  {
    assert v.UpOk(c);
  }

  /** Whatever a live directory names is in use, and linked. */
  lemma EntryInUse(v: View, d: nat, k: nat)
    requires v.Ok() && v.Live(d) && k < |v.nodes[d].ents| && v.nodes[d].ents[k].inum != 0
    ensures var i := v.nodes[d].ents[k].inum;
            i < |v.nodes| && v.nodes[i].kind != Free && v.nodes[i].nlink > 0
  {
    assert v.UpOk(d);
    if k >= 2 { LookedUp(v, d, k); assert v.EntryOk(d, k); }
  }

  // ----- adding a name to a removed directory -----

  /** The entry of a file keeps the invariant exactly when its directory has links.  In a removed
      directory, still open somewhere, the new link is counted but no live directory holds it. */
  lemma MadeFileOkIff(v: View, d: nat, name: string, kind: Kind, i: nat)
    requires v.Ok() && d < |v.nodes| && v.nodes[d].kind == Directory && NewName(v, d, name)
    requires 0 < i < |v.nodes| && v.nodes[i].kind == Free && kind != Free && kind != Directory
    ensures MadeFile(v, d, name, kind, i).Ok() <==> v.Live(d)
  {
    if v.Live(d) {
      MadeFileOk(v, d, name, kind, i);
    } else {
      var w := MadeFile(v, d, name, kind, i);
      FreeUnnamed(v, i);
      NamesSame(v, w, i);
      assert !w.CountOk(i);
    }
  }

  lemma LinkedOkIff(v: View, d: nat, name: string, i: nat)
    requires v.Ok() && d < |v.nodes| && v.nodes[d].kind == Directory && NewName(v, d, name)
    requires i < |v.nodes| && v.pend[i] > 0
    ensures Linked(v, d, name, i).Ok() <==> v.Live(d)
  {
    if v.Live(d) {
      LinkedOk(v, d, name, i);
    } else {
      var w := Linked(v, d, name, i);
      assert v.CountOk(i);
      NamesSame(v, w, i);
      assert !w.CountOk(i);
    }
  }

  /** A directory made in a removed one revives it, but outside the tree: there is no parent and
      no depth that would fit it in. */
  lemma MadeDirOkIff(v: View, d: nat, name: string, i: nat)
    requires v.Ok() && d < |v.nodes| && v.nodes[d].kind == Directory && NewName(v, d, name)
    requires 0 < i < |v.nodes| && v.nodes[i].kind == Free
    ensures (exists up, depth :: MadeDir(v, d, name, i).(up := up, depth := depth).Ok()) <==> v.Live(d)
    ensures v.Live(d) ==> MadeDir(v, d, name, i).Ok()
  {
    var w := MadeDir(v, d, name, i);
    if v.Live(d) {
      MadeDirOk(v, d, name, i);
      assert w.(up := w.up, depth := w.depth).Ok();
    } else {
      forall up, depth ensures !w.(up := up, depth := depth).Ok() {
        Outside(v, d, name, i, w.(up := up, depth := depth));
      }
    }
  }

  lemma Outside(v: View, d: nat, name: string, i: nat, w: View)
    requires v.Ok() && d < |v.nodes| && v.nodes[d].kind == Directory && !v.Live(d)
    requires 0 < i < |v.nodes| && v.nodes[i].kind == Free && w.nodes == MadeDir(v, d, name, i).nodes
    ensures !w.Ok()
  {
    assert v.CountOk(d) && w.Live(d) && d != ROOT;
    forall p: nat, k: nat | p != d && w.Live(p) && 2 <= k < |w.nodes[p].ents| ensures w.nodes[p].ents[k].inum != d {
      assert p != i && v.Live(p) && v.EntryOk(p, k);
    }
    assert !w.Shape() || !w.UpOk(d);
  }

  /** Such a state is reached: make /a, open it, unlink it, and create x in it. */
  lemma RemovedDirectoryLosesFile()
    ensures var v := Unlinked(Made(Fresh(4), ROOT, "a", Directory, 2), ROOT, 2);
            v.Ok() && v.refs[2] == 1 && NewName(v, 2, "x") && !Made(v, 2, "x", File, 3).Ok()
  {
    var u := Fresh(4);
    assert NewName(u, ROOT, "a");
    MadeDirOk(u, ROOT, "a", 2);
    var v := Made(u, ROOT, "a", Directory, 2);
    assert v.nodes[ROOT].ents == [Entry(ROOT, "."), Entry(ROOT, ".."), Entry(2, "a")];
    assert v.EntryOk(ROOT, 2);
    UnlinkedOk(v, ROOT, 2);
    var w := Unlinked(v, ROOT, 2);
    assert w.nodes[2].ents == [Entry(2, "."), Entry(ROOT, "..")];
    MadeFileOkIff(w, 2, "x", File, 3);
  }

  // ----- lookups -----

  /** The inode a name in directory d stands for, 0 for none. */
  function Lookup(v: View, d: nat, name: string): (i: nat)
    requires d < |v.nodes|
  {
    var k := Find(v.nodes[d].ents, name);
    if k < |v.nodes[d].ents| then v.nodes[d].ents[k].inum else 0
  }

  lemma {:induction false} FindIs(ents: seq<Entry>, name: string, k: nat)
    requires k <= |ents| && (k < |ents| ==> Matches(ents[k], name)) && forall j :: 0 <= j < k ==> !Matches(ents[j], name)
    ensures Find(ents, name) == k
  {
  }

  /** create and link bind one name and leave every other lookup in every live directory. */
  lemma LookupAfterEntry(v: View, d: nat, name: string, i: nat, c: nat, other: string)
    requires v.Ok() && v.Live(d) && v.Live(c) && NewName(v, d, name) && i != 0
    ensures Lookup(WithEntry(v, d, name, i), c, other) == if c == d && Clip(other) == Clip(name) then i else Lookup(v, c, other)
  {
    ClipTwice(name);
    if c == d {
      var ents := v.nodes[d].ents;
      var k, f := Gap(ents), Find(ents, other);
      var r := Put(ents, k, Entry(i, Clip(name)));
      if Clip(other) == Clip(name) {
        FindIs(r, other, k);
      } else {
        FindIs(r, other, if f == |ents| then |r| else f);
      }
    }
  }

  /** unlink unbinds one name and leaves every other lookup. */
  lemma LookupAfterUnlink(v: View, d: nat, k: nat, c: nat, other: string)
    requires v.Ok() && CanUnlink(v, d, k) && v.Live(c)
    ensures Lookup(Unlinked(v, d, k), c, other) ==
              if c == d && Clip(other) == Clip(v.nodes[d].ents[k].name) then 0 else Lookup(v, c, other)
  {
    if c == d {
      var ents := v.nodes[d].ents;
      var f := Find(ents, other);
      forall j: nat | j < |ents| ensures Matches(ents[j], other) <==> j == f { UniqueName(v, d, other, j); }
      var r := ents[k := Entry(0, "")];
      assert forall j :: 0 <= j < |ents| ==> (Matches(r[j], other) <==> j == f && j != k);
      FindIs(r, other, if f == k then |ents| else f);
    }
  }
}
