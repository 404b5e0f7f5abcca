/** Sv39 page tables (kernel/vm.c) over the page allocator (kernel/kalloc.c).

    Memory is a map from page addresses to 512 words; the free list is threaded through the
    first word of free pages.  A ghost owner map says what every page is for, so "each page
    is in exactly one place" holds by construction and the invariant ties it to the words. */
module PageTable {
  import Counting

  const PGSIZE: nat := 4096
  const ENTRIES: nat := 512
  const MAXVPN: nat := 0x4000000         // MAXVA / PGSIZE, 2^26
  const TRAMPOLINE: nat := MAXVPN - 1    // as page numbers
  const TRAPFRAME: nat := MAXVPN - 2
  const PTE_V: nat := 1
  const PTE_R: nat := 2
  const PTE_W: nat := 4
  const PTE_X: nat := 8
  const PTE_U: nat := 16
  const ROOTLEVEL: nat := 2

  type Page = seq<nat>

  const ONES: nat := 0x0101010101010101
  const FIVES: nat := 0x0505050505050505

  /** memset, word by word */
  function Fill(w: nat): (p: Page)
    ensures |p| == ENTRIES && forall i :: 0 <= i < ENTRIES ==> p[i] == w
  {
    seq(ENTRIES, _ => w)
  }

  function Stored(p: Page, i: nat, w: nat): (q: Page)
    requires i < |p|
  {
    p[i := w]
  }

  // ----- page table entries -----

  /** PA2PTE(pa) | flags */
  function Pack(pa: nat, flags: nat): (e: nat) { pa / PGSIZE * 1024 + flags }

  function Pte2Pa(e: nat): (pa: nat) { e / 1024 * PGSIZE }

  function Flags(e: nat): (f: nat) { e % 1024 }

  predicate IsValid(e: nat) { e % 2 == 1 }

  /** pte & (PTE_R|PTE_W|PTE_X), as a truth value */
  predicate HasRwx(e: nat) { e / 2 % 8 != 0 }

  /** flags | PTE_V */
  function OrValid(flags: nat): (f: nat) { if IsValid(flags) then flags else flags + PTE_V }

  lemma PackUnpack(pa: nat, flags: nat)
    requires pa % PGSIZE == 0 && flags < 1024
    ensures Pte2Pa(Pack(pa, flags)) == pa && Flags(Pack(pa, flags)) == flags
    ensures IsValid(Pack(pa, flags)) == IsValid(flags)
  {
    assert Pack(pa, flags) / 1024 == pa / PGSIZE;
  }

  /** Which level-`level` table covers page number vpn. */
  function Prefix(level: nat, vpn: nat): (p: nat)
  {
    if level == 0 then vpn / ENTRIES else Prefix(level - 1, vpn) / ENTRIES
  }

  /** PX(level, va) for page number vpn. */
  function Px(level: nat, vpn: nat): (i: nat)
    ensures i < ENTRIES
  {
    if level == 0 then vpn % ENTRIES else Prefix(level - 1, vpn) % ENTRIES
  }

  // ----- what pages are for -----

  /** Node(r, l, p): the level-l table of root r for virtual page numbers starting with p.
      Leaf(r, v): the user page that root r maps at page number v.
      Kernel: handed out by kalloc and in no table. */
  datatype Owner = Free | Kernel | Node(root: nat, level: nat, prefix: nat) | Leaf(root: nat, vpn: nat)

  function Child(role: Owner, i: nat): (c: Owner)
    requires role.Node? && role.level > 0
  {
    Node(role.root, role.level - 1, role.prefix * ENTRIES + i)
  }

  function Parent(role: Owner): (c: Owner)
    requires role.Node?
  {
    Node(role.root, role.level + 1, role.prefix / ENTRIES)
  }

  datatype View = View(lo: nat, hi: nat, mem: map<nat, Page>, head: nat, free: seq<nat>,
                       owner: map<nat, Owner>, node: map<Owner, nat>)
  {
    ghost predicate PageOk(p: nat)
      requires p in mem
    {
      && p in owner && p % PGSIZE == 0 && 0 < lo <= p < hi && |mem[p]| == ENTRIES
      && (owner[p].Free? ==> p in free)
      && (owner[p].Node? ==> owner[p] in node && node[owner[p]] == p)
      && (owner[p].Leaf? ==> IsLeaf(p, owner[p].root, owner[p].vpn))
    }

    /** Root r maps user page number u to page p. */
    ghost predicate IsLeaf(p: nat, r: nat, u: nat) {
      u < TRAPFRAME && Entry(r, u) != 0 && Pte2Pa(Entry(r, u)) == p
    }

    ghost predicate RoleOk(role: Owner)
      requires role in node
    {
      && role.Node? && role.level <= ROOTLEVEL
      && node[role] in mem && node[role] in owner && owner[node[role]] == role
      && (if role.level == ROOTLEVEL then role.prefix == 0 && node[role] == role.root else Parent(role) in node)
    }

    ghost predicate EntryOk(role: Owner, i: nat)
      requires role in node && role.Node? && node[role] in mem && i < |mem[node[role]]|
    {
      var e := mem[node[role]][i];
      if role.level > 0 then
        e == if Child(role, i) in node then Pack(node[Child(role, i)], PTE_V) else 0
      else
        var u := role.prefix * ENTRIES + i;
        e != 0 ==>
          && IsValid(e) && HasRwx(e)
          && (u < TRAPFRAME ==> Pte2Pa(e) in owner && owner[Pte2Pa(e)] == Leaf(role.root, u))
    }

    /** The level-0 entry that root r has for page number u, 0 when there is none. */
    ghost function Entry(r: nat, u: nat): (e: nat)
    {
      var role := Node(r, 0, u / ENTRIES);
      if role in node && node[role] in mem && u % ENTRIES < |mem[node[role]]|
      then mem[node[role]][u % ENTRIES] else 0
    }

    ghost predicate TreesOk() {
      && owner.Keys == mem.Keys
      && (forall p {:trigger PageOk(p)} :: p in mem ==> PageOk(p))
      && (forall role {:trigger RoleOk(role)} :: role in node ==> RoleOk(role))
      && (forall role, i: nat {:trigger EntryOk(role, i)} ::
            role in node && i < ENTRIES && role.Node? && node[role] in mem && i < |mem[node[role]]| ==> EntryOk(role, i))
    }

    /** The free list, from word to word, is exactly the free pages, each once. */
    ghost predicate FreeList() {
      && (forall i, j :: 0 <= i < j < |free| ==> free[i] != free[j])
      && (forall i {:trigger FreeAt(i)} :: 0 <= i < |free| ==> FreeAt(i))
      && head == First(free)
    }

    ghost predicate FreeAt(i: nat)
      requires i < |free|
    {
      free[i] in mem && free[i] in owner && owner[free[i]].Free? && |mem[free[i]]| == ENTRIES &&
      mem[free[i]][0] == First(free[i + 1..])
    }

    ghost predicate Ok() { TreesOk() && FreeList() }
  }

  function First(s: seq<nat>): (p: nat) { if s == [] then 0 else s[0] }

  /** The states of memory. */
  type Sound = v: View | v.Ok() ghost witness Empty()

  ghost function Empty(): (v: View)
    ensures v.Ok()
  {
    View(1, 1, map[], 0, [], map[], map[])
  }

  // ----- the operations on memory -----

  /** kalloc on a nonempty free list. */
  ghost function Allocated(v: View): (w: View)
    requires v.free != []
  {
    v.(mem := v.mem[v.free[0] := Fill(FIVES)], head := First(v.free[1..]), free := v.free[1..],
       owner := v.owner[v.free[0] := Kernel])
  }

  /** kfree */
  ghost function Freed(v: View, p: nat): (w: View)
  {
    v.(mem := v.mem[p := Stored(Fill(ONES), 0, v.head)], head := p, free := [p] + v.free, owner := v.owner[p := Free])
  }

  /** Any change to the contents of a page that is in no table. */
  ghost function Filled(v: View, p: nat, data: Page): (w: View)
  {
    v.(mem := v.mem[p := data])
  }

  /** walk's new table page p for entry i of a table. */
  ghost function NodeAdded(v: View, role: Owner, i: nat, p: nat): (w: View)
    requires role in v.node && role.Node? && role.level > 0
    requires v.node[role] in v.mem && i < |v.mem[v.node[role]]|
  {
    var t := v.node[role];
    v.(mem := v.mem[p := Fill(0)][t := Stored(v.mem[t], i, Pack(p, PTE_V))],
       owner := v.owner[p := Child(role, i)], node := v.node[Child(role, i) := p])
  }

  /** A store to the level-0 entry of page number u; the page p it concerns gets a new owner. */
  ghost function EntrySet(v: View, r: nat, u: nat, e: nat, p: nat, o: Owner): (w: View)
    requires HasTable(v, r, u)
  {
    var t := v.node[Node(r, 0, u / ENTRIES)];
    v.(mem := v.mem[t := Stored(v.mem[t], u % ENTRIES, e)],
       owner := if u < TRAPFRAME then v.owner[p := o] else v.owner)
  }

  ghost predicate HasTable(v: View, r: nat, u: nat) {
    var role := Node(r, 0, u / ENTRIES);
    role in v.node && v.node[role] in v.mem && |v.mem[v.node[role]]| == ENTRIES
  }

  ghost predicate SameEntries(v: View, w: View) {
    forall r: nat, u: nat {:trigger w.Entry(r, u)} :: w.Entry(r, u) == v.Entry(r, u)
  }

  // ----- the operations keep memory sound -----

  /** Page p moves between the free list and the kernel, or changes contents there. */
  lemma OutsideTables(v: View, w: View, p: nat)
    requires v.TreesOk() && p in v.mem && p in v.owner && (v.owner[p].Free? || v.owner[p].Kernel?)
    requires w.lo == v.lo && w.hi == v.hi && w.node == v.node && p in w.mem && p in w.owner
    requires w.mem == v.mem[p := w.mem[p]] && w.owner == v.owner[p := w.owner[p]] && |w.mem[p]| == ENTRIES
    requires w.owner[p].Kernel? || (w.owner[p].Free? && p in w.free)
    requires forall q :: q in v.free && q != p ==> q in w.free
    ensures w.TreesOk() && SameEntries(v, w)
  {
    assert v.PageOk(p);
    forall role | role in w.node ensures w.RoleOk(role) && w.node[role] != p {
      assert v.RoleOk(role);
    }
    forall r: nat, u: nat ensures w.Entry(r, u) == v.Entry(r, u) {
      if Node(r, 0, u / ENTRIES) in v.node { assert w.RoleOk(Node(r, 0, u / ENTRIES)); }
    }
    forall q | q in w.mem ensures w.PageOk(q) {
      assert v.PageOk(q);
      if q != p && w.owner[q].Leaf? {
        assert w.Entry(w.owner[q].root, w.owner[q].vpn) == v.Entry(w.owner[q].root, w.owner[q].vpn);
      }
    }
    forall role, i: nat | role in w.node && i < ENTRIES && role.Node? && w.node[role] in w.mem && i < |w.mem[w.node[role]]|
      ensures w.EntryOk(role, i)
    {
      assert v.RoleOk(role) && w.RoleOk(role) && v.EntryOk(role, i);
    }
  }

  lemma AllocatedOk(v: View)
    requires v.Ok() && v.free != []
    ensures Allocated(v).Ok() && SameEntries(v, Allocated(v))
    ensures v.free[0] in v.mem && v.owner.Keys == v.mem.Keys && v.owner[v.free[0]].Free? && v.free[0] > 0
    ensures v.free[0] == v.head && |v.mem[v.free[0]]| == ENTRIES && v.mem[v.free[0]][0] == Allocated(v).head
  {
    var w, p := Allocated(v), v.free[0];
    assert v.FreeAt(0) && v.PageOk(p);
    OutsideTables(v, w, p);
    forall i | 0 <= i < |w.free| ensures w.FreeAt(i) {
      assert v.FreeAt(i + 1);
      assert v.free[1..][i + 1..] == v.free[i + 2..];
    }
  }

  /** The page freed last is handed out first, and the rest of the list is as it was. */
  lemma FreedThenAllocated(v: View, p: nat)
    requires v.Ok() && p in v.mem && p in v.owner && v.owner[p].Kernel?
    ensures Freed(v, p).free != [] && Freed(v, p).free[0] == p
    ensures var w := Allocated(Freed(v, p));
            w.free == v.free && w.head == v.head && w.owner == v.owner && w.mem == v.mem[p := Fill(FIVES)] && SameEntries(v, w)
  {
    var f := Freed(v, p);
    FreedOk(v, p);
    AllocatedOk(f);
    assert ([p] + v.free)[1..] == v.free;
    forall r: nat, u: nat ensures Allocated(f).Entry(r, u) == v.Entry(r, u) { assert f.Entry(r, u) == v.Entry(r, u); }
  }

  lemma FreedOk(v: View, p: nat)
    requires v.Ok() && p in v.mem && p in v.owner && v.owner[p].Kernel?
    ensures Freed(v, p).Ok() && SameEntries(v, Freed(v, p))
    ensures p % PGSIZE == 0 && v.lo <= p < v.hi
  {
    var w := Freed(v, p);
    assert v.PageOk(p);
    forall i | 0 <= i < |v.free| ensures v.free[i] != p {
      assert v.FreeAt(i);
    }
    OutsideTables(v, w, p);
    forall i | 0 <= i < |w.free| ensures w.FreeAt(i) {
      if i > 0 { assert v.FreeAt(i - 1); }
      assert w.free[i + 1..] == v.free[i..];
    }
  }

  lemma FilledOk(v: View, p: nat, data: Page)
    requires v.Ok() && p in v.mem && p in v.owner && v.owner[p].Kernel? && |data| == ENTRIES
    ensures Filled(v, p, data).Ok() && SameEntries(v, Filled(v, p, data))
  {
    var w := Filled(v, p, data);
    OutsideTables(v, w, p);
    forall i | 0 <= i < |w.free| ensures w.FreeAt(i) {
      assert v.FreeAt(i);
    }
  }

  /** A child's number determines its parent and its index there. */
  lemma ChildParent(role: Owner, i: nat)
    requires role.Node? && role.level > 0 && i < ENTRIES
    ensures Parent(Child(role, i)) == role && Child(role, i).prefix % ENTRIES == i
  {
  }

  lemma NodeAddedOk(v: View, role: Owner, i: nat, p: nat)
    requires v.Ok() && role in v.node && role.Node? && 0 < role.level <= ROOTLEVEL && i < ENTRIES
    requires Child(role, i) !in v.node && p in v.mem && p in v.owner && v.owner[p].Kernel?
    ensures v.node[role] in v.mem && i < |v.mem[v.node[role]]|
    ensures NodeAdded(v, role, i, p).Ok() && SameEntries(v, NodeAdded(v, role, i, p))
  {
    assert v.RoleOk(role) && v.PageOk(v.node[role]) && v.PageOk(p);
    var w, t, c := NodeAdded(v, role, i, p), v.node[role], Child(role, i);
    ChildParent(role, i);
    forall x | x in w.node ensures w.RoleOk(x) {
      if x != c { assert v.RoleOk(x); }
    }
    forall r: nat, u: nat ensures w.Entry(r, u) == v.Entry(r, u) {
      var x := Node(r, 0, u / ENTRIES);
      if x in v.node { assert v.RoleOk(x); }
    }
    forall q | q in w.mem ensures w.PageOk(q) {
      assert v.PageOk(q);
      if q != p && w.owner[q].Leaf? {
        assert w.Entry(w.owner[q].root, w.owner[q].vpn) == v.Entry(w.owner[q].root, w.owner[q].vpn);
      }
    }
    forall i | 0 <= i < |w.free| ensures w.FreeAt(i) {
      assert v.FreeAt(i);
    }
    NodeAddedEntries(v, role, i, p);
  }

  lemma NodeAddedEntries(v: View, role: Owner, i: nat, p: nat)
    requires v.Ok() && role in v.node && role.Node? && 0 < role.level <= ROOTLEVEL && i < ENTRIES
    requires Child(role, i) !in v.node && p in v.mem && p in v.owner && v.owner[p].Kernel?
    requires v.node[role] in v.mem && i < |v.mem[v.node[role]]|
    ensures var w := NodeAdded(v, role, i, p);
      forall x, j: nat {:trigger w.EntryOk(x, j)} ::
        x in w.node && j < ENTRIES && x.Node? && w.node[x] in w.mem && j < |w.mem[w.node[x]]| ==> w.EntryOk(x, j)
  {
    var w, t, c := NodeAdded(v, role, i, p), v.node[role], Child(role, i);
    assert v.RoleOk(role) && v.PageOk(t) && v.PageOk(p);
    forall x, j: nat | x in w.node && j < ENTRIES && x.Node? && w.node[x] in w.mem && j < |w.mem[w.node[x]]|
      ensures w.EntryOk(x, j)
    {
      if x == c {
        if c.level > 0 && Child(c, j) in v.node {
          assert v.RoleOk(Child(c, j));
          ChildParent(c, j);
        }
      } else {
        assert v.RoleOk(x) && v.EntryOk(x, j);
        if x.level > 0 { ChildParent(x, j); }
        ChildParent(role, i);
      }
    }
  }

  /** The two stores the kernel makes to level-0 entries: mapping an unmapped page number
      to a kernel page, and unmapping. */
  ghost predicate CanSet(v: View, r: nat, u: nat, e: nat, p: nat, o: Owner) {
    && HasTable(v, r, u)
    && if e == 0 then
         u < TRAPFRAME ==> v.Entry(r, u) != 0 && p == Pte2Pa(v.Entry(r, u)) && o == Kernel
       else
         && v.Entry(r, u) == 0 && IsValid(e) && HasRwx(e)
         && (u < TRAPFRAME ==> p == Pte2Pa(e) && p in v.mem && p in v.owner && v.owner[p].Kernel? && o == Leaf(r, u))
  }

  /** Every other translation of every table. */
  ghost predicate SameEntriesBut(v: View, w: View, r: nat, u: nat) {
    forall r': nat, u': nat {:trigger w.Entry(r', u')} :: r' != r || u' != u ==> w.Entry(r', u') == v.Entry(r', u')
  }

  lemma EntrySetEntries(v: View, r: nat, u: nat, e: nat, p: nat, o: Owner)
    requires v.Ok() && HasTable(v, r, u)
    ensures var w := EntrySet(v, r, u, e, p, o); w.Entry(r, u) == e && SameEntriesBut(v, w, r, u)
  {
    var w, x := EntrySet(v, r, u, e, p, o), Node(r, 0, u / ENTRIES);
    assert v.RoleOk(x);
    forall r': nat, u': nat | r' != r || u' != u ensures w.Entry(r', u') == v.Entry(r', u') {
      var x' := Node(r', 0, u' / ENTRIES);
      if x' in v.node && x' != x { assert v.RoleOk(x'); }
    }
  }

  lemma EntrySetOk(v: View, r: nat, u: nat, e: nat, p: nat, o: Owner)
    requires v.Ok() && CanSet(v, r, u, e, p, o)
    ensures EntrySet(v, r, u, e, p, o).Ok()
  {
    var w, x := EntrySet(v, r, u, e, p, o), Node(r, 0, u / ENTRIES);
    assert v.RoleOk(x) && v.EntryOk(x, u % ENTRIES) && v.PageOk(v.node[x]);
    EntrySetEntries(v, r, u, e, p, o);
    forall y | y in w.node ensures w.RoleOk(y) {
      assert v.RoleOk(y);
    }
    forall q | q in w.mem ensures w.PageOk(q) {
      assert v.PageOk(q);
      if w.owner[q].Leaf? && w.owner[q] != Leaf(r, u) {
        assert w.Entry(w.owner[q].root, w.owner[q].vpn) == v.Entry(w.owner[q].root, w.owner[q].vpn);
      }
    }
    forall i | 0 <= i < |w.free| ensures w.FreeAt(i) {
      assert v.FreeAt(i);
    }
    EntrySetRest(v, r, u, e, p, o);
  }

  lemma EntrySetRest(v: View, r: nat, u: nat, e: nat, p: nat, o: Owner)
    requires v.Ok() && CanSet(v, r, u, e, p, o)
    ensures var w := EntrySet(v, r, u, e, p, o);
      forall x, j: nat {:trigger w.EntryOk(x, j)} ::
        x in w.node && j < ENTRIES && x.Node? && w.node[x] in w.mem && j < |w.mem[w.node[x]]| ==> w.EntryOk(x, j)
  {
    var w, x := EntrySet(v, r, u, e, p, o), Node(r, 0, u / ENTRIES);
    assert v.RoleOk(x) && v.EntryOk(x, u % ENTRIES);
    forall y, j: nat | y in w.node && j < ENTRIES && y.Node? && w.node[y] in w.mem && j < |w.mem[w.node[y]]|
      ensures w.EntryOk(y, j)
    {
      assert v.RoleOk(y) && v.EntryOk(y, j);
      assert y == x ==> (y.prefix * ENTRIES + j == u <==> j == u % ENTRIES);
    }
  }

  /** uvmcreate: a kernel page becomes an empty table of its own. */
  ghost function RootAdded(v: View, p: nat): (w: View)
  {
    v.(mem := v.mem[p := Fill(0)], owner := v.owner[p := Node(p, ROOTLEVEL, 0)],
       node := v.node[Node(p, ROOTLEVEL, 0) := p])
  }

  lemma RootAddedOk(v: View, p: nat)
    requires v.Ok() && p in v.mem && p in v.owner && v.owner[p].Kernel?
    ensures RootAdded(v, p).Ok() && SameEntries(v, RootAdded(v, p))
    ensures forall u: nat :: v.Entry(p, u) == 0
  {
    var w, x := RootAdded(v, p), Node(p, ROOTLEVEL, 0);
    assert v.PageOk(p);
    NoRoles(v, p);
    forall y | y in w.node ensures w.RoleOk(y) {
      if y != x { assert v.RoleOk(y); }
    }
    RootAddedEntries(v, p);
    forall q | q in w.mem ensures w.PageOk(q) {
      assert v.PageOk(q);
      if q != p && w.owner[q].Leaf? {
        assert w.Entry(w.owner[q].root, w.owner[q].vpn) == v.Entry(w.owner[q].root, w.owner[q].vpn);
      }
    }
    forall i | 0 <= i < |w.free| ensures w.FreeAt(i) {
      assert v.FreeAt(i);
    }
  }

  lemma RootAddedEntries(v: View, p: nat)
    requires v.Ok() && p in v.mem && p in v.owner && v.owner[p].Kernel?
    ensures var w := RootAdded(v, p);
      && SameEntries(v, w)
      && forall x, j: nat {:trigger w.EntryOk(x, j)} ::
           x in w.node && j < ENTRIES && x.Node? && w.node[x] in w.mem && j < |w.mem[w.node[x]]| ==> w.EntryOk(x, j)
  {
    var w, x := RootAdded(v, p), Node(p, ROOTLEVEL, 0);
    NoRoles(v, p);
    forall r: nat, u: nat ensures w.Entry(r, u) == v.Entry(r, u) {
      if Node(r, 0, u / ENTRIES) in v.node { assert v.RoleOk(Node(r, 0, u / ENTRIES)); }
    }
    forall y, j: nat | y in w.node && j < ENTRIES && y.Node? && w.node[y] in w.mem && j < |w.mem[w.node[y]]|
      ensures w.EntryOk(y, j)
    {
      if y != x { assert v.RoleOk(y) && v.EntryOk(y, j); }
    }
  }

  /** A page that is not a table is nobody's root. */
  lemma NoRoles(v: View, p: nat)
    requires v.Ok() && p in v.mem && p in v.owner && !v.owner[p].Node?
    ensures forall role :: role in v.node ==> role.Node? && role.root != p
  {
    forall role | role in v.node ensures role.Node? && role.root != p {
      assert v.RoleOk(role);
      RootOf(v, role);
    }
  }

  lemma {:induction false} RootOf(v: View, role: Owner)
    requires v.Ok() && role in v.node
    ensures role.Node? && role.root in v.mem && role.root in v.owner && v.owner[role.root].Node?
    decreases if role.Node? then ROOTLEVEL - role.level else 0
  {
    assert v.RoleOk(role);
    if role.level < ROOTLEVEL { RootOf(v, Parent(role)); }
  }

  /** The end of freewalk: an empty table leaves the tree, its parent's entry cleared. */
  ghost function Detached(v: View, role: Owner): (w: View)
    requires role in v.node && role.Node?
    requires role.level < ROOTLEVEL ==> Parent(role) in v.node && v.node[Parent(role)] in v.mem &&
                                        |v.mem[v.node[Parent(role)]]| == ENTRIES
  {
    v.(mem := if role.level < ROOTLEVEL
              then var t := v.node[Parent(role)]; v.mem[t := Stored(v.mem[t], role.prefix % ENTRIES, 0)]
              else v.mem,
       owner := v.owner[v.node[role] := Kernel], node := v.node - {role})
  }

  /** The table has no entries left. */
  ghost predicate IsEmpty(v: View, role: Owner) {
    && role in v.node && role.Node?
    && forall i: nat {:trigger EmptyAt(v, role, i)} :: i < ENTRIES ==> EmptyAt(v, role, i)
  }

  ghost predicate EmptyAt(v: View, role: Owner, i: nat)
    requires role.Node?
  {
    if role.level == 0 then v.Entry(role.root, role.prefix * ENTRIES + i) == 0 else Child(role, i) !in v.node
  }

  lemma DetachedOk(v: View, role: Owner)
    requires v.Ok() && IsEmpty(v, role)
    ensures v.node[role] in v.mem && v.node[role] in v.owner
    ensures role.level < ROOTLEVEL ==> Parent(role) in v.node && v.node[Parent(role)] in v.mem &&
                                       |v.mem[v.node[Parent(role)]]| == ENTRIES && v.node[Parent(role)] != v.node[role]
    ensures Detached(v, role).Ok() && SameEntries(v, Detached(v, role))
  {
    assert v.RoleOk(role) && v.PageOk(v.node[role]);
    if role.level < ROOTLEVEL { assert v.RoleOk(Parent(role)) && v.PageOk(v.node[Parent(role)]); }
    var w := Detached(v, role);
    DetachedEntries(v, role);
    forall y | y in w.node ensures w.RoleOk(y) {
      assert v.RoleOk(y);
      assert EmptyAt(v, role, y.prefix % ENTRIES);
    }
    forall q | q in w.mem ensures w.PageOk(q) {
      assert v.PageOk(q);
      if w.owner[q].Leaf? {
        assert w.Entry(w.owner[q].root, w.owner[q].vpn) == v.Entry(w.owner[q].root, w.owner[q].vpn);
      }
    }
    forall i | 0 <= i < |w.free| ensures w.FreeAt(i) {
      assert v.FreeAt(i);
    }
  }

  lemma DetachedEntries(v: View, role: Owner)
    requires v.Ok() && IsEmpty(v, role)
    requires role.level < ROOTLEVEL ==> Parent(role) in v.node && v.node[Parent(role)] in v.mem &&
                                        |v.mem[v.node[Parent(role)]]| == ENTRIES
    ensures var w := Detached(v, role);
      && SameEntries(v, w)
      && forall x, j: nat {:trigger w.EntryOk(x, j)} ::
           x in w.node && j < ENTRIES && x.Node? && w.node[x] in w.mem && j < |w.mem[w.node[x]]| ==> w.EntryOk(x, j)
  {
    var w := Detached(v, role);
    assert v.RoleOk(role);
    forall r: nat, u: nat ensures w.Entry(r, u) == v.Entry(r, u) {
      var x := Node(r, 0, u / ENTRIES);
      if x in v.node { assert v.RoleOk(x); }
      assert EmptyAt(v, role, u % ENTRIES);
      if role.level < ROOTLEVEL { assert v.RoleOk(Parent(role)); }
    }
    forall y, j: nat | y in w.node && j < ENTRIES && y.Node? && w.node[y] in w.mem && j < |w.mem[w.node[y]]|
      ensures w.EntryOk(y, j)
    {
      assert v.RoleOk(y) && v.EntryOk(y, j);
      if role.level < ROOTLEVEL { assert v.RoleOk(Parent(role)); }
      if y.level > 0 { ChildParent(y, j); }
    }
  }

  // ----- what the kernel's calls may do to memory -----

  ghost predicate SamePage(v: View, w: View, p: nat) { p in v.mem && p in w.mem && w.mem[p] == v.mem[p] }

  /** From v to w, table r gains translations for page numbers m .. n and nothing else is
      touched: free pages may become tables of r, or user pages of r in that range; every other
      page keeps its owner, and its contents unless it is a table of r. */
  ghost predicate Extended(v: View, w: View, r: nat, m: nat, n: nat) {
    && w.owner.Keys == v.owner.Keys
    && (forall p {:trigger Kept(v, w, r, m, n, p)} :: p in v.owner && p in w.owner ==> Kept(v, w, r, m, n, p))
    && (forall role {:trigger role in w.node} :: role in v.node ==> role in w.node && w.node[role] == v.node[role])
    && (forall r': nat, u: nat {:trigger w.Entry(r', u)} ::
          if r' == r && m <= u < n then w.Entry(r', u) != 0 else w.Entry(r', u) == v.Entry(r', u))
  }

  ghost predicate Kept(v: View, w: View, r: nat, m: nat, n: nat, p: nat)
    requires p in v.owner && p in w.owner
  {
    var o := w.owner[p];
    if v.owner[p].Free? then o.Free? || (o.Node? && o.root == r) || (o.Leaf? && o.root == r && m <= o.vpn < n)
    else o == v.owner[p] && ((o.Node? && o.root == r) || SamePage(v, w, p))
  }

  /** No translation changes: at most some free pages become tables of r. */
  ghost predicate Grew(v: View, w: View, r: nat) { Extended(v, w, r, 0, 0) }

  lemma GrewExtends(v: View, w: View, r: nat, m: nat)
    requires Grew(v, w, r) || Extended(v, w, r, m, m)
    ensures Extended(v, w, r, m, m) && Grew(v, w, r)
  {
    forall p | p in v.owner && p in w.owner ensures Kept(v, w, r, m, m, p) && Kept(v, w, r, 0, 0, p) {
      assert Kept(v, w, r, 0, 0, p) || Kept(v, w, r, m, m, p);
    }
    forall r': nat, u: nat ensures w.Entry(r', u) == v.Entry(r', u) {
    }
  }

  lemma ExtendedRefl(v: View, r: nat, m: nat)
    requires v.owner.Keys == v.mem.Keys
    ensures Extended(v, v, r, m, m)
  {
  }

  lemma ExtendedTrans(u: View, v: View, w: View, r: nat, a: nat, b: nat, c: nat)
    requires Extended(u, v, r, a, b) && Extended(v, w, r, b, c) && a <= b <= c
    ensures Extended(u, w, r, a, c)
  {
    forall p | p in u.owner && p in w.owner ensures Kept(u, w, r, a, c, p) {
      assert Kept(u, v, r, a, b, p) && Kept(v, w, r, b, c, p);
    }
    forall role | role in u.node ensures role in w.node && w.node[role] == u.node[role] { assert role in v.node; }
    forall r': nat, n: nat
      ensures if r' == r && a <= n < c then w.Entry(r', n) != 0 else w.Entry(r', n) == u.Entry(r', n)
    {
      EntryTrans(u, v, w, r, a, b, c, r', n);
    }
  }

  lemma EntryTrans(u: View, v: View, w: View, r: nat, a: nat, b: nat, c: nat, r': nat, n: nat)
    requires Extended(u, v, r, a, b) && Extended(v, w, r, b, c) && a <= b <= c
    ensures if r' == r && a <= n < c then w.Entry(r', n) != 0 else w.Entry(r', n) == u.Entry(r', n)
  {
    assert if r' == r && b <= n < c then w.Entry(r', n) != 0 else w.Entry(r', n) == v.Entry(r', n);
    assert if r' == r && a <= n < b then v.Entry(r', n) != 0 else v.Entry(r', n) == u.Entry(r', n);
  }

  /** A table page taken straight off the free list. */
  lemma GrewByNode(v: View, role: Owner, i: nat)
    requires v.Ok() && v.free != [] && role in v.node && role.Node? && 0 < role.level <= ROOTLEVEL && i < ENTRIES
    requires Child(role, i) !in v.node
    ensures v.node[role] in Allocated(v).mem && i < |Allocated(v).mem[v.node[role]]| && v.node[role] != v.free[0]
    ensures var w := NodeAdded(Allocated(v), role, i, v.free[0]);
            w.Ok() && Grew(v, w, role.root) && Took(v, w, 0, {Child(role, i)})
  {
    AllocatedOk(v);
    var a, p := Allocated(v), v.free[0];
    NodeAddedOk(a, role, i, p);
    var w := NodeAdded(a, role, i, p);
    assert v.RoleOk(role);
    forall q | q in v.owner && q in w.owner ensures Kept(v, w, role.root, 0, 0, q) {
    }
    forall r: nat, n: nat ensures w.Entry(r, n) == v.Entry(r, n) {
      assert w.Entry(r, n) == a.Entry(r, n) && a.Entry(r, n) == v.Entry(r, n);
    }
  }

  // ----- how many pages a mapping takes -----

  /** The tables walk passes below root r, down to the given level, on its way to page number vpn. */
  ghost function Path(r: nat, level: nat, vpn: nat): (t: set<Owner>) { PathFrom(r, level, vpn) }

  ghost function PathFrom(r: nat, level: nat, vpn: nat): (t: set<Owner>)
    decreases ROOTLEVEL - level
  {
    if level >= ROOTLEVEL then {} else PathFrom(r, level + 1, vpn) + {Node(r, level, Prefix(level, vpn))}
  }

  /** The tables below root r that translate page numbers m .. k. */
  ghost function Tables(r: nat, m: nat, k: nat): (t: set<Owner>) { Paths(r, m, k) }

  ghost function Paths(r: nat, m: nat, k: nat): (t: set<Owner>) {
    if k <= m then {} else Paths(r, m, k - 1) + Path(r, 0, k - 1)
  }

  /** Those of them that are still to be allocated. */
  ghost function Missing(v: View, r: nat, m: nat, k: nat): (t: set<Owner>) {
    Tables(r, m, k) - v.node.Keys
  }

  /** Between v and w exactly these tables came to be, and pages more left the free list. */
  ghost predicate Took(v: View, w: View, pages: nat, tables: set<Owner>) {
    w.node.Keys == v.node.Keys + tables && |v.free| == |w.free| + pages + |tables - v.node.Keys|
  }

  lemma TookTrans(u: View, v: View, w: View, a: nat, s: set<Owner>, b: nat, t: set<Owner>)
    requires Took(u, v, a, s) && Took(v, w, b, t)
    ensures Took(u, w, a + b, s + t)
  {
    Counting.AddedInTurn(u.node.Keys, s, t);
    assert w.node.Keys == u.node.Keys + (s + t);
  }

  lemma TookAlready(u: View, v: View, w: View, t: set<Owner>)
    requires Took(u, v, 0, t) && w.node == v.node && w.free == v.free
    ensures Took(u, w, 0, t)
  {
  }

  /** Too few pages are left for the next step, so there were too few for all of them. */
  lemma TooFew(u: View, v: View, a: nat, s: set<Owner>, b: nat, t: set<Owner>, all: set<Owner>)
    requires Took(u, v, a, s) && |v.free| < b + |t - v.node.Keys| && s + t <= all
    ensures |u.free| < a + b + |all - u.node.Keys|
  {
    Counting.AddedInTurn(u.node.Keys, s, t);
    Counting.SubsetSize((s + t) - u.node.Keys, all - u.node.Keys);
  }

  lemma {:induction false} TablesSplit(r: nat, m: nat, n: nat, k: nat)
    requires m <= n <= k
    ensures Tables(r, m, k) == Tables(r, m, n) + Tables(r, n, k)
  {
    if n < k { TablesSplit(r, m, n, k - 1); }
  }

  /** How many pages mapping fresh pages at page numbers m .. k takes, tables included. */
  ghost function Need(v: View, r: nat, m: nat, k: nat): (n: nat)
    requires m <= k
  {
    k - m + |Missing(v, r, m, k)|
  }

  lemma TookNothing(v: View)
    ensures Took(v, v, 0, {}) && forall r, m :: Tables(r, m, m) == {}
  {
    assert {} - v.node.Keys == {} && v.node.Keys + {} == v.node.Keys;
  }

  /** walk finds the next table, or makes it, or finds no page for it. */
  lemma WalkFound(u: View, v: View, r: nat, level: nat, vpn: nat)
    requires 0 < level <= ROOTLEVEL && Took(u, v, 0, Path(r, level, vpn)) && Node(r, level - 1, Prefix(level - 1, vpn)) in v.node
    ensures Took(u, v, 0, Path(r, level - 1, vpn))
  {
    var x := Node(r, level - 1, Prefix(level - 1, vpn));
    assert {x} - v.node.Keys == {} && v.node.Keys + {x} == v.node.Keys;
    TookTrans(u, v, v, 0, Path(r, level, vpn), 0, {x});
  }

  lemma WalkMade(u: View, v: View, w: View, r: nat, level: nat, vpn: nat)
    requires 0 < level <= ROOTLEVEL && Took(u, v, 0, Path(r, level, vpn)) && Took(v, w, 0, {Node(r, level - 1, Prefix(level - 1, vpn))})
    ensures Took(u, w, 0, Path(r, level - 1, vpn))
  {
    TookTrans(u, v, w, 0, Path(r, level, vpn), 0, {Node(r, level - 1, Prefix(level - 1, vpn))});
  }

  lemma WalkStopped(u: View, v: View, r: nat, level: nat, vpn: nat)
    requires 0 < level <= ROOTLEVEL && Took(u, v, 0, Path(r, level, vpn)) && v.free == []
    requires Node(r, level - 1, Prefix(level - 1, vpn)) !in v.node
    ensures |u.free| < |Missing(u, r, vpn, vpn + 1)|
  {
    hide Took, Tables, Path, Prefix;
    var x := Node(r, level - 1, Prefix(level - 1, vpn));
    OnePath(r, vpn);
    PathBelow(r, level - 1, vpn);
    PathStep(r, level, vpn);
    assert {x} - v.node.Keys == {x};
    TooFew(u, v, 0, Path(r, level, vpn), 0, {x}, Path(r, 0, vpn));
  }

  lemma PathStep(r: nat, level: nat, vpn: nat)
    requires 0 < level <= ROOTLEVEL
    ensures Path(r, level - 1, vpn) == Path(r, level, vpn) + {Node(r, level - 1, Prefix(level - 1, vpn))}
  {
  }

  lemma OnePath(r: nat, vpn: nat)
    ensures Tables(r, vpn, vpn + 1) == Path(r, 0, vpn)
  {
    assert Tables(r, vpn, vpn) == {};
  }

  lemma {:induction false} PathBelow(r: nat, level: nat, vpn: nat)
    ensures Path(r, level, vpn) <= Path(r, 0, vpn)
  {
    if level > 0 { PathBelow(r, level - 1, vpn); }
  }

  lemma TablesStep(u: View, v: View, w: View, r: nat, m: nat, n: nat, a: nat, b: nat)
    requires m <= n && Took(u, v, a, Tables(r, m, n)) && Took(v, w, b, Tables(r, n, n + 1))
    ensures Took(u, w, a + b, Tables(r, m, n + 1))
  {
    TookTrans(u, v, w, a, Tables(r, m, n), b, Tables(r, n, n + 1));
    TablesSplit(r, m, n, n + 1);
  }

  lemma TablesShort(u: View, v: View, r: nat, m: nat, n: nat, k: nat, a: nat, b: nat)
    requires m <= n < k && Took(u, v, a, Tables(r, m, n)) && |v.free| < b + |Missing(v, r, n, n + 1)|
    ensures |u.free| < a + b + |Missing(u, r, m, k)|
  {
    TablesSplit(r, m, n, k);
    TablesSplit(r, n, n + 1, k);
    TooFew(u, v, a, Tables(r, m, n), b, Tables(r, n, n + 1), Tables(r, m, k));
  }

  lemma TablesEnough(v: View, w: View, r: nat, m: nat, k: nat)
    requires Took(v, w, 0, Tables(r, m, k))
    ensures |v.free| >= |Missing(v, r, m, k)| && Missing(w, r, m, k) == {}
  {
  }

  /** The free list lost one page for each page number m .. n and one for each table missing there. */
  ghost predicate Paid(v: View, w: View, r: nat, m: nat, n: nat)
    requires m <= n
  {
    Took(v, w, n - m, Tables(r, m, n))
  }

  lemma PaidNone(v: View, r: nat, m: nat)
    ensures Paid(v, v, r, m, m)
  {
    TookNothing(v);
  }

  lemma PaidStep(u: View, v: View, w: View, r: nat, m: nat, n: nat)
    requires m <= n && Paid(u, v, r, m, n) && Paid(v, w, r, n, n + 1)
    ensures Paid(u, w, r, m, n + 1)
  {
    TablesStep(u, v, w, r, m, n, n - m, 1);
  }

  /** The pages at hand do not suffice for n, so at the start they did not for m .. k. */
  lemma PaidShort(u: View, v: View, r: nat, m: nat, n: nat, k: nat)
    requires m <= n < k && Paid(u, v, r, m, n) && |v.free| < Need(v, r, n, n + 1)
    ensures |u.free| < Need(u, r, m, k)
  {
    TablesShort(u, v, r, m, n, k, n - m, 1);
  }

  lemma PaidEnough(v: View, w: View, r: nat, m: nat, k: nat)
    requires m <= k && Paid(v, w, r, m, k)
    ensures |v.free| >= Need(v, r, m, k)
  {
  }

  lemma FreshShort(v: View, r: nat, u: nat, data: Page)
    requires v.free != [] && |Fresh(v, data).free| < |Missing(Fresh(v, data), r, u, u + 1)|
    ensures |v.free| < Need(v, r, u, u + 1)
  {
    assert Fresh(v, data).node == v.node;
  }

  lemma PaidFresh(v: View, w: View, r: nat, u: nat, data: Page)
    requires v.free != [] && Took(Fresh(v, data), w, 0, Tables(r, u, u + 1))
    ensures Paid(v, w, r, u, u + 1)
  {
    var t := Tables(r, u, u + 1);
    assert Fresh(v, data).node == v.node;
  }

  /** Entry u of table r became e, taking page p out of the kernel's hands when it is a user page. */
  ghost predicate MapsTo(v: View, w: View, r: nat, u: nat, e: nat, p: nat) {
    && w.owner.Keys == v.owner.Keys
    && (forall q {:trigger Kept(v, w, r, 0, 0, q)} ::
          q in v.owner && q in w.owner && (q != p || u >= TRAPFRAME) ==> Kept(v, w, r, 0, 0, q))
    && (u < TRAPFRAME ==> p in w.owner && w.owner[p] == Leaf(r, u) && p in v.mem && p in w.mem && w.mem[p] == v.mem[p])
    && (forall role {:trigger role in w.node} :: role in v.node ==> role in w.node && w.node[role] == v.node[role])
    && w.Entry(r, u) == e && SameEntriesBut(v, w, r, u)
  }

  lemma MapsToFrom(v: View, g: View, r: nat, u: nat, e: nat, p: nat)
    requires g.Ok() && Grew(v, g, r) && v.owner.Keys == v.mem.Keys && e != 0 && CanSet(g, r, u, e, p, Leaf(r, u))
    requires u < TRAPFRAME ==> p in v.owner && v.owner[p].Kernel?
    ensures MapsTo(v, EntrySet(g, r, u, e, p, Leaf(r, u)), r, u, e, p)
  {
    var w := EntrySet(g, r, u, e, p, Leaf(r, u));
    assert g.RoleOk(Node(r, 0, u / ENTRIES));
    EntrySetEntries(g, r, u, e, p, Leaf(r, u));
    forall q | q in v.owner && q in w.owner && (q != p || u >= TRAPFRAME) ensures Kept(v, w, r, 0, 0, q) {
      assert Kept(v, g, r, 0, 0, q);
    }
    if u < TRAPFRAME { assert Kept(v, g, r, 0, 0, p); }
    forall r': nat, u': nat | r' != r || u' != u ensures w.Entry(r', u') == v.Entry(r', u') {
      assert w.Entry(r', u') == g.Entry(r', u') && g.Entry(r', u') == v.Entry(r', u');
    }
  }

  /** Table r maps page number u with these flags to a page with these contents. */
  ghost predicate PageHas(v: View, r: nat, u: nat, flags: nat, data: Page) {
    var e := v.Entry(r, u);
    e != 0 && Flags(e) == flags && Pte2Pa(e) in v.mem && v.mem[Pte2Pa(e)] == data
  }

  /** A page taken off the free list and filled. */
  ghost function Fresh(v: View, data: Page): (w: View)
    requires v.free != []
  {
    Filled(Allocated(v), v.free[0], data)
  }

  lemma FreshOk(v: View, data: Page)
    requires v.Ok() && v.free != [] && |data| == ENTRIES
    ensures var w, p := Fresh(v, data), v.free[0];
            && w.Ok() && SameEntries(v, w)
            && p in v.owner && v.owner[p].Free? && p % PGSIZE == 0
            && p in w.mem && p in w.owner && w.owner[p].Kernel? && w.owner.Keys == v.owner.Keys
  {
    AllocatedOk(v);
    FilledOk(Allocated(v), v.free[0], data);
    assert v.PageOk(v.free[0]);
    forall r: nat, u: nat ensures Fresh(v, data).Entry(r, u) == v.Entry(r, u) {
      assert Fresh(v, data).Entry(r, u) == Allocated(v).Entry(r, u) && Allocated(v).Entry(r, u) == v.Entry(r, u);
    }
  }

  /** A fresh page, filled and mapped. */
  lemma FreshMapped(v: View, w: View, r: nat, u: nat, flags: nat, data: Page)
    requires v.Ok() && v.free != [] && |data| == ENTRIES && u < TRAPFRAME && flags < 1024 && IsValid(flags)
    requires MapsTo(Fresh(v, data), w, r, u, Pack(v.free[0], flags), v.free[0])
    ensures Extended(v, w, r, u, u + 1) && PageHas(w, r, u, flags, data)
  {
    var b, p := Fresh(v, data), v.free[0];
    FreshOk(v, data);
    PackUnpack(p, flags);
    forall q | q in v.owner && q in w.owner ensures Kept(v, w, r, u, u + 1, q) {
      if q != p { assert Kept(b, w, r, 0, 0, q); }
    }
    assert b.node == v.node;
    forall role | role in v.node ensures role in w.node && w.node[role] == v.node[role] { assert role in b.node; }
    forall r': nat, u': nat
      ensures if r' == r && u <= u' < u + 1 then w.Entry(r', u') != 0 else w.Entry(r', u') == v.Entry(r', u')
    {
      if r' != r || u' != u { assert w.Entry(r', u') == b.Entry(r', u') && b.Entry(r', u') == v.Entry(r', u'); }
    }
    assert w.Entry(r, u) == Pack(p, flags) && Flags(w.Entry(r, u)) == flags && Pte2Pa(w.Entry(r, u)) == p;
    assert p in w.mem && w.mem[p] == b.mem[p] == data;
  }

  /** A fresh page that could not be mapped and went back. */
  lemma FreshReturned(v: View, g: View, r: nat, data: Page)
    requires v.Ok() && g.Ok() && v.free != [] && |data| == ENTRIES && Grew(Fresh(v, data), g, r)
    ensures v.free[0] in g.mem && v.free[0] in g.owner && g.owner[v.free[0]].Kernel?
    ensures Grew(v, Freed(g, v.free[0]), r)
  {
    var b, p := Fresh(v, data), v.free[0];
    FreshOk(v, data);
    assert Kept(b, g, r, 0, 0, p);
    FreedOk(g, p);
    var w := Freed(g, p);
    forall q | q in v.owner && q in w.owner ensures Kept(v, w, r, 0, 0, q) {
      assert Kept(b, g, r, 0, 0, q);
    }
    forall r': nat, u: nat ensures w.Entry(r', u) == v.Entry(r', u) {
      assert w.Entry(r', u) == g.Entry(r', u) && g.Entry(r', u) == b.Entry(r', u);
    }
  }

  /** From v to w, table r loses the translations for m .. n, and the user pages they named
      are free; nothing else is touched. */
  ghost predicate Shrunk(v: View, w: View, r: nat, m: nat, n: nat) {
    && w.owner.Keys == v.owner.Keys && w.node == v.node
    && (forall p {:trigger Lost(v, w, r, m, n, p)} :: p in v.owner && p in w.owner ==> Lost(v, w, r, m, n, p))
    && (forall r': nat, u: nat {:trigger w.Entry(r', u)} ::
          w.Entry(r', u) == if r' == r && m <= u < n then 0 else v.Entry(r', u))
  }

  ghost predicate Lost(v: View, w: View, r: nat, m: nat, n: nat, p: nat)
    requires p in v.owner && p in w.owner
  {
    var o := v.owner[p];
    if o.Leaf? && o.root == r && m <= o.vpn < n then w.owner[p].Free?
    else w.owner[p] == o && ((o.Node? && o.root == r) || o.Free? || SamePage(v, w, p))
  }

  lemma ShrunkRefl(v: View, r: nat, m: nat)
    requires v.owner.Keys == v.mem.Keys
    ensures Shrunk(v, v, r, m, m)
  {
  }

  lemma ShrunkTrans(u: View, v: View, w: View, r: nat, a: nat, b: nat, c: nat)
    requires Shrunk(u, v, r, a, b) && Shrunk(v, w, r, b, c) && a <= b <= c
    ensures Shrunk(u, w, r, a, c)
  {
    forall p | p in u.owner && p in w.owner ensures Lost(u, w, r, a, c, p) {
      assert Lost(u, v, r, a, b, p) && Lost(v, w, r, b, c, p);
    }
    forall r': nat, n: nat
      ensures w.Entry(r', n) == if r' == r && a <= n < c then 0 else u.Entry(r', n)
    {
      var e := v.Entry(r', n);
    }
  }

  /** Rolling an extension back leaves at most some new tables. */
  lemma ExtendThenShrink(u: View, v: View, w: View, r: nat, m: nat, n: nat)
    requires u.Ok() && Extended(u, v, r, m, n) && Shrunk(v, w, r, m, n) && v.owner.Keys == v.mem.Keys
    requires forall i :: m <= i < n ==> u.Entry(r, i) == 0
    ensures Grew(u, w, r)
  {
    forall p | p in u.owner && p in w.owner ensures Kept(u, w, r, 0, 0, p) {
      assert Kept(u, v, r, m, n, p) && Lost(v, w, r, m, n, p) && u.PageOk(p);
    }
    forall r': nat, i: nat ensures w.Entry(r', i) == u.Entry(r', i) {
      var e := v.Entry(r', i);
    }
  }

  /** Clearing an entry that maps no user page, such as the trampoline's. */
  lemma UnmappedFixed(v: View, r: nat, u: nat)
    requires v.Ok() && HasTable(v, r, u) && TRAPFRAME <= u
    ensures var w := EntrySet(v, r, u, 0, 0, Kernel); w.Ok() && Shrunk(v, w, r, u, u + 1)
  {
    var w := EntrySet(v, r, u, 0, 0, Kernel);
    EntrySetOk(v, r, u, 0, 0, Kernel);
    EntrySetEntries(v, r, u, 0, 0, Kernel);
    assert v.RoleOk(Node(r, 0, u / ENTRIES));
    forall q | q in v.owner && q in w.owner ensures Lost(v, w, r, u, u + 1, q) {
      assert v.PageOk(q);
    }
  }

  lemma Unmapped(v: View, r: nat, u: nat)
    requires v.Ok() && HasTable(v, r, u) && u < TRAPFRAME && v.Entry(r, u) != 0
    ensures var p := Pte2Pa(v.Entry(r, u));
            && CanSet(v, r, u, 0, p, Kernel)
            && p in v.mem && p in v.owner && v.owner[p] == Leaf(r, u) && p % PGSIZE == 0 && v.lo <= p < v.hi
            && p != v.node[Node(r, 0, u / ENTRIES)]
            && var w := Freed(EntrySet(v, r, u, 0, p, Kernel), p);
               w.Ok() && Shrunk(v, w, r, u, u + 1)
  {
    var x, p := Node(r, 0, u / ENTRIES), Pte2Pa(v.Entry(r, u));
    assert v.RoleOk(x) && v.EntryOk(x, u % ENTRIES) && x.prefix * ENTRIES + u % ENTRIES == u && v.PageOk(p);
    var s := EntrySet(v, r, u, 0, p, Kernel);
    EntrySetOk(v, r, u, 0, p, Kernel);
    EntrySetEntries(v, r, u, 0, p, Kernel);
    FreedOk(s, p);
    var w := Freed(s, p);
    forall q | q in v.owner && q in w.owner ensures Lost(v, w, r, u, u + 1, q) {
      assert v.PageOk(q);
    }
    forall r': nat, i: nat ensures w.Entry(r', i) == if r' == r && u <= i < u + 1 then 0 else v.Entry(r', i) {
      assert w.Entry(r', i) == s.Entry(r', i);
    }
  }

  /** Table r's user translations are exactly the page numbers below n. */
  ghost predicate UserSized(v: View, r: nat, n: nat) {
    n <= TRAPFRAME && forall u: nat {:trigger v.Entry(r, u)} :: u < TRAPFRAME ==> (v.Entry(r, u) != 0 <==> u < n)
  }

  ghost function LeafPages(v: View, r: nat, n: nat): (s: set<nat>)
    requires forall u: nat {:trigger v.Entry(r, u)} :: u < n ==> v.Entry(r, u) != 0
  {
    set u: nat | u < n :: Pte2Pa(v.Entry(r, u))
  }

  /** A table cannot map more user pages than there are pages. */
  lemma {:induction false} LeavesBound(v: View, r: nat, n: nat)
    requires v.Ok() && n <= TRAPFRAME && forall u: nat {:trigger v.Entry(r, u)} :: u < n ==> v.Entry(r, u) != 0
    ensures n <= |v.owner|
  {
    LeavesCount(v, r, n);
    var s := LeafPages(v, r, n);
    forall p | p in s ensures p in v.owner.Keys {
      var u: nat :| u < n && p == Pte2Pa(v.Entry(r, u));
      LeafOwned(v, r, u);
    }
    Counting.SubsetSize(s, v.owner.Keys);
  }

  lemma LeafOwned(v: View, r: nat, u: nat)
    requires v.Ok() && u < TRAPFRAME && v.Entry(r, u) != 0
    ensures var p := Pte2Pa(v.Entry(r, u)); p in v.mem && p in v.owner && v.owner[p] == Leaf(r, u)
    ensures HasTable(v, r, u) && IsValid(v.Entry(r, u)) && HasRwx(v.Entry(r, u))
  {
    var x := Node(r, 0, u / ENTRIES);
    assert v.RoleOk(x) && v.PageOk(v.node[x]) && v.EntryOk(x, u % ENTRIES);
    assert x.prefix * ENTRIES + u % ENTRIES == u;
  }

  lemma {:induction false} LeavesCount(v: View, r: nat, n: nat)
    requires v.Ok() && n <= TRAPFRAME && forall u: nat {:trigger v.Entry(r, u)} :: u < n ==> v.Entry(r, u) != 0
    ensures |LeafPages(v, r, n)| == n
  {
    if n > 0 {
      LeavesCount(v, r, n - 1);
      var p := Pte2Pa(v.Entry(r, n - 1));
      forall u: nat | u < n - 1 ensures Pte2Pa(v.Entry(r, u)) != p {
        LeafOwned(v, r, u);
        LeafOwned(v, r, n - 1);
      }
      assert LeafPages(v, r, n) == LeafPages(v, r, n - 1) + {p};
    }
  }

  // ----- taking a tree apart -----

  /** x is role's table or one below it. */
  ghost predicate Under(role: Owner, x: Owner)
    requires role.Node? && x.Node?
    decreases if x.level <= role.level then role.level - x.level else 0
  {
    x == role || (x.level < role.level && Under(role, Parent(x)))
  }

  /** The entry of role's table that leads down to x. */
  ghost function Branch(role: Owner, x: Owner): (i: nat)
    requires role.Node? && x.Node? && x.level < role.level
    ensures i < ENTRIES
    decreases role.level - x.level
  {
    if x.level + 1 == role.level then x.prefix % ENTRIES else Branch(role, Parent(x))
  }

  lemma {:induction false} UnderChild(role: Owner, i: nat, x: Owner)
    requires role.Node? && x.Node? && 0 < role.level && i < ENTRIES && x.level < role.level
    ensures Under(Child(role, i), x) <==> Under(role, x) && Branch(role, x) == i
    decreases role.level - x.level
  {
    if x.level + 1 == role.level {
      assert Under(role, x) <==> Parent(x) == role;
    } else {
      UnderChild(role, i, Parent(x));
    }
  }

  /** From v to w, some tables left the tree of root r and became free; nothing else is touched. */
  ghost predicate Pruned(v: View, w: View, r: nat) {
    && w.owner.Keys == v.owner.Keys
    && (forall x {:trigger x in w.node} :: x in w.node ==> x in v.node && w.node[x] == v.node[x])
    && (forall p {:trigger Shed(v, w, r, p)} :: p in v.owner && p in w.owner ==> Shed(v, w, r, p))
    && SameEntries(v, w)
  }

  ghost predicate Shed(v: View, w: View, r: nat, p: nat)
    requires p in v.owner && p in w.owner
  {
    var o := v.owner[p];
    if o.Node? && o !in w.node then w.owner[p].Free?
    else w.owner[p] == o && ((o.Node? && o.root == r) || o.Free? || SamePage(v, w, p))
  }

  lemma PrunedRefl(v: View, r: nat)
    requires v.Ok()
    ensures Pruned(v, v, r)
  {
    forall p | p in v.owner ensures Shed(v, v, r, p) {
      assert v.PageOk(p);
    }
  }

  lemma PrunedTrans(u: View, v: View, w: View, r: nat)
    requires Pruned(u, v, r) && Pruned(v, w, r)
    ensures Pruned(u, w, r)
  {
    forall p | p in u.owner && p in w.owner ensures Shed(u, w, r, p) {
      assert Shed(u, v, r, p) && Shed(v, w, r, p);
    }
    forall r': nat, n: nat ensures w.Entry(r', n) == u.Entry(r', n) {
      assert w.Entry(r', n) == v.Entry(r', n) && v.Entry(r', n) == u.Entry(r', n);
    }
  }

  /** An empty table detached and freed. */
  lemma PruneOne(v: View, role: Owner)
    requires v.Ok() && IsEmpty(v, role)
    ensures v.node[role] in v.mem && v.node[role] in v.owner
    ensures v.node[role] % PGSIZE == 0 && v.lo <= v.node[role] < v.hi
    ensures role.level < ROOTLEVEL ==> Parent(role) in v.node && v.node[Parent(role)] in v.mem &&
                                       |v.mem[v.node[Parent(role)]]| == ENTRIES && v.node[Parent(role)] != v.node[role]
    ensures var w := Freed(Detached(v, role), v.node[role]);
            w.Ok() && Pruned(v, w, role.root) && w.node == v.node - {role}
  {
    DetachedOk(v, role);
    var d, p := Detached(v, role), v.node[role];
    assert v.RoleOk(role) && v.PageOk(p);
    FreedOk(d, p);
    var w := Freed(d, p);
    forall q | q in v.owner && q in w.owner ensures Shed(v, w, role.root, q) {
      assert v.PageOk(q);
      if role.level < ROOTLEVEL { assert v.RoleOk(Parent(role)); }
    }
    forall r: nat, n: nat ensures w.Entry(r, n) == v.Entry(r, n) {
      assert w.Entry(r, n) == d.Entry(r, n) && d.Entry(r, n) == v.Entry(r, n);
    }
  }

  ghost predicate OfRoot(o: Owner, r: nat) { (o.Node? || o.Leaf?) && o.root == r }

  /** From v to w, every page of table r became free; nothing else is touched. */
  ghost predicate Reclaimed(v: View, w: View, r: nat) {
    && w.owner.Keys == v.owner.Keys
    && (forall p {:trigger Returned(v, w, r, p)} :: p in v.owner && p in w.owner ==> Returned(v, w, r, p))
    && (forall x {:trigger x in w.node} :: x in v.node ==> x.Node? && (x in w.node <==> x.root != r))
    && (forall r': nat, u: nat {:trigger w.Entry(r', u)} :: w.Entry(r', u) == if r' == r then 0 else v.Entry(r', u))
  }

  ghost predicate Returned(v: View, w: View, r: nat, p: nat)
    requires p in v.owner && p in w.owner
  {
    var o := v.owner[p];
    if OfRoot(o, r) then w.owner[p].Free?
    else w.owner[p] == o && (o.Free? || SamePage(v, w, p))
  }

  /** All of table r's tables hang from its root. */
  lemma {:induction false} UnderRoot(v: View, x: Owner)
    requires v.Ok() && x in v.node
    ensures x.Node? && Under(Node(x.root, ROOTLEVEL, 0), x)
    decreases if x.Node? then ROOTLEVEL - x.level else 0
  {
    assert v.RoleOk(x);
    if x.level < ROOTLEVEL { UnderRoot(v, Parent(x)); }
  }

  lemma {:induction false} UnderSameRoot(role: Owner, x: Owner)
    requires role.Node? && x.Node? && Under(role, x)
    ensures x.root == role.root
    decreases if x.level <= role.level then role.level - x.level else 0
  {
    if x != role { UnderSameRoot(role, Parent(x)); }
  }

  /** Unmapping all of r's user pages and then pruning its whole tree reclaims r. */
  lemma ReclaimedBy(v: View, w: View, z: View, r: nat, n: nat)
    requires v.Ok() && w.Ok() && z.Ok() && n <= TRAPFRAME && Shrunk(v, w, r, 0, n) && Pruned(w, z, r)
    requires forall u: nat {:trigger w.Entry(r, u)} :: w.Entry(r, u) == 0
    requires forall x {:trigger x in z.node} :: x in w.node ==> x.Node? && (x in z.node <==> !Under(Node(r, ROOTLEVEL, 0), x))
    ensures Reclaimed(v, z, r)
  {
    forall x | x in v.node ensures x.Node? && (x in z.node <==> x.root != r) {
      UnderRoot(w, x);
      if Under(Node(r, ROOTLEVEL, 0), x) { UnderSameRoot(Node(r, ROOTLEVEL, 0), x); }
    }
    forall p | p in v.owner && p in z.owner ensures Returned(v, z, r, p) {
      assert Lost(v, w, r, 0, n, p) && Shed(w, z, r, p) && v.PageOk(p) && w.PageOk(p);
      if v.owner[p].Leaf? && v.owner[p].root == r {
        assert v.Entry(r, v.owner[p].vpn) != 0;
        assert w.Entry(r, v.owner[p].vpn) == 0;
      }
    }
    forall r': nat, u: nat ensures z.Entry(r', u) == if r' == r then 0 else v.Entry(r', u) {
      assert z.Entry(r', u) == w.Entry(r', u);
    }
  }

  /** A new empty table on the first free page. */
  ghost function RootFresh(v: View): (w: View)
    requires v.free != []
  {
    RootAdded(Allocated(v), v.free[0])
  }

  lemma RootFreshOk(v: View)
    requires v.Ok() && v.free != []
    ensures var w, p := RootFresh(v), v.free[0];
            && w.Ok() && SameEntries(v, w) && w.owner.Keys == v.owner.Keys
            && p in v.owner && v.owner[p].Free? && p in w.mem
            && Node(p, ROOTLEVEL, 0) in w.node
            && forall u: nat {:trigger w.Entry(p, u)} :: w.Entry(p, u) == 0
  {
    AllocatedOk(v);
    var a, p := Allocated(v), v.free[0];
    RootAddedOk(a, p);
    var w := RootFresh(v);
    forall r: nat, u: nat ensures w.Entry(r, u) == v.Entry(r, u) && w.Entry(p, u) == 0 {
      assert w.Entry(r, u) == a.Entry(r, u) && a.Entry(r, u) == v.Entry(r, u);
      assert w.Entry(p, u) == a.Entry(p, u) && a.Entry(p, u) == 0;
    }
  }

  /** Every page in use has its contents. */
  ghost predicate SameContents(v: View, w: View) {
    forall p {:trigger SamePage(v, w, p)} :: p in v.owner && !v.owner[p].Free? ==> SamePage(v, w, p)
  }

  /** Building a table on a free page and taking it apart again leaves every page where it was. */
  lemma BuiltAndReclaimed(v: View, b: View, z: View)
    requires v.Ok() && v.free != [] && Grew(RootFresh(v), b, v.free[0]) && Reclaimed(b, z, v.free[0])
    ensures z.owner == v.owner && SameEntries(v, z) && SameContents(v, z)
  {
    var a, p := RootFresh(v), v.free[0];
    RootFreshOk(v);
    forall q | q in v.owner ensures z.owner[q] == v.owner[q] && (v.owner[q].Free? || SamePage(v, z, q)) {
      assert Kept(a, b, p, 0, 0, q) && Returned(b, z, p, q) && v.PageOk(q) && v.PageOk(p);
      NoneOf(v, p, q);
    }
    forall r: nat, u: nat ensures z.Entry(r, u) == v.Entry(r, u) {
      assert b.Entry(r, u) == a.Entry(r, u) && a.Entry(r, u) == v.Entry(r, u);
      assert a.Entry(p, u) == 0;
    }
  }

  /** No page belongs to a root that is not a table. */
  lemma NoneOf(v: View, r: nat, q: nat)
    requires v.Ok() && r in v.owner && !v.owner[r].Node? && q in v.owner
    ensures !OfRoot(v.owner[q], r) && forall u: nat {:trigger v.Entry(r, u)} :: v.Entry(r, u) == 0
  {
    NoRoles(v, r);
    assert v.PageOk(q);
  }

  lemma ShrunkReclaimed(v: View, w: View, z: View, r: nat, u: nat)
    requires v.Ok() && Shrunk(v, w, r, u, u + 1) && TRAPFRAME <= u && Reclaimed(w, z, r)
    ensures Reclaimed(v, z, r)
  {
    forall p | p in v.owner && p in z.owner ensures Returned(v, z, r, p) {
      assert Lost(v, w, r, u, u + 1, p) && Returned(w, z, r, p) && v.PageOk(p);
    }
    forall x | x in v.node ensures x.Node? && (x in z.node <==> x.root != r) {
      assert x in w.node && (x in z.node || x !in z.node);
    }
    forall r': nat, n: nat ensures z.Entry(r', n) == if r' == r then 0 else v.Entry(r', n) {
      assert w.Entry(r', n) == v.Entry(r', n) || r' == r;
    }
  }

  /** A process's table: n user pages, the trapframe, the trampoline, and nothing else. */
  ghost predicate ProcTable(v: View, r: nat, n: nat) {
    && UserSized(v, r, n)
    && v.Entry(r, TRAMPOLINE) != 0 && v.Entry(r, TRAPFRAME) != 0
    && forall u: nat {:trigger v.Entry(r, u)} :: MAXVPN <= u ==> v.Entry(r, u) == 0
  }
}
