/** kernel/kalloc.c and kernel/vm.c in place, proved against the views of PageTable. */
module Vm {
  import opened PageTable

  class Vm {
    const lo: nat                  // end, rounded up
    const hi: nat                  // PHYSTOP
    var mem: map<nat, Page>
    var freelist: nat
    ghost var view: Sound

    ghost predicate Valid()
      reads this
    {
      view.mem == mem && view.head == freelist && view.lo == lo && view.hi == hi
    }

    /** kinit: every page of ram is freed in turn. */
    constructor (lo: nat, hi: nat, ram: map<nat, Page>)
      requires 0 < lo <= hi && lo % PGSIZE == 0 && hi % PGSIZE == 0
      requires forall p :: p in ram <==> lo <= p < hi && p % PGSIZE == 0
      requires forall p :: p in ram ==> |ram[p]| == ENTRIES
      ensures Valid() && view.node == map[] && view.owner.Keys == ram.Keys
      ensures forall p :: p in view.owner ==> view.owner[p].Free?
    {
      this.lo, this.hi, mem, freelist := lo, hi, ram, 0;
      view := AllKernel(lo, hi, ram);
      new;
      Freerange();
    }

    /** freerange over all of memory. */
    method Freerange()
      requires Valid() && 0 < lo <= hi && lo % PGSIZE == 0 && hi % PGSIZE == 0 && view.node == map[]
      requires forall p :: p in view.owner <==> lo <= p < hi && p % PGSIZE == 0
      requires forall p :: p in view.owner ==> view.owner[p].Kernel?
      modifies `mem, `freelist, `view
      ensures Valid() && view.node == map[] && view.owner.Keys == old(view).owner.Keys
      ensures forall p :: p in view.owner ==> view.owner[p].Free?
    {
      ghost var pages := view.owner.Keys;
      var p := lo;
      while p + PGSIZE <= hi
        invariant lo <= p <= hi && p % PGSIZE == 0 && Valid()
        invariant view.node == map[] && view.owner.Keys == pages && BelowFree(view.owner, p)
      {
        FreeNext(p);
        p := p + PGSIZE;
      }
      NoneBetween(p, hi);
    }

    /** One turn of freerange. */
    method FreeNext(p: nat)
      requires Valid() && p in view.owner && view.node == map[] && BelowFree(view.owner, p)
      modifies `mem, `freelist, `view
      ensures Valid() && view.node == map[] && view.owner.Keys == old(view).owner.Keys && BelowFree(view.owner, p + PGSIZE)
      ensures (p + PGSIZE) % PGSIZE == 0
    {
      ghost var v: Sound := view;
      assert v.PageOk(p);
      ReturnPage(p);
      FreedBelow(v.owner, view.owner, p);
    }

    /** kfree; a misaligned or foreign address would panic. */
    method Kfree(pa: nat)
      requires pa % PGSIZE == 0 && lo <= pa < hi
      modifies `mem, `freelist
      ensures mem == old(mem)[pa := Stored(Fill(ONES), 0, old(freelist))] && freelist == pa
    {
      mem := mem[pa := Fill(ONES)];
      mem := mem[pa := Stored(mem[pa], 0, freelist)];
      freelist := pa;
    }

    /** kalloc: the first free page, or 0. */
    method Kalloc() returns (pa: nat)
      requires Valid()
      modifies `mem, `freelist, `view
      ensures Valid()
      ensures old(view).free == [] ==> pa == 0 && view == old(view)
      ensures old(view).free != [] ==> pa == old(view).free[0] && view == Allocated(old(view)) && pa != 0
    {
      pa := freelist;
      if view.free != [] {
        AllocatedOk(view);
      }
      if pa != 0 {
        freelist := mem[pa][0];
        mem := mem[pa := Fill(FIVES)];
        view := Allocated(view);
      }
    }

    /** walk's allocation of a missing table for entry i of a table; 0 when memory is out. */
    method NewTable(table: nat, i: nat, ghost role: Owner) returns (page: nat)
      requires Valid() && role in view.node && role.Node? && 0 < role.level <= ROOTLEVEL && i < ENTRIES
      requires view.node[role] == table && Child(role, i) !in view.node
      modifies `mem, `freelist, `view
      ensures Valid() && Grew(old(view), view, role.root)
      ensures page == 0 ==> view == old(view) && view.free == []
      ensures page != 0 ==>
        Child(role, i) in view.node && view.node[Child(role, i)] == page && Took(old(view), view, 0, {Child(role, i)})
    {
      if view.free != [] {
        GrewByNode(view, role, i);
      } else {
        ExtendedRefl(view, role.root, 0);
      }
      page := Kalloc();
      if page != 0 {
        mem := mem[page := Fill(0)];
        mem := mem[table := Stored(mem[table], i, Pack(page, PTE_V))];
        view := NodeAdded(view, role, i, page);
      }
    }

    /** walk: the table page and index of the level-0 entry for page number vpn. */
    method Walk(root: nat, vpn: nat, alloc: bool) returns (ok: bool, table: nat, i: nat)
      requires Valid() && Node(root, ROOTLEVEL, 0) in view.node && vpn < MAXVPN
      modifies `mem, `freelist, `view
      ensures Valid() && Grew(old(view), view, root) && (!alloc ==> view == old(view))
      ensures ok ==> HasTable(view, root, vpn) && table == view.node[Node(root, 0, vpn / ENTRIES)] && i == vpn % ENTRIES
      ensures ok ==> Took(old(view), view, 0, Tables(root, vpn, vpn + 1))
      ensures !ok ==> if alloc then |old(view).free| < |Missing(old(view), root, vpn, vpn + 1)| else !HasTable(view, root, vpn)
    {
      hide Walked, Took, Tables, Missing, Extended, Prefix, Px, View.Ok;
      ghost var v0: Sound := view;
      WalkBegins(v0, root, vpn);
      table := root;
      var level := ROOTLEVEL;
      while level > 0
        invariant 0 <= level <= ROOTLEVEL && Valid() && Walked(v0, view, root, level, vpn, table) && (!alloc ==> view == v0)
      {
        table := WalkDown(root, vpn, level, table, alloc, v0);
        if table == 0 {
          return false, 0, 0;
        }
        level := level - 1;
      }
      WalkEnds(v0, view, root, vpn, table);
      i := Px(0, vpn);
      return true, table, i;
    }

    /** One turn of walk's loop: the table below, or 0. */
    method WalkDown(root: nat, vpn: nat, level: nat, table: nat, alloc: bool, ghost v0: Sound) returns (next: nat)
      requires Valid() && 0 < level <= ROOTLEVEL && Walked(v0, view, root, level, vpn, table)
      modifies `mem, `freelist, `view
      ensures Valid() && (!alloc ==> view == old(view))
      ensures next != 0 ==> Walked(v0, view, root, level - 1, vpn, next)
      ensures next == 0 ==>
        && Grew(v0, view, root)
        && if alloc then |v0.free| < |Missing(v0, root, vpn, vpn + 1)| else !HasTable(view, root, vpn)
    {
      hide Took, Tables, Missing, Extended, Prefix, Px, Path, Pack, View.Ok;
      ghost var v: Sound := view;
      ghost var role := Node(root, level, Prefix(level, vpn));
      Descend(v, root, level, vpn);
      var pte := mem[table][Px(level, vpn)];
      if IsValid(pte) {
        next := Pte2Pa(pte);
        WalkFound(v0, v, root, level, vpn);
      } else {
        if !alloc {
          return 0;
        }
        next := NewTable(table, Px(level, vpn), role);
        if next == 0 {
          WalkStopped(v0, v, root, level, vpn);
        } else {
          WalkMade(v0, v, view, root, level, vpn);
          ExtendedTrans(v0, v, view, root, 0, 0, 0);
        }
      }
    }

    ghost predicate HasRoot(root: nat)
      reads this
    {
      Node(root, ROOTLEVEL, 0) in view.node
    }

    /** One turn of mappages' loop; false when walk could not allocate a table. */
    method MapOne(root: nat, vpn: nat, pa: nat, perm: nat) returns (ok: bool)
      requires Valid() && HasRoot(root) && vpn < MAXVPN && view.Entry(root, vpn) == 0
      requires pa % PGSIZE == 0 && perm < 1024 && HasRwx(perm)
      requires vpn < TRAPFRAME ==> pa in view.owner && view.owner[pa].Kernel?
      modifies `mem, `freelist, `view
      ensures Valid()
      ensures !ok ==> Grew(old(view), view, root) && |old(view).free| < |Missing(old(view), root, vpn, vpn + 1)|
      ensures ok ==> MapsTo(old(view), view, root, vpn, Pack(pa, OrValid(perm)), pa)
      ensures ok ==> Took(old(view), view, 0, Tables(root, vpn, vpn + 1))
    {
      hide MapsTo, Tables, Took, Missing, Extended, View.Ok;
      ghost var v: Sound := view;
      var found, table, i := Walk(root, vpn, true);
      if !found {
        return false;
      }
      ghost var g: Sound := view;
      ghost var e := Pack(pa, OrValid(perm));
      MapReady(v, g, root, vpn, pa, perm);
      assert !IsValid(mem[table][i]);
      mem := mem[table := Stored(mem[table], i, Pack(pa, OrValid(perm)))];
      view := EntrySet(view, root, vpn, e, pa, Leaf(root, vpn));
      TookAlready(v, g, view, Tables(root, vpn, vpn + 1));
      return true;
    }

    /** mappages: page numbers vpn .. vpn+n to consecutive pages from pa; the first `done` of
        them when the tables still missing outnumber the free pages.  Every other translation,
        page and table is unchanged. */
    method Mappages(root: nat, vpn: nat, n: nat, pa: nat, perm: nat) returns (ok: bool, done: nat)
      requires Valid() && HasRoot(root) && 0 < n && vpn + n <= MAXVPN
      requires forall u: nat {:trigger view.Entry(root, u)} :: vpn <= u < vpn + n ==> view.Entry(root, u) == 0
      requires pa % PGSIZE == 0 && perm < 1024 && HasRwx(perm)
      requires forall k {:trigger Nth(pa, k)} :: 0 <= k < n && vpn + k < TRAPFRAME ==> IsKernel(view, Nth(pa, k))
      modifies `mem, `freelist, `view
      ensures Valid() && done <= n && (ok <==> done == n)
      ensures ok <==> |old(view).free| >= |Missing(old(view), root, vpn, vpn + n)|
      ensures Ranged(old(view), view, root, vpn, done, pa, OrValid(perm))
      ensures ok ==> Took(old(view), view, 0, Tables(root, vpn, vpn + n))
    {
      ghost var v: Sound := view;
      RangeBegun(v, root, vpn, n, pa, OrValid(perm));
      hide RangeDone, Tables, Took, Missing, Ranged, IsKernel, Nth, View.Ok, View.Entry;
      done := MapLoop(root, vpn, n, pa, perm, v);
      ok := done == n;
      if ok {
        RangeEnded(v, view, root, vpn, n, pa, OrValid(perm));
      }
    }

    /** The loop of mappages: how many pages it maps. */
    method MapLoop(root: nat, vpn: nat, n: nat, pa: nat, perm: nat, ghost v: View) returns (k: nat)
      requires Valid() && vpn + n <= MAXVPN && pa % PGSIZE == 0 && perm < 1024 && HasRwx(perm)
      requires RangeDone(v, view, root, vpn, 0, n, pa, OrValid(perm))
      modifies `mem, `freelist, `view
      ensures Valid() && k <= n
      ensures if k == n then RangeDone(v, view, root, vpn, n, n, pa, OrValid(perm))
              else Ranged(v, view, root, vpn, k, pa, OrValid(perm)) && |v.free| < |Missing(v, root, vpn, vpn + n)|
    {
      hide RangeDone, Missing, Ranged, View.Ok, View.Entry;
      k := 0;
      while k < n
        invariant 0 <= k <= n && Valid() && RangeDone(v, view, root, vpn, k, n, pa, OrValid(perm))
      {
        var ok := MapTurn(root, vpn, k, n, pa, perm, v);
        if !ok {
          return;
        }
        k := k + 1;
      }
    }

    /** Turn k of mappages' loop. */
    method MapTurn(root: nat, vpn: nat, k: nat, ghost n: nat, pa: nat, perm: nat, ghost v: View) returns (ok: bool)
      requires Valid() && k < n && vpn + n <= MAXVPN && pa % PGSIZE == 0 && perm < 1024 && HasRwx(perm)
      requires RangeDone(v, view, root, vpn, k, n, pa, OrValid(perm))
      modifies `mem, `freelist, `view
      ensures Valid()
      ensures ok ==> RangeDone(v, view, root, vpn, k + 1, n, pa, OrValid(perm))
      ensures !ok ==> Ranged(v, view, root, vpn, k, pa, OrValid(perm)) && |v.free| < |Missing(v, root, vpn, vpn + n)|
    {
      hide RangeDone, Tables, MapsTo, Took, Missing, Ranged, Extended, Nth, View.Ok, View.Entry;
      ghost var w: Sound := view;
      RangeNext(v, w, root, vpn, k, n, pa, OrValid(perm));
      ok := MapOne(root, vpn + k, Nth(pa, k), perm);
      if ok {
        RangeStep(v, w, view, root, vpn, k, n, pa, OrValid(perm));
      } else {
        RangedGrew(v, w, view, root, vpn, k, pa, OrValid(perm));
        TablesShort(v, w, root, vpn, vpn + k, vpn + n, 0, 0);
      }
    }

    /** The body of the loops of uvmalloc and uvmcopy: a new page with the given contents at
        page number vpn; on failure the page is returned. */
    method MapFresh(root: nat, vpn: nat, data: Page, perm: nat) returns (ok: bool)
      requires Valid() && HasRoot(root) && vpn < TRAPFRAME && view.Entry(root, vpn) == 0
      requires |data| == ENTRIES && perm < 1024 && HasRwx(perm)
      modifies `mem, `freelist, `view
      ensures Valid()
      ensures !ok ==> Grew(old(view), view, root) && |old(view).free| < Need(old(view), root, vpn, vpn + 1)
      ensures ok ==> Extended(old(view), view, root, vpn, vpn + 1) && PageHas(view, root, vpn, OrValid(perm), data)
      ensures ok ==> Paid(old(view), view, root, vpn, vpn + 1)
    {
      ghost var v: Sound := view;
      var page := KallocFilled(data);
      if page == 0 {
        ExtendedRefl(v, root, 0);
        return false;
      }
      FreshReady(v, root, vpn, data);
      ok := MapOrReturn(root, vpn, page, data, perm, v);
    }

    method MapOrReturn(root: nat, vpn: nat, page: nat, ghost data: Page, perm: nat, ghost v: View) returns (ok: bool)
      requires Valid() && HasRoot(root) && vpn < TRAPFRAME && view.Entry(root, vpn) == 0
      requires |data| == ENTRIES && perm < 1024 && HasRwx(perm)
      requires v.Ok() && v.free != [] && page == v.free[0] && view == Fresh(v, data) && page % PGSIZE == 0 && IsKernel(view, page)
      modifies `mem, `freelist, `view
      ensures Valid()
      ensures !ok ==> Grew(v, view, root) && |v.free| < Need(v, root, vpn, vpn + 1)
      ensures ok ==> Extended(v, view, root, vpn, vpn + 1) && PageHas(view, root, vpn, OrValid(perm), data)
      ensures ok ==> Paid(v, view, root, vpn, vpn + 1)
    {
      hide Fresh, PageHas, MapsTo, Extended, Pack, Tables, Took, Paid, Missing, Need, Ranged, View.Ok, View.Entry;
      ghost var b := view;
      var done;
      ok, done := Mappages(root, vpn, 1, page, perm);
      if ok {
        RangedOne(b, view, root, vpn, page, OrValid(perm));
        PaidFresh(v, view, root, vpn, data);
        FreshMapped(v, view, root, vpn, OrValid(perm), data);
      } else {
        RangedNone(b, view, root, vpn, page, OrValid(perm));
        FreshShort(v, root, vpn, data);
        FreshReturned(v, view, root, data);
        ReturnPage(page);
      }
    }

    /** kalloc, then memset or memmove into the page. */
    method KallocFilled(data: Page) returns (page: nat)
      requires Valid() && |data| == ENTRIES
      modifies `mem, `freelist, `view
      ensures Valid()
      ensures page == 0 ==> view == old(view) && view.free == []
      ensures page != 0 ==> old(view).free != [] && page == old(view).free[0] && view == Fresh(old(view), data)
    {
      if view.free != [] { FreshOk(view, data); }
      page := Kalloc();
      if page != 0 {
        mem := mem[page := data];
        view := Filled(view, page, data);
      }
    }

    /** kfree of a page that is in no table. */
    method ReturnPage(page: nat)
      requires Valid() && page in view.mem && page in view.owner && view.owner[page].Kernel?
      modifies `mem, `freelist, `view
      ensures Valid() && view == Freed(old(view), page)
    {
      FreedOk(view, page);
      Kfree(page);
      view := Freed(view, page);
    }

    /** One turn of uvmunmap's loop; only user pages are freed. */
    method UnmapOne(root: nat, vpn: nat, doFree: bool)
      requires Valid() && HasRoot(root) && vpn < MAXVPN && view.Entry(root, vpn) != 0 && doFree == (vpn < TRAPFRAME)
      modifies `mem, `freelist, `view
      ensures Valid() && Shrunk(old(view), view, root, vpn, vpn + 1)
    {
      EntryShape(view, root, vpn);
      hide Shrunk, Extended, Took, Tables, Missing, View.Ok;
      var found, table, i := Walk(root, vpn, false);
      ghost var e := view.Entry(root, vpn);
      assert mem[table][i] == e;
      FlagsOf(e);
      if doFree {
        Unmapped(view, root, vpn);
        Kfree(Pte2Pa(mem[table][i]));
        mem := mem[table := Stored(mem[table], i, 0)];
        view := Freed(EntrySet(view, root, vpn, 0, Pte2Pa(e), Kernel), Pte2Pa(e));
      } else {
        UnmappedFixed(view, root, vpn);
        mem := mem[table := Stored(mem[table], i, 0)];
        view := EntrySet(view, root, vpn, 0, 0, Kernel);
      }
    }

    /** uvmunmap with do_free: the user pages m .. n lose their translation and are freed. */
    method Uvmunmap(root: nat, m: nat, n: nat)
      requires Valid() && HasRoot(root) && m <= n <= TRAPFRAME
      requires forall u: nat {:trigger view.Entry(root, u)} :: m <= u < n ==> view.Entry(root, u) != 0
      modifies `mem, `freelist, `view
      ensures Valid() && Shrunk(old(view), view, root, m, n)
    {
      ghost var v: Sound := view;
      ShrunkRefl(v, root, m);
      var u := m;
      while u < n
        invariant m <= u <= n && Valid() && HasRoot(root)
        invariant Shrunk(v, view, root, m, u)
      {
        ghost var w: Sound := view;
        assert view.Entry(root, u) == v.Entry(root, u);
        UnmapOne(root, u, true);
        ShrunkTrans(v, w, view, root, m, u, u + 1);
        u := u + 1;
      }
    }

    /** uvmdealloc: the user pages beyond newsz are unmapped and freed. */
    method Uvmdealloc(root: nat, oldsz: nat, newsz: nat) returns (sz: nat)
      requires Valid() && HasRoot(root) && Pages(oldsz) <= TRAPFRAME
      requires forall u: nat {:trigger view.Entry(root, u)} :: Pages(newsz) <= u < Pages(oldsz) ==> view.Entry(root, u) != 0
      modifies `mem, `freelist, `view
      ensures Valid() && sz == if newsz < oldsz then newsz else oldsz
      ensures newsz < oldsz ==> Shrunk(old(view), view, root, Pages(newsz), Pages(oldsz))
      ensures newsz >= oldsz ==> view == old(view)
      ensures UserSized(old(view), root, Pages(oldsz)) ==> UserSized(view, root, Pages(sz))
    {
      if newsz >= oldsz {
        return oldsz;
      }
      ghost var v: Sound := view;
      PagesMonotone(newsz, oldsz);
      if Pages(newsz) < Pages(oldsz) {
        Uvmunmap(root, Pages(newsz), Pages(oldsz));
      } else {
        ShrunkRefl(view, root, Pages(newsz));
      }
      if UserSized(v, root, Pages(oldsz)) { SizedBelow(v, view, root, Pages(newsz), Pages(oldsz)); }
      return newsz;
    }

    /** uvmalloc's error exits: undo everything mapped from page number m up to n. */
    method RollBack(root: nat, m: nat, n: nat, ghost v: View)
      requires Valid() && HasRoot(root) && v.Ok() && m <= n <= TRAPFRAME
      requires UserSized(v, root, m) && Extended(v, view, root, m, n)
      modifies `mem, `freelist, `view
      ensures Valid() && Grew(v, view, root)
    {
      ghost var x: Sound := view;
      assert Pages(m * PGSIZE) == m && Pages(n * PGSIZE) == n;
      var _ := Uvmdealloc(root, n * PGSIZE, m * PGSIZE);
      if m < n {
        forall i: nat | m <= i < n ensures v.Entry(root, i) == 0 {
        }
        ExtendThenShrink(v, x, view, root, m, n);
      } else {
        GrewExtends(v, view, root, m);
      }
    }

    /** One page more, or everything from m on undone. */
    method GrowStep(root: nat, m: nat, n: nat, data: Page, perm: nat, ghost k: nat, ghost v: View) returns (ok: bool)
      requires Valid() && HasRoot(root) && v.Ok() && m <= n < TRAPFRAME && n < k && view.Entry(root, n) == 0
      requires UserSized(v, root, m) && Extended(v, view, root, m, n) && Paid(v, view, root, m, n)
      requires |data| == ENTRIES && perm < 1024 && HasRwx(perm)
      modifies `mem, `freelist, `view
      ensures Valid()
      ensures ok ==> Extended(old(view), view, root, n, n + 1) && Extended(v, view, root, m, n + 1)
      ensures ok ==> PageHas(view, root, n, OrValid(perm), data) && Paid(v, view, root, m, n + 1)
      ensures !ok ==> Grew(v, view, root) && |v.free| < Need(v, root, m, k)
    {
      hide Paid, Need, Extended, UserSized, PageHas, View.Ok, View.Entry;
      ghost var w: Sound := view;
      ok := MapFresh(root, n, data, perm);
      if ok {
        PaidStep(v, w, view, root, m, n);
        ExtendedTrans(v, w, view, root, m, n, n + 1);
      } else {
        PaidShort(v, w, root, m, n, k);
        RootKept(w, view, root, 0, 0, root);
        GrewExtends(w, view, root, n);
        ExtendedTrans(v, w, view, root, m, n, n);
        RollBack(root, m, n, v);
      }
    }

    /** The loop of uvmalloc: zeroed pages at page numbers m .. k, or nothing. */
    method GrowPages(root: nat, m: nat, k: nat, perm: nat) returns (ok: bool)
      requires Valid() && HasRoot(root) && UserSized(view, root, m) && m <= k
      requires |view.owner| < TRAPFRAME && HasRwx(perm) && perm < 1024
      modifies `mem, `freelist, `view
      ensures Valid()
      ensures ok ==> Extended(old(view), view, root, m, k) && UserSized(view, root, k)
      ensures ok ==> AllHave(view, root, m, k, OrValid(perm), Fill(0)) && Paid(old(view), view, root, m, k)
      ensures !ok ==> m < k && Grew(old(view), view, root)
      ensures ok <==> |old(view).free| >= Need(old(view), root, m, k)
    {
      assert AllHave(view, root, m, m, OrValid(perm), Fill(0));
      ghost var v: Sound := view;
      ExtendedRefl(v, root, m);
      hide Paid, Need, Extended, AllHave, UserSized, View.Ok, View.Entry;
      var n := m;
      PaidNone(v, root, m);
      while n < k
        invariant m <= n <= k && n <= TRAPFRAME
        invariant Valid() && HasRoot(root) && Extended(v, view, root, m, n)
        invariant AllHave(view, root, m, n, OrValid(perm), Fill(0)) && Paid(v, view, root, m, n)
      {
        ghost var w: Sound := view;
        RoomBelow(v, w, root, m, n);
        ok := GrowStep(root, m, n, Fill(0), perm, k, v);
        if !ok {
          return;
        }
        RootKept(w, view, root, n, n + 1, root);
        AllKept(w, view, root, m, n, OrValid(perm), Fill(0));
        n := n + 1;
      }
      SizedAfter(v, view, root, m, n);
      PaidEnough(v, view, root, m, k);
      ok := true;
    }

    /** uvmalloc: grow to newsz with zeroed pages; or fail, exactly when the free pages are too few
        for the new pages and their missing tables, and leave every translation and every page as
        before, new tables apart. */
    method Uvmalloc(root: nat, oldsz: nat, newsz: nat, xperm: nat) returns (sz: nat)
      requires Valid() && HasRoot(root) && UserSized(view, root, Pages(oldsz))
      requires |view.owner| < TRAPFRAME && XPerm(xperm)
      modifies `mem, `freelist, `view
      ensures Valid()
      ensures newsz < oldsz ==> sz == oldsz && view == old(view)
      ensures newsz >= oldsz ==>
        (sz == newsz <==> |old(view).free| >= Need(old(view), root, Pages(oldsz), Pages(newsz)))
      ensures newsz >= oldsz && sz != newsz ==> sz == 0 && Grew(old(view), view, root)
      ensures newsz >= oldsz && sz == newsz ==>
        && Extended(old(view), view, root, Pages(oldsz), Pages(newsz))
        && Paid(old(view), view, root, Pages(oldsz), Pages(newsz))
        && UserSized(view, root, Pages(newsz))
        && AllHave(view, root, Pages(oldsz), Pages(newsz), OrValid(PTE_R + PTE_U + xperm), Fill(0))
    {
      if newsz < oldsz {
        return oldsz;
      }
      var ok := GrowPages(root, Pages(oldsz), Pages(newsz), PTE_R + PTE_U + xperm);
      return if ok then newsz else 0;
    }

    /** uvmcopy: the child table gets its own copy of every user page; or nothing, exactly when the
        free pages are too few for the copies and the child's missing tables. */
    method Uvmcopy(source: nat, root: nat, sz: nat) returns (ok: bool)
      requires Valid() && HasRoot(source) && HasRoot(root) && source != root
      requires UserSized(view, source, Pages(sz)) && UserSized(view, root, 0)
      modifies `mem, `freelist, `view
      ensures Valid()
      ensures ok ==> Extended(old(view), view, root, 0, Pages(sz)) && UserSized(view, root, Pages(sz))
      ensures ok ==> Copied(old(view), view, source, root, Pages(sz))
      ensures ok ==> Paid(old(view), view, root, 0, Pages(sz))
      ensures !ok ==> Grew(old(view), view, root)
      ensures ok <==> |old(view).free| >= Need(old(view), root, 0, Pages(sz))
    {
      ghost var v: Sound := view;
      assert Copied(v, v, source, root, 0);
      ExtendedRefl(v, root, 0);
      hide Pages, Paid, Need, Extended, Copied, UserSized, View.Ok, View.Entry;
      var n := 0;
      PaidNone(v, root, 0);
      PagesCovered(n, sz);
      while n * PGSIZE < sz
        invariant 0 <= n <= Pages(sz) && (n * PGSIZE < sz <==> n < Pages(sz))
        invariant Valid() && HasRoot(source) && HasRoot(root) && Extended(v, view, root, 0, n)
        invariant Copied(v, view, source, root, n) && Paid(v, view, root, 0, n)
        decreases Pages(sz) - n
      {
        ok := CopyStep(source, root, n, Pages(sz), v);
        if !ok {
          return;
        }
        n := n + 1;
        PagesCovered(n, sz);
      }
      SizedAfter(v, view, root, 0, n);
      PaidEnough(v, view, root, 0, n);
      ok := true;
    }

    /** One page more, or everything undone. */
    method CopyStep(source: nat, root: nat, n: nat, ghost size: nat, ghost v: Sound) returns (ok: bool)
      requires Valid() && HasRoot(source) && HasRoot(root) && source != root && n < size
      requires UserSized(v, source, size) && UserSized(v, root, 0)
      requires Extended(v, view, root, 0, n) && Copied(v, view, source, root, n) && Paid(v, view, root, 0, n)
      modifies `mem, `freelist, `view
      ensures Valid()
      ensures ok ==> HasRoot(source) && HasRoot(root) && Extended(v, view, root, 0, n + 1) && Copied(v, view, source, root, n + 1)
      ensures ok ==> Paid(v, view, root, 0, n + 1)
      ensures !ok ==> Grew(v, view, root) && |v.free| < Need(v, root, 0, size)
    {
      ghost var w: Sound := view;
      SourcePage(v, w, source, root, n, size);
      var _, table, i := Walk(source, n, false);
      var pte := mem[table][i];
      ok := GrowStep(root, 0, n, mem[Pte2Pa(pte)], Flags(pte), size, v);
      if ok {
        CopyKept(v, w, view, source, root, n);
      }
    }

    /** The word a table's parent still holds while freewalk of the table returns. */
    ghost function Stale(role: Owner, table: nat): (m: map<nat, Page>)
      reads this
      requires role.Node? && role.level < ROOTLEVEL ==>
                 Parent(role) in view.node && view.node[Parent(role)] in view.mem &&
                 |view.mem[view.node[Parent(role)]]| == ENTRIES
    {
      if role.Node? && role.level < ROOTLEVEL then
        var t := view.node[Parent(role)];
        view.mem[t := Stored(view.mem[t], role.prefix % ENTRIES, Pack(table, PTE_V))]
      else view.mem
    }

    /** freewalk: frees a table and all below it; the caller clears the entry that led there. */
    method Freewalk(table: nat, ghost role: Owner)
      requires Valid() && role in view.node && view.node[role] == table && role.Node? && role.level <= ROOTLEVEL
      requires forall u: nat {:trigger view.Entry(role.root, u)} :: view.Entry(role.root, u) == 0
      modifies `mem, `freelist, `view
      ensures Pruned(old(view), view, role.root) && view.head == freelist && view.lo == lo && view.hi == hi
      ensures forall x {:trigger x in view.node} :: x in old(view).node ==> x.Node? && (x in view.node <==> !Under(role, x))
      ensures role.level < ROOTLEVEL ==> Parent(role) in view.node && view.node[Parent(role)] in view.mem &&
                                         |view.mem[view.node[Parent(role)]]| == ENTRIES
      ensures mem == Stale(role, table)
      decreases role.level, 1
    {
      ghost var v: Sound := view;
      PrunedRefl(v, role.root);
      RolesAreNodes(v);
      var i := 0;
      while i < ENTRIES
        invariant 0 <= i <= ENTRIES
        invariant Valid() && Pruned(v, view, role.root) && role in view.node && view.node[role] == table
        invariant RemovedBelow(v, view, role, i)
      {
        FreeEntry(table, i, role, v);
        i := i + 1;
      }
      ghost var w: Sound := view;
      NothingLeft(v, w, role);
      FreeTable(table, role);
      PrunedTrans(v, w, view, role.root);
    }

    /** The kfree at the end of freewalk. */
    method FreeTable(table: nat, ghost role: Owner)
      requires Valid() && IsEmpty(view, role) && view.node[role] == table
      modifies `mem, `freelist, `view
      ensures Pruned(old(view), view, role.root) && view.head == freelist && view.lo == lo && view.hi == hi
      ensures view.node == old(view).node - {role}
      ensures role.level < ROOTLEVEL ==> Parent(role) in view.node && view.node[Parent(role)] in view.mem &&
                                         |view.mem[view.node[Parent(role)]]| == ENTRIES
      ensures mem == Stale(role, table)
    {
      PruneOne(view, role);
      StaleAfter(view, role);
      Kfree(table);
      view := Freed(Detached(view, role), table);
    }

    /** One turn of freewalk's loop. */
    method FreeEntry(table: nat, i: nat, ghost role: Owner, ghost v: View)
      requires Valid() && v.Ok() && role in view.node && view.node[role] == table && role.Node? && role.level <= ROOTLEVEL
      requires forall u: nat {:trigger v.Entry(role.root, u)} :: v.Entry(role.root, u) == 0
      requires i < ENTRIES && Pruned(v, view, role.root) && RemovedBelow(v, view, role, i)
      modifies `mem, `freelist, `view
      ensures Valid() && Pruned(v, view, role.root) && role in view.node && view.node[role] == table
      ensures RemovedBelow(v, view, role, i + 1)
      decreases role.level, 0
    {
      ghost var w: Sound := view;
      WalkStep(v, w, role, i);
      var pte := mem[table][i];
      if IsValid(pte) && !HasRwx(pte) {
        forall u: nat ensures w.Entry(role.root, u) == 0 {
          assert w.Entry(role.root, u) == v.Entry(role.root, u);
        }
        Freewalk(Pte2Pa(pte), Child(role, i));
        ChildCleared(w, view, role, i);
        ClearStale(view.mem, table, i, Pack(Pte2Pa(pte), PTE_V));
        mem := mem[table := Stored(mem[table], i, 0)];
        PrunedTrans(v, w, view, role.root);
        RemovedNext(v, w, view, role, i);
      } else {
        assert !IsValid(pte);     // the panic "freewalk: leaf" is not reached
      }
    }

    /** uvmfree: every page of the table, user page or table page, goes back to the free list. */
    method Uvmfree(root: nat, sz: nat)
      requires Valid() && HasRoot(root) && UserSized(view, root, Pages(sz))
      requires forall u: nat {:trigger view.Entry(root, u)} :: TRAPFRAME <= u ==> view.Entry(root, u) == 0
      modifies `mem, `freelist, `view
      ensures Valid() && Reclaimed(old(view), view, root)
    {
      ghost var v: Sound := view;
      ShrunkRefl(v, root, 0);
      if sz > 0 {
        Uvmunmap(root, 0, Pages(sz));
      }
      ghost var w: Sound := view;
      forall u: nat ensures w.Entry(root, u) == 0 {
        assert w.Entry(root, u) == if u < Pages(sz) then 0 else v.Entry(root, u);
      }
      assert w.RoleOk(Node(root, ROOTLEVEL, 0));
      Freewalk(root, Node(root, ROOTLEVEL, 0));
      ReclaimedBy(v, w, view, root, Pages(sz));
    }

    /** uvmcreate: an empty table, or 0. */
    method Uvmcreate() returns (root: nat)
      requires Valid()
      modifies `mem, `freelist, `view
      ensures Valid()
      ensures root == 0 ==> view == old(view) && view.free == []
      ensures root != 0 ==> old(view).free != [] && root == old(view).free[0] && view == RootFresh(old(view))
    {
      if view.free != [] {
        RootFreshOk(view);
      }
      root := Kalloc();
      if root != 0 {
        mem := mem[root := Fill(0)];
        view := RootAdded(view, root);
      }
    }

    /** proc_pagetable: a table with just the trampoline and the trapframe, from three free pages and
        beside every other table and page as it was; or 0, exactly when fewer than three pages are
        free, and every page back where it was. */
    method ProcPagetable(trapframe: nat, trampoline: nat) returns (root: nat)
      requires Valid() && trapframe % PGSIZE == 0 && trampoline % PGSIZE == 0
      modifies `mem, `freelist, `view
      ensures Valid()
      ensures root == 0 <==> |old(view).free| < 3
      ensures root == 0 ==> view.owner == old(view).owner && SameEntries(old(view), view) && SameContents(old(view), view)
      ensures root != 0 ==> NewProcTable(old(view), view, root, trapframe, trampoline)
    {
      hide NewProcTable, Extended, View.Ok, View.Entry;
      ghost var v: Sound := view;
      root := Uvmcreate();
      if root == 0 {
        SamePages(v);
        return;
      }
      RootFreshOk(v);
      TwoMissing(v);
      var ok := MapFixed(root, trapframe, trampoline, v);
      if !ok {
        Abandon(root, v);
        return 0;
      }
    }

    /** The two mappages of proc_pagetable.  The trampoline's tables serve the trapframe too, so the
        second one cannot fail. */
    method MapFixed(root: nat, trapframe: nat, trampoline: nat, ghost v: Sound) returns (ok: bool)
      requires Valid() && HasRoot(root) && trapframe % PGSIZE == 0 && trampoline % PGSIZE == 0
      requires v.free != [] && root == v.free[0] && view == RootFresh(v)
      modifies `mem, `freelist, `view
      ensures Valid() && (ok <==> |v.free| >= 3)
      ensures !ok ==> HasRoot(root) && Grew(RootFresh(v), view, root)
      ensures ok ==> NewProcTable(v, view, root, trapframe, trampoline)
    {
      hide NewProcTable, RootFresh, Extended, MapsTo, Tables, Took, Missing, View.Ok, View.Entry;
      RootFreshOk(v);
      TwoMissing(v);
      assert view.Entry(root, TRAMPOLINE) == 0;
      ok := MapAbove(root, TRAMPOLINE, trampoline, PTE_R + PTE_X);
      if !ok {
        return;
      }
      ghost var b: Sound := view;
      TrampolineMapped(v, b, trampoline);
      ok := MapAbove(root, TRAPFRAME, trapframe, PTE_R + PTE_W);
      if !ok {
        assert false;
      }
      ProcTableBuilt(v, b, view, trapframe, trampoline);
    }

    /** mappages of one page above user memory. */
    method MapAbove(root: nat, vpn: nat, pa: nat, perm: nat) returns (ok: bool)
      requires Valid() && HasRoot(root) && TRAPFRAME <= vpn < MAXVPN && view.Entry(root, vpn) == 0
      requires pa % PGSIZE == 0 && perm < 1024 && HasRwx(perm)
      modifies `mem, `freelist, `view
      ensures Valid() && HasRoot(root) && (ok <==> |old(view).free| >= |Missing(old(view), root, vpn, vpn + 1)|)
      ensures ok ==> MapsTo(old(view), view, root, vpn, Pack(pa, OrValid(perm)), pa) && Took(old(view), view, 0, Tables(root, vpn, vpn + 1))
      ensures !ok ==> Grew(old(view), view, root)
    {
      hide Extended, MapsTo, Ranged, Tables, Took, Missing, View.Ok, View.Entry;
      ghost var a: Sound := view;
      var done;
      ok, done := Mappages(root, vpn, 1, pa, perm);
      RangedRoot(a, view, root, vpn, done, pa, OrValid(perm));
      if ok {
        RangedOne(a, view, root, vpn, pa, OrValid(perm));
      } else {
        RangedNone(a, view, root, vpn, pa, OrValid(perm));
      }
    }

    /** The uvmfree of proc_pagetable's error exits. */
    method Abandon(root: nat, ghost v: View)
      requires Valid() && HasRoot(root) && v.Ok() && v.free != [] && root == v.free[0] && Grew(RootFresh(v), view, root)
      modifies `mem, `freelist, `view
      ensures Valid() && view.owner == v.owner && SameEntries(v, view) && SameContents(v, view)
    {
      RootFreshOk(v);
      ghost var b: Sound := view;
      EmptyTable(RootFresh(v), b, root);
      Uvmfree(root, 0);
      BuiltAndReclaimed(v, b, view);
    }

    /** The memory of allocproc: a trapframe page and a table that maps it; or nothing, exactly when
        fewer than four pages are free. */
    method Allocproc(trampoline: nat) returns (trapframe: nat, root: nat)
      requires Valid() && trampoline % PGSIZE == 0
      modifies `mem, `freelist, `view
      ensures Valid() && (root == 0 <==> |old(view).free| < 4)
      ensures root == 0 ==> view.owner == old(view).owner && SameEntries(old(view), view) && SameContents(old(view), view)
      ensures root != 0 ==>
        && HasRoot(root) && ProcTable(view, root, 0) && Private(old(view), view, root, trapframe)
        && view.Entry(root, TRAPFRAME) == Pack(trapframe, PTE_R + PTE_W + PTE_V) && |view.free| == |old(view).free| - 4
    {
      hide ProcTable, Private, Beside, View.Ok, View.Entry;
      ghost var v: Sound := view;
      trapframe := Kalloc();
      if trapframe == 0 {
        SamePages(v);
        return 0, 0;
      }
      FirstFree(v);
      root := ProcPagetable(trapframe, trampoline);
      if root == 0 {
        TakenAndReturned(v, view);
        ReturnPage(trapframe);
        return 0, 0;
      }
      PrivateMade(v, view, root);
    }

    /** The memory that freeproc gives back: the trapframe, and all of the table but trampoline and
        trapframe. */
    method Freeproc(trapframe: nat, root: nat, sz: nat, ghost v: Sound)
      requires Valid() && HasRoot(root) && ProcTable(view, root, Pages(sz)) && Private(v, view, root, trapframe)
      modifies `mem, `freelist, `view
      ensures Valid() && view.owner == v.owner && SameEntries(v, view) && SameContents(v, view)
    {
      ghost var w: Sound := view;
      TrapframeBack(w, root, Pages(sz), trapframe);
      hide ProcTable, Private, View.Ok, View.Entry;
      ReturnPage(trapframe);
      ProcFreepagetable(root, sz);
      PrivateFreed(v, w, view, root, trapframe);
    }

    /** proc_freepagetable: the trampoline and trapframe stay; all else of the table is free. */
    method ProcFreepagetable(root: nat, sz: nat)
      requires Valid() && HasRoot(root) && ProcTable(view, root, Pages(sz))
      modifies `mem, `freelist, `view
      ensures Valid() && Reclaimed(old(view), view, root)
    {
      ghost var v: Sound := view;
      UnmapOne(root, TRAMPOLINE, false);
      ghost var a: Sound := view;
      assert a.Entry(root, TRAPFRAME) == v.Entry(root, TRAPFRAME);
      UnmapOne(root, TRAPFRAME, false);
      ghost var b: Sound := view;
      OnlyUser(v, a, b, root, Pages(sz));
      Uvmfree(root, sz);
      ShrunkReclaimed(a, b, view, root, TRAPFRAME);
      ShrunkReclaimed(v, a, view, root, TRAMPOLINE);
    }
  }

  /** From v to w, only table r and page t came to be, from pages that were free; every other page
      keeps owner and contents, and every other table its translations. */
  ghost predicate Private(v: View, w: View, r: nat, t: nat) {
    && w.owner.Keys == v.owner.Keys && r in v.owner && v.owner[r].Free?
    && t in v.owner && t in w.owner && v.owner[t].Free? && w.owner[t].Kernel?
    && (forall q {:trigger Kept(v, w, r, 0, TRAPFRAME, q)} :: q in v.owner && q in w.owner && q != t ==> Kept(v, w, r, 0, TRAPFRAME, q))
    && (forall r': nat, u: nat {:trigger w.Entry(r', u)} :: r' != r ==> w.Entry(r', u) == v.Entry(r', u))
  }

  /** A page taken by kalloc, and then a table beside it. */
  lemma PrivateMade(v: View, w: View, r: nat)
    requires v.Ok() && v.free != [] && Beside(Allocated(v), w, r)
    ensures Private(v, w, r, v.free[0])
  {
    AllocatedOk(v);
    var a, t := Allocated(v), v.free[0];
    assert v.FreeAt(0);
    forall q | q in v.owner && q in w.owner && q != t ensures Kept(v, w, r, 0, TRAPFRAME, q) {
      assert Kept(a, w, r, 0, 0, q) && v.PageOk(q);
    }
    assert Kept(a, w, r, 0, 0, t);
    forall r': nat, u: nat | r' != r ensures w.Entry(r', u) == v.Entry(r', u) {
      assert w.Entry(r', u) == a.Entry(r', u) && a.Entry(r', u) == v.Entry(r', u);
    }
  }

  /** Growth of the process's memory stays private. */
  lemma PrivateGrows(v: View, w: View, x: View, r: nat, t: nat, m: nat, n: nat)
    requires Private(v, w, r, t) && Extended(w, x, r, m, n) && n <= TRAPFRAME
    ensures Private(v, x, r, t)
  {
    forall q | q in v.owner && q in x.owner && q != t ensures Kept(v, x, r, 0, TRAPFRAME, q) {
      assert Kept(v, w, r, 0, TRAPFRAME, q) && Kept(w, x, r, m, n, q);
    }
    assert Kept(w, x, r, m, n, t);
    forall r': nat, u: nat | r' != r ensures x.Entry(r', u) == v.Entry(r', u) {
      assert x.Entry(r', u) == w.Entry(r', u) && w.Entry(r', u) == v.Entry(r', u);
    }
  }

  /** So does shrinking. */
  lemma PrivateShrinks(v: View, w: View, x: View, r: nat, t: nat, m: nat, n: nat)
    requires v.Ok() && Private(v, w, r, t) && Shrunk(w, x, r, m, n)
    ensures Private(v, x, r, t)
  {
    forall q | q in v.owner && q in x.owner && q != t ensures Kept(v, x, r, 0, TRAPFRAME, q) {
      assert Kept(v, w, r, 0, TRAPFRAME, q) && Lost(w, x, r, m, n, q);
      NoneOf(v, r, q);
    }
    assert Lost(w, x, r, m, n, t);
    forall r': nat, u: nat | r' != r ensures x.Entry(r', u) == v.Entry(r', u) {
      assert x.Entry(r', u) == w.Entry(r', u) && w.Entry(r', u) == v.Entry(r', u);
    }
  }

  /** Freeing the page and the table leaves memory as it was before the process. */
  lemma PrivateFreed(v: View, w: View, z: View, r: nat, t: nat)
    requires v.Ok() && w.Ok() && Private(v, w, r, t) && t in w.mem && Reclaimed(Freed(w, t), z, r)
    ensures z.owner == v.owner && SameEntries(v, z) && SameContents(v, z)
  {
    FreedOk(w, t);
    var x := Freed(w, t);
    forall q | q in v.owner ensures z.owner[q] == v.owner[q] && (v.owner[q].Free? || SamePage(v, z, q)) {
      assert Returned(x, z, r, q);
      NoneOf(v, r, q);
      if q != t { assert Kept(v, w, r, 0, TRAPFRAME, q); }
    }
    NoneOf(v, r, r);
    forall r': nat, u: nat ensures z.Entry(r', u) == v.Entry(r', u) {
      assert x.Entry(r', u) == w.Entry(r', u);
    }
  }

  /** From v to w, a table on page r that was free came to be, from pages that were free; every
      other page keeps owner and contents, and every other table its translations. */
  ghost predicate Beside(v: View, w: View, r: nat) {
    && w.owner.Keys == v.owner.Keys && r in v.owner && v.owner[r].Free?
    && (forall q {:trigger Kept(v, w, r, 0, 0, q)} :: q in v.owner && q in w.owner ==> Kept(v, w, r, 0, 0, q))
    && (forall r': nat, u: nat {:trigger w.Entry(r', u)} :: r' != r ==> w.Entry(r', u) == v.Entry(r', u))
  }

  /** A page that allocproc gives back at once. */
  lemma TakenAndReturned(v: View, w: View)
    requires v.Ok() && v.free != [] && w.Ok() && w.owner == Allocated(v).owner && SameEntries(Allocated(v), w) && SameContents(Allocated(v), w)
    ensures v.free[0] in w.mem && v.free[0] in w.owner && w.owner[v.free[0]].Kernel?
    ensures var z := Freed(w, v.free[0]); z.owner == v.owner && SameEntries(v, z) && SameContents(v, z)
  {
    AllocatedOk(v);
    var a, t := Allocated(v), v.free[0];
    assert v.FreeAt(0) && a.PageOk(t) && SamePage(a, w, t);
    FreedOk(w, t);
    var z := Freed(w, t);
    forall q | q in v.owner && !v.owner[q].Free? ensures SamePage(v, z, q) { assert SamePage(a, w, q) && v.PageOk(q); }
    forall r: nat, u: nat ensures z.Entry(r, u) == v.Entry(r, u) {
      assert z.Entry(r, u) == w.Entry(r, u) && w.Entry(r, u) == a.Entry(r, u) && a.Entry(r, u) == v.Entry(r, u);
    }
  }

  lemma FirstFree(v: View)
    requires v.Ok() && v.free != []
    ensures v.free[0] % PGSIZE == 0
  {
    assert v.FreeAt(0) && v.PageOk(v.free[0]);
  }

  lemma TrapframeBack(w: View, r: nat, n: nat, t: nat)
    requires w.Ok() && ProcTable(w, r, n) && Node(r, ROOTLEVEL, 0) in w.node && t in w.owner && w.owner[t].Kernel?
    ensures t in w.mem && ProcTable(Freed(w, t), r, n) && Node(r, ROOTLEVEL, 0) in Freed(w, t).node
  {
    FreedOk(w, t);
    forall u: nat ensures Freed(w, t).Entry(r, u) == w.Entry(r, u) { }
  }

  lemma SamePages(v: View)
    requires v.Ok()
    ensures SameContents(v, v)
  {
    forall p | p in v.owner ensures SamePage(v, v, p) { }
  }

  lemma BuiltBeside(v: View, b: View, w: View, e: nat, p: nat, e': nat, p': nat)
    requires v.Ok() && v.free != []
    requires MapsTo(RootFresh(v), b, v.free[0], TRAMPOLINE, e, p) && MapsTo(b, w, v.free[0], TRAPFRAME, e', p')
    ensures Beside(v, w, v.free[0])
  {
    var a, r := RootFresh(v), v.free[0];
    RootFreshOk(v);
    hide View.Entry;
    forall q | q in v.owner && q in w.owner ensures Kept(v, w, r, 0, 0, q) {
      assert Kept(a, b, r, 0, 0, q) && Kept(b, w, r, 0, 0, q) && v.PageOk(q);
    }
    forall r': nat, u: nat | r' != r ensures w.Entry(r', u) == v.Entry(r', u) {
      assert w.Entry(r', u) == b.Entry(r', u) && b.Entry(r', u) == a.Entry(r', u) && a.Entry(r', u) == v.Entry(r', u);
    }
  }

  /** What proc_pagetable makes of three free pages. */
  ghost predicate NewProcTable(v: View, w: View, r: nat, trapframe: nat, trampoline: nat) {
    && Node(r, ROOTLEVEL, 0) in w.node && ProcTable(w, r, 0) && Beside(v, w, r) && |w.free| == |v.free| - 3
    && w.Entry(r, TRAMPOLINE) == Pack(trampoline, PTE_R + PTE_X + PTE_V)
    && w.Entry(r, TRAPFRAME) == Pack(trapframe, PTE_R + PTE_W + PTE_V)
  }

  /** The trapframe finds its tables there. */
  lemma TrampolineMapped(v: View, b: View, trampoline: nat)
    requires v.Ok() && v.free != []
    requires MapsTo(RootFresh(v), b, v.free[0], TRAMPOLINE, Pack(trampoline, OrValid(PTE_R + PTE_X)), trampoline)
    requires Took(RootFresh(v), b, 0, Tables(v.free[0], TRAMPOLINE, TRAMPOLINE + 1))
    ensures b.Entry(v.free[0], TRAPFRAME) == 0 && Missing(b, v.free[0], TRAPFRAME, TRAPFRAME + 1) == {}
  {
    hide RootFresh, MapsTo, Tables, Took, View.Ok, View.Entry;
    var a, r := RootFresh(v), v.free[0];
    RootFreshOk(v);
    OneEntry(a, b, r, TRAMPOLINE, Pack(trampoline, OrValid(PTE_R + PTE_X)), trampoline);
    assert b.Entry(r, TRAPFRAME) == a.Entry(r, TRAPFRAME);
    TablesEnough(a, b, r, TRAMPOLINE, TRAMPOLINE + 1);
    SameMissing(b, r);
  }

  lemma ProcTableBuilt(v: View, b: View, w: View, trapframe: nat, trampoline: nat)
    requires v.Ok() && v.free != [] && Node(v.free[0], ROOTLEVEL, 0) in w.node
    requires MapsTo(RootFresh(v), b, v.free[0], TRAMPOLINE, Pack(trampoline, OrValid(PTE_R + PTE_X)), trampoline)
    requires MapsTo(b, w, v.free[0], TRAPFRAME, Pack(trapframe, OrValid(PTE_R + PTE_W)), trapframe)
    requires Took(RootFresh(v), b, 0, Tables(v.free[0], TRAMPOLINE, TRAMPOLINE + 1))
    requires Took(b, w, 0, Tables(v.free[0], TRAPFRAME, TRAPFRAME + 1))
    ensures NewProcTable(v, w, v.free[0], trapframe, trampoline)
  {
    hide ProcTable, Beside, RootFresh, MapsTo, Tables, Took, View.Ok, View.Entry;
    var r, e, e' := v.free[0], Pack(trampoline, OrValid(PTE_R + PTE_X)), Pack(trapframe, OrValid(PTE_R + PTE_W));
    RootFreshOk(v);
    OneEntry(RootFresh(v), b, r, TRAMPOLINE, e, trampoline);
    OneEntry(b, w, r, TRAPFRAME, e', trapframe);
    TwoEntries(RootFresh(v), b, w, r);
    BuiltBeside(v, b, w, e, trampoline, e', trapframe);
    ThreeFewer(v, b, w);
  }

  lemma ThreeFewer(v: View, b: View, w: View)
    requires v.Ok() && v.free != [] && RootFresh(v).Ok()
    requires Took(RootFresh(v), b, 0, Tables(v.free[0], TRAMPOLINE, TRAMPOLINE + 1))
    requires Took(b, w, 0, Tables(v.free[0], TRAPFRAME, TRAPFRAME + 1))
    ensures |w.free| == |v.free| - 3
  {
    TwoMissing(v);
    TablesEnough(RootFresh(v), b, v.free[0], TRAMPOLINE, TRAMPOLINE + 1);
  }

  lemma SameMissing(v: View, r: nat)
    ensures Missing(v, r, TRAPFRAME, TRAPFRAME + 1) == Missing(v, r, TRAMPOLINE, TRAMPOLINE + 1)
  {
    SharedTables(r);
  }

  lemma FreshRoot(v: View)
    requires v.Ok() && v.free != []
    ensures forall x {:trigger x in RootFresh(v).node} :: x in RootFresh(v).node && x.Node? && x.root == v.free[0] ==> x.level == ROOTLEVEL
    ensures |RootFresh(v).free| == |v.free| - 1
  {
    AllocatedOk(v);
    NoRoles(Allocated(v), v.free[0]);
  }

  /** A new table lacks both tables under which the trampoline and the trapframe are. */
  lemma TwoMissing(v: View)
    requires v.Ok() && v.free != [] && RootFresh(v).Ok()
    ensures |Missing(RootFresh(v), v.free[0], TRAMPOLINE, TRAMPOLINE + 1)| == 2
    ensures Tables(v.free[0], TRAPFRAME, TRAPFRAME + 1) == Tables(v.free[0], TRAMPOLINE, TRAMPOLINE + 1)
    ensures |RootFresh(v).free| == |v.free| - 1
  {
    var r := v.free[0];
    FreshRoot(v);
    SharedTables(r);
    hide View.Ok, RootFresh, Tables;
    var t := Tables(r, TRAMPOLINE, TRAMPOLINE + 1);
    assert t - RootFresh(v).node.Keys == t;
  }

  lemma SharedTables(r: nat)
    ensures Tables(r, TRAPFRAME, TRAPFRAME + 1) == Tables(r, TRAMPOLINE, TRAMPOLINE + 1)
    ensures |Tables(r, TRAMPOLINE, TRAMPOLINE + 1)| == 2
    ensures forall x :: x in Tables(r, TRAMPOLINE, TRAMPOLINE + 1) ==> x.Node? && x.root == r && x.level < ROOTLEVEL
  {
    OnePath(r, TRAPFRAME);
    OnePath(r, TRAMPOLINE);
    hide Tables;
    TwoTables(r, TRAPFRAME);
    TwoTables(r, TRAMPOLINE);
    assert TRAPFRAME / ENTRIES == TRAMPOLINE / ENTRIES;
  }

  lemma TwoTables(r: nat, vpn: nat)
    ensures Path(r, 0, vpn) == {Node(r, 1, vpn / ENTRIES / ENTRIES), Node(r, 0, vpn / ENTRIES)}
  {
    assert Path(r, 2, vpn) == {};
    assert Prefix(1, vpn) == vpn / ENTRIES / ENTRIES;
  }

  lemma EmptyTable(a: View, b: View, r: nat)
    requires Grew(a, b, r) && forall u: nat {:trigger a.Entry(r, u)} :: a.Entry(r, u) == 0
    ensures forall u: nat {:trigger b.Entry(r, u)} :: b.Entry(r, u) == 0
  {
    forall u: nat ensures b.Entry(r, u) == 0 {
      assert b.Entry(r, u) == a.Entry(r, u);
    }
  }

  lemma TwoEntries(a: View, b: View, c: View, r: nat)
    requires forall u: nat {:trigger a.Entry(r, u)} :: a.Entry(r, u) == 0
    requires SameEntriesBut(a, b, r, TRAMPOLINE) && b.Entry(r, TRAMPOLINE) != 0
    requires SameEntriesBut(b, c, r, TRAPFRAME) && c.Entry(r, TRAPFRAME) != 0
    ensures ProcTable(c, r, 0) && c.Entry(r, TRAMPOLINE) == b.Entry(r, TRAMPOLINE)
  {
    forall u: nat | u != TRAPFRAME && u != TRAMPOLINE ensures c.Entry(r, u) == 0 {
      assert c.Entry(r, u) == b.Entry(r, u) && b.Entry(r, u) == a.Entry(r, u);
    }
    assert c.Entry(r, TRAMPOLINE) == b.Entry(r, TRAMPOLINE);
  }

  lemma OnlyUser(v: View, a: View, b: View, r: nat, n: nat)
    requires ProcTable(v, r, n) && Shrunk(v, a, r, TRAMPOLINE, TRAMPOLINE + 1) && Shrunk(a, b, r, TRAPFRAME, TRAPFRAME + 1)
    ensures UserSized(b, r, n)
    ensures forall u: nat {:trigger b.Entry(r, u)} :: TRAPFRAME <= u ==> b.Entry(r, u) == 0
  {
    forall u: nat ensures b.Entry(r, u) == if u == TRAMPOLINE || u == TRAPFRAME then 0 else v.Entry(r, u) {
      assert b.Entry(r, u) == if u == TRAPFRAME then 0 else a.Entry(r, u);
    }
  }

  ghost function AllKernel(lo: nat, hi: nat, ram: map<nat, Page>): (v: View)
    requires 0 < lo && forall p :: p in ram ==> lo <= p < hi && p % PGSIZE == 0 && |ram[p]| == ENTRIES
    ensures v.Ok()
  {
    View(lo, hi, ram, 0, [], map p | p in ram :: Kernel, map[])
  }

  /** The pages below p are free, the others still the kernel's. */
  ghost predicate BelowFree(o: map<nat, Owner>, p: nat) {
    forall q {:trigger o[q]} :: q in o ==> q % PGSIZE == 0 && o[q] == if q < p then Free else Kernel
  }

  lemma FreedBelow(o: map<nat, Owner>, o': map<nat, Owner>, p: nat)
    requires p in o && o' == o[p := Free] && BelowFree(o, p)
    ensures o'.Keys == o.Keys && BelowFree(o', p + PGSIZE) && (p + PGSIZE) % PGSIZE == 0
  {
    assert o[p] == o[p];
    forall q | q in o' ensures q % PGSIZE == 0 && o'[q] == if q < p + PGSIZE then Free else Kernel {
      assert o[q] == o[q];
      if p < q { NextPage(p, q); }
    }
  }

  lemma NoneBetween(p: nat, hi: nat)
    requires p % PGSIZE == 0 && hi % PGSIZE == 0 && p <= hi < p + PGSIZE
    ensures p == hi
  {
    if p < hi { NextPage(p, hi); }
  }

  lemma NextPage(p: nat, q: nat)
    requires p % PGSIZE == 0 && q % PGSIZE == 0 && p < q
    ensures p + PGSIZE <= q
  {
  }

  function Nth(pa: nat, k: nat): (p: nat) { pa + k * PGSIZE }

  ghost predicate IsKernel(v: View, p: nat) { p in v.owner && v.owner[p].Kernel? }

  /** Page numbers vpn .. vpn+k of table r are mapped in order from pa, and the pages mapped for
      the user belong to r now; every other translation, page and table is as it was, but for new
      tables of r. */
  ghost predicate Ranged(v: View, w: View, r: nat, vpn: nat, k: nat, pa: nat, flags: nat) {
    && (forall r': nat, u: nat {:trigger w.Entry(r', u)} ::
          w.Entry(r', u) == if r' == r && vpn <= u < vpn + k then Pack(Nth(pa, u - vpn), flags) else v.Entry(r', u))
    && w.owner.Keys == v.owner.Keys
    && (forall q {:trigger Placed(v, w, r, vpn, k, pa, q)} :: q in v.owner && q in w.owner ==> Placed(v, w, r, vpn, k, pa, q))
    && (forall role {:trigger role in w.node} :: role in v.node ==> role in w.node && w.node[role] == v.node[role])
  }

  /** q is the page for user page number vpn+j. */
  ghost predicate Targets(vpn: nat, k: nat, pa: nat, q: nat, j: nat) { j < k && vpn + j < TRAPFRAME && q == Nth(pa, j) }

  ghost predicate Placed(v: View, w: View, r: nat, vpn: nat, k: nat, pa: nat, q: nat)
    requires q in v.owner && q in w.owner
  {
    && (forall j {:trigger Targets(vpn, k, pa, q, j)} :: Targets(vpn, k, pa, q, j) ==> w.owner[q] == Leaf(r, vpn + j) && SamePage(v, w, q))
    && ((forall j {:trigger Targets(vpn, k, pa, q, j)} :: !Targets(vpn, k, pa, q, j)) ==> Kept(v, w, r, 0, 0, q))
  }

  /** mappages after k of n turns: what is mapped, what that cost, and the pages still to come. */
  ghost predicate RangeDone(v: View, w: View, r: nat, vpn: nat, k: nat, n: nat, pa: nat, flags: nat) {
    && Ranged(v, w, r, vpn, k, pa, flags) && Took(v, w, 0, Tables(r, vpn, vpn + k)) && Node(r, ROOTLEVEL, 0) in w.node
    && (forall u: nat {:trigger v.Entry(r, u)} :: vpn <= u < vpn + n ==> v.Entry(r, u) == 0)
    && (forall j {:trigger Nth(pa, j)} :: 0 <= j < n && vpn + j < TRAPFRAME ==> IsKernel(v, Nth(pa, j)))
    && (forall j {:trigger Nth(pa, j)} :: k <= j < n && vpn + j < TRAPFRAME ==> IsKernel(w, Nth(pa, j)))
  }

  lemma RangeBegun(v: View, r: nat, vpn: nat, n: nat, pa: nat, flags: nat)
    requires v.Ok() && Node(r, ROOTLEVEL, 0) in v.node
    requires forall u: nat {:trigger v.Entry(r, u)} :: vpn <= u < vpn + n ==> v.Entry(r, u) == 0
    requires forall j {:trigger Nth(pa, j)} :: 0 <= j < n && vpn + j < TRAPFRAME ==> IsKernel(v, Nth(pa, j))
    ensures RangeDone(v, v, r, vpn, 0, n, pa, flags)
  {
    RangedRefl(v, r, vpn, pa, flags);
    TookNothing(v);
  }

  lemma RangeNext(v: View, w: View, r: nat, vpn: nat, k: nat, n: nat, pa: nat, flags: nat)
    requires RangeDone(v, w, r, vpn, k, n, pa, flags) && k < n && pa % PGSIZE == 0
    ensures Ranged(v, w, r, vpn, k, pa, flags) && Took(v, w, 0, Tables(r, vpn, vpn + k)) && Node(r, ROOTLEVEL, 0) in w.node
    ensures w.Entry(r, vpn + k) == 0 && Nth(pa, k) % PGSIZE == 0 && (vpn + k < TRAPFRAME ==> IsKernel(w, Nth(pa, k)))
  {
    hide Took;
    StillUnmapped(v, w, r, vpn, k, pa, flags);
    assert v.Entry(r, vpn + k) == 0;
  }

  lemma RangeStep(v: View, w: View, x: View, r: nat, vpn: nat, k: nat, n: nat, pa: nat, flags: nat)
    requires RangeDone(v, w, r, vpn, k, n, pa, flags) && k < n
    requires MapsTo(w, x, r, vpn + k, Pack(Nth(pa, k), flags), Nth(pa, k)) && Took(w, x, 0, Tables(r, vpn + k, vpn + k + 1))
    ensures RangeDone(v, x, r, vpn, k + 1, n, pa, flags)
  {
    hide Ranged, Took, Tables, MapsTo, View.Entry;
    OneEntry(w, x, r, vpn + k, Pack(Nth(pa, k), flags), Nth(pa, k));
    RangedStep(v, w, x, r, vpn, k, pa, flags);
    RangePaid(v, w, x, r, vpn, k);
    forall j | k < j < n && vpn + j < TRAPFRAME ensures IsKernel(x, Nth(pa, j)) { assert IsKernel(w, Nth(pa, j)); }
  }

  lemma RangePaid(u: View, v: View, w: View, r: nat, vpn: nat, k: nat)
    requires Took(u, v, 0, Tables(r, vpn, vpn + k)) && Took(v, w, 0, Tables(r, vpn + k, vpn + k + 1))
    ensures Took(u, w, 0, Tables(r, vpn, vpn + (k + 1)))
  {
    hide Took, Tables;
    TablesStep(u, v, w, r, vpn, vpn + k, 0, 0);
  }

  lemma RangeEnded(v: View, w: View, r: nat, vpn: nat, n: nat, pa: nat, flags: nat)
    requires RangeDone(v, w, r, vpn, n, n, pa, flags)
    ensures Ranged(v, w, r, vpn, n, pa, flags) && Took(v, w, 0, Tables(r, vpn, vpn + n)) && |v.free| >= |Missing(v, r, vpn, vpn + n)|
  {
    hide Ranged, Took, Tables, Missing, View.Entry, IsKernel;
    TablesEnough(v, w, r, vpn, vpn + n);
  }

  lemma StillUnmapped(v: View, w: View, r: nat, vpn: nat, k: nat, pa: nat, flags: nat)
    requires Ranged(v, w, r, vpn, k, pa, flags)
    ensures w.Entry(r, vpn + k) == v.Entry(r, vpn + k)
  {
  }

  lemma RangedRefl(v: View, r: nat, vpn: nat, pa: nat, flags: nat)
    requires v.owner.Keys == v.mem.Keys
    ensures Ranged(v, v, r, vpn, 0, pa, flags)
  {
  }

  lemma RangedGrew(v: View, w: View, x: View, r: nat, vpn: nat, k: nat, pa: nat, flags: nat)
    requires Ranged(v, w, r, vpn, k, pa, flags) && Grew(w, x, r)
    ensures Ranged(v, x, r, vpn, k, pa, flags)
  {
    forall r': nat, u: nat
      ensures x.Entry(r', u) == if r' == r && vpn <= u < vpn + k then Pack(Nth(pa, u - vpn), flags) else v.Entry(r', u)
    {
      assert x.Entry(r', u) == w.Entry(r', u);
    }
    forall q | q in v.owner && q in x.owner ensures Placed(v, x, r, vpn, k, pa, q) {
      assert Placed(v, w, r, vpn, k, pa, q) && Kept(w, x, r, 0, 0, q);
    }
    forall role | role in v.node ensures role in x.node && x.node[role] == v.node[role] { assert role in w.node; }
  }

  lemma RangedStep(v: View, w: View, x: View, r: nat, vpn: nat, k: nat, pa: nat, flags: nat)
    requires Ranged(v, w, r, vpn, k, pa, flags) && (vpn + k < TRAPFRAME ==> IsKernel(v, Nth(pa, k)))
    requires MapsTo(w, x, r, vpn + k, Pack(Nth(pa, k), flags), Nth(pa, k))
    ensures Ranged(v, x, r, vpn, k + 1, pa, flags)
  {
    RangedEntries(v, w, x, r, vpn, k, pa, flags);
    forall q | q in v.owner && q in x.owner ensures Placed(v, x, r, vpn, k + 1, pa, q) {
      assert Placed(v, w, r, vpn, k, pa, q);
      PlacedStep(v, w, x, r, vpn, k, pa, Pack(Nth(pa, k), flags), q);
    }
    forall role | role in v.node ensures role in x.node && x.node[role] == v.node[role] { assert role in w.node; }
  }

  lemma RangedEntries(v: View, w: View, x: View, r: nat, vpn: nat, k: nat, pa: nat, flags: nat)
    requires Ranged(v, w, r, vpn, k, pa, flags)
    requires SameEntriesBut(w, x, r, vpn + k) && x.Entry(r, vpn + k) == Pack(Nth(pa, k), flags)
    ensures forall r': nat, u: nat {:trigger x.Entry(r', u)} ::
      x.Entry(r', u) == if r' == r && vpn <= u < vpn + k + 1 then Pack(Nth(pa, u - vpn), flags) else v.Entry(r', u)
  {
    forall r': nat, u: nat
      ensures x.Entry(r', u) == if r' == r && vpn <= u < vpn + k + 1 then Pack(Nth(pa, u - vpn), flags) else v.Entry(r', u)
    {
      if r' != r || u != vpn + k { assert x.Entry(r', u) == w.Entry(r', u); }
    }
  }

  lemma PlacedStep(v: View, w: View, x: View, r: nat, vpn: nat, k: nat, pa: nat, e: nat, q: nat)
    requires q in v.owner && q in w.owner && q in x.owner && Placed(v, w, r, vpn, k, pa, q)
    requires MapsTo(w, x, r, vpn + k, e, Nth(pa, k)) && (vpn + k < TRAPFRAME ==> IsKernel(v, Nth(pa, k)))
    ensures Placed(v, x, r, vpn, k + 1, pa, q)
  {
    hide View.Entry;
    var n := k + 1;
    if j: nat :| Targets(vpn, k, pa, q, j) {
      assert Targets(vpn, n, pa, q, j);
      assert Kept(w, x, r, 0, 0, q);
      forall i | Targets(vpn, n, pa, q, i) ensures x.owner[q] == Leaf(r, vpn + i) { assert i == j; }
    } else if vpn + k < TRAPFRAME && q == Nth(pa, k) {
      assert Targets(vpn, n, pa, q, k);
      assert Kept(v, w, r, 0, 0, q);
      forall i | Targets(vpn, n, pa, q, i) ensures x.owner[q] == Leaf(r, vpn + i) { assert i == k; }
    } else {
      assert Kept(v, w, r, 0, 0, q) && Kept(w, x, r, 0, 0, q);
      forall i: nat ensures !Targets(vpn, n, pa, q, i) { assert !Targets(vpn, k, pa, q, i); }
    }
  }

  lemma RangedRoot(v: View, w: View, r: nat, vpn: nat, k: nat, pa: nat, flags: nat)
    requires Ranged(v, w, r, vpn, k, pa, flags) && Node(r, ROOTLEVEL, 0) in v.node
    ensures Node(r, ROOTLEVEL, 0) in w.node
  {
  }

  /** One page: the translation and its page. */
  lemma RangedOne(v: View, w: View, r: nat, u: nat, p: nat, flags: nat)
    requires Ranged(v, w, r, u, 1, p, flags) && (u < TRAPFRAME ==> IsKernel(v, p))
    ensures MapsTo(v, w, r, u, Pack(p, flags), p)
  {
    assert Nth(p, 0) == p;
    forall q | q in v.owner && q in w.owner && (q != p || u >= TRAPFRAME) ensures Kept(v, w, r, 0, 0, q) {
      assert Placed(v, w, r, u, 1, p, q);
    }
    if u < TRAPFRAME { assert Placed(v, w, r, u, 1, p, p) && Targets(u, 1, p, p, 0); }
    assert w.Entry(r, u) == Pack(p, flags);
    forall r': nat, u': nat | r' != r || u' != u ensures w.Entry(r', u') == v.Entry(r', u') {
      assert w.Entry(r', u') == w.Entry(r', u');
    }
  }

  /** None: at most some tables. */
  lemma RangedNone(v: View, w: View, r: nat, u: nat, p: nat, flags: nat)
    requires Ranged(v, w, r, u, 0, p, flags)
    ensures Grew(v, w, r)
  {
    forall q | q in v.owner && q in w.owner ensures Kept(v, w, r, 0, 0, q) { assert Placed(v, w, r, u, 0, p, q); }
  }

  lemma RootKept(v: View, w: View, r: nat, m: nat, n: nat, root: nat)
    requires Extended(v, w, r, m, n) && Node(root, ROOTLEVEL, 0) in v.node
    ensures Node(root, ROOTLEVEL, 0) in w.node
  {
  }

  lemma FreshReady(v: View, root: nat, u: nat, data: Page)
    requires v.Ok() && v.free != [] && |data| == ENTRIES && v.Entry(root, u) == 0 && Node(root, ROOTLEVEL, 0) in v.node
    ensures var w := Fresh(v, data);
            && Node(root, ROOTLEVEL, 0) in w.node
            && w.Entry(root, u) == 0 && v.free[0] % PGSIZE == 0 && IsKernel(w, v.free[0])
  {
    FreshOk(v, data);
    assert Fresh(v, data).Entry(root, u) == v.Entry(root, u);
  }

  lemma OneEntry(v: View, w: View, r: nat, u: nat, e: nat, p: nat)
    requires MapsTo(v, w, r, u, e, p)
    ensures SameEntriesBut(v, w, r, u) && w.Entry(r, u) == e
    ensures forall x {:trigger x in w.node} :: x in v.node ==> x in w.node
    ensures forall q {:trigger IsKernel(w, q)} :: q != p && IsKernel(v, q) ==> IsKernel(w, q)
  {
    forall q | q != p && IsKernel(v, q) ensures IsKernel(w, q) {
      assert Kept(v, w, r, 0, 0, q);
    }
  }

  lemma ClearStale(m: map<nat, Page>, t: nat, i: nat, e: nat)
    requires t in m && i < |m[t]| && m[t][i] == 0
    ensures m[t := Stored(m[t], i, e)][t := Stored(Stored(m[t], i, e), i, 0)] == m
  {
    assert Stored(Stored(m[t], i, e), i, 0) == m[t];
  }

  /** Freeing an empty table leaves memory as the view has it, but for the parent's entry. */
  lemma StaleAfter(w: View, role: Owner)
    requires w.Ok() && IsEmpty(w, role) && w.node[role] in w.mem
    requires role.level < ROOTLEVEL ==> Parent(role) in w.node && w.node[Parent(role)] in w.mem &&
                                        |w.mem[w.node[Parent(role)]]| == ENTRIES && w.node[Parent(role)] != w.node[role]
    ensures var t := w.node[role];
            var m, z := w.mem[t := Stored(Fill(ONES), 0, w.head)], Freed(Detached(w, role), t);
            if role.level < ROOTLEVEL then
              var pp := w.node[Parent(role)];
              && Parent(role) in z.node && z.node[Parent(role)] == pp && pp in z.mem && |z.mem[pp]| == ENTRIES
              && m == z.mem[pp := Stored(z.mem[pp], role.prefix % ENTRIES, Pack(t, PTE_V))]
            else m == z.mem
  {
    if role.level < ROOTLEVEL {
      var pp, i := w.node[Parent(role)], role.prefix % ENTRIES;
      assert w.RoleOk(role) && w.RoleOk(Parent(role)) && w.EntryOk(Parent(role), i);
      assert Child(Parent(role), i) == role;
      assert Stored(Stored(w.mem[pp], i, 0), i, w.mem[pp][i]) == w.mem[pp];
    }
  }

  lemma RolesAreNodes(v: View)
    requires v.Ok()
    ensures forall x {:trigger x in v.node} :: x in v.node ==> x.Node?
  {
    forall x | x in v.node ensures x.Node? {
      assert v.RoleOk(x);
    }
  }

  lemma {:induction false} AncestorIn(v: View, c: Owner, x: Owner)
    requires v.Ok() && x in v.node && x.Node? && c.Node? && c.level <= ROOTLEVEL && Under(c, x)
    ensures c in v.node
    decreases if x.level <= c.level then c.level - x.level else 0
  {
    if x != c {
      assert v.RoleOk(x);
      AncestorIn(v, c, Parent(x));
    }
  }

  /** What freewalk finds in entry i, and what that means for the tables below. */
  lemma WalkStep(v: View, w: View, role: Owner, i: nat)
    requires w.Ok() && role in w.node && role.Node? && role.level <= ROOTLEVEL && i < ENTRIES
    requires Pruned(v, w, role.root) && RemovedBelow(v, w, role, i)
    requires forall u: nat {:trigger v.Entry(role.root, u)} :: v.Entry(role.root, u) == 0
    ensures w.node[role] in w.mem && |w.mem[w.node[role]]| == ENTRIES
    ensures var e := w.mem[w.node[role]][i];
            if role.level > 0 && Child(role, i) in w.node
            then IsValid(e) && !HasRwx(e) && Pte2Pa(e) == w.node[Child(role, i)]
            else !IsValid(e) && RemovedBelow(v, w, role, i + 1)
  {
    assert w.RoleOk(role) && w.PageOk(w.node[role]) && w.EntryOk(role, i);
    if role.level == 0 {
      var u := role.prefix * ENTRIES + i;
      assert w.Entry(role.root, u) == v.Entry(role.root, u);
      NoneBelow(v, w, role, i);
    } else if Child(role, i) in w.node {
      assert w.RoleOk(Child(role, i)) && w.PageOk(w.node[Child(role, i)]);
      PackUnpack(w.node[Child(role, i)], PTE_V);
      NoRwx(w.node[Child(role, i)]);
    } else {
      NoneBelow(v, w, role, i);
    }
  }

  /** Where no table hangs from entry i, one entry more is done. */
  lemma NoneBelow(v: View, w: View, role: Owner, i: nat)
    requires w.Ok() && role.Node? && role.level <= ROOTLEVEL && i < ENTRIES && RemovedBelow(v, w, role, i)
    requires role.level > 0 ==> Child(role, i) !in w.node
    ensures RemovedBelow(v, w, role, i + 1)
  {
    forall x | x in v.node
      ensures x.Node? && (x in w.node <==> !(x.level < role.level && Under(role, x) && Branch(role, x) < i + 1))
    {
      assert x in w.node || x !in w.node;
      if x.Node? && x in w.node && x.level < role.level && Under(role, x) && Branch(role, x) == i {
        UnderChild(role, i, x);
        AncestorIn(w, Child(role, i), x);
      }
    }
  }

  lemma NoRwx(p: nat)
    requires p % PGSIZE == 0
    ensures !HasRwx(Pack(p, PTE_V))
  {
    assert Pack(p, PTE_V) / 2 == p / PGSIZE * 512;
  }

  /** After freewalk of child i: the child is gone, and so is the entry in the view. */
  lemma ChildCleared(w: View, z: View, role: Owner, i: nat)
    requires w.Ok() && z.Ok() && role.Node? && Pruned(w, z, role.root) && i < ENTRIES
    requires role in w.node && 0 < role.level <= ROOTLEVEL && Child(role, i) in w.node
    requires forall x {:trigger x in z.node} :: x in w.node ==> x.Node? && (x in z.node <==> !Under(Child(role, i), x))
    ensures role in z.node && z.node[role] == w.node[role] && z.node[role] in z.mem
    ensures |z.mem[z.node[role]]| == ENTRIES && z.mem[z.node[role]][i] == 0
    ensures Parent(Child(role, i)) == role && Child(role, i).prefix % ENTRIES == i
  {
    ChildParent(role, i);
    assert z.RoleOk(role) && z.PageOk(z.node[role]) && z.EntryOk(role, i);
    assert Under(Child(role, i), Child(role, i));
  }

  lemma RemovedNext(v: View, w: View, z: View, role: Owner, i: nat)
    requires role.Node? && Pruned(w, z, role.root) && 0 < role.level && i < ENTRIES && RemovedBelow(v, w, role, i)
    requires forall x {:trigger x in w.node} :: x in w.node ==> x in v.node
    requires forall x {:trigger x in z.node} :: x in w.node ==> x.Node? && (x in z.node <==> !Under(Child(role, i), x))
    ensures RemovedBelow(v, z, role, i + 1)
  {
    forall x | x in v.node
      ensures x.Node? && (x in z.node <==> !(x.level < role.level && Under(role, x) && Branch(role, x) < i + 1))
    {
      assert x in w.node || x !in w.node;
      if x.Node? && x.level < role.level { UnderChild(role, i, x); }
    }
  }

  lemma NothingLeft(v: View, w: View, role: Owner)
    requires w.Ok() && role in w.node && role.Node? && role.level <= ROOTLEVEL && Pruned(v, w, role.root)
    requires RemovedBelow(v, w, role, ENTRIES)
    requires forall u: nat {:trigger v.Entry(role.root, u)} :: v.Entry(role.root, u) == 0
    ensures IsEmpty(w, role)
  {
    forall i: nat | i < ENTRIES ensures EmptyAt(w, role, i) {
      if role.level == 0 {
        var u := role.prefix * ENTRIES + i;
        assert w.Entry(role.root, u) == v.Entry(role.root, u);
      } else {
        ChildParent(role, i);
        assert Under(role, Child(role, i));
      }
    }
  }

  /** Exactly the tables below the first i entries of role's table are gone. */
  ghost predicate RemovedBelow(v: View, w: View, role: Owner, i: nat)
    requires role.Node?
  {
    forall x {:trigger x in w.node} :: x in v.node ==>
      x.Node? && (x in w.node <==> !(x.level < role.level && Under(role, x) && Branch(role, x) < i))
  }

  /** uvmcopy's next source page is still as it was, and its place in the child is free. */
  lemma SourcePage(v: View, w: View, source: nat, r: nat, n: nat, size: nat)
    requires v.Ok() && w.Ok() && UserSized(v, source, size) && UserSized(v, r, 0) && source != r && n < size
    requires Extended(v, w, r, 0, n)
    ensures w.Entry(r, n) == 0 && HasTable(w, source, n) && w.Entry(source, n) == v.Entry(source, n)
    ensures var e := w.Entry(source, n);
            && e != 0 && IsValid(e) && HasRwx(Flags(e)) && OrValid(Flags(e)) == Flags(e) && Flags(e) < 1024
            && Pte2Pa(e) in v.mem && Pte2Pa(e) in w.mem && w.mem[Pte2Pa(e)] == v.mem[Pte2Pa(e)]
            && |w.mem[Pte2Pa(e)]| == ENTRIES
  {
    assert w.Entry(source, n) == v.Entry(source, n) && w.Entry(r, n) == v.Entry(r, n);
    LeafOwned(v, source, n);
    LeafOwned(w, source, n);
    var e := v.Entry(source, n);
    assert Kept(v, w, r, 0, n, Pte2Pa(e)) && w.PageOk(Pte2Pa(e));
    FlagsKept(e);
  }

  lemma FlagsKept(e: nat)
    requires IsValid(e) && HasRwx(e)
    ensures HasRwx(Flags(e)) && OrValid(Flags(e)) == Flags(e) && Flags(e) < 1024
  {
    var q, f := e / 1024, Flags(e);
    assert e == 1024 * q + f;
    assert e / 2 == 512 * q + f / 2;
    Eighth(64 * q, f / 2);
  }

  lemma Eighth(q: nat, x: nat)
    ensures (8 * q + x) % 8 == x % 8
  {
  }

  lemma CopyKept(v: View, w: View, x: View, source: nat, r: nat, n: nat)
    requires w.Ok() && n < TRAPFRAME && Extended(w, x, r, n, n + 1)
    requires Copied(v, w, source, r, n) && CopiedAt(v, x, source, r, n)
    ensures Copied(v, x, source, r, n + 1)
  {
    forall u: nat | u < n ensures CopiedAt(v, x, source, r, u) {
      assert CopiedAt(v, w, source, r, u);
      LeafOwned(w, r, u);
      assert x.Entry(r, u) == w.Entry(r, u);
      assert Kept(w, x, r, n, n + 1, Pte2Pa(w.Entry(r, u)));
    }
  }

  /** Table r maps the page numbers up to n as table old does in v, with equal contents. */
  ghost predicate Copied(v: View, w: View, source: nat, r: nat, n: nat) {
    forall u: nat {:trigger CopiedAt(v, w, source, r, u)} :: u < n ==> CopiedAt(v, w, source, r, u)
  }

  ghost predicate CopiedAt(v: View, w: View, source: nat, r: nat, u: nat) {
    var e := v.Entry(source, u);
    Pte2Pa(e) in v.mem && PageHas(w, r, u, Flags(e), v.mem[Pte2Pa(e)])
  }

  /** What uvmalloc's callers pass beyond PTE_R|PTE_U. */
  predicate XPerm(x: nat) { x == 0 || x == PTE_W || x == PTE_X || x == PTE_W + PTE_X }

  ghost predicate AllHave(v: View, r: nat, m: nat, n: nat, flags: nat, data: Page) {
    forall u: nat {:trigger PageHas(v, r, u, flags, data)} :: m <= u < n ==> PageHas(v, r, u, flags, data)
  }

  lemma SizedAfter(v: View, w: View, r: nat, m: nat, n: nat)
    requires UserSized(v, r, m) && Extended(v, w, r, m, n) && m <= n <= TRAPFRAME
    ensures UserSized(w, r, n)
  {
    forall u: nat | u < TRAPFRAME ensures w.Entry(r, u) != 0 <==> u < n {
      assert v.Entry(r, u) != 0 <==> u < m;
    }
  }

  /** PGROUNDUP(sz) / PGSIZE */
  function Pages(sz: nat): (n: nat)
  {
    (sz + PGSIZE - 1) / PGSIZE
  }

  /** PGROUNDUP: the least number of pages that hold sz bytes. */
  lemma PagesIs(sz: nat, n: nat)
    ensures n == Pages(sz) <==> n * PGSIZE >= sz && (n > 0 ==> (n - 1) * PGSIZE < sz)
  {
  }

  lemma SizedBelow(v: View, w: View, r: nat, m: nat, n: nat)
    requires UserSized(v, r, n) && Shrunk(v, w, r, m, n) && m <= n
    ensures UserSized(w, r, m)
  {
    forall u: nat | u < TRAPFRAME ensures w.Entry(r, u) != 0 <==> u < m {
      assert v.Entry(r, u) != 0 <==> u < n;
    }
  }

  lemma PagesMonotone(a: nat, b: nat)
    requires a <= b
    ensures Pages(a) <= Pages(b)
  {
  }

  lemma PagesCovered(n: nat, sz: nat)
    ensures n * PGSIZE < sz <==> n < Pages(sz)
  {
  }

  lemma RoomBelow(v: View, w: View, r: nat, m: nat, n: nat)
    requires w.Ok() && UserSized(v, r, m) && Extended(v, w, r, m, n) && m <= n <= TRAPFRAME && |v.owner| < TRAPFRAME
    ensures n < TRAPFRAME && w.Entry(r, n) == 0
  {
    forall u: nat | u < n ensures w.Entry(r, u) != 0 {
      assert u < m ==> v.Entry(r, u) != 0;
    }
    LeavesBound(w, r, n);
    assert |w.owner| == |w.owner.Keys| == |v.owner.Keys|;
    assert v.Entry(r, n) == 0;
  }

  /** Pages mapped earlier keep flags and contents. */
  lemma AllKept(v: View, w: View, r: nat, m: nat, n: nat, flags: nat, data: Page)
    requires v.Ok() && n < TRAPFRAME && Extended(v, w, r, n, n + 1)
    requires AllHave(v, r, m, n, flags, data) && PageHas(w, r, n, flags, data)
    ensures AllHave(w, r, m, n + 1, flags, data)
  {
    forall u: nat | m <= u < n ensures PageHas(w, r, u, flags, data) {
      assert PageHas(v, r, u, flags, data);
      LeafOwned(v, r, u);
      assert w.Entry(r, u) == v.Entry(r, u);
      assert Kept(v, w, r, n, n + 1, Pte2Pa(v.Entry(r, u)));
    }
  }

  lemma EntryShape(v: View, r: nat, u: nat)
    requires v.Ok() && v.Entry(r, u) != 0
    ensures HasTable(v, r, u) && IsValid(v.Entry(r, u)) && HasRwx(v.Entry(r, u))
  {
    var x := Node(r, 0, u / ENTRIES);
    assert v.RoleOk(x) && v.PageOk(v.node[x]) && v.EntryOk(x, u % ENTRIES);
  }

  lemma FlagsOf(e: nat)
    requires IsValid(e) && HasRwx(e)
    ensures Flags(e) != PTE_V
  {
  }

  lemma MapReady(v: View, g: View, r: nat, u: nat, pa: nat, perm: nat)
    requires v.Ok() && g.Ok() && Grew(v, g, r) && HasTable(g, r, u) && v.Entry(r, u) == 0
    requires pa % PGSIZE == 0 && perm < 1024 && HasRwx(perm)
    requires u < TRAPFRAME ==> pa in v.owner && v.owner[pa].Kernel?
    ensures var e, o := Pack(pa, OrValid(perm)), Leaf(r, u);
            && e != 0 && CanSet(g, r, u, e, pa, o)
            && EntrySet(g, r, u, e, pa, o).Ok()
            && MapsTo(v, EntrySet(g, r, u, e, pa, o), r, u, e, pa)
            && g.Entry(r, u) == 0
  {
    var e := Pack(pa, OrValid(perm));
    NewEntry(pa, perm);
    assert g.Entry(r, u) == v.Entry(r, u);
    if u < TRAPFRAME { assert Kept(v, g, r, 0, 0, pa) && g.PageOk(pa); }
    EntrySetOk(g, r, u, e, pa, Leaf(r, u));
    MapsToFrom(v, g, r, u, e, pa);
  }

  lemma NewEntry(pa: nat, perm: nat)
    requires pa % PGSIZE == 0 && perm < 1024 && HasRwx(perm)
    ensures var e := Pack(pa, OrValid(perm));
            e != 0 && IsValid(e) && HasRwx(e) && Pte2Pa(e) == pa
  {
    PackUnpack(pa, OrValid(perm));
    OrValidKeeps(perm);
    HighBits(pa / PGSIZE, OrValid(perm));
  }

  lemma OrValidKeeps(perm: nat)
    requires perm < 1024
    ensures OrValid(perm) < 1024 && OrValid(perm) / 2 == perm / 2 && OrValid(perm) % 2 == 1
  {
  }

  /** The page number does not reach down to the permission bits. */
  lemma HighBits(n: nat, flags: nat)
    ensures (n * 1024 + flags) / 2 % 8 == flags / 2 % 8
  {
    assert (n * 1024 + flags) / 2 == n * 512 + flags / 2;
    EightTimes(n * 64, flags / 2);
  }

  lemma {:induction false} EightTimes(m: nat, x: nat)
    ensures (8 * m + x) % 8 == x % 8
  {
    if m > 0 { EightTimes(m - 1, x); }
  }

  lemma TopPrefix(vpn: nat)
    requires vpn < MAXVPN
    ensures Prefix(ROOTLEVEL, vpn) == 0
  {
    assert Prefix(1, vpn) == vpn / ENTRIES / ENTRIES;
  }

  /** walk has come to the table of this level on the way to vpn. */
  ghost predicate Walked(v0: View, v: View, root: nat, level: nat, vpn: nat, table: nat) {
    && Grew(v0, v, root) && Took(v0, v, 0, Path(root, level, vpn))
    && Node(root, level, Prefix(level, vpn)) in v.node && table == v.node[Node(root, level, Prefix(level, vpn))]
  }

  lemma WalkBegins(v: View, root: nat, vpn: nat)
    requires v.Ok() && Node(root, ROOTLEVEL, 0) in v.node && vpn < MAXVPN
    ensures Walked(v, v, root, ROOTLEVEL, vpn, root)
  {
    ExtendedRefl(v, root, 0);
    TookNothing(v);
    TopPrefix(vpn);
    assert v.RoleOk(Node(root, ROOTLEVEL, 0));
  }

  lemma WalkEnds(v0: View, v: View, root: nat, vpn: nat, table: nat)
    requires v.Ok() && Walked(v0, v, root, 0, vpn, table)
    ensures Grew(v0, v, root) && HasTable(v, root, vpn) && table == v.node[Node(root, 0, vpn / ENTRIES)]
    ensures Px(0, vpn) == vpn % ENTRIES && Took(v0, v, 0, Tables(root, vpn, vpn + 1)) && table in v.mem && |v.mem[table]| == ENTRIES
  {
    hide Took, Tables, Extended;
    assert v.RoleOk(Node(root, 0, Prefix(0, vpn))) && v.PageOk(table);
    OnePath(root, vpn);
  }

  /** What an inner entry says: the next table down, or that vpn has no level-0 table. */
  lemma Descend(v: View, root: nat, level: nat, vpn: nat)
    requires v.Ok() && 0 < level <= ROOTLEVEL && Node(root, level, Prefix(level, vpn)) in v.node
    ensures var role, i := Node(root, level, Prefix(level, vpn)), Px(level, vpn);
            && v.node[role] in v.mem && |v.mem[v.node[role]]| == ENTRIES
            && Child(role, i) == Node(root, level - 1, Prefix(level - 1, vpn))
            && var e := v.mem[v.node[role]][i];
               if Child(role, i) in v.node then IsValid(e) && Pte2Pa(e) == v.node[Child(role, i)] != 0
               else e == 0 && !HasTable(v, root, vpn)
  {
    var role, i := Node(root, level, Prefix(level, vpn)), Px(level, vpn);
    assert v.RoleOk(role) && v.PageOk(v.node[role]) && v.EntryOk(role, i);
    if Child(role, i) in v.node {
      assert v.RoleOk(Child(role, i)) && v.PageOk(v.node[Child(role, i)]);
      PackUnpack(v.node[Child(role, i)], PTE_V);
    } else if Node(root, 0, vpn / ENTRIES) in v.node {
      Ancestor(v, root, level - 1, vpn);
    }
  }

  lemma {:induction false} Ancestor(v: View, root: nat, level: nat, vpn: nat)
    requires v.Ok() && level < ROOTLEVEL && Node(root, 0, vpn / ENTRIES) in v.node
    ensures Node(root, level, Prefix(level, vpn)) in v.node
  {
    if level > 0 {
      Ancestor(v, root, level - 1, vpn);
      assert v.RoleOk(Node(root, level - 1, Prefix(level - 1, vpn)));
    }
  }
}
