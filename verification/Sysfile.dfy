/** The system calls of kernel/sysfile.c that change directories and link counts, step by step.

    Where writei may run out of blocks, a room parameter says whether it found one.  dirlink's
    lookup of a name that exists takes and drops a reference, which changes nothing. */
module Sysfile {
  import opened Directories

  class Inodes {
    const nodes: array<Inode>
    const refs: array<nat>
    ghost var view: Sound

    ghost predicate Valid()
      reads this, nodes, refs
    {
      Is(view)
    }

    /** The inode table is as w has it. */
    ghost predicate Is(w: View)
      reads this, nodes, refs
    {
      w.nodes == nodes[..] && w.refs == refs[..]
    }

    constructor (n: nat)
      requires ROOT < n
      ensures Valid() && fresh(nodes) && fresh(refs) && view == Fresh(n)
    {
      nodes := new Inode[n](_ => Inode(Free, 0, []));
      refs := new nat[n](_ => 0);
      view := Fresh(n);
      new;
      nodes[ROOT] := Inode(Directory, 1, [Entry(ROOT, "."), Entry(ROOT, "..")]);
      assert nodes[..] == Fresh(n).nodes && refs[..] == Fresh(n).refs;
    }

    // ----- kernel/fs.c -----

    /** dirlookup: the slot of the name, or the number of slots. */
    method Dirlookup(d: nat, name: string) returns (k: nat)
      requires d < nodes.Length && nodes[d].kind == Directory
      ensures k == Find(nodes[d].ents, name)
    {
      k := 0;
      while k < |nodes[d].ents|
        invariant k <= |nodes[d].ents| && forall j :: 0 <= j < k ==> !Matches(nodes[d].ents[j], name)
      {
        if nodes[d].ents[k].inum != 0 && Clip(name) == Clip(nodes[d].ents[k].name) {
          break;
        }
        k := k + 1;
      }
      FindIs(nodes[d].ents, name, k);
    }

    /** dirlink: the name must be new; it goes into the first free slot or a new one at the end. */
    method Dirlink(d: nat, name: string, inum: nat, room: bool) returns (ok: bool)
      requires d < nodes.Length && nodes[d].kind == Directory
      modifies nodes
      ensures var ents := old(nodes[d].ents);
              && (ok <==> Find(ents, name) == |ents| && (room || Gap(ents) < |ents|))
              && nodes[..] == if ok then old(nodes[..])[d := old(nodes[d]).(ents := Put(ents, Gap(ents), Entry(inum, Clip(name))))]
                              else old(nodes[..])
    {
      var k := Dirlookup(d, name);
      var ents := nodes[d].ents;
      if k < |ents| {
        return false;
      }
      var off := 0;
      while off < |ents| && ents[off].inum != 0
        invariant off <= |ents| && forall j :: 0 <= j < off ==> ents[j].inum != 0
      {
        off := off + 1;
      }
      GapIs(ents, off);
      if off == |ents| && !room {
        return false;
      }
      nodes[d] := nodes[d].(ents := Put(ents, off, Entry(inum, Clip(name))));
      return true;
    }

    /** isdirempty. */
    method Isdirempty(d: nat) returns (b: bool)
      requires d < nodes.Length
      ensures b == Empty(nodes[d].ents)
    {
      var k := 2;
      while k < |nodes[d].ents|
        invariant k >= 2 && forall j :: 2 <= j < k && j < |nodes[d].ents| ==> nodes[d].ents[j].inum == 0
      {
        if nodes[d].ents[k].inum != 0 {
          return false;
        }
        k := k + 1;
      }
      return true;
    }

    /** ialloc: the first free inode, or 0. */
    method Ialloc(kind: Kind) returns (i: nat)
      requires nodes.Length == refs.Length
      modifies nodes, refs
      ensures i == 0 ==> nodes[..] == old(nodes[..]) && refs[..] == old(refs[..]) && NoneFree(old(nodes[..]))
      ensures i > 0 ==> && i < nodes.Length && IsFirstFree(old(nodes[..]), i)
                        && nodes[..] == old(nodes[..])[i := Inode(kind, 0, [])] && refs[..] == old(refs[..])[i := 1]
    {
      i := 1;
      while i < nodes.Length
        invariant 1 <= i && forall j :: 1 <= j < i && j < nodes.Length ==> nodes[j].kind != Free
      {
        if nodes[i].kind == Free {
          nodes[i] := Inode(kind, 0, []);
          refs[i] := 1;
          return;
        }
        i := i + 1;
      }
      i := 0;
    }

    /** iput's effect on the table, also while a call is half done. */
    method Drop(i: nat)
      requires nodes.Length == refs.Length && i < nodes.Length && refs[i] > 0
      modifies nodes, refs
      ensures refs[..] == old(refs[..])[i := old(refs[i]) - 1]
      ensures nodes[..] == if old(refs[i]) == 1 && old(nodes[i]).nlink == 0 then old(nodes[..])[i := Inode(Free, 0, [])]
                           else old(nodes[..])
    {
      if refs[i] == 1 && nodes[i].nlink == 0 {
        nodes[i] := nodes[i].(ents := []);
        nodes[i] := nodes[i].(kind := Free);
      }
      refs[i] := refs[i] - 1;
    }

    /** The same from a state w that need not be sound. */
    method DropFrom(i: nat, ghost w: View)
      requires Is(w) && w.Shape() && i < nodes.Length && refs[i] > 0
      modifies nodes, refs
      ensures Is(Released(w, i)) && Released(w, i).Shape()
    {
      Drop(i);
    }

    method Iput(i: nat)
      requires Valid() && i < nodes.Length && refs[i] > 0
      modifies `view, nodes, refs
      ensures Valid() && view == Released(old(view), i)
    {
      ReleasedOk(view, i);
      Drop(i);
      view := Released(view, i);
    }

    /** iget by dirlookup, for an inode in use. */
    method Iget(i: nat)
      requires Valid() && i < nodes.Length && nodes[i].kind != Free
      modifies `view, refs
      ensures Valid() && view == Acquired(old(view), i)
    {
      AcquiredOk(view, i);
      refs[i] := refs[i] + 1;
      view := Acquired(view, i);
    }

    // ----- sys_link, whose two halves other calls may come between -----

    /** Up to the nlink++; a directory is refused. */
    method LinkBegin(i: nat) returns (ok: bool)
      requires Valid() && i < nodes.Length && refs[i] > 0
      modifies `view, nodes, refs
      ensures Valid() && ok == (old(view).nodes[i].kind != Directory)
      ensures view == if ok then LinkBegun(old(view), i) else Released(old(view), i)
    {
      if nodes[i].kind == Directory {
        Iput(i);
        return false;
      }
      assert view.CountOk(i);
      LinkBegunOk(view, i);
      nodes[i] := nodes[i].(nlink := nodes[i].nlink + 1);
      view := LinkBegun(view, i);
      return true;
    }

    /** The new name in parent d; d is 0 when the path has no parent.  A parent without links takes
        the name too, and the invariant is then lost, as LinkedOkIff shows. */
    method LinkEnd(i: nat, d: nat, name: string, sameDevice: bool, room: bool) returns (r: int)
      requires Valid() && 0 < i < nodes.Length && view.pend[i] > 0 && refs[i] > 0 && nodes[i].kind != Directory
      requires d != 0 ==> d < nodes.Length && nodes[d].kind == Directory && refs[d] > 0
      modifies `view, nodes, refs
      ensures var ents := if d == 0 then [] else old(view).nodes[d].ents;
              r == if d != 0 && sameDevice && Find(ents, name) == |ents| && (room || Gap(ents) < |ents|) then 0 else -1
      ensures r == 0 ==> Is(AfterLink(old(view), i, d, name))
      ensures r == 0 && old(view).Live(d) ==> Valid() && view == AfterLink(old(view), i, d, name)
      ensures r != 0 ==> Valid() && view == AfterBadLink(old(view), i, d)
    {
      ghost var v: Sound := view;
      assert v.Shape() && v.CountOk(i) && v.CountOk(0);
      if d != 0 {
        var ok := false;
        if sameDevice {
          ok := Dirlink(d, name, i, room);
        }
        if ok {
          LinkMade(i, d, name, v);
          return 0;
        }
        Iput(d);
      }
      LinkTakenBack(i);
      return -1;
    }

    method LinkMade(i: nat, d: nat, name: string, ghost v: Sound)
      requires i < |v.nodes| && d < |v.nodes| && i != d && v.pend[i] > 0 && v.refs[i] > 0 && v.refs[d] > 0 && NewName(v, d, name)
      requires Is(Linked(v, d, name, i))
      modifies `view, nodes, refs
      ensures Is(AfterLink(v, i, d, name)) && (v.Live(d) ==> Valid() && view == AfterLink(v, i, d, name))
    {
      ghost var w := Linked(v, d, name, i);
      DropFrom(d, w);
      DropFrom(i, Released(w, d));
      if v.Live(d) {
        AfterLinkOk(v, i, d, name);
        view := AfterLink(v, i, d, name);
      }
    }

    /** sys_link's error exit. */
    method LinkTakenBack(i: nat)
      requires Valid() && i < nodes.Length && view.pend[i] > 0 && refs[i] > 0
      modifies `view, nodes, refs
      ensures Valid() && view == Released(LinkUndone(old(view), i), i)
    {
      LinkUndoneOk(view, i);
      nodes[i] := nodes[i].(nlink := nodes[i].nlink - 1);
      view := LinkUndone(view, i);
      Iput(i);
    }

    // ----- create -----

    /** create: an existing file, a new inode, or 0.  A directory without links takes a new name
        too, and the invariant is then lost, as MadeFileOkIff and MadeDirOkIff show.  Where its ".."
        leads to a freed inode, ilock panics. */
    method Create(d: nat, name: string, kind: Kind, dotRoom: bool, dotdotRoom: bool, room: bool) returns (r: nat)
      requires Valid() && d < nodes.Length && nodes[d].kind == Directory && refs[d] > 0 && kind != Free
      requires view.Live(d) || LeadsOn(view, d, Find(view.nodes[d].ents, name))
      modifies `view, nodes, refs
      ensures var v := old(view);
              var k := Find(v.nodes[d].ents, name);
              if k < |v.nodes[d].ents| then Valid() && Reused(v, view, d, v.nodes[d].ents[k].inum, kind, r)
              else if r == 0 then Valid() && view == Released(v, d)
              else
                && IsFirstFree(v.nodes, r) && Is(Released(Made(v, d, name, kind, r), d))
                && (v.Live(d) ==> Valid() && view == Released(Made(v, d, name, kind, r), d))
      ensures var v := old(view);
              var i := Lookup(v, d, name);
              r != 0 <==>
                if i != 0 then kind == File && i < |v.nodes| && v.nodes[i].kind in {File, Device}
                else && (exists j :: 0 < j < |v.nodes| && v.nodes[j].kind == Free)
                     && (kind == Directory ==> dotRoom && dotdotRoom)
                     && (room || exists k :: 0 <= k < |v.nodes[d].ents| && v.nodes[d].ents[k].inum == 0)
    {
      var k := Dirlookup(d, name);
      if k < |nodes[d].ents| {
        if view.Live(d) { EntryInUse(view, d, k); }
        r := Reuse(d, k, kind);
        return;
      }
      r := MakeNew(d, name, kind, dotRoom, dotdotRoom, room);
    }

    /** The name is new: an inode for it, given back when a name does not fit. */
    method MakeNew(d: nat, name: string, kind: Kind, dotRoom: bool, dotdotRoom: bool, room: bool) returns (r: nat)
      requires Valid() && d < nodes.Length && nodes[d].kind == Directory && refs[d] > 0 && kind != Free && NewName(view, d, name)
      modifies `view, nodes, refs
      ensures r == 0 <==> NoneFree(old(view).nodes) || !HasRoom(old(view).nodes[d].ents, kind, dotRoom, dotdotRoom, room)
      ensures r == 0 ==> Valid() && view == Released(old(view), d)
      ensures r != 0 ==>
                && IsFirstFree(old(view).nodes, r) && Is(Released(Made(old(view), d, name, kind, r), d))
                && (old(view).Live(d) ==> Valid() && view == Released(Made(old(view), d, name, kind, r), d))
    {
      ghost var v: Sound := view;
      var i := Ialloc(kind);
      if i == 0 {
        Iput(d);
        return 0;
      }
      assert v.Shape() && v.CountOk(i);
      var ok := NameNew(i, d, name, kind, dotRoom, dotdotRoom, room);
      if !ok {
        GiveUp(i, v.nodes, v.refs);
        Iput(d);
        return 0;
      }
      InodeMade(i, d, name, kind, v);
      return i;
    }

    /** create's fail exit for the inode: no links, and so iput frees it. */
    method GiveUp(i: nat, ghost before: seq<Inode>, ghost counts: seq<nat>)
      requires nodes.Length == refs.Length == |before| == |counts| && i < nodes.Length && refs[i] == 1
      requires before[i] == Inode(Free, 0, []) && counts[i] == 0
      requires nodes[..] == before[i := nodes[i]] && refs[..] == counts[i := 1]
      modifies nodes, refs
      ensures nodes[..] == before && refs[..] == counts
    {
      nodes[i] := nodes[i].(nlink := 0);
      Drop(i);
    }

    method InodeMade(i: nat, d: nat, name: string, kind: Kind, ghost v: Sound)
      requires 0 < i < |v.nodes| && v.nodes[i].kind == Free && kind != Free && i != d
      requires d < |v.nodes| && v.nodes[d].kind == Directory && v.refs[d] > 0 && NewName(v, d, name)
      requires Is(Made(v, d, name, kind, i))
      modifies `view, nodes, refs
      ensures Is(Released(Made(v, d, name, kind, i), d))
      ensures v.Live(d) ==> Valid() && view == Released(Made(v, d, name, kind, i), d)
    {
      DropFrom(d, Made(v, d, name, kind, i));
      if v.Live(d) {
        MadeThenReleasedOk(v, d, name, kind, i);
        view := Released(Made(v, d, name, kind, i), d);
      }
    }

    /** The names of a new inode i, up to the nlink++ of its parent. */
    method NameNew(i: nat, d: nat, name: string, kind: Kind, dotRoom: bool, dotdotRoom: bool, room: bool) returns (ok: bool)
      requires 0 < i < nodes.Length && d < nodes.Length && i != d && nodes[i] == Inode(kind, 0, [])
      requires nodes[d].kind == Directory && Find(nodes[d].ents, name) == |nodes[d].ents|
      modifies nodes
      ensures ok == HasRoom(old(nodes[d].ents), kind, dotRoom, dotdotRoom, room)
      ensures !ok ==> nodes[..] == old(nodes[..])[i := nodes[i]]
      ensures ok ==>
                var ents := old(nodes[d].ents);
                var parent := old(nodes[d]).(ents := Put(ents, Gap(ents), Entry(i, Clip(name))));
                nodes[..] == if kind == Directory
                             then old(nodes[..])[i := Inode(Directory, 1, [Entry(i, "."), Entry(d, "..")])][d := parent.(nlink := parent.nlink + 1)]
                             else old(nodes[..])[i := Inode(kind, 1, [])][d := parent]
    {
      nodes[i] := nodes[i].(nlink := 1);
      ok := true;
      if kind == Directory {
        ok := AddDots(i, d, dotRoom, dotdotRoom);
      }
      if ok {
        ok := Dirlink(d, name, i, room);
      }
      if ok && kind == Directory {
        nodes[d] := nodes[d].(nlink := nodes[d].nlink + 1);
      }
    }

    /** "." and ".." of a new directory. */
    method AddDots(i: nat, d: nat, dotRoom: bool, dotdotRoom: bool) returns (ok: bool)
      requires i < nodes.Length && nodes[i] == Inode(Directory, 1, []) && i != 0
      modifies nodes
      ensures ok == (dotRoom && dotdotRoom)
      ensures nodes[..] == old(nodes[..])[i := nodes[i]] && nodes[i].kind == Directory
      ensures ok ==> nodes[i] == Inode(Directory, 1, [Entry(i, "."), Entry(d, "..")])
    {
      ok := Dirlink(i, ".", i, dotRoom);
      if ok {
        ok := Dirlink(i, "..", d, dotdotRoom);
      }
    }

    /** The name exists: its file or device for a T_FILE request, otherwise nothing. */
    method Reuse(d: nat, k: nat, kind: Kind) returns (r: nat)
      requires Valid() && d < nodes.Length && refs[d] > 0 && k < |nodes[d].ents| && LeadsOn(view, d, k)
      modifies `view, nodes, refs
      ensures Valid() && Reused(old(view), view, d, old(view).nodes[d].ents[k].inum, kind, r)
    {
      var i := nodes[d].ents[k].inum;
      Iget(i);
      Iput(d);
      if kind == File && (nodes[i].kind == File || nodes[i].kind == Device) {
        return i;
      }
      Iput(i);
      return 0;
    }

    // ----- sys_unlink -----

    method Unlink(d: nat, name: string) returns (r: int)
      requires Valid() && d < nodes.Length && nodes[d].kind == Directory && refs[d] > 0
      modifies `view, nodes, refs
      ensures Valid()
      ensures r == 0 <==> Removable(old(view), d, name)
      ensures var k := Find(old(view).nodes[d].ents, name);
              if r == 0 then CanUnlink(old(view), d, k) && view == AfterUnlink(old(view), d, k) else view == Released(old(view), d)
    {
      ghost var v: Sound := view;
      RemovableIs(v, d, name);
      if Clip(name) == "." || Clip(name) == ".." {
        Iput(d);
        return -1;
      }
      var k := Dirlookup(d, name);
      if k == |nodes[d].ents| {
        Iput(d);
        return -1;
      }
      FoundProper(v, d, name);
      r := UnlinkSlot(d, k);
    }

    /** The rest of unlink, for the entry found. */
    method UnlinkSlot(d: nat, k: nat) returns (r: int)
      requires Valid() && view.Live(d) && 2 <= k < |view.nodes[d].ents| && view.nodes[d].ents[k].inum != 0 && view.refs[d] > 0
      modifies `view, nodes, refs
      ensures Valid() && (r == 0 <==> CanUnlink(old(view), d, k))
      ensures view == if r == 0 then AfterUnlink(old(view), d, k) else Released(old(view), d)
    {
      ghost var v: Sound := view;
      EntryInUse(v, d, k);
      var i := nodes[d].ents[k].inum;
      assert v.EntryOk(d, k);
      LookedUp(v, d, k);
      Iget(i);
      assert nodes[i].nlink >= 1;
      if nodes[i].kind == Directory {
        var empty := Isdirempty(i);
        if !empty {
          Iput(i);
          Iput(d);
          return -1;
        }
      }
      ClearSlot(d, k);
      Iput(d);
      Iput(i);
      return 0;
    }

    /** The entry is cleared, and the link counts follow. */
    method ClearSlot(d: nat, k: nat)
      requires Valid() && CanUnlink(view, d, k)
      modifies `view, nodes
      ensures Valid() && view == Unlinked(old(view), d, k)
    {
      ghost var v: Sound := view;
      UnlinkedOk(v, d, k);
      var i := nodes[d].ents[k].inum;
      nodes[d] := nodes[d].(ents := nodes[d].ents[k := Entry(0, "")]);
      if nodes[i].kind == Directory {
        nodes[d] := nodes[d].(nlink := nodes[d].nlink - 1);
      }
      nodes[i] := nodes[i].(nlink := nodes[i].nlink - 1);
      view := Unlinked(v, d, k);
    }
  }

  lemma {:induction false} GapIs(ents: seq<Entry>, k: nat)
    requires k <= |ents| && (k < |ents| ==> ents[k].inum == 0) && forall j :: 0 <= j < k ==> ents[j].inum != 0
    ensures Gap(ents) == k
  {
  }

  /** i is the lowest inode but 0 that is free. */
  predicate IsFirstFree(nodes: seq<Inode>, i: nat) {
    0 < i < |nodes| && nodes[i].kind == Free && forall j :: 0 < j < i ==> nodes[j].kind != Free
  }

  ghost predicate NoneFree(nodes: seq<Inode>) { forall j :: 1 <= j < |nodes| ==> nodes[j].kind != Free }

  ghost function AfterLink(v: View, i: nat, d: nat, name: string): (w: View)
    requires v.Ok() && i < |v.nodes| && d < |v.nodes| && i != d && v.pend[i] > 0 && v.refs[i] > 0 && v.refs[d] > 0
  {
    Released(Released(Linked(v, d, name, i), d), i)
  }

  lemma AfterLinkOk(v: View, i: nat, d: nat, name: string)
    requires v.Ok() && i < |v.nodes| && v.Live(d) && i != d && v.pend[i] > 0 && v.refs[i] > 0 && v.refs[d] > 0 && NewName(v, d, name)
    ensures AfterLink(v, i, d, name).Ok()
  {
    LinkedOk(v, d, name, i);
    ReleasedOk(Linked(v, d, name, i), d);
    ReleasedOk(Released(Linked(v, d, name, i), d), i);
  }

  lemma MadeThenReleasedOk(v: View, d: nat, name: string, kind: Kind, i: nat)
    requires v.Ok() && v.Live(d) && 0 < i < |v.nodes| && v.nodes[i].kind == Free && kind != Free && NewName(v, d, name)
    requires v.refs[d] > 0 && i != d
    ensures Released(Made(v, d, name, kind, i), d).Ok()
  {
    if kind == Directory {
      MadeDirOk(v, d, name, i);
    } else {
      MadeFileOk(v, d, name, kind, i);
    }
    ReleasedOk(Made(v, d, name, kind, i), d);
  }

  /** Slot k of d, if there is one, names an inode in use. */
  ghost predicate LeadsOn(v: View, d: nat, k: nat)
    requires d < |v.nodes|
  {
    k < |v.nodes[d].ents| ==> v.nodes[d].ents[k].inum < |v.nodes| && v.nodes[v.nodes[d].ents[k].inum].kind != Free
  }

  ghost function AfterBadLink(v: View, i: nat, d: nat): (w: View)
    requires v.Ok() && i < |v.nodes| && d < |v.nodes| && i != d && v.pend[i] > 0 && v.refs[i] > 0 && (d != 0 ==> v.refs[d] > 0)
  {
    Released(LinkUndone(if d == 0 then v else Released(v, d), i), i)
  }

  ghost function AfterUnlink(v: View, d: nat, k: nat): (w: View)
    requires v.Ok() && CanUnlink(v, d, k) && v.refs[d] > 0
  {
    var i := v.nodes[d].ents[k].inum;
    Released(Released(Unlinked(Acquired(v, i), d, k), d), i)
  }

  /** unlink can take the name away: it is not "." or "..", it is there, and what it stands for is not a
      directory or is one with nothing after its first two entries. */
  predicate Removable(v: View, d: nat, name: string)
    requires d < |v.nodes|
  {
    var i := Lookup(v, d, name);
    && Clip(name) != "." && Clip(name) != ".." && 0 < i < |v.nodes|
    && (v.nodes[i].kind == Directory ==> forall k :: 2 <= k < |v.nodes[i].ents| ==> v.nodes[i].ents[k].inum == 0)
  }

  lemma RemovableIs(v: View, d: nat, name: string)
    requires v.Ok() && d < |v.nodes| && v.nodes[d].kind == Directory
    ensures var k := Find(v.nodes[d].ents, name);
            Removable(v, d, name) <==> Clip(name) != "." && Clip(name) != ".." && k < |v.nodes[d].ents| && CanUnlink(v, d, k)
  {
    var k := Find(v.nodes[d].ents, name);
    if Clip(name) != "." && Clip(name) != ".." && k < |v.nodes[d].ents| {
      FoundProper(v, d, name);
      EntryInUse(v, d, k);
      assert v.EntryOk(d, k);
    }
  }

  /** Every entry that create writes finds a slot. */
  predicate HasRoom(ents: seq<Entry>, kind: Kind, dotRoom: bool, dotdotRoom: bool, room: bool) {
    (kind == Directory ==> dotRoom && dotdotRoom) && (room || Gap(ents) < |ents|)
  }

  /** create's exits when the name stands for i: the inode with a reference to it, or 0. */
  ghost predicate Reused(v: View, w: View, d: nat, i: nat, kind: Kind, r: nat)
    requires v.Ok() && d < |v.nodes| && v.refs[d] > 0
  {
    && i < |v.nodes|
    && if kind == File && (v.nodes[i].kind == File || v.nodes[i].kind == Device)
       then r == i && w == Released(Acquired(v, i), d)
       else r == 0 && Released(Acquired(v, i), d).refs[i] > 0 && w == Released(Released(Acquired(v, i), d), i)
  }

  /** A proper name is found only in a live directory, after its "." and "..". */
  lemma FoundProper(v: View, d: nat, name: string)
    requires v.Ok() && d < |v.nodes| && v.nodes[d].kind == Directory && Clip(name) != "." && Clip(name) != ".."
    requires Find(v.nodes[d].ents, name) < |v.nodes[d].ents|
    ensures v.Live(d) && Find(v.nodes[d].ents, name) >= 2
  {
    var k := Find(v.nodes[d].ents, name);
    assert v.DeadOk(d) && Matches(v.nodes[d].ents[k], name);
    if v.Live(d) { assert v.UpOk(d); }
  }

  // ----- what the calls do to names, inodes and references -----

  /** iput frees an inode exactly when the reference was the last one and no name and no half-done link
      leads to it; otherwise inode and contents stay. */
  lemma PutFreesIff(v: View, i: nat)
    requires v.Ok() && i < |v.nodes| && v.refs[i] > 0
    ensures var w := Released(v, i);
            && (w.nodes[i].kind == Free <==> v.refs[i] == 1 && v.NamesOf(i) == {} && v.pend[i] == 0)
            && (w.nodes[i].kind != Free ==> w.nodes == v.nodes) && w.refs == v.refs[i := v.refs[i] - 1]
            && forall j: nat :: j < |v.nodes| && j != i ==> w.nodes[j] == v.nodes[j]
  {
    assert v.CountOk(i);
    if |v.NamesOf(i)| == 0 { assert v.NamesOf(i) == {}; }
  }

  /** Inode j is the same in v and w. */
  ghost predicate SameInode(v: View, w: View, j: nat) { j < |v.nodes| && j < |w.nodes| && w.nodes[j] == v.nodes[j] }

  /** unlink: the name is gone and no other lookup changes; the inode has a link fewer and is freed, with
      its contents, exactly when that was its last one and nobody has it open. */
  lemma UnlinkMeans(v: View, d: nat, name: string, c: nat, other: string)
    requires v.Ok() && d < |v.nodes| && v.nodes[d].kind == Directory && v.refs[d] > 0 && Removable(v, d, name) && v.Live(c)
    ensures CanUnlink(v, d, Find(v.nodes[d].ents, name))
    ensures var i, w := Lookup(v, d, name), AfterUnlink(v, d, Find(v.nodes[d].ents, name));
            && i != d && |w.nodes| == |v.nodes|
            && (c != i ==> Lookup(w, c, other) == if c == d && Clip(other) == Clip(name) then 0 else Lookup(v, c, other))
            && (w.nodes[i].kind == Free <==> v.nodes[i].nlink == 1 && v.refs[i] == 0)
            && (w.nodes[i].kind != Free ==> w.nodes[i] == v.nodes[i].(nlink := v.nodes[i].nlink - 1))
            && w.refs == v.refs[d := v.refs[d] - 1]
            && forall j: nat :: j < |v.nodes| && j != i && j != d ==> SameInode(v, w, j)
  {
    hide View.Ok, CanUnlink, AfterUnlink, Removable, View.Live;
    RemovableSlot(v, d, name);
    var k := Find(v.nodes[d].ents, name);
    LookupAfterUnlink(v, d, k, c, other);
    AfterUnlinkIs(v, d, k);
    assert c < |v.nodes| by { LiveInside(v, c); }
  }

  lemma LiveInside(v: View, c: nat)
    requires v.Live(c)
    ensures c < |v.nodes|
  {
  }

  /** The entry that unlink finds for a name it can take away. */
  lemma RemovableSlot(v: View, d: nat, name: string)
    requires v.Ok() && d < |v.nodes| && v.nodes[d].kind == Directory && Removable(v, d, name)
    ensures var k := Find(v.nodes[d].ents, name);
            && k < |v.nodes[d].ents| && CanUnlink(v, d, k) && Matches(v.nodes[d].ents[k], name)
            && var i := v.nodes[d].ents[k].inum; i < |v.nodes| && v.nodes[i].kind != Free
  {
    RemovableIs(v, d, name);
    EntryInUse(v, d, Find(v.nodes[d].ents, name));
  }

  /** The directory stays, and so the two iputs can free only the inode that lost its name. */
  lemma AfterUnlinkIs(v: View, d: nat, k: nat)
    requires v.Ok() && CanUnlink(v, d, k) && v.refs[d] > 0
    ensures var i := v.nodes[d].ents[k].inum;
            var u, w := Unlinked(v, d, k), AfterUnlink(v, d, k);
            && i != d && w.refs == v.refs[d := v.refs[d] - 1]
            && w.nodes == if v.refs[i] == 0 && u.nodes[i].nlink == 0 then u.nodes[i := Inode(Free, 0, [])] else u.nodes
  {
    var i := v.nodes[d].ents[k].inum;
    if v.nodes[i].kind == Directory { EmptyHasOneName(v, d, k); }
    UnlinkedOk(v, d, k);
    UnlinkLive(v, d, k);
    assert Unlinked(v, d, k).Live(d);
    hide View.Ok, CanUnlink;
  }

  /** create of a new name: the new inode has the kind asked for, one link, one reference and its name; a
      directory leads back by "." and ".." and has nothing else; no other lookup or inode changes. */
  lemma CreateMeans(v: View, d: nat, name: string, kind: Kind, i: nat, c: nat, other: string)
    requires v.Ok() && v.Live(d) && v.refs[d] > 0 && NewName(v, d, name) && v.Live(c)
    requires 0 < i < |v.nodes| && v.nodes[i].kind == Free && kind != Free
    ensures var w := Released(Made(v, d, name, kind, i), d);
            && |w.nodes| == |v.nodes| && w.nodes[i].kind == kind && w.nodes[i].nlink == 1 && w.refs == v.refs[i := 1][d := v.refs[d] - 1]
            && Lookup(w, d, name) == i
            && Lookup(w, c, other) == (if c == d && Clip(other) == Clip(name) then i else Lookup(v, c, other))
            && (kind == Directory ==> Lookup(w, i, ".") == i && Lookup(w, i, "..") == d && Empty(w.nodes[i].ents))
            && (kind != Directory ==> w.nodes[i].ents == [])
            && forall j: nat :: j < |v.nodes| && j != i && j != d ==> SameInode(v, w, j)
  {
    LookupAfterEntry(v, d, name, i, c, other);
    LookupAfterEntry(v, d, name, i, d, name);
    var w := Made(v, d, name, kind, i);
    assert w.nodes[d].ents == WithEntry(v, d, name, i).nodes[d].ents && w.nodes[d].nlink > 0;
    if kind == Directory {
      FindIs(w.nodes[i].ents, ".", 0);
      FindIs(w.nodes[i].ents, "..", 1);
    }
  }

  /** link: the inode has the new name besides those it had, and the link counted at the start stays. */
  lemma LinkMeans(v: View, i: nat, d: nat, name: string, c: nat, other: string)
    requires v.Ok() && v.Live(d) && v.refs[d] > 0 && NewName(v, d, name) && v.Live(c)
    requires 0 < i < |v.nodes| && i != d && v.pend[i] > 0 && v.refs[i] > 0
    ensures var w := AfterLink(v, i, d, name);
            && |w.nodes| == |v.nodes| && w.nodes[i] == v.nodes[i] && w.refs == v.refs[d := v.refs[d] - 1][i := v.refs[i] - 1]
            && Lookup(w, c, other) == (if c == d && Clip(other) == Clip(name) then i else Lookup(v, c, other))
            && forall j: nat :: j < |v.nodes| && j != d ==> SameInode(v, w, j)
  {
    assert v.CountOk(i);
    LookupAfterEntry(v, d, name, i, c, other);
  }

  /** The two halves of link together: one link more and the new name. */
  lemma LinkWhole(v: View, i: nat, d: nat, name: string)
    requires v.Ok() && v.Live(d) && v.refs[d] > 0 && NewName(v, d, name)
    requires 0 < i < |v.nodes| && v.nodes[i].kind != Directory && v.refs[i] > 0
    ensures i != d && LinkBegun(v, i).pend[i] > 0 && LinkBegun(v, i).Ok()
    ensures var w := AfterLink(LinkBegun(v, i), i, d, name);
            |w.nodes| == |v.nodes| && w.nodes[i] == v.nodes[i].(nlink := v.nodes[i].nlink + 1) && Lookup(w, d, name) == i
  {
    assert v.CountOk(i);
    LinkBegunOk(v, i);
    LinkMeans(LinkBegun(v, i), i, d, name, d, name);
  }

  /** A link that fails leaves the inodes as if it had only been looked up. */
  lemma BadLinkUndone(v: View, i: nat, d: nat)
    requires v.Ok() && 0 < i < |v.nodes| && v.nodes[i].kind != Directory && v.refs[i] > 0
    requires d < |v.nodes| && d != i && (d != 0 ==> v.refs[d] > 0)
    ensures LinkBegun(v, i).Ok() && AfterBadLink(LinkBegun(v, i), i, d) == Released(if d == 0 then v else Released(v, d), i)
  {
    assert v.CountOk(i);
    LinkBegunOk(v, i);
    if d != 0 { UndoneAfter(v, i, d); } else { Undone(v, i); }
  }

  lemma Undone(v: View, i: nat)
    requires v.Shape() && i < |v.nodes|
    ensures LinkUndone(LinkBegun(v, i), i) == v
  {
  }

  lemma UndoneAfter(v: View, i: nat, d: nat)
    requires v.Shape() && i < |v.nodes| && d < |v.nodes| && d != i && v.refs[d] > 0
    ensures Released(LinkBegun(v, i), d) == LinkBegun(Released(v, d), i) && LinkUndone(Released(LinkBegun(v, i), d), i) == Released(v, d)
  {
    Undone(Released(v, d), i);
  }
}
