/** The loops of kernel/fs.c over the bitmap, the inodes and the blocks, in place. */
module Fs {
  import opened FileBlocks
  import LogSpace
  import Counting

  class Fs {
    const nmeta: nat
    const bmapstart: nat
    const inodestart: nat
    const used: array<bool>        // the bitmap, bit by bit
    const data: array<Block>
    const inodes: array<Inode>     // the in-memory inodes, by number
    ghost var view: Sound

    ghost predicate Valid()
      reads this, used, data, inodes
    {
      && view.nmeta == nmeta && view.bmapstart == bmapstart && view.inodestart == inodestart
      && view.used == used[..] && view.data == data[..] && view.inodes == inodes[..]
    }

    /** A file system with every inode empty and only the metadata blocks in use. */
    constructor (size: nat, ninodes: nat, nmeta: nat, bmapstart: nat, inodestart: nat)
      requires 0 < nmeta <= size <= UINT
      ensures Valid() && fresh(used) && fresh(data) && fresh(inodes) && view == Formatted(size, ninodes, nmeta, bmapstart, inodestart)
    {
      this.nmeta, this.bmapstart, this.inodestart := nmeta, bmapstart, inodestart;
      used := new bool[size](b => b < nmeta);
      data := new Block[size](_ => Zeros());
      inodes := new Inode[ninodes](_ => Inode(seq(NDIRECT + 1, _ => 0), 0));
      view := Empty();
      new;
      assert View(nmeta, bmapstart, inodestart, used[..], data[..], inodes[..], map[], {}) == Formatted(size, ninodes, nmeta, bmapstart, inodestart);
      FormattedOk(size, ninodes, nmeta, bmapstart, inodestart);
      view := Formatted(size, ninodes, nmeta, bmapstart, inodestart);
    }

    /** The two loops of balloc: the lowest free block, or the disk size. */
    method FindFree() returns (n: nat)
      requires Valid()
      ensures n <= used.Length && (forall c :: 0 <= c < n ==> used[c]) && (n < used.Length ==> !used[n])
    {
      var b := 0;
      while b < used.Length
        invariant 0 <= b && forall c :: 0 <= c < b && c < used.Length ==> used[c]
      {
        var bi := 0;
        while bi < BPB && b + bi < used.Length
          invariant 0 <= bi <= BPB
          invariant forall c :: 0 <= c < b + bi && c < used.Length ==> used[c]
        {
          if !used[b + bi] {
            return b + bi;
          }
          bi := bi + 1;
        }
        b := b + BPB;
      }
      return used.Length;
    }

    /** balloc: a zeroed block, or 0 when none is free. */
    method Balloc() returns (b: nat)
      requires Valid()
      modifies `view, used, data
      ensures Valid()
      ensures b == 0 ==> view == old(view) && Full(view)
      ensures b != 0 ==> b < |old(view).used| && !old(view).used[b] && view == Taken(old(view), b)
      ensures b != 0 ==> (forall c :: 0 <= c < b ==> old(view).used[c]) && view.data[b] == Zeros() && view.used[b]
    {
      b := FindFree();
      if b == used.Length {
        return 0;
      }
      TakenOk(view, b);
      used[b] := true;
      data[b] := Zeros();
      view := Taken(view, b);
    }

    /** bmap on an address kept in the inode itself, allocating when it is zero. */
    method FillInodeSlot(i: nat, k: nat, ghost m: nat, ghost n: nat) returns (addr: nat)
      requires Valid() && i < inodes.Length && k <= NDIRECT && InRange(k, m, n)
      modifies `view, used, data, inodes
      ensures Valid() && Grown(old(view), view, i) && addr == view.Addr(i, k)
      ensures Accounted(old(view), view, i, m, n)
      ensures addr == 0 ==> view == old(view) && Full(view)
      ensures old(view).Addr(i, k) != 0 ==> view == old(view)
      ensures OneBitmapBlock(view) && addr != 0 ==> view.logged <= old(view).logged + {bmapstart, addr}
    {
      hide Accounted;
      addr := inodes[i].addrs[k];
      ghost var v: Sound := view;
      GrownRefl(v, i);
      AccountedRefl(v, i, m, n);
      if addr == 0 {
        addr := Balloc();
        if addr == 0 {
          return;
        }
        GrownByOne(v, i, k, addr);
        TakenOk(v, addr);
        AccountedOne(v, i, k, addr, m, n);
        if OneBitmapBlock(v) { BblockSame(v, addr); }
        inodes[i] := inodes[i].(addrs := inodes[i].addrs[k := addr]);
        view := Placed(view, i, k, addr);
      }
    }

    /** bmap on entry j of an indirect block t. */
    method FillEntry(i: nat, j: nat, t: nat) returns (addr: nat)
      requires Valid() && i < inodes.Length && j < NINDIRECT && HasIndirect(view, i) && view.inodes[i].addrs[NDIRECT] == t
      modifies `view, used, data
      ensures Valid() && Grown(old(view), view, i) && addr == view.Addr(i, NDIRECT + 1 + j)
      ensures Accounted(old(view), view, i, NDIRECT + j, NDIRECT + j + 1)
      ensures addr == 0 ==> view == old(view) && Full(view)
      ensures old(view).Addr(i, NDIRECT + 1 + j) != 0 ==> view == old(view)
      ensures OneBitmapBlock(view) && addr != 0 ==> view.logged <= old(view).logged + {bmapstart, addr, t}
    {
      hide Accounted;
      ghost var v: Sound := view;
      ghost var k := NDIRECT + 1 + j;
      assert v.SlotOk(i, k);
      GrownRefl(v, i);
      AccountedRefl(v, i, NDIRECT + j, NDIRECT + j + 1);
      var a := Word(data[t], j);
      addr := a;
      if addr == 0 {
        addr := Balloc();
        if addr != 0 {
          GrownByOne(v, i, k, addr);
          TakenOk(v, addr);
          AccountedOne(v, i, k, addr, NDIRECT + j, NDIRECT + j + 1);
          if OneBitmapBlock(v) { BblockSame(v, addr); }
          assert v.SlotOk(i, NDIRECT) && v.OwnerOk(t);
          data[t] := SetWord(data[t], j, addr);
          view := Placed(view, i, k, addr);
        }
      }
    }

    /** bmap: the address of file block bn, allocated if missing; 0 when the disk is full. */
    method Bmap(i: nat, bn: nat) returns (addr: nat)
      requires Valid() && i < inodes.Length && bn < MAXFILE
      modifies `view, used, data, inodes
      ensures Valid() && Grown(old(view), view, i) && addr == view.Addr(i, SlotOf(bn))
      ensures Accounted(old(view), view, i, bn, bn + 1)
      ensures addr == 0 ==> Full(view)
      ensures old(view).Addr(i, SlotOf(bn)) != 0 ==> view == old(view)
      ensures OneBitmapBlock(view) ==> view.logged <= old(view).logged + Touched(view, i, bn, bn + 1)
    {
      hide Accounted;
      if bn < NDIRECT {
        addr := FillInodeSlot(i, bn, bn, bn + 1);
        return;
      }
      ghost var v: Sound := view;
      var t := FillInodeSlot(i, NDIRECT, bn, bn + 1);
      ghost var w: Sound := view;
      assert w.SlotOk(i, NDIRECT);
      if t == 0 {
        return 0;
      }
      assert w.OwnerOk(t);
      addr := FillEntry(i, bn - NDIRECT, t);
      GrownTrans(v, w, view, i);
      AccountedTrans(v, w, view, i, bn, bn + 1);
      assert view.Addr(i, NDIRECT) == w.Addr(i, NDIRECT);
    }

    /** One turn of writei's loop: at most the rest of one block; false when the disk is full. */
    method WriteChunk(i: nat, off: nat, src: seq<int>, ghost s: seq<int>) returns (ok: bool)
      requires Valid() && i < inodes.Length && Holds(view, i, s) && off <= |s|
      requires 0 < |src| <= BSIZE - off % BSIZE && off + |src| <= MAXFILE * BSIZE
      modifies `view, used, data, inodes
      ensures Valid() && OthersSame(old(view), view, i) && view.inodes[i].size == old(view).inodes[i].size
      ensures Holds(view, i, if ok then Splice(s, off, src) else s)
      ensures !ok ==> Full(view)
      ensures Accounted(old(view), view, i, off / BSIZE, off / BSIZE + 1)
      ensures OneBitmapBlock(view) ==> view.logged <= old(view).logged + Touched(view, i, off / BSIZE, off / BSIZE + 1)
    {
      hide Accounted, Holds, Touched, OthersSame;
      ghost var v: Sound := view;
      assert FileSlot(off) == SlotOf(off / BSIZE);
      var addr := Bmap(i, off / BSIZE);
      ghost var w: Sound := view;
      OthersByGrowth(v, w, i);
      GrownHolds(v, w, i, i, s);
      assert w.inodes[i].size == v.inodes[i].size;
      if addr == 0 {
        return false;
      }
      StoreChunk(i, off, src, addr, s, v);
      return true;
    }

    /** The copy into block addr, which bmap has just given. */
    method StoreChunk(i: nat, off: nat, src: seq<int>, addr: nat, ghost s: seq<int>, ghost v: Sound)
      requires Valid() && i < inodes.Length && Holds(view, i, s) && off <= |s|
      requires 0 < |src| <= BSIZE - off % BSIZE && off + |src| <= MAXFILE * BSIZE
      requires addr != 0 && view.Addr(i, FileSlot(off)) == addr && i < |v.inodes| && Grown(v, view, i)
      requires OthersSame(v, view, i) && Accounted(v, view, i, off / BSIZE, off / BSIZE + 1)
      requires OneBitmapBlock(view) ==> view.logged <= v.logged + Touched(view, i, off / BSIZE, off / BSIZE + 1)
      modifies `view, data
      ensures Valid() && OthersSame(v, view, i) && view.inodes == old(view).inodes && Holds(view, i, Splice(s, off, src))
      ensures Accounted(v, view, i, off / BSIZE, off / BSIZE + 1)
      ensures OneBitmapBlock(view) ==> view.logged <= v.logged + Touched(view, i, off / BSIZE, off / BSIZE + 1)
    {
      hide Accounted, Holds, Touched, OthersSame;
      ghost var w: Sound := view;
      assert FileSlot(off) == SlotOf(off / BSIZE);
      ChunkHolds(w, i, s, off, src);
      assert w.SlotOk(i, FileSlot(off));
      ghost var block := Chunk(w.data[addr], off % BSIZE, src);
      OthersByStore(v, w, i, addr, block);
      AccountedStore(w, i, addr, block, off / BSIZE, off / BSIZE + 1);
      AccountedTrans(v, w, Stored(w, addr, block), i, off / BSIZE, off / BSIZE + 1);
      StoredTouched(w, i, off / BSIZE, addr, block);
      data[addr] := Chunk(data[addr], off % BSIZE, src);
      view := Stored(w, addr, block);
    }

    /** writei.  The number of bytes written, fewer than asked for only when the disk is full,
        or -1 for a bad range; the file is then its old contents with those bytes spliced in. */
    method Writei(i: nat, off: nat, src: seq<int>, ghost s: seq<int>) returns (r: int)
      requires Valid() && i < inodes.Length && FileIs(view, i, s) && off < UINT && |src| < UINT
      modifies `view, used, data, inodes
      ensures Valid() && -1 <= r <= |src|
      ensures r == -1 <==> off > |s| || off + |src| > MAXFILE * BSIZE
      ensures r == -1 ==> view == old(view)
      ensures r >= 0 ==> FileIs(view, i, Splice(s, off, src[..r])) && OthersSame(old(view), view, i)
      ensures 0 <= r < |src| ==> Full(view)
      ensures r >= 0 ==> Accounted(old(view), view, i, off / BSIZE, EndBlock(off, |src|)) && view.Iblock(i) in view.logged
      ensures r >= 0 && OneBitmapBlock(view) ==>
                view.logged <= old(view).logged + Touched(view, i, off / BSIZE, EndBlock(off, |src|)) + {view.Iblock(i)}
    {
      hide Accounted, Touched, OthersSame;
      if off > inodes[i].size || off + |src| >= UINT {
        return -1;
      }
      if off + |src| > MAXFILE * BSIZE {
        return -1;
      }
      var tot := WriteLoop(i, off, src, s);
      ghost var w: Sound := view;
      ghost var size := if off + tot > |s| then off + tot else |s|;
      ResizedHolds(w, i, size, Splice(s, off, src[..tot]));
      ResizedOk(w, i, size);
      OthersTrans(old(view), w, Resized(w, i, size), i);
      AccountedResize(w, i, size, off / BSIZE, EndBlock(off, |src|));
      AccountedTrans(old(view), w, Resized(w, i, size), i, off / BSIZE, EndBlock(off, |src|));
      TouchedWider(w, Resized(w, i, size), i, off / BSIZE, off / BSIZE, EndBlock(off, |src|), EndBlock(off, |src|));
      if off + tot > inodes[i].size {
        inodes[i] := inodes[i].(size := off + tot);
      }
      view := Resized(w, i, size);
      return tot;
    }

    /** The loop of writei. */
    method WriteLoop(i: nat, off: nat, src: seq<int>, ghost s: seq<int>) returns (tot: nat)
      requires Valid() && i < inodes.Length && Holds(view, i, s) && off <= |s| && off + |src| <= MAXFILE * BSIZE
      modifies `view, used, data, inodes
      ensures Valid() && tot <= |src| && (tot < |src| ==> Full(view))
      ensures Holds(view, i, Splice(s, off, src[..tot])) && OthersSame(old(view), view, i)
      ensures view.inodes[i].size == old(view).inodes[i].size
      ensures Accounted(old(view), view, i, off / BSIZE, EndBlock(off, |src|))
      ensures OneBitmapBlock(view) ==>
                view.logged <= old(view).logged + Touched(view, i, off / BSIZE, EndBlock(off, |src|))
    {
      hide Accounted;
      ghost var v: Sound := view;
      GrownRefl(v, i);
      AccountedRefl(v, i, off / BSIZE, EndBlock(off, |src|));
      OthersByGrowth(v, v, i);
      tot := 0;
      assert Splice(s, off, src[..0]) == s;
      while tot < |src|
        invariant tot <= |src| && Valid()
        invariant Progress(v, view, i, off, src, tot, s)
        decreases |src| - tot
      {
        var o := off + tot;
        var m := if |src| - tot < BSIZE - o % BSIZE then |src| - tot else BSIZE - o % BSIZE;
        var ok := WriteStep(i, off, src, tot, m, s, v);
        if !ok {
          break;
        }
        tot := tot + m;
      }
    }

    /** One turn of writei's loop keeps the loop's progress. */
    method WriteStep(i: nat, off: nat, src: seq<int>, tot: nat, m: nat, ghost s: seq<int>, ghost v: View) returns (ok: bool)
      requires Valid() && v.Ok() && i < |v.inodes| && i < inodes.Length && off <= |s| && off + |src| <= MAXFILE * BSIZE
      requires tot + m <= |src| && 0 < m <= BSIZE - (off + tot) % BSIZE && Progress(v, view, i, off, src, tot, s)
      modifies `view, used, data, inodes
      ensures Valid() && (!ok ==> Full(view))
      ensures Progress(v, view, i, off, src, if ok then tot + m else tot, s)
    {
      hide Accounted, OthersSame, Touched, Holds;
      ghost var w: Sound := view;
      SpliceTwice(s, off, src[..tot], src[tot..tot + m]);
      assert src[..tot] + src[tot..tot + m] == src[..tot + m];
      ok := WriteChunk(i, off + tot, src[tot..tot + m], Splice(s, off, src[..tot]));
      OthersTrans(v, w, view, i);
      BlockInside(off, |src|, off + tot);
      AccountedWider(w, view, i, (off + tot) / BSIZE, (off + tot) / BSIZE + 1, off / BSIZE, EndBlock(off, |src|));
      AccountedTrans(v, w, view, i, off / BSIZE, EndBlock(off, |src|));
      LogsStay(v, w, view, i, off, |src|, off + tot);
    }

    /** readi: the slice of the file that lies in the range asked for.  It never allocates. */
    method Readi(i: nat, off: nat, n: nat, ghost s: seq<int>) returns (dst: seq<int>)
      requires Valid() && i < inodes.Length && FileIs(view, i, s) && off < UINT && n < UINT
      modifies `view, used, data, inodes
      ensures Valid() && view == old(view)
      ensures dst == if off > |s| || off + n >= UINT then []
                     else s[off..if off + n > |s| then |s| else off + n]
    {
      if off > inodes[i].size || off + n >= UINT {
        return [];
      }
      var len := if off + n > inodes[i].size then inodes[i].size - off else n;
      ghost var v: Sound := view;
      dst := [];
      while |dst| < len
        invariant |dst| <= len && off + len <= |s| && Valid() && view == v
        invariant dst == s[off..off + |dst|]
        decreases len - |dst|
      {
        var o := off + |dst|;
        assert ByteIs(v, i, o, s);
        var addr := Bmap(i, o / BSIZE);
        var m := if len - |dst| < BSIZE - o % BSIZE then len - |dst| else BSIZE - o % BSIZE;
        ReadSlice(v, i, s, o, m);
        dst := dst + data[addr][o % BSIZE..o % BSIZE + m];
      }
    }

    /** One operation of filewrite: begin_op empties the account of logged blocks, writei runs on at
        most CHUNK bytes.  It logs at most seven blocks, so the log has room for it. */
    method WriteOp(i: nat, off: nat, src: seq<int>, ghost s: seq<int>) returns (r: int)
      requires Valid() && i < inodes.Length && FileIs(view, i, s) && off < UINT && |src| <= CHUNK
      modifies `view, used, data, inodes
      ensures Valid() && -1 <= r <= |src|
      ensures r == -1 <==> off > |s| || off + |src| > MAXFILE * BSIZE
      ensures OthersSame(old(view), view, i)
      ensures if r < 0 then FileIs(view, i, s) else FileIs(view, i, Splice(s, off, src[..r]))
      ensures 0 <= r < |src| ==> Full(view)
      ensures r >= 0 ==> Transacted(old(view), view, i, off, |src|)
      ensures OneBitmapBlock(view) ==> |view.logged| <= 7
    {
      hide Accounted;
      ghost var v: Sound := view;
      BegunOk(v, i, s);
      view := Begun(v);
      ghost var u: Sound := view;
      r := Writei(i, off, src, s);
      if r >= 0 {
        OthersTrans(v, u, view, i);
        SevenBlocks(view, i, off, |src|);
        if OneBitmapBlock(view) {
          Counting.SubsetSize(view.logged, Touched(view, i, off / BSIZE, EndBlock(off, |src|)) + {view.Iblock(i)});
        }
      }
    }

    /** One turn of writei's loop, with an account of its own. */
    method ChunkOp(i: nat, off: nat, src: seq<int>, ghost s: seq<int>) returns (ok: bool)
      requires Valid() && i < inodes.Length && Holds(view, i, s) && off <= |s|
      requires 0 < |src| <= BSIZE - off % BSIZE && off + |src| <= MAXFILE * BSIZE
      modifies `view, used, data, inodes
      ensures Valid() && TurnDone(old(view), view, i, off, src, if ok then Splice(s, off, src) else s) && (!ok ==> Full(view))
    {
      hide Accounted, Touched;
      ghost var v: Sound := view;
      BegunHolds(v, i, s);
      view := Begun(v);
      ghost var u: Sound := view;
      ok := WriteChunk(i, off, src, s);
      OthersTrans(v, u, view, i);
      assert off / BSIZE < MAXFILE;
    }

    /** The end of writei and its iupdate, with an account of its own. */
    method UpdateOp(i: nat, ghost s: seq<int>, size: nat)
      requires Valid() && i < inodes.Length && Holds(view, i, s) && size == |s|
      modifies `view, inodes
      ensures Valid() && view == Resized(Begun(old(view)), i, |s|)
    {
      BegunHolds(view, i, s);
      ResizedOk(Begun(view), i, size);
      inodes[i] := inodes[i].(size := size);
      view := Resized(Begun(view), i, size);
    }

    /** filewrite on an inode: operations of CHUNK bytes until all is written or one falls short.
        m bytes are stored and the offset moves past them; logs lists what each operation logged. */
    method Filewrite(i: nat, off: nat, src: seq<int>, ghost s: seq<int>)
      returns (ret: int, newOff: nat, ghost m: nat, ghost logs: seq<set<nat>>)
      requires Valid() && i < inodes.Length && FileIs(view, i, s) && off + |src| < UINT
      modifies `view, used, data, inodes
      ensures Valid() && m <= |src| && Written(old(view), view, i, off, s, src[..m], logs)
      ensures newOff == off + m && ret == if m == |src| then |src| else -1
      ensures m < |src| ==> Full(view) || off > |s| || (AtChunk(m, |src|) && off + m + ChunkOf(|src| - m) > MAXFILE * BSIZE)
      ensures m > 0 ==> off + m <= MAXFILE * BSIZE
    {
      hide Written, Full, AtChunk, ChunkOf;
      ghost var v: Sound := view;
      FirstChunk(|src|);
      newOff, m, logs := off, 0, [];
      WrittenNone(v, i, off, s);
      assert src[..0] == [];
      var j := 0;
      while j < |src|
        invariant Valid() && |v.inodes| == inodes.Length && j == m <= |src| && newOff == off + m
        invariant Written(v, view, i, off, s, src[..m], logs)
        invariant AtChunk(j, |src|) && (m > 0 ==> off + m <= MAXFILE * BSIZE)
        decreases |src| - j
      {
        NextChunk(j, |src|);
        var n := ChunkOf(|src| - j);
        var r;
        r, logs := WriteTurn(i, newOff, src, j, n, v, off, s, logs);
        if r > 0 {
          newOff := newOff + r;
          m := m + r;
        }
        if r != n {
          break;
        }
        j := j + r;
      }
      ret := if j == |src| then j else -1;
    }

    method WriteTurn(i: nat, at: nat, src: seq<int>, j: nat, n: nat, ghost v: Sound, ghost off: nat, ghost s: seq<int>,
                     ghost before: seq<set<nat>>)
      returns (r: int, ghost logs: seq<set<nat>>)
      requires Valid() && i < |v.inodes| == inodes.Length && j + n <= |src| && Written(v, view, i, off, s, src[..j], before)
      requires at == off + j < UINT && n <= CHUNK
      modifies `view, used, data, inodes
      ensures Valid() && -1 <= r <= n
      ensures Written(v, view, i, off, s, src[..if r > 0 then j + r else j], logs)
      ensures r == -1 ==> off > |s| || at + n > MAXFILE * BSIZE
      ensures r >= 0 ==> at + n <= MAXFILE * BSIZE && (r < n ==> Full(view))
    {
      hide OthersSame, Holds, Splice;
      ghost var w: Sound := view;
      r := WriteOp(i, at, src[j..j + n], Overwritten(s, off, src[..j]));
      OthersTrans(v, w, view, i);
      logs := before + [view.logged];
      if r >= 0 && off <= |s| {
        SpliceTwice(s, off, src[..j], src[j..j + n][..r]);
        assert src[..j] + src[j..j + n][..r] == src[..j + r];
      }
    }

    /** bfree; freeing a free block would panic. */
    method Bfree(b: nat)
      requires b < used.Length && used[b]
      modifies used
      ensures used[..] == old(used[..])[b := false]
    {
      used[b] := false;
    }

    /** itrunc: frees exactly the file's blocks, wherever its size ends. */
    method Itrunc(i: nat)
      requires Valid() && i < inodes.Length
      modifies `view, used, inodes
      ensures Valid() && view == Truncated(old(view), i)
    {
      ghost var v: Sound := view;
      ghost var done := FreeDirect(i);
      if inodes[i].addrs[NDIRECT] != 0 {
        done := FreeIndirect(i, done);
      }
      inodes[i] := inodes[i].(size := 0);
      AllUnused(v, i, done);
      assert inodes[i].addrs == seq(NDIRECT + 1, _ => 0);
      TruncatedOk(v, i);
      view := Truncated(v, i);
    }

    /** The entries of the indirect block, then the block itself. */
    method FreeIndirect(i: nat, ghost before: set<nat>) returns (ghost done: set<nat>)
      requires DirectFreed(i, NDIRECT, before) && inodes[i].addrs[NDIRECT] != 0
      modifies used, inodes
      ensures used[..] == Unused(view, i, done) && data[..] == view.data
      ensures forall q: nat {:trigger q in done} :: q < NSLOTS ==> q in done
      ensures inodes[..] == view.inodes[i := inodes[i]] && inodes[i].addrs == seq(NDIRECT, _ => 0) + [0]
    {
      ghost var v: Sound := view;
      var t := inodes[i].addrs[NDIRECT];
      assert v.SlotOk(i, NDIRECT) && v.OwnerOk(t);
      done := FreeEntries(i, t, before);
      UnusedStep(v, i, done, NDIRECT);
      Bfree(t);
      inodes[i] := inodes[i].(addrs := inodes[i].addrs[NDIRECT := 0]);
      done := done + {NDIRECT};
    }

    /** The first loop of itrunc. */
    method FreeDirect(i: nat) returns (ghost done: set<nat>)
      requires Valid() && i < inodes.Length
      modifies used, inodes
      ensures DirectFreed(i, NDIRECT, done)
    {
      var k := 0;
      done := {};
      assert Unused(view, i, {}) == view.used;
      assert view.inodes[i].addrs[0..] == view.inodes[i].addrs;
      while k < NDIRECT
        invariant 0 <= k <= NDIRECT && DirectFreed(i, k, done)
      {
        done := FreeDirectStep(i, k, done);
        k := k + 1;
      }
    }

    /** The blocks of slots done are free: those of i's first k direct addresses, now zero. */
    ghost predicate DirectFreed(i: nat, k: nat, done: set<nat>)
      requires k <= NDIRECT
      reads this, used, data, inodes
    {
      && i < inodes.Length == |view.inodes|
      && (forall q: nat {:trigger q in done} :: q in done <==> q < k)
      && used[..] == Unused(view, i, done) && data[..] == view.data
      && inodes[..] == view.inodes[i := inodes[i]] && inodes[i].size == view.inodes[i].size
      && |view.inodes[i].addrs| == NDIRECT + 1
      && inodes[i].addrs == seq(k, _ => 0) + view.inodes[i].addrs[k..]
    }

    method FreeDirectStep(i: nat, k: nat, ghost before: set<nat>) returns (ghost done: set<nat>)
      requires k < NDIRECT && DirectFreed(i, k, before)
      modifies used, inodes
      ensures DirectFreed(i, k + 1, done)
    {
      ghost var v: Sound := view;
      ghost var addrs := v.inodes[i].addrs;
      assert addrs[k..] == [addrs[k]] + addrs[k + 1..];
      done := before + {k};
      UnusedStep(v, i, before, k);
      var a := inodes[i].addrs[k];
      assert a == v.Addr(i, k);
      if a != 0 {
        Bfree(a);
        inodes[i] := inodes[i].(addrs := inodes[i].addrs[k := 0]);
      }
      assert inodes[i].addrs == seq(k + 1, _ => 0) + addrs[k + 1..];
    }

    /** The second loop of itrunc, over the entries of indirect block t. */
    method FreeEntries(i: nat, t: nat, ghost before: set<nat>) returns (ghost done: set<nat>)
      requires DirectFreed(i, NDIRECT, before) && 0 < t < data.Length && t == view.inodes[i].addrs[NDIRECT]
      modifies used
      ensures used[..] == Unused(view, i, done)
      ensures forall q: nat {:trigger q in done} :: q in done <==> q < NSLOTS && q != NDIRECT
    {
      ghost var v: Sound := view;
      var j := 0;
      done := before;
      while j < NINDIRECT
        invariant 0 <= j <= NINDIRECT && used[..] == Unused(v, i, done)
        invariant forall q: nat {:trigger q in done} :: q in done <==> q < NDIRECT + 1 + j && q != NDIRECT
      {
        UnusedStep(v, i, done, NDIRECT + 1 + j);
        var a := Word(data[t], j);
        assert a == v.Addr(i, NDIRECT + 1 + j);
        if a != 0 {
          Bfree(a);
        }
        done := done + {NDIRECT + 1 + j};
        j := j + 1;
      }
    }
  }

  /** Once every slot that can hold a block is done, all of the inode's blocks are free. */
  lemma AllUnused(v: View, i: nat, done: set<nat>)
    requires v.Ok() && i < |v.inodes|
    requires forall k: nat {:trigger k in done} :: k < NDIRECT ==> k in done
    requires v.inodes[i].addrs[NDIRECT] != 0 ==> forall k: nat {:trigger k in done} :: k < NSLOTS ==> k in done
    ensures Unused(v, i, done) == Truncated(v, i).used
  {
    forall b | 0 <= b < |v.used| ensures Unused(v, i, done)[b] == Truncated(v, i).used[b] {
      if b in v.owner { assert v.OwnerOk(b); }
    }
  }

  /** One block's worth of a file read from its block. */
  lemma ReadSlice(v: View, i: nat, s: seq<int>, o: nat, m: nat)
    requires v.Ok() && i < |v.inodes| && Holds(v, i, s) && o < |s| && 0 < m && o + m <= |s| && m <= BSIZE - o % BSIZE
    ensures var a := v.Addr(i, FileSlot(o));
            0 < a < |v.data| && v.data[a][o % BSIZE..o % BSIZE + m] == s[o..o + m]
  {
    assert ByteIs(v, i, o, s);
    var a := v.Addr(i, FileSlot(o));
    var d := v.data[a][o % BSIZE..o % BSIZE + m];
    forall q | 0 <= q < m ensures d[q] == s[o..o + m][q] {
      assert ByteIs(v, i, o + q, s);
      SameBlock(o, o + q, m);
    }
  }

  /** tot bytes of src are in place in file i. */
  ghost predicate Progress(v: View, w: View, i: nat, off: nat, src: seq<int>, tot: nat, s: seq<int>)
    requires v.Ok() && w.Ok() && i < |v.inodes| && off <= |s| && off + |src| <= MAXFILE * BSIZE && tot <= |src|
  {
    && OthersSame(v, w, i) && w.inodes[i].size == v.inodes[i].size
    && Holds(w, i, Splice(s, off, src[..tot])) && Accounted(v, w, i, off / BSIZE, EndBlock(off, |src|))
    && (OneBitmapBlock(w) ==> w.logged <= v.logged + Touched(w, i, off / BSIZE, EndBlock(off, |src|)))
  }

  lemma BlockInside(off: nat, n: nat, o: nat)
    requires off <= o < off + n
    ensures off / BSIZE <= o / BSIZE && o / BSIZE + 1 <= EndBlock(off, n)
  {
  }

  lemma LogsStay(v: View, w: View, x: View, i: nat, off: nat, n: nat, o: nat)
    requires v.Ok() && w.Ok() && x.Ok() && i < |v.inodes| && OthersSame(v, w, i) && OthersSame(w, x, i)
    requires off + n <= MAXFILE * BSIZE && off <= o < off + n
    requires OneBitmapBlock(w) ==> w.logged <= v.logged + Touched(w, i, off / BSIZE, EndBlock(off, n))
    requires OneBitmapBlock(x) ==> x.logged <= w.logged + Touched(x, i, o / BSIZE, o / BSIZE + 1)
    ensures OneBitmapBlock(x) ==> x.logged <= v.logged + Touched(x, i, off / BSIZE, EndBlock(off, n))
  {
    var e := EndBlock(off, n);
    BlockInside(off, n, o);
    GrownRefl(x, i);
    OthersByGrowth(x, x, i);
    TouchedWider(w, x, i, off / BSIZE, off / BSIZE, e, e);
    TouchedWider(x, x, i, off / BSIZE, o / BSIZE, o / BSIZE + 1, e);
  }

  lemma StoredTouched(w: View, i: nat, n: nat, b: nat, data: Block)
    requires w.Ok() && i < |w.inodes| && n < MAXFILE && b == w.Addr(i, SlotOf(n)) && 0 < b < |w.data| && |data| == BSIZE
    ensures Stored(w, b, data).Ok()
    ensures b in Touched(w, i, n, n + 1) && Touched(Stored(w, b, data), i, n, n + 1) == Touched(w, i, n, n + 1)
  {
    assert w.SlotOk(i, SlotOf(n));
    StoredOk(w, b, data);
    assert Stored(w, b, data).Addr(i, SlotOf(n)) == w.Addr(i, SlotOf(n));
    assert BlocksOf(w, i, n, n) == {} == BlocksOf(Stored(w, b, data), i, n, n);
    assert BlocksOf(w, i, n, n + 1) == {b} == BlocksOf(Stored(w, b, data), i, n, n + 1);
  }

  /** A new file system: the metadata blocks are in use, every other block is free and zero, and
      every inode is empty. */
  ghost function Formatted(size: nat, ninodes: nat, nmeta: nat, bmapstart: nat, inodestart: nat): (v: View) {
    View(nmeta, bmapstart, inodestart, seq(size, b => b < nmeta), seq(size, _ => Zeros()),
         seq(ninodes, _ => Inode(seq(NDIRECT + 1, _ => 0), 0)), map[], {})
  }

  lemma FormattedOk(size: nat, ninodes: nat, nmeta: nat, bmapstart: nat, inodestart: nat)
    requires 0 < nmeta <= size <= UINT
    ensures var v := Formatted(size, ninodes, nmeta, bmapstart, inodestart);
            v.Ok() && forall i: nat {:trigger v.inodes[i]} :: i < ninodes ==> FileIs(v, i, [])
  {
    var v := Formatted(size, ninodes, nmeta, bmapstart, inodestart);
    assert v.Shape();
    forall i: nat, k: nat | i < ninodes && k < NSLOTS ensures v.Addr(i, k) == 0 && v.SlotOk(i, k) { }
    assert v.Ok();
    forall i: nat | i < ninodes ensures FileIs(v, i, []) { }
  }

  /** The most bytes filewrite puts in one operation. */
  const CHUNK: nat := (LogSpace.MAXOPBLOCKS - 1 - 1 - 2) / 2 * BSIZE

  /** What filewrite takes of the n bytes left. */
  function ChunkOf(n: nat): (k: nat)
    ensures k <= n && k <= CHUNK && (k == n || k == CHUNK)
  {
    if n > CHUNK then CHUNK else n
  }

  /** Whole chunks have been written, or all. */
  predicate AtChunk(j: nat, n: nat) { j == n || j % CHUNK == 0 }

  lemma FirstChunk(n: nat)
    ensures AtChunk(0, n)
  {
  }

  lemma NextChunk(j: nat, n: nat)
    requires AtChunk(j, n) && j < n
    ensures 0 < ChunkOf(n - j) <= n - j && ChunkOf(n - j) <= CHUNK && AtChunk(j + ChunkOf(n - j), n)
  {
  }

  /** The contents after writing at off; past the end nothing is written. */
  function Overwritten(s: seq<int>, off: nat, src: seq<int>): (r: seq<int>) {
    if off > |s| then s else Splice(s, off, src)
  }

  /** src is stored at off in file i, nothing else has changed, and on a disk with one bitmap block
      no operation logged more than seven blocks. */
  ghost predicate Written(v: View, w: View, i: nat, off: nat, s: seq<int>, src: seq<int>, logs: seq<set<nat>>)
    requires v.Ok() && w.Ok() && i < |v.inodes|
  {
    && OthersSame(v, w, i) && FileIs(w, i, Overwritten(s, off, src)) && (off > |s| ==> src == [])
    && (OneBitmapBlock(w) ==> forall k :: 0 <= k < |logs| ==> |logs[k]| <= 7)
  }

  lemma WrittenNone(v: View, i: nat, off: nat, s: seq<int>)
    requires v.Ok() && i < |v.inodes| && FileIs(v, i, s)
    ensures Written(v, v, i, off, s, [], [])
  {
    assert Overwritten(s, off, []) == s;
    forall b | b in v.owner && b < |v.data| ensures Spared(v, v, i, b) {
      assert v.OwnerOk(b);
    }
  }

  /** One operation took v to w: it changed n bytes' worth of file i's blocks from off on, logged
      every block it changed, and no other on a disk with one bitmap block. */
  ghost predicate Transacted(v: View, w: View, i: nat, off: nat, n: nat)
    requires v.Ok() && w.Ok() && i < |v.inodes| && off + n <= MAXFILE * BSIZE
  {
    && OthersSame(v, w, i) && Accounted(Begun(v), w, i, off / BSIZE, EndBlock(off, n)) && w.Iblock(i) in w.logged
    && (OneBitmapBlock(w) ==> w.logged <= Touched(w, i, off / BSIZE, EndBlock(off, n)) + {w.Iblock(i)})
  }

  /** begin_op: a new operation has logged nothing yet. */
  ghost function Begun(v: View): (w: View) { v.(logged := {}) }

  /** A turn of writei's loop at off is done: the bytes of file i are these, nothing else has changed,
      and what changed on disk is logged, but for the inode. */
  ghost predicate TurnDone(v: View, w: View, i: nat, off: nat, src: seq<int>, bytes: seq<int>)
    requires v.Ok() && w.Ok() && i < |v.inodes|
  {
    && 0 < |src| <= BSIZE - off % BSIZE && off + |src| <= MAXFILE * BSIZE
    && OthersSame(v, w, i) && w.inodes[i].size == v.inodes[i].size && Holds(w, i, bytes)
    && Accounted(Begun(v), w, i, off / BSIZE, off / BSIZE + 1)
    && off / BSIZE < MAXFILE && (OneBitmapBlock(w) ==> w.logged <= Touched(w, i, off / BSIZE, off / BSIZE + 1))
  }

  lemma BegunHolds(v: View, i: nat, s: seq<int>)
    requires v.Ok() && i < |v.inodes| && Holds(v, i, s)
    ensures Begun(v).Ok() && Holds(Begun(v), i, s) && OthersSame(v, Begun(v), i)
  {
    var w := Begun(v);
    forall j: nat, k: nat | j < |v.inodes| && k < NSLOTS ensures w.Addr(j, k) == v.Addr(j, k) && w.SlotOk(j, k) {
      assert v.SlotOk(j, k);
    }
    forall b | b in v.owner ensures w.OwnerOk(b) && Spared(v, w, i, b) {
      assert v.OwnerOk(b);
    }
    forall p: nat | p < |s| ensures ByteIs(w, i, p, s) {
      assert ByteIs(v, i, p, s);
    }
  }

  lemma BegunOk(v: View, i: nat, s: seq<int>)
    requires v.Ok() && i < |v.inodes| && FileIs(v, i, s)
    ensures Begun(v).Ok() && FileIs(Begun(v), i, s) && OthersSame(v, Begun(v), i)
  {
    BegunHolds(v, i, s);
  }

  /** No block is free. */
  ghost predicate Full(v: View) { forall c :: 0 <= c < |v.used| ==> v.used[c] }
}
