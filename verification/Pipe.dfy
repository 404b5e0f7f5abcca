/** The pipe of kernel/pipe.c: a ring with 32-bit counters, and who sleeps on it.

    pipewrite and piperead hold the lock from one sleep to the next; a turn is such a stretch.
    dieAt is the test at which killed() first answers yes, faultAt the byte whose copy fails. */
module Pipe {
  import Counting

  const PIPESIZE: nat := 512
  const UINT: nat := 0x1_0000_0000

  datatype Outcome = Done | Asleep | Refused    // Refused returns -1

  class Pipe {
    const data: array<int>
    var nread: nat
    var nwrite: nat
    var readopen: bool
    var writeopen: bool
    var readers: set<nat>           // asleep on &nread
    var writers: set<nat>           // asleep on &nwrite
    ghost var written: seq<int>     // every byte ever put in
    ghost var dequeued: seq<int>    // every byte ever taken out

    /** The ring holds what was written and not yet taken, although the counters wrap. */
    ghost predicate Valid()
      reads this, data
    {
      && data.Length == PIPESIZE
      && nread == |dequeued| % UINT && nwrite == |written| % UINT
      && dequeued <= written && |written| <= |dequeued| + PIPESIZE
      && forall k {:trigger written[k]} :: |dequeued| <= k < |written| ==> data[k % PIPESIZE] == written[k]
    }

    ghost function Held(): (s: seq<int>)
      requires |dequeued| <= |written|
      reads this
    {
      written[|dequeued|..]
    }

    /** A sleeping reader has nothing to read and a writer to wait for; a sleeping writer has no
        room and a reader to wait for. */
    ghost predicate Awake()
      requires Valid()
      reads this, data
    {
      && (readers != {} ==> Held() == [] && writeopen)
      && (writers != {} ==> |Held()| == PIPESIZE && readopen)
    }

    constructor ()
      ensures Valid() && Awake() && fresh(data) && written == [] && dequeued == [] && readopen && writeopen
      ensures readers == {} && writers == {}
    {
      data := new int[PIPESIZE](_ => 0);
      nread, nwrite, readopen, writeopen, readers, writers := 0, 0, true, true, {}, {};
      written, dequeued := [], [];
    }

    /** The tests for full and empty are right at every value of the counters. */
    lemma Counters()
      requires Valid()
      ensures nwrite == (nread + PIPESIZE) % UINT <==> |Held()| == PIPESIZE
      ensures nread == nwrite <==> Held() == []
      ensures nread % PIPESIZE == |dequeued| % PIPESIZE && nwrite % PIPESIZE == |written| % PIPESIZE
    {
      WrapGap(|dequeued|, |written|);
      WrapSlot(|dequeued|);
      WrapSlot(|written|);
    }

    /** One turn of pipewrite with rest still to write: n bytes go in. */
    method WriteTurn(me: nat, rest: seq<int>, dieAt: nat, faultAt: nat) returns (n: nat, out: Outcome)
      requires Valid() && me !in writers
      modifies `nwrite, `readers, `writers, `written, data
      ensures Valid() && n <= |rest| && written == old(written) + rest[..n]
      ensures out == Refused <==> n < |rest| && (!readopen || n == dieAt)
      ensures out == Asleep <==> n < |rest| && readopen && n != dieAt && |Held()| == PIPESIZE
      ensures out == Done <==> n == |rest| || (readopen && n != dieAt && |Held()| < PIPESIZE && n == faultAt)
      ensures n > 0 ==> readopen && |old(Held())| + n <= PIPESIZE && n <= dieAt && n <= faultAt
      ensures readers == if out == Refused then old(readers) else {}
      ensures writers == if out == Asleep then old(writers) + {me} else old(writers)
      ensures old(Awake()) ==>
                (Awake() <==> !(old(readers) != {} && readopen && 0 < dieAt < |rest| && dieAt <= PIPESIZE && dieAt <= faultAt))
    {
      n := 0;
      while n < |rest|
        invariant n <= |rest| && Valid() && written == old(written) + rest[..n]
        invariant n > 0 ==> readopen && |old(Held())| + n <= PIPESIZE && n <= dieAt && n <= faultAt
        invariant readers == old(readers) && writers == old(writers)
      {
        if !readopen || n == dieAt {
          return n, Refused;
        }
        Counters();
        if nwrite == (nread + PIPESIZE) % UINT {
          readers := {};
          writers := writers + {me};
          return n, Asleep;
        }
        if n == faultAt {
          break;
        }
        Enqueue(rest[n]);
        n := n + 1;
      }
      readers := {};
      return n, Done;
    }

    method Enqueue(ch: int)
      requires Valid() && |Held()| < PIPESIZE
      modifies `nwrite, `written, data
      ensures Valid() && written == old(written) + [ch]
    {
      Counters();
      ghost var m := |written|;
      WrapNext(m);
      forall k | |dequeued| <= k < m ensures k % PIPESIZE != m % PIPESIZE { Counting.OtherSlot(k, m, PIPESIZE); }
      data[nwrite % PIPESIZE] := ch;
      nwrite := (nwrite + 1) % UINT;
      written := written + [ch];
    }

    /** One turn of piperead for n bytes: got leaves the pipe, count of them reach the caller. */
    method ReadTurn(me: nat, n: nat, killed: bool, faultAt: nat) returns (got: seq<int>, count: nat, out: Outcome)
      requires Valid() && me !in readers
      modifies `nread, `readers, `writers, `dequeued
      ensures Valid() && |got| <= n && old(Held()) == got + Held() && dequeued == old(dequeued) + got
      ensures out == Refused <==> old(Held()) == [] && writeopen && killed
      ensures out == Asleep <==> old(Held()) == [] && writeopen && !killed
      ensures out != Done ==> got == []
      ensures out == Done ==> |got| == n || Held() == [] || |got| == faultAt + 1
      ensures count == if |got| == faultAt + 1 then faultAt else |got|
      ensures readers == if out == Asleep then old(readers) + {me} else old(readers)
      ensures writers == if out == Done then {} else old(writers)
      ensures old(Awake()) ==> Awake()
    {
      got, count := [], 0;
      Counters();
      if nread == nwrite && writeopen {
        if killed {
          return got, 0, Refused;
        }
        readers := readers + {me};
        return got, 0, Asleep;
      }
      got, count := Drain(n, faultAt);
      writers := {};
      return got, count, Done;
    }

    /** piperead's copying loop. */
    method Drain(n: nat, faultAt: nat) returns (got: seq<int>, count: nat)
      requires Valid()
      modifies `nread, `dequeued
      ensures Valid() && |got| <= n && old(Held()) == got + Held() && dequeued == old(dequeued) + got
      ensures |got| == n || Held() == [] || |got| == faultAt + 1
      ensures count == if |got| == faultAt + 1 then faultAt else |got|
    {
      got, count := [], 0;
      while count < n
        invariant Valid() && count == |got| <= n && |got| <= faultAt
        invariant old(Held()) == got + Held() && dequeued == old(dequeued) + got
      {
        Counters();
        if nread == nwrite {
          break;
        }
        var ch := Dequeue();
        got := got + [ch];
        if |got| == faultAt + 1 {
          break;
        }
        count := count + 1;
      }
    }

    method Dequeue() returns (ch: int)
      requires Valid() && Held() != []
      modifies `nread, `dequeued
      ensures Valid() && old(Held()) == [ch] + Held() && dequeued == old(dequeued) + [ch]
    {
      Counters();
      WrapNext(|dequeued|);
      ch := data[nread % PIPESIZE];
      assert ch == written[|dequeued|];
      nread := (nread + 1) % UINT;
      dequeued := dequeued + [ch];
    }

    /** pipeclose; the page is freed when both ends are closed. */
    method Close(writable: bool) returns (last: bool)
      requires Valid()
      modifies `readopen, `writeopen, `readers, `writers
      ensures Valid() && last == (!readopen && !writeopen)
      ensures writeopen == (old(writeopen) && !writable) && readopen == (old(readopen) && writable)
      ensures readers == (if writable then {} else old(readers)) && writers == (if writable then old(writers) else {})
      ensures old(Awake()) ==> Awake()
    {
      if writable {
        writeopen := false;
        readers := {};
      } else {
        readopen := false;
        writers := {};
      }
      last := !readopen && !writeopen;
    }

    /** kill makes a sleeper runnable. */
    method Kill(p: nat)
      requires Valid()
      modifies `readers, `writers
      ensures Valid() && readers == old(readers) - {p} && writers == old(writers) - {p}
      ensures old(Awake()) ==> Awake()
    {
      readers := readers - {p};
      writers := writers - {p};
    }
  }

  /** A writer killed after its first byte leaves a reader asleep beside that byte. */
  method KilledWriter() returns (pipe: Pipe)
    ensures fresh(pipe) && fresh(pipe.data) && pipe.Valid() && pipe.Held() == [7] && pipe.readers == {1} && !pipe.Awake()
  {
    pipe := new Pipe();
    var got, count, r := pipe.ReadTurn(1, 1, false, 1);
    var n, w := pipe.WriteTurn(2, [7, 8], 1, 9);
    assert [7, 8][..1] == [7];
  }

  // ----- counters that wrap -----

  lemma WrapSlot(n: nat)
    ensures n % UINT % PIPESIZE == n % PIPESIZE
  {
    var q := n / UINT;
    assert n == n % UINT + PIPESIZE * (q * 8388608);
    ModShift(n % UINT, q * 8388608);
  }

  lemma {:induction false} ModShift(a: nat, m: nat)
    ensures (a + PIPESIZE * m) % PIPESIZE == a % PIPESIZE
  {
    if m > 0 { ModShift(a, m - 1); }
  }

  /** Two counters at most PIPESIZE apart. */
  lemma WrapGap(r: nat, w: nat)
    requires r <= w <= r + PIPESIZE
    ensures w % UINT == (r % UINT + PIPESIZE) % UINT <==> w == r + PIPESIZE
    ensures r % UINT == w % UINT <==> r == w
  {
  }

  lemma WrapNext(n: nat)
    ensures (n % UINT + 1) % UINT == (n + 1) % UINT
  {
  }
}
