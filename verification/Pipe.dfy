/** pipe.c: a ring of PIPESIZE bytes with 32-bit counters that wrap around.

    pipewrite and piperead run under the pipe's lock and give it up only in sleep(), so each
    method here is one stretch between acquiring the lock and either sleeping or returning;
    any interleaving of processes is a sequence of such calls.  This module is about the bytes;
    `PipeSleep` takes sleep() and wakeup() apart. */
module Pipe {
  import opened Common

  const PIPESIZE: int := 512

  datatype Outcome = Done | Blocked | Failed

  /** Bytes between the two counters. */
  function Count(nread: int, nwrite: int): (n: int)
    ensures 0 <= n < U32
  {
    (nwrite - nread) % U32
  }

  /** A counter after k bytes. */
  function Plus(c: int, k: int): int {
    (c + k) % U32
  }

  lemma PlusNone(c: int)
    requires 0 <= c < U32
    ensures Plus(c, 0) == c
  {
  }

  lemma PlusMore(c: int, j: int, k: int)
    ensures Plus(Plus(c, j), k) == Plus(c, j + k)
  {
    var x := c + j;
    assert x == U32 * (x / U32) + x % U32;
    SameResidue(x / U32, x % U32 + k);
  }

  lemma SameResidue(q: int, x: int)
    ensures (U32 * q + x) % U32 == x % U32
  {
  }

  /** Where the k-th byte after counter value c is kept. */
  function Index(c: int, k: int): (i: int)
    ensures 0 <= i < PIPESIZE
  {
    (c + k) % PIPESIZE
  }

  lemma FullTest(nread: int, nwrite: int)
    requires 0 <= nread < U32 && 0 <= nwrite < U32
    ensures nwrite == (nread + PIPESIZE) % U32 <==> Count(nread, nwrite) == PIPESIZE
    ensures nread == nwrite <==> Count(nread, nwrite) == 0
  {
  }

  lemma Advance(nread: int, nwrite: int)
    requires 0 <= nread < U32 && 0 <= nwrite < U32
    ensures Count(nread, nwrite) < PIPESIZE ==> Count(nread, (nwrite + 1) % U32) == Count(nread, nwrite) + 1
    ensures Count(nread, nwrite) > 0 ==> Count((nread + 1) % U32, nwrite) == Count(nread, nwrite) - 1
  {
  }

  /** Reducing the counter modulo 2^32 first does not change the place. */
  lemma WrapIndex(c: int, k: int)
    requires 0 <= c
    ensures Index(c % U32, k) == Index(c, k)
  {
  }

  /** The write counter points just past the last byte kept. */
  lemma WritePosition(nread: int, nwrite: int)
    requires 0 <= nread < U32 && 0 <= nwrite < U32
    ensures nwrite % PIPESIZE == Index(nread, Count(nread, nwrite))
  {
  }

  /** The n bytes kept from counter value c on. */
  function Ring(d: seq<int>, c: int, n: int): seq<int>
    requires |d| == PIPESIZE && n >= 0
  {
    seq(n, k => d[Index(c, k)])
  }

  lemma RingPush(d: seq<int>, c: int, n: int, x: int)
    requires |d| == PIPESIZE && 0 <= n < PIPESIZE
    ensures Ring(d[Index(c, n) := x], c, n + 1) == Ring(d, c, n) + [x]
  {
  }

  lemma RingPop(d: seq<int>, c: int, n: int)
    requires |d| == PIPESIZE && 0 <= c && 0 < n
    ensures Ring(d, (c + 1) % U32, n - 1) == Ring(d, c, n)[1..] && Ring(d, c, n)[0] == d[c % PIPESIZE]
  {
    var c1 := (c + 1) % U32;
    forall k | 0 <= k < n - 1
      ensures Index(c1, k) == Index(c, k + 1)
    {
      WrapIndex(c + 1, k);
    }
  }

  lemma Regroup(a: seq<int>, x: int, b: seq<int>)
    ensures a + ([x] + b) == (a + [x]) + b
  {
  }

  lemma OneMore(c: seq<int>, a: seq<int>, i: int, j: int)
    requires 0 <= i <= j < |a|
    ensures c + a[i..j] + [a[j]] == c + a[i..j + 1]
  {
  }

  class Pipe {
    const data: array<int>
    var nread: int
    var nwrite: int
    var readopen: bool
    var writeopen: bool
    var readers: set<int>      // processes SLEEPING on &p->nread
    var writers: set<int>      // processes SLEEPING on &p->nwrite
    ghost var put: seq<int>    // every byte ever written
    ghost var got: seq<int>    // every byte ever read

    ghost predicate Counters()
      reads this
    {
      data.Length == PIPESIZE && 0 <= nread < U32 && 0 <= nwrite < U32 && Count(nread, nwrite) <= PIPESIZE
    }

    ghost function Contents(): seq<int>
      requires data.Length == PIPESIZE
      reads this, data
    {
      Ring(data[..], nread, Count(nread, nwrite))
    }

    /** No writer sleeps on a pipe that has room or no reader. */
    ghost predicate WritersServed()
      requires Counters()
      reads this
    {
      writers != {} ==> Count(nread, nwrite) == PIPESIZE && readopen
    }

    /** No reader sleeps on a pipe that has bytes or no writer. */
    ghost predicate ReadersServed()
      requires Counters()
      reads this
    {
      readers != {} ==> Count(nread, nwrite) == 0 && writeopen
    }

    /** First in, first out: what was read, then what the ring holds, is what was written. */
    ghost predicate Fifo()
      reads this, data
    {
      Counters() && put == got + Contents()
    }

    /** And no wakeup of a writer is ever lost. */
    ghost predicate Valid()
      reads this, data
    {
      Fifo() && WritersServed()
    }

    /** Nobody sleeps while what it waits for is there. */
    ghost predicate NoLostWakeup()
      requires Counters()
      reads this
    {
      ReadersServed() && WritersServed()
    }

    constructor ()
      ensures Valid() && NoLostWakeup() && readopen && writeopen && put == [] && got == [] && fresh(data)
    {
      data := new int[PIPESIZE](i => 0);
      nread, nwrite, readopen, writeopen := 0, 0, true, true;
      readers, writers, put, got := {}, {}, [], [];
    }

    /** Puts x behind the last byte and advances the write counter. */
    method Push(x: int)
      requires Fifo() && Count(nread, nwrite) < PIPESIZE
      modifies this`nwrite, this`put, data
      ensures Fifo() && put == old(put) + [x] && Count(nread, nwrite) == old(Count(nread, nwrite)) + 1
      ensures Contents() == old(Contents()) + [x] && nwrite == Plus(old(nwrite), 1)
    {
      WritePosition(nread, nwrite);
      Advance(nread, nwrite);
      RingPush(data[..], nread, Count(nread, nwrite), x);
      data[nwrite % PIPESIZE] := x;
      nwrite := (nwrite + 1) % U32;
      put := put + [x];
    }

    /** Takes the oldest byte and advances the read counter. */
    method Pop() returns (x: int)
      requires Fifo() && Count(nread, nwrite) > 0
      modifies this`nread, this`got
      ensures Fifo() && got == old(got) + [x] && Count(nread, nwrite) == old(Count(nread, nwrite)) - 1
      ensures [x] + Contents() == old(Contents()) && nread == Plus(old(nread), 1)
    {
      Advance(nread, nwrite);
      RingPop(data[..], nread, Count(nread, nwrite));
      x := data[nread % PIPESIZE];
      nread := (nread + 1) % U32;
      got := got + [x];
    }

    /** pipewrite of addr[i0..n] by process p, until it is done, must sleep, or gives up. */
    method Write(p: int, addr: seq<int>, i0: int, killed: bool) returns (r: Outcome, i: int)
      requires Valid() && 0 <= i0 <= |addr| && p !in writers
      modifies this`nwrite, this`readers, this`writers, this`put, data
      ensures Valid() && i0 <= i <= |addr| && put == old(put) + addr[i0..i]
      ensures Contents() == old(Contents()) + addr[i0..i] && nwrite == Plus(old(nwrite), i - i0)
      ensures r == Done <==> i == |addr|
      ensures r != Done ==> Count(nread, nwrite) == PIPESIZE && (r == Failed <==> !readopen || killed)
      ensures r == Blocked ==> writers == old(writers) + {p}
      ensures r != Blocked ==> writers == old(writers)
      // otherwise every reader is woken, also one that an earlier writer had left asleep
      ensures r != Failed ==> readers == {} && NoLostWakeup()
      // giving up does not wake readers: that loses a wakeup exactly when some were asleep
      ensures r == Failed ==> readers == old(readers) && (NoLostWakeup() <==> old(readers) == {})
    {
      i := i0;
      PlusNone(nwrite);
      hide Plus;
      ghost var c, q := Contents(), put;
      while i < |addr|
        invariant i0 <= i <= |addr| && Fifo() && put == q + addr[i0..i]
        invariant Contents() == c + addr[i0..i] && nwrite == Plus(old(nwrite), i - i0)
        invariant readers == old(readers) && writers == old(writers)
        invariant WritersServed() && (i == i0 || writers == {})
      {
        FullTest(nread, nwrite);
        if nwrite == (nread + PIPESIZE) % U32 {
          if !readopen || killed {
            return Failed, i;
          }
          readers := {};
          writers := writers + {p};
          return Blocked, i;
        }
        PlusMore(old(nwrite), i - i0, 1);
        Push(addr[i]);
        OneMore(c, addr, i0, i);
        OneMore(q, addr, i0, i);
        i := i + 1;
      }
      readers := {};
      r := Done;
    }

    /** piperead of up to n bytes by process p, until it is done, must sleep, or gives up. */
    method Read(p: int, n: int, killed: bool) returns (r: Outcome, dst: seq<int>)
      requires Valid() && p !in readers
      modifies this`nread, this`readers, this`writers, this`got
      ensures Valid() && got == old(got) + dst && put == old(put)
      ensures r != Done || old(NoLostWakeup()) ==> NoLostWakeup()
      ensures r != Done <==> old(Count(nread, nwrite)) == 0 && writeopen
      ensures r != Done ==> dst == [] && (r == Failed <==> killed) && writers == old(writers)
      ensures r == Blocked ==> readers == old(readers) + {p}
      ensures r != Blocked ==> readers == old(readers)
      ensures r == Done ==> writers == {} && old(Contents()) == dst + Contents()
      ensures r == Done ==> |dst| == Min(Max(n, 0), old(Count(nread, nwrite)))
      ensures nread == Plus(old(nread), |dst|)
    {
      dst := [];
      PlusNone(nread);
      hide Plus;
      FullTest(nread, nwrite);
      if nread == nwrite && writeopen {
        if killed {
          return Failed, [];
        }
        readers := readers + {p};
        return Blocked, [];
      }
      dst := Drain(n);
      writers := {};
      r := Done;
    }

    /** The copy loop of piperead. */
    method Drain(n: int) returns (dst: seq<int>)
      requires Fifo()
      modifies this`nread, this`got
      ensures Fifo() && got == old(got) + dst && old(Contents()) == dst + Contents()
      ensures |dst| == Min(Max(n, 0), old(Count(nread, nwrite))) && nread == Plus(old(nread), |dst|)
    {
      dst := [];
      PlusNone(nread);
      hide Plus;
      ghost var c, g := Contents(), got;
      while |dst| < n
        invariant Fifo() && got == g + dst && c == dst + Contents()
        invariant |dst| <= Max(n, 0) && nread == Plus(old(nread), |dst|)
      {
        FullTest(nread, nwrite);
        if nread == nwrite {
          break;
        }
        PlusMore(old(nread), |dst|, 1);
        var x := Pop();
        Regroup(dst, x, Contents());
        dst := dst + [x];
      }
    }

    /** Close one end and wake whoever waits for the other; free says the pipe is gone. */
    method Close(writable: bool) returns (free: bool)
      requires Valid()
      modifies this`readopen, this`writeopen, this`readers, this`writers
      ensures Valid() && Contents() == old(Contents())
      ensures NoLostWakeup() <==> writable || old(NoLostWakeup())
      ensures writable ==> !writeopen && readers == {} && readopen == old(readopen) && writers == old(writers)
      ensures !writable ==> !readopen && writers == {} && writeopen == old(writeopen) && readers == old(readers)
      ensures free <==> !readopen && !writeopen
    {
      if writable {
        writeopen := false;
        readers := {};
      } else {
        readopen := false;
        writers := {};
      }
      free := !readopen && !writeopen;
    }

    /** kill() makes a sleeping process runnable again. */
    method Kill(p: int)
      requires Valid()
      modifies this`readers, this`writers
      ensures Valid() && Contents() == old(Contents())
      ensures old(NoLostWakeup()) ==> NoLostWakeup()
      ensures readers == old(readers) - {p} && writers == old(writers) - {p}
    {
      readers, writers := readers - {p}, writers - {p};
    }
  }
}
