/** The pipe: a ring of 512 bytes with counters that wrap, two wait channels, and two ends that can
    be closed. Each method is what one process does while it holds the lock of the pipe, up to the
    point where it returns or goes to sleep. */
module Pipe {
  import opened FsLayout

  const PIPESIZE: nat := 512

  datatype Outcome = Finished | Asleep | Failed

  type Pid = nat

  class PipeBuffer {
    const data: array<byte>
    var nread: nat             // uint counters
    var nwrite: nat
    var readopen: bool
    var writeopen: bool
    var freed: bool
    var onRead: set<Pid>       // asleep on &nread: waiting for bytes
    var onWrite: set<Pid>      // asleep on &nwrite: waiting for room
    ghost var accepted: seq<byte>    // all bytes that writers have put in
    ghost var delivered: seq<byte>   // all bytes that readers have got

    /** What has been delivered is the beginning of what has been accepted; the rest, at most 512
        bytes, lies in the ring. The counters are the two lengths, as far as a uint can tell. */
    ghost predicate Valid()
      reads this, data
    {
      && data.Length == PIPESIZE
      && |delivered| <= |accepted| <= |delivered| + PIPESIZE && delivered == accepted[..|delivered|]
      && nread == |delivered| % UINT && nwrite == |accepted| % UINT
      && forall k: nat | |delivered| <= k < |accepted| :: data[k % PIPESIZE] == accepted[k]
    }

    ghost function Buffered(): nat
      requires |delivered| <= |accepted|
      reads this
    {
      |accepted| - |delivered|
    }

    /** Sleepers have reason to sleep: readers find the ring empty and the write end open, writers
        find it full and the read end open. */
    ghost predicate SleepersOk()
      requires |delivered| <= |accepted|
      reads this
    {
      && (onRead != {} ==> Buffered() == 0 && writeopen)
      && (onWrite != {} ==> Buffered() == PIPESIZE && readopen)
    }

    /** A new pipe. */
    constructor ()
      ensures Valid() && SleepersOk() && accepted == [] && delivered == [] && readopen && writeopen && !freed
      ensures onRead == {} && onWrite == {} && fresh(data)
    {
      data := new byte[PIPESIZE];
      nread, nwrite, readopen, writeopen, freed := 0, 0, true, true, false;
      onRead, onWrite := {}, {};
      accepted, delivered := [], [];
    }

    /** Closes one end, and frees the pipe when both are closed. */
    method Pipeclose(writable: bool)
      requires Valid() && SleepersOk() && !freed && (readopen || writeopen)
      modifies this
      ensures Valid() && SleepersOk() && accepted == old(accepted) && delivered == old(delivered)
      ensures writeopen == (old(writeopen) && !writable) && readopen == (old(readopen) && writable)
      ensures onRead == (if writable then {} else old(onRead)) && onWrite == (if writable then old(onWrite) else {})
      ensures freed <==> !readopen && !writeopen
      ensures freed ==> onRead == {} && onWrite == {}
    {
      if writable {
        writeopen := false;
        onRead := {};
      } else {
        readopen := false;
        onWrite := {};
      }
      if !readopen && !writeopen {
        freed := true;
      }
    }

    /** The process pid writes addr from index i on. It ends with all written, or asleep because the
        ring is full, or with -1 because the ring is full and nobody can read or the process has
        been killed. The sleepers still have reason to sleep, unless readers are asleep and the writer
        gives up in the middle: then the readers sleep on although there are bytes. */
    method Pipewrite(pid: Pid, addr: seq<byte>, i: nat, killed: bool) returns (next: nat, out: Outcome)
      requires Valid() && i <= |addr| && |addr| < 0x8000_0000
      modifies this`nwrite, this`onRead, this`onWrite, this`accepted, data
      ensures Valid() && i <= next <= |addr| && accepted == old(accepted) + addr[i..next]
      ensures var room := PIPESIZE - old(Buffered()); next - i == if |addr| - i <= room then |addr| - i else room
      ensures out == if next == |addr| then Finished else if !readopen || killed then Failed else Asleep
      ensures next < |addr| ==> Buffered() == PIPESIZE
      ensures onRead == (if out == Failed then old(onRead) else {})
      ensures onWrite == (if out == Asleep then old(onWrite) + {pid} else old(onWrite))
      ensures old(SleepersOk()) ==>
                (SleepersOk() <==> !(old(onRead) != {} && |addr| - i > PIPESIZE && (killed || !readopen)))
    {
      next := i;
      while next < |addr|
        invariant i <= next <= |addr| && Valid() && accepted == old(accepted) + addr[i..next]
        invariant onRead == old(onRead) && onWrite == old(onWrite)
        invariant next - i <= PIPESIZE - old(Buffered())
      {
        FullTest(|delivered|, |accepted|);
        if nwrite == (nread + PIPESIZE) % UINT {
          if !readopen || killed {
            return next, Failed;
          }
          onRead := {};
          onWrite := onWrite + {pid};
          return next, Asleep;
        }
        PutByte(addr[next]);
        assert addr[i..next + 1] == addr[i..next] + [addr[next]];
        next := next + 1;
      }
      onRead := {};
      out := Finished;
    }

    /** `p->data[p->nwrite++ % PIPESIZE] = b` */
    method PutByte(b: byte)
      requires Valid() && Buffered() < PIPESIZE
      modifies this`nwrite, this`accepted, data
      ensures Valid() && accepted == old(accepted) + [b]
    {
      ghost var n := |accepted|;
      RingSlot(n);
      RingApart(|delivered|, n);
      data[nwrite % PIPESIZE] := b;
      nwrite := (nwrite + 1) % UINT;
      accepted := accepted + [b];
    }

    /** The process pid reads up to n bytes. It goes to sleep when the ring is empty and the write end
        open. */
    method Piperead(pid: Pid, n: nat, killed: bool) returns (got: seq<byte>, out: Outcome)
      requires Valid()
      modifies this`nread, this`onRead, this`onWrite, this`delivered
      ensures Valid() && delivered == old(delivered) + got
      ensures out == if old(Buffered()) > 0 || !writeopen then Finished else if killed then Failed else Asleep
      ensures out != Finished ==> got == []
      ensures out == Finished ==> |got| == if n <= old(Buffered()) then n else old(Buffered())
      ensures onRead == (if out == Asleep then old(onRead) + {pid} else old(onRead))
      ensures onWrite == (if out == Finished then {} else old(onWrite))
      ensures old(SleepersOk()) ==> SleepersOk()
    {
      got := [];
      EmptyTest(|delivered|, |accepted|);
      if nread == nwrite && writeopen {
        if killed {
          return [], Failed;
        }
        onRead := onRead + {pid};
        return [], Asleep;
      }
      var i := 0;
      while i < n
        invariant i <= n && Valid() && |got| == i && delivered == old(delivered) + got && i <= old(Buffered())
        invariant onRead == old(onRead) && onWrite == old(onWrite)
      {
        EmptyTest(|delivered|, |accepted|);
        if nread == nwrite {
          break;
        }
        var b := GetByte();
        got := got + [b];
        i := i + 1;
      }
      onWrite := {};
      out := Finished;
    }

    /** `p->data[p->nread++ % PIPESIZE]` */
    method GetByte() returns (b: byte)
      requires Valid() && Buffered() > 0
      modifies this`nread, this`delivered
      ensures Valid() && delivered == old(delivered) + [b]
    {
      RingSlot(|delivered|);
      b := data[nread % PIPESIZE];
      nread := (nread + 1) % UINT;
      delivered := delivered + [b];
    }
  }

  /** A reader is asleep, and a writer that has been killed fills the ring: the reader is not woken. */
  method LostWakeup() returns (p: PipeBuffer)
    ensures p.Valid() && p.onRead != {} && p.Buffered() == PIPESIZE && !p.SleepersOk()
  {
    p := new PipeBuffer();
    var _, _ := p.Piperead(1, 1, false);
    var _, _ := p.Pipewrite(2, seq(PIPESIZE + 1, _ => 0), 0, true);
  }

  // ----- the counters -----

  /** The ring slot of byte k, computed from the wrapped counter. */
  lemma RingSlot(k: nat)
    ensures k % UINT % PIPESIZE == k % PIPESIZE && (k % UINT + 1) % UINT == (k + 1) % UINT
  {
    var q, r := k / UINT, k % UINT;
    assert k == q * UINT + r;
    assert k == PIPESIZE * (q * 8388608) + r;
    ModAdd(q * 8388608, r, PIPESIZE);
    ModAdd(q, r + 1, UINT);
  }

  lemma ModAdd(q: nat, r: nat, m: nat)
    requires 0 < m
    ensures (m * q + r) % m == r % m
  {
    var d := r / m;
    assert m * q + r == m * (q + d) + r % m;
    ModUnique(q + d, r % m, m);
  }

  lemma ModUnique(q: nat, r: nat, m: nat)
    requires r < m
    ensures (m * q + r) % m == r
  {
    var x := m * q + r;
    var e := x / m;
    assert x == m * e + x % m;
    if e < q { Times(m, e + 1, q); }
    if e > q { Times(m, q + 1, e); }
  }

  lemma Times(m: nat, a: nat, b: nat)
    requires a <= b
    ensures m * a <= m * b && m * (a - 1) + m == m * a
  {}

  /** The bytes in the ring, and the next one if there is room, have different slots. */
  lemma RingApart(lo: nat, n: nat)
    requires lo <= n < lo + PIPESIZE
    ensures forall k: nat | lo <= k < n :: k % PIPESIZE != n % PIPESIZE
  {}

  /** Wrapped counters are equal exactly when the ring is empty. */
  lemma EmptyTest(r: nat, w: nat)
    requires r <= w <= r + PIPESIZE
    ensures r % UINT == w % UINT <==> r == w
  {
    WrapEqual(r, w - r);
  }

  /** They differ by the size of the ring, modulo the width, exactly when it is full. */
  lemma FullTest(r: nat, w: nat)
    requires r <= w <= r + PIPESIZE
    ensures w % UINT == (r % UINT + PIPESIZE) % UINT <==> w == r + PIPESIZE
  {
    var q, a := r / UINT, r % UINT;
    ModAdd(q, a + PIPESIZE, UINT);
    assert r + PIPESIZE == UINT * q + (a + PIPESIZE);
    WrapEqual(w, r + PIPESIZE - w);
  }

  lemma WrapEqual(r: nat, d: nat)
    requires d < UINT
    ensures r % UINT == (r + d) % UINT <==> d == 0
  {
    var q, a := r / UINT, r % UINT;
    ModAdd(q, a + d, UINT);
    assert r + d == UINT * q + (a + d);
    if a + d >= UINT { ModUnique(1, a + d - UINT, UINT); }
  }
}
