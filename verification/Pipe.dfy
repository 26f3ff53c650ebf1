/** kernel/pipe.c: a 512-byte ring between writers and readers.  Each method is one
    stretch of code run under the pipe's lock: from acquire, or from waking up, to
    release, or to the next sleep.  Interleavings are sequences of such calls. */
module Pipe {
  const PIPESIZE: nat := 512
  const WORD: nat := 0x1_0000_0000

  /** The bytes between nread and nwrite, from the code's own variables: 32-bit counters
      that wrap around, and a ring indexed by their value modulo PIPESIZE. */
  function Ring(data: seq<char>, nread: nat, nwrite: nat): seq<char>
    requires |data| == PIPESIZE
  {
    seq((nwrite - nread) % WORD, j requires 0 <= j => data[(nread + j) % PIPESIZE])
  }

  /** The counters are the totals modulo 2^32; the ring holds what was accepted and not
      yet consumed. */
  ghost predicate Holds(data: seq<char>, nread: nat, nwrite: nat, accepted: seq<char>, consumed: seq<char>) {
    && |data| == PIPESIZE && consumed <= accepted && |accepted| - |consumed| <= PIPESIZE
    && nread == |consumed| % WORD && nwrite == |accepted| % WORD
    && forall k :: |consumed| <= k < |accepted| ==> data[k % PIPESIZE] == accepted[k]
  }

  /** How the wrapped counters compare, for the true number d of bytes in the ring. */
  lemma Counters(r: nat, d: nat)
    requires d <= PIPESIZE
    ensures ((r + d) % WORD - r % WORD) % WORD == d
    ensures (r + d) % WORD == r % WORD <==> d == 0
    ensures (r + d) % WORD == (r % WORD + PIPESIZE) % WORD <==> d == PIPESIZE
    ensures (r % WORD + 1) % WORD == (r + 1) % WORD
  {
  }

  lemma Wraps(r: nat, j: nat)
    ensures (r % WORD + j) % PIPESIZE == (r + j) % PIPESIZE
  {
    assert r == r / WORD * WORD + r % WORD;
    assert WORD == PIPESIZE * 8388608;
  }

  /** First in, first out: what has been consumed, followed by the ring, is what was
      accepted; and the counters never differ by more than PIPESIZE. */
  lemma Fifo(data: seq<char>, nread: nat, nwrite: nat, accepted: seq<char>, consumed: seq<char>)
    requires Holds(data, nread, nwrite, accepted, consumed)
    ensures consumed + Ring(data, nread, nwrite) == accepted && (nwrite - nread) % WORD <= PIPESIZE
  {
    var d := |accepted| - |consumed|;
    Counters(|consumed|, d);
    var ring := Ring(data, nread, nwrite);
    forall j | 0 <= j < d ensures ring[j] == accepted[|consumed| + j] {
      Wraps(|consumed|, j);
      assert data[(|consumed| + j) % PIPESIZE] == accepted[|consumed| + j];
    }
  }

  lemma Pushed(data: seq<char>, nread: nat, nwrite: nat, accepted: seq<char>, consumed: seq<char>, ch: char)
    requires Holds(data, nread, nwrite, accepted, consumed) && |accepted| - |consumed| < PIPESIZE
    ensures Holds(data[nwrite % PIPESIZE := ch], nread, (nwrite + 1) % WORD, accepted + [ch], consumed)
  {
    Wraps(|accepted|, 0);
    Counters(|accepted|, 0);
    var n := |accepted|;
    forall k | |consumed| <= k < n ensures k % PIPESIZE != n % PIPESIZE {
      assert 0 < n - k < PIPESIZE;
    }
  }

  lemma Popped(data: seq<char>, nread: nat, nwrite: nat, accepted: seq<char>, consumed: seq<char>)
    requires Holds(data, nread, nwrite, accepted, consumed) && |consumed| < |accepted|
    ensures Holds(data, (nread + 1) % WORD, nwrite, accepted, consumed + [data[nread % PIPESIZE]])
  {
    Wraps(|consumed|, 0);
    Counters(|consumed|, 0);
    assert data[|consumed| % PIPESIZE] == accepted[|consumed|];
    assert accepted[..|consumed| + 1] == consumed + [accepted[|consumed|]];
  }

  datatype Outcome = Asleep(at: nat) | Failed | Returned(count: nat)

  class Pipe {
    const data: array<char>
    var nread: nat
    var nwrite: nat
    var readopen: bool
    var writeopen: bool
    ghost var accepted: seq<char>
    ghost var consumed: seq<char>

    ghost predicate Valid()
      reads this, data
    {
      Holds(data[..], nread, nwrite, accepted, consumed)
    }

    constructor ()
      ensures Valid() && accepted == [] && consumed == [] && readopen && writeopen && fresh(data)
    {
      data := new char[PIPESIZE];
      nread, nwrite, readopen, writeopen := 0, 0, true, true;
      accepted, consumed := [], [];
    }

    /** pipewrite from byte i0 of src: bytes go in, in order, until all are in, the ring is
        full, or something stops it.  killedAt and badAt say at which byte, if any, the
        caller is found killed or its memory unreadable. */
    method Write(src: seq<char>, i0: nat, killedAt: nat, badAt: nat) returns (out: Outcome, i: nat)
      requires Valid() && i0 <= |src|
      modifies this, data
      ensures Valid() && consumed == old(consumed) && readopen == old(readopen) && writeopen == old(writeopen)
      ensures i0 <= i <= |src| && accepted == old(accepted) + src[i0..i]
      ensures (killedAt < i0 || i <= killedAt) && (badAt < i0 || i <= badAt) && (!readopen ==> i == i0)
      ensures out.Failed? <==> i < |src| && (!readopen || i == killedAt)
      ensures out.Asleep? <==> i < |src| && readopen && i != killedAt && |accepted| - |consumed| == PIPESIZE
      ensures out.Asleep? ==> out.at == i
      ensures out.Returned? ==> out.count == i && (i == |src| || i == badAt)
    {
      i := i0;
      while i < |src|
        invariant i0 <= i <= |src| && Valid() && accepted == old(accepted) + src[i0..i]
        invariant consumed == old(consumed) && readopen == old(readopen) && writeopen == old(writeopen)
        invariant (killedAt < i0 || i <= killedAt) && (badAt < i0 || i <= badAt) && (!readopen ==> i == i0)
      {
        Counters(|consumed|, |accepted| - |consumed|);
        if !readopen || i == killedAt { return Failed, i; }
        if nwrite == (nread + PIPESIZE) % WORD { return Asleep(i), i; }
        if i == badAt { break; }
        Pushed(data[..], nread, nwrite, accepted, consumed, src[i]);
        ghost var was := data[..];
        data[nwrite % PIPESIZE] := src[i];
        assert data[..] == was[nwrite % PIPESIZE := src[i]];
        nwrite := (nwrite + 1) % WORD;
        accepted := accepted + [src[i]];
        i := i + 1;
      }
      out := Returned(i);
    }

    /** piperead: sleeps on an empty pipe with an open write end, otherwise takes up to n
        bytes from the front.  A byte whose copy to the caller fails is gone, `lost`: that
        happens exactly when the bad address comes within n and within the bytes there are. */
    method Read(n: int, killed: bool, badAt: nat) returns (out: Outcome, got: seq<char>, lost: seq<char>)
      requires Valid()
      modifies this
      ensures Valid() && accepted == old(accepted) && readopen == old(readopen) && writeopen == old(writeopen)
      ensures consumed == old(consumed) + got + lost
      ensures out.Asleep? || out.Failed? <==> old(consumed) == accepted && writeopen
      ensures out.Asleep? || out.Failed? ==> got == lost == [] && (out.Failed? <==> killed)
      ensures out.Returned? ==> out.count == |got| && (|got| == n || n <= 0 || consumed == accepted || lost != [])
      ensures out.Returned? ==> (lost != [] <==> badAt < n && badAt < |accepted| - |old(consumed)|)
      ensures |lost| <= 1 && (lost != [] ==> |got| == badAt < n) && |got| <= (if n < 0 then 0 else n) && |got| <= badAt
    {
      got, lost := [], [];
      Counters(|consumed|, |accepted| - |consumed|);
      if nread == nwrite && writeopen {
        return if killed then Failed else Asleep(0), [], [];
      }
      var i := 0;
      while i < n
        invariant 0 <= i <= badAt && (n >= 0 ==> i <= n) && (n < 0 ==> i == 0) && |got| == i && lost == [] && Valid()
        invariant consumed == old(consumed) + got && accepted == old(accepted) && readopen == old(readopen) && writeopen == old(writeopen)
      {
        Counters(|consumed|, |accepted| - |consumed|);
        if nread == nwrite { break; }
        Popped(data[..], nread, nwrite, accepted, consumed);
        var ch := data[nread % PIPESIZE];
        nread := (nread + 1) % WORD;
        consumed := consumed + [ch];
        if i == badAt {
          lost := [ch];
          break;
        }
        got := got + [ch];
        i := i + 1;
      }
      out := Returned(i);
    }
  }
}
