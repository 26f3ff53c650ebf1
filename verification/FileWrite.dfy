/** kernel/file.c: filewrite on an inode, in chunks that fit one transaction each. */
module FileWrite {
  import opened Params
  import opened InodeModel
  import opened InodeCode

  const MAX_CHUNK: nat := (MAXOPBLOCKS - 1 - 1 - 2) / 2 * BSIZE

  /** No chunk, at any offset, can log more than MAXOPBLOCKS blocks. */
  lemma ChunkFits(off: nat, len: nat)
    requires len <= MAX_CHUNK
    ensures LogBound(off, len) <= MAXOPBLOCKS && Blocks(off, len) <= 4
  {
    if len > 0 {
      var r := off % BSIZE;
      assert off == off / BSIZE * BSIZE + r;
      assert (off + len - 1) / BSIZE <= off / BSIZE + if r == 0 then 2 else 3;
    }
  }

  /** A transaction that had logged `early` before its last log_write keeps to its budget,
      so that none of its calls of log_write can find the log full. */
  ghost predicate FitsLog(logged: set<nat>, early: set<nat>) {
    |logged| <= MAXOPBLOCKS && |early| < MAXOPBLOCKS && early <= logged
  }

  /** The transactions of one filewrite: each fits the log, and the file system after it
      differs from the one before only in blocks it logged. */
  ghost predicate Transactions(sys: FileSystem, txns: seq<set<nat>>, early: seq<set<nat>>, states: seq<FS>) {
    && |early| == |txns| && |states| == |txns| + 1
    && forall k :: 0 <= k < |txns| ==> FitsLog(txns[k], early[k]) && sys.Covers(txns[k], states[k], states[k + 1])
  }

  lemma NoneYet(sys: FileSystem, fs: FS)
    ensures Transactions(sys, [], [], [fs])
  {
  }

  lemma OneMore(sys: FileSystem, txns: seq<set<nat>>, early: seq<set<nat>>, states: seq<FS>, logged: set<nat>, some: set<nat>, fs: FS)
    requires Transactions(sys, txns, early, states) && FitsLog(logged, some) && sys.Covers(logged, states[|txns|], fs)
    ensures Transactions(sys, txns + [logged], early + [some], states + [fs])
    ensures (states + [fs])[0] == states[0] && (states + [fs])[|txns + [logged]|] == fs
  {
  }

  /** The disk is full. */
  ghost predicate AllUsed(fs: FS) {
    forall c :: 0 <= c < |fs.used| ==> fs.used[c]
  }

  /** After a write the file reaches at least to its end. */
  lemma ReachesEnd(fs0: FS, fs: FS, n: nat, off: nat, t: seq<Byte>)
    requires Replaced(fs0, fs, n, off, t)
    ensures n < |fs.inodes| && off + |t| <= fs.inodes[n].size
  {
  }

  lemma OverwriteTwice(s: seq<Byte>, off: nat, a: seq<Byte>, b: seq<Byte>)
    requires off <= |s|
    ensures |Overwrite(s, off, a)| >= off + |a|
    ensures Overwrite(Overwrite(s, off, a), off + |a|, b) == Overwrite(s, off, a + b)
  {
  }

  lemma ReplacedNothing(fs: FS, n: nat, off: nat)
    requires Valid(fs) && n < |fs.inodes| && off <= fs.inodes[n].size
    ensures Replaced(fs, fs, n, off, [])
  {
    assert Overwrite(Contents(fs, n), off, []) == Contents(fs, n);
  }

  lemma ReplacedMore(fs0: FS, fs1: FS, fs2: FS, n: nat, off: nat, src: seq<Byte>, i: nat, r: nat)
    requires i + r <= |src| && Replaced(fs0, fs1, n, off, src[..i]) && Replaced(fs1, fs2, n, off + i, src[i..i + r])
    ensures Replaced(fs0, fs2, n, off, src[..i + r])
  {
    hide Valid; hide BlockAt; hide Overwrite;
    OverwriteTwice(Contents(fs0, n), off, src[..i], src[i..i + r]);
    assert src[..i] + src[i..i + r] == src[..i + r];
    forall m: nat | m < |fs2.inodes| && m != n ensures Contents(fs2, m) == Contents(fs0, m) {
      assert Contents(fs1, m) == Contents(fs0, m);
    }
  }

  lemma Extended(fs0: FS, fs1: FS, fs2: FS, n: nat, off: nat, src: seq<Byte>, i: nat, r: nat, n1: nat)
    requires r <= n1 && i + n1 <= |src| && Replaced(fs0, fs1, n, off, src[..i]) && Replaced(fs1, fs2, n, off + i, src[i..i + n1][..r])
    ensures Replaced(fs0, fs2, n, off, src[..i + r]) && Valid(fs2) && n < |fs2.inodes|
  {
    assert src[i..i + n1][..r] == src[i..i + r];
    ReplacedMore(fs0, fs1, fs2, n, off, src, i, r);
  }

  class File {
    var off: nat
    const ip: nat

    constructor (ip: nat)
      ensures this.ip == ip && off == 0
    {
      this.ip, off := ip, 0;
    }

    /** One transaction of filewrite: begin_op, writei of one chunk, end_op.  Before each of
        its calls of log_write, even the last, it has logged fewer than MAXOPBLOCKS blocks,
        and all it changed is logged in this transaction. */
    method WriteChunk(sys: FileSystem, chunk: seq<Byte>, failAt: nat) returns (r: int, ghost early: set<nat>)
      requires Valid(sys.fs) && ip < |sys.fs.inodes| && off < 0x1_0000_0000 && |chunk| <= MAX_CHUNK
      modifies this, sys
      ensures |sys.logged| <= MAXOPBLOCKS && |early| < MAXOPBLOCKS && sys.Covers(sys.logged, old(sys.fs), sys.fs)
      ensures sys.logged == if r == -1 then early else early + {sys.InodeBlock(ip)}
      ensures r == -1 <==> old(off) > old(sys.fs).inodes[ip].size || old(off) + |chunk| > MAXFILE * BSIZE
      ensures r == -1 ==> off == old(off) && sys.fs == old(sys.fs)
      ensures 0 <= r < |chunk| ==> AllUsed(sys.fs) || failAt < 4
      ensures r != -1 ==> 0 <= r <= |chunk| && off == old(off) + r && off < 0x1_0000_0000 && Replaced(old(sys.fs), sys.fs, ip, old(off), chunk[..r])
    {
      hide Valid; hide Replaced; hide LogBound; hide Blocks;
      sys.logged := {};
      ChunkFits(off, |chunk|);
      r, early := sys.Writei(ip, off, chunk, failAt);
      if r > 0 { off := off + r; }
    }

    /** filewrite: every chunk is a transaction of its own within the log's limit, and only
        the last is shorter than MAX_CHUNK.  The file offset moves over exactly the bytes
        written, and the result is the length if and only if that is all of them.  `txns` are
        the blocks each chunk logged, `early` those it had logged before its last log_write;
        `states` are the file systems between the chunks, each changed from the one before
        only in blocks its chunk logged. */
    method Filewrite(sys: FileSystem, src: seq<Byte>, n: int, failAt: nat -> nat) returns (ret: int, ghost txns: seq<set<nat>>, ghost early: seq<set<nat>>, ghost states: seq<FS>)
      requires Valid(sys.fs) && ip < |sys.fs.inodes| && off < 0x1_0000_0000 && n <= |src|
      modifies this, sys
      ensures Valid(sys.fs) && old(off) <= off && (off == old(off) || off - old(off) <= n)
      ensures if old(off) <= old(sys.fs).inodes[ip].size then Replaced(old(sys.fs), sys.fs, ip, old(off), src[..off - old(off)])
        else off == old(off) && sys.fs == old(sys.fs)
      ensures ret == if n >= 0 && off == old(off) + n then n else -1
      ensures n > 0 && ret == -1 ==>
        || old(off) > old(sys.fs).inodes[ip].size || old(off) + n > MAXFILE * BSIZE
        || AllUsed(sys.fs) || exists c: nat :: c < |txns| && failAt(c) < 4
      ensures ret == n > 0 ==> (|txns| - 1) * MAX_CHUNK < n <= |txns| * MAX_CHUNK
      ensures Transactions(sys, txns, early, states) && states[0] == old(sys.fs) && states[|txns|] == sys.fs
    {
      hide Valid; hide Replaced; hide Contents; hide Transactions;
      ghost var fs0, off0 := sys.fs, off;
      txns, early, states := [], [], [sys.fs];
      NoneYet(sys, sys.fs);
      if off <= sys.fs.inodes[ip].size { ReplacedNothing(sys.fs, ip, off); }
      var i, chunks := 0, 0;
      while i < n
        invariant 0 <= i && 0 <= chunks && (i == 0 || i <= n) && off == off0 + i < 0x1_0000_0000 && Valid(sys.fs) && ip < |sys.fs.inodes|
        invariant if off0 <= fs0.inodes[ip].size then Replaced(fs0, sys.fs, ip, off0, src[..i]) else i == 0 && sys.fs == fs0
        invariant if i < n then i == chunks * MAX_CHUNK else (chunks - 1) * MAX_CHUNK < n || n <= 0
        invariant i == n > 0 ==> n <= chunks * MAX_CHUNK
        invariant chunks == |txns| && Transactions(sys, txns, early, states) && |states| == |txns| + 1 && states[0] == fs0 && states[|txns|] == sys.fs
        decreases n - i
      {
        ghost var before := sys.fs;
        if off0 <= fs0.inodes[ip].size { ReachesEnd(fs0, before, ip, off0, src[..i]); }
        var n1 := n - i;
        if n1 > MAX_CHUNK { n1 := MAX_CHUNK; }
        ghost var some;
        var r;
        r, some := WriteChunk(sys, src[i..i + n1], failAt(chunks));
        assert failAt(chunks) < 4 ==> chunks < |txns + [sys.logged]|;
        OneMore(sys, txns, early, states, sys.logged, some, sys.fs);
        chunks, txns, early, states := chunks + 1, txns + [sys.logged], early + [some], states + [sys.fs];
        if r != -1 { Extended(fs0, before, sys.fs, ip, off0, src, i, r, n1); }
        if r != n1 { break; }
        i := i + r;
      }
      ret := if i == n then n else -1;
    }
  }
}
