/** kernel/fs.c: balloc, bmap, readi, writei and itrunc.  `logged` collects the
    block numbers that log_write is called with. */
module InodeCode {
  import opened InodeModel
  import opened InodeTruncate

  const BPB: nat := 8 * BSIZE
  const IPB: nat := 16

  class FileSystem {
    var fs: FS
    ghost var logged: set<nat>
    const inodestart: nat
    const bmapstart: nat

    constructor (fs: FS, inodestart: nat, bmapstart: nat)
      ensures this.fs == fs && logged == {} && this.inodestart == inodestart && this.bmapstart == bmapstart
    {
      this.fs, this.inodestart, this.bmapstart := fs, inodestart, bmapstart;
      logged := {};
    }

    function BitmapBlock(b: nat): nat {
      b / BPB + bmapstart
    }

    function InodeBlock(n: nat): nat {
      n / IPB + inodestart
    }

    /** Every block, bitmap bit and inode in which fs differs from fs0 is in one of `blocks`. */
    ghost predicate Covers(blocks: set<nat>, fs0: FS, fs: FS) {
      && |fs.blocks| == |fs0.blocks| && |fs.used| == |fs0.used| && |fs.inodes| == |fs0.inodes|
      && (forall b: nat :: b < |fs.blocks| && fs.blocks[b] != fs0.blocks[b] ==> b in blocks)
      && (forall b: nat :: b < |fs.used| && fs.used[b] != fs0.used[b] ==> BitmapBlock(b) in blocks)
      && (forall n: nat :: n < |fs.inodes| && fs.inodes[n] != fs0.inodes[n] ==> InodeBlock(n) in blocks)
    }

    lemma RecordedIsCovered(fs0: FS, fs: FS, n: nat, blocks: set<nat>)
      requires Recorded(fs0, fs, n, blocks, bmapstart) && InodeBlock(n) in blocks
      ensures Covers(blocks, fs0, fs)
    {
    }

    /** balloc: the first free block, marked, zeroed and logged; 0 when none is free. */
    method Balloc() returns (b: nat)
      requires BitmapExact(fs, {})
      modifies this
      ensures b == 0 ==> fs == old(fs) && logged == old(logged) && forall c :: 0 <= c < |fs.used| ==> fs.used[c]
      ensures b != 0 ==>
        && fs.meta <= b < |old(fs.used)| && !old(fs.used)[b] && (forall c :: 0 <= c < b ==> old(fs.used)[c])
        && fs == Marked(old(fs), b) && logged == old(logged) + {BitmapBlock(b), b}
    {
      var base := 0;
      while base < |fs.used|
        invariant 0 <= base && fs == old(fs) && logged == old(logged)
        invariant forall c :: 0 <= c < base && c < |fs.used| ==> fs.used[c]
      {
        var bi := 0;
        while bi < BPB && base + bi < |fs.used|
          invariant 0 <= bi <= BPB && fs == old(fs) && logged == old(logged)
          invariant forall c :: 0 <= c < base + bi && c < |fs.used| ==> fs.used[c]
        {
          b := base + bi;
          if !fs.used[b] {
            fs := Marked(fs, b);
            logged := logged + {BitmapBlock(b), b};
            return;
          }
          bi := bi + 1;
        }
        base := base + BPB;
      }
      b := 0;
    }

    /** The two direct-style assignments of bmap: addrs[i], for i up to and including
        the indirect block's own entry, is claimed if it is 0. */
    method ClaimAddr(n: nat, i: nat) returns (addr: nat, ghost bits: set<nat>)
      requires Valid(fs) && n < |fs.inodes| && i <= NDIRECT
      modifies this
      ensures Valid(fs) && SameBytes(old(fs), fs) && SameShape(old(fs), fs)
      ensures var at := if i < NDIRECT then Direct(n, i) else Indirect(n);
        && addr == BlockAt(fs, at) && addr < |fs.blocks|
        && (forall loc :: loc != at ==> BlockAt(fs, loc) == BlockAt(old(fs), loc))
        && (BlockAt(old(fs), at) != 0 ==> fs == old(fs) && logged == old(logged) && bits == {})
      ensures addr == 0 ==> forall c :: 0 <= c < |fs.used| ==> fs.used[c]
      ensures old(logged) <= logged <= old(logged) + bits + Just(addr) && |bits| <= 1 && (addr == 0 ==> bits == {})
      ensures Recorded(old(fs), fs, n, logged, bmapstart)
    {
      bits := {};
      addr := fs.inodes[n].addrs[i];
      assert addr == BlockAt(fs, if i < NDIRECT then Direct(n, i) else Indirect(n));
      if addr == 0 {
        addr := Balloc();
        if addr == 0 { return; }
        DirectKeeps(old(fs), n, i, addr);
        fs := WithDirect(fs, n, i, addr);
        bits := {BitmapBlock(addr)};
      }
    }

    /** The entry j of the indirect block. */
    method ClaimVia(n: nat, j: nat) returns (addr: nat, ghost bits: set<nat>)
      requires Valid(fs) && n < |fs.inodes| && j < NINDIRECT && BlockAt(fs, Indirect(n)) != 0
      modifies this
      ensures Valid(fs) && SameBytes(old(fs), fs) && SameShape(old(fs), fs)
      ensures addr == BlockAt(fs, Via(n, j)) && addr < |fs.blocks|
      ensures forall loc :: loc != Via(n, j) ==> BlockAt(fs, loc) == BlockAt(old(fs), loc)
      ensures BlockAt(old(fs), Via(n, j)) != 0 ==> fs == old(fs) && logged == old(logged) && bits == {}
      ensures addr == 0 ==> forall c :: 0 <= c < |fs.used| ==> fs.used[c]
      ensures old(logged) <= logged <= old(logged) + bits + Just(addr) + Just(BlockAt(fs, Indirect(n))) && |bits| <= 1
      ensures Recorded(old(fs), fs, n, logged, bmapstart)
    {
      bits := {};
      var ind := fs.inodes[n].addrs[NDIRECT];
      assert ind == BlockAt(fs, Indirect(n));
      addr := GetWord(fs.blocks[ind], j);
      assert addr == BlockAt(fs, Via(n, j));
      if addr == 0 {
        addr := Balloc();
        if addr != 0 {
          ViaKeeps(old(fs), n, j, addr);
          fs := WithVia(fs, n, j, addr);
          logged := logged + {ind};
          bits := {BitmapBlock(addr)};
        }
      }
    }

    /** The indirect half of bmap: the indirect block, then entry j of it. */
    method ClaimBoth(n: nat, j: nat) returns (addr: nat, ghost bits: set<nat>)
      requires Valid(fs) && n < |fs.inodes| && j < NINDIRECT
      modifies this
      ensures Valid(fs) && SameBytes(old(fs), fs) && SameShape(old(fs), fs)
      ensures addr != 0 ==> addr == BlockAt(fs, Via(n, j)) && addr < |fs.blocks|
      ensures forall loc :: loc != Via(n, j) && loc != Indirect(n) ==> BlockAt(fs, loc) == BlockAt(old(fs), loc)
      ensures BlockAt(old(fs), Indirect(n)) != 0 ==> BlockAt(fs, Indirect(n)) == BlockAt(old(fs), Indirect(n))
      ensures BlockAt(old(fs), Via(n, j)) != 0 ==> addr != 0 && fs == old(fs) && logged == old(logged) && bits == {}
      ensures addr == 0 ==> forall c :: 0 <= c < |fs.used| ==> fs.used[c]
      ensures old(logged) <= logged <= old(logged) + bits + Just(addr) + Just(BlockAt(fs, Indirect(n)))
      ensures |bits| <= (if BlockAt(old(fs), Via(n, j)) == 0 then 1 else 0) + NewIndirect(old(fs), fs, n)
      ensures Recorded(old(fs), fs, n, logged, bmapstart)
    {
      hide Valid; hide BlockAt; hide SameBytes; hide Just; hide Recorded;
      NeedsIndirect(fs, n, j);
      NoBlock();
      ghost var fs0, logged0 := fs, logged;
      addr, bits := ClaimAddr(n, NDIRECT);
      if addr == 0 { return; }
      ghost var mid, logged1, ind, more := fs, logged, addr, {};
      addr, more := ClaimVia(n, j);
      TwoClaims(logged0, logged1, logged, bits, more, Just(ind), Just(addr));
      bits := bits + more;
      SameBytesTrans(fs0, mid, fs);
      RecordedTwice(fs0, mid, fs, n, logged1, logged, bmapstart);
    }

    /** bmap: the block of file n that holds block bn, claimed if there is none yet.
        No byte, so no file's contents, and no other block assignment changes.  `bits` are
        the bitmap blocks it logged: one per block claimed.  Every block and every bitmap
        bit it changed is logged. */
    method Bmap(n: nat, bn: nat) returns (addr: nat, ghost bits: set<nat>)
      requires Valid(fs) && n < |fs.inodes| && bn < MAXFILE
      modifies this
      ensures Valid(fs) && SameBytes(old(fs), fs) && SameShape(old(fs), fs)
      ensures NoFileChanged(old(fs), fs)
      ensures addr != 0 ==> addr == BlockAt(fs, Place(n, bn)) && addr < |fs.blocks|
      ensures forall loc :: loc != Place(n, bn) && loc != Indirect(n) ==> BlockAt(fs, loc) == BlockAt(old(fs), loc)
      ensures BlockAt(old(fs), Indirect(n)) != 0 ==> BlockAt(fs, Indirect(n)) == BlockAt(old(fs), Indirect(n))
      ensures BlockAt(old(fs), Place(n, bn)) != 0 ==> addr != 0 && fs == old(fs) && logged == old(logged) && bits == {}
      ensures addr == 0 ==> forall c :: 0 <= c < |fs.used| ==> fs.used[c]
      ensures old(logged) <= logged <= old(logged) + bits + Just(addr) + Just(BlockAt(fs, Indirect(n)))
      ensures |bits| <= (if BlockAt(old(fs), Place(n, bn)) == 0 then 1 else 0) + NewIndirect(old(fs), fs, n)
      ensures Recorded(old(fs), fs, n, logged, bmapstart)
    {
      hide Valid; hide BlockAt; hide SameBytes; hide NoFileChanged; hide Recorded;
      if bn < NDIRECT {
        addr, bits := ClaimAddr(n, bn);
        SameFiles(old(fs), fs);
        return;
      }
      addr, bits := ClaimBoth(n, bn - NDIRECT);
      SameFiles(old(fs), fs);
    }

    /** bmap as writei's loop calls it: nothing written so far is disturbed, and a block that
        the chunk only continues is there already. */
    method MapTurn(n: nat, off0: nat, off: nat, src: seq<Byte>, ghost fs0: FS) returns (addr: nat, ghost more: set<nat>)
      requires Written(fs0, fs, n, off0, off, src) && n < |fs.inodes| && off < off0 + |src| <= MAXFILE * BSIZE
      modifies this
      ensures Valid(fs) && Written(fs0, fs, n, off0, off, src) && |fs.inodes| == |old(fs).inodes| && off0 <= off
      ensures if addr == 0 then forall c :: 0 <= c < |fs.used| ==> fs.used[c] else addr == BlockAt(fs, Place(n, off / BSIZE)) && addr < |fs.blocks|
      ensures BlockAt(old(fs), Indirect(n)) != 0 ==> BlockAt(fs, Indirect(n)) == BlockAt(old(fs), Indirect(n))
      ensures Charged(old(logged), logged, Just(addr), more, BlockAt(fs, Indirect(n)))
      ensures |more| <= (if off % BSIZE != 0 then 0 else 1) + NewIndirect(old(fs), fs, n)
      ensures Recorded(old(fs), fs, n, logged, bmapstart)
    {
      hide Valid; hide BlockAt; hide SameBytes; hide ByteAt; hide Contents; hide Recorded;
      FirstBlockExists(fs0, fs, n, off0, off, src);
      ghost var before := fs;
      addr, more := Bmap(n, off / BSIZE);
      KeptByBmap(before, fs, n, off / BSIZE);
      WrittenAfterBmap(fs0, before, fs, n, off0, off, src);
      hide Written;
    }

    /** One turn of writei's loop: map the block, copy the chunk into it, log it.
        `more` are the bitmap blocks logged, `touched` the data block. */
    method WriteTurn(n: nat, off0: nat, off: nat, src: seq<Byte>, copyFails: bool, ghost fs0: FS)
      returns (m: nat, ghost more: set<nat>, ghost touched: set<nat>)
      requires Written(fs0, fs, n, off0, off, src) && n < |fs.inodes| && off < off0 + |src| <= MAXFILE * BSIZE
      modifies this
      ensures Written(fs0, fs, n, off0, off + m, src) && |fs.inodes| == |old(fs).inodes|
      ensures m == 0 ==> copyFails || forall c :: 0 <= c < |fs.used| ==> fs.used[c]
      ensures off + m <= off0 + |src| && ToBoundary(off, off0 + |src|, m)
      ensures m > 0 ==> !copyFails
      ensures BlockAt(old(fs), Indirect(n)) != 0 ==> BlockAt(fs, Indirect(n)) == BlockAt(old(fs), Indirect(n))
      ensures Charged(old(logged), logged, touched, more, BlockAt(fs, Indirect(n)))
      ensures |touched| <= 1 && |more| <= (if off % BSIZE != 0 then 0 else 1) + NewIndirect(old(fs), fs, n)
      ensures Recorded(old(fs), fs, n, logged, bmapstart)
    {
      hide Valid; hide BlockAt; hide Written; hide Spliced; hide ByteAt; hide Recorded;
      var addr;
      addr, more := MapTurn(n, off0, off, src, fs0);
      touched := Just(addr);
      m := 0;
      if addr == 0 || copyFails { return; }
      var tot := off - off0;
      m := if |src| - tot < BSIZE - off % BSIZE then |src| - tot else BSIZE - off % BSIZE;
      WrittenAfterCopy(fs0, fs, n, off0, off, src, m);
      DataKeepsIndirect(fs, n, off / BSIZE, Spliced(fs.blocks[addr], off % BSIZE, src[tot..tot + m]));
      ghost var before, was := fs, logged;
      fs := fs.(blocks := fs.blocks[addr := Spliced(fs.blocks[addr], off % BSIZE, src[tot..tot + m])]);
      logged := logged + {addr};
      RecordedBlock(before, n, addr, fs.blocks[addr], logged, bmapstart);
      RecordedTwice(old(fs), before, fs, n, was, logged, bmapstart);
    }

    /** writei's loop.  The copy of chunk number `failAt` (if reached) fails, as
        either_copyin may.  Besides the bytes it writes it accounts for what it logs:
        one data block per turn, one bitmap block per block claimed. */
    method WriteLoop(n: nat, off0: nat, src: seq<Byte>, failAt: nat) returns (tot: nat, turns: nat, ghost data: set<nat>, ghost bits: set<nat>)
      requires Valid(fs) && n < |fs.inodes| && off0 <= fs.inodes[n].size && off0 + |src| <= MAXFILE * BSIZE
      modifies this
      ensures tot <= |src| && Written(old(fs), fs, n, off0, off0 + tot, src)
      ensures tot < |src| ==> (forall c :: 0 <= c < |fs.used| ==> fs.used[c]) || turns == failAt + 1
      ensures Charged(old(logged), logged, data, bits, BlockAt(fs, Indirect(n)))
      ensures turns <= Blocks(off0, |src|) && Counted(off0, turns, data, bits, NewIndirect(old(fs), fs, n))
      ensures Recorded(old(fs), fs, n, logged, bmapstart)
    {
      hide Valid; hide Recorded; hide BlockAt; hide Written; hide Blocks; hide AtTurn; hide ToBoundary; hide Charged; hide Counted;
      ghost var fs0, logged0 := fs, logged;
      FirstTurn(off0, |src|);
      ChargedNothing(logged, BlockAt(fs, Indirect(n)));
      CountedNothing(off0, NewIndirect(fs, fs, n));
      tot, turns, data, bits := 0, 0, {}, {};
      WrittenNothing(fs, n, off0, src);
      RecordedNothing(fs, n, logged, bmapstart);
      var off := off0;
      while tot < |src|
        invariant tot <= |src| && off == off0 + tot && Written(fs0, fs, n, off0, off, src) && n < |fs.inodes|
        invariant turns <= failAt && AtTurn(off0, |src|, tot, turns) && turns <= Blocks(off0, |src|) && (turns == 0 ==> tot == 0)
        invariant Charged(logged0, logged, data, bits, BlockAt(fs, Indirect(n)))
        invariant BlockAt(fs0, Indirect(n)) != 0 ==> BlockAt(fs, Indirect(n)) == BlockAt(fs0, Indirect(n))
        invariant Counted(off0, turns, data, bits, NewIndirect(fs0, fs, n))
        invariant Recorded(fs0, fs, n, logged, bmapstart)
        decreases |src| - tot
      {
        ghost var before, was := fs, logged;
        ghost var touched, more;
        var m;
        m, more, touched := WriteTurn(n, off0, off, src, turns == failAt, fs0);
        ChargedMore(logged0, was, logged, data, bits, touched, more, BlockAt(before, Indirect(n)), BlockAt(fs, Indirect(n)));
        ChargedGrows(was, logged, touched, more, BlockAt(fs, Indirect(n)));
        RecordedTwice(fs0, before, fs, n, was, logged, bmapstart);
        NextTurn(off0, |src|, tot, turns, m);
        CountedMore(off0, off, turns, data, bits, touched, more, NewIndirect(fs0, before, n), NewIndirect(before, fs, n));
        data, bits := data + touched, bits + more;
        turns, tot, off := turns + 1, tot + m, off + m;
        if m == 0 { return; }
      }
    }

    /** writei.  A refused write changes nothing.  Otherwise the first r bytes of src
        replace exactly bytes off to off + r of file n, also when the disk fills up
        or a copy fails halfway.  `early` are the blocks logged before its last log_write,
        that of the inode.  Whatever it changed on the disk is logged, so that a commit of
        the logged blocks carries all of it. */
    method Writei(n: nat, off: nat, src: seq<Byte>, failAt: nat) returns (r: int, ghost early: set<nat>)
      requires Valid(fs) && n < |fs.inodes| && off < 0x1_0000_0000 && |src| < 0x1_0000_0000
      modifies this
      ensures r == -1 <==> off > old(fs).inodes[n].size || off + |src| > MAXFILE * BSIZE
      ensures r == -1 ==> fs == old(fs) && logged == early == old(logged)
      ensures r != -1 ==> logged == early + {InodeBlock(n)} && old(logged) <= early && |early| < |old(logged)| + LogBound(off, |src|)
      ensures r != -1 ==> 0 <= r <= |src| && Replaced(old(fs), fs, n, off, src[..r])
      ensures 0 <= r < |src| ==> (forall c :: 0 <= c < |fs.used| ==> fs.used[c]) || failAt < Blocks(off, |src|)
      ensures |logged| <= |old(logged)| + LogBound(off, |src|)
      ensures Covers(logged, old(fs), fs)
    {
      hide Valid; hide BlockAt; hide Written; hide Contents; hide Replaced; hide Recorded;
      early := logged;
      if off > fs.inodes[n].size || (off + |src|) % 0x1_0000_0000 < off { return -1, early; }
      if off + |src| > MAXFILE * BSIZE { return -1, early; }
      var turns;
      ghost var data, bits;
      r, turns, data, bits := WriteLoop(n, off, src, failAt);
      ghost var after := fs;
      WrittenIsReplaced(old(fs), fs, n, off, off + r, src);
      if off + r > fs.inodes[n].size {
        fs := fs.(inodes := fs.inodes[n := fs.inodes[n].(size := off + r)]);
      }
      early := logged;
      logged := logged + {InodeBlock(n)};
      RecordedInode(old(fs), after, fs, n, early, logged, bmapstart);
      RecordedIsCovered(old(fs), fs, n, logged);
      Smaller(early, old(logged) + data + bits + Just(BlockAt(after, Indirect(n))));
    }

    /** One turn of readi's loop.  No file has a hole, so bmap finds the block. */
    method ReadTurn(n: nat, at: nat, left: nat) returns (piece: seq<Byte>)
      requires Valid(fs) && n < |fs.inodes| && 0 < left && at + left <= fs.inodes[n].size
      modifies this
      ensures fs == old(fs) && logged == old(logged)
      ensures 0 < |piece| <= left && piece == Contents(fs, n)[at..at + |piece|] && ToBoundary(at, at + left, |piece|)
    {
      hide Valid; hide BlockAt; hide ByteAt; hide Contents;
      HasBlock(fs, n, at);
      var addr;
      ghost var bits;
      addr, bits := Bmap(n, at / BSIZE);
      var m := if left < BSIZE - at % BSIZE then left else BSIZE - at % BSIZE;
      BlockIsContents(fs, n, at, m);
      piece := fs.blocks[addr][at % BSIZE..][..m];
    }

    /** readi: the bytes of the file from off on, at most len of them; -1 when the copy
        of chunk number `failAt` fails.  Reading changes nothing. */
    method Readi(n: nat, off: nat, len: nat, failAt: nat) returns (r: int, dst: seq<Byte>)
      requires Valid(fs) && n < |fs.inodes| && off < 0x1_0000_0000 && len < 0x1_0000_0000
      modifies this
      ensures fs == old(fs) && logged == old(logged)
      ensures var want := Readable(fs.inodes[n].size, off, len);
        && (r == -1 <==> failAt < Blocks(off, want))
        && (r != -1 ==> r == want && dst == Piece(Contents(fs, n), off, want))
    {
      hide Valid; hide Contents; hide Piece; hide Blocks; hide AtTurn; hide ToBoundary;
      var want := len;
      r, dst := 0, [];
      EmptyPiece(Contents(fs, n), off);
      FirstTurn(off, 0);
      if off > fs.inodes[n].size || (off + len) % 0x1_0000_0000 < off { return; }
      if off + want > fs.inodes[n].size { want := fs.inodes[n].size - off; }
      var tot, at, turns := 0, off, 0;
      FirstTurn(off, want);
      while tot < want
        invariant tot <= want && at == off + tot && fs == old(fs) && logged == old(logged)
        invariant dst == Piece(Contents(fs, n), off, tot)
        invariant turns <= failAt && AtTurn(off, want, tot, turns)
        decreases want - tot
      {
        var piece := ReadTurn(n, at, want - tot);
        NextTurn(off, want, tot, turns, |piece|);
        turns := turns + 1;
        if turns == failAt + 1 { return -1, dst; }
        LongerPiece(Contents(fs, n), off, tot, piece);
        dst := dst + piece;
        tot, at := tot + |piece|, at + |piece|;
      }
      r := tot;
      LastTurn(off, want, turns);
    }

    /** A read of what was just written returns it. */
    method WriteThenRead(n: nat, off: nat, src: seq<Byte>, failAt: nat) returns (r: int, q: int, dst: seq<Byte>)
      requires Valid(fs) && n < |fs.inodes| && off < 0x1_0000_0000 && |src| < 0x1_0000_0000
      modifies this
      ensures r >= 0 ==> q == r <= |src| && dst == src[..r]
    {
      ghost var early;
      r, early := Writei(n, off, src, failAt);
      q, dst := 0, [];
      if r >= 0 {
        q, dst := Readi(n, off, r, r);
      }
    }

    /** bfree, which panics unless the block is in use. */
    method Bfree(b: nat)
      requires b < |fs.used| && fs.used[b]
      modifies this
      ensures fs == Unmarked(old(fs), b) && logged == old(logged) + {BitmapBlock(b)}
    {
      fs := fs.(used := fs.used[b := false]);
      logged := logged + {BitmapBlock(b)};
    }

    method FreeDirects(n: nat)
      requires BitmapExact(fs, {}) && n < |fs.inodes|
      modifies this
      ensures BitmapExact(fs, {}) && SameBut(old(fs), fs, n)
      ensures forall loc: Loc :: BlockAt(fs, loc) == if loc.n == n && loc.Direct? then 0 else BlockAt(old(fs), loc)
      ensures old(logged) <= logged && Recorded(old(fs), fs, n, logged, bmapstart)
    {
      hide Recorded;
      ghost var fs0 := fs;
      RecordedNothing(fs, n, logged, bmapstart);
      var i := 0;
      while i < NDIRECT
        invariant 0 <= i <= NDIRECT && BitmapExact(fs, {}) && SameBut(fs0, fs, n)
        invariant forall loc: Loc :: BlockAt(fs, loc) == if loc.n == n && loc.Direct? && loc.i < i then 0 else BlockAt(fs0, loc)
        invariant old(logged) <= logged && Recorded(fs0, fs, n, logged, bmapstart)
      {
        hide BitmapExact;
        var addr := fs.inodes[n].addrs[i];
        assert addr == BlockAt(fs, Direct(n, i));
        hide BlockAt;
        if addr != 0 {
          DirectFreed(fs, n, i);
          RecordedBit(fs0, fs, n, addr, logged, bmapstart);
          Bfree(addr);
          RecordedInode(fs0, fs, WithoutDirect(fs, n, i), n, logged, logged, bmapstart);
          fs := WithoutDirect(fs, n, i);
        }
        i := i + 1;
      }
      assert forall loc: Loc :: loc.Direct? && loc.i >= NDIRECT ==> BlockAt(fs, loc) == 0;
    }

    method FreeVias(n: nat)
      requires BitmapExact(fs, {}) && n < |fs.inodes| && BlockAt(fs, Indirect(n)) != 0
      modifies this
      ensures BitmapExact(fs, Vias(n, NINDIRECT)) && fs == old(fs).(used := fs.used)
      ensures old(logged) <= logged && Recorded(old(fs), fs, n, logged, bmapstart)
    {
      ghost var fs0 := fs;
      var ind := fs.inodes[n].addrs[NDIRECT];
      var a := fs.blocks[ind];
      var j := 0;
      assert Vias(n, 0) == {};
      while j < NINDIRECT
        invariant 0 <= j <= NINDIRECT && BitmapExact(fs, Vias(n, j)) && fs == fs0.(used := fs.used)
        invariant old(logged) <= logged && Recorded(fs0, fs, n, logged, bmapstart)
      {
        hide BitmapExact; hide Vias;
        assert GetWord(a, j) == BlockAt(fs, Via(n, j));
        ViaFreed(fs, n, j);
        if GetWord(a, j) != 0 {
          Bfree(GetWord(a, j));
        }
        j := j + 1;
      }
    }

    /** itrunc.  No bfree panics; exactly the blocks of inode n are freed, its size
        becomes 0 and no other file changes.  Whatever it changed on the disk is logged. */
    method Itrunc(n: nat)
      requires Valid(fs) && n < |fs.inodes|
      modifies this
      ensures Valid(fs) && Emptied(old(fs), fs, n)
      ensures |fs.used| == |old(fs).used| && forall b: nat :: fs.meta <= b < |fs.used| ==> (fs.used[b] <==> old(fs).used[b] && !OwnedBy(old(fs), n, b))
      ensures Contents(fs, n) == [] && forall m: nat :: m < |fs.inodes| && m != n ==> Contents(fs, m) == Contents(old(fs), m)
      ensures Covers(logged, old(fs), fs)
    {
      hide BitmapExact; hide BlockAt; hide NoHoles; hide Contents; hide Recorded;
      ghost var fs0 := fs;
      FreeDirects(n);
      ghost var mid, early := fs, logged;
      IndirectIs(fs, n);
      var ind := fs.inodes[n].addrs[NDIRECT];
      if ind != 0 {
        FreeVias(n);
        RecordedTwice(fs0, mid, fs, n, early, logged, bmapstart);
        OnlyUsed(mid, fs);
        IndirectFreed(fs, n);
        RecordedBit(fs0, fs, n, ind, logged, bmapstart);
        Bfree(ind);
        RecordedInode(fs0, fs, WithoutDirect(fs, n, NDIRECT), n, logged, logged, bmapstart);
        fs := WithoutDirect(fs, n, NDIRECT);
      }
      SizeIsNoPlace(fs, n);
      ghost var last, were := fs, logged;
      fs := fs.(inodes := fs.inodes[n := fs.inodes[n].(size := 0)]);
      logged := logged + {InodeBlock(n)};
      RecordedInode(fs0, last, fs, n, were, logged, bmapstart);
      RecordedIsCovered(fs0, fs, n, logged);
      EmptiedIsValid(fs0, fs, n);
      forall b: nat | fs.meta <= b < |fs0.used| ensures |fs.used| == |fs0.used| && (fs.used[b] <==> fs0.used[b] && !OwnedBy(fs0, n, b)) {
        FreesExactlyOwned(fs0, fs, n, b);
      }
    }
  }

  /** An upper bound on the blocks one writei logs: a data block and a bitmap block per
      turn, the indirect block with its bitmap block, and the inode; but a first block
      that starts midway is there already. */
  function LogBound(off: nat, len: nat): nat {
    2 * Blocks(off, len) + 3 - if off % BSIZE != 0 && len > 0 then 1 else 0
  }

  /** Bytes off onwards of file n are replaced by t; nothing else about any file changes. */
  ghost predicate Replaced(fs0: FS, fs: FS, n: nat, off: nat, t: seq<Byte>) {
    && Valid(fs) && fs.meta == fs0.meta && |fs.blocks| == |fs0.blocks| && |fs.inodes| == |fs0.inodes| && n < |fs.inodes|
    && off <= fs0.inodes[n].size && Contents(fs, n) == Overwrite(Contents(fs0, n), off, t)
    && (forall m: nat :: m < |fs.inodes| && m != n ==> Contents(fs, m) == Contents(fs0, m))
    && (forall loc :: BlockAt(fs0, loc) != 0 ==> BlockAt(fs, loc) == BlockAt(fs0, loc))
  }

  function Grown(fs: FS, n: nat, off: nat): FS
    requires n < |fs.inodes|
  {
    if off > fs.inodes[n].size then fs.(inodes := fs.inodes[n := fs.inodes[n].(size := off)]) else fs
  }

  lemma GrownIsValid(fs: FS, n: nat, off: nat)
    requires Valid(fs) && n < |fs.inodes| && off <= MAXFILE * BSIZE
    requires forall bn: nat :: bn * BSIZE < off ==> BlockAt(fs, Place(n, bn)) != 0
    ensures Valid(Grown(fs, n, off)) && forall loc :: BlockAt(Grown(fs, n, off), loc) == BlockAt(fs, loc)
  {
    var fs' := Grown(fs, n, off);
    assert forall loc :: BlockAt(fs', loc) == BlockAt(fs, loc);
    forall c | 0 <= c < |fs.used| ensures Owned(fs', c, {}) <==> Owned(fs, c, {}) {
    }
    forall m | 0 <= m < |fs.inodes| ensures NoHoles(fs', m) {
      assert NoHoles(fs, m);
    }
  }

  lemma OtherFileKept(fs0: FS, fs: FS, n: nat, off0: nat, off: nat, src: seq<Byte>, m: nat)
    requires Valid(fs0) && Written(fs0, fs, n, off0, off, src) && n < |fs.inodes| && m < |fs.inodes| && m != n
    ensures Contents(Grown(fs, n, off), m) == Contents(fs0, m)
  {
    forall k: nat | k < fs0.inodes[m].size ensures ByteAt(Grown(fs, n, off), m, k) == ByteAt(fs0, m, k) {
      HasBlock(fs0, m, k);
    }
  }

  lemma FileReplaced(fs0: FS, fs: FS, n: nat, off0: nat, off: nat, src: seq<Byte>)
    requires Valid(fs0) && n < |fs0.inodes| && off0 <= fs0.inodes[n].size && Written(fs0, fs, n, off0, off, src)
    ensures n < |fs.inodes| && Contents(Grown(fs, n, off), n) == Overwrite(Contents(fs0, n), off0, src[..off - off0])
  {
    var fs' := Grown(fs, n, off);
    forall k: nat ensures ByteAt(fs', n, k) == ByteAt(fs, n, k) {
    }
    forall k: nat | k < fs0.inodes[n].size && !(off0 <= k < off) ensures ByteAt(fs', n, k) == ByteAt(fs0, n, k) {
      HasBlock(fs0, n, k);
    }
  }

  lemma WrittenIsReplaced(fs0: FS, fs: FS, n: nat, off0: nat, off: nat, src: seq<Byte>)
    requires Valid(fs0) && n < |fs0.inodes| && off0 <= fs0.inodes[n].size && off <= MAXFILE * BSIZE
    requires Written(fs0, fs, n, off0, off, src)
    ensures n < |fs.inodes| && Replaced(fs0, Grown(fs, n, off), n, off0, src[..off - off0])
  {
    hide Valid; hide Contents; hide BlockAt; hide ByteAt;
    GrownIsValid(fs, n, off);
    FileReplaced(fs0, fs, n, off0, off, src);
    forall m: nat | m < |fs.inodes| && m != n ensures Contents(Grown(fs, n, off), m) == Contents(fs0, m) {
      OtherFileKept(fs0, fs, n, off0, off, src, m);
    }
  }

  /** How many bytes a read of len bytes at off gets. */
  function Readable(size: nat, off: nat, len: nat): nat {
    if off > size || off + len >= 0x1_0000_0000 then 0 else if off + len > size then size - off else len
  }

  function Piece(s: seq<Byte>, off: nat, len: nat): seq<Byte> {
    if off + len <= |s| then s[off..off + len] else []
  }

  lemma EmptyPiece(s: seq<Byte>, off: nat)
    ensures Piece(s, off, 0) == []
  {
  }

  lemma LongerPiece(s: seq<Byte>, off: nat, len: nat, piece: seq<Byte>)
    requires off + len + |piece| <= |s| && piece == s[off + len..off + len + |piece|]
    ensures Piece(s, off, len + |piece|) == Piece(s, off, len) + piece
  {
  }

  /** From fs0 to fs only inode n changed, and every block and bitmap bit that changed is
      in a logged block. */
  ghost predicate Recorded(fs0: FS, fs: FS, n: nat, logged: set<nat>, bmapstart: nat) {
    && |fs.blocks| == |fs0.blocks| && |fs.used| == |fs0.used| && |fs.inodes| == |fs0.inodes|
    && (forall b: nat :: b < |fs.blocks| && fs.blocks[b] != fs0.blocks[b] ==> b in logged)
    && (forall b: nat :: b < |fs.used| && fs.used[b] != fs0.used[b] ==> b / BPB + bmapstart in logged)
    && (forall m: nat :: m < |fs.inodes| && m != n ==> fs.inodes[m] == fs0.inodes[m])
  }

  lemma RecordedNothing(fs: FS, n: nat, logged: set<nat>, bmapstart: nat)
    ensures Recorded(fs, fs, n, logged, bmapstart)
  {
  }

  lemma RecordedBlock(fs: FS, n: nat, b: nat, data: Block, logged: set<nat>, bmapstart: nat)
    requires b < |fs.blocks| && b in logged
    ensures Recorded(fs, fs.(blocks := fs.blocks[b := data]), n, logged, bmapstart)
  {
  }

  lemma RecordedBit(fs0: FS, fs: FS, n: nat, b: nat, logged: set<nat>, bmapstart: nat)
    requires Recorded(fs0, fs, n, logged, bmapstart) && b < |fs.used|
    ensures Recorded(fs0, Unmarked(fs, b), n, logged + {b / BPB + bmapstart}, bmapstart)
  {
  }

  lemma RecordedInode(fs0: FS, fs: FS, fs': FS, n: nat, early: set<nat>, logged: set<nat>, bmapstart: nat)
    requires Recorded(fs0, fs, n, early, bmapstart) && early <= logged && n < |fs.inodes| && |fs'.inodes| == |fs.inodes|
    requires fs' == fs.(inodes := fs.inodes[n := fs'.inodes[n]])
    ensures Recorded(fs0, fs', n, logged, bmapstart)
  {
  }

  lemma RecordedTwice(a: FS, b: FS, c: FS, n: nat, early: set<nat>, logged: set<nat>, bmapstart: nat)
    requires Recorded(a, b, n, early, bmapstart) && early <= logged && Recorded(b, c, n, logged, bmapstart)
    ensures Recorded(a, c, n, logged, bmapstart)
  {
  }

  /** What is logged grows from `before` to `after` by data blocks, bitmap blocks and the indirect block. */
  ghost predicate Charged(before: set<nat>, after: set<nat>, data: set<nat>, bits: set<nat>, ind: nat) {
    before <= after <= before + data + bits + Just(ind)
  }

  lemma ChargedNothing(logged: set<nat>, ind: nat)
    ensures Charged(logged, logged, {}, {}, ind)
  {
  }

  lemma ChargedGrows(before: set<nat>, after: set<nat>, data: set<nat>, bits: set<nat>, ind: nat)
    requires Charged(before, after, data, bits, ind)
    ensures before <= after
  {
  }

  lemma ChargedMore(a: set<nat>, b: set<nat>, c: set<nat>, data: set<nat>, bits: set<nat>, data': set<nat>, bits': set<nat>, ind: nat, ind': nat)
    requires Charged(a, b, data, bits, ind) && Charged(b, c, data', bits', ind') && (ind != 0 ==> ind' == ind)
    ensures Charged(a, c, data + data', bits + bits', ind')
  {
  }

  /** At most one data block a turn; at most one bitmap block a turn and one more for a new
      indirect block, less one if the first block was there. */
  ghost predicate Counted(off0: nat, turns: nat, data: set<nat>, bits: set<nat>, extra: nat) {
    |data| <= turns && |bits| <= turns + extra - FirstOld(off0, turns)
  }

  lemma CountedNothing(off0: nat, extra: nat)
    ensures Counted(off0, 0, {}, {}, extra)
  {
  }

  lemma CountedMore(off0: nat, off: nat, turns: nat, data: set<nat>, bits: set<nat>, data': set<nat>, bits': set<nat>, extra: nat, extra': nat)
    requires Counted(off0, turns, data, bits, extra)
    requires |data'| <= 1 && |bits'| <= (if off % BSIZE != 0 then 0 else 1) + extra'
    requires if turns == 0 then off == off0 else off % BSIZE == 0
    ensures Counted(off0, turns + 1, data + data', bits + bits', extra + extra')
  {
    assert |data + data'| <= |data| + |data'| && |bits + bits'| <= |bits| + |bits'|;
  }

  lemma Smaller(a: set<nat>, b: set<nat>)
    requires a <= b
    ensures |a| <= |b|
  {
    assert b == a + (b - a);
  }

  /** No holes: every byte below a file's size has a block. */
  lemma HasBlock(fs: FS, n: nat, k: nat)
    requires Valid(fs) && n < |fs.inodes| && k < fs.inodes[n].size
    ensures k / BSIZE < MAXFILE && BlockAt(fs, Place(n, k / BSIZE)) != 0
  {
    assert NoHoles(fs, n);
    assert k / BSIZE * BSIZE <= k;
  }

  lemma BlockIsContents(fs: FS, n: nat, at: nat, m: nat)
    requires Valid(fs) && n < |fs.inodes| && at + m <= fs.inodes[n].size && at % BSIZE + m <= BSIZE && 0 < m
    ensures BlockAt(fs, Place(n, at / BSIZE)) < |fs.blocks|
    ensures fs.blocks[BlockAt(fs, Place(n, at / BSIZE))][at % BSIZE..][..m] == Contents(fs, n)[at..at + m]
  {
    HasBlock(fs, n, at);
    var b := fs.blocks[BlockAt(fs, Place(n, at / BSIZE))];
    var s := Contents(fs, n);
    forall k: nat | at <= k < at + m ensures s[k] == b[at % BSIZE..][k - at] {
      assert k / BSIZE == at / BSIZE && k % BSIZE == at % BSIZE + (k - at);
    }
    hide *;
    assert s[at..at + m] == b[at % BSIZE..][..m];
  }

  lemma DataKeepsIndirect(fs: FS, n: nat, bn: nat, data: Block)
    requires Valid(fs) && n < |fs.inodes| && BlockAt(fs, Place(n, bn)) != 0
    ensures BlockAt(fs, Place(n, bn)) < |fs.blocks|
    ensures BlockAt(fs.(blocks := fs.blocks[BlockAt(fs, Place(n, bn)) := data]), Indirect(n)) == BlockAt(fs, Indirect(n))
  {
    DataPlaces(fs, n, bn, data);
  }

  /** Blocks that a write of len bytes at off touches. */
  function Blocks(off: nat, len: nat): nat {
    if len == 0 then 0 else (off + len - 1) / BSIZE - off / BSIZE + 1
  }

  /** tot of the len bytes at off are done after `turns` turns of a loop that goes on to
      the next block boundary each time. */
  ghost predicate AtTurn(off: nat, len: nat, tot: nat, turns: nat) {
    && tot <= len && turns <= Blocks(off, len)
    && (tot < len ==> (off + tot) / BSIZE == off / BSIZE + turns && (turns > 0 ==> (off + tot) % BSIZE == 0))
    && (tot == len ==> turns == Blocks(off, len))
  }

  /** m more bytes, if any, reach the end or the next block boundary, whichever is first. */
  ghost predicate ToBoundary(at: nat, end: nat, m: nat) {
    && at + m <= end && at + m <= (at / BSIZE + 1) * BSIZE
    && (m > 0 ==> at + m == end || at + m == (at / BSIZE + 1) * BSIZE)
  }

  lemma FirstTurn(off: nat, len: nat)
    ensures AtTurn(off, len, 0, 0)
    ensures len == 0 ==> Blocks(off, len) == 0
  {
  }

  lemma NextTurn(off: nat, len: nat, tot: nat, turns: nat, m: nat)
    requires AtTurn(off, len, tot, turns) && tot < len && ToBoundary(off + tot, off + len, m)
    ensures turns < Blocks(off, len) && (turns > 0 ==> (off + tot) % BSIZE == 0)
    ensures m > 0 ==> AtTurn(off, len, tot + m, turns + 1)
  {
    var at := off + tot;
    var b := at / BSIZE;
    assert (off + len - 1) / BSIZE >= b;
    if m > 0 && tot + m == len {
      assert (at + m - 1) / BSIZE == b;
    }
  }

  lemma LastTurn(off: nat, len: nat, turns: nat)
    requires AtTurn(off, len, len, turns)
    ensures turns == Blocks(off, len)
  {
  }

  ghost function NewIndirect(fs0: FS, fs: FS, n: nat): nat {
    if BlockAt(fs0, Indirect(n)) == 0 && BlockAt(fs, Indirect(n)) != 0 then 1 else 0
  }

  /** A write that starts inside a block finds that block already there. */
  function FirstOld(off0: nat, turns: nat): nat {
    if off0 % BSIZE != 0 && turns > 0 then 1 else 0
  }

  lemma FirstBlockExists(fs0: FS, fs: FS, n: nat, off0: nat, off: nat, src: seq<Byte>)
    requires Written(fs0, fs, n, off0, off, src)
    ensures off % BSIZE != 0 ==> BlockAt(fs, Place(n, off / BSIZE)) != 0
  {
    assert off % BSIZE != 0 ==> off / BSIZE * BSIZE < off;
  }

  lemma KeptByBmap(fs: FS, fs': FS, n: nat, bn: nat)
    requires forall loc :: loc != Place(n, bn) && loc != Indirect(n) ==> BlockAt(fs', loc) == BlockAt(fs, loc)
    requires BlockAt(fs, Indirect(n)) != 0 ==> BlockAt(fs', Indirect(n)) == BlockAt(fs, Indirect(n))
    requires BlockAt(fs, Place(n, bn)) != 0 ==> fs' == fs
    ensures forall loc :: BlockAt(fs, loc) != 0 ==> BlockAt(fs', loc) == BlockAt(fs, loc)
  {
  }

  lemma NeedsIndirect(fs: FS, n: nat, j: nat)
    ensures BlockAt(fs, Via(n, j)) != 0 ==> BlockAt(fs, Indirect(n)) != 0
  {
  }

  lemma SameBytesTrans(a: FS, b: FS, c: FS)
    requires SameBytes(a, b) && SameBytes(b, c)
    requires forall n: nat, bn: nat :: BlockAt(a, Place(n, bn)) != 0 ==> BlockAt(b, Place(n, bn)) != 0
    ensures SameBytes(a, c)
  {
  }

  /** Sizes and lengths are as before. */
  ghost predicate SameShape(fs: FS, fs': FS) {
    && fs'.meta == fs.meta && |fs'.blocks| == |fs.blocks| && |fs'.inodes| == |fs.inodes|
    && forall n :: 0 <= n < |fs.inodes| ==> fs'.inodes[n].size == fs.inodes[n].size
  }

  lemma NoBlock()
    ensures Just(0) == {}
  {
  }

  /** What two claims log, and how many bitmap blocks at most. */
  lemma TwoClaims(a: set<nat>, b: set<nat>, c: set<nat>, bits: set<nat>, more: set<nat>, ind: set<nat>, addr: set<nat>)
    requires a <= b <= a + bits + ind && b <= c <= b + more + addr + ind
    ensures a <= c <= a + (bits + more) + addr + ind && |bits + more| <= |bits| + |more|
    ensures bits == {} ==> bits + more == more
    ensures more == {} ==> bits + more == bits
  {
  }

  ghost predicate NoFileChanged(fs: FS, fs': FS) {
    |fs'.inodes| == |fs.inodes| && forall m: nat :: m < |fs.inodes| ==> Contents(fs', m) == Contents(fs, m)
  }

  /** The same bytes and sizes: no file changes. */
  lemma SameFiles(fs: FS, fs': FS)
    requires Valid(fs) && SameBytes(fs, fs') && SameShape(fs, fs')
    ensures NoFileChanged(fs, fs')
  {
    hide Valid; hide SameBytes; hide Contents;
    forall m: nat | m < |fs'.inodes| ensures Contents(fs', m) == Contents(fs, m) {
      SameContents(fs, fs', m);
    }
  }

  /** The block itself, unless it is 0, which is none. */
  function Just(b: nat): set<nat> {
    if b == 0 then {} else {b}
  }

  /** s with t written over it at off, growing it if need be. */
  function Overwrite(s: seq<Byte>, off: nat, t: seq<Byte>): seq<Byte>
    requires off <= |s|
  {
    s[..off] + t + if off + |t| < |s| then s[off + |t|..] else []
  }

  /** How far writei has come: bytes off0 up to off of file n hold src, every other
      byte of every file is as it was in fs0, and there is no hole below off. */
  ghost predicate Written(fs0: FS, fs: FS, n: nat, off0: nat, off: nat, src: seq<Byte>) {
    && Valid(fs) && SameShape(fs0, fs) && off0 <= off <= off0 + |src|
    && (forall k: nat :: off0 <= k < off ==> ByteAt(fs, n, k) == src[k - off0])
    && (forall m: nat, k: nat :: BlockAt(fs0, Place(m, k / BSIZE)) != 0 && !(m == n && off0 <= k < off) ==> ByteAt(fs, m, k) == ByteAt(fs0, m, k))
    && (forall loc :: BlockAt(fs0, loc) != 0 ==> BlockAt(fs, loc) == BlockAt(fs0, loc))
    && (forall bn: nat :: bn * BSIZE < off ==> BlockAt(fs, Place(n, bn)) != 0)
  }

  lemma WrittenNothing(fs: FS, n: nat, off: nat, src: seq<Byte>)
    requires Valid(fs) && n < |fs.inodes| && off <= fs.inodes[n].size
    ensures Written(fs, fs, n, off, off, src)
  {
    assert NoHoles(fs, n);
  }

  lemma WrittenAfterBmap(fs0: FS, fs: FS, fs': FS, n: nat, off0: nat, off: nat, src: seq<Byte>)
    requires Written(fs0, fs, n, off0, off, src) && Valid(fs') && SameBytes(fs, fs') && SameShape(fs, fs')
    requires forall loc :: BlockAt(fs, loc) != 0 ==> BlockAt(fs', loc) == BlockAt(fs, loc)
    ensures Written(fs0, fs', n, off0, off, src)
  {
    forall k: nat | off0 <= k < off ensures ByteAt(fs', n, k) == src[k - off0] {
      assert k / BSIZE * BSIZE <= k;
      assert BlockAt(fs, Place(n, k / BSIZE)) != 0;
    }
  }

  /** The part of a block before o, then t, then the part after. */
  function Spliced(b: Block, o: nat, t: seq<Byte>): (r: Block)
    requires o + |t| <= BSIZE
    ensures forall i :: 0 <= i < BSIZE ==> r[i] == if o <= i < o + |t| then t[i - o] else b[i]
  {
    b[..o] + t + b[o + |t|..]
  }

  lemma WrittenAfterCopy(fs0: FS, fs: FS, n: nat, off0: nat, off: nat, src: seq<Byte>, m: nat)
    requires Written(fs0, fs, n, off0, off, src) && n < |fs.inodes|
    requires 0 < m && off + m <= off0 + |src| && off % BSIZE + m <= BSIZE && BlockAt(fs, Place(n, off / BSIZE)) != 0
    ensures BlockAt(fs, Place(n, off / BSIZE)) < |fs.blocks|
    ensures var b := BlockAt(fs, Place(n, off / BSIZE));
      Written(fs0, fs.(blocks := fs.blocks[b := Spliced(fs.blocks[b], off % BSIZE, src[off - off0..off - off0 + m])]), n, off0, off + m, src)
  {
    var bn := off / BSIZE;
    var b := BlockAt(fs, Place(n, bn));
    var data := Spliced(fs.blocks[b], off % BSIZE, src[off - off0..off - off0 + m]);
    DataPlaces(fs, n, bn, data);
    var fs' := fs.(blocks := fs.blocks[b := data]);
    forall k: nat | k / BSIZE == bn ensures ByteAt(fs', n, k) == if off <= k < off + m then src[k - off0] else ByteAt(fs, n, k) {
    }
    hide ByteAt; hide BlockAt; hide Valid;
    assert forall k: nat :: off <= k < off + m ==> k / BSIZE == bn;
    forall k: nat | off0 <= k < off + m ensures ByteAt(fs', n, k) == src[k - off0] {
    }
    forall bm: nat | bm * BSIZE < off + m ensures BlockAt(fs', Place(n, bm)) != 0 {
      assert bm * BSIZE < off || bm == bn;
    }
  }
}
