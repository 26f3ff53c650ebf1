/** The on-disk objects behind kernel/fs.c, as values: a free bitmap, disk blocks
    of bytes, and inodes with 12 direct addresses and one indirect block. */
module InodeModel {
  const BSIZE: nat := 1024
  const NDIRECT: nat := 12
  const NINDIRECT: nat := 256
  const MAXFILE: nat := NDIRECT + NINDIRECT

  type Byte = b: int | 0 <= b < 256
  type Block = s: seq<Byte> | |s| == BSIZE witness seq(BSIZE, _ => 0)

  function ZeroBlock(): (b: Block)
    ensures forall i :: 0 <= i < BSIZE ==> b[i] == 0
  {
    seq(BSIZE, _ => 0)
  }

  /** addrs[0..12] are direct block numbers, addrs[12] the indirect block; 0 is "none". */
  datatype Inode = Inode(size: nat, addrs: seq<nat>)

  /** `meta` blocks at the front hold everything that is not file data. */
  datatype FS = FS(meta: nat, used: seq<bool>, blocks: seq<Block>, inodes: seq<Inode>)

  function Value(b: Byte): nat {
    b
  }

  /** The i-th 32-bit number of a block, little-endian. */
  function GetWord(b: Block, i: nat): nat
    requires i < NINDIRECT
  {
    Value(b[4 * i]) + 256 * Value(b[4 * i + 1]) + 65536 * Value(b[4 * i + 2]) + 16777216 * Value(b[4 * i + 3])
  }

  lemma WordBytes(w: nat)
    requires w < 0x1_0000_0000
    ensures w == w % 256 + 256 * (w / 256 % 256) + 65536 * (w / 65536 % 256) + 16777216 * (w / 16777216)
    ensures w / 16777216 < 256
  {
    assert w / 65536 == w / 256 / 256 && w / 16777216 == w / 256 / 256 / 256;
  }

  function PutWord(b: Block, i: nat, w: nat): (r: Block)
    requires i < NINDIRECT && w < 0x1_0000_0000
    ensures GetWord(r, i) == w
    ensures forall j: nat :: j < NINDIRECT && j != i ==> GetWord(r, j) == GetWord(b, j)
  {
    WordBytes(w);
    b[4 * i := w % 256][4 * i + 1 := w / 256 % 256][4 * i + 2 := w / 65536 % 256][4 * i + 3 := w / 16777216]
  }

  lemma ZeroWords(j: nat)
    requires j < NINDIRECT
    ensures GetWord(ZeroBlock(), j) == 0
  {
  }

  /** Every place that can own a disk block. */
  datatype Loc = Direct(n: nat, i: nat) | Indirect(n: nat) | Via(n: nat, j: nat)

  function BlockAt(fs: FS, loc: Loc): nat {
    if loc.n >= |fs.inodes| || |fs.inodes[loc.n].addrs| != NDIRECT + 1 then 0
    else
      var addrs := fs.inodes[loc.n].addrs;
      match loc
      case Direct(_, i) => if i < NDIRECT then addrs[i] else 0
      case Indirect(_) => addrs[NDIRECT]
      case Via(_, j) =>
        if j < NINDIRECT && addrs[NDIRECT] != 0 && addrs[NDIRECT] < |fs.blocks|
        then GetWord(fs.blocks[addrs[NDIRECT]], j) else 0
  }

  /** Where the bn-th block of file n is recorded. */
  function Place(n: nat, bn: nat): Loc {
    if bn < NDIRECT then Direct(n, bn) else Via(n, bn - NDIRECT)
  }

  ghost predicate Owned(fs: FS, b: nat, dead: set<Loc>) {
    exists loc :: loc !in dead && BlockAt(fs, loc) == b
  }

  /** The bitmap marks exactly the metadata and the blocks that files own, each
      owned once.  Places in `dead` still name a block but no longer own it. */
  ghost predicate BitmapExact(fs: FS, dead: set<Loc>) {
    && |fs.used| == |fs.blocks| < 0x1_0000_0000 && 1 <= fs.meta <= |fs.blocks|
    && (forall n :: 0 <= n < |fs.inodes| ==> |fs.inodes[n].addrs| == NDIRECT + 1)
    && (forall loc :: BlockAt(fs, loc) != 0 ==> fs.meta <= BlockAt(fs, loc) < |fs.blocks|)
    && (forall a, b :: BlockAt(fs, a) != 0 && BlockAt(fs, a) == BlockAt(fs, b) ==> a == b)
    && (forall b :: 0 <= b < |fs.used| ==> (fs.used[b] <==> b < fs.meta || Owned(fs, b, dead)))
  }

  /** No file has a hole below its size. */
  ghost predicate NoHoles(fs: FS, n: nat)
    requires n < |fs.inodes|
  {
    && fs.inodes[n].size <= MAXFILE * BSIZE
    && forall bn: nat :: bn * BSIZE < fs.inodes[n].size ==> BlockAt(fs, Place(n, bn)) != 0
  }

  ghost predicate Valid(fs: FS) {
    BitmapExact(fs, {}) && forall n :: 0 <= n < |fs.inodes| ==> NoHoles(fs, n)
  }

  /** Byte k of file n. */
  function ByteAt(fs: FS, n: nat, k: nat): Byte {
    var b := BlockAt(fs, Place(n, k / BSIZE));
    if b < |fs.blocks| then fs.blocks[b][k % BSIZE] else 0
  }

  /** The file as the plain byte sequence it stands for. */
  function Contents(fs: FS, n: nat): (s: seq<Byte>)
    requires n < |fs.inodes|
    ensures |s| == fs.inodes[n].size
    ensures forall k: nat :: k < |s| ==> s[k] == ByteAt(fs, n, k)
  {
    seq(fs.inodes[n].size, k requires 0 <= k < fs.inodes[n].size => ByteAt(fs, n, k))
  }

  // ------------------------------------------------------------ allocation

  /** Writing b, a block not in use, at one empty place. */
  lemma Claimed(fs: FS, fs': FS, at: Loc, b: nat)
    requires BitmapExact(fs, {}) && fs.meta <= b < |fs.used| && !fs.used[b] && BlockAt(fs, at) == 0
    requires fs'.meta == fs.meta && fs'.used == fs.used[b := true] && |fs'.blocks| == |fs.blocks|
    requires forall n :: 0 <= n < |fs'.inodes| ==> |fs'.inodes[n].addrs| == NDIRECT + 1
    requires forall loc :: BlockAt(fs', loc) == if loc == at then b else BlockAt(fs, loc)
    ensures BitmapExact(fs', {})
  {
    assert !Owned(fs, b, {});
    forall loc ensures BlockAt(fs, loc) != b {
      assert loc !in {};
    }
    forall c | 0 <= c < |fs'.used| ensures fs'.used[c] <==> c < fs'.meta || Owned(fs', c, {}) {
      if Owned(fs, c, {}) {
        var loc :| loc !in {} && BlockAt(fs, loc) == c;
        assert c != 0 ==> BlockAt(fs', loc) == c;
      }
      if Owned(fs', c, {}) {
        var loc :| loc !in {} && BlockAt(fs', loc) == c;
        assert loc == at || BlockAt(fs, loc) == c;
      }
      assert BlockAt(fs', at) == b && at !in {};
    }
  }

  lemma UnusedIsNobodys(fs: FS, b: nat, loc: Loc)
    requires BitmapExact(fs, {}) && b < |fs.used| && !fs.used[b]
    ensures BlockAt(fs, loc) != b || b == 0
  {
    assert loc !in {};
    assert BlockAt(fs, loc) == b ==> Owned(fs, b, {});
  }

  /** Every byte that has a block shows the same in both. */
  ghost predicate SameBytes(fs: FS, fs': FS) {
    forall n: nat, k: nat :: BlockAt(fs, Place(n, k / BSIZE)) != 0 ==> ByteAt(fs', n, k) == ByteAt(fs, n, k)
  }

  /** Claiming a block changes no file's size or contents. */
  lemma ClaimedKeeps(fs: FS, fs': FS, at: Loc, b: nat)
    requires Valid(fs) && fs.meta <= b < |fs.used| && !fs.used[b] && BlockAt(fs, at) == 0
    requires fs'.meta == fs.meta && fs'.used == fs.used[b := true] && |fs'.blocks| == |fs.blocks| && |fs'.inodes| == |fs.inodes|
    requires forall n :: 0 <= n < |fs'.inodes| ==> |fs'.inodes[n].addrs| == NDIRECT + 1 && fs'.inodes[n].size == fs.inodes[n].size
    requires forall loc :: BlockAt(fs', loc) == if loc == at then b else BlockAt(fs, loc)
    requires forall c: nat :: c < |fs.blocks| && c != b && (forall m: nat :: BlockAt(fs, Indirect(m)) != c) ==> fs'.blocks[c] == fs.blocks[c]
    ensures Valid(fs') && SameBytes(fs, fs')
  {
    Claimed(fs, fs', at, b);
    forall n: nat, k: nat | BlockAt(fs, Place(n, k / BSIZE)) != 0 ensures ByteAt(fs', n, k) == ByteAt(fs, n, k) {
      var c := BlockAt(fs, Place(n, k / BSIZE));
      forall m: nat ensures BlockAt(fs, Indirect(m)) != c {
      }
      UnusedIsNobodys(fs, b, Place(n, k / BSIZE));
    }
    forall n: nat | n < |fs.inodes| ensures NoHoles(fs', n) {
      assert NoHoles(fs, n);
    }
  }

  function WithDirect(fs: FS, n: nat, i: nat, b: nat): FS
    requires n < |fs.inodes| && i < |fs.inodes[n].addrs|
  {
    fs.(inodes := fs.inodes[n := fs.inodes[n].(addrs := fs.inodes[n].addrs[i := b])])
  }

  function WithWord(blocks: seq<Block>, ind: nat, j: nat, w: nat): seq<Block>
    requires ind < |blocks| && j < NINDIRECT && w < 0x1_0000_0000
  {
    blocks[ind := PutWord(blocks[ind], j, w)]
  }

  function WithVia(fs: FS, n: nat, j: nat, b: nat): FS
    requires n < |fs.inodes| && |fs.inodes[n].addrs| == NDIRECT + 1 && j < NINDIRECT && b < 0x1_0000_0000
    requires fs.inodes[n].addrs[NDIRECT] < |fs.blocks|
  {
    FS(fs.meta, fs.used, WithWord(fs.blocks, fs.inodes[n].addrs[NDIRECT], j, b), fs.inodes)
  }

  /** balloc's effect: b is marked and zeroed. */
  function Marked(fs: FS, b: nat): FS
    requires b < |fs.used| && b < |fs.blocks|
  {
    FS(fs.meta, fs.used[b := true], fs.blocks[b := ZeroBlock()], fs.inodes)
  }

  /** Marking an unused block alters no place. */
  lemma MarkedPlaces(fs: FS, b: nat, loc: Loc)
    requires BitmapExact(fs, {}) && fs.meta <= b < |fs.used| && !fs.used[b]
    ensures BlockAt(Marked(fs, b), loc) == BlockAt(fs, loc)
  {
    UnusedIsNobodys(fs, b, Indirect(loc.n));
  }

  lemma DirectKeeps(fs: FS, n: nat, i: nat, b: nat)
    requires Valid(fs) && n < |fs.inodes| && i <= NDIRECT && fs.meta <= b < |fs.used| && !fs.used[b]
    requires fs.inodes[n].addrs[i] == 0
    ensures var fs' := WithDirect(Marked(fs, b), n, i, b);
      && Valid(fs') && SameBytes(fs, fs')
      && (forall loc :: BlockAt(fs', loc) == if loc == (if i < NDIRECT then Direct(n, i) else Indirect(n)) then b else BlockAt(fs, loc))
  {
    var fs' := WithDirect(Marked(fs, b), n, i, b);
    var at := if i < NDIRECT then Direct(n, i) else Indirect(n);
    forall loc ensures BlockAt(fs', loc) == if loc == at then b else BlockAt(fs, loc) {
      MarkedPlaces(fs, b, loc);
      if loc.Via? && loc.n == n && loc.j < NINDIRECT {
        ZeroWords(loc.j);
      }
    }
    ClaimedKeeps(fs, fs', at, b);
  }

  lemma ViaKeeps(fs: FS, n: nat, j: nat, b: nat)
    requires Valid(fs) && n < |fs.inodes| && j < NINDIRECT && fs.meta <= b < |fs.used| && !fs.used[b]
    requires fs.inodes[n].addrs[NDIRECT] != 0 && BlockAt(fs, Via(n, j)) == 0
    ensures fs.inodes[n].addrs[NDIRECT] < |fs.blocks|
    ensures var fs' := WithVia(Marked(fs, b), n, j, b);
      && Valid(fs') && SameBytes(fs, fs')
      && (forall loc :: BlockAt(fs', loc) == if loc == Via(n, j) then b else BlockAt(fs, loc))
  {
    var ind := BlockAt(fs, Indirect(n));
    var fs' := WithVia(Marked(fs, b), n, j, b);
    forall loc ensures BlockAt(fs', loc) == if loc == Via(n, j) then b else BlockAt(fs, loc) {
      MarkedPlaces(fs, b, loc);
      if loc.Via? && loc.n != n {
        assert BlockAt(fs, Indirect(loc.n)) != 0 ==> BlockAt(fs, Indirect(loc.n)) != ind;
      }
    }
    ClaimedKeeps(fs, fs', Via(n, j), b);
  }

  // ------------------------------------------------------------ data writes

  /** Overwriting a data block of file n changes nothing else. */
  lemma DataPlaces(fs: FS, n: nat, bn: nat, data: Block)
    requires Valid(fs) && n < |fs.inodes| && BlockAt(fs, Place(n, bn)) != 0
    ensures var b := BlockAt(fs, Place(n, bn)); b < |fs.blocks|
    ensures var fs' := fs.(blocks := fs.blocks[BlockAt(fs, Place(n, bn)) := data]);
      && Valid(fs') && (forall loc :: BlockAt(fs', loc) == BlockAt(fs, loc))
      && (forall m: nat, k: nat :: ByteAt(fs', m, k) == if m == n && k / BSIZE == bn then data[k % BSIZE] else ByteAt(fs, m, k))
  {
    var b := BlockAt(fs, Place(n, bn));
    var fs' := fs.(blocks := fs.blocks[b := data]);
    forall loc ensures BlockAt(fs', loc) == BlockAt(fs, loc) {
      assert BlockAt(fs, Indirect(loc.n)) != b;
    }
    forall c | 0 <= c < |fs.used| ensures Owned(fs', c, {}) <==> Owned(fs, c, {}) {
    }
    forall m | 0 <= m < |fs.inodes| ensures NoHoles(fs', m) {
      assert NoHoles(fs, m);
    }
  }

  /** Same bytes, same size: same file. */
  lemma SameContents(fs: FS, fs': FS, n: nat)
    requires Valid(fs) && SameBytes(fs, fs') && n < |fs.inodes| == |fs'.inodes| && fs'.inodes[n].size == fs.inodes[n].size
    ensures Contents(fs', n) == Contents(fs, n)
  {
    assert NoHoles(fs, n);
    forall k: nat | k < fs.inodes[n].size ensures ByteAt(fs', n, k) == ByteAt(fs, n, k) {
      assert k / BSIZE * BSIZE <= k;
    }
  }

  // ------------------------------------------------------------ truncation

  ghost predicate OwnedBy(fs: FS, n: nat, b: nat) {
    exists loc: Loc :: loc.n == n && BlockAt(fs, loc) == b
  }

  /** A live place's block is in use, so bfree does not panic on it. */
  lemma LiveIsUsed(fs: FS, dead: set<Loc>, loc: Loc)
    requires BitmapExact(fs, dead) && loc !in dead && BlockAt(fs, loc) != 0
    ensures BlockAt(fs, loc) < |fs.used| && fs.used[BlockAt(fs, loc)]
  {
    assert Owned(fs, BlockAt(fs, loc), dead);
  }

  /** Freeing the block of one place, which then counts as dead. */
  lemma FreedPlace(fs: FS, dead: set<Loc>, at: Loc)
    requires BitmapExact(fs, dead) && at !in dead && BlockAt(fs, at) != 0
    ensures BlockAt(fs, at) < |fs.used|
    ensures BitmapExact(fs.(used := fs.used[BlockAt(fs, at) := false]), dead + {at})
  {
    LiveIsUsed(fs, dead, at);
    var b := BlockAt(fs, at);
    var fs' := fs.(used := fs.used[b := false]);
    assert forall loc :: BlockAt(fs', loc) == BlockAt(fs, loc);
    forall c | 0 <= c < |fs.used| ensures fs'.used[c] <==> c < fs.meta || Owned(fs', c, dead + {at}) {
      if Owned(fs, c, dead) {
        var loc :| loc !in dead && BlockAt(fs, loc) == c;
        if c != b {
          assert loc !in dead + {at} && BlockAt(fs', loc) == c;
        }
      }
      if Owned(fs', c, dead + {at}) {
        var loc :| loc !in dead + {at} && BlockAt(fs', loc) == c;
        assert BlockAt(fs, loc) == c;
      }
    }
  }

  /** Clearing places that are dead anyway brings the bitmap back to exact. */
  lemma ClearedDead(fs: FS, fs': FS, dead: set<Loc>)
    requires BitmapExact(fs, dead) && fs'.used == fs.used && fs'.meta == fs.meta && |fs'.blocks| == |fs.blocks|
    requires forall n :: 0 <= n < |fs'.inodes| ==> |fs'.inodes[n].addrs| == NDIRECT + 1
    requires forall loc :: BlockAt(fs', loc) == if loc in dead then 0 else BlockAt(fs, loc)
    ensures BitmapExact(fs', {})
  {
    forall c | 0 <= c < |fs.used| ensures fs'.used[c] <==> c < fs.meta || Owned(fs', c, {}) {
      if Owned(fs, c, dead) {
        var loc :| loc !in dead && BlockAt(fs, loc) == c;
        assert loc !in {} && BlockAt(fs', loc) == c;
      }
      if Owned(fs', c, {}) && c != 0 {
        var loc :| loc !in {} && BlockAt(fs', loc) == c;
        assert loc !in dead && BlockAt(fs, loc) == c;
      }
    }
  }
}
