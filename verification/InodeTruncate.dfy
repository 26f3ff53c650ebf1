/** What freeing the blocks of one inode does to the bitmap: the argument behind
    kernel/fs.c's itrunc. */
module InodeTruncate {
  import opened InodeModel

  /** A bfree in progress: the direct entry i of inode n is cleared. */
  function WithoutDirect(fs: FS, n: nat, i: nat): FS
    requires n < |fs.inodes| && i < |fs.inodes[n].addrs|
  {
    fs.(inodes := fs.inodes[n := fs.inodes[n].(addrs := fs.inodes[n].addrs[i := 0])])
  }

  function Unmarked(fs: FS, b: nat): FS
    requires b < |fs.used|
  {
    fs.(used := fs.used[b := false])
  }

  lemma DirectFreed(fs: FS, n: nat, i: nat)
    requires BitmapExact(fs, {}) && n < |fs.inodes| && i < NDIRECT && BlockAt(fs, Direct(n, i)) != 0
    ensures var b := BlockAt(fs, Direct(n, i)); b < |fs.used| && fs.used[b]
    ensures var fs' := WithoutDirect(Unmarked(fs, BlockAt(fs, Direct(n, i))), n, i);
      BitmapExact(fs', {}) && forall loc :: BlockAt(fs', loc) == if loc == Direct(n, i) then 0 else BlockAt(fs, loc)
  {
    var at := Direct(n, i);
    LiveIsUsed(fs, {}, at);
    FreedPlace(fs, {}, at);
    var mid := Unmarked(fs, BlockAt(fs, at));
    var fs' := WithoutDirect(mid, n, i);
    assert {} + {at} == {at};
    assert forall loc :: BlockAt(mid, loc) == BlockAt(fs, loc);
    assert forall loc :: BlockAt(fs', loc) == if loc == at then 0 else BlockAt(fs, loc);
    ClearedDead(mid, fs', {at});
  }

  /** The first j entries of n's indirect block. */
  function Vias(n: nat, j: nat): (s: set<Loc>) {
    set k: nat | k < j :: Via(n, k)
  }

  /** An empty place may be called dead. */
  lemma EmptyIsDead(fs: FS, dead: set<Loc>, at: Loc)
    requires BitmapExact(fs, dead) && BlockAt(fs, at) == 0
    ensures BitmapExact(fs, dead + {at})
  {
    forall c | 0 <= c < |fs.used| ensures fs.used[c] <==> c < fs.meta || Owned(fs, c, dead + {at}) {
      if c >= fs.meta && Owned(fs, c, dead) {
        var loc :| loc !in dead && BlockAt(fs, loc) == c;
        assert loc !in dead + {at};
      }
    }
  }

  /** One turn of the loop over the indirect block. */
  lemma ViaFreed(fs: FS, n: nat, j: nat)
    requires BitmapExact(fs, Vias(n, j))
    ensures var b := BlockAt(fs, Via(n, j));
      if b == 0 then BitmapExact(fs, Vias(n, j + 1))
      else b < |fs.used| && fs.used[b] && BitmapExact(Unmarked(fs, b), Vias(n, j + 1))
  {
    var at := Via(n, j);
    assert at !in Vias(n, j) && Vias(n, j + 1) == Vias(n, j) + {at};
    if BlockAt(fs, at) == 0 {
      EmptyIsDead(fs, Vias(n, j), at);
    } else {
      LiveIsUsed(fs, Vias(n, j), at);
      FreedPlace(fs, Vias(n, j), at);
    }
  }

  /** Freeing the indirect block itself and forgetting it. */
  lemma IndirectFreed(fs: FS, n: nat)
    requires BitmapExact(fs, Vias(n, NINDIRECT)) && n < |fs.inodes| && BlockAt(fs, Indirect(n)) != 0
    ensures var b := BlockAt(fs, Indirect(n)); b < |fs.used| && fs.used[b]
    ensures var fs' := WithoutDirect(Unmarked(fs, BlockAt(fs, Indirect(n))), n, NDIRECT);
      BitmapExact(fs', {}) && forall loc: Loc :: BlockAt(fs', loc) == if loc.n == n && !loc.Direct? then 0 else BlockAt(fs, loc)
  {
    var at := Indirect(n);
    var dead := Vias(n, NINDIRECT);
    LiveIsUsed(fs, dead, at);
    FreedPlace(fs, dead, at);
    var mid := Unmarked(fs, BlockAt(fs, at));
    var fs' := WithoutDirect(mid, n, NDIRECT);
    assert forall loc :: BlockAt(mid, loc) == BlockAt(fs, loc);
    forall loc: Loc ensures BlockAt(fs', loc) == if loc.n == n && !loc.Direct? then 0 else BlockAt(fs, loc) {
    }
    forall loc ensures BlockAt(fs', loc) == if loc in dead + {at} then 0 else BlockAt(mid, loc) {
      assert loc.Via? && loc.n == n && loc.j < NINDIRECT ==> loc in dead;
    }
    ClearedDead(mid, fs', dead + {at});
  }

  /** fs' is fs with every place of inode n emptied and its size 0. */
  ghost predicate Emptied(fs: FS, fs': FS, n: nat) {
    && fs'.meta == fs.meta && fs'.blocks == fs.blocks && n < |fs.inodes|
    && |fs'.inodes| == |fs.inodes| && fs'.inodes[n].size == 0
    && (forall m :: 0 <= m < |fs.inodes| && m != n ==> fs'.inodes[m] == fs.inodes[m])
    && (forall loc: Loc :: BlockAt(fs', loc) == if loc.n == n then 0 else BlockAt(fs, loc))
  }

  /** The bitmap lost exactly the blocks that n owned. */
  lemma FreesExactlyOwned(fs: FS, fs': FS, n: nat, b: nat)
    requires BitmapExact(fs, {}) && BitmapExact(fs', {}) && Emptied(fs, fs', n) && fs.meta <= b < |fs.used|
    ensures |fs'.used| == |fs.used| && (fs'.used[b] <==> fs.used[b] && !OwnedBy(fs, n, b))
  {
    if Owned(fs, b, {}) {
      var loc :| loc !in {} && BlockAt(fs, loc) == b;
      assert loc.n != n ==> BlockAt(fs', loc) == b && loc !in {};
    }
    if Owned(fs', b, {}) {
      var loc :| loc !in {} && BlockAt(fs', loc) == b;
      assert loc.n != n && BlockAt(fs, loc) == b && loc !in {};
    }
  }

  lemma EmptiedIsValid(fs: FS, fs': FS, n: nat)
    requires Valid(fs) && BitmapExact(fs', {}) && Emptied(fs, fs', n)
    ensures Valid(fs') && |fs'.used| == |fs.used| && Contents(fs', n) == [] && forall m: nat :: m < |fs.inodes| && m != n ==> Contents(fs', m) == Contents(fs, m)
  {
    forall m | 0 <= m < |fs'.inodes| ensures NoHoles(fs', m) {
      assert NoHoles(fs, m);
    }
    forall m: nat | m < |fs.inodes| && m != n ensures Contents(fs', m) == Contents(fs, m) {
      assert forall k: nat :: ByteAt(fs', m, k) == ByteAt(fs, m, k);
    }
  }

  /** Everything but the bitmap and inode n's addresses is the same. */
  ghost predicate SameBut(fs: FS, fs': FS, n: nat) {
    && fs'.meta == fs.meta && fs'.blocks == fs.blocks && |fs'.inodes| == |fs.inodes|
    && (forall m :: 0 <= m < |fs.inodes| && m != n ==> fs'.inodes[m] == fs.inodes[m])
  }

  lemma IndirectIs(fs: FS, n: nat)
    requires BitmapExact(fs, {}) && n < |fs.inodes|
    ensures |fs.inodes[n].addrs| == NDIRECT + 1 && fs.inodes[n].addrs[NDIRECT] == BlockAt(fs, Indirect(n)) < |fs.blocks|
    ensures BlockAt(fs, Indirect(n)) == 0 ==> forall loc: Loc :: loc.n == n && !loc.Direct? ==> BlockAt(fs, loc) == 0
  {
    assert BlockAt(fs, Indirect(n)) == fs.inodes[n].addrs[NDIRECT];
  }

  lemma OnlyUsed(fs: FS, fs': FS)
    requires fs' == fs.(used := fs'.used)
    ensures forall loc :: BlockAt(fs', loc) == BlockAt(fs, loc)
  {
  }

  lemma SizeIsNoPlace(fs: FS, n: nat)
    requires BitmapExact(fs, {}) && n < |fs.inodes|
    ensures var fs' := fs.(inodes := fs.inodes[n := fs.inodes[n].(size := 0)]);
      BitmapExact(fs', {}) && forall loc :: BlockAt(fs', loc) == BlockAt(fs, loc)
  {
    var fs' := fs.(inodes := fs.inodes[n := fs.inodes[n].(size := 0)]);
    assert forall loc :: BlockAt(fs', loc) == BlockAt(fs, loc);
    forall c | 0 <= c < |fs.used| ensures Owned(fs', c, {}) <==> Owned(fs, c, {}) {
    }
  }
}
