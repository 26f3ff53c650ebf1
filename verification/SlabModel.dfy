/** kernel/slab.c as values: slabs with a 64-bit free map, and a cache of three lists. */
module SlabModel {
  import opened Params

  const BITS: nat := 64

  predicate IsObjSize(n: nat) {
    n == 64 || n == 128 || n == 256 || n == 512 || n == 1024 || n == 2048
  }

  /** kmalloc's choice of cache: the smallest object size that fits, 0 for none. */
  function AssistSize(size: nat): (r: nat)
    ensures r == 0 <==> size > 2048
    ensures r != 0 ==> IsObjSize(r) && size <= r && forall n :: IsObjSize(n) && size <= n ==> r <= n
  {
    if size <= 64 then 64
    else if size <= 128 then 128
    else if size <= 256 then 256
    else if size <= 512 then 512
    else if size <= 1024 then 1024
    else if size <= 2048 then 2048
    else 0
  }

  /** Objects in one slab: min(64, 4096 / size). */
  function Capacity(objSize: nat): (n: nat)
    requires IsObjSize(objSize)
    ensures 2 <= n <= BITS && n * objSize <= PGSIZE && (n == BITS || (n + 1) * objSize > PGSIZE)
  {
    if PGSIZE / objSize < BITS then PGSIZE / objSize else BITS
  }

  /** `header` is the page of the slab structure, `mem` that of the objects; freemap[i]
      is bit i of the free map. */
  datatype Slab = Slab(header: nat, mem: nat, capacity: nat, nrFree: nat, freemap: seq<bool>)

  /** Set bits among the first n. */
  function Count(m: seq<bool>, n: nat): (c: nat)
    requires n <= |m|
    ensures c <= n
  {
    if n == 0 then 0 else Count(m, n - 1) + if m[n - 1] then 1 else 0
  }

  lemma {:induction false} CountFlip(m: seq<bool>, n: nat, i: nat, b: bool)
    requires i < |m| && n <= |m| && m[i] != b
    ensures Count(m[i := b], n) == Count(m, n) + if i >= n then 0 else if b then 1 else -1
  {
    if n > 0 { CountFlip(m, n - 1, i, b); }
  }

  lemma {:induction false} CountZero(m: seq<bool>, n: nat)
    requires n <= |m|
    ensures Count(m, n) == 0 <==> forall i :: 0 <= i < n ==> !m[i]
  {
    if n > 0 { CountZero(m, n - 1); }
  }

  /** Clear bits above k do not count. */
  lemma {:induction false} CountBelow(m: seq<bool>, k: nat, n: nat)
    requires k <= n <= |m| && forall i :: k <= i < n ==> !m[i]
    ensures Count(m, n) == Count(m, k)
  {
    if n > k { CountBelow(m, k, n - 1); }
  }

  lemma {:induction false} CountAll(m: seq<bool>, n: nat)
    requires n <= |m|
    ensures Count(m, n) == n <==> forall i :: 0 <= i < n ==> m[i]
  {
    if n > 0 { CountAll(m, n - 1); }
  }

  /** nr_free is the number of set bits, all of them below the capacity. */
  ghost predicate SlabOk(s: Slab, objSize: nat) {
    && IsObjSize(objSize) && s.capacity == Capacity(objSize) && |s.freemap| == BITS
    && (forall i :: s.capacity <= i < BITS ==> !s.freemap[i]) && s.nrFree == Count(s.freemap, BITS)
    && s.header % PGSIZE == 0 && s.mem % PGSIZE == 0 && s.header != 0 && s.mem != 0 && s.header != s.mem
  }

  lemma AllFree(s: Slab, objSize: nat)
    requires SlabOk(s, objSize)
    ensures s.nrFree == s.capacity <==> forall i :: 0 <= i < s.capacity ==> s.freemap[i]
    ensures s.nrFree == 0 <==> forall i :: 0 <= i < s.capacity ==> !s.freemap[i]
    ensures s.nrFree <= s.capacity
  {
    CountBelow(s.freemap, s.capacity, BITS);
    CountAll(s.freemap, s.capacity);
    CountZero(s.freemap, s.capacity);
  }

  // ------------------------------------------------------------ one slab

  /** The object at address a is number i of slab s, and handed out. */
  predicate LiveAt(s: Slab, objSize: nat, i: nat, a: nat) {
    i < s.capacity && i < |s.freemap| && !s.freemap[i] && a == s.mem + i * objSize
  }

  function Fresh(header: nat, mem: nat, objSize: nat): Slab
    requires IsObjSize(objSize)
  {
    Slab(header, mem, Capacity(objSize), Capacity(objSize), seq(BITS, i => i < Capacity(objSize)))
  }

  lemma FreshOk(header: nat, mem: nat, objSize: nat)
    requires IsObjSize(objSize) && header % PGSIZE == 0 && mem % PGSIZE == 0 && header != 0 && mem != 0 && header != mem
    ensures SlabOk(Fresh(header, mem, objSize), objSize) && Fresh(header, mem, objSize).nrFree == Capacity(objSize)
  {
    var s := Fresh(header, mem, objSize);
    CountBelow(s.freemap, s.capacity, BITS);
    CountAll(s.freemap, s.capacity);
  }

  /** s with object i handed out (or, with b, taken back). */
  function WithBit(s: Slab, i: nat, b: bool): Slab
    requires i < |s.freemap| && (b || s.nrFree > 0)
  {
    s.(freemap := s.freemap[i := b], nrFree := if b then s.nrFree + 1 else s.nrFree - 1)
  }

  lemma WithBitOk(s: Slab, objSize: nat, i: nat, b: bool)
    requires SlabOk(s, objSize) && i < s.capacity && s.freemap[i] != b
    ensures (b || s.nrFree > 0) && SlabOk(WithBit(s, i, b), objSize)
    ensures forall j: nat, a: nat :: LiveAt(WithBit(s, i, b), objSize, j, a) <==> if j == i then !b && a == s.mem + i * objSize else LiveAt(s, objSize, j, a)
  {
    CountFlip(s.freemap, BITS, i, b);
    CountZero(s.freemap, BITS);
  }

  // ------------------------------------------------------------ the three lists

  datatype Cache = Cache(objSize: nat, partial: seq<Slab>, full: seq<Slab>, empty: seq<Slab>)

  predicate Member(c: Cache, s: Slab) {
    s in c.partial || s in c.full || s in c.empty
  }

  /** No page serves two purposes. */
  predicate Apart(s: Slab, t: Slab) {
    s.header != t.header && s.mem != t.mem && s.header != t.mem && s.mem != t.header
  }

  ghost predicate NoRepeat(l: seq<Slab>) {
    forall i, j :: 0 <= i < j < |l| ==> l[i] != l[j]
  }

  ghost predicate CacheOk(c: Cache) {
    && IsObjSize(c.objSize)
    && (forall s :: Member(c, s) ==> SlabOk(s, c.objSize))
    && (forall s, t :: Member(c, s) && Member(c, t) && s != t ==> Apart(s, t))
    && (forall s :: s in c.partial ==> 0 < s.nrFree < s.capacity)
    && (forall s :: s in c.full ==> s.nrFree == 0)
    && (forall s :: s in c.empty ==> s.nrFree == s.capacity)
    && NoRepeat(c.partial) && NoRepeat(c.full) && NoRepeat(c.empty)
  }

  ghost predicate Live(c: Cache, a: nat) {
    exists s, i: nat :: Member(c, s) && LiveAt(s, c.objSize, i, a)
  }

  /** Live objects lie in pages of the cache and do not overlap. */
  lemma LiveDisjoint(c: Cache, a: nat, b: nat)
    requires CacheOk(c) && Live(c, a) && Live(c, b) && a != b
    ensures a + c.objSize <= b || b + c.objSize <= a
  {
    var s, i: nat :| Member(c, s) && LiveAt(s, c.objSize, i, a);
    var t, j: nat :| Member(c, t) && LiveAt(t, c.objSize, j, b);
    if s == t {
      Multiples(i, j, c.objSize);
    } else {
      OtherSlab(c, s, t, i, j);
    }
  }

  lemma PagesApart(m: nat, m': nat, x: nat, y: nat, n: nat)
    requires m % PGSIZE == 0 && m' % PGSIZE == 0 && m != m' && x + n <= PGSIZE && y + n <= PGSIZE
    ensures m + x + n <= m' + y || m' + y + n <= m + x
  {
    assert m + PGSIZE <= m' || m' + PGSIZE <= m;
  }

  lemma Within(s: Slab, objSize: nat, i: nat)
    requires SlabOk(s, objSize) && i < s.capacity
    ensures i * objSize + objSize <= PGSIZE
  {
    assert (i + 1) * objSize <= s.capacity * objSize;
  }

  lemma Multiples(i: nat, j: nat, n: nat)
    ensures i < j ==> i * n + n <= j * n
    ensures j < i ==> j * n + n <= i * n
  {
    if i < j { assert (i + 1) * n <= j * n; }
    if j < i { assert (j + 1) * n <= i * n; }
  }

  /** c' has the members of c with s replaced by s'. */
  ghost predicate Swapped(c: Cache, c': Cache, s: Slab, s': Slab) {
    && c'.objSize == c.objSize && Member(c, s) && s'.header == s.header && s'.mem == s.mem && s'.capacity == s.capacity
    && forall x :: Member(c', x) <==> (Member(c, x) && x != s) || x == s'
  }

  /** Giving out object i of s adds exactly its address to the live ones; taking it back
      removes it. */
  lemma SwappedLive(c: Cache, c': Cache, s: Slab, i: nat, b: bool, a: nat)
    requires CacheOk(c) && Member(c, s) && i < s.capacity && |s.freemap| == BITS && s.freemap[i] != b && (b || s.nrFree > 0)
    requires Swapped(c, c', s, WithBit(s, i, b))
    ensures Live(c', a) <==> if a == s.mem + i * c.objSize then !b else Live(c, a)
  {
    var s' := WithBit(s, i, b);
    var obj := s.mem + i * c.objSize;
    WithBitOk(s, c.objSize, i, b);
    assert !b ==> LiveAt(s', c.objSize, i, obj);
    if Live(c, a) && a != obj {
      var t, j: nat :| Member(c, t) && LiveAt(t, c.objSize, j, a);
      assert Member(c', if t == s then s' else t) && LiveAt(if t == s then s' else t, c.objSize, j, a);
    }
    if Live(c', a) {
      var t, j: nat :| Member(c', t) && LiveAt(t, c.objSize, j, a);
      if t == s' {
        assert j != i ==> LiveAt(s, c.objSize, j, a);
        assert j != i ==> a != obj by { Multiples(i, j, c.objSize); }
      } else {
        OtherSlab(c, s, t, i, j);
      }
    }
  }

  lemma OtherSlab(c: Cache, s: Slab, t: Slab, i: nat, j: nat)
    requires CacheOk(c) && Member(c, s) && Member(c, t) && s != t && i < s.capacity && j < t.capacity
    ensures var a := s.mem + i * c.objSize; var b := t.mem + j * c.objSize; c.objSize > 0 && (a + c.objSize <= b || b + c.objSize <= a)
  {
    Within(s, c.objSize, i);
    Within(t, c.objSize, j);
    assert Apart(s, t);
    PagesApart(s.mem, t.mem, i * c.objSize, j * c.objSize, c.objSize);
  }

  lemma SwappedOk(c: Cache, c': Cache, s: Slab, s': Slab)
    requires CacheOk(c) && Swapped(c, c', s, s') && SlabOk(s', c.objSize)
    ensures forall x :: Member(c', x) ==> SlabOk(x, c.objSize)
    ensures forall x, y :: Member(c', x) && Member(c', y) && x != y ==> Apart(x, y)
  {
  }
}
