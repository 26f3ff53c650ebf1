/** kernel/slab.c: slab_alloc, slab_free, kmem_cache_alloc and kmem_cache_free. */
module SlabCache {
  import opened Params
  import opened SlabModel

  // ------------------------------------------------------------ moving a slab

  datatype Kind = Partial | Full | Empty

  /** The list a slab belongs on. */
  function KindOf(s: Slab): Kind {
    if s.nrFree == 0 then Full else if s.nrFree == s.capacity then Empty else Partial
  }

  function ListOf(c: Cache, k: Kind): seq<Slab> {
    match k
    case Partial => c.partial
    case Full => c.full
    case Empty => c.empty
  }

  function WithList(c: Cache, k: Kind, l: seq<Slab>): Cache {
    match k
    case Partial => c.(partial := l)
    case Full => c.(full := l)
    case Empty => c.(empty := l)
  }

  function Without(l: seq<Slab>, i: nat): seq<Slab>
    requires i < |l|
  {
    l[..i] + l[i + 1..]
  }

  /** Slab i of list k becomes s': it stays in place, or goes to the front of the list
      it now belongs on. */
  function Moved(c: Cache, k: Kind, i: nat, s': Slab): Cache
    requires i < |ListOf(c, k)|
  {
    if KindOf(s') == k then WithList(c, k, ListOf(c, k)[i := s'])
    else
      var c' := WithList(c, k, Without(ListOf(c, k), i));
      WithList(c', KindOf(s'), [s'] + ListOf(c', KindOf(s')))
  }

  lemma WithoutIs(l: seq<Slab>, i: nat)
    requires NoRepeat(l) && i < |l|
    ensures NoRepeat(Without(l, i)) && forall x :: x in Without(l, i) <==> x in l && x != l[i]
  {
    var m := Without(l, i);
    forall x | x in l && x != l[i] ensures x in m {
      var j :| 0 <= j < |l| && l[j] == x;
      assert m[if j < i then j else j - 1] == x;
    }
  }

  lemma FrontIs(l: seq<Slab>, s: Slab)
    requires NoRepeat(l) && s !in l
    ensures NoRepeat([s] + l) && forall x :: x in [s] + l <==> x in l || x == s
  {
  }

  lemma SetIs(l: seq<Slab>, i: nat, s: Slab)
    requires NoRepeat(l) && i < |l| && s !in l
    ensures NoRepeat(l[i := s]) && forall x :: x in l[i := s] <==> (x in l && x != l[i]) || x == s
  {
    var m := l[i := s];
    assert m[i] == s;
    forall x | x in l && x != l[i] ensures x in m {
      var j :| 0 <= j < |l| && l[j] == x;
      assert m[j] == x;
    }
  }

  /** Each list holds exactly the slabs of its kind. */
  lemma KindsOk(c: Cache, s: Slab, k: Kind)
    requires CacheOk(c)
    ensures s in ListOf(c, k) <==> Member(c, s) && KindOf(s) == k
    ensures NoRepeat(ListOf(c, k))
  {
  }

  /** Two versions of one slab are not both in the cache. */
  lemma NewVersion(c: Cache, s: Slab, s': Slab)
    requires CacheOk(c) && Member(c, s) && s'.header == s.header && s' != s
    ensures !Member(c, s')
  {
    assert Member(c, s') ==> Apart(s, s');
  }

  lemma MovedSwapped(c: Cache, k: Kind, i: nat, s': Slab)
    requires CacheOk(c) && i < |ListOf(c, k)|
    requires var s := ListOf(c, k)[i]; s'.header == s.header && s'.mem == s.mem && s'.capacity == s.capacity && s' != s
    ensures Swapped(c, Moved(c, k, i, s'), ListOf(c, k)[i], s')
    ensures forall k' :: NoRepeat(ListOf(Moved(c, k, i, s'), k'))
    ensures forall k', x :: x in ListOf(Moved(c, k, i, s'), k') ==> (x == s' && k' == KindOf(s')) || x in ListOf(c, k')
  {
    var l := ListOf(c, k);
    var s := l[i];
    KindsOk(c, s, k);
    NewVersion(c, s, s');
    assert forall k' :: s' !in ListOf(c, k') && NoRepeat(ListOf(c, k'));
    assert forall k' :: k' != k ==> s !in ListOf(c, k') by {
      forall k' | k' != k ensures s !in ListOf(c, k') { KindsOk(c, s, k'); }
    }
    if KindOf(s') == k {
      SetIs(l, i, s');
    } else {
      WithoutIs(l, i);
      FrontIs(ListOf(c, KindOf(s')), s');
    }
  }

  lemma MovedOk(c: Cache, k: Kind, i: nat, s': Slab)
    requires CacheOk(c) && i < |ListOf(c, k)| && SlabOk(s', c.objSize)
    requires var s := ListOf(c, k)[i]; s'.header == s.header && s'.mem == s.mem && s'.capacity == s.capacity && s' != s
    ensures CacheOk(Moved(c, k, i, s')) && Swapped(c, Moved(c, k, i, s'), ListOf(c, k)[i], s')
  {
    MovedSwapped(c, k, i, s');
    var c' := Moved(c, k, i, s');
    SwappedOk(c, c', ListOf(c, k)[i], s');
    AllFree(s', c.objSize);
    assert ListOf(c', Partial) == c'.partial && ListOf(c', Full) == c'.full && ListOf(c', Empty) == c'.empty;
  }

  // ------------------------------------------------------------ pages

  ghost predicate PageOf(c: Cache, x: nat) {
    exists s :: Member(c, s) && (x == s.header || x == s.mem)
  }

  lemma SwappedPages(c: Cache, c': Cache, s: Slab, s': Slab, x: nat)
    requires Swapped(c, c', s, s')
    ensures PageOf(c', x) <==> PageOf(c, x)
  {
    if PageOf(c, x) {
      var t :| Member(c, t) && (x == t.header || x == t.mem);
      assert Member(c', if t == s then s' else t);
    }
    if PageOf(c', x) {
      var t :| Member(c', t) && (x == t.header || x == t.mem);
      assert Member(c, if t == s' then s else t);
    }
  }

  /** A new slab with no object handed out. */
  lemma AddedOk(c: Cache, header: nat, mem: nat)
    requires CacheOk(c) && c.empty == [] && header % PGSIZE == 0 && mem % PGSIZE == 0 && header != 0 && mem != 0 && header != mem
    requires !PageOf(c, header) && !PageOf(c, mem)
    ensures var c' := c.(empty := [Fresh(header, mem, c.objSize)]);
      && CacheOk(c') && (forall a :: Live(c', a) <==> Live(c, a)) && (forall x :: PageOf(c', x) <==> PageOf(c, x) || x == header || x == mem)
  {
    var f := Fresh(header, mem, c.objSize);
    var c' := c.(empty := [f]);
    FreshOk(header, mem, c.objSize);
    assert forall s :: Member(c', s) <==> Member(c, s) || s == f;
    forall s | Member(c, s) ensures Apart(s, f) && Apart(f, s) {
      assert PageOf(c, s.header) && PageOf(c, s.mem);
    }
    forall a ensures Live(c', a) <==> Live(c, a) {
      if Live(c, a) {
        var s, i: nat :| Member(c, s) && LiveAt(s, c.objSize, i, a);
        assert Member(c', s);
      }
      if Live(c', a) {
        var s, i: nat :| Member(c', s) && LiveAt(s, c.objSize, i, a);
        assert s != f;
      }
    }
    forall x ensures PageOf(c', x) <==> PageOf(c, x) || x == header || x == mem {
      assert Member(c', f);
      if PageOf(c, x) {
        var s :| Member(c, s) && (x == s.header || x == s.mem);
        assert Member(c', s);
      }
    }
  }

  /** Giving back the last of more than two empty slabs. */
  lemma DroppedOk(c: Cache, i: nat)
    requires CacheOk(c) && i < |c.empty|
    ensures var c' := c.(empty := Without(c.empty, i)); var s := c.empty[i];
      && CacheOk(c') && (forall a :: Live(c', a) <==> Live(c, a))
      && (forall x :: PageOf(c', x) <==> PageOf(c, x) && x != s.header && x != s.mem) && PageOf(c, s.header) && PageOf(c, s.mem)
  {
    var c' := c.(empty := Without(c.empty, i));
    var s := c.empty[i];
    WithoutIs(c.empty, i);
    AllFree(s, c.objSize);
    assert forall x :: Member(c', x) <==> Member(c, x) && x != s;
    forall a ensures Live(c', a) <==> Live(c, a) {
      if Live(c, a) {
        var t, j: nat :| Member(c, t) && LiveAt(t, c.objSize, j, a);
        assert t != s && Member(c', t);
      }
      if Live(c', a) {
        var t, j: nat :| Member(c', t) && LiveAt(t, c.objSize, j, a);
        assert Member(c, t);
      }
    }
    forall x ensures PageOf(c', x) <==> PageOf(c, x) && x != s.header && x != s.mem {
      if PageOf(c, x) && x != s.header && x != s.mem {
        var t :| Member(c, t) && (x == t.header || x == t.mem);
        assert Member(c', t);
      }
      if PageOf(c', x) {
        var t :| Member(c', t) && (x == t.header || x == t.mem);
        assert Member(c, t) && Apart(s, t);
      }
    }
    assert Member(c, s);
  }

  // ------------------------------------------------------------ which object an address hits

  predicate Region(s: Slab, objSize: nat, obj: nat) {
    s.mem <= obj < s.mem + s.capacity * objSize
  }

  predicate Hits(a: nat, objSize: nat, obj: nat) {
    a <= obj < a + objSize
  }

  lemma IndexIs(x: nat, n: nat, i: nat)
    requires n > 0
    ensures i * n <= x < i * n + n <==> x / n == i
  {
    var q := x / n;
    assert x == q * n + x % n;
    Multiples(i, q, n);
  }

  lemma IndexBelow(x: nat, n: nat, cap: nat)
    requires n > 0
    ensures x / n < cap <==> x < cap * n
  {
    var q := x / n;
    assert x == q * n + x % n;
    Multiples(q, cap, n);
    if q >= cap { assert cap * n <= q * n; }
  }

  /** A live object that obj points into is object (obj - mem) / size of the slab whose
      region obj is in. */
  lemma OnlyHit(c: Cache, s: Slab, obj: nat, a: nat)
    requires CacheOk(c) && Member(c, s) && Region(s, c.objSize, obj) && Live(c, a) && Hits(a, c.objSize, obj)
    ensures var i := (obj - s.mem) / c.objSize; i < s.capacity && a == s.mem + i * c.objSize && !s.freemap[i]
  {
    var t, j: nat :| Member(c, t) && LiveAt(t, c.objSize, j, a);
    var i := (obj - s.mem) / c.objSize;
    IndexBelow(obj - s.mem, c.objSize, s.capacity);
    IndexIs(obj - s.mem, c.objSize, i);
    if t != s {
      OtherSlab(c, s, t, i, j);
    }
    IndexIs(obj - s.mem, c.objSize, j);
  }

  lemma HitInRegion(c: Cache, obj: nat, a: nat) returns (s: Slab)
    requires CacheOk(c) && Live(c, a) && Hits(a, c.objSize, obj)
    ensures (s in c.partial || s in c.full) && Region(s, c.objSize, obj)
  {
    var i: nat;
    s, i :| Member(c, s) && LiveAt(s, c.objSize, i, a);
    AllFree(s, c.objSize);
    Multiples(i, s.capacity, c.objSize);
  }

  lemma SizeDividesPage(mem: nat, n: nat)
    requires IsObjSize(n) && mem % PGSIZE == 0
    ensures mem % n == 0
  {
    if n == 64 {} else if n == 128 {} else if n == 256 {} else if n == 512 {} else if n == 1024 {} else {}
  }

  lemma SameMultiple(mem: nat, i: nat, n: nat, obj: nat)
    requires n > 0 && mem % n == 0 && obj % n == 0 && mem + i * n <= obj < mem + i * n + n
    ensures obj == mem + i * n
  {
    var k, q := mem / n, obj / n;
    assert mem == k * n && obj == q * n;
    assert (k + i) * n == k * n + i * n;
    Multiples(k + i, q, n);
  }

  /** An address that is a multiple of the object size hits only itself. */
  lemma AlignedHits(c: Cache, obj: nat, a: nat)
    requires CacheOk(c) && Live(c, a) && Hits(a, c.objSize, obj) && obj % c.objSize == 0
    ensures a == obj
  {
    var s, i: nat :| Member(c, s) && LiveAt(s, c.objSize, i, a);
    SizeDividesPage(s.mem, c.objSize);
    SameMultiple(s.mem, i, c.objSize, obj);
  }

  /** So freeing an object-aligned address that is not live, say for the second time, hits nothing. */
  lemma AlignedNotLive(c: Cache, obj: nat)
    requires CacheOk(c) && obj % c.objSize == 0 && !Live(c, obj)
    ensures forall a :: Live(c, a) ==> !Hits(a, c.objSize, obj)
  {
    forall a | Live(c, a) ensures !Hits(a, c.objSize, obj) {
      if Hits(a, c.objSize, obj) { AlignedHits(c, obj, a); }
    }
  }

  /** slab_alloc: the lowest free object.  With nr_free > 0 the scan always finds one. */
  method SlabAlloc(s: Slab, objSize: nat) returns (s': Slab, obj: nat, i: nat)
    requires SlabOk(s, objSize)
    ensures s.nrFree == 0 ==> obj == 0 && s' == s
    ensures s.nrFree > 0 ==> i < s.capacity && s.freemap[i] && (forall j :: 0 <= j < i ==> !s.freemap[j]) && s' == WithBit(s, i, false) && obj == s.mem + i * objSize
  {
    i := 0;
    if s.nrFree == 0 { return s, 0, 0; }
    AllFree(s, objSize);
    while i < s.capacity
      invariant i <= s.capacity && forall j :: 0 <= j < i ==> !s.freemap[j]
    {
      if s.freemap[i] {
        return s.(freemap := s.freemap[i := false], nrFree := s.nrFree - 1), s.mem + i * objSize, i;
      }
      i := i + 1;
    }
    assert false;
  }

  /** slab_free: marks the object obj points into as free, unless it is free already. */
  method SlabFree(s: Slab, objSize: nat, obj: nat) returns (s': Slab)
    requires SlabOk(s, objSize) && s.mem <= obj
    ensures var i := (obj - s.mem) / objSize; s' == if i >= s.capacity || s.freemap[i] then s else WithBit(s, i, true)
  {
    var i := (obj - s.mem) / objSize;
    s' := s;
    if i >= s.capacity { return; }
    if s.freemap[i] { return; }
    s' := s.(freemap := s.freemap[i := true], nrFree := s.nrFree + 1);
  }

  /** The search loop of kmem_cache_free over one list. */
  method FindIn(l: seq<Slab>, objSize: nat, obj: nat) returns (i: nat)
    ensures i <= |l| && (i < |l| ==> Region(l[i], objSize, obj)) && forall j :: 0 <= j < i ==> !Region(l[j], objSize, obj)
  {
    i := 0;
    while i < |l| && !(obj >= l[i].mem && obj < l[i].mem + l[i].capacity * objSize)
      invariant i <= |l| && forall j :: 0 <= j < i ==> !Region(l[j], objSize, obj)
    {
      i := i + 1;
    }
  }

  /** The second walk of kmem_cache_free, to the link that points at slab s. */
  method Unlink(l: seq<Slab>, header: nat, ghost i: nat) returns (l': seq<Slab>)
    requires i < |l| && l[i].header == header && forall j :: 0 <= j < |l| && j != i ==> l[j].header != header
    ensures l' == Without(l, i)
  {
    var k := 0;
    while k < |l| && l[k].header != header
      invariant k <= i
    {
      k := k + 1;
    }
    l' := l[..k] + l[k + 1..];
  }

  /** The cache with object i of the first slab of list k handed out. */
  lemma HandedOut(c: Cache, k: Kind, i: nat, obj: nat)
    requires CacheOk(c) && 0 < |ListOf(c, k)|
    requires var s := ListOf(c, k)[0]; i < s.capacity && i < |s.freemap| == BITS && s.freemap[i] && s.nrFree > 0 && obj == s.mem + i * c.objSize
    ensures var c' := Moved(c, k, 0, WithBit(ListOf(c, k)[0], i, false));
      && CacheOk(c') && Gave(c, c', obj) && SamePages(c, c')
  {
    var s := ListOf(c, k)[0];
    var s' := WithBit(s, i, false);
    var c' := Moved(c, k, 0, s');
    KindsOk(c, s, k);
    WithBitOk(s, c.objSize, i, false);
    MovedOk(c, k, 0, s');
    hide CacheOk; hide Swapped;
    forall a ensures Live(c', a) <==> if a == obj then true else Live(c, a) {
      SwappedLive(c, c', s, i, false, a);
    }
    NotLiveYet(c, s, i);
    forall x ensures PageOf(c', x) <==> PageOf(c, x) {
      SwappedPages(c, c', s, s', x);
    }
  }

  lemma NotLiveYet(c: Cache, s: Slab, i: nat)
    requires CacheOk(c) && Member(c, s) && i < s.capacity && s.freemap[i]
    ensures s.mem + i * c.objSize != 0 && !Live(c, s.mem + i * c.objSize)
  {
    var a := s.mem + i * c.objSize;
    if Live(c, a) {
      Multiples(i, s.capacity, c.objSize);
      OnlyHit(c, s, a, a);
      IndexIs(i * c.objSize, c.objSize, i);
    }
  }

  /** obj was not live and now is; every other address is as before. */
  ghost predicate Gave(c: Cache, c': Cache, obj: nat) {
    obj != 0 && !Live(c, obj) && forall a :: Live(c', a) <==> Live(c, a) || a == obj
  }

  ghost predicate SamePages(c: Cache, c': Cache) {
    forall x :: PageOf(c', x) <==> PageOf(c, x)
  }

  class KmemCache {
    const objSize: nat
    var partial: seq<Slab>
    var full: seq<Slab>
    var empty: seq<Slab>

    ghost function View(): Cache
      reads this
    {
      Cache(objSize, partial, full, empty)
    }

    /** At most two empty slabs are ever kept. */
    ghost predicate Valid()
      reads this
    {
      CacheOk(View()) && |empty| <= 2
    }

    constructor (objSize: nat)
      requires IsObjSize(objSize)
      ensures Valid() && partial == [] && full == [] && empty == [] && this.objSize == objSize
    {
      this.objSize := objSize;
      partial, full, empty := [], [], [];
    }

    method AllocPartial() returns (obj: nat)
      requires CacheOk(View()) && partial != []
      modifies this
      ensures CacheOk(View()) && Gave(old(View()), View(), obj) && SamePages(old(View()), View()) && empty == old(empty)
    {
      var s, i;
      ghost var c := View();
      KindsOk(c, partial[0], Partial);
      s, obj, i := SlabAlloc(partial[0], objSize);
      HandedOut(c, Partial, i, obj);
      ghost var c' := Moved(c, Partial, 0, s);
      AfterTake(c, Partial, s);
      hide CacheOk; hide Gave; hide SamePages;
      if s.nrFree == 0 {
        partial := partial[1..];
        full := [s] + full;
      } else {
        partial := partial[0 := s];
      }
      assert View() == c';
    }

    /** A slab taken off the empty list, or a new one, goes to the full or the partial list. */
    method Place(s: Slab)
      modifies this
      ensures empty == old(empty)
      ensures if s.nrFree == 0 then full == [s] + old(full) && partial == old(partial) else partial == [s] + old(partial) && full == old(full)
    {
      if s.nrFree == 0 {
        full := [s] + full;
      } else {
        partial := [s] + partial;
      }
    }

    method AllocEmpty() returns (obj: nat)
      requires CacheOk(View()) && empty != []
      modifies this
      ensures CacheOk(View()) && Gave(old(View()), View(), obj) && SamePages(old(View()), View()) && |empty| < |old(empty)|
    {
      var s, i;
      ghost var c := View();
      KindsOk(c, empty[0], Empty);
      s, obj, i := SlabAlloc(empty[0], objSize);
      HandedOut(c, Empty, i, obj);
      ghost var c' := Moved(c, Empty, 0, s);
      AfterTake(c, Empty, s);
      hide CacheOk; hide Gave; hide SamePages;
      empty := empty[1..];
      Place(s);
      assert View() == c';
    }

    /** kmem_cache_alloc.  page1 and page2 are what kalloc returns, 0 when it fails; they
        are asked for only when no slab has room, and an empty slab is touched only when no
        other has.  `unused` is the page given back when
        the second one fails. */
    method Alloc(page1: nat, page2: nat) returns (obj: nat, unused: nat)
      requires Valid() && (page1 != 0 ==> page1 != page2 && page1 % PGSIZE == 0 && !PageOf(View(), page1))
      requires page2 != 0 ==> page2 % PGSIZE == 0 && !PageOf(View(), page2)
      modifies this
      ensures Valid()
      ensures obj == 0 <==> old(partial) == [] && old(empty) == [] && (page1 == 0 || page2 == 0)
      ensures obj == 0 ==> View() == old(View()) && unused == page1
      ensures obj != 0 ==> Gave(old(View()), View(), obj) && unused == 0
      ensures old(partial) != [] ==> empty == old(empty)
      ensures forall x :: PageOf(View(), x) <==> PageOf(old(View()), x) || (old(partial) == [] && old(empty) == [] && obj != 0 && (x == page1 || x == page2))
    {
      hide CacheOk; hide PageOf;
      unused := 0;
      if partial != [] {
        obj := AllocPartial();
        return;
      }
      if empty != [] {
        obj := AllocEmpty();
        return;
      }
      if page1 == 0 { return 0, 0; }
      if page2 == 0 { return 0, page1; }
      // The new slab is handled like one from the empty list, from where it is taken at once.
      AddedOk(View(), page1, page2);
      empty := [Slab(page1, page2, Capacity(objSize), Capacity(objSize), seq(BITS, i => i < Capacity(objSize)))];
      ghost var c := View();
      obj := AllocEmpty();
    }

    /** The partial-list half of kmem_cache_free's search. */
    method FreePartial(i: nat, obj: nat)
      requires CacheOk(View()) && i < |partial| && Region(partial[i], objSize, obj)
      modifies this
      ensures CacheOk(View()) && Took(old(View()), View(), obj) && SamePages(old(View()), View()) && |empty| <= |old(empty)| + 1
    {
      ghost var c := View();
      var s := partial[i];
      KindsOk(c, s, Partial);
      IndexBelow(obj - s.mem, objSize, s.capacity);
      var s' := SlabFree(s, objSize, obj);
      if s.freemap[(obj - s.mem) / objSize] {
        NothingHit(c, s, obj);
        return;
      }
      TakenBack(c, Partial, i, obj);
      AfterGive(c, Partial, i, s');
      HeadersDiffer(c, Partial, i);
      hide CacheOk; hide Took; hide SamePages;
      if s'.nrFree == s'.capacity {
        partial := Unlink(partial[i := s'], s'.header, i);
        empty := [s'] + empty;
      } else {
        partial := partial[i := s'];
      }
    }

    /** Where kmem_cache_free files a slab from the full list. */
    method FileFull(i: nat, s: Slab)
      requires i < |full| && full[i].header == s.header && forall j :: 0 <= j < |full| && j != i ==> full[j].header != s.header
      modifies this
      ensures s.nrFree == 1 ==> full == Without(old(full), i) && partial == [s] + old(partial) && empty == old(empty)
      ensures s.nrFree != 1 && s.nrFree == s.capacity ==> full == Without(old(full), i) && empty == [s] + old(empty) && partial == old(partial)
      ensures s.nrFree != 1 && s.nrFree != s.capacity ==> full == old(full)[i := s] && empty == old(empty) && partial == old(partial)
    {
      full := full[i := s];
      if s.nrFree == 1 {
        full := Unlink(full, s.header, i);
        partial := [s] + partial;
      } else if s.nrFree == s.capacity {
        full := Unlink(full, s.header, i);
        empty := [s] + empty;
      }
    }

    method FreeFull(i: nat, obj: nat)
      requires CacheOk(View()) && i < |full| && Region(full[i], objSize, obj)
      modifies this
      ensures CacheOk(View()) && Took(old(View()), View(), obj) && SamePages(old(View()), View()) && empty == old(empty)
    {
      ghost var c := View();
      FullFreed(c, i, obj);
      HeadersDiffer(c, Full, i);
      hide CacheOk; hide Took; hide SamePages; hide Region; hide WithBit; hide SlabOk;
      var s' := SlabFree(full[i], objSize, obj);
      FileFull(i, s');
    }

    /** The last loop of kmem_cache_free: everything after the second empty slab goes back
        to the page allocator. */
    method Trim() returns (freed: seq<nat>)
      requires CacheOk(View()) && |empty| <= 3
      modifies this
      ensures Valid() && SameLive(old(View()), View()) && GaveBack(old(View()), View(), freed)
      ensures |old(empty)| <= 2 ==> View() == old(View()) && freed == []
      ensures |old(empty)| > 2 ==> empty == old(empty)[..2]
    {
      freed := [];
      hide CacheOk; hide SameLive; hide GaveBack;
      ghost var c := View();
      GaveNothing(c);
      var counter, pp := 0, 0;
      while pp + 1 < |empty|
        invariant CacheOk(View()) && pp == counter <= 1 && SameLive(c, View()) && GaveBack(c, View(), freed)
        invariant |empty| <= 3 && (pp == 1 ==> |empty| >= 2) && (|c.empty| > 2 ==> |empty| >= 2 && empty == c.empty[..|empty|]) && (|c.empty| <= 2 ==> View() == c && freed == [])
        decreases |empty| - pp
      {
        if counter >= 1 {
          var tofree := empty[pp + 1];
          GaveOne(c, View(), freed, pp + 1);
          empty := Without(empty, pp + 1);
          freed := freed + [tofree.mem, tofree.header];
        } else {
          counter := counter + 1;
          pp := pp + 1;
        }
      }
    }

    /** kmem_cache_free: whatever address it gets, exactly the live object it points into
        is freed; with none, nothing changes.  At most two empty slabs remain, and pages go
        back only while two do. */
    method Free(obj: nat) returns (freed: seq<nat>)
      requires Valid()
      modifies this
      ensures Valid() && TookLive(old(View()), View(), obj) && GaveBack(old(View()), View(), freed)
      ensures (forall a :: Live(old(View()), a) ==> !Hits(a, objSize, obj)) ==> View() == old(View()) && freed == []
      ensures freed != [] ==> |empty| == 2
    {
      hide CacheOk; hide Region; hide Live;
      ghost var c := View();
      freed := [];
      var i := FindIn(partial, objSize, obj);
      if i < |partial| {
        FreePartial(i, obj);
      } else {
        var j := FindIn(full, objSize, obj);
        if j < |full| {
          FreeFull(j, obj);
        } else {
          NobodyHit(c, obj);
          GaveNothing(c);
          return;
        }
      }
      ghost var mid := View();
      freed := Trim();
      GaveAfter(c, mid, View(), freed);
    }
  }

  /** obj's object, if live, is live no more; if there was none, nothing changed at all. */
  ghost predicate Took(c: Cache, c': Cache, obj: nat) {
    && (forall a :: Live(c', a) <==> Live(c, a) && !Hits(a, c.objSize, obj))
    && ((forall a :: Live(c, a) ==> !Hits(a, c.objSize, obj)) ==> c' == c)
  }

  ghost predicate TookLive(c: Cache, c': Cache, obj: nat) {
    forall a :: Live(c', a) <==> Live(c, a) && !Hits(a, c.objSize, obj)
  }

  ghost predicate SameLive(c: Cache, c': Cache) {
    c'.objSize == c.objSize && forall a :: Live(c', a) <==> Live(c, a)
  }

  /** The pages in `freed`, each once, left the cache; no other did and none joined. */
  ghost predicate GaveBack(c: Cache, c': Cache, freed: seq<nat>) {
    && (forall x :: PageOf(c', x) <==> PageOf(c, x) && x !in freed)
    && (forall x :: x in freed ==> PageOf(c, x))
    && (forall i, j :: 0 <= i < j < |freed| ==> freed[i] != freed[j])
  }

  lemma GaveNothing(c: Cache)
    ensures GaveBack(c, c, []) && SameLive(c, c)
  {
  }

  lemma GaveAfter(c: Cache, mid: Cache, c': Cache, freed: seq<nat>)
    requires SamePages(c, mid) && GaveBack(mid, c', freed)
    ensures GaveBack(c, c', freed)
  {
  }

  lemma GaveOne(c: Cache, mid: Cache, freed: seq<nat>, i: nat)
    requires CacheOk(mid) && i < |mid.empty| && GaveBack(c, mid, freed) && SameLive(c, mid)
    ensures var c' := mid.(empty := Without(mid.empty, i)); var s := mid.empty[i];
      CacheOk(c') && SameLive(c, c') && GaveBack(c, c', freed + [s.mem, s.header])
  {
    DroppedOk(mid, i);
    var s := mid.empty[i];
    KindsOk(mid, s, Empty);
    assert s.mem !in freed && s.header !in freed && s.mem != s.header;
  }

  /** An address whose object is free already, or that is in no searched slab. */
  lemma NothingHit(c: Cache, s: Slab, obj: nat)
    requires CacheOk(c) && Member(c, s) && Region(s, c.objSize, obj)
    requires var i := (obj - s.mem) / c.objSize; i < s.capacity ==> s.freemap[i]
    ensures Took(c, c, obj)
  {
    forall a | Live(c, a) ensures !Hits(a, c.objSize, obj) {
      if Hits(a, c.objSize, obj) { OnlyHit(c, s, obj, a); }
    }
  }

  lemma NobodyHit(c: Cache, obj: nat)
    requires CacheOk(c)
    requires forall i :: 0 <= i < |c.partial| ==> !Region(c.partial[i], c.objSize, obj)
    requires forall i :: 0 <= i < |c.full| ==> !Region(c.full[i], c.objSize, obj)
    ensures Took(c, c, obj)
  {
    forall a | Live(c, a) ensures !Hits(a, c.objSize, obj) {
      if Hits(a, c.objSize, obj) {
        var s := HitInRegion(c, obj, a);
      }
    }
  }

  /** The cache with obj's object in slab i of list k taken back. */
  lemma TakenBack(c: Cache, k: Kind, i: nat, obj: nat)
    requires CacheOk(c) && i < |ListOf(c, k)| && Region(ListOf(c, k)[i], c.objSize, obj)
    requires var s := ListOf(c, k)[i]; var j := (obj - s.mem) / c.objSize; j < s.capacity && |s.freemap| == BITS && j < BITS && !s.freemap[j]
    ensures var s := ListOf(c, k)[i]; var c' := Moved(c, k, i, WithBit(s, (obj - s.mem) / c.objSize, true));
      CacheOk(c') && Took(c, c', obj) && SamePages(c, c')
  {
    var s := ListOf(c, k)[i];
    var j := (obj - s.mem) / c.objSize;
    var s' := WithBit(s, j, true);
    var c' := Moved(c, k, i, s');
    KindsOk(c, s, k);
    WithBitOk(s, c.objSize, j, true);
    MovedOk(c, k, i, s');
    IndexIs(obj - s.mem, c.objSize, j);
    assert LiveAt(s, c.objSize, j, s.mem + j * c.objSize) && Live(c, s.mem + j * c.objSize);
    hide CacheOk; hide Swapped; hide LiveAt; hide Moved; hide SlabOk;
    forall a ensures Live(c', a) <==> Live(c, a) && !Hits(a, c.objSize, obj) {
      SwappedLive(c, c', s, j, true, a);
      if Live(c, a) && Hits(a, c.objSize, obj) { OnlyHit(c, s, obj, a); }
    }
    forall x ensures PageOf(c', x) <==> PageOf(c, x) {
      SwappedPages(c, c', s, s', x);
    }
  }

  lemma AfterGive(c: Cache, k: Kind, i: nat, s': Slab)
    requires CacheOk(c) && k != Empty && i < |ListOf(c, k)|
    requires var s := ListOf(c, k)[i]; s'.nrFree == s.nrFree + 1 && s'.capacity == s.capacity
    ensures k == Partial ==> KindOf(s') == (if s'.nrFree == s'.capacity then Empty else Partial)
    ensures k == Full ==> KindOf(s') == Partial && s'.nrFree == 1
  {
    var s := ListOf(c, k)[i];
    KindsOk(c, s, k);
    AllFree(s, c.objSize);
  }

  /** In a full slab every object is live, and the slab becomes a partial one. */
  lemma FullFreed(c: Cache, i: nat, obj: nat)
    requires CacheOk(c) && i < |c.full| && Region(c.full[i], c.objSize, obj)
    ensures var s := c.full[i]; var j := (obj - s.mem) / c.objSize;
      && SlabOk(s, c.objSize) && s.mem <= obj && j < s.capacity && j < |s.freemap| && !s.freemap[j]
      && var s' := WithBit(s, j, true); var c' := Cache(c.objSize, [s'] + c.partial, Without(c.full, i), c.empty);
      s'.nrFree == 1 && s'.header == s.header && CacheOk(c') && Took(c, c', obj) && SamePages(c, c')
  {
    var s := c.full[i];
    KindsOk(c, s, Full);
    AllFree(s, c.objSize);
    IndexBelow(obj - s.mem, c.objSize, s.capacity);
    TakenBack(c, Full, i, obj);
    var s' := WithBit(s, (obj - s.mem) / c.objSize, true);
    AfterGive(c, Full, i, s');
    hide CacheOk; hide Took; hide SamePages; hide SlabOk;
    assert Moved(c, Full, i, s') == Cache(c.objSize, [s'] + c.partial, Without(c.full, i), c.empty);
  }

  lemma HeadersDiffer(c: Cache, k: Kind, i: nat)
    requires CacheOk(c) && i < |ListOf(c, k)|
    ensures forall j :: 0 <= j < |ListOf(c, k)| && j != i ==> ListOf(c, k)[j].header != ListOf(c, k)[i].header
  {
    var l := ListOf(c, k);
    KindsOk(c, l[i], k);
    forall j | 0 <= j < |l| && j != i ensures l[j].header != l[i].header {
      KindsOk(c, l[j], k);
      assert Apart(l[i], l[j]);
    }
  }

  /** Where the first slab of a list goes once an object is taken from it. */
  lemma AfterTake(c: Cache, k: Kind, s': Slab)
    requires CacheOk(c) && k != Full && 0 < |ListOf(c, k)|
    requires var s := ListOf(c, k)[0]; s'.nrFree == s.nrFree - 1 && s'.capacity == s.capacity
    ensures Without(ListOf(c, k), 0) == ListOf(c, k)[1..]
    ensures s'.nrFree == 0 ==> KindOf(s') == Full
    ensures s'.nrFree != 0 ==> KindOf(s') == Partial
  {
    var s := ListOf(c, k)[0];
    KindsOk(c, s, k);
    AllFree(s, c.objSize);
  }
}
