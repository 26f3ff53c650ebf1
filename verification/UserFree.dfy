/** kernel/vm.c: freewalk and uvmfree. */
module UserFree {
  import opened Params
  import opened Wrappers
  import opened PageTable
  import opened AddressSpace
  import opened UserMap
  import opened UserUnmap

  /** PGROUNDUP(n) / PGSIZE, in 64 bits: it wraps to 0 for the last sizes below 2^64. */
  function PagesUp(n: nat): nat {
    (n + PGSIZE - 1) % UINT64 / PGSIZE
  }

  /** The pages that n bytes reach into. */
  function Pages(n: nat): nat {
    (n + PGSIZE - 1) / PGSIZE
  }

  /** The two differ only where the rounding wraps. */
  lemma RoundsUp(n: nat)
    requires n < UINT64
    ensures PagesUp(n) == if n <= UINT64 - PGSIZE then Pages(n) else 0
    ensures n <= UINT64 - PGSIZE <==> Pages(n) * PGSIZE < UINT64
  {
  }

  /** A PTE write that empties exactly one place, giving up page t. */
  lemma EmptyOne(pt: PT, mem: seq<Page>, free: set<nat>, pt': PT, at: Loc, t: nat)
    requires Valid(pt, mem, free) && WellFormed(pt') && PpnAt(pt, at) == Some(t) && PpnAt(pt', at) == None
    requires forall loc :: loc != at ==> PpnAt(pt', loc) == PpnAt(pt, loc)
    ensures t < |mem| && t !in free && Owns(pt, t)
    ensures Valid(pt', mem, free + {t}) && Conserved(pt, free, pt', free + {t})
  {
    forall p: nat ensures Owns(pt', p) <==> Owns(pt, p) && p != t {
      if Owns(pt, p) && p != t {
        var loc :| PpnAt(pt, loc) == Some(p);
        assert PpnAt(pt', loc) == Some(p);
      }
      if Owns(pt', p) {
        var loc :| PpnAt(pt', loc) == Some(p);
        assert PpnAt(pt, loc) == Some(p);
      }
    }
  }

  ghost predicate NoSmallLeaf(pt: PT, h: nat) {
    forall v: nat :: InRegion(h, v) ==> v !in pt.e0
  }

  /** No leaf below entry i of the root. */
  ghost predicate NoLeafBelow(pt: PT, i: nat) {
    forall h: nat :: h / PTES == i && h in pt.e1 ==> pt.e1[h].Table? && NoSmallLeaf(pt, h)
  }

  /** freewalk on a level-0 table. */
  method FreeLevel0(s: Space, h: nat) returns (ok: bool)
    requires s.Ok() && h in s.pt.e1 && s.pt.e1[h].Table?
    modifies s, s.m
    ensures ok <==> NoSmallLeaf(old(s.pt), h)
    ensures s.Ok() && Tidy(old(s.pt), old(s.m.mem), old(s.m.free), s.pt, s.m.mem, s.m.free)
    ensures s.pt == if ok then old(s.pt).(e1 := old(s.pt.e1) - {h}) else old(s.pt)
  {
    var k := 0;
    while k < PTES
      invariant 0 <= k <= PTES && forall v: nat :: InRegion(h, v) && v % PTES < k ==> v !in s.pt.e0
    {
      assert InRegion(h, h * PTES + k);
      if h * PTES + k in s.pt.e0 {
        TidyRefl(s.pt, s.m.mem, s.m.free);
        return false;
      }
      k := k + 1;
    }
    ghost var pt0, mem0, free0 := s.pt, s.m.mem, s.m.free;
    DropLevel0(s.pt, s.m.mem, s.m.free, h);
    hide Valid; hide Conserved; hide NoSmallLeaf;
    s.m.Kfree(s.pt.e1[h].ppn);
    s.pt := s.pt.(e1 := s.pt.e1 - {h});
    FreeWrites(s.pt, mem0, s.m.free, s.m.mem);
    ok := true;
  }

  lemma DropLevel0(pt: PT, mem: seq<Page>, free: set<nat>, h: nat)
    requires Valid(pt, mem, free) && h in pt.e1 && pt.e1[h].Table? && NoSmallLeaf(pt, h)
    ensures var t, pt' := pt.e1[h].ppn, pt.(e1 := pt.e1 - {h});
      t < |mem| && t !in free && Owns(pt, t) && Valid(pt', mem, free + {t}) && Conserved(pt, free, pt', free + {t})
  {
    Level0Emptied(pt, mem, free, h);
    hide Valid; hide WellFormed; hide PpnAt; hide Owns;
    EmptyOne(pt, mem, free, pt.(e1 := pt.e1 - {h}), Level0(h), pt.e1[h].ppn);
  }

  lemma Level0Emptied(pt: PT, mem: seq<Page>, free: set<nat>, h: nat)
    requires Valid(pt, mem, free) && h in pt.e1 && pt.e1[h].Table? && NoSmallLeaf(pt, h)
    ensures var pt' := pt.(e1 := pt.e1 - {h});
      && WellFormed(pt') && PpnAt(pt, Level0(h)) == Some(pt.e1[h].ppn) && PpnAt(pt', Level0(h)) == None
      && forall loc :: loc != Level0(h) ==> PpnAt(pt', loc) == PpnAt(pt, loc)
  {
    var pt' := pt.(e1 := pt.e1 - {h});
    forall v: nat ensures Walk(pt', v) == Walk(pt, v) && (v in pt'.e0 ==> v / PTES in pt'.e1) {
      assert InRegion(v / PTES, v);
    }
  }

  lemma DropLevel1(pt: PT, mem: seq<Page>, free: set<nat>, i: nat)
    requires Valid(pt, mem, free) && i in pt.e2 && forall h: nat :: h in pt.e1 ==> h / PTES != i
    ensures var t, pt' := pt.e2[i].ppn, pt.(e2 := pt.e2 - {i});
      t < |mem| && t !in free && Owns(pt, t) && Valid(pt', mem, free + {t}) && Conserved(pt, free, pt', free + {t})
  {
    var t, pt' := pt.e2[i].ppn, pt.(e2 := pt.e2 - {i});
    forall v: nat ensures Walk(pt', v) == Walk(pt, v) {
    }
    EmptyOne(pt, mem, free, pt', Level1(i), t);
  }

  /** freewalk on a level-1 table: its level-0 tables go, then it goes. */
  method FreeLevel1(s: Space, i: nat) returns (ok: bool)
    requires s.Ok() && i in s.pt.e2
    modifies s, s.m
    ensures ok <==> NoLeafBelow(old(s.pt), i)
    ensures s.Ok() && Tidy(old(s.pt), old(s.m.mem), old(s.m.free), s.pt, s.m.mem, s.m.free)
    ensures ok ==> s.pt.root == old(s.pt.root) && s.pt.e2 == old(s.pt.e2) - {i} && s.pt.e0 == old(s.pt.e0)
    ensures ok ==> forall h: nat :: h in s.pt.e1 <==> h in old(s.pt.e1) && h / PTES != i
    ensures ok ==> forall h: nat :: h in s.pt.e1 ==> s.pt.e1[h] == old(s.pt.e1)[h]
  {
    hide Valid; hide Tidy; hide NoSmallLeaf;
    ghost var pt0, mem0, free0 := s.pt, s.m.mem, s.m.free;
    TidyRefl(pt0, mem0, free0);
    var j := 0;
    while j < PTES
      invariant 0 <= j <= PTES && s.Ok() && Tidy(pt0, mem0, free0, s.pt, s.m.mem, s.m.free)
      invariant s.pt.root == pt0.root && s.pt.e2 == pt0.e2 && s.pt.e0 == pt0.e0
      invariant forall h: nat :: h in s.pt.e1 <==> h in pt0.e1 && !(h / PTES == i && h % PTES < j)
      invariant forall h: nat :: h in s.pt.e1 ==> s.pt.e1[h] == pt0.e1[h]
      invariant forall h: nat :: h / PTES == i && h % PTES < j && h in pt0.e1 ==> pt0.e1[h].Table? && NoSmallLeaf(pt0, h)
    {
      var h := i * PTES + j;
      if h in s.pt.e1 {
        if s.pt.e1[h].Leaf? { return false; }
        ghost var pt1, mem1, free1 := s.pt, s.m.mem, s.m.free;
        SameSmall(pt0, pt1, h);
        ok := FreeLevel0(s, h);
        TidyTrans(pt0, mem0, free0, pt1, mem1, free1, s.pt, s.m.mem, s.m.free);
        if !ok { return; }
      }
      j := j + 1;
    }
    ghost var pt1, mem1, free1 := s.pt, s.m.mem, s.m.free;
    DropLevel1(s.pt, s.m.mem, s.m.free, i);
    s.m.Kfree(s.pt.e2[i].ppn);
    s.pt := s.pt.(e2 := s.pt.e2 - {i});
    FreeWrites(s.pt, mem1, s.m.free, s.m.mem);
    FreedOne(pt1, mem1, free1, s.pt, s.m.mem, s.m.free, pt1.e2[i].ppn);
    TidyTrans(pt0, mem0, free0, pt1, mem1, free1, s.pt, s.m.mem, s.m.free);
    ok := true;
  }

  lemma SameSmall(pt: PT, pt': PT, h: nat)
    requires pt'.e0 == pt.e0
    ensures NoSmallLeaf(pt', h) <==> NoSmallLeaf(pt, h)
  {
  }

  lemma FreedOne(pt: PT, mem: seq<Page>, free: set<nat>, pt': PT, mem': seq<Page>, free': set<nat>, t: nat)
    requires Conserved(pt, free, pt', free') && Owns(pt, t) && |mem'| == |mem| && forall p :: 0 <= p < |mem| && p != t ==> mem'[p] == mem[p]
    ensures Tidy(pt, mem, free, pt', mem', free')
  {
  }

  ghost predicate NoLeaf(pt: PT) {
    pt.e0 == map[] && forall h: nat :: h in pt.e1 ==> pt.e1[h].Table?
  }

  /** freewalk: panics exactly when a leaf is left; otherwise every page-table page
      is free again, and with them every page the process owned. */
  method Freewalk(s: Space) returns (ok: bool)
    requires s.Ok()
    modifies s, s.m
    ensures ok <==> NoLeaf(old(s.pt))
    ensures ok ==> s.m.Ok() && forall p: nat :: p in s.m.free <==> p in old(s.m.free) || Owns(old(s.pt), p)
    ensures ForeignSame(old(s.pt), old(s.m.free), old(s.m.mem), s.m.mem)
  {
    hide Valid; hide Tidy; hide NoLeafBelow; hide ForeignSame;
    ghost var pt0, mem0, free0 := s.pt, s.m.mem, s.m.free;
    TidyRefl(pt0, mem0, free0);
    LeafIff(pt0, mem0, free0);
    var i := 0;
    while i < PTES
      invariant 0 <= i <= PTES && s.Ok() && Tidy(pt0, mem0, free0, s.pt, s.m.mem, s.m.free)
      invariant s.pt.root == pt0.root && s.pt.e0 == pt0.e0
      invariant forall k: nat :: k in s.pt.e2 <==> k in pt0.e2 && k >= i
      invariant forall h: nat :: h in s.pt.e1 <==> h in pt0.e1 && h / PTES >= i
      invariant forall h: nat :: h in s.pt.e1 ==> s.pt.e1[h] == pt0.e1[h]
      invariant forall k: nat :: k < i ==> NoLeafBelow(pt0, k)
    {
      ghost var pt1, mem1, free1 := s.pt, s.m.mem, s.m.free;
      SameBelow(pt0, mem0, free0, pt1, i);
      if i in s.pt.e2 {
        ok := FreeLevel1(s, i);
        TidyTrans(pt0, mem0, free0, pt1, mem1, free1, s.pt, s.m.mem, s.m.free);
        TidyForeign(pt0, mem0, free0, s.pt, s.m.mem, s.m.free);
        if !ok { return; }
      }
      i := i + 1;
    }
    ghost var pt1, mem1, free1 := s.pt, s.m.mem, s.m.free;
    OnlyRoot(pt1, mem1, free1);
    s.m.Kfree(s.pt.root);
    RootFreed(pt0, mem0, free0, pt1, mem1, free1, s.m.mem, s.m.free);
    ok := true;
  }

  lemma TidyForeign(pt: PT, mem: seq<Page>, free: set<nat>, pt': PT, mem': seq<Page>, free': set<nat>)
    requires Tidy(pt, mem, free, pt', mem', free')
    ensures ForeignSame(pt, free, mem, mem')
  {
  }

  /** No leaf anywhere means none below any root entry. */
  lemma LeafIff(pt: PT, mem: seq<Page>, free: set<nat>)
    requires Valid(pt, mem, free)
    ensures NoLeaf(pt) <==> forall i: nat :: i < PTES ==> NoLeafBelow(pt, i)
  {
    if forall i: nat :: i < PTES ==> NoLeafBelow(pt, i) {
      forall h: nat | h in pt.e1 ensures pt.e1[h].Table? && NoSmallLeaf(pt, h) {
        assert NoLeafBelow(pt, h / PTES);
      }
      forall v: nat ensures v !in pt.e0 {
        assert InRegion(v / PTES, v);
      }
    }
  }

  lemma SameBelow(pt: PT, mem: seq<Page>, free: set<nat>, pt': PT, i: nat)
    requires Valid(pt, mem, free) && pt'.e0 == pt.e0
    requires forall h: nat :: h in pt'.e1 <==> h in pt.e1 && h / PTES >= i
    requires forall h: nat :: h in pt'.e1 ==> pt'.e1[h] == pt.e1[h]
    requires forall k: nat :: k in pt'.e2 <==> k in pt.e2 && k >= i
    ensures NoLeafBelow(pt', i) <==> NoLeafBelow(pt, i)
    ensures i !in pt'.e2 ==> NoLeafBelow(pt, i) && forall h: nat :: h in pt.e1 ==> h / PTES != i
  {
    assert forall h: nat :: NoSmallLeaf(pt', h) <==> NoSmallLeaf(pt, h);
  }

  lemma OnlyRoot(pt: PT, mem: seq<Page>, free: set<nat>)
    requires Valid(pt, mem, free) && (forall i: nat :: i in pt.e2 ==> i >= PTES)
    ensures pt.root < |mem| && pt.root !in free && forall p: nat :: Owns(pt, p) <==> p == pt.root
  {
    assert PpnAt(pt, RootTable) == Some(pt.root);
    assert forall loc :: loc != RootTable ==> PpnAt(pt, loc) == None;
  }

  lemma RootFreed(pt0: PT, mem0: seq<Page>, free0: set<nat>, pt: PT, mem: seq<Page>, free: set<nat>, mem': seq<Page>, free': set<nat>)
    requires Tidy(pt0, mem0, free0, pt, mem, free) && forall p: nat :: Owns(pt, p) <==> p == pt.root
    requires free' == free + {pt.root} && |mem'| == |mem| && forall p :: 0 <= p < |mem| && p != pt.root ==> mem'[p] == mem[p]
    ensures forall p: nat :: p in free' <==> p in free0 || Owns(pt0, p)
    ensures ForeignSame(pt0, free0, mem0, mem')
  {
    forall p: nat ensures p in free' <==> p in free0 || Owns(pt0, p) {
      assert p in free || Owns(pt, p) <==> p in free0 || Owns(pt0, p);
    }
  }

  /** Every leaf maps pages below n only. */
  ghost predicate LeavesBelow(pt: PT, n: nat) {
    && (forall v: nat :: v in pt.e0 ==> v < n)
    && (forall h: nat :: h in pt.e1 && pt.e1[h].Leaf? ==> h * PTES + PTES <= n)
  }

  ghost predicate EmptyFrom(pt: PT, mem: seq<Page>, n: nat) {
    forall v: nat :: v >= n ==> Flat(pt, mem, v) == None
  }

  /** Leaves below n only: exactly when the process sees nothing from page n on. */
  lemma LeavesBelowIff(pt: PT, mem: seq<Page>, free: set<nat>, n: nat)
    requires Valid(pt, mem, free)
    ensures LeavesBelow(pt, n) <==> EmptyFrom(pt, mem, n)
    ensures LeavesBelow(pt, n) ==> !CutsHuge(pt, n)
  {
    if EmptyFrom(pt, mem, n) {
      forall v: nat | v in pt.e0 ensures v < n {
        FlatIff(pt, mem, free, v);
      }
      forall h: nat | h in pt.e1 && pt.e1[h].Leaf? ensures h * PTES + PTES <= n {
        FlatIff(pt, mem, free, h * PTES + PTES - 1);
      }
    }
  }

  lemma NoLeafIff(pt: PT, mem: seq<Page>, free: set<nat>)
    requires Valid(pt, mem, free)
    ensures NoLeaf(pt) <==> LeavesBelow(pt, 0)
  {
    if LeavesBelow(pt, 0) { assert pt.e0 == map[]; }
  }

  /** Unmapping the pages below n leaves no leaf exactly when all were below n. */
  lemma AllUnmapped(pt0: PT, mem0: seq<Page>, free0: set<nat>, pt: PT, mem: seq<Page>, free: set<nat>, n: nat)
    requires Valid(pt0, mem0, free0) && Valid(pt, mem, free) && Unmapped(pt0, mem0, pt, mem, 0, n)
    ensures LeavesBelow(pt0, n) <==> NoLeaf(pt)
  {
    LeavesBelowIff(pt0, mem0, free0, n);
    LeavesBelowIff(pt, mem, free, 0);
    NoLeafIff(pt, mem, free);
    hide LeavesBelow; hide NoLeaf; hide Valid; hide Flat;
  }

  /** uvmfree: it panics exactly when a leaf reaches beyond sz or sz beyond MAXVA; otherwise
      every page the process owned is free again. */
  method Uvmfree(s: Space, sz: nat) returns (ok: bool)
    requires s.Ok()
    modifies s, s.m
    ensures ok <==> old(LeavesBelow(s.pt, PagesUp(sz))) && PagesUp(sz) <= MAXPAGES
    ensures ok ==> s.m.Ok() && forall p: nat :: p in s.m.free <==> p in old(s.m.free) || Owns(old(s.pt), p)
    ensures ForeignSame(old(s.pt), old(s.m.free), old(s.m.mem), s.m.mem)
  {
    hide Valid; hide Conserved; hide ForeignSame; hide LeavesBelow; hide NoLeaf; hide CanUnmap; hide Unmapped;
    ghost var pt0, mem0, free0, held := s.pt, s.m.mem, s.m.free, {};
    var n := PagesUp(sz);
    LeavesBelowIff(pt0, mem0, free0, n);
    NothingUnmapped(pt0, mem0, free0, 0);
    TidyRefl(pt0, mem0, free0);
    if sz > 0 {
      ok, held := Unmap(s, 0, n, true);
      assert s.m.free + held == s.m.free;
      FreeUnmaps(pt0, |free0|, n);
      TidyForeign(pt0, mem0, free0, s.pt, s.m.mem, s.m.free);
      if !ok { return; }
    }
    ghost var pt1, mem1, free1 := s.pt, s.m.mem, s.m.free;
    AllUnmapped(pt0, mem0, free0, pt1, mem1, free1, n);
    ok := Freewalk(s);
    TidyThenFreed(pt0, mem0, free0, pt1, mem1, free1, s.m.mem, s.m.free, ok);
  }

  lemma FreeUnmaps(pt: PT, free: nat, n: nat)
    ensures n > 0 && CanUnmap(pt, free, 0, n, true) ==> n <= MAXPAGES
    ensures !CutsHuge(pt, n) && n <= MAXPAGES ==> CanUnmap(pt, free, 0, n, true)
  {
  }

  lemma TidyThenFreed(pt0: PT, mem0: seq<Page>, free0: set<nat>, pt: PT, mem: seq<Page>, free: set<nat>, mem': seq<Page>, free': set<nat>, ok: bool)
    requires Tidy(pt0, mem0, free0, pt, mem, free) && ForeignSame(pt, free, mem, mem')
    requires ok ==> forall p: nat :: p in free' <==> p in free || Owns(pt, p)
    ensures ForeignSame(pt0, free0, mem0, mem')
    ensures ok ==> forall p: nat :: p in free' <==> p in free0 || Owns(pt0, p)
  {
  }
}
