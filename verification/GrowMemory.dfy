/** kernel/vm.c: uvmalloc and uvmdealloc, which grow and shrink a process. */
module GrowMemory {
  import opened Params
  import opened Wrappers
  import opened PageTable
  import opened AddressSpace
  import opened UserMap
  import opened UserUnmap
  import opened UserFree

  const ZERO: Page := [0]

  /** Exactly the pages from lo to hi are new, zeroed and mapped with the flags. */
  ghost predicate Grown(pt: PT, mem: seq<Page>, pt': PT, mem': seq<Page>, lo: nat, hi: nat, flags: Flags) {
    forall w: nat :: Flat(pt', mem', w) == if lo <= w < hi then Some(Mapping(ZERO, flags)) else Flat(pt, mem, w)
  }

  /** A page taken for a mapping that failed goes back: nobody notices. */
  lemma TakenGivenBack(pt0: PT, mem0: seq<Page>, free0: set<nat>, mem1: seq<Page>, p: nat,
                       pt2: PT, mem2: seq<Page>, free2: set<nat>, mem3: seq<Page>)
    requires Valid(pt0, mem0, free0) && p in free0 && |mem1| == |mem0| && forall q :: 0 <= q < |mem0| && q != p ==> mem1[q] == mem0[q]
    requires Tidy(pt0, mem1, free0 - {p}, pt2, mem2, free2) && SameSpace(pt0, mem1, pt2, mem2) && Valid(pt2, mem2, free2)
    requires |mem3| == |mem2| && forall q :: 0 <= q < |mem2| && q != p ==> mem3[q] == mem2[q]
    ensures Valid(pt2, mem3, free2 + {p}) && SameSpace(pt0, mem0, pt2, mem3) && Tidy(pt0, mem0, free0, pt2, mem3, free2 + {p})
  {
    FreeWrites(pt0, mem0, free0, mem1);
    FreeNotOwned(pt0, mem0, free0, p);
    hide Valid; hide SameSpace; hide Flat;
    forall q: nat ensures (q in free2 + {p} || Owns(pt2, q) <==> q in free0 || Owns(pt0, q)) && (q == p ==> !Owns(pt2, q)) {
      hide Owns;
      assert q in free2 || Owns(pt2, q) <==> q in free0 - {p} || Owns(pt0, q);
    }
    hide Owns;
    Reserve(pt2, mem2, free2, {p});
    FreeWrites(pt2, mem2, free2 + {p}, mem3);
    SameSpaceTrans(pt0, mem0, pt0, mem1, pt2, mem2);
    SameSpaceTrans(pt0, mem0, pt2, mem2, pt2, mem3);
  }

  /** A page that uvmalloc cannot map: beyond MAXVA or mapped already. */
  ghost predicate Blocked(pt: PT, v: nat) {
    v >= MAXPAGES || Walk(pt, v) != Missing
  }

  /** One turn of uvmalloc's loop: a zeroed page at v, exactly if the page and its missing
      tables can be had; on a blocked page a panic, once a page has been taken for it. */
  method GrowOne(s: Space, v: nat, flags: Flags) returns (r: MapResult)
    requires s.Ok() && Grants(flags)
    modifies s, s.m
    ensures r in {RemapPanic, WalkPanic} <==> old(Blocked(s.pt, v)) && old(s.m.free) != {}
    ensures r == Mapped <==> !old(Blocked(s.pt, v)) && |old(s.m.free)| > MissingTables(old(s.pt), v / PTES, true)
    ensures r in {Mapped, NoMemory} ==> s.Ok() && Tidy(old(s.pt), old(s.m.mem), old(s.m.free), s.pt, s.m.mem, s.m.free)
    ensures r == Mapped ==> NowMaps(old(s.pt), old(s.m.mem), s.pt, s.m.mem, v, Mapping(ZERO, flags))
    ensures r == NoMemory ==> SameSpace(old(s.pt), old(s.m.mem), s.pt, s.m.mem)
    ensures r in {Mapped, NoMemory} ==> FewerHuge(old(s.pt), s.pt)
    ensures r == Mapped ==> |old(s.m.free)| == |s.m.free| + 1 + MissingTables(old(s.pt), v / PTES, true)
    ensures r == Mapped ==> TablesAdded(old(s.pt), s.pt, v / PTES)
  {
    hide Valid; hide SameSpace; hide NowMaps; hide Conserved; hide ForeignSame; hide Flat; hide Walk; hide Owns; hide TablesAdded; hide MissingTables;
    ghost var pt0, mem0, free0 := s.pt, s.m.mem, s.m.free;
    TidyRefl(pt0, mem0, free0);
    var p := s.m.Kalloc();
    if p < 0 { return NoMemory; }
    FreeNotOwned(pt0, mem0, free0, p);
    s.m.mem := s.m.mem[p := ZERO];
    ghost var mem1, free1 := s.m.mem, s.m.free;
    FreeWrites(pt0, mem0, free0, mem1);
    TakenValid(pt0, mem1, free0, p);
    r := MapPage(s, v, p, flags);
    if r in {WalkPanic, RemapPanic} { return; }
    assert free1 + {p} == free0;
    ghost var pt2, mem2, free2 := s.pt, s.m.mem, s.m.free;
    if r == Mapped {
      NowMapsAfter(pt0, mem0, mem1, pt2, mem2, v, Mapping(ZERO, flags));
      TidyTrans(pt0, mem0, free0, pt0, mem1, free0, pt2, mem2, free2);
      return;
    }
    StillHeld(pt0, mem1, free1, pt2, mem2, free2, p);
    s.m.Kfree(p);
    TakenGivenBack(pt0, mem0, free0, mem1, p, pt2, mem2, free2, s.m.mem);
  }

  // --------------------------------------------------- what growing costs

  /** The pages taken for page a when the range begins at lo: itself, and each table that
      nothing before it in the range needed. */
  ghost function PageCost(pt: PT, lo: nat, a: nat): nat {
    1 + Count(a / PTES !in pt.e1 && (a == lo || a % PTES == 0)) + Count(a / PTES / PTES !in pt.e2 && (a == lo || a % (PTES * PTES) == 0))
  }

  ghost function GrowCost(pt: PT, lo: nat, hi: nat): nat {
    if hi <= lo then 0 else GrowCost(pt, lo, hi - 1) + PageCost(pt, lo, hi - 1)
  }

  /** The first page from lo on that is blocked, if there is one before hi, and else hi. */
  ghost function FirstBlocked(pt: PT, lo: nat, hi: nat): (v: nat)
    ensures lo <= v && (lo <= hi ==> v <= hi) && (v < hi ==> Blocked(pt, v)) && forall w: nat :: lo <= w < v ==> !Blocked(pt, w)
    decreases if lo < hi then hi - lo else 0
  {
    if lo >= hi || Blocked(pt, lo) then lo else FirstBlocked(pt, lo + 1, hi)
  }

  /** The tables after the pages from lo up to a have been mapped. */
  ghost predicate TablesGrown(pt0: PT, pt: PT, lo: nat, a: nat) {
    && (forall h: nat :: h in pt.e1 <==> h in pt0.e1 || (lo < a && lo / PTES <= h <= (a - 1) / PTES))
    && (forall i: nat :: i in pt.e2 <==> i in pt0.e2 || (lo < a && lo / PTES / PTES <= i <= (a - 1) / PTES / PTES))
  }

  lemma CostHere(pt0: PT, pt: PT, lo: nat, a: nat)
    requires lo <= a && TablesGrown(pt0, pt, lo, a)
    ensures PageCost(pt0, lo, a) == 1 + MissingTables(pt, a / PTES, true)
    ensures GrowCost(pt0, lo, a + 1) == GrowCost(pt0, lo, a) + PageCost(pt0, lo, a)
  {
    Boundaries(a);
    assert lo / PTES <= a / PTES && lo / PTES / PTES <= a / PTES / PTES;
  }

  lemma {:induction false} CostGrows(pt: PT, lo: nat, a: nat, b: nat)
    requires a <= b
    ensures GrowCost(pt, lo, a) <= GrowCost(pt, lo, b)
  {
    hide PageCost;
    if a < b { CostGrows(pt, lo, a, b - 1); }
  }

  lemma Boundaries(a: nat)
    ensures a > 0 ==> (a / PTES <= (a - 1) / PTES <==> a % PTES != 0)
    ensures a > 0 ==> (a / PTES / PTES <= (a - 1) / PTES / PTES <==> a % (PTES * PTES) != 0)
    ensures a > 0 ==> (a - 1) / PTES <= a / PTES <= (a - 1) / PTES + 1
    ensures a > 0 ==> (a - 1) / PTES / PTES <= a / PTES / PTES <= (a - 1) / PTES / PTES + 1
  {
    assert a / PTES / PTES == a / (PTES * PTES);
    assert a > 0 ==> (a - 1) / PTES / PTES == (a - 1) / (PTES * PTES);
  }

  lemma TablesGrownMore(pt0: PT, pt: PT, pt': PT, lo: nat, a: nat)
    requires lo <= a && TablesGrown(pt0, pt, lo, a) && TablesAdded(pt, pt', a / PTES)
    ensures TablesGrown(pt0, pt', lo, a + 1)
  {
    Boundaries(a);
    assert lo / PTES <= a / PTES && lo / PTES / PTES <= a / PTES / PTES;
  }

  lemma NowMapsAfter(pt0: PT, mem0: seq<Page>, mem1: seq<Page>, pt2: PT, mem2: seq<Page>, v: nat, mapping: Mapping)
    requires SameSpace(pt0, mem0, pt0, mem1) && NowMaps(pt0, mem1, pt2, mem2, v, mapping)
    ensures NowMaps(pt0, mem0, pt2, mem2, v, mapping)
  {
    hide Flat;
  }

  ghost predicate Vacant(pt: PT, lo: nat, hi: nat) {
    forall v: nat :: lo <= v < hi ==> Walk(pt, v) == Missing
  }

  /** Growing up to a blocks and unblocks no page from a on. */
  lemma SameAhead(pt0: PT, mem0: seq<Page>, free0: set<nat>, pt: PT, mem: seq<Page>, free: set<nat>, lo: nat, a: nat, flags: Flags)
    requires lo <= a && Valid(pt0, mem0, free0) && Valid(pt, mem, free) && Grown(pt0, mem0, pt, mem, lo, a, flags)
    ensures Blocked(pt, a) <==> Blocked(pt0, a)
  {
    FlatIff(pt0, mem0, free0, a);
    FlatIff(pt, mem, free, a);
  }

  lemma GrownMore(pt0: PT, mem0: seq<Page>, pt1: PT, mem1: seq<Page>, pt2: PT, mem2: seq<Page>, lo: nat, a: nat, flags: Flags)
    requires lo <= a && Grown(pt0, mem0, pt1, mem1, lo, a, flags) && NowMaps(pt1, mem1, pt2, mem2, a, Mapping(ZERO, flags))
    ensures Grown(pt0, mem0, pt2, mem2, lo, a + 1, flags)
  {
    hide Flat;
  }

  /** Taking away what was added leaves what there was. */
  lemma GrownThenUnmapped(pt0: PT, mem0: seq<Page>, free0: set<nat>, pt1: PT, mem1: seq<Page>, pt2: PT, mem2: seq<Page>, lo: nat, hi: nat, flags: Flags)
    requires Valid(pt0, mem0, free0) && Vacant(pt0, lo, hi)
    requires Grown(pt0, mem0, pt1, mem1, lo, hi, flags) && Unmapped(pt1, mem1, pt2, mem2, lo, hi)
    ensures SameSpace(pt0, mem0, pt2, mem2)
  {
    hide Valid; hide Flat; hide Walk;
    forall v: nat ensures Flat(pt2, mem2, v) == Flat(pt0, mem0, v) {
      FlatIff(pt0, mem0, free0, v);
    }
  }

  /** No huge leaf reaches into pages that were vacant. */
  lemma GrownDoesNotCut(pt0: PT, mem0: seq<Page>, free0: set<nat>, pt: PT, lo: nat, hi: nat)
    requires lo < hi && Valid(pt0, mem0, free0) && Vacant(pt0, lo, hi) && FewerHuge(pt0, pt)
    ensures !CutsHuge(pt, lo) && !CutsHuge(pt, hi)
  {
    WalkCases(pt0, mem0, free0, lo);
    WalkCases(pt0, mem0, free0, hi - 1);
    assert hi % PTES != 0 ==> (hi - 1) / PTES == hi / PTES;
  }

  /** uvmdealloc: the pages that only the larger size needs lose their mapping, and they
      are freed; it panics exactly when uvmunmap cannot do that. */
  method Uvmdealloc(s: Space, oldsz: nat, newsz: nat) returns (r: nat, ok: bool)
    requires s.Ok()
    modifies s, s.m
    ensures r == if newsz < oldsz then newsz else oldsz
    ensures s.Ok() && Tidy(old(s.pt), old(s.m.mem), old(s.m.free), s.pt, s.m.mem, s.m.free)
    ensures ok <==> newsz >= oldsz || CanUnmap(old(s.pt), |old(s.m.free)|, PagesUp(newsz), PagesUp(oldsz), true)
    ensures ok ==> Unmapped(old(s.pt), old(s.m.mem), s.pt, s.m.mem, PagesUp(newsz), PagesUp(oldsz)) || newsz >= oldsz
    ensures newsz >= oldsz ==> s.pt == old(s.pt) && s.m.mem == old(s.m.mem) && s.m.free == old(s.m.free)
    ensures ok && old(LeavesBelow(s.pt, PagesUp(oldsz))) ==> LeavesBelow(s.pt, PagesUp(r))
  {
    hide Valid; hide Conserved; hide ForeignSame; hide Flat; hide CanUnmap; hide CutsHuge; hide Unmapped; hide LeavesBelow;
    ghost var pt0, mem0, free0, held := s.pt, s.m.mem, s.m.free, {};
    ok := true;
    TidyRefl(s.pt, s.m.mem, s.m.free);
    if newsz >= oldsz { return oldsz, true; }
    var lo, hi := PagesUp(newsz), PagesUp(oldsz);
    NothingToUnmap(pt0, mem0, |free0|, lo, hi);
    if lo < hi {
      ok, held := Unmap(s, lo, hi, true);
      assert s.m.free + held == s.m.free;
    }
    r := newsz;
    if ok { BelowUnmapped(pt0, mem0, free0, s.pt, s.m.mem, s.m.free, lo, hi); }
  }

  lemma NothingToUnmap(pt: PT, mem: seq<Page>, n: nat, lo: nat, hi: nat)
    ensures lo >= hi ==> CanUnmap(pt, n, lo, hi, true) && Unmapped(pt, mem, pt, mem, lo, hi)
  {
  }

  // ------------------------------------- the leaves stay below the process size

  lemma BelowUnmapped(pt0: PT, mem0: seq<Page>, free0: set<nat>, pt: PT, mem: seq<Page>, free: set<nat>, lo: nat, hi: nat)
    requires Valid(pt0, mem0, free0) && Valid(pt, mem, free) && Unmapped(pt0, mem0, pt, mem, lo, hi)
    ensures LeavesBelow(pt0, hi) ==> LeavesBelow(pt, lo)
  {
    LeavesBelowIff(pt0, mem0, free0, hi);
    LeavesBelowIff(pt, mem, free, lo);
    hide LeavesBelow; hide Valid; hide Flat;
  }

  lemma BelowGrown(pt0: PT, mem0: seq<Page>, free0: set<nat>, pt: PT, mem: seq<Page>, free: set<nat>, lo: nat, hi: nat, flags: Flags)
    requires lo <= hi && Valid(pt0, mem0, free0) && Valid(pt, mem, free) && Grown(pt0, mem0, pt, mem, lo, hi, flags)
    ensures LeavesBelow(pt0, lo) ==> LeavesBelow(pt, hi)
  {
    LeavesBelowIff(pt0, mem0, free0, lo);
    LeavesBelowIff(pt, mem, free, hi);
    hide LeavesBelow; hide Valid; hide Flat;
  }

  /** What leaves the flat space alone, as vm_try_collapse and split_huge_page do, leaves
      the bound alone. */
  lemma BelowSame(pt0: PT, mem0: seq<Page>, free0: set<nat>, pt: PT, mem: seq<Page>, free: set<nat>, n: nat)
    requires Valid(pt0, mem0, free0) && Valid(pt, mem, free) && SameSpace(pt0, mem0, pt, mem)
    ensures LeavesBelow(pt0, n) <==> LeavesBelow(pt, n)
  {
    LeavesBelowIff(pt0, mem0, free0, n);
    LeavesBelowIff(pt, mem, free, n);
    hide LeavesBelow; hide Valid; hide Flat;
  }

  /** A process has nothing mapped beyond its size, so there is room to grow. */
  lemma BelowIsVacant(pt: PT, mem: seq<Page>, free: set<nat>, lo: nat, hi: nat)
    requires Valid(pt, mem, free) && LeavesBelow(pt, lo)
    ensures Vacant(pt, lo, hi)
  {
    LeavesBelowIff(pt, mem, free, lo);
    hide LeavesBelow; hide Valid; hide Flat; hide Walk;
    forall v: nat | lo <= v < hi ensures Walk(pt, v) == Missing {
      FlatIff(pt, mem, free, v);
    }
  }

  lemma RoundUpExact(a: nat)
    requires a <= MAXPAGES
    ensures PagesUp(a * PGSIZE) == a
  {
    RoundsUp(a * PGSIZE);
  }

  /** uvmalloc's way out: what was added up to page a goes again. */
  method Undo(s: Space, lo: nat, a: nat, flags: Flags, ghost pt0: PT, ghost mem0: seq<Page>, ghost free0: set<nat>)
    requires s.Ok() && lo <= a && (a == lo || a <= MAXPAGES) && Valid(pt0, mem0, free0) && Vacant(pt0, lo, a) && FewerHuge(pt0, s.pt)
    requires Grown(pt0, mem0, s.pt, s.m.mem, lo, a, flags) && Tidy(pt0, mem0, free0, s.pt, s.m.mem, s.m.free)
    modifies s, s.m
    ensures s.Ok() && Tidy(pt0, mem0, free0, s.pt, s.m.mem, s.m.free) && SameSpace(pt0, mem0, s.pt, s.m.mem)
  {
    hide Valid; hide Tidy; hide Flat; hide Vacant; hide FewerHuge; hide CutsHuge; hide PagesUp;
    ghost var pt2, mem2, free2 := s.pt, s.m.mem, s.m.free;
    if lo < a {
      GrownDoesNotCut(pt0, mem0, free0, pt2, lo, a);
      RoundUpExact(a);
      RoundUpExact(lo);
      EnoughToUnmap(pt2, |free2|, lo, a, true);
    }
    var back, ok;
    back, ok := Uvmdealloc(s, a * PGSIZE, lo * PGSIZE);
    TidyTrans(pt0, mem0, free0, pt2, mem2, free2, s.pt, s.m.mem, s.m.free);
    if lo < a {
      GrownThenUnmapped(pt0, mem0, free0, pt2, mem2, s.pt, s.m.mem, lo, a, flags);
    }
  }

  lemma GrownNothing(pt: PT, mem: seq<Page>, lo: nat, flags: Flags)
    ensures Grown(pt, mem, pt, mem, lo, lo, flags) && FewerHuge(pt, pt) && TablesGrown(pt, pt, lo, lo) && GrowCost(pt, lo, lo) == 0
  {
  }

  lemma GrownSame(pt0: PT, mem0: seq<Page>, pt1: PT, mem1: seq<Page>, pt2: PT, mem2: seq<Page>, lo: nat, a: nat, flags: Flags)
    requires Grown(pt0, mem0, pt1, mem1, lo, a, flags) && SameSpace(pt1, mem1, pt2, mem2)
    ensures Grown(pt0, mem0, pt2, mem2, lo, a, flags)
  {
    hide Flat;
  }

  lemma VacantBefore(pt: PT, lo: nat, a: nat, hi: nat)
    requires a <= FirstBlocked(pt, lo, hi)
    ensures Vacant(pt, lo, a) && (lo < a ==> a <= MAXPAGES)
  {
    assert lo < a ==> !Blocked(pt, a - 1);
    forall v: nat | lo <= v < a ensures Walk(pt, v) == Missing {
      assert !Blocked(pt, v);
    }
  }

  lemma PagesCover(oldsz: nat, newsz: nat, a: nat)
    requires oldsz <= newsz
    ensures PagesUp(oldsz) <= Pages(newsz)
    ensures a <= Pages(newsz) ==> (a * PGSIZE < newsz <==> a < Pages(newsz))
  {
  }

  /** uvmalloc succeeds: no page of the range is blocked, and the pages and the tables they
      lack can be had. */
  ghost predicate CanGrow(pt: PT, n: nat, lo: nat, hi: nat) {
    FirstBlocked(pt, lo, hi) >= hi && n >= GrowCost(pt, lo, hi)
  }

  /** uvmalloc panics: memory lasts up to a blocked page, with one page for that too. */
  ghost predicate GrowPanics(pt: PT, n: nat, lo: nat, hi: nat) {
    FirstBlocked(pt, lo, hi) < hi && n > GrowCost(pt, lo, FirstBlocked(pt, lo, hi))
  }

  /** What a turn at page a, with n of n0 pages left and m tables missing, says about the
      whole range. */
  lemma TurnDecides(pt0: PT, n0: nat, n: nat, m: nat, lo: nat, a: nat, hi: nat)
    requires lo <= a < hi && a <= FirstBlocked(pt0, lo, hi) && n0 == n + GrowCost(pt0, lo, a)
    requires GrowCost(pt0, lo, a + 1) == GrowCost(pt0, lo, a) + 1 + m
    ensures Blocked(pt0, a) <==> a == FirstBlocked(pt0, lo, hi)
    ensures if Blocked(pt0, a) then GrowPanics(pt0, n0, lo, hi) <==> n > 0 else n <= m ==> !GrowPanics(pt0, n0, lo, hi)
    ensures Blocked(pt0, a) || n <= m ==> !CanGrow(pt0, n0, lo, hi)
  {
    hide GrowCost; hide Blocked;
    var stop := FirstBlocked(pt0, lo, hi);
    assert a < stop ==> !Blocked(pt0, a);
    hide FirstBlocked;
    if a < stop {
      CostGrows(pt0, lo, a + 1, stop);
      CostGrows(pt0, lo, a + 1, hi);
    }
  }

  /** uvmalloc: zeroed pages for the whole new range, exactly if CanGrow; a panic exactly if
      GrowPanics; and otherwise, out of memory, the space as it was and result 0. */
  method Uvmalloc(s: Space, oldsz: nat, newsz: nat, flags: Flags) returns (r: nat, out: MapResult)
    requires s.Ok() && Grants(flags)
    modifies s, s.m
    ensures newsz < oldsz ==> out == Mapped && r == oldsz && s.pt == old(s.pt) && s.m.mem == old(s.m.mem) && s.m.free == old(s.m.free)
    ensures oldsz <= newsz ==> (out == Mapped <==> CanGrow(old(s.pt), |old(s.m.free)|, PagesUp(oldsz), Pages(newsz)))
    ensures oldsz <= newsz ==> (out in {RemapPanic, WalkPanic} <==> GrowPanics(old(s.pt), |old(s.m.free)|, PagesUp(oldsz), Pages(newsz)))
    ensures out in {Mapped, NoMemory} ==> s.Ok() && Tidy(old(s.pt), old(s.m.mem), old(s.m.free), s.pt, s.m.mem, s.m.free)
    ensures oldsz <= newsz && out in {Mapped, NoMemory} ==> r == if out == Mapped then newsz else 0
    ensures oldsz <= newsz && out == Mapped ==> Grown(old(s.pt), old(s.m.mem), s.pt, s.m.mem, PagesUp(oldsz), Pages(newsz), flags)
    ensures oldsz <= newsz && out == Mapped ==> |old(s.m.free)| == |s.m.free| + GrowCost(old(s.pt), PagesUp(oldsz), Pages(newsz))
    ensures oldsz <= newsz && out == Mapped && old(LeavesBelow(s.pt, PagesUp(oldsz))) ==> LeavesBelow(s.pt, Pages(newsz))
    ensures out == Mapped ==> FewerHuge(old(s.pt), s.pt)
    ensures out == NoMemory ==> SameSpace(old(s.pt), old(s.m.mem), s.pt, s.m.mem)
  {
    hide Valid; hide Tidy; hide Flat; hide SameSpace; hide Grown; hide Vacant; hide FewerHuge; hide Unmapped; hide Walk; hide LeavesBelow;
    hide PagesUp; hide Pages; hide GrowCost; hide TablesGrown; hide TablesAdded; hide MissingTables; hide Blocked; hide CanGrow; hide GrowPanics; hide NowMaps; hide PageCost;
    ghost var pt0, mem0, free0 := s.pt, s.m.mem, s.m.free;
    TidyRefl(pt0, mem0, free0);
    var lo := PagesUp(oldsz);
    GrownNothing(pt0, mem0, lo, flags);
    if newsz < oldsz { return oldsz, Mapped; }
    ghost var hi := Pages(newsz);
    PagesCover(oldsz, newsz, lo);
    var a := lo;
    while a * PGSIZE < newsz
      invariant lo <= a <= hi && a <= FirstBlocked(pt0, lo, hi) && s.Ok() && Tidy(pt0, mem0, free0, s.pt, s.m.mem, s.m.free)
      invariant Grown(pt0, mem0, s.pt, s.m.mem, lo, a, flags) && FewerHuge(pt0, s.pt) && TablesGrown(pt0, s.pt, lo, a)
      invariant |free0| == |s.m.free| + GrowCost(pt0, lo, a)
    {
      ghost var pt1, mem1, free1 := s.pt, s.m.mem, s.m.free;
      PagesCover(oldsz, newsz, a);
      SameAhead(pt0, mem0, free0, pt1, mem1, free1, lo, a, flags);
      CostHere(pt0, pt1, lo, a);
      TurnDecides(pt0, |free0|, |free1|, MissingTables(pt1, a / PTES, true), lo, a, hi);
      out := GrowOne(s, a, flags);
      if out in {RemapPanic, WalkPanic} { return 0, out; }
      TidyTrans(pt0, mem0, free0, pt1, mem1, free1, s.pt, s.m.mem, s.m.free);
      FewerTwice(pt0, pt1, s.pt);
      if out == NoMemory {
        GrownSame(pt0, mem0, pt1, mem1, s.pt, s.m.mem, lo, a, flags);
        VacantBefore(pt0, lo, a, hi);
        Undo(s, lo, a, flags, pt0, mem0, free0);
        return 0, out;
      }
      GrownMore(pt0, mem0, pt1, mem1, s.pt, s.m.mem, lo, a, flags);
      TablesGrownMore(pt0, pt1, s.pt, lo, a);
      a := a + 1;
    }
    PagesCover(oldsz, newsz, a);
    AllGrown(pt0, |free0|, lo, hi);
    BelowGrown(pt0, mem0, free0, s.pt, s.m.mem, s.m.free, lo, a, flags);
    r, out := newsz, Mapped;
  }

  lemma AllGrown(pt: PT, n: nat, lo: nat, hi: nat)
    requires lo <= hi <= FirstBlocked(pt, lo, hi) && n >= GrowCost(pt, lo, hi)
    ensures CanGrow(pt, n, lo, hi) && !GrowPanics(pt, n, lo, hi)
  {
  }

  /** Growing and then shrinking back changes nothing that the process can see. */
  method GrowThenShrink(s: Space, oldsz: nat, newsz: nat, flags: Flags) returns (out: MapResult)
    requires s.Ok() && Grants(flags) && oldsz <= newsz < UINT64
    modifies s, s.m
    ensures out in {Mapped, NoMemory} ==> s.Ok() && SameSpace(old(s.pt), old(s.m.mem), s.pt, s.m.mem)
  {
    hide Valid; hide Tidy; hide Flat; hide Vacant; hide CutsHuge; hide Walk; hide GrowCost; hide GrowPanics; hide PagesUp; hide Pages;
    ghost var pt0, mem0, free0 := s.pt, s.m.mem, s.m.free;
    ghost var lo, hi := PagesUp(oldsz), Pages(newsz);
    PagesCover(oldsz, newsz, lo);
    var r, ok;
    r, out := Uvmalloc(s, oldsz, newsz, flags);
    if out == Mapped {
      ghost var pt1, mem1 := s.pt, s.m.mem;
      VacantBefore(pt0, lo, hi, hi);
      RoundsUp(newsz);
      RoundsUp(oldsz);
      if lo < hi {
        GrownDoesNotCut(pt0, mem0, free0, pt1, lo, hi);
        EnoughToUnmap(pt1, |s.m.free|, lo, hi, true);
      }
      r, ok := Uvmdealloc(s, newsz, oldsz);
      if lo < hi { GrownThenUnmapped(pt0, mem0, free0, pt1, mem1, s.pt, s.m.mem, lo, hi, flags); }
    }
  }
}
