/** kernel/vm.c: walk_to_level with allocation and mappages, by virtual page number. */
module UserMap {
  import opened Wrappers
  import opened PageTable
  import opened AddressSpace
  import opened PageSupply

  /** An operation that loses no page and touches no other process's memory. */
  ghost predicate Tidy(pt: PT, mem: seq<Page>, free: set<nat>, pt': PT, mem': seq<Page>, free': set<nat>) {
    Conserved(pt, free, pt', free') && ForeignSame(pt, free, mem, mem')
  }

  lemma TidyRefl(pt: PT, mem: seq<Page>, free: set<nat>)
    ensures Tidy(pt, mem, free, pt, mem, free) && SameSpace(pt, mem, pt, mem)
  {
  }

  lemma TidyTrans(a: PT, am: seq<Page>, af: set<nat>, b: PT, bm: seq<Page>, bf: set<nat>, c: PT, cm: seq<Page>, cf: set<nat>)
    requires Tidy(a, am, af, b, bm, bf) && Tidy(b, bm, bf, c, cm, cf)
    ensures Tidy(a, am, af, c, cm, cf)
  {
  }

  /** A zeroed page for a table.  It is still free as far as the table is concerned. */
  method AllocTable(s: Space) returns (t: int)
    requires s.Ok()
    modifies s.m
    ensures s.m.Ok() && (t < 0 <==> old(s.m.free) == {})
    ensures t < 0 ==> s.m.free == old(s.m.free) && s.m.mem == old(s.m.mem)
    ensures t >= 0 ==> t in old(s.m.free) && s.m.free == old(s.m.free) - {t} && |s.m.free| == |old(s.m.free)| - 1
    ensures Valid(s.pt, s.m.mem, old(s.m.free)) && SameSpace(s.pt, old(s.m.mem), s.pt, s.m.mem)
    ensures ForeignSame(s.pt, old(s.m.free), old(s.m.mem), s.m.mem) && |s.m.mem| == |old(s.m.mem)|
    ensures Drawn(|s.m.mem|, old(s.m.free), s.m.free)
  {
    hide Valid; hide SameSpace; hide ForeignSame; hide Drawn; hide SparesRuns;
    t := s.m.Kalloc();
    if t < 0 { DrawnNothing(|s.m.mem|, s.m.free); } else { DrawnOne(|s.m.mem|, old(s.m.free), t); }
    FreeWrites(s.pt, old(s.m.mem), old(s.m.free), s.m.mem);
  }

  /** The tables that a walk to region h (and, for a small page, into it) still lacks. */
  function MissingTables(pt: PT, h: nat, small: bool): nat {
    Count(h / PTES !in pt.e2) + Count(small && h !in pt.e1)
  }

  function Count(b: bool): nat {
    if b then 1 else 0
  }

  /** The level-1 table on the way to region h, if it is missing. */
  method EnsureLevel1(s: Space, h: nat) returns (ok: bool)
    requires s.Ok() && h / PTES < ROOTS
    modifies s, s.m
    ensures s.Ok() && Tidy(old(s.pt), old(s.m.mem), old(s.m.free), s.pt, s.m.mem, s.m.free)
    ensures SameSpace(old(s.pt), old(s.m.mem), s.pt, s.m.mem)
    ensures s.pt.e0 == old(s.pt.e0) && s.pt.e1 == old(s.pt.e1) && s.m.free <= old(s.m.free)
    ensures ok <==> |old(s.m.free)| >= Count(h / PTES !in old(s.pt.e2))
    ensures !ok ==> s.m.free == old(s.m.free) && h / PTES !in old(s.pt.e2)
    ensures ok ==> |old(s.m.free)| == |s.m.free| + Count(h / PTES !in old(s.pt.e2))
    ensures ok ==> h / PTES in s.pt.e2 && s.pt.e2 == old(s.pt.e2)[h / PTES := s.pt.e2[h / PTES]]
    ensures |s.m.mem| == |old(s.m.mem)| && Drawn(|s.m.mem|, old(s.m.free), s.m.free)
  {
    hide Valid; hide SameSpace; hide Conserved; hide ForeignSame; hide Drawn;
    ghost var pt0, mem0, free0 := s.pt, s.m.mem, s.m.free;
    TidyRefl(pt0, mem0, free0);
    DrawnNothing(|mem0|, free0);
    if h / PTES in s.pt.e2 { return true; }
    var t := AllocTable(s);
    if t < 0 { return false; }
    AddLevel1(s.pt, s.m.mem, free0, h / PTES, t);
    s.pt := s.pt.(e2 := s.pt.e2[h / PTES := Table(t)]);
    SameSpaceTrans(pt0, mem0, pt0, s.m.mem, s.pt, s.m.mem);
    ok := true;
  }

  /** The level-0 table of region h, if it is missing. */
  method EnsureLevel0(s: Space, h: nat) returns (ok: bool)
    requires s.Ok() && h / PTES in s.pt.e2
    modifies s, s.m
    ensures s.Ok() && Tidy(old(s.pt), old(s.m.mem), old(s.m.free), s.pt, s.m.mem, s.m.free)
    ensures SameSpace(old(s.pt), old(s.m.mem), s.pt, s.m.mem)
    ensures s.pt.e0 == old(s.pt.e0) && s.pt.e2 == old(s.pt.e2) && s.m.free <= old(s.m.free)
    ensures ok <==> |old(s.m.free)| >= Count(h !in old(s.pt.e1))
    ensures !ok ==> s.m.free == old(s.m.free) && s.pt.e1 == old(s.pt.e1) && h !in old(s.pt.e1)
    ensures ok ==> |old(s.m.free)| == |s.m.free| + Count(h !in old(s.pt.e1))
    ensures ok ==> h in s.pt.e1 && s.pt.e1 == old(s.pt.e1)[h := s.pt.e1[h]] && (if h in old(s.pt.e1) then s.pt.e1 == old(s.pt.e1) else s.pt.e1[h].Table?)
    ensures |s.m.mem| == |old(s.m.mem)| && Drawn(|s.m.mem|, old(s.m.free), s.m.free)
  {
    hide Valid; hide SameSpace; hide Conserved; hide ForeignSame; hide Drawn;
    ghost var pt0, mem0, free0 := s.pt, s.m.mem, s.m.free;
    TidyRefl(pt0, mem0, free0);
    DrawnNothing(|mem0|, free0);
    if h in s.pt.e1 { return true; }
    var t := AllocTable(s);
    if t < 0 { return false; }
    AddLevel0(s.pt, s.m.mem, free0, h, t);
    s.pt := s.pt.(e1 := s.pt.e1[h := Table(t)]);
    SameSpaceTrans(pt0, mem0, pt0, s.m.mem, s.pt, s.m.mem);
    ok := true;
  }

  /** The part of walk_to_level that creates missing tables on the way to region h (and,
      for a small page, the table of the region itself): it succeeds exactly if there are
      pages for all of them. */
  method EnsureTables(s: Space, h: nat, small: bool) returns (ok: bool)
    requires s.Ok() && h / PTES < ROOTS
    modifies s, s.m
    ensures s.Ok() && Tidy(old(s.pt), old(s.m.mem), old(s.m.free), s.pt, s.m.mem, s.m.free)
    ensures SameSpace(old(s.pt), old(s.m.mem), s.pt, s.m.mem)
    ensures s.pt.e0 == old(s.pt.e0)
    ensures s.pt.e1 == old(s.pt.e1) || (small && h !in old(s.pt.e1) && h in s.pt.e1 && s.pt.e1[h].Table? && s.pt.e1 == old(s.pt.e1)[h := s.pt.e1[h]])
    ensures ok ==> h / PTES in s.pt.e2 && (small ==> h in s.pt.e1)
    ensures s.m.free <= old(s.m.free) && (ok <==> |old(s.m.free)| >= MissingTables(old(s.pt), h, small))
    ensures ok ==> |old(s.m.free)| == |s.m.free| + MissingTables(old(s.pt), h, small)
    ensures ok ==> s.pt.e2 == old(s.pt.e2)[h / PTES := s.pt.e2[h / PTES]]
    ensures |s.m.mem| == |old(s.m.mem)| && Drawn(|s.m.mem|, old(s.m.free), s.m.free)
  {
    hide Valid; hide SameSpace; hide Tidy; hide Drawn;
    ghost var pt0, mem0, free0 := s.pt, s.m.mem, s.m.free;
    RegionHasLevel1(pt0, mem0, free0, h);
    ok := EnsureLevel1(s, h);
    if !ok || !small { return; }
    ghost var pt1, mem1, free1 := s.pt, s.m.mem, s.m.free;
    ok := EnsureLevel0(s, h);
    SameSpaceTrans(pt0, mem0, pt1, mem1, s.pt, s.m.mem);
    TidyTrans(pt0, mem0, free0, pt1, mem1, free1, s.pt, s.m.mem, s.m.free);
    DrawnTwice(|mem0|, free0, free1, s.m.free);
  }

  datatype MapResult = Mapped | NoMemory | RemapPanic | WalkPanic

  /** The flat space after mapping v to a page. */
  ghost predicate NowMaps(pt: PT, mem: seq<Page>, pt': PT, mem': seq<Page>, v: nat, mapping: Mapping) {
    forall w: nat :: Flat(pt', mem', w) == if w == v then Some(mapping) else Flat(pt, mem, w)
  }

  /** Region h has its tables, and no other region has got any. */
  ghost predicate TablesAdded(pt: PT, pt': PT, h: nat) {
    && (forall k :: k in pt'.e1 <==> k in pt.e1 || k == h)
    && (forall i :: i in pt'.e2 <==> i in pt.e2 || i == h / PTES)
  }

  /** mappages for one page p that the caller holds: it panics exactly beyond MAXVA and
      on a mapped page, fails when a table is needed and no page is left, and otherwise
      changes exactly what virtual page v shows. */
  method MapPage(s: Space, v: nat, p: nat, flags: Flags) returns (r: MapResult)
    requires s.Ok() && p < |s.m.mem| && p !in s.m.free && !Owns(s.pt, p) && Grants(flags)
    modifies s, s.m
    ensures s.Ok() && |s.m.mem| == |old(s.m.mem)| && s.m.mem[p] == old(s.m.mem)[p]
    ensures r == Mapped ==> Tidy(old(s.pt), old(s.m.mem), old(s.m.free) + {p}, s.pt, s.m.mem, s.m.free)
    ensures r != Mapped ==> Tidy(old(s.pt), old(s.m.mem), old(s.m.free), s.pt, s.m.mem, s.m.free)
    ensures r == Mapped ==> old(Walk(s.pt, v)) == Missing && NowMaps(old(s.pt), old(s.m.mem), s.pt, s.m.mem, v, Mapping(s.m.mem[p], flags))
    ensures r != Mapped ==> SameSpace(old(s.pt), old(s.m.mem), s.pt, s.m.mem)
    ensures r == RemapPanic <==> old(Walk(s.pt, v)) != Missing
    ensures s.pt.e1 == old(s.pt.e1) || (v / PTES !in old(s.pt.e1) && v / PTES in s.pt.e1 && s.pt.e1[v / PTES].Table? && s.pt.e1 == old(s.pt.e1)[v / PTES := s.pt.e1[v / PTES]])
    ensures s.m.free <= old(s.m.free) && (r == WalkPanic <==> v >= MAXPAGES)
    ensures r == NoMemory ==> |old(s.m.free)| < MissingTables(old(s.pt), v / PTES, true)
    ensures r == Mapped ==> |old(s.m.free)| == |s.m.free| + MissingTables(old(s.pt), v / PTES, true)
    ensures r == Mapped ==> TablesAdded(old(s.pt), s.pt, v / PTES)
    ensures Drawn(|s.m.mem|, old(s.m.free), s.m.free)
  {
    hide Valid; hide SameSpace; hide Conserved; hide NowMaps; hide Owns; hide Drawn;
    ghost var pt0, mem0, free0 := s.pt, s.m.mem, s.m.free;
    if v >= MAXPAGES {
      DrawnNothing(|mem0|, free0);
      TidyRefl(pt0, mem0, free0);
      BeyondMaxva(pt0, mem0, free0, v);
      return WalkPanic;
    }
    var ok := EnsureTables(s, v / PTES, true);
    ghost var pt1, mem1, free1 := s.pt, s.m.mem, s.m.free;
    StillHeld(pt0, mem0, free0, pt1, mem1, free1, p);
    if !ok { return NoMemory; }
    WalkSame(pt0, mem0, free0, pt1, mem1, free1, v);
    if s.pt.e1[v / PTES].Leaf? || v in s.pt.e0 { return RemapPanic; }
    Reserve(pt1, mem1, free1, {p});
    AddSmall(pt1, mem1, free1 + {p}, v, p, flags);
    s.pt := s.pt.(e0 := s.pt.e0[v := Leaf(p, flags)]);
    assert free1 + {p} - {p} == free1;
    MapDone(pt0, mem0, free0, pt1, mem1, free1, s.pt, v, p, flags);
    r := Mapped;
  }

  /** Nothing is mapped beyond MAXVA. */
  lemma BeyondMaxva(pt: PT, mem: seq<Page>, free: set<nat>, v: nat)
    requires Valid(pt, mem, free) && v >= MAXPAGES
    ensures Walk(pt, v) == Missing && v / PTES !in pt.e1 && v !in pt.e0
  {
  }

  lemma StillHeld(pt: PT, mem: seq<Page>, free: set<nat>, pt': PT, mem': seq<Page>, free': set<nat>, p: nat)
    requires Tidy(pt, mem, free, pt', mem', free') && p < |mem| && p !in free && !Owns(pt, p)
    ensures |mem'| == |mem| && p !in free' && !Owns(pt', p) && mem'[p] == mem[p]
  {
  }

  /** With the tables in place, the walk has the outcome it had before. */
  lemma WalkSame(pt: PT, mem: seq<Page>, free: set<nat>, pt': PT, mem': seq<Page>, free': set<nat>, v: nat)
    requires Valid(pt, mem, free) && Valid(pt', mem', free') && pt'.e0 == pt.e0 && v / PTES in pt'.e1
    requires pt'.e1 == pt.e1 || (v / PTES !in pt.e1 && pt'.e1[v / PTES].Table?)
    ensures pt'.e1[v / PTES].Leaf? || v in pt'.e0 <==> Walk(pt, v) != Missing
    ensures v / PTES in pt'.e1
  {
  }

  lemma MapDone(pt: PT, mem: seq<Page>, free: set<nat>, pt1: PT, mem1: seq<Page>, free1: set<nat>, pt2: PT, v: nat, p: nat, flags: Flags)
    requires Tidy(pt, mem, free, pt1, mem1, free1) && SameSpace(pt, mem, pt1, mem1)
    requires p < |mem1| && Conserved(pt1, free1 + {p}, pt2, free1)
    requires forall w: nat :: Flat(pt2, mem1, w) == if w == v then Some(Mapping(mem1[p], flags)) else Flat(pt1, mem1, w)
    ensures Tidy(pt, mem, free + {p}, pt2, mem1, free1)
    ensures NowMaps(pt, mem, pt2, mem1, v, Mapping(mem1[p], flags))
  {
    hide Flat;
    forall q: nat ensures q in free1 || Owns(pt2, q) <==> q in free + {p} || Owns(pt, q) {
      hide Owns;
      assert q in free1 + {p} || Owns(pt1, q) <==> q in free1 || Owns(pt2, q);
    }
  }

  /** The flat space after mapping region h to a huge page. */
  ghost predicate NowMapsHuge(pt: PT, mem: seq<Page>, pt': PT, mem': seq<Page>, h: nat, first: nat, flags: Flags) {
    && first + PTES <= |mem'|
    && forall w: nat :: Flat(pt', mem', w) == if w / PTES == h then Some(Mapping(mem'[first + w % PTES], flags)) else Flat(pt, mem, w)
  }

  /** mappages_flags with MAP_HUGE, for one huge page the caller holds; an unaligned one
      is its "huge align" panic. */
  method MapHuge(s: Space, h: nat, first: nat, flags: Flags) returns (r: MapResult)
    requires s.Ok() && first % PTES == 0 && first + PTES <= |s.m.mem| && Grants(flags)
    requires forall p: nat :: p in HugeRun(first) ==> p !in s.m.free && !Owns(s.pt, p)
    modifies s, s.m
    ensures s.Ok() && |s.m.mem| == |old(s.m.mem)| && forall p: nat :: p in HugeRun(first) ==> p < |s.m.mem| && s.m.mem[p] == old(s.m.mem)[p]
    ensures r == Mapped ==> Tidy(old(s.pt), old(s.m.mem), old(s.m.free) + HugeRun(first), s.pt, s.m.mem, s.m.free)
    ensures r != Mapped ==> Tidy(old(s.pt), old(s.m.mem), old(s.m.free), s.pt, s.m.mem, s.m.free) && SameSpace(old(s.pt), old(s.m.mem), s.pt, s.m.mem)
    ensures r == Mapped ==> h !in old(s.pt.e1) && NowMapsHuge(old(s.pt), old(s.m.mem), s.pt, s.m.mem, h, first, flags)
    ensures r == RemapPanic <==> h in old(s.pt.e1)
    ensures s.pt.e1 == if r == Mapped then old(s.pt.e1)[h := Leaf(first, flags)] else old(s.pt.e1)
    ensures s.pt.e0 == old(s.pt.e0)
    ensures r == NoMemory ==> |old(s.m.free)| < MissingTables(old(s.pt), h, false)
    ensures r == Mapped ==> |old(s.m.free)| == |s.m.free| + MissingTables(old(s.pt), h, false)
    ensures r == Mapped ==> TablesAdded(old(s.pt), s.pt, h)
    ensures s.m.free <= old(s.m.free) && (r == WalkPanic <==> h * PTES >= MAXPAGES)
    ensures Drawn(|s.m.mem|, old(s.m.free), s.m.free)
  {
    hide Valid; hide SameSpace; hide Conserved; hide NowMapsHuge; hide Owns; hide HugeRun; hide Drawn;
    ghost var pt0, mem0, free0, run := s.pt, s.m.mem, s.m.free, HugeRun(first);
    RegionHasLevel1(s.pt, s.m.mem, s.m.free, h);
    RunInMemory(first, |mem0|);
    if h * PTES >= MAXPAGES {
      DrawnNothing(|mem0|, free0);
      TidyRefl(pt0, mem0, free0);
      BeyondMaxva(pt0, mem0, free0, h * PTES);
      return WalkPanic;
    }
    var ok := EnsureTables(s, h, false);
    ghost var pt1, mem1, free1 := s.pt, s.m.mem, s.m.free;
    forall p: nat | p in run ensures p < |mem1| && p !in free1 && !Owns(pt1, p) && mem1[p] == mem0[p] {
      StillHeld(pt0, mem0, free0, pt1, mem1, free1, p);
    }
    if !ok { return NoMemory; }
    if h in s.pt.e1 { return RemapPanic; }
    Reserve(pt1, mem1, free1, run);
    AddHuge(pt1, mem1, free1 + run, h, first, flags);
    s.pt := s.pt.(e1 := s.pt.e1[h := Leaf(first, flags)]);
    assert free1 + run - run == free1;
    MapHugeDone(pt0, mem0, free0, pt1, mem1, free1, s.pt, h, first, flags);
    r := Mapped;
  }

  lemma RunInMemory(first: nat, n: nat)
    requires first + PTES <= n
    ensures forall p: nat :: p in HugeRun(first) ==> p < n
  {
  }

  lemma RegionHasLevel1(pt: PT, mem: seq<Page>, free: set<nat>, h: nat)
    requires Valid(pt, mem, free)
    ensures h in pt.e1 ==> h / PTES in pt.e2
  {
  }

  lemma MapHugeDone(pt: PT, mem: seq<Page>, free: set<nat>, pt1: PT, mem1: seq<Page>, free1: set<nat>, pt2: PT, h: nat, first: nat, flags: Flags)
    requires Tidy(pt, mem, free, pt1, mem1, free1) && SameSpace(pt, mem, pt1, mem1)
    requires first + PTES <= |mem1| && Conserved(pt1, free1 + HugeRun(first), pt2, free1)
    requires forall w: nat :: Flat(pt2, mem1, w) == if w / PTES == h then Some(Mapping(mem1[first + w % PTES], flags)) else Flat(pt1, mem1, w)
    ensures Tidy(pt, mem, free + HugeRun(first), pt2, mem1, free1)
    ensures NowMapsHuge(pt, mem, pt2, mem1, h, first, flags)
  {
    hide Flat;
    var run := HugeRun(first);
    hide HugeRun;
    forall q: nat ensures q in free1 || Owns(pt2, q) <==> q in free + run || Owns(pt, q) {
      hide Owns;
      assert q in free1 + run || Owns(pt1, q) <==> q in free1 || Owns(pt2, q);
    }
  }

  lemma FreeNotOwned(pt: PT, mem: seq<Page>, free: set<nat>, p: nat)
    requires Valid(pt, mem, free) && p in free
    ensures !Owns(pt, p)
  {
  }

  lemma TakenValid(pt: PT, mem: seq<Page>, free: set<nat>, p: nat)
    requires Valid(pt, mem, free)
    ensures Valid(pt, mem, free - {p})
  {
  }
}
