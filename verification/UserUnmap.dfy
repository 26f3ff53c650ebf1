/** kernel/vm.c: uvmunmap, by virtual page number. */
module UserUnmap {
  import opened Wrappers
  import opened PageTable
  import opened AddressSpace
  import opened UserMap

  /** Exactly the virtual pages from lo up to hi have lost their mapping. */
  ghost predicate Unmapped(pt: PT, mem: seq<Page>, pt': PT, mem': seq<Page>, lo: nat, hi: nat) {
    forall w: nat :: Flat(pt', mem', w) == if lo <= w < hi then None else Flat(pt, mem, w)
  }

  /** Huge leaves never appear, they only go away. */
  ghost predicate FewerHuge(pt: PT, pt': PT) {
    forall h: nat :: h in pt'.e1 && pt'.e1[h].Leaf? ==> h in pt.e1 && pt'.e1[h] == pt.e1[h]
  }

  ghost predicate IsHuge(pt: PT, v: nat) {
    v / PTES in pt.e1 && pt.e1[v / PTES].Leaf?
  }

  /** A huge leaf that the boundary at page b cuts in two. */
  ghost predicate CutsHuge(pt: PT, b: nat) {
    b % PTES != 0 && IsHuge(pt, b)
  }

  /** The number of mapped pages from lo up to hi. */
  ghost function MappedPages(pt: PT, lo: nat, hi: nat): nat {
    if hi <= lo then 0 else MappedPages(pt, lo, hi - 1) + if Walk(pt, hi - 1) == Missing then 0 else 1
  }

  // ------------------------------------------------ when uvmunmap can succeed

  /** The end of the range cuts a huge leaf that its start does not cut as well. */
  ghost predicate CutsAnother(pt: PT, lo: nat, hi: nat) {
    CutsHuge(pt, hi) && !(CutsHuge(pt, lo) && lo / PTES == hi / PTES)
  }

  /** The pages that the allocator gets back for the range from lo to hi. */
  ghost function Gained(pt: PT, lo: nat, hi: nat, doFree: bool): nat {
    if doFree then MappedPages(pt, lo, hi) else 0
  }

  /** What uvmunmap needs, with n pages free: every page below MAXVA; for the leaf that lo
      cuts, the 514 pages of a split; and as many for another leaf that hi cuts, once the
      pages before that leaf are freed and the first split has cost its page. */
  ghost predicate CanUnmap(pt: PT, n: nat, lo: nat, hi: nat, doFree: bool) {
    lo < hi ==>
      && hi <= MAXPAGES
      && (CutsHuge(pt, lo) ==> n >= PTES + 2)
      && (CutsAnother(pt, lo, hi) ==> n + Gained(pt, lo, hi / PTES * PTES, doFree) >= PTES + 2 + Count(CutsHuge(pt, lo)))
  }

  /** With 515 pages free uvmunmap always succeeds, and so it does without a cut. */
  lemma EnoughToUnmap(pt: PT, n: nat, lo: nat, hi: nat, doFree: bool)
    requires hi <= MAXPAGES
    requires n >= PTES + 3 || (!CutsHuge(pt, lo) && !CutsHuge(pt, hi))
    ensures CanUnmap(pt, n, lo, hi, doFree)
  {
  }

  /** One huge leaf in a full memory: unmapping its first page panics. */
  lemma UnmapCanPanic()
    ensures exists pt: PT, mem: seq<Page> :: Valid(pt, mem, {}) && FrameOf(pt, 0) == Some(PTES) && !CanUnmap(pt, 0, 0, 1, true)
  {
    var pt := PT(0, map[0 := Table(1)], map[0 := Leaf(PTES, Flags(true, true, false, true, 0))], map[]);
    var mem: seq<Page> := seq(2 * PTES, _ => []);
    forall v: nat ensures FrameOf(pt, v) == if v < PTES then Some(PTES + v) else None {
    }
    assert Valid(pt, mem, {});
    assert CutsHuge(pt, 1) && Gained(pt, 0, 0, true) == 0;
  }

  // ------------------------------------------------------- counting the pages

  lemma {:induction false} MappedTwice(pt: PT, lo: nat, mid: nat, hi: nat)
    requires lo <= mid <= hi
    ensures MappedPages(pt, lo, hi) == MappedPages(pt, lo, mid) + MappedPages(pt, mid, hi)
    decreases hi
  {
    if mid < hi { MappedTwice(pt, lo, mid, hi - 1); }
  }

  /** A table that maps the same pages of a range maps as many. */
  lemma {:induction false} MappedSame(pt: PT, pt': PT, lo: nat, hi: nat)
    requires forall v: nat :: lo <= v < hi ==> (Walk(pt', v) == Missing <==> Walk(pt, v) == Missing)
    ensures MappedPages(pt', lo, hi) == MappedPages(pt, lo, hi)
  {
    hide Walk;
    if lo < hi { MappedSame(pt, pt', lo, hi - 1); }
  }

  lemma {:induction false} MappedAll(pt: PT, lo: nat, k: nat)
    requires forall v: nat :: lo <= v < lo + k ==> Walk(pt, v) != Missing
    ensures MappedPages(pt, lo, lo + k) == k
  {
    hide Walk;
    if k > 0 { MappedAll(pt, lo, k - 1); }
  }

  lemma WalkCases(pt: PT, mem: seq<Page>, free: set<nat>, v: nat)
    requires Valid(pt, mem, free)
    ensures Walk(pt, v) == Missing ==> Flat(pt, mem, v) == None && !IsHuge(pt, v)
    ensures Walk(pt, v).At? ==> Walk(pt, v).level in {0, 1}
    ensures Walk(pt, v).At? && Walk(pt, v).level == 0 ==> v in pt.e0 && !IsHuge(pt, v)
    ensures Walk(pt, v).At? && Walk(pt, v).level == 1 ==> IsHuge(pt, v)
    ensures v >= MAXPAGES ==> Walk(pt, v) == Missing
    ensures IsHuge(pt, v) ==> forall w: nat :: w / PTES == v / PTES ==> Walk(pt, w) != Missing
    ensures MappedPages(pt, v, v + 1) == Count(Walk(pt, v) != Missing)
  {
    assert MappedPages(pt, v, v) == 0;
  }

  lemma FlatIff(pt: PT, mem: seq<Page>, free: set<nat>, v: nat)
    requires Valid(pt, mem, free)
    ensures Flat(pt, mem, v) == None <==> FrameOf(pt, v) == None
    ensures Flat(pt, mem, v) == None <==> Walk(pt, v) == Missing
  {
    assert PpnAt(pt, Frame(v)) == FrameOf(pt, v);
    assert Walk(pt, v).At? ==> Walk(pt, v).entry.Leaf?;
  }

  // ------------------------------------------------------------- one turn

  /** What a turn at page a does to the level-1 entries and to the number of free pages:
      it splits a leaf that sticks out of the range, or moves on behind what it removed. */
  ghost predicate Turned(pt: PT, n: nat, pt': PT, n': nat, a: nat, next: nat, hi: nat, doFree: bool) {
    if next == a then
      && IsHuge(pt, a) && (a % PTES != 0 || a / PTES * PTES + PTES > hi)
      && n >= PTES + 2 && n' == n - 1 && !IsHuge(pt', a) && a / PTES in pt'.e1 && pt'.e1 == pt.e1[a / PTES := pt'.e1[a / PTES]]
    else
      && a < MAXPAGES && n' == n + Gained(pt, a, next, doFree)
      && if IsHuge(pt, a) then a % PTES == 0 && next == a + PTES <= hi && pt'.e1 == pt.e1 - {a / PTES}
         else next == a + 1 <= hi && pt'.e1 == pt.e1
  }

  /** A turn at page a panics: MAXVA, or a leaf to split and too little memory. */
  ghost predicate Stuck(pt: PT, n: nat, a: nat, hi: nat) {
    a >= MAXPAGES || (IsHuge(pt, a) && (a % PTES != 0 || a / PTES * PTES + PTES > hi) && n < PTES + 2)
  }

  /** One 4 KB leaf goes, and with doFree its page is freed, otherwise only held. */
  method UnmapSmall(s: Space, v: nat, doFree: bool) returns (ghost held: set<nat>)
    requires s.Ok() && v in s.pt.e0
    modifies s, s.m
    ensures s.Ok() && Valid(s.pt, s.m.mem, s.m.free + held) && held !! s.m.free && (doFree ==> held == {})
    ensures Tidy(old(s.pt), old(s.m.mem), old(s.m.free), s.pt, s.m.mem, s.m.free + held)
    ensures Unmapped(old(s.pt), old(s.m.mem), s.pt, s.m.mem, v, v + 1)
    ensures s.pt == old(s.pt).(e0 := old(s.pt.e0) - {v}) && |s.m.free| == |old(s.m.free)| + Count(doFree)
  {
    hide Valid; hide Flat; hide Conserved;
    var p := s.pt.e0[v].ppn;
    DropSmall(s.pt, s.m.mem, s.m.free, v);
    OwnsSmall(s.pt, s.m.mem, s.m.free, v);
    ghost var mem0 := s.m.mem;
    held := {p};
    if doFree {
      s.m.Kfree(p);
      held := {};
      assert s.m.free + held == s.m.free;
    }
    s.pt := s.pt.(e0 := s.pt.e0 - {v});
    FreeWrites(s.pt, mem0, s.m.free, s.m.mem);
  }

  lemma OwnsSmall(pt: PT, mem: seq<Page>, free: set<nat>, v: nat)
    requires Valid(pt, mem, free) && v in pt.e0
    ensures Owns(pt, pt.e0[v].ppn)
  {
    assert PpnAt(pt, Frame(v)) == Some(pt.e0[v].ppn);
  }

  /** One 2 MB leaf goes, and its 512 pages are freed or held. */
  method UnmapHuge(s: Space, h: nat, doFree: bool) returns (ghost held: set<nat>)
    requires s.Ok() && h in s.pt.e1 && s.pt.e1[h].Leaf?
    modifies s, s.m
    ensures s.Ok() && Valid(s.pt, s.m.mem, s.m.free + held) && held !! s.m.free && (doFree ==> held == {})
    ensures Tidy(old(s.pt), old(s.m.mem), old(s.m.free), s.pt, s.m.mem, s.m.free + held)
    ensures Unmapped(old(s.pt), old(s.m.mem), s.pt, s.m.mem, h * PTES, h * PTES + PTES)
    ensures s.pt == old(s.pt).(e1 := old(s.pt.e1) - {h}) && |s.m.free| == |old(s.m.free)| + PTES * Count(doFree)
  {
    hide Valid; hide Flat; hide Conserved; hide HugeRun;
    var first := s.pt.e1[h].ppn;
    DropHuge(s.pt, s.m.mem, s.m.free, h);
    OwnsHuge(s.pt, s.m.mem, s.m.free, h);
    HugeLeaf(s.pt, s.m.mem, s.m.free, h);
    ghost var mem0 := s.m.mem;
    held := HugeRun(first);
    if doFree {
      s.m.KfreeHuge(first);
      held := {};
      assert s.m.free + held == s.m.free;
    }
    s.pt := s.pt.(e1 := s.pt.e1 - {h});
    FreeWrites(s.pt, mem0, s.m.free, s.m.mem);
    assert forall w: nat :: w / PTES == h <==> h * PTES <= w < h * PTES + PTES;
  }

  lemma OwnsHuge(pt: PT, mem: seq<Page>, free: set<nat>, h: nat)
    requires Valid(pt, mem, free) && h in pt.e1 && pt.e1[h].Leaf?
    ensures forall p: nat :: p in HugeRun(pt.e1[h].ppn) ==> Owns(pt, p)
  {
    RunIsOwned(pt, h);
  }

  /** One turn of uvmunmap's loop at page a: skip, split, or remove a leaf. */
  method UnmapStep(s: Space, a: nat, hi: nat, doFree: bool) returns (ok: bool, next: nat, ghost held: set<nat>)
    requires s.Ok() && a < hi
    modifies s, s.m
    ensures s.Ok() && Valid(s.pt, s.m.mem, s.m.free + held) && held !! s.m.free && (doFree ==> held == {})
    ensures Tidy(old(s.pt), old(s.m.mem), old(s.m.free), s.pt, s.m.mem, s.m.free + held)
    ensures FewerHuge(old(s.pt), s.pt) && s.pt.e2 == old(s.pt.e2) && s.pt.root == old(s.pt.root)
    ensures a <= next <= hi && (ok ==> Unmapped(old(s.pt), old(s.m.mem), s.pt, s.m.mem, a, next))
    ensures ok ==> Turned(old(s.pt), |old(s.m.free)|, s.pt, |s.m.free|, a, next, hi, doFree)
    ensures !ok <==> Stuck(old(s.pt), |old(s.m.free)|, a, hi)
    ensures !ok ==> next == a && s.pt == old(s.pt) && s.m.free == old(s.m.free) && held == {}
  {
    hide Valid; hide Conserved; hide ForeignSame; hide Flat;
    TidyRefl(s.pt, s.m.mem, s.m.free);
    WalkCases(s.pt, s.m.mem, s.m.free, a);
    held := {};
    assert s.m.free + held == s.m.free;
    if a >= MAXPAGES { return false, a, held; }
    var h := a / PTES;
    match Walk(s.pt, a) {
      case Missing =>
        return true, a + 1, held;
      case At(level, e) =>
        if level == 0 {
          held := UnmapSmall(s, a, doFree);
          return true, a + 1, held;
        }
        if h * PTES != a || h * PTES + PTES > hi {
          ok := s.Split(h);
          assert s.m.free + held == s.m.free;
          return ok, a, held;
        }
        MappedAll(s.pt, a, PTES);
        held := UnmapHuge(s, h, doFree);
        return true, h * PTES + PTES, held;
    }
  }

  // -------------------------------------------------------------- the loop

  ghost predicate SplitAtLo(pt0: PT, pt: PT, lo: nat) {
    CutsHuge(pt0, lo) && !IsHuge(pt, lo)
  }

  ghost predicate SplitAtHi(pt0: PT, pt: PT, lo: nat, hi: nat) {
    CutsAnother(pt0, lo, hi) && !IsHuge(pt, hi)
  }

  /** The pages freed and the splits so far account for the pages that are free, and every
      split found its 514 pages. */
  ghost predicate Balanced(pt0: PT, n0: nat, pt: PT, n: nat, lo: nat, a: nat, hi: nat, doFree: bool) {
    && n + Count(SplitAtLo(pt0, pt, lo)) + Count(SplitAtHi(pt0, pt, lo, hi)) == n0 + Gained(pt0, lo, a, doFree)
    && (SplitAtLo(pt0, pt, lo) ==> n0 >= PTES + 2)
    && (SplitAtHi(pt0, pt, lo, hi) ==> n0 + Gained(pt0, lo, hi / PTES * PTES, doFree) >= PTES + 2 + Count(CutsHuge(pt0, lo)))
  }

  /** Where the loop stands: only the leaf that hi cuts can have been split ahead of a, and
      a is inside a huge leaf only at the start. */
  ghost predicate Placed(pt0: PT, pt: PT, lo: nat, a: nat, hi: nat) {
    && FewerHuge(pt0, pt) && (a > lo ==> a <= MAXPAGES)
    && (CutsHuge(pt, a) ==> a == lo)
    && (CutsHuge(pt0, lo) && IsHuge(pt, lo) ==> a == lo)
    && (SplitAtHi(pt0, pt, lo, hi) ==> a >= hi / PTES * PTES)
  }

  lemma LoopStarts(pt: PT, n: nat, lo: nat, hi: nat, doFree: bool)
    ensures Placed(pt, pt, lo, lo, hi) && Balanced(pt, n, pt, n, lo, lo, hi, doFree)
  {
  }

  /** A split in the loop is the one at lo or the one at hi, and it pays from what there is. */
  lemma SplitHere(pt0: PT, n0: nat, pt: PT, n: nat, lo: nat, a: nat, hi: nat, doFree: bool)
    requires lo <= a < hi && Placed(pt0, pt, lo, a, hi) && Balanced(pt0, n0, pt, n, lo, a, hi, doFree)
    requires IsHuge(pt, a) && (a % PTES != 0 || a / PTES * PTES + PTES > hi)
    ensures a % PTES != 0 ==> a == lo && CutsHuge(pt0, lo) && n == n0
    ensures a % PTES == 0 ==> a == hi / PTES * PTES && CutsAnother(pt0, lo, hi) && n + Count(CutsHuge(pt0, lo)) == n0 + Gained(pt0, lo, a, doFree)
  {
    hide Gained;
    assert lo / PTES <= a / PTES <= hi / PTES;
    if a % PTES != 0 {
      assert Gained(pt0, lo, lo, doFree) == 0 by { NothingGained(pt0, lo, doFree); }
    }
  }

  lemma NothingGained(pt: PT, lo: nat, doFree: bool)
    ensures Gained(pt, lo, lo, doFree) == 0
  {
  }

  lemma StuckIsHopeless(pt0: PT, n0: nat, pt: PT, n: nat, lo: nat, a: nat, hi: nat, doFree: bool)
    requires lo <= a < hi && Placed(pt0, pt, lo, a, hi) && Balanced(pt0, n0, pt, n, lo, a, hi, doFree) && Stuck(pt, n, a, hi)
    ensures !CanUnmap(pt0, n0, lo, hi, doFree)
  {
    if a < MAXPAGES {
      SplitHere(pt0, n0, pt, n, lo, a, hi, doFree);
    }
  }

  lemma EndIsFine(pt0: PT, n0: nat, pt: PT, n: nat, lo: nat, hi: nat, doFree: bool)
    requires lo <= hi && Placed(pt0, pt, lo, hi, hi) && Balanced(pt0, n0, pt, n, lo, hi, hi, doFree)
    ensures CanUnmap(pt0, n0, lo, hi, doFree)
    ensures lo < hi ==> n + Count(CutsHuge(pt0, lo)) + Count(CutsAnother(pt0, lo, hi)) == n0 + Gained(pt0, lo, hi, doFree)
  {
  }

  lemma TurnSplits(pt0: PT, n0: nat, pt: PT, n: nat, pt': PT, n': nat, lo: nat, a: nat, hi: nat, doFree: bool)
    requires lo <= a < hi && Placed(pt0, pt, lo, a, hi) && Balanced(pt0, n0, pt, n, lo, a, hi, doFree)
    requires Turned(pt, n, pt', n', a, a, hi, doFree) && FewerHuge(pt, pt')
    ensures Placed(pt0, pt', lo, a, hi) && Balanced(pt0, n0, pt', n', lo, a, hi, doFree)
  {
    SplitHere(pt0, n0, pt, n, lo, a, hi, doFree);
    hide Gained;
    SameElsewhere(pt, pt', a, lo);
    SameElsewhere(pt, pt', a, hi);
  }

  lemma SameElsewhere(pt: PT, pt': PT, a: nat, v: nat)
    requires pt'.e1 == pt.e1 - {a / PTES} || (a / PTES in pt'.e1 && pt'.e1 == pt.e1[a / PTES := pt'.e1[a / PTES]])
    ensures v / PTES != a / PTES ==> (IsHuge(pt', v) <==> IsHuge(pt, v))
  {
  }

  lemma GainedMore(pt0: PT, pt: PT, lo: nat, a: nat, next: nat, doFree: bool)
    requires lo <= a <= next && forall v: nat :: a <= v < next ==> (Walk(pt, v) == Missing <==> Walk(pt0, v) == Missing)
    ensures Gained(pt0, lo, next, doFree) == Gained(pt0, lo, a, doFree) + Gained(pt, a, next, doFree)
  {
    MappedTwice(pt0, lo, a, next);
    MappedSame(pt0, pt, a, next);
  }

  lemma TurnMoves(pt0: PT, n0: nat, pt: PT, n: nat, pt': PT, n': nat, lo: nat, a: nat, next: nat, hi: nat, doFree: bool)
    requires lo <= a < next && a < hi && Placed(pt0, pt, lo, a, hi) && Balanced(pt0, n0, pt, n, lo, a, hi, doFree)
    requires Turned(pt, n, pt', n', a, next, hi, doFree) && FewerHuge(pt, pt')
    requires Gained(pt0, lo, next, doFree) == Gained(pt0, lo, a, doFree) + Gained(pt, a, next, doFree)
    ensures Placed(pt0, pt', lo, next, hi) && Balanced(pt0, n0, pt', n', lo, next, hi, doFree)
  {
    hide Gained;
    if IsHuge(pt, a) {
      SameElsewhere(pt, pt', a, lo);
      SameElsewhere(pt, pt', a, hi);
    }
  }

  /** What is mapped from a on has not been touched. */
  lemma SameAhead(pt0: PT, mem0: seq<Page>, free0: set<nat>, pt: PT, mem: seq<Page>, free: set<nat>, lo: nat, a: nat)
    requires Valid(pt0, mem0, free0) && Valid(pt, mem, free) && Unmapped(pt0, mem0, pt, mem, lo, a)
    ensures forall v: nat :: a <= v ==> (Walk(pt, v) == Missing <==> Walk(pt0, v) == Missing)
  {
    hide Flat; hide Walk; hide Valid;
    forall v: nat | a <= v ensures Walk(pt, v) == Missing <==> Walk(pt0, v) == Missing {
      FlatIff(pt0, mem0, free0, v);
      FlatIff(pt, mem, free, v);
    }
  }

  /** The loop stands where it stood, or further on, after any turn. */
  lemma TurnKeeps(pt0: PT, mem0: seq<Page>, free0: set<nat>, pt: PT, mem: seq<Page>, free: set<nat>, pt': PT, n': nat,
                  lo: nat, a: nat, next: nat, hi: nat, doFree: bool)
    requires lo <= a <= next && a < hi && Valid(pt0, mem0, free0) && Valid(pt, mem, free) && Unmapped(pt0, mem0, pt, mem, lo, a)
    requires Placed(pt0, pt, lo, a, hi) && Balanced(pt0, |free0|, pt, |free|, lo, a, hi, doFree)
    requires Turned(pt, |free|, pt', n', a, next, hi, doFree) && FewerHuge(pt, pt')
    ensures Placed(pt0, pt', lo, next, hi) && Balanced(pt0, |free0|, pt', n', lo, next, hi, doFree)
  {
    hide Placed; hide Balanced; hide Turned; hide Valid; hide Unmapped; hide Gained; hide Walk;
    if next == a {
      TurnSplits(pt0, |free0|, pt, |free|, pt', n', lo, a, hi, doFree);
    } else {
      SameAhead(pt0, mem0, free0, pt, mem, free, lo, a);
      GainedMore(pt0, pt, lo, a, next, doFree);
      TurnMoves(pt0, |free0|, pt, |free|, pt', n', lo, a, next, hi, doFree);
    }
  }

  /** Pages that are held stay held through a turn that does not see them. */
  lemma TidyHolding(a: PT, am: seq<Page>, af: set<nat>, b: PT, bm: seq<Page>, bf: set<nat>, held: set<nat>,
                    c: PT, cm: seq<Page>, cf: set<nat>, more: set<nat>)
    requires Tidy(a, am, af, b, bm, bf + held) && Valid(b, bm, bf + held) && held !! bf
    requires Tidy(b, bm, bf, c, cm, cf + more) && Valid(c, cm, cf + more) && more !! cf
    ensures Tidy(a, am, af, c, cm, cf + (held + more)) && Valid(c, cm, cf + (held + more)) && held + more !! cf
  {
    forall p: nat | p in held ensures p !in cf && !Owns(c, p) {
      FreeNotOwned(b, bm, bf + held, p);
    }
    hide Valid;
    Reserve(c, cm, cf + more, held);
    assert cf + more + held == cf + (held + more);
  }

  lemma UnmappedMore(pt0: PT, mem0: seq<Page>, pt1: PT, mem1: seq<Page>, pt2: PT, mem2: seq<Page>, lo: nat, a: nat, next: nat)
    requires lo <= a <= next && Unmapped(pt0, mem0, pt1, mem1, lo, a) && Unmapped(pt1, mem1, pt2, mem2, a, next)
    ensures Unmapped(pt0, mem0, pt2, mem2, lo, next)
  {
    hide Flat;
  }

  lemma FewerTwice(a: PT, b: PT, c: PT)
    requires FewerHuge(a, b) && FewerHuge(b, c)
    ensures FewerHuge(a, c)
  {
  }

  lemma NothingUnmapped(pt: PT, mem: seq<Page>, free: set<nat>, lo: nat)
    ensures Unmapped(pt, mem, pt, mem, lo, lo) && FewerHuge(pt, pt) && free + {} == free
  {
  }

  /** uvmunmap: it panics exactly when a page lies beyond MAXVA or a split lacks memory.
      Otherwise exactly the pages from lo to hi lose their mapping, all other contents and
      permissions stay, even inside huge leaves that the range cuts, and every page the
      range had is freed once and nothing else; without doFree those pages are held. */
  method Unmap(s: Space, lo: nat, hi: nat, doFree: bool) returns (ok: bool, ghost held: set<nat>)
    requires s.Ok() && lo <= hi
    modifies s, s.m
    ensures s.Ok() && Valid(s.pt, s.m.mem, s.m.free + held) && held !! s.m.free && (doFree ==> held == {})
    ensures Tidy(old(s.pt), old(s.m.mem), old(s.m.free), s.pt, s.m.mem, s.m.free + held)
    ensures FewerHuge(old(s.pt), s.pt) && s.pt.e2 == old(s.pt.e2) && s.pt.root == old(s.pt.root)
    ensures ok <==> CanUnmap(old(s.pt), |old(s.m.free)|, lo, hi, doFree)
    ensures ok ==> Unmapped(old(s.pt), old(s.m.mem), s.pt, s.m.mem, lo, hi)
    ensures ok && lo < hi ==> |s.m.free| + Count(old(CutsHuge(s.pt, lo))) + Count(old(CutsAnother(s.pt, lo, hi))) == |old(s.m.free)| + Gained(old(s.pt), lo, hi, doFree)
  {
    hide Valid; hide Tidy; hide Flat; hide Placed; hide Balanced; hide Turned; hide Stuck; hide CanUnmap; hide Gained; hide CutsHuge; hide CutsAnother; hide Unmapped; hide FewerHuge; hide IsHuge;
    ghost var pt0, mem0, free0 := s.pt, s.m.mem, s.m.free;
    TidyRefl(pt0, mem0, free0);
    LoopStarts(pt0, |free0|, lo, hi, doFree);
    NothingUnmapped(pt0, mem0, free0, lo);
    held := {};
    var a := lo;
    while a < hi
      invariant lo <= a <= hi && s.Ok() && Tidy(pt0, mem0, free0, s.pt, s.m.mem, s.m.free + held)
      invariant Valid(s.pt, s.m.mem, s.m.free + held) && held !! s.m.free && (doFree ==> held == {})
      invariant FewerHuge(pt0, s.pt) && s.pt.e2 == pt0.e2 && s.pt.root == pt0.root
      invariant Unmapped(pt0, mem0, s.pt, s.m.mem, lo, a)
      invariant Placed(pt0, s.pt, lo, a, hi) && Balanced(pt0, |free0|, s.pt, |s.m.free|, lo, a, hi, doFree)
      decreases hi - a, Count(IsHuge(s.pt, a))
    {
      ghost var pt1, mem1, free1, a1, more := s.pt, s.m.mem, s.m.free, a, {};
      ok, a, more := UnmapStep(s, a, hi, doFree);
      TidyHolding(pt0, mem0, free0, pt1, mem1, free1, held, s.pt, s.m.mem, s.m.free, more);
      FewerTwice(pt0, pt1, s.pt);
      held := held + more;
      if !ok {
        StuckIsHopeless(pt0, |free0|, pt1, |free1|, lo, a1, hi, doFree);
        return;
      }
      UnmappedMore(pt0, mem0, pt1, mem1, s.pt, s.m.mem, lo, a1, a);
      TurnKeeps(pt0, mem0, free0, pt1, mem1, free1, s.pt, |s.m.free|, lo, a1, a, hi, doFree);
      TurnEnds(pt1, |free1|, s.pt, |s.m.free|, a1, a, hi, doFree);
    }
    EndIsFine(pt0, |free0|, s.pt, |s.m.free|, lo, hi, doFree);
    ok := true;
  }

  lemma TurnEnds(pt: PT, n: nat, pt': PT, n': nat, a: nat, next: nat, hi: nat, doFree: bool)
    requires Turned(pt, n, pt', n', a, next, hi, doFree)
    ensures next == a ==> IsHuge(pt, a) && !IsHuge(pt', a)
  {
  }
}
