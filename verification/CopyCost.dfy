/** What uvmcopy of kernel/vm.c costs in pages and huge pages, along the parent's leaves. */
module CopyCost {
  import opened PageTable
  import opened AddressSpace
  import opened PageSupply
  import opened UserMap
  import opened UserUnmap

  /** A page below a is mapped in region h, the span of a level-0 table. */
  ghost predicate UsesRegion(pt: PT, h: nat, a: nat) {
    exists v: nat :: v < a && v / PTES == h && Walk(pt, v) != Missing
  }

  /** The same for the span of a level-1 table. */
  ghost predicate UsesBranch(pt: PT, i: nat, a: nat) {
    exists v: nat :: v < a && v / PTES / PTES == i && Walk(pt, v) != Missing
  }

  /** A huge leaf begins at page v. */
  ghost predicate HugeAt(pt: PT, v: nat) {
    IsHuge(pt, v) && v % PTES == 0
  }

  /** The pages taken at the parent's page v: a copy of it, or of the huge page that begins
      there, and the tables that no page before it needed and the child did not have. */
  ghost function CostAt(po: PT, pt0: PT, v: nat): nat {
    if Walk(po, v) == Missing || (IsHuge(po, v) && !HugeAt(po, v)) then 0
    else
      (if IsHuge(po, v) then PTES else 1 + Count(!UsesRegion(po, v / PTES, v)))
      + Count(v / PTES / PTES !in pt0.e2 && !UsesBranch(po, v / PTES / PTES, v))
  }

  ghost function Cost(po: PT, pt0: PT, n: nat): nat {
    if n == 0 then 0 else Cost(po, pt0, n - 1) + CostAt(po, pt0, n - 1)
  }

  /** The huge leaves that begin below n. */
  ghost function HugeLeaves(po: PT, n: nat): nat {
    if n == 0 then 0 else HugeLeaves(po, n - 1) + Count(HugeAt(po, n - 1))
  }

  /** There is memory for a copy of the pages below n: as many pages as it takes in all, and
      as many free huge pages as the parent has huge leaves. */
  ghost predicate CanCopy(po: PT, pt0: PT, n: nat, size: nat, free: set<nat>) {
    Cost(po, pt0, n) <= |free| && HugeLeaves(po, n) <= FreeRuns(size, free)
  }

  lemma {:induction false} CostGrows(po: PT, pt0: PT, a: nat, b: nat)
    requires a <= b
    ensures Cost(po, pt0, a) <= Cost(po, pt0, b) && HugeLeaves(po, a) <= HugeLeaves(po, b)
  {
    hide CostAt; hide HugeAt;
    if a < b { CostGrows(po, pt0, a, b - 1); }
  }

  /** Pages at which nothing is taken. */
  lemma {:induction false} CostStays(po: PT, pt0: PT, a: nat, b: nat)
    requires a <= b && forall v: nat :: a <= v < b ==> CostAt(po, pt0, v) == 0 && !HugeAt(po, v)
    ensures Cost(po, pt0, b) == Cost(po, pt0, a) && HugeLeaves(po, b) == HugeLeaves(po, a)
  {
    hide CostAt; hide HugeAt;
    if a < b { CostStays(po, pt0, a, b - 1); }
  }

  // ------------------------------------------------- the tables the child has

  /** The child's tables when the pages below a are copied. */
  ghost predicate TablesFor(po: PT, pt0: PT, pt: PT, a: nat, hi: nat) {
    && (forall h: nat :: h * PTES < hi ==> (h in pt.e1 <==> UsesRegion(po, h, a)))
    && (forall i: nat :: i in pt.e2 <==> i in pt0.e2 || UsesBranch(po, i, a))
  }

  /** From a to b within one region, the tables of a mapped page are all that is used anew. */
  lemma UsesMore(po: PT, a: nat, b: nat, h: nat)
    requires a < b <= (a / PTES + 1) * PTES && Walk(po, a) != Missing
    ensures UsesRegion(po, h, b) <==> UsesRegion(po, h, a) || h == a / PTES
    ensures UsesBranch(po, h, b) <==> UsesBranch(po, h, a) || h == a / PTES / PTES
  {
    hide Walk;
    assert forall v: nat :: a <= v < b ==> v / PTES == a / PTES;
  }

  lemma TablesMore(po: PT, pt0: PT, pt: PT, pt': PT, a: nat, b: nat, hi: nat)
    requires a < b <= (a / PTES + 1) * PTES && Walk(po, a) != Missing
    requires TablesFor(po, pt0, pt, a, hi) && TablesAdded(pt, pt', a / PTES)
    ensures TablesFor(po, pt0, pt', b, hi)
  {
    forall h: nat ensures UsesRegion(po, h, b) <==> UsesRegion(po, h, a) || h == a / PTES {
      UsesMore(po, a, b, h);
    }
    forall i: nat ensures UsesBranch(po, i, b) <==> UsesBranch(po, i, a) || i == a / PTES / PTES {
      UsesMore(po, a, b, i);
    }
    hide UsesRegion; hide UsesBranch; hide Walk;
  }

  /** The tables missing at page a are those that its cost counts. */
  lemma CostIs(po: PT, pt0: PT, pt: PT, a: nat, hi: nat)
    requires TablesFor(po, pt0, pt, a, hi) && a < hi && Walk(po, a) != Missing && (IsHuge(po, a) ==> HugeAt(po, a))
    ensures CostAt(po, pt0, a) == (if IsHuge(po, a) then PTES else 1) + MissingTables(pt, a / PTES, !IsHuge(po, a))
  {
    assert a / PTES * PTES <= a;
  }

  // ------------------------------------------------------ what has been paid

  /** What a turn that copies a small page in region h takes, or lacks. */
  ghost predicate TookSmall(pt: PT, pt': PT, h: nat, size: nat, free: set<nat>, free': set<nat>, r: MapResult) {
    && (r == NoMemory ==> |free| < 1 + MissingTables(pt, h, true))
    && (r == Mapped ==> |free| == |free'| + 1 + MissingTables(pt, h, true) && Drawn(size, free, free') && TablesAdded(pt, pt', h))
  }

  /** The same for a huge page. */
  ghost predicate TookHuge(pt: PT, pt': PT, h: nat, size: nat, free: set<nat>, free': set<nat>, r: MapResult) {
    && (r == NoMemory ==> FreeRuns(size, free) == 0 || |free| < PTES + MissingTables(pt, h, false))
    && (r == Mapped ==>
        && |free| == |free'| + PTES + MissingTables(pt, h, false) && TablesAdded(pt, pt', h)
        && FreeRuns(size, free') == Min(FreeRuns(size, free) - 1, |free'| / PTES))
  }

  /** The pages below a are copied and paid for.  A free huge page is gone for each huge leaf
      among them, and no more of them than must be when so few pages are left. */
  ghost predicate Paid(po: PT, pt0: PT, pt: PT, size: nat, free0: set<nat>, free: set<nat>, a: nat, hi: nat) {
    && TablesFor(po, pt0, pt, a, hi) && |free0| == |free| + Cost(po, pt0, a)
    && FreeRuns(size, free) == Min(FreeRuns(size, free0) - HugeLeaves(po, a), |free| / PTES)
  }

  lemma PaidNothing(po: PT, pt: PT, size: nat, free: set<nat>, hi: nat)
    requires forall h: nat :: h * PTES < hi ==> h !in pt.e1
    ensures Paid(po, pt, pt, size, free, free, 0, hi)
  {
    RunsFit(size, free);
  }

  lemma PaidMissing(po: PT, pt0: PT, pt: PT, size: nat, free0: set<nat>, free: set<nat>, a: nat, hi: nat)
    requires Paid(po, pt0, pt, size, free0, free, a, hi) && Walk(po, a) == Missing && !IsHuge(po, a)
    ensures Paid(po, pt0, pt, size, free0, free, a + 1, hi)
  {
    CostStays(po, pt0, a, a + 1);
    forall h: nat ensures UsesRegion(po, h, a + 1) <==> UsesRegion(po, h, a) {
    }
    forall i: nat ensures UsesBranch(po, i, a + 1) <==> UsesBranch(po, i, a) {
    }
  }

  lemma PaidSmall(po: PT, pt0: PT, pt: PT, pt': PT, size: nat, free0: set<nat>, free: set<nat>, free': set<nat>, a: nat, hi: nat, r: MapResult)
    requires Paid(po, pt0, pt, size, free0, free, a, hi) && a < hi && Walk(po, a) != Missing && !IsHuge(po, a)
    requires TookSmall(pt, pt', a / PTES, size, free, free', r)
    ensures r == Mapped ==> Paid(po, pt0, pt', size, free0, free', a + 1, hi)
    ensures r == NoMemory ==> !CanCopy(po, pt0, hi, size, free0)
  {
    hide CostAt; hide TablesFor; hide TablesAdded; hide MissingTables; hide Walk; hide FreeRuns; hide Cost; hide HugeLeaves; hide Min; hide IsHuge;
    CostIs(po, pt0, pt, a, hi);
    SmallCost(po, pt0, a);
    CostGrows(po, pt0, a + 1, hi);
    if r == Mapped {
      TablesMore(po, pt0, pt, pt', a, a + 1, hi);
      OneTake(FreeRuns(size, free0) - HugeLeaves(po, a), FreeRuns(size, free), |free|, |free'|);
    }
  }

  lemma SmallCost(po: PT, pt0: PT, a: nat)
    requires !IsHuge(po, a)
    ensures Cost(po, pt0, a + 1) == Cost(po, pt0, a) + CostAt(po, pt0, a) && HugeLeaves(po, a + 1) == HugeLeaves(po, a)
  {
  }

  /** Pages taken one at a time, after others: the free huge pages that are left. */
  lemma OneTake(runs: int, r: nat, f: nat, f': nat)
    requires f' <= f && r == Min(runs, f / PTES)
    ensures Min(r, f' / PTES) == Min(runs, f' / PTES)
  {
    assert f' / PTES <= f / PTES;
  }

  /** The same for a huge page, and what its lack means. */
  lemma HugeTake(runs: int, r: nat, f: nat, f': nat)
    requires r == Min(runs, f / PTES)
    ensures f' + PTES <= f ==> Min(r - 1, f' / PTES) == Min(runs - 1, f' / PTES)
    ensures r == 0 ==> runs <= 0 || f < PTES
  {
    assert f' + PTES <= f ==> f' / PTES + 1 <= f / PTES;
  }

  lemma PaidHuge(po: PT, pt0: PT, pt: PT, pt': PT, size: nat, free0: set<nat>, free: set<nat>, free': set<nat>, a: nat, hi: nat, r: MapResult)
    requires Paid(po, pt0, pt, size, free0, free, a, hi) && a + PTES <= hi && Walk(po, a) != Missing && HugeAt(po, a)
    requires TookHuge(pt, pt', a / PTES, size, free, free', r)
    ensures r == Mapped ==> Paid(po, pt0, pt', size, free0, free', a + PTES, hi)
    ensures r == NoMemory ==> !CanCopy(po, pt0, hi, size, free0)
  {
    hide CostAt; hide TablesFor; hide TablesAdded; hide MissingTables; hide Walk; hide FreeRuns; hide Cost; hide HugeLeaves; hide Min; hide HugeAt; hide IsHuge;
    OneRegion(po, a);
    CostIs(po, pt0, pt, a, hi);
    HugeCost(po, pt0, a);
    CostGrows(po, pt0, a + PTES, hi);
    HugeTake(FreeRuns(size, free0) - HugeLeaves(po, a), FreeRuns(size, free), |free|, |free'|);
    if r == Mapped { TablesMore(po, pt0, pt, pt', a, a + PTES, hi); }
  }

  lemma OneRegion(po: PT, a: nat)
    requires HugeAt(po, a)
    ensures a + PTES == (a / PTES + 1) * PTES && IsHuge(po, a)
  {
  }

  lemma HugeCost(po: PT, pt0: PT, a: nat)
    requires HugeAt(po, a)
    ensures Cost(po, pt0, a + PTES) == Cost(po, pt0, a) + CostAt(po, pt0, a) && HugeLeaves(po, a + PTES) == HugeLeaves(po, a) + 1
  {
    forall v: nat | a + 1 <= v < a + PTES ensures CostAt(po, pt0, v) == 0 && !HugeAt(po, v) {
      assert v / PTES == a / PTES && v % PTES != 0;
    }
    CostStays(po, pt0, a + 1, a + PTES);
    hide CostAt; hide HugeAt;
    assert Cost(po, pt0, a + 1) == Cost(po, pt0, a) + CostAt(po, pt0, a);
  }

  /** Memory that lasted up to a, with nothing more to copy, lasts. */
  lemma PaidAll(po: PT, pt0: PT, pt: PT, size: nat, free0: set<nat>, free: set<nat>, a: nat, hi: nat)
    requires Paid(po, pt0, pt, size, free0, free, a, hi) && a <= hi && forall v: nat :: a <= v < hi ==> Walk(po, v) == Missing && !IsHuge(po, v)
    ensures CanCopy(po, pt0, hi, size, free0)
  {
    CostStays(po, pt0, a, hi);
  }
}
