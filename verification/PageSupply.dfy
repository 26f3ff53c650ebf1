/** The supply of free pages and free huge pages, as kalloc and kalloc_huge of
    kernel/kalloc.c draw on it. */
module PageSupply {
  import opened PageTable
  import opened AddressSpace

  function FreeRunSet(n: nat, free: set<nat>): set<nat> {
    set q: nat | q < n && IsFreeRun(n, free, q)
  }

  /** The number of free huge pages. */
  function FreeRuns(n: nat, free: set<nat>): nat {
    |FreeRunSet(n, free)|
  }

  function Min(a: int, b: int): int {
    if a < b then a else b
  }

  /** Pages have been taken one at a time: no more free huge pages are gone than must be
      when so few pages are left. */
  ghost predicate Drawn(n: nat, free: set<nat>, free': set<nat>) {
    free' <= free && FreeRuns(n, free') == Min(FreeRuns(n, free), |free'| / PTES)
  }

  lemma RunsIff(n: nat, free: set<nat>)
    ensures FreeRuns(n, free) > 0 <==> HasFreeRun(n, free)
  {
    assert forall q: nat :: IsFreeRun(n, free, q) ==> q in FreeRunSet(n, free);
  }

  /** Taking a free huge page takes that one only, and 512 pages. */
  lemma RunTaken(n: nat, free: set<nat>, q: nat)
    requires IsFreeRun(n, free, q)
    ensures FreeRunSet(n, free - HugeRun(q)) == FreeRunSet(n, free) - {q} && FreeRuns(n, free) == FreeRuns(n, free - HugeRun(q)) + 1
    ensures |free| == |free - HugeRun(q)| + PTES
  {
    HugeRunSize(q);
    assert free == (free - HugeRun(q)) + HugeRun(q);
    var before, after := FreeRunSet(n, free), FreeRunSet(n, free - HugeRun(q));
    assert InRun(q, q) && q in HugeRun(q);
    forall r: nat | r in before && r != q ensures r in after {
      assert HugeRun(r) !! HugeRun(q);
    }
    assert before == after + {q};
  }

  /** Taking a page breaks up the free huge page it lies in, if any, and no other. */
  lemma PageTaken(n: nat, free: set<nat>, p: nat)
    requires p in free
    ensures FreeRunSet(n, free - {p}) == FreeRunSet(n, free) - {p / PTES * PTES}
  {
    var q := p / PTES * PTES;
    assert InRun(q, p) && p in HugeRun(q);
    forall r: nat | r in FreeRunSet(n, free) && r != q ensures r in FreeRunSet(n, free - {p}) {
      assert !InRun(r, p);
    }
  }

  lemma {:induction false} RunsFit(n: nat, free: set<nat>)
    ensures PTES * FreeRuns(n, free) <= |free|
    ensures (forall p: nat :: !Loose(n, free, p)) ==> PTES * FreeRuns(n, free) == |free|
    decreases |free|
  {
    if q :| q in FreeRunSet(n, free) {
      RunTaken(n, free, q);
      RunsFit(n, free - HugeRun(q));
      if forall p: nat :: !Loose(n, free, p) {
        forall p: nat ensures !Loose(n, free - HugeRun(q), p) {
          NotLooser(n, free, q, p);
        }
      }
    } else if p :| p in free {
      assert p / PTES * PTES !in FreeRunSet(n, free);
      assert Loose(n, free, p);
    }
  }

  lemma NotLooser(n: nat, free: set<nat>, q: nat, p: nat)
    requires IsFreeRun(n, free, q) && !Loose(n, free, p)
    ensures !Loose(n, free - HugeRun(q), p)
  {
    var r := p / PTES * PTES;
    assert InRun(r, p);
    if p in free && p !in HugeRun(q) {
      assert r != q;
      assert HugeRun(r) !! HugeRun(q);
    }
  }

  lemma DrawnNothing(n: nat, free: set<nat>)
    ensures Drawn(n, free, free)
  {
    RunsFit(n, free);
  }

  lemma DrawnTwice(n: nat, a: set<nat>, b: set<nat>, c: set<nat>)
    requires Drawn(n, a, b) && Drawn(n, b, c)
    ensures Drawn(n, a, c)
  {
    SubsetSize(c, b);
  }

  lemma {:induction false} SubsetSize(a: set<nat>, b: set<nat>)
    requires a <= b
    ensures |a| <= |b|
  {
    if a != {} {
      var x :| x in a;
      SubsetSize(a - {x}, b - {x});
    }
  }

  /** What one call of kalloc does to the supply. */
  lemma DrawnOne(n: nat, free: set<nat>, p: nat)
    requires p in free && SparesRuns(n, free, p)
    ensures Drawn(n, free, free - {p})
  {
    PageTaken(n, free, p);
    RunsFit(n, free);
    RunsFit(n, free - {p});
    if Loose(n, free, p) {
      assert FreeRunSet(n, free - {p}) == FreeRunSet(n, free);
    } else {
      assert p / PTES * PTES in FreeRunSet(n, free);
    }
  }
}
