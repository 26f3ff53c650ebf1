/** The allocator of AddressSpace.Memory, which knows only a set of free pages, is what
    kernel/kalloc.c implements: the pages that the free blocks of the buddy allocator cover. */
module BuddyMemory {
  import opened Params
  import opened BuddyTree
  import opened RunLists
  import opened BuddyAllocator
  import PageTable
  import AddressSpace

  const HUGE_ORDER: nat := 9

  /** The free pages. */
  ghost function PagesOf(f: set<Node>): (pages: set<nat>)
    ensures forall x :: x in pages ==> x < NPAGES
  {
    set x: nat | x < NPAGES && Covers(f, x)
  }

  lemma InPages(f: set<Node>, x: nat)
    requires Canonical(f)
    ensures x in PagesOf(f) <==> Covers(f, x)
  {
    if Covers(f, x) {
      var k: nat :| Node(Up(x, k), k) in f;
      InRangeIff(Node(Up(x, k), k));
      RunIsInterval(Up(x, k), k, x);
    }
  }

  /** A block of order 9 is an aligned run of 512 pages. */
  lemma HugeBlock(q: nat, x: nat)
    ensures Head(q, HUGE_ORDER) == q * PageTable.PTES && Pow2(HUGE_ORDER) == PageTable.PTES
    ensures Holds(Node(q, HUGE_ORDER), x) <==> x in PageTable.HugeRun(q * PageTable.PTES)
  {
    assert Pow2(3) == 8;
    assert Pow2(6) == 8 * Pow2(3);
    assert Pow2(9) == 8 * Pow2(6);
    HeadIsProduct(q, HUGE_ORDER);
    RunIsInterval(q, HUGE_ORDER, x);
    hide Head; hide Pow2; hide Up;
    assert PageTable.InRun(q * PageTable.PTES, x) <==> x in PageTable.HugeRun(q * PageTable.PTES);
  }

  /** kalloc's condition: some page is free. */
  lemma SmallIff(f: set<Node>)
    requires Canonical(f)
    ensures PagesOf(f) != {} <==> exists q: nat :: CoversRun(f, Node(q, 0))
  {
    hide Canonical; hide Covers;
    if q: nat :| CoversRun(f, Node(q, 0)) {
      assert Holds(Node(q, 0), q);
      InPages(f, q);
    }
    if x :| x in PagesOf(f) {
      InPages(f, x);
      assert CoversRun(f, Node(x, 0));
    }
  }

  /** kalloc_huge's condition: an aligned huge page is entirely free. */
  lemma HugeIff(f: set<Node>)
    requires Canonical(f)
    ensures AddressSpace.HasFreeRun(NPAGES, PagesOf(f)) <==> exists q: nat :: CoversRun(f, Node(q, HUGE_ORDER))
  {
    hide Canonical; hide Covers;
    if q: nat :| CoversRun(f, Node(q, HUGE_ORDER)) {
      RunIsFree(f, q);
    }
    if p: nat :| AddressSpace.IsFreeRun(NPAGES, PagesOf(f), p) {
      var q := p / PageTable.PTES;
      forall x: nat | Holds(Node(q, HUGE_ORDER), x) ensures Covers(f, x) {
        HugeBlock(q, x);
        InPages(f, x);
      }
      assert CoversRun(f, Node(q, HUGE_ORDER));
    }
  }

  lemma RunIsFree(f: set<Node>, q: nat)
    requires Canonical(f) && CoversRun(f, Node(q, HUGE_ORDER))
    ensures AddressSpace.IsFreeRun(NPAGES, PagesOf(f), q * PageTable.PTES)
  {
    hide Canonical; hide Covers; hide Up;
    var first := q * PageTable.PTES;
    forall x: nat | x in PageTable.HugeRun(first) ensures x in PagesOf(f) {
      HugeBlock(q, x);
      InPages(f, x);
    }
    var last := first + PageTable.PTES - 1;
    assert PageTable.InRun(first, last);
    assert last in PageTable.HugeRun(first);
  }

  /** The pages of a free set with a block added. */
  lemma FreedPages(f: set<Node>, n: Node)
    requires Canonical(f) && InRange(n) && Apart(f, n)
    ensures Canonical(Free(f, n)) && forall x: nat :: x in PagesOf(Free(f, n)) <==> x in PagesOf(f) || Holds(n, x)
    ensures forall x: nat :: Holds(n, x) ==> x !in PagesOf(f)
  {
    FreeKeeps(f, n);
    hide Canonical; hide Covers; hide Free;
    forall x: nat ensures x in PagesOf(Free(f, n)) <==> x in PagesOf(f) || Holds(n, x) {
      InPages(f, x);
      InPages(Free(f, n), x);
    }
  }

  lemma BlockAt(p: nat, order: nat)
    requires p < NPAGES && order <= MAX_ORDER && p % Pow2(order) == 0
    ensures InRange(Node(Up(p, order), order)) && Head(Up(p, order), order) == p
  {
    AlignedIffHead(p, order);
    InRangeIff(Node(Up(p, order), order));
  }

  /** buddy_alloc_locked in terms of pages: the block that is taken was free. */
  method Take(b: Buddy, order: nat) returns (p: int)
    requires b.Valid() && order <= MAX_ORDER
    modifies b.Footprint()
    ensures b.Valid() && (p < 0 <==> forall q: nat :: !CoversRun(old(b.free), Node(q, order)))
    ensures p < 0 ==> b.free == old(b.free)
    ensures p >= 0 ==> p < NPAGES && p % Pow2(order) == 0 && Head(Up(p, order), order) == p
    ensures p >= 0 ==> forall x: nat :: x in PagesOf(b.free) <==> x in PagesOf(old(b.free)) && !Holds(Node(Up(p, order), order), x)
    ensures p >= 0 ==> forall x: nat :: Holds(Node(Up(p, order), order), x) ==> x in PagesOf(old(b.free))
    ensures p >= 0 ==> BestFit(old(b.free), order, p)
  {
    hide BestFit; hide Pow2; hide Up; hide Head; hide Covers; hide CoversRun; hide Canonical; hide PagesOf; hide Free; hide Buddy.Agrees;
    var addr := b.KallocOrder(order);
    if addr == 0 { return -1; }
    p := (addr - KERNBASE) / PGSIZE;
    BlockAt(p, order);
    FreedPages(b.free, Node(Up(p, order), order));
  }

  /** A block of order 9 or more holds the whole huge page of each of its pages. */
  lemma LargeBlock(f: set<Node>, n: Node, x: nat)
    requires Canonical(f) && n in f && n.k >= HUGE_ORDER && Holds(n, x)
    ensures AddressSpace.IsFreeRun(NPAGES, PagesOf(f), x / PageTable.PTES * PageTable.PTES)
  {
    var q := Up(x, HUGE_ORDER);
    HugeIndex(x);
    forall y: nat | Holds(Node(q, HUGE_ORDER), y) ensures Covers(f, y) {
      UpUp(x, HUGE_ORDER, n.k - HUGE_ORDER);
      UpUp(y, HUGE_ORDER, n.k - HUGE_ORDER);
      assert Node(Up(y, n.k), n.k) in f;
    }
    RunIsFree(f, q);
  }

  lemma HugeIndex(x: nat)
    ensures Up(x, HUGE_ORDER) == x / PageTable.PTES
  {
    HugeBlock(x / PageTable.PTES, x);
    hide Up;
    assert PageTable.InRun(x / PageTable.PTES * PageTable.PTES, x);
  }

  /** A page of a block below order 9 lies in no free huge page. */
  lemma SmallBlock(f: set<Node>, n: Node, x: nat)
    requires Canonical(f) && n in f && n.k < HUGE_ORDER && Holds(n, x)
    ensures !AddressSpace.IsFreeRun(NPAGES, PagesOf(f), x / PageTable.PTES * PageTable.PTES)
  {
    var q := x / PageTable.PTES;
    if AddressSpace.IsFreeRun(NPAGES, PagesOf(f), q * PageTable.PTES) {
      forall y: nat | Holds(Node(q, HUGE_ORDER), y) ensures Covers(f, y) {
        hide Up;
        HugeBlock(q, y);
        InPages(f, y);
      }
      var j := RunInsideOne(f, Node(q, HUGE_ORDER));
      HugeIndex(x);
      UpUp(x, HUGE_ORDER, j - HUGE_ORDER);
    }
  }

  /** The smallest block is below order 9 unless every free page lies in a free huge page. */
  lemma BestFitSpares(f: set<Node>, p: nat)
    requires Canonical(f) && BestFit(f, 0, p)
    ensures AddressSpace.SparesRuns(NPAGES, PagesOf(f), p)
  {
    hide Canonical; hide Up;
    var n :| n in f && Holds(n, p) && forall o :: o in f ==> n.k <= o.k;
    if n.k < HUGE_ORDER {
      SmallBlock(f, n, p);
      assert Covers(f, p);
      InPages(f, p);
    } else {
      forall x: nat | x in PagesOf(f) ensures !AddressSpace.Loose(NPAGES, PagesOf(f), x) {
        InPages(f, x);
        var k: nat :| Node(Up(x, k), k) in f;
        LargeBlock(f, Node(Up(x, k), k), x);
      }
    }
  }

  /** kalloc meets the contract of AddressSpace.Memory.Kalloc. */
  method Kalloc(b: Buddy) returns (p: int)
    requires b.Valid()
    modifies b.Footprint()
    ensures b.Valid() && (p < 0 <==> PagesOf(old(b.free)) == {})
    ensures p < 0 ==> b.free == old(b.free)
    ensures p >= 0 ==> p in PagesOf(old(b.free)) && PagesOf(b.free) == PagesOf(old(b.free)) - {p}
    ensures p >= 0 ==> AddressSpace.SparesRuns(NPAGES, PagesOf(old(b.free)), p)
  {
    hide BestFit; hide Covers; hide CoversRun; hide Canonical; hide PagesOf; hide Buddy.Agrees;
    SmallIff(b.free);
    p := Take(b, 0);
    if p >= 0 {
      assert forall x: nat :: Holds(Node(Up(p, 0), 0), x) <==> x == p;
      BestFitSpares(old(b.free), p);
    }
  }

  /** kalloc_huge meets the contract of AddressSpace.Memory.KallocHuge. */
  method KallocHuge(b: Buddy) returns (p: int)
    requires b.Valid()
    modifies b.Footprint()
    ensures b.Valid() && (p < 0 <==> !AddressSpace.HasFreeRun(NPAGES, PagesOf(old(b.free))))
    ensures p < 0 ==> b.free == old(b.free)
    ensures p >= 0 ==> AddressSpace.IsFreeRun(NPAGES, PagesOf(old(b.free)), p) && PagesOf(b.free) == PagesOf(old(b.free)) - PageTable.HugeRun(p)
  {
    hide Covers; hide CoversRun; hide Canonical; hide PagesOf; hide Buddy.Agrees; hide Up; hide Head; hide Pow2; hide PageTable.HugeRun;
    HugeIff(b.free);
    p := Take(b, HUGE_ORDER);
    if p >= 0 { TakenRun(PagesOf(old(b.free)), PagesOf(b.free), p); }
  }

  lemma TakenRun(was: set<nat>, now: set<nat>, p: nat)
    requires p < NPAGES && p % Pow2(HUGE_ORDER) == 0 && Head(Up(p, HUGE_ORDER), HUGE_ORDER) == p
    requires forall x: nat :: x in now <==> x in was && !Holds(Node(Up(p, HUGE_ORDER), HUGE_ORDER), x)
    requires forall x: nat :: Holds(Node(Up(p, HUGE_ORDER), HUGE_ORDER), x) ==> x in was
    requires forall x: nat :: x in was ==> x < NPAGES
    ensures AddressSpace.IsFreeRun(NPAGES, was, p) && now == was - PageTable.HugeRun(p)
  {
    var q := Up(p, HUGE_ORDER);
    forall x: nat ensures Holds(Node(q, HUGE_ORDER), x) <==> x in PageTable.HugeRun(p) {
      HugeBlock(q, x);
    }
    hide Up; hide Head; hide Holds;
    HugeBlock(q, p);
    var last := p + PageTable.PTES - 1;
    assert PageTable.InRun(p, last);
    assert last in PageTable.HugeRun(p);
  }

  /** kfree_huge, and with order 0 kfree, of a block that the caller owns: exactly its pages
      become free. */
  method Give(b: Buddy, p: nat, order: nat) returns (ok: bool)
    requires b.Valid() && order <= MAX_ORDER && p < NPAGES && p % Pow2(order) == 0
    requires forall x: nat :: Holds(Node(Up(p, order), order), x) ==> x !in PagesOf(b.free)
    modifies b.Footprint()
    ensures ok && b.Valid() && forall x: nat :: x in PagesOf(b.free) <==> x in PagesOf(old(b.free)) || Holds(Node(Up(p, order), order), x)
  {
    hide Covers; hide Canonical; hide PagesOf; hide Buddy.Agrees; hide Up; hide Head; hide Pow2; hide Free;
    ghost var n := Node(Up(p, order), order);
    BlockAt(p, order);
    forall x: nat | Holds(n, x) ensures !Covers(b.free, x) {
      InPages(b.free, x);
    }
    FreedPages(b.free, n);
    ok := b.FreeLocked(p, order);
  }
}
