/** kernel/vm.c: user address spaces over a shared physical memory. */
module AddressSpace {
  import opened Params
  import opened Wrappers
  import opened PageTable

  /** An aligned huge page of an n-page memory, entirely free. */
  predicate IsFreeRun(n: nat, free: set<nat>, p: nat) {
    p % PTES == 0 && p + PTES <= n && HugeRun(p) <= free
  }

  ghost predicate HasFreeRun(n: nat, free: set<nat>) {
    exists q: nat :: IsFreeRun(n, free, q)
  }

  /** A free page that is not part of a free huge page. */
  predicate Loose(n: nat, free: set<nat>, p: nat) {
    p in free && !IsFreeRun(n, free, p / PTES * PTES)
  }

  /** Taking p breaks up a free huge page only if nothing else is free. */
  ghost predicate SparesRuns(n: nat, free: set<nat>, p: nat) {
    Loose(n, free, p) || forall q: nat :: !Loose(n, free, q)
  }

  /** The physical pages and the allocator's view of which are free.  A small
      allocation succeeds when any page is free, a huge one when an aligned run
      of 512 is, and a small one leaves the free huge pages alone while it can:
      BuddyMemory proves that kernel/kalloc.c does so. */
  class Memory {
    var mem: seq<Page>
    var free: set<nat>

    ghost predicate Ok()
      reads this
    {
      forall p :: p in free ==> p < |mem|
    }

    /** mem and other agree on every page that is not free in f. */
    ghost predicate OutsideSame(other: seq<Page>, f: set<nat>)
      reads this
    {
      |mem| == |other| && forall p :: 0 <= p < |other| && p !in f ==> mem[p] == other[p]
    }

    method Kalloc() returns (p: int)
      requires Ok()
      modifies this
      ensures Ok() && (p < 0 <==> old(free) == {})
      ensures p < 0 ==> free == old(free) && mem == old(mem)
      ensures p >= 0 ==> p in old(free) && free == old(free) - {p} && OutsideSame(old(mem), {p})
      ensures p >= 0 ==> SparesRuns(|old(mem)|, old(free), p)
    {
      if free == {} { return -1; }
      var q :| q in free;
      if x :| x in free && Loose(|mem|, free, x) { q := x; }
      p := q;
      free := free - {q};
      mem := mem[q := [5]];
    }

    method KallocHuge() returns (p: int)
      requires Ok()
      modifies this
      ensures Ok() && (p < 0 <==> !HasFreeRun(|old(mem)|, old(free)))
      ensures p < 0 ==> free == old(free) && mem == old(mem)
      ensures p >= 0 ==> IsFreeRun(|old(mem)|, old(free), p) && free == old(free) - HugeRun(p) && OutsideSame(old(mem), HugeRun(p))
    {
      if q: nat :| q < |mem| && IsFreeRun(|mem|, free, q) {
        p := q;
        free := free - HugeRun(q);
        mem := seq(|mem|, i requires 0 <= i < |mem| reads this => if InRun(q, i) then [5] else mem[i]);
      } else {
        p := -1;
      }
    }

    method Kfree(p: nat)
      requires Ok() && p !in free && p < |mem|
      modifies this
      ensures Ok() && free == old(free) + {p} && OutsideSame(old(mem), {p})
    {
      free := free + {p};
      mem := mem[p := [1]];
    }

    /** kfree_huge, which panics unless the page is aligned. */
    method KfreeHuge(p: nat)
      requires Ok() && p % PTES == 0 && p + PTES <= |mem| && free !! HugeRun(p)
      modifies this
      ensures Ok() && free == old(free) + HugeRun(p) && OutsideSame(old(mem), HugeRun(p))
    {
      free := free + HugeRun(p);
      mem := seq(|mem|, i requires 0 <= i < |mem| reads this => if InRun(p, i) then [1] else mem[i]);
    }

    /** memmove of a huge page onto another. */
    method CopyRun(dst: nat, src: nat)
      requires Ok() && dst + PTES <= |mem| && src + PTES <= |mem| && HugeRun(dst) !! HugeRun(src)
      modifies `mem
      ensures OutsideSame(old(mem), HugeRun(dst))
      ensures mem[dst..dst + PTES] == old(mem)[src..src + PTES]
    {
      RunsApart(dst, src);
      hide HugeRun; hide Copied;
      ghost var mem0 := mem;
      CopiedNone(mem0, dst, src);
      var i := 0;
      while i < PTES
        invariant 0 <= i <= PTES && |mem| == |mem0| && Copied(mem0, mem, dst, src, i)
      {
        CopiedOneMore(mem0, mem, dst, src, i);
        mem := mem[dst + i := mem[src + i]];
        i := i + 1;
      }
      CopiedAll(mem0, mem, dst, src);
    }

    /** memmove of one page. */
    method CopyPage(dst: nat, src: nat)
      requires Ok() && dst < |mem| && src < |mem|
      modifies `mem
      ensures mem == old(mem)[dst := old(mem)[src]]
    {
      mem := mem[dst := mem[src]];
    }
  }

  /** The first i pages of the run at dst hold what the run at src held. */
  ghost predicate Copied(mem0: seq<Page>, mem: seq<Page>, dst: nat, src: nat, i: nat) {
    && |mem| == |mem0| && dst + PTES <= |mem| && src + PTES <= |mem| && i <= PTES
    && (forall p :: 0 <= p < |mem| && !(dst <= p < dst + i) ==> mem[p] == mem0[p])
    && mem[dst..dst + i] == mem0[src..src + i]
  }

  lemma RunsApart(dst: nat, src: nat)
    requires HugeRun(dst) !! HugeRun(src)
    ensures dst + PTES <= src || src + PTES <= dst
  {
    assert dst in HugeRun(dst) && src in HugeRun(src);
    assert InRun(dst, src) ==> src in HugeRun(dst);
    assert InRun(src, dst) ==> dst in HugeRun(src);
  }

  lemma CopiedNone(mem: seq<Page>, dst: nat, src: nat)
    requires dst + PTES <= |mem| && src + PTES <= |mem|
    ensures Copied(mem, mem, dst, src, 0)
  {
  }

  lemma CopiedOneMore(mem0: seq<Page>, mem: seq<Page>, dst: nat, src: nat, i: nat)
    requires Copied(mem0, mem, dst, src, i) && i < PTES && (dst + PTES <= src || src + PTES <= dst)
    ensures dst + i < |mem| && src + i < |mem| && Copied(mem0, mem[dst + i := mem[src + i]], dst, src, i + 1)
  {
    var mem' := mem[dst + i := mem[src + i]];
    assert mem[src + i] == mem0[src + i];
    assert mem'[dst..dst + (i + 1)] == mem[dst..dst + i] + [mem0[src + i]];
    assert mem0[src..src + (i + 1)] == mem0[src..src + i] + [mem0[src + i]];
  }

  lemma CopiedAll(mem0: seq<Page>, mem: seq<Page>, dst: nat, src: nat)
    requires Copied(mem0, mem, dst, src, PTES)
    ensures mem[dst..dst + PTES] == mem0[src..src + PTES]
    ensures forall p :: 0 <= p < |mem| && p !in HugeRun(dst) ==> mem[p] == mem0[p]
  {
    forall p | 0 <= p < |mem| && p !in HugeRun(dst) ensures mem[p] == mem0[p] {
      assert InRun(dst, p) ==> p in HugeRun(dst);
    }
  }

  function Elements(s: seq<nat>): set<nat> {
    set p | p in s
  }

  /** The k-th page of `pages` holds what page first + k held in `was`. */
  ghost predicate HoldsCopy(mem: seq<Page>, pages: seq<nat>, was: seq<Page>, first: nat, k: int) {
    0 <= k < |pages| && pages[k] < |mem| && first + k < |was| && mem[pages[k]] == was[first + k]
  }

  predicate Within(first: nat, n: nat, p: nat) {
    first <= p < first + n
  }

  lemma {:induction false} IntervalSize(first: nat, n: nat)
    ensures |set p: nat | first <= p < first + n && Within(first, n, p)| == n
  {
    var s := set p: nat | first <= p < first + n && Within(first, n, p);
    if n == 0 {
      assert s == {};
    } else {
      IntervalSize(first, n - 1);
      var m: nat := n - 1;
      var t := set p: nat | first <= p < first + m && Within(first, m, p);
      assert s == t + {first + n - 1};
    }
  }

  lemma HugeRunSize(first: nat)
    ensures |HugeRun(first)| == PTES
  {
    IntervalSize(first, PTES);
    assert HugeRun(first) == set p: nat | first <= p < first + PTES && Within(first, PTES, p);
  }

  lemma OneMoreCopy(mem: seq<Page>, mem': seq<Page>, pages: seq<nat>, page: nat, was: seq<Page>, first: nat)
    requires forall k :: 0 <= k < |pages| ==> HoldsCopy(mem, pages, was, first, k)
    requires page < |mem| == |mem'| && page !in pages && first + |pages| < |was| && mem'[page] == was[first + |pages|]
    requires forall p :: 0 <= p < |mem| && p != page ==> mem'[p] == mem[p]
    ensures forall k :: 0 <= k <= |pages| ==> HoldsCopy(mem', pages + [page], was, first, k)
  {
    forall k | 0 <= k < |pages| ensures HoldsCopy(mem', pages + [page], was, first, k) {
      assert HoldsCopy(mem, pages, was, first, k);
      assert pages[k] in pages;
    }
  }

  /** The loop of split_huge_page has taken `pages` and copied as much of the huge page. */
  ghost predicate Copying(free0: set<nat>, free: set<nat>, mem0: seq<Page>, mem: seq<Page>, pages: seq<nat>, first: nat) {
    && Distinct(pages) && Elements(pages) <= free0 && free == free0 - Elements(pages) && |free| == |free0| - |pages|
    && |mem| == |mem0| && (forall p :: 0 <= p < |mem0| && p !in free0 ==> mem[p] == mem0[p])
    && (forall k :: 0 <= k < |pages| ==> HoldsCopy(mem, pages, mem0, first, k))
  }

  lemma CopyingNone(free: set<nat>, mem: seq<Page>, first: nat)
    ensures Copying(free, free, mem, mem, [], first)
  {
    assert Elements([]) == {};
  }

  lemma CopyingGives(free0: set<nat>, free: set<nat>, mem0: seq<Page>, mem: seq<Page>, pages: seq<nat>, first: nat)
    requires Copying(free0, free, mem0, mem, pages, first)
    ensures Distinct(pages) && Elements(pages) <= free0 && free == free0 - Elements(pages) && |free| == |free0| - |pages|
    ensures |mem| == |mem0| && forall p :: 0 <= p < |mem0| && p !in free0 ==> mem[p] == mem0[p]
    ensures forall k :: 0 <= k < |pages| ==> HoldsCopy(mem, pages, mem0, first, k)
  {
  }

  lemma CopyingMore(free0: set<nat>, free: set<nat>, mem0: seq<Page>, mem: seq<Page>, mem1: seq<Page>, pages: seq<nat>, page: nat, first: nat)
    requires Copying(free0, free, mem0, mem, pages, first) && |pages| < PTES && first + PTES <= |mem0| && page in free && page < |mem|
    requires |mem1| == |mem| && (forall p :: 0 <= p < |mem| && p != page ==> mem1[p] == mem[p]) && forall p :: InRun(first, p) ==> p !in free0
    ensures first + |pages| < |mem1| && Copying(free0, free - {page}, mem0, mem1[page := mem1[first + |pages|]], pages + [page], first)
  {
    hide HoldsCopy;
    var n := |pages|;
    assert InRun(first, first + n) && page !in pages;
    assert Elements(pages + [page]) == Elements(pages) + {page};
    OneMoreCopy(mem, mem1[page := mem1[first + n]], pages, page, mem0, first);
  }

  lemma SameCopies(mem: seq<Page>, pages: seq<nat>, mid: seq<Page>, was: seq<Page>, free: set<nat>, first: nat)
    requires |mid| == |was| && forall p :: 0 <= p < |was| && p !in free ==> mid[p] == was[p]
    requires forall k :: 0 <= k < |pages| ==> HoldsCopy(mem, pages, mid, first, k)
    requires |pages| <= PTES && forall p :: InRun(first, p) ==> p !in free
    ensures forall k :: 0 <= k < |pages| ==> HoldsCopy(mem, pages, was, first, k)
  {
    forall k | 0 <= k < |pages| ensures HoldsCopy(mem, pages, was, first, k) {
      assert HoldsCopy(mem, pages, mid, first, k) && InRun(first, first + k);
    }
  }

  class Space {
    var pt: PT
    const m: Memory

    ghost predicate Ok()
      reads this, m
    {
      m.Ok() && Valid(pt, m.mem, m.free)
    }

    /** uvmcreate, on the page kalloc returned: an empty table. */
    constructor (m: Memory, root: nat)
      requires m.Ok() && root < |m.mem| && root !in m.free
      ensures this.m == m && Ok() && pt.root == root && forall v: nat :: Flat(pt, m.mem, v) == None
    {
      this.m := m;
      pt := PT(root, map[], map[], map[]);
    }

    /** The copying loop of split_huge_page: 512 fresh pages, or all that there were. */
    method CopyOut(first: nat) returns (pages: seq<nat>)
      requires m.Ok() && first + PTES <= |m.mem| && forall p :: InRun(first, p) ==> p !in m.free
      modifies m
      ensures m.Ok() && |pages| <= PTES && Distinct(pages) && Elements(pages) <= old(m.free)
      ensures m.free == old(m.free) - Elements(pages) && |m.free| == |old(m.free)| - |pages|
      ensures |pages| < PTES ==> m.free == {}
      ensures m.OutsideSame(old(m.mem), old(m.free))
      ensures forall k :: 0 <= k < |pages| ==> HoldsCopy(m.mem, pages, old(m.mem), first, k)
    {
      ghost var free0, mem0 := m.free, m.mem;
      pages := [];
      CopyingNone(free0, mem0, first);
      while |pages| < PTES
        invariant m.Ok() && |pages| <= PTES && Copying(free0, m.free, mem0, m.mem, pages, first)
      {
        hide Copying; hide InRun;
        ghost var free1, mem1 := m.free, m.mem;
        var page := m.Kalloc();
        if page < 0 {
          CopyingGives(free0, m.free, mem0, m.mem, pages, first);
          return;
        }
        CopyingMore(free0, free1, mem0, mem1, m.mem, pages, page, first);
        m.CopyPage(page, first + |pages|);
        pages := pages + [page];
      }
    }

    /** The failure path of split_huge_page gives back what it took. */
    method GiveBack(pages: seq<nat>)
      requires m.Ok() && Distinct(pages) && forall p :: p in pages ==> p !in m.free && p < |m.mem|
      modifies m
      ensures m.Ok() && m.free == old(m.free) + Elements(pages) && m.OutsideSame(old(m.mem), Elements(pages))
    {
      var i := 0;
      while i < |pages|
        invariant 0 <= i <= |pages| && m.Ok()
        invariant m.free == old(m.free) + Elements(pages[..i]) && m.OutsideSame(old(m.mem), Elements(pages))
      {
        assert pages[i] in pages && pages[i] !in pages[..i];
        m.Kfree(pages[i]);
        assert pages[..i + 1] == pages[..i] + [pages[i]];
        i := i + 1;
      }
      assert pages[..i] == pages;
    }

    /** The label `fail` of split_huge_page. */
    method Abandon(l0: nat, scratch: nat, pages: seq<nat>)
      requires m.Ok() && Distinct(pages) && l0 != scratch && l0 !in m.free && scratch !in m.free && l0 < |m.mem| && scratch < |m.mem|
      requires Elements(pages) !! m.free && l0 !in Elements(pages) && scratch !in Elements(pages)
      requires forall p :: p in Elements(pages) ==> p < |m.mem|
      modifies m
      ensures m.Ok() && m.free == old(m.free) + Elements(pages) + {l0, scratch}
      ensures m.OutsideSame(old(m.mem), Elements(pages) + {l0, scratch})
    {
      assert forall p :: p in pages ==> p in Elements(pages);
      GiveBack(pages);
      m.Kfree(l0);
      m.Kfree(scratch);
    }

    /** The table and the scratch page, or neither. */
    method TakeTwo() returns (ok: bool, l0: int, scratch: int)
      requires m.Ok()
      modifies m
      ensures m.Ok() && (ok <==> |old(m.free)| >= 2)
      ensures !ok ==> m.free == old(m.free) && m.OutsideSame(old(m.mem), old(m.free))
      ensures ok ==> l0 >= 0 && scratch >= 0 && l0 != scratch && l0 in old(m.free) && scratch in old(m.free)
      ensures ok ==> m.free == old(m.free) - {l0, scratch} && |m.free| == |old(m.free)| - 2 && m.OutsideSame(old(m.mem), {l0, scratch})
    {
      ok, scratch := false, -1;
      ghost var free0 := m.free;
      l0 := m.Kalloc();
      if l0 < 0 { return; }
      scratch := m.Kalloc();
      if scratch < 0 {
        assert free0 == {l0};
        m.Kfree(l0);
        assert m.free == free0;
        return;
      }
      assert free0 == m.free + {l0, scratch};
      ok := true;
    }

    /** All the allocation of split_huge_page, undone if any of it fails. */
    method TakeForSplit(first: nat) returns (ok: bool, l0: int, scratch: int, pages: seq<nat>)
      requires m.Ok() && first + PTES <= |m.mem| && forall p :: InRun(first, p) ==> p !in m.free
      modifies m
      ensures m.Ok() && m.OutsideSame(old(m.mem), old(m.free))
      ensures ok <==> |old(m.free)| >= PTES + 2
      ensures !ok ==> m.free == old(m.free)
      ensures ok ==>
        && l0 >= 0 && scratch >= 0 && l0 != scratch && l0 in old(m.free) && scratch in old(m.free)
        && |pages| == PTES && Distinct(pages) && Elements(pages) <= old(m.free) - {l0, scratch}
        && m.free == old(m.free) - {l0, scratch} - Elements(pages)
        && |m.free| == |old(m.free)| - PTES - 2
        && forall k :: 0 <= k < PTES ==> HoldsCopy(m.mem, pages, old(m.mem), first, k)
    {
      hide HoldsCopy; hide InRun; hide Elements; hide Distinct;
      pages := [];
      ok, l0, scratch := TakeTwo();
      if !ok { return; }
      ghost var mid := m.mem;
      pages := CopyOut(first);
      if |pages| < PTES {
        Abandon(l0, scratch, pages);
        ok := false;
        return;
      }
      SameCopies(m.mem, pages, mid, old(m.mem), old(m.free), first);
    }

    /** The huge page and the scratch page go back. */
    method Release(first: nat, scratch: nat)
      requires m.Ok() && first % PTES == 0 && first + PTES <= |m.mem| && m.free !! HugeRun(first) && |HugeRun(first)| == PTES
      requires scratch < |m.mem| && scratch !in m.free && scratch !in HugeRun(first)
      modifies m
      ensures m.Ok() && m.free == old(m.free) + HugeRun(first) + {scratch} && |m.free| == |old(m.free)| + PTES + 1
      ensures m.OutsideSame(old(m.mem), HugeRun(first) + {scratch})
    {
      hide HugeRun;
      m.KfreeHuge(first);
      m.Kfree(scratch);
    }

    /** split_huge_page: fails exactly when h is not a huge leaf or fewer than 514
        pages are free (512 copies, their table and a scratch page).  Either way
        the process sees the same contents and permissions everywhere and no page
        is lost; success costs one page, failure leaves the free pages as they were. */
    method Split(h: nat) returns (ok: bool)
      requires Ok()
      modifies this, m
      ensures Ok() && (ok <==> old(h in pt.e1 && pt.e1[h].Leaf?) && |old(m.free)| >= PTES + 2)
      ensures SameSpace(old(pt), old(m.mem), pt, m.mem) && Conserved(old(pt), old(m.free), pt, m.free)
      ensures ForeignSame(old(pt), old(m.free), old(m.mem), m.mem)
      ensures !ok ==> pt == old(pt) && m.free == old(m.free)
      ensures pt.root == old(pt.root)
      ensures ok ==> h in pt.e1 && pt.e1[h].Table? && pt.e2 == old(pt.e2) && pt.e1 == old(pt.e1)[h := pt.e1[h]]
      ensures ok ==> |m.free| == |old(m.free)| - 1
    {
      hide Conserved; hide SameSpace; hide NoSharing; hide PpnAt; hide Valid; hide HugeRun; hide SmallLeaves; hide ForeignSame; hide Distinct; hide HoldsCopy; hide Elements; hide InRun;
      ghost var mem0, free0 := m.mem, m.free;
      Unchanged(pt, mem0, free0);
      if h !in pt.e1 || !pt.e1[h].Leaf? { return false; }
      var first, flags := pt.e1[h].ppn, pt.e1[h].flags;
      HugeLeaf(pt, mem0, free0, h);
      var l0, scratch, pages;
      ok, l0, scratch, pages := TakeForSplit(first);
      if !ok {
        FreeWrites(pt, mem0, free0, m.mem);
        return;
      }
      ghost var mem1, pt0 := m.mem, pt;
      pt := SplitTable(pt, h, l0, pages, flags);
      Release(first, scratch);
      FreeAfterSplit(free0, l0, scratch, Elements(pages), HugeRun(first));
      SplitDone(pt0, mem0, free0, h, l0, pages, mem1, m.mem, m.free);
    }

    /** The checking loop of vm_try_collapse. */
    method UniformFlags(h: nat) returns (ok: bool, flags: Flags)
      requires Ok() && h in pt.e1 && pt.e1[h].Table?
      ensures ok ==> Uniform(pt, h, flags)
      ensures !ok ==> forall f :: !Uniform(pt, h, f)
    {
      hide Valid;
      flags := Flags(false, false, false, false, 0);
      var i := 0;
      while i < PTES
        invariant 0 <= i <= PTES
        invariant forall k :: 0 <= k < i ==> SmallAt(pt, h, k, flags)
      {
        var v := h * PTES + i;
        assert InRegion(h, v);
        assert i > 0 ==> SmallAt(pt, h, 0, flags) && InRegion(h, h * PTES);
        if v !in pt.e0 || !pt.e0[v].Leaf? || !pt.e0[v].flags.u { return false, flags; }
        if i == 0 {
          flags := pt.e0[v].flags;
        } else if pt.e0[v].flags != flags {
          return false, flags;
        }
        assert SmallAt(pt, h, i, flags);
        i := i + 1;
      }
      forall v: nat | InRegion(h, v) ensures v in pt.e0 && pt.e0[v].Leaf? && pt.e0[v].flags == flags {
        assert SmallAt(pt, h, v % PTES, flags);
      }
      assert SmallAt(pt, h, 0, flags);
      ok := true;
    }

    /** The second loop of vm_try_collapse: fill the huge page. */
    method CopyIn(first: nat, h: nat, flags: Flags)
      requires m.Ok() && Uniform(pt, h, flags) && first + PTES <= |m.mem|
      requires forall v: nat :: InRegion(h, v) ==> pt.e0[v].ppn < |m.mem| && !InRun(first, pt.e0[v].ppn)
      modifies m`mem
      ensures m.OutsideSame(old(m.mem), HugeRun(first))
      ensures forall k :: 0 <= k < PTES ==> Filled(pt, h, m.mem, old(m.mem), first, k)
    {
      var i := 0;
      while i < PTES
        invariant 0 <= i <= PTES && |m.mem| == |old(m.mem)|
        invariant forall p :: 0 <= p < |m.mem| && !(first <= p < first + i) ==> m.mem[p] == old(m.mem)[p]
        invariant forall k :: 0 <= k < i ==> Filled(pt, h, m.mem, old(m.mem), first, k)
      {
        ghost var before := m.mem;
        assert InRegion(h, h * PTES + i);
        m.CopyPage(first + i, pt.e0[h * PTES + i].ppn);
        forall k | 0 <= k < i + 1 ensures Filled(pt, h, m.mem, old(m.mem), first, k) {
          if k < i { assert Filled(pt, h, before, old(m.mem), first, k); }
        }
        i := i + 1;
      }
      assert forall p: nat :: p in HugeRun(first) <==> InRun(first, p);
    }

    /** Allocate the huge page and fill it. */
    method MoveIn(h: nat, flags: Flags) returns (first: int)
      requires Ok() && Uniform(pt, h, flags)
      modifies m
      ensures m.Ok() && (first < 0 <==> !HasFreeRun(|old(m.mem)|, old(m.free)))
      ensures first < 0 ==> m.free == old(m.free) && m.mem == old(m.mem)
      ensures first >= 0 ==> IsFreeRun(|old(m.mem)|, old(m.free), first) && m.free == old(m.free) - HugeRun(first) && m.OutsideSame(old(m.mem), HugeRun(first))
      ensures first >= 0 ==> forall k :: 0 <= k < PTES ==> Filled(pt, h, m.mem, old(m.mem), first, k)
    {
      hide Uniform; hide Valid; hide HugeRun; hide Filled;
      first := m.KallocHuge();
      if first >= 0 {
        SmallPages(pt, old(m.mem), old(m.free), h, flags, first);
        ghost var mid := m.mem;
        CopyIn(first, h, flags);
        FilledSame(pt, h, flags, m.mem, mid, old(m.mem), first);
      }
    }

    /** The third loop of vm_try_collapse, and the table itself. */
    method FreeSmall(h: nat)
      requires m.Ok() && h in pt.e1 && pt.e1[h].ppn !in m.free && pt.e1[h].ppn < |m.mem|
      requires var s := SmallSeq(pt, h); pt.e1[h].ppn !in Elements(s) && Distinct(s) && forall p :: p in s ==> p !in m.free && p < |m.mem|
      modifies m
      ensures m.Ok()
      ensures var gone := Elements(SmallSeq(pt, h)) + {pt.e1[h].ppn}; m.free == old(m.free) + gone && m.OutsideSame(old(m.mem), gone)
    {
      var small := SmallSeq(pt, h);
      hide Elements; hide SmallSeq; hide Distinct;
      GiveBack(small);
      m.Kfree(pt.e1[h].ppn);
    }

    /** vm_try_collapse: succeeds exactly when the region lies below sz, is mapped by
        512 user pages with equal flags, and an aligned free huge page exists.
        Either way the process sees the same space, no other page changes and none is lost;
        success gives back one page, refusal changes nothing. */
    method Collapse(h: nat, sz: nat) returns (ok: bool)
      requires Ok()
      modifies this, m
      ensures Ok()
      ensures ok <==> (h + 1) * HUGEPGSIZE <= sz && old(exists f :: Uniform(pt, h, f)) && HasFreeRun(|old(m.mem)|, old(m.free))
      ensures SameSpace(old(pt), old(m.mem), pt, m.mem) && Conserved(old(pt), old(m.free), pt, m.free)
      ensures ForeignSame(old(pt), old(m.free), old(m.mem), m.mem)
      ensures !ok ==> pt == old(pt) && m.free == old(m.free) && m.mem == old(m.mem)
      ensures ok ==> h in pt.e1 && pt.e1[h].Leaf? && pt.e2 == old(pt.e2) && pt.e1 == old(pt.e1)[h := pt.e1[h]]
      ensures ok ==> |m.free| == |old(m.free)| + 1
    {
      hide Conserved; hide SameSpace; hide Valid; hide HugeRun; hide Uniform; hide CollapseTable; hide Elements; hide SmallSeq; hide Distinct; hide Filled;
      ghost var pt0, mem0, free0 := pt, m.mem, m.free;
      Unchanged(pt, mem0, free0);
      UniformIsTable(pt, h);
      if (h + 1) * HUGEPGSIZE > sz { return false; }
      if h !in pt.e1 || !pt.e1[h].Table? { return false; }
      var flags;
      ok, flags := UniformFlags(h);
      if !ok { return; }
      var first := MoveIn(h, flags);
      if first < 0 { return false; }
      ghost var mem1 := m.mem;
      SmallPages(pt0, mem0, free0, h, flags, first);
      FreeSmall(h);
      pt := CollapseTable(pt, h, first, flags);
      CollapseFields(pt0, h, first, flags);
      CollapseDone(pt0, mem0, free0, h, first, flags, mem1, m.mem, m.free);
      OnlyOwnChanged(pt0, free0, mem0, HugeRun(first), mem1, pt, m.free, m.mem);
    }
  }

  const HUGEPGSIZE: nat := PGSIZE * PTES

  lemma CollapseFields(pt: PT, h: nat, first: nat, flags: Flags)
    ensures var pt' := CollapseTable(pt, h, first, flags); pt'.e2 == pt.e2 && pt'.e1 == pt.e1[h := Leaf(first, flags)]
  {
  }

  lemma UniformIsTable(pt: PT, h: nat)
    ensures (exists f :: Uniform(pt, h, f)) ==> h in pt.e1 && pt.e1[h].Table?
  {
  }

  /** The physical pages of the 512 small leaves of region h. */
  function SmallSeq(pt: PT, h: nat): (s: seq<nat>)
    ensures |s| == PTES && forall k :: 0 <= k < PTES ==> s[k] == PpnOrZero(pt, h * PTES + k)
  {
    seq<nat>(PTES, k requires 0 <= k < PTES => PpnOrZero(pt, h * PTES + k))
  }

  function PpnOrZero(pt: PT, v: nat): nat {
    if v in pt.e0 then pt.e0[v].ppn else 0
  }

  lemma SmallPages(pt: PT, mem: seq<Page>, free: set<nat>, h: nat, flags: Flags, first: nat)
    requires Valid(pt, mem, free) && Uniform(pt, h, flags) && HugeRun(first) <= free && first + PTES <= |mem|
    ensures h in pt.e1 && pt.e1[h].Table? && pt.e1[h].ppn !in free && pt.e1[h].ppn < |mem| && pt.e1[h].ppn !in Elements(SmallSeq(pt, h))
    ensures Distinct(SmallSeq(pt, h)) && Elements(SmallSeq(pt, h)) !! free && |Elements(SmallSeq(pt, h))| == PTES
    ensures forall p :: p in SmallSeq(pt, h) ==> p !in free && p < |mem|
    ensures forall v: nat :: InRegion(h, v) ==> v in pt.e0 && pt.e0[v].ppn < |mem| && !InRun(first, pt.e0[v].ppn)
    ensures forall p: nat :: InRun(first, p) ==> p in free
    ensures |HugeRun(first)| == PTES
  {
    var s := SmallSeq(pt, h);
    forall v: nat | InRegion(h, v) ensures v in pt.e0 && PpnAt(pt, Frame(v)) == Some(pt.e0[v].ppn) {
    }
    assert forall p: nat :: p in HugeRun(first) <==> InRun(first, p);
    HugeRunSize(first);
    assert PpnAt(pt, Level0(h)) == Some(pt.e1[h].ppn);
    forall k | 0 <= k < PTES ensures PpnAt(pt, Frame(h * PTES + k)) == Some(s[k]) {
      assert InRegion(h, h * PTES + k);
    }
    hide PpnAt;
    forall i, j | 0 <= i < j < PTES ensures s[i] != s[j] {
      assert PpnAt(pt, Frame(h * PTES + i)) == Some(s[i]) && PpnAt(pt, Frame(h * PTES + j)) == Some(s[j]);
    }
    DistinctSize(s);
  }

  lemma {:induction false} DistinctSize(s: seq<nat>)
    requires Distinct(s)
    ensures |Elements(s)| == |s|
  {
    if s == [] {
      assert Elements(s) == {};
    } else {
      var t := s[..|s| - 1];
      DistinctSize(t);
      assert s == t + [s[|s| - 1]];
      assert Elements(s) == Elements(t) + {s[|s| - 1]};
      assert s[|s| - 1] !in t;
    }
  }

  /** Putting the pieces of a collapse together; mem1 is memory once the huge page is filled. */
  lemma CollapseDone(pt: PT, mem: seq<Page>, free: set<nat>, h: nat, first: nat, flags: Flags, mem1: seq<Page>, mem': seq<Page>, free': set<nat>)
    requires Valid(pt, mem, free) && Uniform(pt, h, flags) && HugeRun(first) <= free && first % PTES == 0 && first + PTES <= |mem| && forall p :: p in free ==> p < |mem|
    requires |mem1| == |mem'| == |mem| && forall p :: 0 <= p < |mem| && p !in HugeRun(first) ==> mem1[p] == mem[p]
    requires forall k :: 0 <= k < PTES ==> Filled(pt, h, mem1, mem, first, k)
    requires free' == free - HugeRun(first) + Elements(SmallSeq(pt, h)) + {pt.e1[h].ppn}
    requires forall p :: 0 <= p < |mem| && p !in free' ==> mem'[p] == mem1[p]
    ensures var pt' := CollapseTable(pt, h, first, flags);
      Valid(pt', mem', free') && Conserved(pt, free, pt', free') && SameSpace(pt, mem, pt', mem')
  {
    hide CollapseTable; hide Valid; hide HugeRun; hide Uniform; hide Elements; hide Filled; hide SmallSeq;
    var pt' := CollapseTable(pt, h, first, flags);
    SmallPages(pt, mem, free, h, flags, first);
    FilledByPage(pt, h, flags, mem1, mem, first);
    forall p: nat ensures p in free' <==>
      (p in free && !InRun(first, p)) || p == pt.e1[h].ppn || exists v: nat :: InRegion(h, v) && pt.e0[v].ppn == p
    {
      SmallElements(pt, h, flags, first, p);
    }
    CollapseSame(pt, mem, free, h, first, flags, mem1);
    CollapseValid(pt, mem, free, h, first, flags, free');
    hide SameSpace; hide Flat;
    SameSize(pt', mem, mem1, free');
    FreeWrites(pt', mem1, free', mem');
    SameSpaceTrans(pt, mem, pt', mem1, pt', mem');
  }

  /** Writes to free pages, and to pages that are free in the end, touch nobody else's. */
  lemma OnlyOwnChanged(pt: PT, free: set<nat>, mem: seq<Page>, taken: set<nat>, mem1: seq<Page>, pt': PT, free': set<nat>, mem': seq<Page>)
    requires taken <= free && Conserved(pt, free, pt', free') && |mem1| == |mem'| == |mem|
    requires forall p :: 0 <= p < |mem| && p !in taken ==> mem1[p] == mem[p]
    requires forall p :: 0 <= p < |mem| && p !in free' ==> mem'[p] == mem1[p]
    ensures ForeignSame(pt, free, mem, mem')
  {
    hide Owns;
  }

  lemma SameSpaceTrans(a: PT, am: seq<Page>, b: PT, bm: seq<Page>, c: PT, cm: seq<Page>)
    requires SameSpace(a, am, b, bm) && SameSpace(b, bm, c, cm)
    ensures SameSpace(a, am, c, cm)
  {
  }

  lemma FilledByPage(pt: PT, h: nat, flags: Flags, mem: seq<Page>, was: seq<Page>, first: nat)
    requires Uniform(pt, h, flags) && first + PTES <= |mem|
    requires forall k :: 0 <= k < PTES ==> Filled(pt, h, mem, was, first, k)
    ensures forall v: nat :: InRegion(h, v) && pt.e0[v].ppn < |was| ==> mem[first + v % PTES] == was[pt.e0[v].ppn]
  {
    forall v: nat | InRegion(h, v) && pt.e0[v].ppn < |was| ensures mem[first + v % PTES] == was[pt.e0[v].ppn] {
      assert Filled(pt, h, mem, was, first, v % PTES);
    }
  }

  lemma FilledSame(pt: PT, h: nat, flags: Flags, mem: seq<Page>, mid: seq<Page>, was: seq<Page>, first: nat)
    requires Uniform(pt, h, flags) && |mid| == |was| && forall p :: 0 <= p < |was| && p !in HugeRun(first) ==> mid[p] == was[p]
    requires forall v: nat :: InRegion(h, v) ==> !InRun(first, pt.e0[v].ppn)
    requires forall k :: 0 <= k < PTES ==> Filled(pt, h, mem, mid, first, k)
    ensures forall k :: 0 <= k < PTES ==> Filled(pt, h, mem, was, first, k)
  {
    forall k | 0 <= k < PTES ensures Filled(pt, h, mem, was, first, k) {
      assert Filled(pt, h, mem, mid, first, k) && InRegion(h, h * PTES + k);
    }
  }

  lemma SmallElements(pt: PT, h: nat, flags: Flags, first: nat, p: nat)
    requires Uniform(pt, h, flags)
    ensures p in Elements(SmallSeq(pt, h)) <==> exists v: nat :: InRegion(h, v) && pt.e0[v].ppn == p
    ensures p in HugeRun(first) <==> InRun(first, p)
  {
    if p in SmallSeq(pt, h) {
      var k :| 0 <= k < PTES && SmallSeq(pt, h)[k] == p;
      assert InRegion(h, h * PTES + k) && pt.e0[h * PTES + k].ppn == p;
    }
    if v: nat :| InRegion(h, v) && pt.e0[v].ppn == p {
      assert SmallSeq(pt, h)[v % PTES] == p;
    }
  }

  /** The k-th small page of region h is a user leaf with these flags. */
  ghost predicate SmallAt(pt: PT, h: nat, k: int, flags: Flags) {
    0 <= k && h * PTES + k in pt.e0 && pt.e0[h * PTES + k] == Leaf(pt.e0[h * PTES + k].ppn, flags) && flags.u
  }

  /** The k-th page of the huge page at `first` holds what the k-th small page of region h held. */
  ghost predicate Filled(pt: PT, h: nat, mem: seq<Page>, was: seq<Page>, first: nat, k: int) {
    && 0 <= k && h * PTES + k in pt.e0 && pt.e0[h * PTES + k].ppn < |was| && first + k < |mem|
    && mem[first + k] == was[pt.e0[h * PTES + k].ppn]
  }

  lemma FreeAfterSplit(free: set<nat>, l0: nat, scratch: nat, pages: set<nat>, run: set<nat>)
    requires l0 != scratch && l0 in free && scratch in free && pages <= free - {l0, scratch}
    ensures free - {l0, scratch} - pages + run + {scratch} == free - {l0} - pages + run
  {
  }

  /** Putting the pieces of a split together; mem1 is memory once the copies are made. */
  lemma SplitDone(pt: PT, mem: seq<Page>, free: set<nat>, h: nat, l0: nat, pages: seq<nat>, mem1: seq<Page>, mem': seq<Page>, free': set<nat>)
    requires Valid(pt, mem, free) && h in pt.e1 && pt.e1[h].Leaf? && pt.e1[h].ppn + PTES <= |mem| && forall p :: p in free ==> p < |mem|
    requires |pages| == PTES && Distinct(pages) && l0 in free && Elements(pages) <= free - {l0}
    requires forall k :: 0 <= k < PTES ==> HoldsCopy(mem1, pages, mem, pt.e1[h].ppn, k)
    requires |mem1| == |mem'| == |mem| && forall p :: 0 <= p < |mem| && p !in free ==> mem1[p] == mem[p]
    requires free' == free - {l0} - Elements(pages) + HugeRun(pt.e1[h].ppn)
    requires forall p :: 0 <= p < |mem| && p !in free' ==> mem'[p] == mem1[p]
    ensures var pt' := SplitTable(pt, h, l0, pages, pt.e1[h].flags);
      Valid(pt', mem', free') && Conserved(pt, free, pt', free') && SameSpace(pt, mem, pt', mem') && ForeignSame(pt, free, mem, mem')
  {
    RunIsOwned(pt, h);
    var pt', first := SplitTable(pt, h, l0, pages, pt.e1[h].flags), pt.e1[h].ppn;
    forall k | 0 <= k < PTES ensures pages[k] in free && pages[k] < |mem| && mem1[pages[k]] == mem[first + k] {
      assert HoldsCopy(mem1, pages, mem, first, k);
      assert pages[k] in Elements(pages);
    }
    assert forall p: nat :: p in HugeRun(first) <==> InRun(first, p);
    assert forall p: nat :: p in Elements(pages) <==> p in pages;
    SplitSame(pt, mem, free, h, l0, pages, mem1);
    SplitValid(pt, mem, free, h, l0, pages, free');
    hide SplitTable; hide Valid; hide Flat; hide HugeRun;
    assert Valid(pt', mem1, free') by { SameSize(pt', mem, mem1, free'); }
    FreeWrites(pt', mem1, free', mem');
  }

  lemma SameSize(pt: PT, mem: seq<Page>, mem': seq<Page>, free: set<nat>)
    requires Valid(pt, mem, free) && |mem'| == |mem|
    ensures Valid(pt, mem', free)
  {
  }

  lemma RunIsOwned(pt: PT, h: nat)
    requires WellFormed(pt) && h in pt.e1 && pt.e1[h].Leaf?
    ensures forall p: nat :: p in HugeRun(pt.e1[h].ppn) ==> Owns(pt, p)
  {
    forall p: nat | p in HugeRun(pt.e1[h].ppn) ensures Owns(pt, p) {
      RunOwned(pt, h, p);
    }
  }

  lemma Unchanged(pt: PT, mem: seq<Page>, free: set<nat>)
    ensures SameSpace(pt, mem, pt, mem) && Conserved(pt, free, pt, free) && ForeignSame(pt, free, mem, mem)
  {
  }

  /** The pages of a huge leaf are in memory and not free. */
  lemma HugeLeaf(pt: PT, mem: seq<Page>, free: set<nat>, h: nat)
    requires Valid(pt, mem, free) && h in pt.e1 && pt.e1[h].Leaf?
    ensures pt.e1[h].ppn % PTES == 0 && Grants(pt.e1[h].flags) && pt.e1[h].ppn + PTES <= |mem| && free !! HugeRun(pt.e1[h].ppn)
    ensures forall p: nat :: InRun(pt.e1[h].ppn, p) ==> p !in free
    ensures |HugeRun(pt.e1[h].ppn)| == PTES && forall p: nat :: p in HugeRun(pt.e1[h].ppn) <==> InRun(pt.e1[h].ppn, p)
  {
    DropHuge(pt, mem, free, h);
    HugeRunSize(pt.e1[h].ppn);
    assert forall p: nat :: p in HugeRun(pt.e1[h].ppn) <==> InRun(pt.e1[h].ppn, p);
  }
}
