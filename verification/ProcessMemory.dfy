/** The user memory of a process: its size and its page table, as growproc and kfork
    (kernel/proc.c), sys_sbrk (kernel/sysproc.c), and vmfault and vm_try_collapse
    (kernel/vm.c) change them, until uvmfree takes it back. */
module ProcessMemory {
  import opened Params
  import opened Wrappers
  import opened PageTable
  import opened AddressSpace
  import opened UserMap
  import opened UserUnmap
  import opened UserFree
  import opened CopyCost
  import opened UserCopy
  import opened GrowMemory

  /** PTE_R | PTE_U | PTE_W. */
  const USER_RW: Flags := Flags(true, true, false, true, 0)

  /** A process with n pages free can be cut down from hi pages to lo. */
  ghost predicate CanShrink(pt: PT, n: nat, lo: nat, hi: nat) {
    lo < hi ==> hi <= MAXPAGES && (CutsHuge(pt, lo) ==> n >= PTES + 2)
  }

  /** Only the new end of a process can cut a huge leaf, so shrinking it panics exactly when
      that leaf cannot be split, or when its size had passed MAXVA. */
  lemma ShrinkIff(pt: PT, mem: seq<Page>, free: set<nat>, lo: nat, hi: nat)
    requires Valid(pt, mem, free) && (hi == 0 || LeavesBelow(pt, hi))
    ensures CanUnmap(pt, |free|, lo, hi, true) <==> CanShrink(pt, |free|, lo, hi)
  {
    if hi > 0 { LeavesBelowIff(pt, mem, free, hi); }
  }

  /** All leaves lie below MAXVA, and so below any size beyond that. */
  lemma BelowMaxva(pt: PT, mem: seq<Page>, free: set<nat>, n: nat)
    requires Valid(pt, mem, free) && n >= MAXPAGES
    ensures LeavesBelow(pt, n)
  {
  }

  /** Nothing is in the way of a growing process but MAXVA. */
  lemma OnlyMaxvaBlocks(pt: PT, mem: seq<Page>, free: set<nat>, lo: nat, hi: nat)
    requires Valid(pt, mem, free) && LeavesBelow(pt, lo) && lo <= hi
    ensures FirstBlocked(pt, lo, hi) == if hi <= MAXPAGES then hi else if lo < MAXPAGES then MAXPAGES else lo
  {
    BelowIsVacant(pt, mem, free, lo, hi);
    hide Valid; hide LeavesBelow; hide Walk;
    var stop := FirstBlocked(pt, lo, hi);
    assert stop < hi ==> stop >= MAXPAGES;
    assert lo < stop ==> !Blocked(pt, stop - 1);
  }

  /** Two spaces that show the same up to n, and nothing from there on, show the same. */
  lemma CopyIsWhole(po: PT, pt0: PT, mem0: seq<Page>, pt: PT, mem: seq<Page>, free: set<nat>, n: nat)
    requires Valid(po, mem, free) && Valid(pt, mem, free) && LeavesBelow(po, n)
    requires NowCopies(pt0, mem0, pt, mem, po, 0, CopyEnd(po, n)) && EmptyFrom(pt0, mem0, 0)
    ensures SameSpace(po, mem, pt, mem) && LeavesBelow(pt, n)
  {
    LeavesBelowIff(po, mem, free, n);
    LeavesBelowIff(pt, mem, free, n);
    hide LeavesBelow; hide Valid; hide Flat; hide CutsHuge;
    assert CopyEnd(po, n) == n;
  }

  lemma EndIsSize(pt: PT, mem: seq<Page>, free: set<nat>, n: nat)
    requires Valid(pt, mem, free) && LeavesBelow(pt, n)
    ensures CopyEnd(pt, n) == n
  {
    LeavesBelowIff(pt, mem, free, n);
    hide LeavesBelow; hide Valid; hide Flat; hide CutsHuge;
  }

  datatype Fault = Served | Refused | Panic

  class Process {
    var sz: nat
    const s: Space

    /** Nothing is mapped beyond the size of the process. */
    ghost predicate Ok()
      reads this, s, s.m
    {
      s.Ok() && sz < UINT64 && LeavesBelow(s.pt, Pages(sz))
    }

    /** A process with a table that uvmcreate made. */
    constructor (s: Space)
      requires s.Ok() && s.pt.e1 == map[] && s.pt.e0 == map[]
      ensures this.s == s && Ok() && sz == 0
    {
      this.s := s;
      sz := 0;
    }

    /** growproc: -1 and the same space without memory; otherwise sz + n, in 64 bits, becomes
        the size, with zeroed pages for what is new and without the pages beyond it.  Taking
        away more than there is, or passing 2^64, changes nothing.  It panics exactly when a
        shrinking process needs a split without memory, or when a growing one has memory up
        to a page that is mapped or beyond MAXVA. */
    method Growproc(n: int) returns (r: int, ok: bool)
      requires Ok() && -0x8000_0000 <= n < 0x8000_0000
      modifies this, s, s.m
      ensures n < 0 <= old(sz) + n ==> (ok <==> CanShrink(old(s.pt), |old(s.m.free)|, PagesUp(old(sz) + n), PagesUp(old(sz))))
      ensures 0 < n < UINT64 - old(sz) ==> (!ok <==> GrowPanics(old(s.pt), |old(s.m.free)|, PagesUp(old(sz)), Pages(old(sz) + n)))
      ensures 0 < n < UINT64 - old(sz) ==> (ok && r == 0 <==> CanGrow(old(s.pt), |old(s.m.free)|, PagesUp(old(sz)), Pages(old(sz) + n)))
      ensures n == 0 || !(0 <= old(sz) + n < UINT64) ==> ok && r == 0
      ensures ok ==> Ok() && r in {0, -1} && (r == -1 ==> n > 0) && Tidy(old(s.pt), old(s.m.mem), old(s.m.free), s.pt, s.m.mem, s.m.free)
      ensures ok && (r == -1 || n == 0 || !(0 <= old(sz) + n < UINT64)) ==> sz == old(sz) && SameSpace(old(s.pt), old(s.m.mem), s.pt, s.m.mem)
      ensures ok && r == 0 && 0 <= old(sz) + n < UINT64 ==> sz == old(sz) + n
      ensures ok && r == 0 && 0 < n < UINT64 - old(sz) ==> Grown(old(s.pt), old(s.m.mem), s.pt, s.m.mem, PagesUp(old(sz)), Pages(sz), USER_RW)
      ensures ok && n < 0 <= old(sz) + n ==> Unmapped(old(s.pt), old(s.m.mem), s.pt, s.m.mem, PagesUp(sz), PagesUp(old(sz)))
    {
      hide Valid; hide Tidy; hide Flat; hide SameSpace; hide Grown; hide Unmapped; hide LeavesBelow; hide CanUnmap; hide CanShrink; hide CanGrow; hide GrowPanics; hide GrowCost; hide Pages; hide PagesUp;
      ghost var pt0, mem0, free0 := s.pt, s.m.mem, s.m.free;
      TidyRefl(pt0, mem0, free0);
      var newsz := (sz + n) % UINT64;
      Wrapped(sz, n);
      RoundsUp(sz);
      RoundsUp(newsz);
      var size := sz;
      ok := true;
      if n > 0 {
        var out;
        size, out := Uvmalloc(s, sz, newsz, USER_RW);
        if out in {RemapPanic, WalkPanic} { return 0, false; }
        BelowSameIf(pt0, mem0, free0, s.pt, s.m.mem, s.m.free, Pages(sz));
        NoGrowthBeyond(pt0, |free0|, sz, newsz);
        if size == 0 { return -1, true; }
      } else if n < 0 {
        ShrinkIff(pt0, mem0, free0, PagesUp(newsz), PagesUp(sz));
        size, ok := Uvmdealloc(s, sz, newsz);
        LateSizes(sz, newsz, s.pt, s.m.mem, s.m.free);
      }
      sz := size;
      r := 0;
    }

    /** sys_sbrk without SBRK_EAGER: only the size grows. */
    method SbrkLazy(n: nat) returns (r: int)
      requires Ok() && n < 0x8000_0000
      modifies `sz
      ensures Ok() && (r == -1 <==> old(sz) + n >= UINT64)
      ensures r != -1 ==> r == old(sz) && sz == old(sz) + n
      ensures r == -1 ==> sz == old(sz)
    {
      if sz + n >= UINT64 { return -1; }
      r := sz;
      sz := sz + n;
      assert Pages(r) <= Pages(sz);
    }

    /** vmfault: a zeroed page at an address below the size that had none, exactly if the page
        and its missing tables can be had, and else nothing; beyond MAXVA, below a size that
        has passed it, a panic. */
    method Vmfault(va: nat) returns (r: Fault)
      requires Ok()
      modifies s, s.m
      ensures r == Panic <==> va < sz && va / PGSIZE >= MAXPAGES
      ensures r == Served <==> va < sz && !Blocked(old(s.pt), va / PGSIZE) && |old(s.m.free)| > MissingTables(old(s.pt), va / PGSIZE / PTES, true)
      ensures r == Served ==> NowMaps(old(s.pt), old(s.m.mem), s.pt, s.m.mem, va / PGSIZE, Mapping(ZERO, USER_RW))
      ensures r != Served ==> SameSpace(old(s.pt), old(s.m.mem), s.pt, s.m.mem)
      ensures Ok() && Tidy(old(s.pt), old(s.m.mem), old(s.m.free), s.pt, s.m.mem, s.m.free)
    {
      hide Valid; hide Tidy; hide Flat; hide SameSpace; hide NowMaps; hide LeavesBelow; hide Walk; hide MissingTables;
      ghost var pt0, mem0, free0 := s.pt, s.m.mem, s.m.free;
      TidyRefl(pt0, mem0, free0);
      if va >= sz { return Refused; }
      if va / PGSIZE >= MAXPAGES { return Panic; }
      if Walk(s.pt, va / PGSIZE) != Missing { return Refused; }
      var out := GrowOne(s, va / PGSIZE, USER_RW);
      if out == Mapped {
        BelowMapped(pt0, mem0, free0, s.pt, s.m.mem, s.m.free, va / PGSIZE, Mapping(ZERO, USER_RW), Pages(sz));
        r := Served;
      } else {
        BelowSame(pt0, mem0, free0, s.pt, s.m.mem, s.m.free, Pages(sz));
        r := Refused;
      }
    }

    /** vm_try_collapse keeps the process, and what it sees, as it was. */
    method TryCollapse(h: nat) returns (ok: bool)
      requires Ok()
      modifies s, s.m
      ensures Ok() && SameSpace(old(s.pt), old(s.m.mem), s.pt, s.m.mem) && Tidy(old(s.pt), old(s.m.mem), old(s.m.free), s.pt, s.m.mem, s.m.free)
      ensures ok <==> (h + 1) * HUGEPGSIZE <= sz && old(exists f :: Uniform(s.pt, h, f)) && HasFreeRun(|old(s.m.mem)|, old(s.m.free))
      ensures ok ==> h in s.pt.e1 && s.pt.e1[h].Leaf? && |s.m.free| == |old(s.m.free)| + 1
    {
      hide Valid; hide Flat; hide SameSpace; hide LeavesBelow; hide Uniform; hide HasFreeRun;
      ghost var pt0, mem0, free0 := s.pt, s.m.mem, s.m.free;
      ok := s.Collapse(h, sz);
      BelowSame(pt0, mem0, free0, s.pt, s.m.mem, s.m.free, Pages(sz));
    }

    /** The copying of kfork into a new process: the child sees at every address exactly what
        the parent sees, in pages of its own, or it stays empty.  It stays empty exactly if
        there is no memory for the copy; with memory, a size beyond MAXVA is a panic. */
    method Fork(child: Process) returns (r: MapResult)
      requires Ok() && child.Ok() && child != this && child.s != s && child.s.m == s.m && Separate(s.pt, child.s.pt)
      requires child.s.pt.e1 == map[] && child.sz == 0
      modifies child, child.s, child.s.m
      ensures r != RemapPanic && (r != NoMemory ==> (r == Mapped <==> Pages(sz) <= MAXPAGES))
      ensures r == NoMemory <==> !CanCopy(s.pt, old(child.s.pt), Pages(sz), |old(s.m.mem)|, old(s.m.free))
      ensures r != WalkPanic ==> Ok() && child.Ok() && Separate(s.pt, child.s.pt)
      ensures Tidy(old(child.s.pt), old(s.m.mem), old(s.m.free), child.s.pt, s.m.mem, s.m.free)
      ensures SameSpace(s.pt, old(s.m.mem), s.pt, s.m.mem)
      ensures r == Mapped ==> child.sz == sz && SameSpace(s.pt, s.m.mem, child.s.pt, s.m.mem)
      ensures r == NoMemory ==> child.sz == 0 && EmptyFrom(child.s.pt, s.m.mem, 0)
    {
      hide Valid; hide Tidy; hide Flat; hide SameSpace; hide LeavesBelow; hide Separate; hide NowCopies; hide Unmapped; hide CanCopy;
      ghost var pt0, mem0, free0 := child.s.pt, s.m.mem, s.m.free;
      LeavesBelowIff(pt0, mem0, free0, 0);
      EndIsSize(s.pt, mem0, free0, Pages(sz));
      r := Uvmcopy(s, child.s, Pages(sz));
      if r == Mapped {
        child.sz := sz;
        CopyIsWhole(s.pt, pt0, mem0, child.s.pt, s.m.mem, s.m.free, Pages(sz));
      } else if r == NoMemory {
        StaysEmpty(pt0, mem0, child.s.pt, s.m.mem, s.m.free, CopyEnd(s.pt, Pages(sz)));
      }
    }

    /** uvmfree of the whole process: every page it owned is free again, unless its size had
        passed MAXVA.  (Within a page of 2^64 the size rounds to 0, and only an empty process
        can be freed.) */
    method Release() returns (ok: bool)
      requires Ok()
      modifies s, s.m
      ensures ok <==> if sz <= UINT64 - PGSIZE then Pages(sz) <= MAXPAGES else old(LeavesBelow(s.pt, 0))
      ensures ok ==> s.m.Ok() && forall p: nat :: p in s.m.free <==> p in old(s.m.free) || Owns(old(s.pt), p)
      ensures ForeignSame(old(s.pt), old(s.m.free), old(s.m.mem), s.m.mem)
    {
      hide Valid; hide LeavesBelow; hide ForeignSame; hide Pages; hide PagesUp;
      RoundsUp(sz);
      ok := Uvmfree(s, sz);
    }
  }

  /** Where rounding wraps, all leaves lie below the new size as well. */
  lemma LateSizes(sz: nat, newsz: nat, pt: PT, mem: seq<Page>, free: set<nat>)
    requires Valid(pt, mem, free) && sz < UINT64
    ensures sz > UINT64 - PGSIZE && newsz + 0x8000_0000 >= sz ==> LeavesBelow(pt, Pages(newsz)) && LeavesBelow(pt, Pages(sz))
  {
    if sz > UINT64 - PGSIZE && newsz + 0x8000_0000 >= sz {
      BelowMaxva(pt, mem, free, Pages(newsz));
      BelowMaxva(pt, mem, free, Pages(sz));
    }
  }

  /** Where rounding wraps, growing starts at page 0 and cannot succeed. */
  lemma NoGrowthBeyond(pt: PT, n: nat, sz: nat, newsz: nat)
    requires sz < UINT64
    ensures UINT64 - PGSIZE < sz <= newsz ==> !CanGrow(pt, n, PagesUp(sz), Pages(newsz))
  {
    if UINT64 - PGSIZE < sz <= newsz {
      RoundsUp(sz);
      assert Blocked(pt, MAXPAGES);
    }
  }

  lemma Wrapped(sz: nat, n: int)
    requires sz < UINT64 && -0x8000_0000 <= n < 0x8000_0000
    ensures var t := (sz + n) % UINT64; t == if sz + n < 0 then sz + n + UINT64 else if sz + n < UINT64 then sz + n else sz + n - UINT64
  {
  }

  lemma BelowSameIf(pt0: PT, mem0: seq<Page>, free0: set<nat>, pt: PT, mem: seq<Page>, free: set<nat>, n: nat)
    requires Valid(pt0, mem0, free0) && Valid(pt, mem, free)
    ensures SameSpace(pt0, mem0, pt, mem) ==> (LeavesBelow(pt0, n) <==> LeavesBelow(pt, n))
  {
    hide Valid; hide LeavesBelow; hide SameSpace;
    if SameSpace(pt0, mem0, pt, mem) { BelowSame(pt0, mem0, free0, pt, mem, free, n); }
  }

  lemma BelowMapped(pt0: PT, mem0: seq<Page>, free0: set<nat>, pt: PT, mem: seq<Page>, free: set<nat>, v: nat, mapping: Mapping, n: nat)
    requires v < n && Valid(pt0, mem0, free0) && Valid(pt, mem, free) && NowMaps(pt0, mem0, pt, mem, v, mapping)
    ensures LeavesBelow(pt0, n) ==> LeavesBelow(pt, n)
  {
    LeavesBelowIff(pt0, mem0, free0, n);
    LeavesBelowIff(pt, mem, free, n);
    hide LeavesBelow; hide Valid; hide Flat;
  }

  lemma StaysEmpty(pt0: PT, mem0: seq<Page>, pt: PT, mem: seq<Page>, free: set<nat>, n: nat)
    requires EmptyFrom(pt0, mem0, 0) && Unmapped(pt0, mem0, pt, mem, 0, n) && Valid(pt, mem, free)
    ensures EmptyFrom(pt, mem, 0) && LeavesBelow(pt, 0)
  {
    LeavesBelowIff(pt, mem, free, 0);
    hide LeavesBelow; hide Valid; hide Flat;
  }
}
