/** kernel/vm.c: uvmcopy, by virtual page number. */
module UserCopy {
  import opened Wrappers
  import opened PageTable
  import opened AddressSpace
  import opened PageSupply
  import opened UserMap
  import opened UserUnmap
  import opened CopyCost

  // ------------------------------------------------------------- one page

  /** Writing to a page that is free (or just taken) disturbs neither space. */
  lemma BothUndisturbed(o: PT, n: PT, mem: seq<Page>, free: set<nat>, mem': seq<Page>)
    requires Valid(o, mem, free) && Valid(n, mem, free) && |mem'| == |mem| && forall p :: 0 <= p < |mem| && p !in free ==> mem'[p] == mem[p]
    ensures Valid(o, mem', free) && Valid(n, mem', free)
    ensures SameSpace(o, mem, o, mem') && SameSpace(n, mem, n, mem') && ForeignSame(n, free, mem, mem')
  {
    FreeWrites(o, mem, free, mem');
    FreeWrites(n, mem, free, mem');
  }

  /** A 4 KB page of the parent, copied into the child. */
  method CopySmall(parent: Space, child: Space, a: nat) returns (r: MapResult)
    requires parent.Ok() && child.Ok() && parent.m == child.m && parent != child && Separate(parent.pt, child.pt)
    requires a in parent.pt.e0 && Walk(child.pt, a) == Missing
    modifies child, child.m
    ensures parent.Ok() && child.Ok() && Separate(parent.pt, child.pt)
    ensures SameSpace(parent.pt, old(child.m.mem), parent.pt, child.m.mem)
    ensures Tidy(old(child.pt), old(child.m.mem), old(child.m.free), child.pt, child.m.mem, child.m.free)
    ensures r in {Mapped, NoMemory}
    ensures r == Mapped ==> Flat(parent.pt, child.m.mem, a).Some? && NowMaps(old(child.pt), old(child.m.mem), child.pt, child.m.mem, a, Flat(parent.pt, child.m.mem, a).value)
    ensures r != Mapped ==> SameSpace(old(child.pt), old(child.m.mem), child.pt, child.m.mem)
    ensures child.pt.e1 == old(child.pt.e1) || (a / PTES in child.pt.e1 && child.pt.e1 == old(child.pt.e1)[a / PTES := child.pt.e1[a / PTES]])
    ensures |child.m.mem| == |old(child.m.mem)| && TookSmall(old(child.pt), child.pt, a / PTES, |child.m.mem|, old(child.m.free), child.m.free, r)
  {
    hide Valid; hide SameSpace; hide NowMaps; hide Separate; hide Conserved; hide ForeignSame; hide Flat; hide Walk; hide Owns; hide Drawn; hide SparesRuns; hide TablesAdded; hide MissingTables;
    ghost var po, pt0, mem0, free0 := parent.pt, child.pt, child.m.mem, child.m.free;
    TidyRefl(pt0, mem0, free0);
    TidyRefl(po, mem0, free0);
    SmallFrame(po, mem0, free0, a);
    var e := parent.pt.e0[a];
    var p := child.m.Kalloc();
    if p < 0 { return NoMemory; }
    DrawnOne(|mem0|, free0, p);
    FreeNotOwned(pt0, mem0, free0, p);
    child.m.CopyPage(p, e.ppn);
    ghost var mem1, free1 := child.m.mem, child.m.free;
    BothUndisturbed(po, pt0, mem0, free0, mem1);
    TakenValid(pt0, mem1, free0, p);
    r := MapPage(child, a, p, e.flags);
    assert free1 + {p} == free0;
    ghost var pt2, mem2, free2 := child.pt, child.m.mem, child.m.free;
    if r == Mapped {
      OtherSpace(po, pt0, mem1, free0, pt2, mem2, free2);
      SameSpaceTrans(po, mem0, po, mem1, po, mem2);
      DrawnTwice(|mem0|, free0, free1, free2);
      NowMapsSince(po, pt0, mem0, mem1, pt2, mem2, a, Mapping(mem2[p], e.flags));
      TidyTrans(pt0, mem0, free0, pt0, mem1, free0, pt2, mem2, free2);
      return;
    }
    StillHeld(pt0, mem1, free1, pt2, mem2, free2, p);
    child.m.Kfree(p);
    GivenBack(po, mem0, free0, pt0, mem1, free1, pt2, mem2, free2, {p}, child.m.mem, child.m.free);
  }

  lemma SmallFrame(pt: PT, mem: seq<Page>, free: set<nat>, v: nat)
    requires Valid(pt, mem, free) && v in pt.e0
    ensures v < MAXPAGES && pt.e0[v].Leaf? && Grants(pt.e0[v].flags) && pt.e0[v].ppn < |mem| && pt.e0[v].ppn !in free && Owns(pt, pt.e0[v].ppn)
    ensures Flat(pt, mem, v) == Some(Mapping(mem[pt.e0[v].ppn], pt.e0[v].flags))
  {
    assert PpnAt(pt, Frame(v)) == Some(pt.e0[v].ppn);
  }

  lemma NowMapsSince(po: PT, pt0: PT, mem0: seq<Page>, mem1: seq<Page>, pt2: PT, mem2: seq<Page>, a: nat, mapping: Mapping)
    requires SameSpace(pt0, mem0, pt0, mem1) && NowMaps(pt0, mem1, pt2, mem2, a, mapping)
    requires SameSpace(po, mem0, po, mem2) && Flat(po, mem0, a) == Some(mapping)
    ensures NowMaps(pt0, mem0, pt2, mem2, a, mapping) && Flat(po, mem2, a) == Some(mapping)
  {
    hide Flat;
  }

  /** Pages taken for a mapping that failed go back: nobody notices. */
  lemma GivenBack(po: PT, mem0: seq<Page>, free0: set<nat>, pt0: PT, mem1: seq<Page>, free1: set<nat>,
                  pt2: PT, mem2: seq<Page>, free2: set<nat>, held: set<nat>, mem3: seq<Page>, free3: set<nat>)
    requires Valid(po, mem0, free0) && Valid(pt0, mem0, free0) && Separate(po, pt0)
    requires held <= free0 && free1 == free0 - held && |mem1| == |mem0| && forall p :: 0 <= p < |mem0| && p !in free0 ==> mem1[p] == mem0[p]
    requires Tidy(pt0, mem1, free1, pt2, mem2, free2) && SameSpace(pt0, mem1, pt2, mem2) && Valid(pt2, mem2, free2)
    requires free3 == free2 + held && |mem3| == |mem2| && forall p :: 0 <= p < |mem2| && p !in held ==> mem3[p] == mem2[p]
    ensures Valid(po, mem3, free3) && Valid(pt2, mem3, free3) && Separate(po, pt2)
    ensures SameSpace(po, mem0, po, mem3) && SameSpace(pt0, mem0, pt2, mem3)
    ensures Tidy(pt0, mem0, free0, pt2, mem3, free3)
  {
    BothUndisturbed(po, pt0, mem0, free0, mem1);
    assert Valid(po, mem1, free1) && (forall p: nat :: p in held ==> !Owns(po, p) && !Owns(pt0, p));
    OtherSpace(po, pt0, mem1, free1, pt2, mem2, free2);
    hide Valid; hide SameSpace; hide Separate; hide Flat;
    forall q: nat ensures (q in free3 || Owns(pt2, q) <==> q in free0 || Owns(pt0, q)) && (q in held ==> !Owns(pt2, q)) {
      hide Owns;
      assert q in free2 || Owns(pt2, q) <==> q in free1 || Owns(pt0, q);
    }
    hide Owns;
    Reserve(po, mem2, free2, held);
    Reserve(pt2, mem2, free2, held);
    BothUndisturbed(po, pt2, mem2, free3, mem3);
    SameSpaceTrans(po, mem0, po, mem1, po, mem2);
    SameSpaceTrans(po, mem0, po, mem2, po, mem3);
    SameSpaceTrans(pt0, mem0, pt0, mem1, pt2, mem2);
    SameSpaceTrans(pt0, mem0, pt2, mem2, pt2, mem3);
  }

  /** The flat space after region h shows what it shows in another space. */
  ghost predicate NowCopies(pt: PT, mem: seq<Page>, pt': PT, mem': seq<Page>, po: PT, lo: nat, hi: nat) {
    forall w: nat :: Flat(pt', mem', w) == if lo <= w < hi then Flat(po, mem', w) else Flat(pt, mem, w)
  }

  /** kalloc_huge and the memmove into it. */
  method FreshCopy(m: Memory, src: nat) returns (first: int)
    requires m.Ok() && src + PTES <= |m.mem| && m.free !! HugeRun(src)
    modifies m
    ensures m.Ok() && |m.mem| == |old(m.mem)| && forall p :: 0 <= p < |m.mem| && p !in old(m.free) ==> m.mem[p] == old(m.mem)[p]
    ensures first < 0 <==> !HasFreeRun(|old(m.mem)|, old(m.free))
    ensures first < 0 ==> m.free == old(m.free) && m.mem == old(m.mem)
    ensures first >= 0 ==> IsFreeRun(|old(m.mem)|, old(m.free), first) && m.free == old(m.free) - HugeRun(first)
    ensures first >= 0 ==> m.mem[first..first + PTES] == old(m.mem)[src..src + PTES]
  {
    hide HugeRun;
    ghost var mem0 := m.mem;
    first := m.KallocHuge();
    if first >= 0 {
      SameRun(mem0, m.mem, first, src);
      m.CopyRun(first, src);
    }
  }

  /** A 2 MB page of the parent, copied into the child. */
  method CopyHuge(parent: Space, child: Space, h: nat) returns (r: MapResult)
    requires parent.Ok() && child.Ok() && parent.m == child.m && parent != child && Separate(parent.pt, child.pt)
    requires h in parent.pt.e1 && parent.pt.e1[h].Leaf? && h !in child.pt.e1
    modifies child, child.m
    ensures parent.Ok() && child.Ok() && Separate(parent.pt, child.pt)
    ensures SameSpace(parent.pt, old(child.m.mem), parent.pt, child.m.mem)
    ensures Tidy(old(child.pt), old(child.m.mem), old(child.m.free), child.pt, child.m.mem, child.m.free)
    ensures r in {Mapped, NoMemory}
    ensures r == Mapped ==> NowCopies(old(child.pt), old(child.m.mem), child.pt, child.m.mem, parent.pt, h * PTES, h * PTES + PTES)
    ensures r != Mapped ==> SameSpace(old(child.pt), old(child.m.mem), child.pt, child.m.mem)
    ensures child.pt.e1 == old(child.pt.e1) || (h in child.pt.e1 && child.pt.e1 == old(child.pt.e1)[h := child.pt.e1[h]])
    ensures |child.m.mem| == |old(child.m.mem)| && TookHuge(old(child.pt), child.pt, h, |child.m.mem|, old(child.m.free), child.m.free, r)
  {
    hide Valid; hide SameSpace; hide Separate; hide Conserved; hide ForeignSame; hide Flat; hide Owns; hide NowCopies; hide NowMapsHuge; hide HugeRun; hide FreeRuns; hide TablesAdded; hide MissingTables;
    ghost var po, pt0, mem0, free0 := parent.pt, child.pt, child.m.mem, child.m.free;
    TidyRefl(pt0, mem0, free0);
    TidyRefl(po, mem0, free0);
    HugeLeaf(po, mem0, free0, h);
    var e := parent.pt.e1[h];
    var first := FreshCopy(child.m, e.ppn);
    RunsIff(|mem0|, free0);
    if first < 0 { return NoMemory; }
    RunTaken(|mem0|, free0, first);
    ghost var run := HugeRun(first);
    ghost var mem1, free1 := child.m.mem, child.m.free;
    forall p: nat | p in run ensures !Owns(pt0, p) {
      FreeNotOwned(pt0, mem0, free0, p);
    }
    BothUndisturbed(po, pt0, mem0, free0, mem1);
    TakenRunValid(pt0, mem1, free0, run);
    RegionBelowMax(po, mem0, free0, h);
    r := MapHuge(child, h, first, e.flags);
    assert free1 + run == free0;
    ghost var pt2, mem2, free2 := child.pt, child.m.mem, child.m.free;
    if r == Mapped {
      OtherSpace(po, pt0, mem1, free0, pt2, mem2, free2);
      SameSpaceTrans(po, mem0, po, mem1, po, mem2);
      TidyTrans(pt0, mem0, free0, pt0, mem1, free0, pt2, mem2, free2);
      CopiedHuge(po, mem0, free0, pt0, mem1, pt2, mem2, h, first);
      return;
    }
    HeldRun(pt0, mem1, free1, pt2, mem2, free2, first);
    child.m.KfreeHuge(first);
    GivenBack(po, mem0, free0, pt0, mem1, free1, pt2, mem2, free2, run, child.m.mem, child.m.free);
  }

  lemma RegionBelowMax(pt: PT, mem: seq<Page>, free: set<nat>, h: nat)
    requires Valid(pt, mem, free) && h in pt.e1
    ensures h * PTES < MAXPAGES
  {
  }

  lemma SameRun(mem: seq<Page>, mem': seq<Page>, first: nat, src: nat)
    requires |mem'| == |mem| && src + PTES <= |mem| && HugeRun(first) !! HugeRun(src)
    requires forall p :: 0 <= p < |mem| && p !in HugeRun(first) ==> mem'[p] == mem[p]
    ensures mem'[src..src + PTES] == mem[src..src + PTES]
  {
    forall p | src <= p < src + PTES ensures mem'[p] == mem[p] {
      assert InRun(src, p) && p in HugeRun(src);
    }
  }

  lemma TakenRunValid(pt: PT, mem: seq<Page>, free: set<nat>, run: set<nat>)
    requires Valid(pt, mem, free)
    ensures Valid(pt, mem, free - run)
  {
  }

  lemma HeldRun(pt: PT, mem: seq<Page>, free: set<nat>, pt': PT, mem': seq<Page>, free': set<nat>, first: nat)
    requires Tidy(pt, mem, free, pt', mem', free') && first + PTES <= |mem|
    requires forall p: nat :: p in HugeRun(first) ==> p !in free && !Owns(pt, p)
    ensures |mem'| == |mem| && free' !! HugeRun(first)
  {
    forall p: nat | p in HugeRun(first) ensures p !in free' {
      StillHeld(pt, mem, free, pt', mem', free', p);
    }
  }

  /** Every page of the copied region shows in the child what it shows in the parent. */
  lemma CopiedHuge(po: PT, mem0: seq<Page>, free0: set<nat>, pt0: PT, mem1: seq<Page>, pt2: PT, mem2: seq<Page>, h: nat, first: nat)
    requires Valid(po, mem0, free0) && h in po.e1 && po.e1[h].Leaf? && po.e1[h].ppn + PTES <= |mem0| && first + PTES <= |mem1| == |mem2|
    requires mem1[first..first + PTES] == mem0[po.e1[h].ppn..po.e1[h].ppn + PTES]
    requires forall p: nat :: p in HugeRun(first) ==> p < |mem2| && mem2[p] == mem1[p]
    requires NowMapsHuge(pt0, mem1, pt2, mem2, h, first, po.e1[h].flags)
    requires SameSpace(pt0, mem0, pt0, mem1) && SameSpace(po, mem0, po, mem2)
    ensures NowCopies(pt0, mem0, pt2, mem2, po, h * PTES, h * PTES + PTES)
  {
    forall w: nat ensures Flat(pt2, mem2, w) == if h * PTES <= w < h * PTES + PTES then Flat(po, mem2, w) else Flat(pt0, mem0, w) {
      if w / PTES == h {
        var src, k := po.e1[h].ppn, w % PTES;
        assert Flat(po, mem0, w) == Some(Mapping(mem0[src + k], po.e1[h].flags));
        assert mem1[first + k] == mem1[first..first + PTES][k] == mem0[src..src + PTES][k] == mem0[src + k];
        assert InRun(first, first + w % PTES) && first + w % PTES in HugeRun(first);
      }
    }
  }

  /** One turn of uvmcopy's loop at page a: nothing to copy, a page or a huge page copied,
      no memory for it, or beyond MAXVA the walk's panic; never a remap. */
  method CopyStep(parent: Space, child: Space, a: nat, ghost n: nat, ghost pt0: PT, ghost free0: set<nat>) returns (r: MapResult, next: nat)
    requires parent.Ok() && child.Ok() && parent.m == child.m && parent != child && Separate(parent.pt, child.pt)
    requires a < n && !CutsHuge(parent.pt, a) && !CutsHuge(parent.pt, n)
    requires Flat(child.pt, child.m.mem, a) == None && forall h: nat :: a <= h * PTES < n ==> h !in child.pt.e1
    requires Paid(parent.pt, pt0, child.pt, |child.m.mem|, free0, child.m.free, a, n)
    modifies child, child.m
    ensures parent.Ok() && child.Ok() && Separate(parent.pt, child.pt)
    ensures SameSpace(parent.pt, old(child.m.mem), parent.pt, child.m.mem)
    ensures Tidy(old(child.pt), old(child.m.mem), old(child.m.free), child.pt, child.m.mem, child.m.free)
    ensures r != RemapPanic && (r == WalkPanic <==> a >= MAXPAGES)
    ensures r != Mapped ==> next == a && SameSpace(old(child.pt), old(child.m.mem), child.pt, child.m.mem)
    ensures r == Mapped ==> a < next <= n && next <= MAXPAGES && !CutsHuge(parent.pt, next) && forall h: nat :: next <= h * PTES < n ==> h !in child.pt.e1
    ensures r == Mapped ==> NowCopies(old(child.pt), old(child.m.mem), child.pt, child.m.mem, parent.pt, a, next)
    ensures |child.m.mem| == |old(child.m.mem)| && (r == Mapped ==> Paid(parent.pt, pt0, child.pt, |child.m.mem|, free0, child.m.free, next, n))
    ensures r == NoMemory ==> !CanCopy(parent.pt, pt0, n, |child.m.mem|, free0)
  {
    hide Valid; hide SameSpace; hide Separate; hide Tidy; hide Flat; hide NowMaps; hide Paid; hide TookSmall; hide TookHuge; hide CanCopy;
    ghost var pt1, mem1, free1 := child.pt, child.m.mem, child.m.free;
    TidyRefl(child.pt, mem1, free1);
    TidyRefl(parent.pt, mem1, free1);
    WalkCases(parent.pt, mem1, free1, a);
    FlatIff(child.pt, mem1, free1, a);
    StepEnds(parent.pt, a, n);
    hide CutsHuge;
    if a >= MAXPAGES { return WalkPanic, a; }
    match Walk(parent.pt, a) {
      case Missing =>
        PaidMissing(parent.pt, pt0, pt1, |mem1|, free0, free1, a, n);
        return Mapped, a + 1;
      case At(level, e) =>
        if level == 1 {
          r := CopyHuge(parent, child, a / PTES);
          next := if r == Mapped then a + PTES else a;
          PaidHuge(parent.pt, pt0, pt1, child.pt, |mem1|, free0, free1, child.m.free, a, n, r);
        } else {
          r := CopySmall(parent, child, a);
          next := if r == Mapped then a + 1 else a;
          PaidSmall(parent.pt, pt0, pt1, child.pt, |mem1|, free0, free1, child.m.free, a, n, r);
          if r == Mapped { OneCopied(pt1, mem1, child.pt, child.m.mem, parent.pt, a); }
        }
    }
  }

  /** A turn at a page inside no cut leaf ends inside none, and within n. */
  lemma StepEnds(pt: PT, a: nat, n: nat)
    requires a < n && !CutsHuge(pt, a) && !CutsHuge(pt, n)
    ensures a / PTES in pt.e1 && pt.e1[a / PTES].Leaf? ==> a == a / PTES * PTES && a + PTES <= n && !CutsHuge(pt, a + PTES)
    ensures !(a / PTES in pt.e1 && pt.e1[a / PTES].Leaf?) ==> !CutsHuge(pt, a + 1)
  {
  }

  lemma OneCopied(pt: PT, mem: seq<Page>, pt': PT, mem': seq<Page>, po: PT, a: nat)
    requires Flat(po, mem', a).Some? && NowMaps(pt, mem, pt', mem', a, Flat(po, mem', a).value)
    ensures NowCopies(pt, mem, pt', mem', po, a, a + 1)
  {
  }

  /** Where uvmcopy stops: at n, or at the end of a huge leaf that n cuts. */
  ghost function CopyEnd(pt: PT, n: nat): nat {
    if CutsHuge(pt, n) then (n / PTES + 1) * PTES else n
  }

  lemma CopyEndIs(pt: PT, n: nat, i: nat)
    ensures n <= CopyEnd(pt, n) && !CutsHuge(pt, CopyEnd(pt, n))
    ensures forall h: nat :: h * PTES < CopyEnd(pt, n) ==> h * PTES < n
    ensures n <= i < CopyEnd(pt, n) ==> CutsHuge(pt, i)
  {
  }

  /** uvmcopy: on success every page below n, and the rest of a huge leaf that n cuts,
      shows in the child exactly what it shows in the parent, with the same permissions,
      in physical pages of its own; without memory none of them is mapped in the child.
      The parent is untouched and no page is lost.  A remap panic or a split cannot occur;
      the walk's panic can, exactly if n passes MAXVA and memory lasts until there.  Memory
      lasts exactly if CanCopy says so. */
  method Uvmcopy(parent: Space, child: Space, n: nat) returns (r: MapResult)
    requires parent.Ok() && child.Ok() && parent.m == child.m && parent != child && Separate(parent.pt, child.pt)
    requires forall h: nat :: h * PTES < n ==> h !in child.pt.e1
    modifies child, child.m
    ensures parent.Ok() && child.Ok() && Separate(parent.pt, child.pt)
    ensures SameSpace(parent.pt, old(child.m.mem), parent.pt, child.m.mem)
    ensures Tidy(old(child.pt), old(child.m.mem), old(child.m.free), child.pt, child.m.mem, child.m.free)
    ensures r != RemapPanic && (r != NoMemory ==> (r == Mapped <==> n <= MAXPAGES))
    ensures r == NoMemory <==> !CanCopy(parent.pt, old(child.pt), CopyEnd(parent.pt, n), |old(child.m.mem)|, old(child.m.free))
    ensures r == Mapped ==> |old(child.m.free)| == |child.m.free| + Cost(parent.pt, old(child.pt), CopyEnd(parent.pt, n))
    ensures r == Mapped ==> NowCopies(old(child.pt), old(child.m.mem), child.pt, child.m.mem, parent.pt, 0, CopyEnd(parent.pt, n))
    ensures r == NoMemory ==> Unmapped(old(child.pt), old(child.m.mem), child.pt, child.m.mem, 0, CopyEnd(parent.pt, n))
  {
    hide Valid; hide Separate; hide Tidy; hide Flat; hide CopyEnd; hide Paid; hide CanCopy;
    ghost var po, pt0, mem0, free0 := parent.pt, child.pt, child.m.mem, child.m.free;
    ghost var hi := CopyEnd(po, n);
    CopyEndIs(po, n, 0);
    TidyRefl(pt0, mem0, free0);
    EmptyBelow(pt0, mem0, free0, hi);
    PaidNothing(po, pt0, |mem0|, free0, hi);
    var i := 0;
    while i < n
      invariant i <= hi && parent.Ok() && child.Ok() && Separate(po, child.pt) && SameSpace(po, mem0, po, child.m.mem)
      invariant Tidy(pt0, mem0, free0, child.pt, child.m.mem, child.m.free) && !CutsHuge(po, i) && |child.m.mem| == |mem0|
      invariant forall h: nat :: i <= h * PTES < hi ==> h !in child.pt.e1
      invariant NowCopies(pt0, mem0, child.pt, child.m.mem, po, 0, i) && i <= MAXPAGES
      invariant Paid(po, pt0, child.pt, |mem0|, free0, child.m.free, i, hi)
    {
      ghost var pt1, mem1, free1 := child.pt, child.m.mem, child.m.free;
      EndIsPaid(po, pt0, pt1, mem1, free0, free1, i, n);
      r, i := CopyStep(parent, child, i, hi, pt0, free0);
      TidyTrans(pt0, mem0, free0, pt1, mem1, free1, child.pt, child.m.mem, child.m.free);
      TidySize(pt0, mem0, free0, child.pt, child.m.mem, child.m.free);
      if r == WalkPanic { return; }
      if r != Mapped {
        ghost var pt2, mem2, free2 := child.pt, child.m.mem, child.m.free;
        CopyUndone(parent, child, i);
        TidyTrans(pt0, mem0, free0, pt2, mem2, free2, child.pt, child.m.mem, child.m.free);
        return;
      }
    }
    CopyEndIs(po, n, i);
    EndIsPaid(po, pt0, child.pt, child.m.mem, free0, child.m.free, i, n);
    r := Mapped;
  }

  /** At the end of the copy, or at MAXVA, everything is paid for. */
  lemma EndIsPaid(po: PT, pt0: PT, pt: PT, mem: seq<Page>, free0: set<nat>, free: set<nat>, i: nat, n: nat)
    requires Valid(po, mem, free) && i <= CopyEnd(po, n) && Paid(po, pt0, pt, |mem|, free0, free, i, CopyEnd(po, n))
    ensures i == CopyEnd(po, n) || i >= MAXPAGES ==> CanCopy(po, pt0, CopyEnd(po, n), |mem|, free0) && (i < CopyEnd(po, n) ==> n > MAXPAGES)
    ensures i == CopyEnd(po, n) ==> |free0| == |free| + Cost(po, pt0, i)
  {
    assert |free0| == |free| + Cost(po, pt0, i);
    hide Paid; hide CanCopy;
    if i == CopyEnd(po, n) || i >= MAXPAGES {
      forall v: nat | i <= v < CopyEnd(po, n) ensures Walk(po, v) == Missing && !IsHuge(po, v) {
        WalkCases(po, mem, free, v);
      }
      PaidAll(po, pt0, pt, |mem|, free0, free, i, CopyEnd(po, n));
    }
  }

  lemma TidySize(pt: PT, mem: seq<Page>, free: set<nat>, pt': PT, mem': seq<Page>, free': set<nat>)
    requires Tidy(pt, mem, free, pt', mem', free')
    ensures |mem'| == |mem|
  {
  }

  /** The label `err` of uvmcopy: what has been copied is unmapped again. */
  method CopyUndone(parent: Space, child: Space, i: nat)
    requires parent.Ok() && child.Ok() && parent.m == child.m && parent != child && Separate(parent.pt, child.pt)
    requires Flat(child.pt, child.m.mem, i) == None && i <= MAXPAGES
    modifies child, child.m
    ensures parent.Ok() && child.Ok() && Separate(parent.pt, child.pt)
    ensures SameSpace(parent.pt, old(child.m.mem), parent.pt, child.m.mem)
    ensures Tidy(old(child.pt), old(child.m.mem), old(child.m.free), child.pt, child.m.mem, child.m.free)
    ensures Unmapped(old(child.pt), old(child.m.mem), child.pt, child.m.mem, 0, i)
  {
    hide Valid; hide SameSpace; hide Separate; hide Unmapped; hide Conserved; hide ForeignSame; hide Flat;
    ghost var po, pt0, mem0, free0 := parent.pt, child.pt, child.m.mem, child.m.free;
    NotInsideHuge(pt0, mem0, free0, i);
    EnoughToUnmap(pt0, |free0|, 0, i, true);
    var ok;
    ghost var held;
    ok, held := Unmap(child, 0, i, true);
    assert child.m.free + held == child.m.free;
    OtherSpace(po, pt0, mem0, free0, child.pt, child.m.mem, child.m.free);
  }

  lemma NotInsideHuge(pt: PT, mem: seq<Page>, free: set<nat>, i: nat)
    requires Valid(pt, mem, free) && Flat(pt, mem, i) == None
    ensures !CutsHuge(pt, i) && !CutsHuge(pt, 0)
  {
    FlatIff(pt, mem, free, i);
  }

  /** Nothing is mapped in regions without an entry. */
  lemma EmptyBelow(pt: PT, mem: seq<Page>, free: set<nat>, n: nat)
    requires Valid(pt, mem, free) && forall h: nat :: h * PTES < n ==> h !in pt.e1
    ensures forall w: nat :: w < n ==> Flat(pt, mem, w) == None
  {
    forall w: nat | w < n ensures Flat(pt, mem, w) == None {
      assert w / PTES * PTES <= w;
    }
  }
}
