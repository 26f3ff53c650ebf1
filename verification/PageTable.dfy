/** The three-level page tables of kernel/vm.c (Sv39, with 4 KB and 2 MB leaves),
    as values.  Entries are keyed by the part of the virtual page number that
    leads to them: e2 by vpn / 512^2, e1 by vpn / 512, e0 by the vpn; an absent
    key is an invalid PTE.  Physical memory is a sequence of 4 KB pages. */
module PageTable {
  import opened Wrappers

  const PTES: nat := 512

  /** MAXVA, in root entries and in pages: walk panics from there on. */
  const ROOTS: nat := 256
  const MAXPAGES: nat := ROOTS * PTES * PTES

  /** The permission bits of a valid PTE. */
  datatype Flags = Flags(r: bool, w: bool, x: bool, u: bool, rest: nat)

  datatype Entry = Table(ppn: nat) | Leaf(ppn: nat, flags: Flags)

  datatype PT = PT(root: nat, e2: map<nat, Entry>, e1: map<nat, Entry>, e0: map<nat, Entry>)

  type Page = seq<int>

  /** What a virtual page shows its process. */
  datatype Mapping = Mapping(page: Page, flags: Flags)

  /** A valid PTE with none of these bits is a pointer to a table. */
  predicate Grants(flags: Flags) {
    flags.r || flags.w || flags.x
  }

  /** Every level points to the next; leaves grant something, and huge ones are aligned. */
  ghost predicate WellFormed(pt: PT) {
    && (forall i :: i in pt.e2 ==> pt.e2[i].Table? && i < ROOTS)
    && (forall h :: h in pt.e1 ==> h / PTES in pt.e2 && (pt.e1[h].Leaf? ==> Grants(pt.e1[h].flags) && pt.e1[h].ppn % PTES == 0))
    && (forall v :: v in pt.e0 ==> pt.e0[v].Leaf? && Grants(pt.e0[v].flags) && v / PTES in pt.e1 && pt.e1[v / PTES].Table?)
  }

  datatype Walked = Missing | At(level: nat, entry: Entry)

  /** walk_with_level without allocation: the valid PTE that v leads to, and its level. */
  function Walk(pt: PT, v: nat): Walked {
    var h := v / PTES;
    if h / PTES !in pt.e2 || h !in pt.e1 then Missing
    else if pt.e1[h].Leaf? then At(1, pt.e1[h])
    else if v in pt.e0 then At(0, pt.e0[v])
    else Missing
  }

  /** walkaddr, by page: the physical page behind virtual page v. */
  function FrameOf(pt: PT, v: nat): Option<nat> {
    match Walk(pt, v)
    case Missing => None
    case At(level, e) => Some(if level == 1 then e.ppn + v % PTES else e.ppn)
  }

  /** The flat address space: contents and permissions of virtual page v. */
  function Flat(pt: PT, mem: seq<Page>, v: nat): Option<Mapping> {
    match (Walk(pt, v), FrameOf(pt, v))
    case (At(_, Leaf(_, flags)), Some(p)) => if p < |mem| then Some(Mapping(mem[p], flags)) else None
    case _ => None
  }

  /** Every place in a page table that a physical page can be owned from. */
  datatype Loc = RootTable | Level1(i: nat) | Level0(h: nat) | Frame(v: nat)

  function PpnAt(pt: PT, loc: Loc): Option<nat> {
    match loc
    case RootTable => Some(pt.root)
    case Level1(i) => if i in pt.e2 then Some(pt.e2[i].ppn) else None
    case Level0(h) => if h in pt.e1 && pt.e1[h].Table? then Some(pt.e1[h].ppn) else None
    case Frame(v) => FrameOf(pt, v)
  }

  ghost predicate Owns(pt: PT, p: nat) {
    exists loc :: PpnAt(pt, loc) == Some(p)
  }

  /** No physical page is used twice. */
  ghost predicate NoSharing(pt: PT) {
    forall a, b :: PpnAt(pt, a).Some? && PpnAt(pt, a) == PpnAt(pt, b) ==> a == b
  }

  ghost predicate Valid(pt: PT, mem: seq<Page>, free: set<nat>) {
    && WellFormed(pt) && NoSharing(pt)
    && (forall loc :: PpnAt(pt, loc).Some? ==> PpnAt(pt, loc).value < |mem| && PpnAt(pt, loc).value !in free)
  }

  /** No page is lost or gained between two states. */
  ghost predicate Conserved(pt: PT, free: set<nat>, pt': PT, free': set<nat>) {
    forall p: nat :: p in free' || Owns(pt', p) <==> p in free || Owns(pt, p)
  }

  /** The same virtual pages show the same contents with the same permissions. */
  ghost predicate SameSpace(pt: PT, mem: seq<Page>, pt': PT, mem': seq<Page>) {
    forall v: nat :: Flat(pt', mem', v) == Flat(pt, mem, v)
  }

  /** Virtual page v lies in the 2 MB region h. */
  predicate InRegion(h: nat, v: nat) {
    v / PTES == h
  }

  /** Physical page p lies in the huge page that begins at `first`. */
  predicate InRun(first: nat, p: nat) {
    first <= p < first + PTES
  }

  function HugeRun(first: nat): set<nat> {
    set p: nat | first <= p < first + PTES && InRun(first, p)
  }

  ghost predicate Distinct(s: seq<nat>) {
    forall i, j :: 0 <= i < j < |s| ==> s[i] != s[j]
  }

  /** A table changed so that every place keeps its page, takes a free one, or lets
      go: what is then free must be the rest of the free pages and what was let go. */
  lemma Rearranged(pt: PT, mem: seq<Page>, free: set<nat>, pt': PT, free': set<nat>)
    requires Valid(pt, mem, free) && WellFormed(pt') && forall p :: p in free ==> p < |mem|
    requires forall loc :: PpnAt(pt', loc).Some? ==> PpnAt(pt', loc) == PpnAt(pt, loc) || PpnAt(pt', loc).value in free
    requires forall a, b :: PpnAt(pt', a).Some? && PpnAt(pt', a).value in free && PpnAt(pt', a) == PpnAt(pt', b) ==> a == b
    requires forall p: nat :: p in free' <==> (p in free || Owns(pt, p)) && !Owns(pt', p)
    ensures Valid(pt', mem, free') && Conserved(pt, free, pt', free')
  {
    forall loc | PpnAt(pt', loc).Some? ensures PpnAt(pt', loc).value < |mem| && PpnAt(pt', loc).value !in free' {
      assert Owns(pt', PpnAt(pt', loc).value);
    }
    forall p: nat | Owns(pt', p) ensures p in free || Owns(pt, p) {
      var loc :| PpnAt(pt', loc) == Some(p);
    }
  }

  // ------------------------------------------------------------------ split

  /** The leaves that replace a huge leaf. */
  function SmallLeaves(h: nat, pages: seq<nat>, flags: Flags): map<nat, Entry>
    requires |pages| == PTES
  {
    map v: nat | h * PTES <= v < h * PTES + PTES && InRegion(h, v) :: Leaf(pages[v % PTES], flags)
  }

  function SplitTable(pt: PT, h: nat, l0: nat, pages: seq<nat>, flags: Flags): PT
    requires |pages| == PTES
  {
    pt.(e1 := pt.e1[h := Table(l0)], e0 := pt.e0 + SmallLeaves(h, pages, flags))
  }

  lemma SplitWalk(pt: PT, h: nat, l0: nat, pages: seq<nat>, flags: Flags, v: nat)
    requires WellFormed(pt) && h in pt.e1 && |pages| == PTES
    ensures Walk(SplitTable(pt, h, l0, pages, flags), v) ==
      if v / PTES == h then At(0, Leaf(pages[v % PTES], flags)) else Walk(pt, v)
  {
    assert v / PTES == h ==> InRegion(h, v);
  }

  /** Every page of a huge leaf is a frame of some virtual page. */
  lemma HugeFrame(pt: PT, h: nat, k: nat)
    requires WellFormed(pt) && h in pt.e1 && pt.e1[h].Leaf? && k < PTES
    ensures PpnAt(pt, Frame(h * PTES + k)) == Some(pt.e1[h].ppn + k)
  {
  }

  /** Copying a huge page into 512 small ones behind the process's back is invisible to it. */
  lemma SplitSame(pt: PT, mem: seq<Page>, free: set<nat>, h: nat, l0: nat, pages: seq<nat>, mem': seq<Page>)
    requires Valid(pt, mem, free) && h in pt.e1 && pt.e1[h].Leaf? && pt.e1[h].ppn + PTES <= |mem| == |mem'|
    requires |pages| == PTES && forall k :: 0 <= k < PTES ==> pages[k] < |mem| && mem'[pages[k]] == mem[pt.e1[h].ppn + k]
    requires forall p :: 0 <= p < |mem| && p !in free ==> mem'[p] == mem[p]
    ensures SameSpace(pt, mem, SplitTable(pt, h, l0, pages, pt.e1[h].flags), mem')
  {
    var flags := pt.e1[h].flags;
    var pt' := SplitTable(pt, h, l0, pages, flags);
    forall v: nat ensures Flat(pt', mem', v) == Flat(pt, mem, v) {
      SplitWalk(pt, h, l0, pages, flags, v);
      assert PpnAt(pt, Frame(v)) == FrameOf(pt, v);
    }
  }

  /** The page at each place once region h is split. */
  ghost function SplitPage(pt: PT, h: nat, l0: nat, pages: seq<nat>, loc: Loc): Option<nat>
    requires |pages| == PTES
  {
    if loc == Level0(h) then Some(l0)
    else if loc.Frame? && loc.v / PTES == h then Some(pages[loc.v % PTES])
    else PpnAt(pt, loc)
  }

  lemma SplitPpn(pt: PT, h: nat, l0: nat, pages: seq<nat>, flags: Flags, loc: Loc)
    requires WellFormed(pt) && h in pt.e1 && |pages| == PTES
    ensures PpnAt(SplitTable(pt, h, l0, pages, flags), loc) == SplitPage(pt, h, l0, pages, loc)
  {
    if loc.Frame? {
      SplitWalk(pt, h, l0, pages, flags, loc.v);
    }
  }

  lemma SplitOwns(pt: PT, h: nat, l0: nat, pages: seq<nat>, flags: Flags, p: nat)
    requires WellFormed(pt) && NoSharing(pt) && h in pt.e1 && pt.e1[h].Leaf? && |pages| == PTES
    ensures Owns(SplitTable(pt, h, l0, pages, flags), p) <==>
      p == l0 || p in pages || (Owns(pt, p) && !InRun(pt.e1[h].ppn, p))
  {
    var pt', first := SplitTable(pt, h, l0, pages, flags), pt.e1[h].ppn;
    if p == l0 {
      SplitPpn(pt, h, l0, pages, flags, Level0(h));
    } else if p in pages {
      var k :| 0 <= k < PTES && pages[k] == p;
      SplitPpn(pt, h, l0, pages, flags, Frame(h * PTES + k));
    } else {
      if loc :| PpnAt(pt, loc) == Some(p) && !InRun(first, p) {
        SplitPpn(pt, h, l0, pages, flags, loc);
        assert PpnAt(pt', loc) == Some(p);
      }
      if loc :| PpnAt(pt', loc) == Some(p) {
        SplitPpn(pt, h, l0, pages, flags, loc);
        assert PpnAt(pt, loc) == Some(p);
        if InRun(first, p) {
          HugeFrame(pt, h, p - first);
        }
      }
    }
  }

  lemma SplitWellFormed(pt: PT, h: nat, l0: nat, pages: seq<nat>)
    requires WellFormed(pt) && h in pt.e1 && pt.e1[h].Leaf? && |pages| == PTES
    ensures WellFormed(SplitTable(pt, h, l0, pages, pt.e1[h].flags))
  {
  }

  /** The pages taken for a split are each used in one place. */
  lemma SplitUnshared(pt: PT, pt': PT, mem: seq<Page>, free: set<nat>, h: nat, l0: nat, pages: seq<nat>)
    requires Valid(pt, mem, free) && |pages| == PTES && Distinct(pages) && l0 !in pages
    requires forall loc :: PpnAt(pt', loc) == SplitPage(pt, h, l0, pages, loc)
    ensures forall a, b :: PpnAt(pt', a).Some? && PpnAt(pt', a).value in free && PpnAt(pt', a) == PpnAt(pt', b) ==> a == b
  {
    hide WellFormed; hide PpnAt; hide NoSharing;
    forall a, b | PpnAt(pt', a).Some? && PpnAt(pt', a).value in free && PpnAt(pt', a) == PpnAt(pt', b) ensures a == b {
      assert PpnAt(pt, a).Some? ==> PpnAt(pt, a).value !in free;
      assert PpnAt(pt, b).Some? ==> PpnAt(pt, b).value !in free;
      if a.Frame? && b.Frame? && a.v / PTES == b.v / PTES == h {
        assert a.v % PTES == b.v % PTES;
      }
    }
  }

  /** After a split the huge page is free, the small ones and the new table are owned. */
  lemma SplitValid(pt: PT, mem: seq<Page>, free: set<nat>, h: nat, l0: nat, pages: seq<nat>, free': set<nat>)
    requires Valid(pt, mem, free) && h in pt.e1 && pt.e1[h].Leaf? && forall p :: p in free ==> p < |mem|
    requires |pages| == PTES && Distinct(pages) && l0 !in pages && l0 in free && forall k :: 0 <= k < PTES ==> pages[k] in free
    requires forall p: nat :: p in free' <==> (p in free && p != l0 && p !in pages) || InRun(pt.e1[h].ppn, p)
    ensures var pt' := SplitTable(pt, h, l0, pages, pt.e1[h].flags);
      Valid(pt', mem, free') && Conserved(pt, free, pt', free')
  {
    var flags, first := pt.e1[h].flags, pt.e1[h].ppn;
    var pt' := SplitTable(pt, h, l0, pages, flags);
    SplitWellFormed(pt, h, l0, pages);
    hide SplitTable; hide WellFormed; hide PpnAt; hide Owns;
    forall p: nat ensures p in free' <==> (p in free || Owns(pt, p)) && !Owns(pt', p) {
      SplitOwns(pt, h, l0, pages, flags, p);
      RunOwned(pt, h, p);
    }
    forall loc ensures PpnAt(pt', loc) == SplitPage(pt, h, l0, pages, loc) {
      SplitPpn(pt, h, l0, pages, flags, loc);
    }
    SplitUnshared(pt, pt', mem, free, h, l0, pages);
    Rearranged(pt, mem, free, pt', free');
  }

  lemma RunOwned(pt: PT, h: nat, p: nat)
    requires WellFormed(pt) && h in pt.e1 && pt.e1[h].Leaf?
    ensures InRun(pt.e1[h].ppn, p) ==> Owns(pt, p)
  {
    if InRun(pt.e1[h].ppn, p) {
      HugeFrame(pt, h, p - pt.e1[h].ppn);
    }
  }

  // --------------------------------------------------------------- collapse

  /** The region h is mapped by 512 user leaves that all carry the same flags. */
  ghost predicate Uniform(pt: PT, h: nat, flags: Flags) {
    && h in pt.e1 && pt.e1[h].Table? && flags.u
    && forall v: nat :: InRegion(h, v) ==> v in pt.e0 && pt.e0[v].Leaf? && pt.e0[v].flags == flags
  }

  function CollapseTable(pt: PT, h: nat, first: nat, flags: Flags): PT {
    pt.(e1 := pt.e1[h := Leaf(first, flags)], e0 := map v | v in pt.e0 && !InRegion(h, v) :: pt.e0[v])
  }

  lemma CollapseWalk(pt: PT, h: nat, first: nat, flags: Flags, v: nat)
    requires WellFormed(pt) && h in pt.e1
    ensures Walk(CollapseTable(pt, h, first, flags), v) ==
      if v / PTES == h then At(1, Leaf(first, flags)) else Walk(pt, v)
  {
  }

  lemma CollapsePpn(pt: PT, h: nat, first: nat, flags: Flags, loc: Loc)
    requires WellFormed(pt) && h in pt.e1
    ensures PpnAt(CollapseTable(pt, h, first, flags), loc) ==
      if loc == Level0(h) then None
      else if loc.Frame? && loc.v / PTES == h then Some(first + loc.v % PTES)
      else PpnAt(pt, loc)
  {
    if loc.Frame? {
      CollapseWalk(pt, h, first, flags, loc.v);
    }
  }

  lemma CollapseSame(pt: PT, mem: seq<Page>, free: set<nat>, h: nat, first: nat, flags: Flags, mem': seq<Page>)
    requires Valid(pt, mem, free) && Uniform(pt, h, flags) && first + PTES <= |mem| == |mem'|
    requires forall p :: 0 <= p < |mem| && p !in free ==> mem'[p] == mem[p]
    requires forall v: nat :: InRegion(h, v) && pt.e0[v].ppn < |mem| ==> mem'[first + v % PTES] == mem[pt.e0[v].ppn]
    ensures SameSpace(pt, mem, CollapseTable(pt, h, first, flags), mem')
  {
    var pt' := CollapseTable(pt, h, first, flags);
    forall v: nat ensures Flat(pt', mem', v) == Flat(pt, mem, v) {
      CollapseWalk(pt, h, first, flags, v);
      assert PpnAt(pt, Frame(v)) == FrameOf(pt, v);
      assert v / PTES == h ==> InRegion(h, v);
    }
  }

  lemma CollapseOwns(pt: PT, h: nat, first: nat, flags: Flags, p: nat)
    requires WellFormed(pt) && NoSharing(pt) && Uniform(pt, h, flags)
    requires InRun(first, p) ==> !Owns(pt, p)
    ensures Owns(CollapseTable(pt, h, first, flags), p) <==>
      InRun(first, p) || (Owns(pt, p) && p != pt.e1[h].ppn && forall v: nat :: InRegion(h, v) ==> pt.e0[v].ppn != p)
  {
    var pt' := CollapseTable(pt, h, first, flags);
    if InRun(first, p) {
      CollapsePpn(pt, h, first, flags, Frame(h * PTES + (p - first)));
      assert PpnAt(pt', Frame(h * PTES + (p - first))) == Some(p);
    } else {
      if Owns(pt, p) && p != pt.e1[h].ppn && forall v: nat :: InRegion(h, v) ==> pt.e0[v].ppn != p {
        var loc :| PpnAt(pt, loc) == Some(p);
        assert loc.Frame? && loc.v / PTES == h ==> InRegion(h, loc.v);
        CollapsePpn(pt, h, first, flags, loc);
        assert PpnAt(pt', loc) == Some(p);
      }
      if loc :| PpnAt(pt', loc) == Some(p) {
        CollapsePpn(pt, h, first, flags, loc);
        assert PpnAt(pt, loc) == Some(p);
        assert PpnAt(pt, Level0(h)) == Some(pt.e1[h].ppn);
        forall v: nat | InRegion(h, v) ensures pt.e0[v].ppn != p {
          assert PpnAt(pt, Frame(v)) == Some(pt.e0[v].ppn);
        }
      }
    }
  }

  lemma CollapseWellFormed(pt: PT, h: nat, first: nat, flags: Flags)
    requires WellFormed(pt) && Uniform(pt, h, flags) && first % PTES == 0
    ensures WellFormed(CollapseTable(pt, h, first, flags))
  {
    assert InRegion(h, h * PTES);
  }

  /** After a collapse the small pages and their table are free, the huge page is owned. */
  lemma CollapseValid(pt: PT, mem: seq<Page>, free: set<nat>, h: nat, first: nat, flags: Flags, free': set<nat>)
    requires Valid(pt, mem, free) && Uniform(pt, h, flags) && first % PTES == 0 && forall p :: p in free ==> p < |mem|
    requires forall p: nat :: InRun(first, p) ==> p in free
    requires forall p: nat :: p in free' <==>
      (p in free && !InRun(first, p)) || p == pt.e1[h].ppn || exists v: nat :: InRegion(h, v) && pt.e0[v].ppn == p
    ensures var pt' := CollapseTable(pt, h, first, flags);
      Valid(pt', mem, free') && Conserved(pt, free, pt', free')
  {
    var pt' := CollapseTable(pt, h, first, flags);
    CollapseWellFormed(pt, h, first, flags);
    forall p: nat ensures p in free' <==> (p in free || Owns(pt, p)) && !Owns(pt', p) {
      CollapseFree(pt, mem, free, h, first, flags, p);
    }
    hide CollapseTable; hide WellFormed; hide PpnAt; hide Owns; hide Uniform;
    forall loc ensures PpnAt(pt', loc) ==
      if loc == Level0(h) then None
      else if loc.Frame? && loc.v / PTES == h then Some(first + loc.v % PTES)
      else PpnAt(pt, loc)
    {
      CollapsePpn(pt, h, first, flags, loc);
    }
    assert forall v: nat :: InRun(first, first + v % PTES);
    Rearranged(pt, mem, free, pt', free');
  }

  lemma CollapseFree(pt: PT, mem: seq<Page>, free: set<nat>, h: nat, first: nat, flags: Flags, p: nat)
    requires Valid(pt, mem, free) && Uniform(pt, h, flags) && forall p: nat :: InRun(first, p) ==> p in free
    ensures (p in free || Owns(pt, p)) && !Owns(CollapseTable(pt, h, first, flags), p) <==>
      (p in free && !InRun(first, p)) || p == pt.e1[h].ppn || exists v: nat :: InRegion(h, v) && pt.e0[v].ppn == p
  {
    NotOwned(pt, mem, free, p);
    CollapseOwns(pt, h, first, flags, p);
    assert PpnAt(pt, Level0(h)) == Some(pt.e1[h].ppn);
    if v: nat :| InRegion(h, v) && pt.e0[v].ppn == p {
      assert PpnAt(pt, Frame(v)) == Some(pt.e0[v].ppn);
    }
  }

  lemma NotOwned(pt: PT, mem: seq<Page>, free: set<nat>, p: nat)
    requires Valid(pt, mem, free)
    ensures p in free ==> !Owns(pt, p)
  {
  }

  // ------------------------------------------------------- single PTE writes

  /** Whatever happens to free pages happens outside the address space. */
  lemma FreeWrites(pt: PT, mem: seq<Page>, free: set<nat>, mem': seq<Page>)
    requires Valid(pt, mem, free) && |mem'| == |mem| && forall p :: 0 <= p < |mem| && p !in free ==> mem'[p] == mem[p]
    ensures Valid(pt, mem', free) && SameSpace(pt, mem, pt, mem') && ForeignSame(pt, free, mem, mem')
  {
    forall v: nat ensures Flat(pt, mem', v) == Flat(pt, mem, v) {
      assert PpnAt(pt, Frame(v)) == FrameOf(pt, v);
    }
  }

  /** A PTE write that fills exactly one empty place, with free page t. */
  lemma FillOne(pt: PT, mem: seq<Page>, free: set<nat>, pt': PT, at: Loc, t: nat)
    requires Valid(pt, mem, free) && WellFormed(pt') && t in free && forall p :: p in free ==> p < |mem|
    requires PpnAt(pt, at) == None && PpnAt(pt', at) == Some(t)
    requires forall loc :: loc != at ==> PpnAt(pt', loc) == PpnAt(pt, loc)
    ensures Valid(pt', mem, free - {t}) && Conserved(pt, free, pt', free - {t})
  {
    forall p: nat ensures p in free - {t} <==> (p in free || Owns(pt, p)) && !Owns(pt', p) {
      if Owns(pt, p) {
        var loc :| PpnAt(pt, loc) == Some(p);
        assert PpnAt(pt', loc) == Some(p);
      }
      if Owns(pt', p) {
        var loc :| PpnAt(pt', loc) == Some(p);
        assert loc == at || PpnAt(pt, loc) == Some(p);
      }
    }
    Rearranged(pt, mem, free, pt', free - {t});
  }

  /** A fresh, zeroed level-1 table. */
  lemma AddLevel1(pt: PT, mem: seq<Page>, free: set<nat>, i: nat, t: nat)
    requires Valid(pt, mem, free) && i !in pt.e2 && i < ROOTS && t in free && forall p :: p in free ==> p < |mem|
    ensures var pt' := pt.(e2 := pt.e2[i := Table(t)]);
      Valid(pt', mem, free - {t}) && Conserved(pt, free, pt', free - {t}) && SameSpace(pt, mem, pt', mem)
  {
    var pt' := pt.(e2 := pt.e2[i := Table(t)]);
    assert forall v: nat :: Walk(pt', v) == Walk(pt, v);
    FillOne(pt, mem, free, pt', Level1(i), t);
  }

  /** A fresh, zeroed level-0 table. */
  lemma AddLevel0(pt: PT, mem: seq<Page>, free: set<nat>, h: nat, t: nat)
    requires Valid(pt, mem, free) && h !in pt.e1 && h / PTES in pt.e2 && t in free && forall p :: p in free ==> p < |mem|
    ensures var pt' := pt.(e1 := pt.e1[h := Table(t)]);
      Valid(pt', mem, free - {t}) && Conserved(pt, free, pt', free - {t}) && SameSpace(pt, mem, pt', mem)
  {
    var pt' := pt.(e1 := pt.e1[h := Table(t)]);
    assert forall v: nat :: Walk(pt', v) == Walk(pt, v);
    FillOne(pt, mem, free, pt', Level0(h), t);
  }

  /** One 4 KB leaf: v, and nothing else, becomes mapped. */
  lemma AddSmall(pt: PT, mem: seq<Page>, free: set<nat>, v: nat, p: nat, flags: Flags)
    requires Valid(pt, mem, free) && v !in pt.e0 && v / PTES in pt.e1 && pt.e1[v / PTES].Table? && Grants(flags)
    requires p in free && forall p :: p in free ==> p < |mem|
    ensures var pt' := pt.(e0 := pt.e0[v := Leaf(p, flags)]);
      && Valid(pt', mem, free - {p}) && Conserved(pt, free, pt', free - {p})
      && forall w: nat :: Flat(pt', mem, w) == if w == v then Some(Mapping(mem[p], flags)) else Flat(pt, mem, w)
  {
    var pt' := pt.(e0 := pt.e0[v := Leaf(p, flags)]);
    assert forall w: nat :: Walk(pt', w) == if w == v then At(0, Leaf(p, flags)) else Walk(pt, w);
    FillOne(pt, mem, free, pt', Frame(v), p);
  }

  /** Removing one 4 KB leaf, whose page the caller may then free. */
  lemma DropSmall(pt: PT, mem: seq<Page>, free: set<nat>, v: nat)
    requires Valid(pt, mem, free) && v in pt.e0
    ensures var pt', p := pt.(e0 := pt.e0 - {v}), pt.e0[v].ppn;
      && p !in free && p < |mem| && !Owns(pt', p)
      && Valid(pt', mem, free) && Valid(pt', mem, free + {p}) && Conserved(pt, free, pt', free + {p})
      && forall w: nat :: Flat(pt', mem, w) == if w == v then None else Flat(pt, mem, w)
  {
    var pt', p := pt.(e0 := pt.e0 - {v}), pt.e0[v].ppn;
    assert forall w: nat :: Walk(pt', w) == if w == v then Missing else Walk(pt, w);
    assert PpnAt(pt, Frame(v)) == Some(p);
    assert forall loc :: PpnAt(pt', loc) == if loc == Frame(v) then None else PpnAt(pt, loc);
    forall q: nat ensures Owns(pt', q) <==> Owns(pt, q) && q != p {
      if Owns(pt, q) && q != p {
        var loc :| PpnAt(pt, loc) == Some(q);
        assert PpnAt(pt', loc) == Some(q);
      }
    }
  }

  /** One 2 MB leaf: the 512 virtual pages of region h become mapped. */
  lemma AddHuge(pt: PT, mem: seq<Page>, free: set<nat>, h: nat, first: nat, flags: Flags)
    requires Valid(pt, mem, free) && h !in pt.e1 && h / PTES in pt.e2 && Grants(flags) && first % PTES == 0
    requires (forall p :: p in free ==> p < |mem|) && HugeRun(first) <= free && first + PTES <= |mem|
    ensures var pt' := pt.(e1 := pt.e1[h := Leaf(first, flags)]);
      && Valid(pt', mem, free - HugeRun(first)) && Conserved(pt, free, pt', free - HugeRun(first))
      && forall w: nat :: Flat(pt', mem, w) == if w / PTES == h then Some(Mapping(mem[first + w % PTES], flags)) else Flat(pt, mem, w)
  {
    var pt', free' := pt.(e1 := pt.e1[h := Leaf(first, flags)]), free - HugeRun(first);
    AddHugePlaces(pt, h, first, flags);
    AddHugeFlat(pt, mem, h, first, flags);
    forall p: nat ensures p in free' <==> (p in free || Owns(pt, p)) && !Owns(pt', p) {
      AddHugeOwns(pt, h, first, flags, p);
      assert InRun(first, p) <==> p in HugeRun(first);
    }
    assert forall v: nat :: InRun(first, first + v % PTES);
    hide PpnAt; hide Owns; hide WellFormed; hide Flat;
    Rearranged(pt, mem, free, pt', free');
  }

  lemma AddHugeFlat(pt: PT, mem: seq<Page>, h: nat, first: nat, flags: Flags)
    requires WellFormed(pt) && h !in pt.e1 && h / PTES in pt.e2 && first + PTES <= |mem|
    ensures var pt' := pt.(e1 := pt.e1[h := Leaf(first, flags)]);
      forall w: nat :: Flat(pt', mem, w) == if w / PTES == h then Some(Mapping(mem[first + w % PTES], flags)) else Flat(pt, mem, w)
  {
    var pt' := pt.(e1 := pt.e1[h := Leaf(first, flags)]);
    forall w: nat ensures Walk(pt', w) == if w / PTES == h then At(1, Leaf(first, flags)) else Walk(pt, w) {
    }
  }

  lemma AddHugePlaces(pt: PT, h: nat, first: nat, flags: Flags)
    requires WellFormed(pt) && h !in pt.e1 && h / PTES in pt.e2 && Grants(flags) && first % PTES == 0
    ensures var pt' := pt.(e1 := pt.e1[h := Leaf(first, flags)]);
      && WellFormed(pt') && (forall loc: Loc :: loc.Frame? && loc.v / PTES == h ==> PpnAt(pt, loc) == None)
      && forall loc :: PpnAt(pt', loc) == if loc.Frame? && loc.v / PTES == h then Some(first + loc.v % PTES) else PpnAt(pt, loc)
  {
    var pt' := pt.(e1 := pt.e1[h := Leaf(first, flags)]);
    forall w: nat ensures Walk(pt', w) == if w / PTES == h then At(1, Leaf(first, flags)) else Walk(pt, w) {
    }
  }

  lemma AddHugeOwns(pt: PT, h: nat, first: nat, flags: Flags, p: nat)
    requires WellFormed(pt) && h !in pt.e1 && h / PTES in pt.e2
    ensures Owns(pt.(e1 := pt.e1[h := Leaf(first, flags)]), p) <==> Owns(pt, p) || InRun(first, p)
  {
    var pt' := pt.(e1 := pt.e1[h := Leaf(first, flags)]);
    forall loc ensures PpnAt(pt', loc) == if loc.Frame? && loc.v / PTES == h then Some(first + loc.v % PTES) else PpnAt(pt, loc) {
    }
    if InRun(first, p) {
      assert PpnAt(pt', Frame(h * PTES + (p - first))) == Some(p);
    }
    if Owns(pt, p) {
      var loc :| PpnAt(pt, loc) == Some(p);
      assert PpnAt(pt', loc) == Some(p);
    }
  }

  /** Removing a 2 MB leaf. */
  lemma DropHuge(pt: PT, mem: seq<Page>, free: set<nat>, h: nat)
    requires Valid(pt, mem, free) && h in pt.e1 && pt.e1[h].Leaf?
    ensures var pt', first := pt.(e1 := pt.e1 - {h}), pt.e1[h].ppn;
      && first + PTES <= |mem| && free !! HugeRun(first)
      && Valid(pt', mem, free) && Valid(pt', mem, free + HugeRun(first)) && Conserved(pt, free, pt', free + HugeRun(first))
      && forall w: nat :: Flat(pt', mem, w) == if w / PTES == h then None else Flat(pt, mem, w)
  {
    var pt', first := pt.(e1 := pt.e1 - {h}), pt.e1[h].ppn;
    HugeFrame(pt, h, PTES - 1);
    forall w: nat ensures Walk(pt', w) == if w / PTES == h then Missing else Walk(pt, w) {
    }
    forall loc ensures PpnAt(pt', loc) == if loc.Frame? && loc.v / PTES == h then None else PpnAt(pt, loc) {
    }
    forall p: nat ensures p in HugeRun(first) ==> p !in free {
      if p in HugeRun(first) {
        HugeFrame(pt, h, p - first);
      }
    }
    forall p: nat ensures (Owns(pt', p) <==> Owns(pt, p) && p !in HugeRun(first)) && (p in HugeRun(first) ==> Owns(pt, p)) {
      DropHugeOwns(pt, h, p);
      RunOwned(pt, h, p);
    }
    hide HugeRun;
    assert Conserved(pt, free, pt', free + HugeRun(first)) by { hide Owns; }
  }

  lemma DropHugeOwns(pt: PT, h: nat, p: nat)
    requires WellFormed(pt) && NoSharing(pt) && h in pt.e1 && pt.e1[h].Leaf?
    ensures Owns(pt.(e1 := pt.e1 - {h}), p) <==> Owns(pt, p) && !InRun(pt.e1[h].ppn, p)
    ensures InRun(pt.e1[h].ppn, p) <==> p in HugeRun(pt.e1[h].ppn)
  {
    var pt', first := pt.(e1 := pt.e1 - {h}), pt.e1[h].ppn;
    forall loc ensures PpnAt(pt', loc) == if loc.Frame? && loc.v / PTES == h then None else PpnAt(pt, loc) {
    }
    if loc :| PpnAt(pt, loc) == Some(p) && !InRun(first, p) {
      assert PpnAt(pt', loc) == Some(p);
    }
    if loc :| PpnAt(pt', loc) == Some(p) {
      if InRun(first, p) {
        HugeFrame(pt, h, p - first);
      }
    }
  }

  // ------------------------------------------------- pages of other processes

  /** Memory that belongs neither to this table nor to the allocator is untouched. */
  ghost predicate ForeignSame(pt: PT, free: set<nat>, mem: seq<Page>, mem': seq<Page>) {
    |mem'| == |mem| && forall p: nat :: p < |mem| && p !in free && !Owns(pt, p) ==> mem'[p] == mem[p]
  }

  /** Two tables have no page in common. */
  ghost predicate Separate(a: PT, b: PT) {
    forall p: nat :: !(Owns(a, p) && Owns(b, p))
  }

  /** An operation on one process's table leaves every other process's space alone. */
  lemma OtherSpace(other: PT, pt: PT, mem: seq<Page>, free: set<nat>, pt': PT, mem': seq<Page>, free': set<nat>)
    requires Valid(other, mem, free) && Separate(other, pt)
    requires ForeignSame(pt, free, mem, mem') && Conserved(pt, free, pt', free')
    ensures Valid(other, mem', free') && Separate(other, pt') && SameSpace(other, mem, other, mem')
  {
    forall loc | PpnAt(other, loc).Some? ensures PpnAt(other, loc).value !in free' && mem'[PpnAt(other, loc).value] == mem[PpnAt(other, loc).value] {
      assert Owns(other, PpnAt(other, loc).value);
    }
    forall p: nat ensures !(Owns(other, p) && Owns(pt', p)) {
      if Owns(other, p) {
        var loc :| PpnAt(other, loc) == Some(p);
        assert p !in free;
      }
    }
    forall v: nat ensures Flat(other, mem', v) == Flat(other, mem, v) {
      assert PpnAt(other, Frame(v)) == FrameOf(other, v);
    }
  }

  /** A page the caller holds can stand in for a free one. */
  lemma Reserve(pt: PT, mem: seq<Page>, free: set<nat>, held: set<nat>)
    requires Valid(pt, mem, free) && forall p: nat :: p in held ==> !Owns(pt, p)
    ensures Valid(pt, mem, free + held)
  {
    forall loc | PpnAt(pt, loc).Some? ensures PpnAt(pt, loc).value !in held {
      assert Owns(pt, PpnAt(pt, loc).value);
    }
  }
}
