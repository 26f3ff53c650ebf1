/** user/umalloc.c: the code, on headers in memory. */
module UserMalloc {
  import opened FreeList
  import opened UserHeap

  lemma LiveNotListed(base: int, list: seq<Blk>, live: map<int, nat>, arena: set<int>, brk: int, c: int, k: nat)
    requires Partition(base, list, live, arena, brk) && c in live && k < |list|
    ensures c != list[k].addr
  {
    LiveAbove(base, list, live, arena, brk, c);
    assert k >= 1 ==> Apart(list[k], AsBlk(live, c));
  }

  /** Where a block at address a belongs. */
  ghost predicate PlaceOf(list: seq<Blk>, a: int, i: nat) {
    i < |list| && list[i].addr < a && (i + 1 < |list| ==> a < list[i + 1].addr)
  }

  lemma {:induction false} PlaceExists(list: seq<Blk>, a: int, n: nat) returns (i: nat)
    requires 1 <= n <= |list| && list[0].addr < a && (n < |list| ==> a < list[n].addr)
    requires forall k :: 0 <= k < |list| ==> list[k].addr != a
    ensures PlaceOf(list, a, i)
  {
    i := n - 1;
    if a < list[i].addr { i := PlaceExists(list, a, i); }
  }

  /** The exit test of free's search. */
  predicate Stops(p: int, q: int, bp: int) {
    (bp > p && bp < q) || (p >= q && (bp > p || bp < q))
  }

  lemma StopsAtPlace(list: seq<Blk>, base: int, i: nat, bp: int)
    requires IsFreeList(list, base) && i < |list| && base < bp
    ensures Stops(list[i].addr, list[Next(list, i)].addr, bp) <==> PlaceOf(list, bp, i)
  {
    if i + 1 < |list| { Increasing(list, i, i + 1); }
    if 0 < i { Increasing(list, 0, i); }
  }

  /** A free block of n units or more. */
  ghost predicate HasRoom(list: seq<Blk>, n: nat) {
    exists i :: 0 <= i < |list| && list[i].units >= n
  }

  lemma PlaceFits(base: int, list: seq<Blk>, live: map<int, nat>, arena: set<int>, brk: int, bp: int, i: nat)
    requires Partition(base, list, live, arena, brk) && bp in live && PlaceOf(list, bp, i)
    ensures Fits(list, i, AsBlk(live, bp))
  {
  }

  ghost predicate SizesKept(live: map<int, nat>, size: map<int, nat>) {
    forall b :: b in live ==> b in size && size[b] == live[b]
  }

  lemma FreedKeepsSizes(base: int, list: seq<Blk>, live: map<int, nat>, arena: set<int>, brk: int, i: nat, bp: int, size: map<int, nat>)
    requires Partition(base, list, live, arena, brk) && bp in live && i < |list| && SizesKept(live, size)
    ensures SizesKept(live - {bp}, FreedSize(list, i, AsBlk(live, bp), size))
  {
    forall c | c in live - {bp} ensures c != list[i].addr {
      LiveNotListed(base, list, live, arena, brk, c, i);
    }
  }

  lemma TakenKeepsSizes(base: int, list: seq<Blk>, live: map<int, nat>, arena: set<int>, brk: int, i: nat, n: nat, size: map<int, nat>)
    requires Partition(base, list, live, arena, brk) && 1 <= i < |list| && 1 <= n <= list[i].units && SizesKept(live, size)
    requires list[i].addr in size && size[list[i].addr] == list[i].units
    ensures SizesKept(live[Given(list, i, n).addr := n], TakenSize(list, i, n, size))
  {
    forall c | c in live ensures c != list[i].addr {
      LiveNotListed(base, list, live, arena, brk, c, i);
    }
  }

  /** Steps along the circle from block i to block t. */
  function Steps(list: seq<Blk>, i: nat, t: nat): int {
    if i <= t then t - i else |list| - i + t
  }

  lemma SearchTarget(base: int, list: seq<Blk>, live: map<int, nat>, arena: set<int>, brk: int, bp: int) returns (t: nat)
    requires Partition(base, list, live, arena, brk) && bp in live
    ensures t < |list| && PlaceOf(list, bp, t) && IsFreeList(list, base) && base < bp
    ensures forall k :: 0 <= k < |list| ==> list[k].addr >= base
  {
    LiveAbove(base, list, live, arena, brk, bp);
    forall k | 0 <= k < |list| ensures list[k].addr != bp {
      LiveNotListed(base, list, live, arena, brk, bp, k);
    }
    t := PlaceExists(list, bp, |list|);
    forall k | 0 < k < |list| ensures list[k].addr >= base {
      Increasing(list, 0, k);
    }
  }

  lemma AtIsLinked(list: seq<Blk>, ptr: map<int, int>, size: map<int, nat>, i: nat)
    requires Linked(list, ptr, size) && i < |list|
    ensures LinkedAt(list, i, ptr, size) && (i > 0 ==> LinkedAt(list, i - 1, ptr, size))
  {
  }

  lemma PartitionIsFreeList(base: int, list: seq<Blk>, live: map<int, nat>, arena: set<int>, brk: int)
    requires Partition(base, list, live, arena, brk)
    ensures IsFreeList(list, base) && base < brk
  {
  }

  lemma SizeOf(live: map<int, nat>, size: map<int, nat>, b: int)
    requires SizesKept(live, size) && b in live
    ensures b in size && size[b] == live[b]
  {
  }

  /** The test for merging upwards sees exactly a block that touches b's end. */
  lemma NextJoins(list: seq<Blk>, base: int, i: nat, b: Blk, ptr: map<int, int>, size: map<int, nat>)
    requires IsFreeList(list, base) && Fits(list, i, b) && LinkedAt(list, i, ptr, size)
    requires i + 1 < |list| ==> LinkedAt(list, i + 1, ptr, size)
    ensures End(b) == ptr[list[i].addr] <==> JoinsAbove(list, i, b)
    ensures JoinsAbove(list, i, b) ==> ptr[list[i].addr] == list[i + 1].addr && list[i + 1].addr in ptr && list[i + 1].addr in size && size[list[i + 1].addr] == list[i + 1].units
    ensures list[i].addr in size && size[list[i].addr] == list[i].units && list[i].addr != b.addr
  {
    if 0 < i { Increasing(list, 0, i); }
  }

  /** The block before b's place keeps its index and address. */
  lemma FreedAt(list: seq<Blk>, i: nat, b: Blk)
    requires i < |list|
    ensures i < |Freed(list, i, b)| && Freed(list, i, b)[i].addr == list[i].addr
  {
  }

  class Heap {
    const base: int
    var ptr: map<int, int>
    var size: map<int, nat>
    var freep: int
    var brk: int
    ghost var list: seq<Blk>
    ghost var live: map<int, nat>
    ghost var arena: set<int>
    ghost var at: nat

    ghost predicate Valid()
      reads this
    {
      && base > 0 && Partition(base, list, live, arena, brk) && SizesKept(live, size)
      && if freep == 0 then list == [Blk(base, 0)] && live == map[]
         else Linked(list, ptr, size) && at < |list| && freep == list[at].addr
    }

    /** A program that has not allocated yet: freep is null. */
    constructor (base: int, brk: int)
      requires 0 < base < brk
      ensures Valid() && live == map[] && arena == {} && list == [Blk(base, 0)] && this.base == base && this.brk == brk
    {
      this.base, this.brk := base, brk;
      ptr, size, freep := map[], map[], 0;
      list, live, arena, at := [Blk(base, 0)], map[], {}, 0;
    }

    /** free's search: it ends, at the block after which bp belongs. */
    method FindPlace(bp: int) returns (p: int, ghost i: nat)
      requires Valid() && bp in live
      ensures freep != 0 && PlaceOf(list, bp, i) && i < |list| && p == list[i].addr > 0
    {
      hide PlaceOf; hide Partition; hide Linked; hide SizesKept;
      ghost var t := SearchTarget(base, list, live, arena, brk, bp);
      hide IsFreeList;
      p, i := freep, at;
      AtIsLinked(list, ptr, size, i);
      while !(bp > p && bp < ptr[p])
        invariant i < |list| && p == list[i].addr && LinkedAt(list, i, ptr, size)
        decreases Steps(list, i, t)
      {
        StopsAtPlace(list, base, i, bp);
        if p >= ptr[p] && (bp > p || bp < ptr[p]) { return; }
        p, i := ptr[p], Next(list, i);
        AtIsLinked(list, ptr, size, i);
      }
      StopsAtPlace(list, base, i, bp);
    }

    /** free's first test: a block that ends where the next one starts takes it in. */
    method MergeAbove(bp: int, next: int)
      requires bp in size && (bp + UNIT * size[bp] == next ==> next in size && next in ptr)
      modifies this`ptr, this`size
      ensures if bp + UNIT * old(size)[bp] == next then size == old(size)[bp := old(size)[bp] + old(size)[next]] && ptr == old(ptr)[bp := old(ptr)[next]]
        else size == old(size) && ptr == old(ptr)[bp := next]
    {
      if bp + UNIT * size[bp] == next {
        size := size[bp := size[bp] + size[next]];
        ptr := ptr[bp := ptr[next]];
      } else {
        ptr := ptr[bp := next];
      }
    }

    /** free's second test: a block that ends where bp starts takes bp in. */
    method MergeBelow(bp: int, p: int)
      requires p in size && bp in size && bp in ptr
      modifies this`ptr, this`size
      ensures if p + UNIT * old(size)[p] == bp then size == old(size)[p := old(size)[p] + old(size)[bp]] && ptr == old(ptr)[p := old(ptr)[bp]]
        else size == old(size) && ptr == old(ptr)[p := bp]
    {
      if p + UNIT * size[p] == bp {
        size := size[p := size[p] + size[bp]];
        ptr := ptr[p := ptr[bp]];
      } else {
        ptr := ptr[p := bp];
      }
    }

    /** free's header writes: bp is put after p and merged with what it touches. */
    method Merge(bp: int, p: int, ghost i: nat, ghost b: Blk)
      requires IsFreeList(list, base) && Fits(list, i, b) && Linked(list, ptr, size)
      requires p == list[i].addr && bp == b.addr && bp in size && size[bp] == b.units
      modifies this`ptr, this`size
      ensures LinkedAt(list, i, old(ptr), old(size)) && (i + 1 < |list| ==> LinkedAt(list, i + 1, old(ptr), old(size)))
      ensures ptr == FreedPtr(list, i, b, old(ptr)) && size == FreedSize(list, i, b, old(size))
    {
      AtIsLinked(list, ptr, size, i);
      if i + 1 < |list| { AtIsLinked(list, ptr, size, i + 1); }
      NextJoins(list, base, i, b, ptr, size);
      hide Linked; hide IsFreeList; hide Fits;
      MergeAbove(bp, ptr[p]);
      MergeBelow(bp, p);
    }

    /** free, given the address of the block's header: the block leaves the live ones and
        its bytes join the free list, merged with the free neighbours it touches. */
    method Free(bp: int)
      requires Valid() && bp in live
      modifies this
      ensures Valid() && live == old(live) - {bp} && arena == old(arena) && brk == old(brk)
      ensures freep != 0 && at < |old(list)| && PlaceOf(old(list), bp, at) && list == Freed(old(list), at, AsBlk(old(live), bp))
    {
      hide Partition; hide Linked; hide Freed; hide SizesKept; hide IsFreeList; hide Fits; hide PlaceOf; hide FreedPtr; hide FreedSize;
      var p;
      ghost var i;
      p, i := FindPlace(bp);
      ghost var b := AsBlk(live, bp);
      PlaceFits(base, list, live, arena, brk, bp, i);
      FreedPartition(base, list, live, arena, brk, i, bp);
      FreedKeepsSizes(base, list, live, arena, brk, i, bp, size);
      PartitionIsFreeList(base, list, live, arena, brk);
      SizeOf(live, size, bp);
      FreedLinked(list, base, i, b, ptr, size);
      Merge(bp, p, i, b);
      freep := p;
      FreedAt(list, i, b);
      list, live, at := Freed(list, i, b), live - {bp}, i;
    }

    /** sbrk's successful case: `gap` is what others took since the last call. */
    method Sbrk(ask: nat, gap: nat) returns (p: int)
      modifies this`brk
      ensures p == old(brk) + gap && brk == p + ask
    {
      p := brk + gap;
      brk := p + ask;
    }

    /** morecore: 0 if sbrk refuses; otherwise fresh memory for at least nu units is on
        the free list, in freep's block or in the one after it.  sbrk is asked for the
        larger of 4096 units and nu, 16 bytes each. */
    method Morecore(nu: nat, grant: bool, gap: nat) returns (r: int)
      requires Valid() && freep != 0 && 1 <= nu && UNIT * nu < 0x8000_0000
      modifies this
      ensures Valid() && freep != 0 && live == old(live)
      ensures !grant ==> r == 0 && list == old(list) && arena == old(arena) && brk == old(brk) && freep == old(freep) && at == old(at)
      ensures grant ==> r == freep && arena == old(arena) + Bytes(Blk(old(brk) + gap, Units(nu)))
      ensures grant ==> brk == old(brk) + gap + 16 * Max(4096, nu)
      ensures grant ==> list[at].units >= nu || list[Next(list, at)].units >= nu
    {
      hide Partition; hide Linked; hide SizesKept; hide Freed; hide PlaceOf;
      var n := Units(nu);
      AskIsExact(nu);
      if !grant { return 0; }
      ghost var brk0 := brk;
      var hp := Sbrk(AsInt(n * UNIT), gap);
      ghost var g := Blk(hp, n);
      GrownPartition(base, list, live, arena, brk0, g);
      FreshHeader(base, list, live, arena, brk0, ptr, size, g);
      size := size[hp := n];
      live, arena := live[hp := n], arena + Bytes(g);
      ghost var before := list;
      Free(hp);
      assert live == old(live);
      FreedHolds(before, at, g);
      r := freep;
    }

    /** malloc's success branch: n units from block pi, which p and prevp point to. */
    method Take(prevp: int, p: int, n: nat, ghost pi: nat) returns (r: int)
      requires Valid() && freep != 0 && 1 <= pi < |list| && 1 <= n <= list[pi].units
      requires p == list[pi].addr && prevp == list[pi - 1].addr
      modifies this
      ensures Valid() && freep != 0 && arena == old(arena) && brk == old(brk)
      ensures r > 0 && r - UNIT !in old(live) && live == old(live)[r - UNIT := n]
      ensures list == Taken(old(list), pi, n) && r - UNIT == Given(old(list), pi, n).addr && at == pi - 1
    {
      hide Partition; hide Linked; hide SizesKept; hide Taken; hide IsFreeList;
      AtIsLinked(list, ptr, size, pi);
      PartitionIsFreeList(base, list, live, arena, brk);
      TakenPartition(base, list, live, arena, brk, pi, n);
      TakenKeepsSizes(base, list, live, arena, brk, pi, n, size);
      TakenLinked(list, base, pi, n, ptr, size);
      TakenAt(list, base, pi, n);
      var q := p;
      if size[p] == n {
        ptr := ptr[prevp := ptr[p]];
      } else {
        size := size[p := size[p] - n];
        q := p + UNIT * size[p];
        size := size[q := n];
      }
      freep := prevp;
      list, live, at := Taken(list, pi, n), live[q := n], pi - 1;
      r := q + UNIT;
    }

    /** The first call builds the one-block circle of `base` alone. */
    method Init()
      requires Valid()
      modifies this
      ensures Valid() && freep != 0 && live == old(live) && list == old(list) && arena == old(arena) && brk == old(brk)
      ensures at == old(if freep == 0 then 0 else at)
    {
      if freep == 0 {
        ptr, size, freep := ptr[base := base], size[base := 0], base;
        at := 0;
        assert LinkedAt(list, 0, ptr, size);
      }
    }

    /** malloc.  It calls morecore at most once, exactly when no free block is large
        enough, and then fails if and only if sbrk does; the block it hands out was free
        or fresh and has room for nbytes after its header.  A block from the list is the
        first large enough one after freep, which then stays just before it.  `wrong` says that sbrk is about
        to be asked for another amount than is needed; nothing is claimed about what
        follows. */
    method Malloc(nbytes: nat, grant: bool, gap: nat) returns (r: int, calls: nat, wrong: bool)
      requires Valid()
      modifies this
      ensures Valid() && (wrong <==> nbytes > 0x7FFF_FFE0 && !HasRoom(old(list), NeedUnits(nbytes)))
      ensures wrong ==> live == old(live) && list == old(list) && arena == old(arena)
      ensures calls == (if HasRoom(old(list), NeedUnits(nbytes)) then 0 else 1)
      ensures !wrong ==> (r == 0 <==> calls == 1 && !grant)
      ensures r == 0 ==> live == old(live) && list == old(list)
      ensures r != 0 ==> r - UNIT !in old(live) && live == old(live)[r - UNIT := NeedUnits(nbytes)]
      ensures !wrong ==> arena == if calls == 1 && grant then old(arena) + Bytes(Blk(old(brk) + gap, Units(NeedUnits(nbytes)))) else old(arena)
      ensures calls == 0 ==> TookNextFit(old(list), old(if freep == 0 then 0 else at), NeedUnits(nbytes), list, at, r - UNIT)
      ensures !wrong ==> brk == if calls == 1 && grant then old(brk) + gap + 16 * Max(4096, NeedUnits(nbytes)) else old(brk)
    {
      hide Partition; hide Linked; hide SizesKept; hide Seen; hide HasRoom; hide Steps; hide Taken; hide Given; hide Units; hide Bytes; hide TookNextFit;
      var n := NeedUnits(nbytes);
      RequestBelow2GB(nbytes);
      AskIsExact(n);
      calls, wrong := 0, false;
      Init();
      ghost var list0, live0, arena0, brk0, at0 := list, live, arena, brk, at;
      var prevp := freep;
      AtIsLinked(list, ptr, size, at);
      SeenNone(list, at, n);
      var p := ptr[prevp];
      ghost var pi: nat := Next(list, at);
      while true
        invariant Valid() && freep != 0 && live == live0 && calls <= 1 && pi < |list| && p == list[pi].addr
        invariant pi >= 1 ==> prevp == list[pi - 1].addr
        invariant calls == 0 ==> list == list0 && arena == arena0 && brk == brk0 && at == at0 && Seen(list, at, pi, n)
        invariant !wrong && (calls == 1 ==> nbytes <= 0x7FFF_FFE0)
        invariant calls == 1 ==> grant && !HasRoom(list0, n) && arena == arena0 + Bytes(Blk(brk0 + gap, Units(n))) && brk == brk0 + gap + 16 * Max(4096, n)
        invariant calls == 1 ==> list[at].units >= n || (pi == Next(list, at) && list[pi].units >= n)
        decreases 1 - calls, Steps(list, pi, at)
      {
        AtIsLinked(list, ptr, size, pi);
        if size[p] >= n {
          RoomAt(list, pi, n);
          BaseIsEmpty(base, list, live, arena, brk);
          r := Take(prevp, p, n, pi);
          NextFitTaken(calls == 0, list0, at0, n, pi, list, at, r - UNIT);
          return;
        }
        SeenIf(calls == 0, list, at, pi, n);
        if p == freep {
          SamePlace(base, list, live, arena, brk, pi, at);
          calls := calls + 1;
          if AsInt(Units(n) * UNIT) != Units(n) * UNIT { return 0, calls, true; }
          p := Morecore(n, grant, gap);
          if p == 0 { return 0, calls, false; }
          pi := at;
        }
        AtIsLinked(list, ptr, size, pi);
        StepsDown(list, pi, at);
        prevp, p, pi := p, ptr[p], Next(list, pi);
      }
    }

    /** malloc then free gives back the very same free list, unless sbrk was needed. */
    method MallocFree(nbytes: nat, grant: bool, gap: nat) returns (r: int, calls: nat)
      requires Valid()
      modifies this
      ensures Valid() && live == old(live) && (r == 0 || calls == 0 ==> list == old(list) && arena == old(arena))
    {
      hide Partition; hide Linked; hide SizesKept; hide HasRoom;
      ghost var list0, live0, arena0, brk0 := list, live, arena, brk;
      var wrong;
      r, calls, wrong := Malloc(nbytes, grant, gap);
      if r != 0 {
        Free(r - UNIT);
        assert live == live0;
      }
      if calls == 0 {
        FreeListDetermined(base, list, list0, live, arena, brk, brk0);
      }
    }
  }

  /** Units for a request of nbytes, with the header. */
  function NeedUnits(nbytes: nat): (n: nat)
    ensures n >= 1 && UNIT * (n - 1) >= nbytes && UNIT * (n - 1) < nbytes + UNIT
  {
    (nbytes + UNIT - 1) / UNIT + 1
  }

  lemma RequestBelow2GB(nbytes: nat)
    ensures UNIT * NeedUnits(nbytes) < 0x8000_0000 <==> nbytes <= 0x7FFF_FFE0
  {
  }

  /** Every block from the one after `at` up to, not including, pi is too small. */
  ghost predicate Seen(list: seq<Blk>, at: nat, pi: nat, n: nat) {
    forall j: nat :: j < |list| && Steps(list, j, at) > Steps(list, pi, at) ==> list[j].units < n
  }

  /** The n units are taken from the first block after `at` that has them; the search goes
      on from the block before it. */
  ghost predicate TookNextFit(list: seq<Blk>, at: nat, n: nat, list': seq<Blk>, at': nat, bp: int) {
    exists pi: nat ::
      && 1 <= pi < |list| && list[pi].units >= n && Seen(list, at, pi, n)
      && list' == Taken(list, pi, n) && bp == Given(list, pi, n).addr && at' == pi - 1
  }

  lemma NextFitTaken(c: bool, list: seq<Blk>, at: nat, n: nat, pi: nat, list': seq<Blk>, at': nat, bp: int)
    requires c ==> 1 <= pi < |list| && list[pi].units >= n && Seen(list, at, pi, n)
    requires c ==> list' == Taken(list, pi, n) && bp == Given(list, pi, n).addr && at' == pi - 1
    ensures c ==> TookNextFit(list, at, n, list', at', bp)
  {
  }

  lemma SeenNone(list: seq<Blk>, at: nat, n: nat)
    requires at < |list|
    ensures Seen(list, at, Next(list, at), n)
  {
  }

  lemma SeenOneMore(list: seq<Blk>, at: nat, pi: nat, n: nat)
    requires at < |list| && pi < |list| && Seen(list, at, pi, n) && list[pi].units < n
    ensures pi != at ==> Seen(list, at, Next(list, pi), n)
    ensures pi == at ==> !HasRoom(list, n)
  {
    if pi == at {
      forall j: nat | j < |list| ensures list[j].units < n {
        assert j == at || Steps(list, j, at) > 0;
      }
    }
  }

  lemma SeenIf(c: bool, list: seq<Blk>, at: nat, pi: nat, n: nat)
    requires at < |list| && pi < |list| && list[pi].units < n && (c ==> Seen(list, at, pi, n))
    ensures c && pi != at ==> Seen(list, at, Next(list, pi), n)
    ensures c && pi == at ==> !HasRoom(list, n)
  {
    if c { SeenOneMore(list, at, pi, n); }
  }

  lemma BaseIsEmpty(base: int, list: seq<Blk>, live: map<int, nat>, arena: set<int>, brk: int)
    requires Partition(base, list, live, arena, brk)
    ensures |list| > 0 && list[0].units == 0
  {
  }

  lemma RoomAt(list: seq<Blk>, pi: nat, n: nat)
    requires pi < |list| && list[pi].units >= n
    ensures HasRoom(list, n)
  {
  }

  lemma StepsDown(list: seq<Blk>, i: nat, t: nat)
    requires i < |list| && t < |list|
    ensures i != t ==> 0 <= Steps(list, Next(list, i), t) < Steps(list, i, t)
  {
  }

  lemma SamePlace(base: int, list: seq<Blk>, live: map<int, nat>, arena: set<int>, brk: int, i: nat, j: nat)
    requires Partition(base, list, live, arena, brk) && i < |list| && j < |list| && list[i].addr == list[j].addr
    ensures i == j
  {
    if i < j { Increasing(list, i, j); }
    if j < i { Increasing(list, j, i); }
  }

  function Max(a: nat, b: nat): nat {
    if a < b then b else a
  }

  /** What morecore asks for. */
  function Units(nu: nat): nat {
    if nu < MIN_UNITS then MIN_UNITS else nu
  }

  /** Passing a 64-bit number as a C int. */
  function AsInt(n: nat): int {
    var w := n % 0x1_0000_0000;
    if w >= 0x8000_0000 then w - 0x1_0000_0000 else w
  }

  /** sbrk takes an int: the request survives if and only if it is below 2 GB. */
  lemma AskIsExact(nu: nat)
    ensures AsInt(Units(nu) * UNIT) == Units(nu) * UNIT <==> UNIT * nu < 0x8000_0000
  {
  }

  /** malloc does what it is asked, for a request it can meet from the list or one that
      survives the call of sbrk: the exact condition for a call of malloc. */
  lemma ServableIff(list: seq<Blk>, nbytes: nat)
    ensures HasRoom(list, NeedUnits(nbytes)) || AsInt(Units(NeedUnits(nbytes)) * UNIT) == Units(NeedUnits(nbytes)) * UNIT <==>
      nbytes <= 0x7FFF_FFE0 || HasRoom(list, NeedUnits(nbytes))
  {
    RequestBelow2GB(nbytes);
    AskIsExact(NeedUnits(nbytes));
  }

  /** Just above the limit the request turns negative: sbrk would shrink the process. */
  lemma HugeRequestShrinks()
    ensures AsInt(Units(NeedUnits(0x7FFF_FFE1)) * UNIT) == -0x8000_0000
  {
    assert NeedUnits(0x7FFF_FFE1) == 0x800_0000;
  }

  lemma FreshHeader(base: int, list: seq<Blk>, live: map<int, nat>, arena: set<int>, brk: int, ptr: map<int, int>, size: map<int, nat>, g: Blk)
    requires Partition(base, list, live, arena, brk) && brk <= g.addr && g.units >= 1 && Linked(list, ptr, size) && SizesKept(live, size)
    ensures Linked(list, ptr, size[g.addr := g.units]) && SizesKept(live[g.addr := g.units], size[g.addr := g.units])
    ensures g.addr !in live
  {
    GrownPartition(base, list, live, arena, brk, g);
    var size' := size[g.addr := g.units];
    forall i | 0 <= i < |list| ensures LinkedAt(list, i, ptr, size') {
      assert LinkedAt(list, i, ptr, size);
      LiveNotListed(base, list, live[g.addr := g.units], arena + Bytes(g), End(g), g.addr, i);
    }
  }

  lemma FreedHolds(list: seq<Blk>, i: nat, b: Blk)
    requires i < |list|
    ensures var s := Freed(list, i, b); i < |s| && (s[i].units >= b.units || s[Next(s, i)].units >= b.units)
  {
    var s := Freed(list, i, b);
    var lo := if JoinsBelow(list, i, b) then i else i + 1;
    assert s[lo] == Joined(list, i, b);
  }

  /** The block before the taken one keeps its index and address. */
  lemma TakenAt(list: seq<Blk>, base: int, i: nat, n: nat)
    requires IsFreeList(list, base) && 1 <= i < |list| && n <= list[i].units && 0 < base
    ensures i - 1 < |Taken(list, i, n)| && Taken(list, i, n)[i - 1].addr == list[i - 1].addr > 0 && list[i].addr > 0
  {
    Increasing(list, 0, i);
    if i > 1 { Increasing(list, 0, i - 1); }
  }
}
