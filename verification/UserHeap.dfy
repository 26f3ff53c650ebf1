/** user/umalloc.c: malloc and free over a circular list of free blocks, threaded
    through the headers in memory. */
module UserHeap {
  import opened FreeList

  const MIN_UNITS: nat := 4096

  // ------------------------------------------------------------ the invariant

  function AsBlk(live: map<int, nat>, b: int): Blk
    requires b in live
  {
    Blk(b, live[b])
  }

  ghost predicate LiveCovers(live: map<int, nat>, x: int) {
    exists b :: b in live && In(AsBlk(live, b), x)
  }

  ghost predicate Disjoint(list: seq<Blk>, live: map<int, nat>) {
    && (forall b :: b in live ==> live[b] >= 1)
    && (forall b, i :: b in live && 1 <= i < |list| ==> Apart(list[i], AsBlk(live, b)))
    && (forall b, c :: b in live && c in live && b != c ==> Apart(AsBlk(live, b), AsBlk(live, c)))
  }

  /** Free and live blocks are disjoint and make up exactly the memory obtained from
      sbrk, all of it between the static base and the break. */
  ghost predicate Partition(base: int, list: seq<Blk>, live: map<int, nat>, arena: set<int>, brk: int) {
    && IsFreeList(list, base) && Disjoint(list, live) && base < brk
    && (forall x :: x in arena <==> Covers(list, x) || LiveCovers(live, x))
    && (forall x :: x in arena ==> base < x < brk)
  }

  /** The free list is a function of the memory and the live blocks. */
  lemma FreeListDetermined(base: int, a: seq<Blk>, b: seq<Blk>, live: map<int, nat>, arena: set<int>, brk: int, brk': int)
    requires Partition(base, a, live, arena, brk) && Partition(base, b, live, arena, brk')
    ensures a == b
  {
    forall x ensures Covers(a[1..], x) <==> Covers(b[1..], x) {
      FreeIsNotLive(a, live, x);
      FreeIsNotLive(b, live, x);
      TailCovers(a, x);
      TailCovers(b, x);
      assert Covers(a, x) <==> Covers(b, x);
      assert x in arena ==> base < x;
      assert Covers(a, x) ==> x in arena;
    }
    SparseUnique(a[1..], b[1..]);
    assert a == [a[0]] + a[1..] && b == [b[0]] + b[1..];
  }

  lemma FreeIsNotLive(list: seq<Blk>, live: map<int, nat>, x: int)
    requires |list| >= 1 && list[0].units == 0 && Disjoint(list, live)
    ensures !(Covers(list, x) && LiveCovers(live, x))
  {
    forall i, b | 0 <= i < |list| && b in live ensures !(In(list[i], x) && In(AsBlk(live, b), x)) {
      assert i >= 1 ==> Apart(list[i], AsBlk(live, b));
    }
  }

  lemma LiveAbove(base: int, list: seq<Blk>, live: map<int, nat>, arena: set<int>, brk: int, b: int)
    requires Partition(base, list, live, arena, brk) && b in live
    ensures base < b && End(AsBlk(live, b)) <= brk && live[b] >= 1
  {
    var e := End(AsBlk(live, b)) - 1;
    assert In(AsBlk(live, b), b) && In(AsBlk(live, b), e);
    assert LiveCovers(live, b) && LiveCovers(live, e);
  }

  /** Below 64 GB no size overflows its 32-bit header field, however blocks merge. */
  lemma SizesFit(base: int, list: seq<Blk>, live: map<int, nat>, arena: set<int>, brk: int)
    requires Partition(base, list, live, arena, brk) && 0 <= base && brk <= 0x10_0000_0000
    ensures forall i :: 0 <= i < |list| ==> list[i].units < 0x1_0000_0000
    ensures forall b :: b in live ==> live[b] < 0x1_0000_0000
  {
    forall i | 1 <= i < |list| ensures list[i].units < 0x1_0000_0000 {
      assert In(list[i], list[i].addr) && In(list[i], End(list[i]) - 1);
      assert Covers(list, list[i].addr) && Covers(list, End(list[i]) - 1);
    }
    forall b | b in live ensures live[b] < 0x1_0000_0000 {
      LiveAbove(base, list, live, arena, brk, b);
    }
  }

  // ------------------------------------------------------------ free

  lemma JoinedApart(list: seq<Blk>, i: nat, b: Blk, c: Blk)
    requires i < |list| && Apart(b, c) && b.units >= 1 && c.units >= 1
    requires JoinsBelow(list, i, b) ==> Apart(list[i], c) && list[i].units >= 1
    requires JoinsAbove(list, i, b) ==> Apart(list[i + 1], c) && list[i + 1].units >= 1
    ensures Apart(Joined(list, i, b), c)
  {
  }

  lemma FreedDisjoint(base: int, list: seq<Blk>, live: map<int, nat>, i: nat, bp: int)
    requires IsFreeList(list, base) && Disjoint(list, live) && bp in live && Fits(list, i, AsBlk(live, bp))
    ensures Disjoint(Freed(list, i, AsBlk(live, bp)), live - {bp})
  {
    var b := AsBlk(live, bp);
    var s := Freed(list, i, b);
    var lo := if JoinsBelow(list, i, b) then i else i + 1;
    var hi := if JoinsAbove(list, i, b) then i + 2 else i + 1;
    forall c, k | c in live - {bp} && 1 <= k < |s| ensures Apart(s[k], AsBlk(live - {bp}, c)) {
      assert Apart(b, AsBlk(live, c));
      JoinedApart(list, i, b, AsBlk(live, c));
      assert s[k] == if k < lo then list[k] else if k == lo then Joined(list, i, b) else list[hi + (k - lo - 1)];
    }
    assert forall c :: c in live - {bp} ==> AsBlk(live - {bp}, c) == AsBlk(live, c);
  }

  lemma LiveWithout(live: map<int, nat>, bp: int, x: int)
    requires bp in live
    ensures LiveCovers(live, x) <==> LiveCovers(live - {bp}, x) || In(AsBlk(live, bp), x)
  {
    if LiveCovers(live, x) {
      var c :| c in live && In(AsBlk(live, c), x);
      assert c != bp ==> c in live - {bp} && In(AsBlk(live - {bp}, c), x);
    }
    if LiveCovers(live - {bp}, x) {
      var c :| c in live - {bp} && In(AsBlk(live - {bp}, c), x);
      assert In(AsBlk(live, c), x);
    }
  }

  lemma FreedPartition(base: int, list: seq<Blk>, live: map<int, nat>, arena: set<int>, brk: int, i: nat, bp: int)
    requires Partition(base, list, live, arena, brk) && bp in live && Fits(list, i, AsBlk(live, bp))
    ensures Partition(base, Freed(list, i, AsBlk(live, bp)), live - {bp}, arena, brk)
  {
    var b := AsBlk(live, bp);
    FreedIsFreeList(list, base, i, b);
    FreedDisjoint(base, list, live, i, bp);
    hide Covers; hide LiveCovers; hide Disjoint; hide Freed;
    forall x ensures x in arena <==> Covers(Freed(list, i, b), x) || LiveCovers(live - {bp}, x) {
      FreedCovers(list, base, i, b, x);
      LiveWithout(live, bp, x);
    }
  }

  // ------------------------------------------------------------ malloc

  lemma TakenDisjoint(base: int, list: seq<Blk>, live: map<int, nat>, i: nat, n: nat)
    requires IsFreeList(list, base) && Disjoint(list, live) && 1 <= i < |list| && 1 <= n <= list[i].units
    ensures var g := Given(list, i, n); g.addr !in live && Disjoint(Taken(list, i, n), live[g.addr := n])
  {
    var g := Given(list, i, n);
    var s := Taken(list, i, n);
    TakenIsFreeList(list, base, i, n);
    forall b | b in live ensures Apart(g, AsBlk(live, b)) && b != g.addr {
      assert Apart(list[i], AsBlk(live, b));
    }
    var live' := live[g.addr := n];
    assert AsBlk(live', g.addr) == g;
    forall b, k | b in live' && 1 <= k < |s| ensures Apart(s[k], AsBlk(live', b)) {
      if b != g.addr {
        var j := if list[i].units == n && k >= i then k + 1 else k;
        assert AsBlk(live', b) == AsBlk(live, b) && Apart(list[j], AsBlk(live, b));
      }
    }
  }

  lemma LiveWith(live: map<int, nat>, g: Blk, x: int)
    requires g.addr !in live
    ensures LiveCovers(live[g.addr := g.units], x) <==> LiveCovers(live, x) || In(g, x)
  {
    var live' := live[g.addr := g.units];
    assert AsBlk(live', g.addr) == g;
    if LiveCovers(live, x) {
      var c :| c in live && In(AsBlk(live, c), x);
      assert c in live' && In(AsBlk(live', c), x);
    }
    if LiveCovers(live', x) {
      var c :| c in live' && In(AsBlk(live', c), x);
      assert c != g.addr ==> In(AsBlk(live, c), x);
    }
  }

  lemma TakenPartition(base: int, list: seq<Blk>, live: map<int, nat>, arena: set<int>, brk: int, i: nat, n: nat)
    requires Partition(base, list, live, arena, brk) && 1 <= i < |list| && 1 <= n <= list[i].units
    ensures var g := Given(list, i, n); g.addr !in live && Partition(base, Taken(list, i, n), live[g.addr := n], arena, brk)
  {
    var g := Given(list, i, n);
    TakenIsFreeList(list, base, i, n);
    TakenDisjoint(base, list, live, i, n);
    hide Covers; hide LiveCovers; hide Disjoint; hide Taken;
    forall x ensures x in arena <==> Covers(Taken(list, i, n), x) || LiveCovers(live[g.addr := n], x) {
      TakenCovers(list, base, i, n, x);
      LiveWith(live, g, x);
    }
  }

  // ------------------------------------------------------------ morecore

  function Bytes(b: Blk): (s: set<int>)
    ensures forall x :: x in s <==> In(b, x)
  {
    set x | b.addr <= x < End(b) && In(b, x)
  }

  /** Fresh memory above the break, counted as one live block. */
  lemma GrownPartition(base: int, list: seq<Blk>, live: map<int, nat>, arena: set<int>, brk: int, g: Blk)
    requires Partition(base, list, live, arena, brk) && brk <= g.addr && g.units >= 1
    ensures g.addr !in live && Partition(base, list, live[g.addr := g.units], arena + Bytes(g), End(g))
  {
    forall b | b in live ensures End(AsBlk(live, b)) <= g.addr && b != g.addr {
      LiveAbove(base, list, live, arena, brk, b);
    }
    forall i | 1 <= i < |list| ensures End(list[i]) <= g.addr {
      assert In(list[i], End(list[i]) - 1);
      assert Covers(list, End(list[i]) - 1);
    }
    var live' := live[g.addr := g.units];
    assert AsBlk(live', g.addr) == g;
    assert forall b :: b in live ==> AsBlk(live', b) == AsBlk(live, b);
    assert Disjoint(list, live');
    hide Covers; hide LiveCovers; hide Disjoint;
    forall x ensures x in arena + Bytes(g) <==> Covers(list, x) || LiveCovers(live', x) {
      LiveWith(live, g, x);
    }
  }

  // ------------------------------------------------------------ links

  function Next(list: seq<Blk>, i: nat): nat {
    if i + 1 < |list| then i + 1 else 0
  }

  ghost predicate LinkedAt(list: seq<Blk>, i: nat, ptr: map<int, int>, size: map<int, nat>)
    requires i < |list|
  {
    var a := list[i].addr;
    a in ptr && a in size && size[a] == list[i].units && ptr[a] == list[Next(list, i)].addr
  }

  /** The headers in memory spell out the list, closed into a circle. */
  ghost predicate Linked(list: seq<Blk>, ptr: map<int, int>, size: map<int, nat>) {
    forall i :: 0 <= i < |list| ==> LinkedAt(list, i, ptr, size)
  }

  lemma Increasing(list: seq<Blk>, i: nat, j: nat)
    requires Sparse(list) && i < j < |list|
    ensures list[i].addr < list[j].addr
  {
    assert End(list[i]) < list[j].addr;
  }

  /** The four header writes of free, as maps. */
  function FreedSize(list: seq<Blk>, i: nat, b: Blk, size: map<int, nat>): map<int, nat>
    requires i < |list|
  {
    var above := if JoinsAbove(list, i, b) then size[b.addr := b.units + list[i + 1].units] else size;
    if JoinsBelow(list, i, b) then above[list[i].addr := Joined(list, i, b).units] else above
  }

  function FreedPtr(list: seq<Blk>, i: nat, b: Blk, ptr: map<int, int>): map<int, int>
    requires i < |list| && list[i].addr in ptr && (JoinsAbove(list, i, b) ==> list[i + 1].addr in ptr)
  {
    var p := list[i].addr;
    var q := if JoinsAbove(list, i, b) then ptr[list[i + 1].addr] else ptr[p];
    ptr[b.addr := q][p := if JoinsBelow(list, i, b) then q else b.addr]
  }

  lemma NotListed(list: seq<Blk>, i: nat, b: Blk, k: nat)
    requires Sparse(list) && Fits(list, i, b) && k < |list|
    ensures list[k].addr != b.addr
  {
    if k < i { Increasing(list, k, i); }
    if k > i + 1 { Increasing(list, i + 1, k); }
  }

  predicate SameHeader(a: int, ptr: map<int, int>, size: map<int, nat>, ptr': map<int, int>, size': map<int, nat>) {
    a in ptr && a in size && a in ptr' && a in size' && ptr'[a] == ptr[a] && size'[a] == size[a]
  }

  /** Replacing the blocks lo to hi by m, whose header leads on to block hi. */
  ghost predicate Relinked(list: seq<Blk>, lo: nat, m: Blk, hi: nat, ptr: map<int, int>, size: map<int, nat>, ptr': map<int, int>, size': map<int, nat>) {
    && lo <= hi <= |list| && 0 < |list| && (lo == 0 ==> m.addr == list[0].addr)
    && m.addr in ptr' && m.addr in size' && size'[m.addr] == m.units
    && ptr'[m.addr] == (if hi < |list| then list[hi].addr else list[0].addr)
    && (lo > 0 ==> list[lo - 1].addr in ptr' && list[lo - 1].addr in size' && ptr'[list[lo - 1].addr] == m.addr && size'[list[lo - 1].addr] == list[lo - 1].units)
    && (forall k :: 0 <= k < |list| && (k < lo - 1 || k >= hi) ==> SameHeader(list[k].addr, ptr, size, ptr', size'))
  }

  lemma GlueLinkedAt(list: seq<Blk>, lo: nat, m: Blk, hi: nat, ptr: map<int, int>, size: map<int, nat>, ptr': map<int, int>, size': map<int, nat>, k: nat)
    requires Linked(list, ptr, size) && Relinked(list, lo, m, hi, ptr, size, ptr', size') && k < |list[..lo] + [m] + list[hi..]|
    ensures LinkedAt(list[..lo] + [m] + list[hi..], k, ptr', size')
  {
    var s := list[..lo] + [m] + list[hi..];
    if k < lo - 1 || k > lo {
      var j := if k < lo then k else hi + (k - lo - 1);
      assert s[k] == list[j] && LinkedAt(list, j, ptr, size) && SameHeader(list[j].addr, ptr, size, ptr', size');
      assert s[Next(s, k)].addr == list[Next(list, j)].addr;
    }
  }

  lemma GlueLinked(list: seq<Blk>, lo: nat, m: Blk, hi: nat, ptr: map<int, int>, size: map<int, nat>, ptr': map<int, int>, size': map<int, nat>)
    requires Linked(list, ptr, size) && Relinked(list, lo, m, hi, ptr, size, ptr', size')
    ensures Linked(list[..lo] + [m] + list[hi..], ptr', size')
  {
    forall k: nat | k < |list[..lo] + [m] + list[hi..]| ensures LinkedAt(list[..lo] + [m] + list[hi..], k, ptr', size') {
      GlueLinkedAt(list, lo, m, hi, ptr, size, ptr', size', k);
    }
  }

  lemma FreedHeaderSame(list: seq<Blk>, i: nat, b: Blk, ptr: map<int, int>, size: map<int, nat>, k: nat)
    requires Sparse(list) && Fits(list, i, b) && Linked(list, ptr, size) && k < |list| && k != i
    ensures LinkedAt(list, i, ptr, size) && (i + 1 < |list| ==> LinkedAt(list, i + 1, ptr, size))
    ensures SameHeader(list[k].addr, ptr, size, FreedPtr(list, i, b, ptr), FreedSize(list, i, b, size))
  {
    NotListed(list, i, b, k);
    assert LinkedAt(list, k, ptr, size) && LinkedAt(list, i, ptr, size) && (i + 1 < |list| ==> LinkedAt(list, i + 1, ptr, size));
    if k < i { Increasing(list, k, i); } else { Increasing(list, i, k); }
  }

  lemma FreedRelinked(list: seq<Blk>, base: int, i: nat, b: Blk, ptr: map<int, int>, size: map<int, nat>)
    requires IsFreeList(list, base) && Fits(list, i, b) && Linked(list, ptr, size)
    requires b.addr in size && size[b.addr] == b.units
    ensures LinkedAt(list, i, ptr, size) && (i + 1 < |list| ==> LinkedAt(list, i + 1, ptr, size))
    ensures Relinked(list, if JoinsBelow(list, i, b) then i else i + 1, Joined(list, i, b), if JoinsAbove(list, i, b) then i + 2 else i + 1,
                     ptr, size, FreedPtr(list, i, b, ptr), FreedSize(list, i, b, size))
  {
    assert LinkedAt(list, i, ptr, size) && (i + 1 < |list| ==> LinkedAt(list, i + 1, ptr, size));
    var ptr', size' := FreedPtr(list, i, b, ptr), FreedSize(list, i, b, size);
    forall k | 0 <= k < |list| && k != i ensures SameHeader(list[k].addr, ptr, size, ptr', size') {
      FreedHeaderSame(list, i, b, ptr, size, k);
    }
    assert i > 0 ==> LinkedAt(list, i - 1, ptr, size);
    hide Sparse; hide Linked;
  }

  lemma FreedLinked(list: seq<Blk>, base: int, i: nat, b: Blk, ptr: map<int, int>, size: map<int, nat>)
    requires IsFreeList(list, base) && Fits(list, i, b) && Linked(list, ptr, size)
    requires b.addr in size && size[b.addr] == b.units
    ensures LinkedAt(list, i, ptr, size) && (i + 1 < |list| ==> LinkedAt(list, i + 1, ptr, size))
    ensures Linked(Freed(list, i, b), FreedPtr(list, i, b, ptr), FreedSize(list, i, b, size))
  {
    FreedRelinked(list, base, i, b, ptr, size);
    hide Relinked; hide IsFreeList; hide Fits; hide Linked; hide FreedPtr; hide FreedSize; hide Joined;
    GlueLinked(list, if JoinsBelow(list, i, b) then i else i + 1, Joined(list, i, b), if JoinsAbove(list, i, b) then i + 2 else i + 1,
               ptr, size, FreedPtr(list, i, b, ptr), FreedSize(list, i, b, size));
  }

  /** The header writes of malloc's success branch. */
  function TakenPtr(list: seq<Blk>, i: nat, n: nat, ptr: map<int, int>): map<int, int>
    requires 1 <= i < |list| && n <= list[i].units && list[i].addr in ptr
  {
    if list[i].units == n then ptr[list[i - 1].addr := ptr[list[i].addr]] else ptr
  }

  function TakenSize(list: seq<Blk>, i: nat, n: nat, size: map<int, nat>): map<int, nat>
    requires 1 <= i < |list| && n <= list[i].units
  {
    if list[i].units == n then size else size[list[i].addr := list[i].units - n][Given(list, i, n).addr := n]
  }

  lemma GivenNotListed(list: seq<Blk>, i: nat, n: nat, k: nat)
    requires Sparse(list) && i < |list| && k < |list| && 1 <= n < list[i].units
    ensures list[k].addr != Given(list, i, n).addr
  {
    if k < i { Increasing(list, k, i); }
    if k > i { assert End(list[i]) < list[k].addr; }
  }

  /** Unlinking block i. */
  lemma WholeRelinked(list: seq<Blk>, i: nat, ptr: map<int, int>, size: map<int, nat>)
    requires Sparse(list) && 1 <= i < |list| && Linked(list, ptr, size)
    ensures LinkedAt(list, i, ptr, size)
    ensures Relinked(list, i - 1, list[i - 1], i + 1, ptr, size, ptr[list[i - 1].addr := ptr[list[i].addr]], size)
  {
    assert LinkedAt(list, i, ptr, size) && LinkedAt(list, i - 1, ptr, size);
    var ptr' := ptr[list[i - 1].addr := ptr[list[i].addr]];
    forall k | 0 <= k < |list| && k != i - 1 ensures SameHeader(list[k].addr, ptr, size, ptr', size) {
      assert LinkedAt(list, k, ptr, size);
      if k < i - 1 { Increasing(list, k, i - 1); } else { Increasing(list, i - 1, k); }
    }
    assert i >= 2 ==> LinkedAt(list, i - 2, ptr, size);
  }

  /** Cutting n units off the end of block i. */
  lemma PartRelinked(list: seq<Blk>, i: nat, n: nat, ptr: map<int, int>, size: map<int, nat>)
    requires Sparse(list) && 1 <= i < |list| && 1 <= n < list[i].units && Linked(list, ptr, size)
    ensures Relinked(list, i, Blk(list[i].addr, list[i].units - n), i + 1, ptr, size, ptr, TakenSize(list, i, n, size))
  {
    var size' := TakenSize(list, i, n, size);
    forall k | 0 <= k < |list| && k != i ensures SameHeader(list[k].addr, ptr, size, ptr, size') {
      assert LinkedAt(list, k, ptr, size);
      if k < i { Increasing(list, k, i); } else { Increasing(list, i, k); }
      GivenNotListed(list, i, n, k);
    }
    assert LinkedAt(list, i, ptr, size) && LinkedAt(list, i - 1, ptr, size);
  }

  lemma TakenLinked(list: seq<Blk>, base: int, i: nat, n: nat, ptr: map<int, int>, size: map<int, nat>)
    requires IsFreeList(list, base) && 1 <= i < |list| && 1 <= n <= list[i].units && Linked(list, ptr, size)
    ensures LinkedAt(list, i, ptr, size)
    ensures Linked(Taken(list, i, n), TakenPtr(list, i, n, ptr), TakenSize(list, i, n, size))
  {
    assert LinkedAt(list, i, ptr, size);
    hide Relinked; hide Linked; hide Sparse;
    if list[i].units == n {
      WholeRelinked(list, i, ptr, size);
      GlueLinked(list, i - 1, list[i - 1], i + 1, ptr, size, TakenPtr(list, i, n, ptr), size);
      assert list[..i] == list[..i - 1] + [list[i - 1]];
    } else {
      PartRelinked(list, i, n, ptr, size);
      var m := Blk(list[i].addr, list[i].units - n);
      GlueLinked(list, i, m, i + 1, ptr, size, ptr, TakenSize(list, i, n, size));
      assert list[i := m] == list[..i] + [m] + list[i + 1..];
    }
  }
}
