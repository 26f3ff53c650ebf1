/** The free list of user/umalloc.c as a value: blocks in address order, the static
    zero-sized `base` first. */
module FreeList {
  const UNIT: nat := 16

  /** A header at addr followed by units - 1 units of space. */
  datatype Blk = Blk(addr: int, units: nat)

  function End(b: Blk): int {
    b.addr + UNIT * b.units
  }

  predicate In(b: Blk, x: int) {
    b.addr <= x < End(b)
  }

  ghost predicate Covers(list: seq<Blk>, x: int) {
    exists i :: 0 <= i < |list| && In(list[i], x)
  }

  /** In address order with a gap after every block: no two free blocks touch. */
  ghost predicate Sparse(list: seq<Blk>) {
    forall i, j :: 0 <= i < j < |list| ==> End(list[i]) < list[j].addr
  }

  predicate Apart(a: Blk, b: Blk) {
    End(a) <= b.addr || End(b) <= a.addr
  }

  ghost predicate IsFreeList(list: seq<Blk>, base: int) {
    && |list| >= 1 && list[0] == Blk(base, 0) && Sparse(list)
    && forall i :: 1 <= i < |list| ==> list[i].units >= 1
  }

  // ------------------------------------------------------------ uniqueness

  lemma TailCovers(list: seq<Blk>, x: int)
    requires |list| > 0 && Sparse(list)
    ensures Covers(list[1..], x) <==> Covers(list, x) && End(list[0]) <= x
  {
    if Covers(list[1..], x) {
      var i :| 0 <= i < |list[1..]| && In(list[1..][i], x);
      assert In(list[i + 1], x);
    }
    if Covers(list, x) && End(list[0]) <= x {
      var i :| 0 <= i < |list| && In(list[i], x);
      assert In(list[1..][i - 1], x);
    }
  }

  /** The least byte a list of non-empty blocks covers is its first block's address. */
  lemma LeastCovered(list: seq<Blk>, other: seq<Blk>)
    requires Sparse(list) && Sparse(other) && (forall i :: 0 <= i < |list| ==> list[i].units >= 1)
    requires forall x :: Covers(list, x) ==> Covers(other, x)
    ensures |list| > 0 ==> |other| > 0 && other[0].addr <= list[0].addr
  {
    if |list| > 0 {
      assert In(list[0], list[0].addr);
      assert Covers(other, list[0].addr);
    }
  }

  /** Right after a block there is a byte that is not covered. */
  lemma GapAfter(list: seq<Blk>, i: nat)
    requires Sparse(list) && i < |list|
    ensures !Covers(list, End(list[i]))
  {
    forall j | 0 <= j < |list| ensures !In(list[j], End(list[i])) {
      assert j < i ==> End(list[j]) < list[i].addr;
    }
  }

  lemma FirstNotShorter(a: seq<Blk>, b: seq<Blk>)
    requires Sparse(a) && |a| > 0 && |b| > 0 && a[0].addr == b[0].addr
    requires forall x :: Covers(b, x) ==> Covers(a, x)
    ensures End(b[0]) <= End(a[0])
  {
    GapAfter(a, 0);
    var e := End(a[0]);
    assert In(b[0], e) ==> Covers(b, e);
  }

  /** A free list is determined by the bytes it covers. */
  lemma {:induction false} SparseUnique(a: seq<Blk>, b: seq<Blk>)
    requires Sparse(a) && Sparse(b)
    requires forall i :: 0 <= i < |a| ==> a[i].units >= 1
    requires forall i :: 0 <= i < |b| ==> b[i].units >= 1
    requires forall x :: Covers(a, x) <==> Covers(b, x)
    ensures a == b
  {
    LeastCovered(a, b);
    LeastCovered(b, a);
    if |a| > 0 {
      FirstNotShorter(a, b);
      FirstNotShorter(b, a);
      forall x ensures Covers(a[1..], x) <==> Covers(b[1..], x) {
        TailCovers(a, x);
        TailCovers(b, x);
      }
      SparseUnique(a[1..], b[1..]);
      assert a == [a[0]] + a[1..] && b == [b[0]] + b[1..];
    }
  }

  lemma CoversConcat(a: seq<Blk>, b: seq<Blk>, x: int)
    ensures Covers(a + b, x) <==> Covers(a, x) || Covers(b, x)
  {
    if Covers(a, x) {
      var i :| 0 <= i < |a| && In(a[i], x);
      assert In((a + b)[i], x);
    }
    if Covers(b, x) {
      var i :| 0 <= i < |b| && In(b[i], x);
      assert In((a + b)[|a| + i], x);
    }
  }

  lemma CoversThree(a: seq<Blk>, b: seq<Blk>, c: seq<Blk>, x: int)
    ensures Covers(a + b + c, x) <==> Covers(a, x) || Covers(b, x) || Covers(c, x)
  {
    CoversConcat(a + b, c, x);
    CoversConcat(a, b, x);
  }

  lemma CoversOne(b: Blk, x: int)
    ensures Covers([b], x) <==> In(b, x)
  {
    assert In(b, x) ==> In([b][0], x);
  }

  lemma CoversTwo(a: Blk, b: Blk, x: int)
    ensures Covers([a, b], x) <==> In(a, x) || In(b, x)
  {
    assert [a, b] == [a] + [b];
    CoversConcat([a], [b], x);
    CoversOne(a, x);
    CoversOne(b, x);
  }

  /** Replacing the blocks lo to hi by one that stays clear of the rest. */
  lemma SparseGlue(list: seq<Blk>, lo: nat, m: Blk, hi: nat)
    requires Sparse(list) && lo <= hi <= |list|
    requires lo > 0 ==> End(list[lo - 1]) < m.addr
    requires hi < |list| ==> End(m) < list[hi].addr
    ensures Sparse(list[..lo] + [m] + list[hi..])
  {
    var s := list[..lo] + [m] + list[hi..];
    forall j, k | 0 <= j < k < |s| ensures End(s[j]) < s[k].addr {
      assert j < lo - 1 ==> End(list[j]) < list[lo - 1].addr;
      if k > lo {
        var k' := hi + (k - lo - 1);
        assert s[k] == list[k'] && (k' > hi ==> End(list[hi]) < list[k'].addr);
      }
    }
  }

  lemma GlueIsFreeList(list: seq<Blk>, base: int, lo: nat, m: Blk, hi: nat)
    requires IsFreeList(list, base) && 1 <= lo <= hi <= |list| && m.units >= 1
    requires End(list[lo - 1]) < m.addr
    requires hi < |list| ==> End(m) < list[hi].addr
    ensures IsFreeList(list[..lo] + [m] + list[hi..], base)
  {
    SparseGlue(list, lo, m, hi);
  }

  // ------------------------------------------------------------ freeing

  /** b goes after list[i] and before list[i + 1]. */
  ghost predicate Fits(list: seq<Blk>, i: nat, b: Blk) {
    && i < |list| && list[i].addr < b.addr && (i + 1 < |list| ==> b.addr < list[i + 1].addr)
    && b.units >= 1 && forall j :: 1 <= j < |list| ==> Apart(list[j], b)
  }

  predicate JoinsBelow(list: seq<Blk>, i: nat, b: Blk)
    requires i < |list|
  {
    End(list[i]) == b.addr
  }

  predicate JoinsAbove(list: seq<Blk>, i: nat, b: Blk) {
    i + 1 < |list| && End(b) == list[i + 1].addr
  }

  /** The block that b becomes part of. */
  function Joined(list: seq<Blk>, i: nat, b: Blk): Blk
    requires i < |list|
  {
    var up := if JoinsAbove(list, i, b) then list[i + 1].units else 0;
    if JoinsBelow(list, i, b) then Blk(list[i].addr, list[i].units + b.units + up) else Blk(b.addr, b.units + up)
  }

  /** The list after b is freed. */
  function Freed(list: seq<Blk>, i: nat, b: Blk): seq<Blk>
    requires i < |list|
  {
    list[..if JoinsBelow(list, i, b) then i else i + 1] + [Joined(list, i, b)]
      + list[if JoinsAbove(list, i, b) then i + 2 else i + 1..]
  }

  lemma FreedIsFreeList(list: seq<Blk>, base: int, i: nat, b: Blk)
    requires IsFreeList(list, base) && Fits(list, i, b)
    ensures IsFreeList(Freed(list, i, b), base)
  {
    assert i > 0 ==> Apart(list[i], b);
    assert i + 1 < |list| ==> Apart(list[i + 1], b);
    var lo := if JoinsBelow(list, i, b) then i else i + 1;
    var hi := if JoinsAbove(list, i, b) then i + 2 else i + 1;
    GlueIsFreeList(list, base, lo, Joined(list, i, b), hi);
  }

  /** The blocks that b joins, with b. */
  lemma JoinedIn(list: seq<Blk>, i: nat, b: Blk, x: int)
    requires i < |list|
    ensures In(Joined(list, i, b), x) <==> In(b, x) || (JoinsBelow(list, i, b) && In(list[i], x)) || (JoinsAbove(list, i, b) && In(list[i + 1], x))
  {
  }

  lemma FreedCovers(list: seq<Blk>, base: int, i: nat, b: Blk, x: int)
    requires IsFreeList(list, base) && Fits(list, i, b)
    ensures Covers(Freed(list, i, b), x) <==> Covers(list, x) || In(b, x)
  {
    var lo := if JoinsBelow(list, i, b) then i else i + 1;
    var hi := if JoinsAbove(list, i, b) then i + 2 else i + 1;
    var m := Joined(list, i, b);
    JoinedIn(list, i, b, x);
    assert Freed(list, i, b) == list[..lo] + [m] + list[hi..] && hi <= |list|;
    assert (lo == i <==> JoinsBelow(list, i, b)) && (hi == i + 2 <==> JoinsAbove(list, i, b));
    hide *;
    CoversThree(list[..lo], [m], list[hi..], x);
    CoversOne(m, x);
    assert list == list[..lo] + list[lo..hi] + list[hi..];
    CoversThree(list[..lo], list[lo..hi], list[hi..], x);
    MiddleCovers(list, i, lo, hi, x);
  }

  lemma MiddleCovers(list: seq<Blk>, i: nat, lo: nat, hi: nat, x: int)
    requires i < |list| && i <= lo <= i + 1 <= hi <= i + 2 && hi <= |list|
    ensures Covers(list[lo..hi], x) <==> (lo == i && In(list[i], x)) || (hi == i + 2 && In(list[i + 1], x))
  {
    if lo == i && hi == i + 2 {
      assert list[lo..hi] == [list[i], list[i + 1]];
      CoversTwo(list[i], list[i + 1], x);
    } else if lo < hi {
      assert list[lo..hi] == [list[lo]];
      CoversOne(list[lo], x);
    }
  }

  // ------------------------------------------------------------ allocating

  /** The list after n units are taken from block i: the whole block, or its tail. */
  function Taken(list: seq<Blk>, i: nat, n: nat): seq<Blk>
    requires i < |list| && n <= list[i].units
  {
    if list[i].units == n then list[..i] + list[i + 1..] else list[i := Blk(list[i].addr, list[i].units - n)]
  }

  function Given(list: seq<Blk>, i: nat, n: nat): Blk
    requires i < |list| && n <= list[i].units
  {
    Blk(list[i].addr + UNIT * (list[i].units - n), n)
  }

  lemma TakenIsFreeList(list: seq<Blk>, base: int, i: nat, n: nat)
    requires IsFreeList(list, base) && 1 <= i < |list| && 1 <= n <= list[i].units
    ensures IsFreeList(Taken(list, i, n), base)
    ensures forall k :: 1 <= k < |Taken(list, i, n)| ==> Apart(Taken(list, i, n)[k], Given(list, i, n))
  {
    var s := Taken(list, i, n);
    if list[i].units == n {
      assert forall k :: 0 <= k < |s| ==> s[k] == list[if k < i then k else k + 1];
    }
  }

  lemma TakenCovers(list: seq<Blk>, base: int, i: nat, n: nat, x: int)
    requires IsFreeList(list, base) && 1 <= i < |list| && 1 <= n <= list[i].units
    ensures Covers(Taken(list, i, n), x) <==> Covers(list, x) && !In(Given(list, i, n), x)
    ensures In(Given(list, i, n), x) ==> Covers(list, x)
  {
    var rest := if list[i].units == n then [] else [Blk(list[i].addr, list[i].units - n)];
    assert Taken(list, i, n) == list[..i] + rest + list[i + 1..];
    assert list == list[..i] + [list[i]] + list[i + 1..];
    CoversThree(list[..i], rest, list[i + 1..], x);
    CoversThree(list[..i], [list[i]], list[i + 1..], x);
    CoversOne(list[i], x);
    CoversOne(Blk(list[i].addr, list[i].units - n), x);
    if In(list[i], x) { OthersMiss(list, i, x); }
  }

  /** A byte of block i is in no other block. */
  lemma OthersMiss(list: seq<Blk>, i: nat, x: int)
    requires Sparse(list) && i < |list| && In(list[i], x)
    ensures !Covers(list[..i], x) && !Covers(list[i + 1..], x)
  {
    forall j | 0 <= j < i ensures !In(list[..i][j], x) {
      assert End(list[j]) < list[i].addr;
    }
    var rest := list[i + 1..];
    forall j | 0 <= j < |rest| ensures !In(rest[j], x) {
      assert End(list[i]) < list[i + 1 + j].addr;
    }
  }
}
