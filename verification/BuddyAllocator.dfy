/** The doubly linked free lists of kernel/kalloc.c: one list per order, threaded
    through the free pages themselves.  A null pointer is -1. */
module RunLists {
  import opened BuddyTree

  const NPAGES: nat := 32768

  ghost function At(s: seq<int>, i: int): int {
    if 0 <= i < |s| then s[i] else -1
  }

  ghost predicate Linked(s: seq<int>, i: int, next: seq<int>, prev: seq<int>) {
    && 0 <= i < |s| && 0 <= s[i] < |next| == |prev|
    && next[s[i]] == At(s, i + 1) && prev[s[i]] == At(s, i - 1)
  }

  /** Starting at f and following the links visits exactly s, forwards and backwards. */
  ghost predicate Chain(s: seq<int>, f: int, next: seq<int>, prev: seq<int>) {
    && f == At(s, 0)
    && (forall i, j :: 0 <= i < j < |s| ==> s[i] != s[j])
    && (forall i :: 0 <= i < |s| ==> Linked(s, i, next, prev))
  }

  ghost function Without(s: seq<int>, i: nat): (t: seq<int>)
    requires i < |s|
    ensures |t| == |s| - 1 && forall j :: 0 <= j < |t| ==> t[j] == s[if j < i then j else j + 1]
  {
    s[..i] + s[i + 1..]
  }

  lemma ChainFrame(s: seq<int>, f: int, next: seq<int>, prev: seq<int>, next': seq<int>, prev': seq<int>)
    requires Chain(s, f, next, prev) && |next'| == |prev'| == |next| == |prev|
    requires forall x :: x in s && 0 <= x < |next| ==> next'[x] == next[x] && prev'[x] == prev[x]
    ensures Chain(s, f, next', prev')
  {
    forall i | 0 <= i < |s| ensures Linked(s, i, next', prev') {
      assert Linked(s, i, next, prev) && s[i] in s;
    }
  }

  lemma ChainInsert(s: seq<int>, f: int, next: seq<int>, prev: seq<int>, r: int)
    requires Chain(s, f, next, prev) && 0 <= r < |next| == |prev| && r !in s
    ensures f != -1 ==> 0 <= f < |next|
    ensures var prev1 := prev[r := -1];
      Chain([r] + s, r, next[r := f], if f != -1 then prev1[f := r] else prev1)
  {
    var t := [r] + s;
    if s != [] { assert Linked(s, 0, next, prev); }
    var next', prev1 := next[r := f], prev[r := -1];
    var prev' := if f != -1 then prev1[f := r] else prev1;
    forall i | 0 <= i < |t| ensures Linked(t, i, next', prev') {
      if i > 0 {
        assert Linked(s, i - 1, next, prev) && s[i - 1] in s;
      }
    }
  }

  /** Unlinking the i-th element. */
  lemma ChainRemove(s: seq<int>, f: int, next: seq<int>, prev: seq<int>, i: nat)
    requires Chain(s, f, next, prev) && i < |s| && |next| == |prev|
    ensures Linked(s, i, next, prev)
    ensures
      var r, a, b := s[i], At(s, i - 1), At(s, i + 1);
      && (a != -1 ==> 0 <= a < |next|) && (b != -1 ==> 0 <= b < |next|)
      && var next1 := if a != -1 then next[a := b] else next;
         var prev1 := if b != -1 then prev[b := a] else prev;
         Chain(Without(s, i), if a != -1 then f else b, next1[r := -1], prev1[r := -1])
  {
    var t := Without(s, i);
    var r, a, b := s[i], At(s, i - 1), At(s, i + 1);
    assert Linked(s, i, next, prev);
    if i > 0 { assert Linked(s, i - 1, next, prev); }
    if i + 1 < |s| { assert Linked(s, i + 1, next, prev); }
    var next1 := if a != -1 then next[a := b] else next;
    var prev1 := if b != -1 then prev[b := a] else prev;
    var next', prev' := next1[r := -1], prev1[r := -1];
    forall j | 0 <= j < |t| ensures Linked(t, j, next', prev') {
      var x := if j < i then j else j + 1;
      assert Linked(s, x, next, prev);
      assert s[x] != r;
      assert x != i - 1 && i > 0 ==> s[x] != s[i - 1];
      assert x != i + 1 && i + 1 < |s| ==> s[x] != s[i + 1];
    }
  }

  class Lists {
    const first: array<int>    // buddy.freelist
    const next: array<int>     // run->next, by page
    const prev: array<int>     // run->prev, by page
    ghost var lists: seq<seq<int>>

    ghost predicate Valid()
      reads this, first, next, prev
    {
      && first != next && first != prev && next != prev
      && first.Length == |lists| == MAX_ORDER + 1 && next.Length == prev.Length == NPAGES
      && (forall k :: 0 <= k < |lists| ==> Chain(lists[k], first[k], next[..], prev[..]))
      && (forall k, m, x :: 0 <= k < m < |lists| && x in lists[k] ==> x !in lists[m])
    }

    ghost predicate Listed(r: int)
      reads this
    {
      exists k :: 0 <= k < |lists| && r in lists[k]
    }

    constructor ()
      ensures Valid() && fresh(first) && fresh(next) && fresh(prev)
      ensures forall k :: 0 <= k <= MAX_ORDER ==> lists[k] == []
    {
      first := new int[MAX_ORDER + 1](_ => -1);
      next := new int[NPAGES](_ => -1);
      prev := new int[NPAGES](_ => -1);
      lists := seq(MAX_ORDER + 1, _ => []);
    }

    /** list_insert: at the front. */
    method Insert(order: nat, r: nat)
      requires Valid() && order <= MAX_ORDER && r < NPAGES && !Listed(r)
      modifies `lists, first, next, prev
      ensures Valid() && lists == old(lists)[order := [r] + old(lists)[order]]
    {
      ghost var s, f, nx, pv, fs := lists[order], first[order], next[..], prev[..], first[..];
      ChainInsert(s, f, nx, pv, r);
      prev[r] := -1;
      next[r] := first[order];
      if next[r] != -1 {
        prev[next[r]] := r;
      }
      first[order] := r;
      lists := lists[order := [r] + lists[order]];
      assert next[..] == nx[r := f];
      assert prev[..] == if f != -1 then pv[r := -1][f := r] else pv[r := -1];
      hide Chain;
      forall k | 0 <= k < |lists| ensures Chain(lists[k], first[k], next[..], prev[..]) {
        if k != order {
          OtherChain(old(lists), k, order, r, fs[k], nx, pv, next[..], prev[..]);
        }
      }
    }

    /** list_remove: unlink r, wherever in its list it is. */
    method Remove(order: nat, r: nat) returns (ghost i: nat)
      requires Valid() && order <= MAX_ORDER && r in lists[order]
      modifies `lists, first, next, prev
      ensures Valid() && i < |old(lists)[order]| && old(lists)[order][i] == r
      ensures lists == old(lists)[order := Without(old(lists)[order], i)]
    {
      i :| 0 <= i < |lists[order]| && lists[order][i] == r;
      ghost var s, f, nx, pv, fs := lists[order], first[order], next[..], prev[..], first[..];
      ChainRemove(s, f, nx, pv, i);
      ghost var a, b := At(s, i - 1), At(s, i + 1);
      assert i > 0 ==> s[0] != r;
      if prev[r] != -1 {
        next[prev[r]] := next[r];
      } else if first[order] == r {
        first[order] := next[r];
      }
      assert a != r && b != r && next[r] == b && prev[r] == a by {
        assert Linked(s, i, nx, pv);
        assert (i > 0 ==> s[i - 1] != s[i]) && (i + 1 < |s| ==> s[i] != s[i + 1]);
      }
      if next[r] != -1 {
        prev[next[r]] := prev[r];
      }
      next[r] := -1;
      prev[r] := -1;
      lists := lists[order := Without(lists[order], i)];
      assert next[..] == (if a != -1 then nx[a := b] else nx)[r := -1];
      assert prev[..] == (if b != -1 then pv[b := a] else pv)[r := -1];
      assert forall x :: x in lists[order] ==> x in s;
      hide Chain;
      forall k | 0 <= k < |lists| ensures Chain(lists[k], first[k], next[..], prev[..]) {
        if k != order {
          assert r !in old(lists)[k];
          OtherChain(old(lists), k, order, r, fs[k], nx, pv, next[..], prev[..]);
        }
      }
    }
  }

  lemma OtherChain(lists: seq<seq<int>>, k: nat, order: nat, r: int, f: int, next: seq<int>, prev: seq<int>, next': seq<int>, prev': seq<int>)
    requires k < |lists| && order < |lists| && k != order
    requires forall k, m, x :: 0 <= k < m < |lists| && x in lists[k] ==> x !in lists[m]
    requires r !in lists[k]
    requires Chain(lists[k], f, next, prev) && |next'| == |prev'| == |next| == |prev|
    requires forall x :: 0 <= x < |next| && x != r && x !in lists[order] ==> next'[x] == next[x] && prev'[x] == prev[x]
    ensures Chain(lists[k], f, next', prev')
  {
    assert forall x :: x in lists[k] ==> x !in lists[order];
    ChainFrame(lists[k], f, next, prev, next', prev');
  }
}

/** kernel/kalloc.c: the allocator proper, in units of pages from KERNBASE (a
    multiple of every block size, so alignment of addresses is alignment of pages). */
module BuddyAllocator {
  import opened Params
  import opened BuddyTree
  import opened RunLists

  datatype Allocation = Panic | OutOfMemory | Page(p: nat)

  ghost predicate Described(state: seq<int>, lists: seq<seq<int>>, n: Node) {
    && InRange(n) && |lists| == MAX_ORDER + 1
    && var h := Head(n.q, n.k);
       h < |state| && state[h] == n.k && h in lists[n.k]
  }

  ghost predicate Explained(state: seq<int>, free: set<Node>, p: int) {
    && 0 <= p < |state| && 0 <= state[p] <= MAX_ORDER
    && Head(Up(p, state[p]), state[p]) == p && Node(Up(p, state[p]), state[p]) in free
  }

  /** page_state and the free lists describe the same blocks, those of `free`. */
  ghost predicate Agree(state: seq<int>, lists: seq<seq<int>>, free: set<Node>) {
    && |state| == NPAGES && |lists| == MAX_ORDER + 1
    && (forall n :: n in free ==> Described(state, lists, n))
    && (forall p :: 0 <= p < NPAGES && state[p] != -1 ==> Explained(state, free, p))
    && (forall k :: 0 <= k <= MAX_ORDER ==> AllOfOrder(state, lists[k], k))
  }

  ghost predicate AllOfOrder(state: seq<int>, list: seq<int>, k: int) {
    forall i :: 0 <= i < |list| ==> 0 <= list[i] < |state| && state[list[i]] == k
  }

  lemma AgreeRemove(state: seq<int>, lists: seq<seq<int>>, free: set<Node>, n: Node, i: nat)
    requires Agree(state, lists, free) && n in free
    requires n.k <= MAX_ORDER && i < |lists[n.k]| && lists[n.k][i] == Head(n.q, n.k)
    requires forall i, j :: 0 <= i < j < |lists[n.k]| ==> lists[n.k][i] != lists[n.k][j]
    ensures Head(n.q, n.k) < |state|
    ensures Agree(state[Head(n.q, n.k) := -1], lists[n.k := Without(lists[n.k], i)], free - {n})
  {
    assert Described(state, lists, n);
    var h := Head(n.q, n.k);
    var state', lists' := state[h := -1], lists[n.k := Without(lists[n.k], i)];
    forall m | m in free - {n} ensures Described(state', lists', m) {
      assert Described(state, lists, m);
      UpHead(m.q, m.k);
      UpHead(n.q, n.k);
      var j :| 0 <= j < |lists[m.k]| && lists[m.k][j] == Head(m.q, m.k);
      if m.k == n.k {
        assert lists'[m.k][if j < i then j else j - 1] == Head(m.q, m.k);
      }
    }
    forall p | 0 <= p < NPAGES && state'[p] != -1 ensures Explained(state', free - {n}, p) {
      assert Explained(state, free, p);
    }
    forall k | 0 <= k <= MAX_ORDER ensures AllOfOrder(state', lists'[k], k) {
      assert AllOfOrder(state, lists[k], k);
    }
  }

  lemma AgreeInsert(state: seq<int>, lists: seq<seq<int>>, free: set<Node>, n: Node)
    requires Agree(state, lists, free) && InRange(n) && Apart(free, n) && Head(n.q, n.k) < NPAGES
    ensures forall k :: 0 <= k <= MAX_ORDER ==> Head(n.q, n.k) !in lists[k]
    ensures state[Head(n.q, n.k)] == -1
    ensures Agree(state[Head(n.q, n.k) := n.k], lists[n.k := [Head(n.q, n.k)] + lists[n.k]], free + {n})
  {
    var h := Head(n.q, n.k);
    UpHead(n.q, n.k);
    assert Holds(n, h);
    assert state[h] != -1 ==> Explained(state, free, h);
    var state', lists', free' := state[h := n.k], lists[n.k := [h] + lists[n.k]], free + {n};
    forall m | m in free' ensures Described(state', lists', m) {
      if m in free { assert Described(state, lists, m); }
    }
    forall p | 0 <= p < NPAGES && state'[p] != -1 ensures Explained(state', free', p) {
      if p != h { assert Explained(state, free, p); }
    }
    forall k | 0 <= k <= MAX_ORDER ensures h !in lists[k] && AllOfOrder(state', lists'[k], k) {
      assert AllOfOrder(state, lists[k], k);
    }
  }

  /** The lower of two buddies has the head of their parent. */
  lemma HalvesHead(q: nat, k: nat)
    ensures Head(q / 2, k + 1) == if q % 2 == 0 then Head(q, k) else Head(Flip(q), k)
    ensures q % 2 == 0 <==> Head(q, k) < Head(Flip(q), k)
  {
    if q % 2 == 0 {
      HeadNext(q, k);
    } else {
      HeadNext(q - 1, k);
    }
  }

  /** A block is in range exactly when its first page is, and then its last page is too. */
  lemma InRangeIff(n: Node)
    requires n.k <= MAX_ORDER
    ensures InRange(n) <==> Head(n.q, n.k) < NPAGES
    ensures InRange(n) ==> Head(n.q, n.k) + Pow2(n.k) <= NPAGES
  {
    var h := Head(n.q, n.k);
    assert Pow2(15) == NPAGES by {
      assert Pow2(3) == 8;
      assert Pow2(6) == 8 * Pow2(3);
      assert Pow2(9) == 8 * Pow2(6);
      assert Pow2(12) == 8 * Pow2(9);
      assert Pow2(15) == 8 * Pow2(12);
    }
    UpHead(n.q, n.k);
    UpUp(h, n.k, MAX_ORDER - n.k);
    RunIsInterval(0, MAX_ORDER, h);
    HeadIsProduct(0, MAX_ORDER);
    var last := h + Pow2(n.k) - 1;
    RunIsInterval(n.q, n.k, last);
    UpUp(last, n.k, MAX_ORDER - n.k);
    RunIsInterval(0, MAX_ORDER, last);
  }

  /** A free block of order k begins at page p. */
  ghost predicate BeginsAt(free: set<Node>, p: nat, k: nat) {
    Head(Up(p, k), k) == p && Node(Up(p, k), k) in free
  }

  class Buddy {
    const lists: Lists
    const state: array<int>     // page_state, PAGE_STATE_ALLOC is -1
    ghost var free: set<Node>   // the free blocks that state and lists both describe

    ghost function Footprint(): set<object> {
      {this, lists, lists.first, lists.next, lists.prev, state}
    }

    ghost predicate Agrees()
      reads this, lists, lists.first, lists.next, lists.prev, state
    {
      && lists.Valid() && state.Length == NPAGES
      && state != lists.first && state != lists.next && state != lists.prev
      && Agree(state[..], lists.lists, free)
    }

    ghost predicate Valid()
      reads this, lists, lists.first, lists.next, lists.prev, state
    {
      Agrees() && Canonical(free)
    }

    constructor Empty()
      ensures Valid() && free == {} && fresh(Footprint())
    {
      lists := new Lists();
      state := new int[NPAGES](_ => -1);
      free := {};
      new;
      assert forall k, x :: 0 <= k <= MAX_ORDER ==> x !in lists.lists[k];
    }

    /** page_state marks the first page of a block exactly when the block is free. */
    lemma StateSaysFree(n: Node)
      requires Agrees() && InRange(n)
      ensures Head(n.q, n.k) < NPAGES
      ensures state[Head(n.q, n.k)] == n.k <==> n in free
    {
      InRangeIff(n);
      UpHead(n.q, n.k);
      assert n in free ==> Described(state[..], lists.lists, n);
      var h := Head(n.q, n.k);
      assert state[..][h] != -1 ==> Explained(state[..], free, h);
    }

    lemma StateOfApart(n: Node)
      requires Agrees() && InRange(n) && Apart(free, n)
      ensures Head(n.q, n.k) < NPAGES && state[Head(n.q, n.k)] == -1
    {
      InRangeIff(n);
      AgreeInsert(state[..], lists.lists, free, n);
    }

    /** Take a free block off its list and mark its first page allocated. */
    method Detach(ghost n: Node, order: nat, h: nat)
      requires Agrees() && n in free && order == n.k && h == Head(n.q, n.k)
      modifies Footprint()
      ensures Agrees() && free == old(free) - {n}
    {
      ghost var was, pages := lists.lists, state[..];
      assert Described(pages, was, n);
      assert Chain(was[order], lists.first[order], lists.next[..], lists.prev[..]);
      ghost var i := lists.Remove(order, h);
      state[h] := -1;
      assert state[..] == pages[h := -1];
      free := free - {n};
      AgreeRemove(pages, was, old(free), n, i);
    }

    /** Put a block on the list of its order and record the order in page_state. */
    method Attach(ghost n: Node, order: nat, h: nat)
      requires Agrees() && InRange(n) && Apart(free, n) && order == n.k && h == Head(n.q, n.k) < NPAGES
      modifies Footprint()
      ensures Agrees() && free == old(free) + {n}
    {
      ghost var pages := state[..];
      AgreeInsert(pages, lists.lists, free, n);
      lists.Insert(order, h);
      state[h] := order;
      assert state[..] == pages[h := order];
      free := free + {n};
    }

    /** One turn of the merging loop of buddy_free_locked: if the buddy is free it
        leaves the free set, and the block in hand grows to the parent. */
    method TryMerge(ghost n: Node, k: nat, pa: nat) returns (merged: bool, grown: nat)
      requires Valid() && InRange(n) && Apart(free, n) && n.k == k < MAX_ORDER && pa == Head(n.q, k)
      modifies Footprint()
      ensures Valid() && (merged <==> Node(Flip(n.q), k) in old(free))
      ensures !merged ==> free == old(free) && grown == pa
      ensures merged ==> free == old(free) - {Node(Flip(n.q), k)} && grown == Head(n.q / 2, k + 1)
      ensures merged ==> InRange(Node(n.q / 2, k + 1)) && Apart(free, Node(n.q / 2, k + 1))
    {
      hide Canonical; hide Apart; hide Agree; hide Lists.Valid; hide InRange; hide Head; hide Pow2; hide Free;
      var buddy := Xor(pa, Pow2(k));
      ghost var b := Node(Flip(n.q), k);
      BuddyPage(n);
      if buddy + Pow2(k) > NPAGES || state[buddy] != k { return false, pa; }
      MergeStep(free, n);
      Detach(b, k, buddy);
      HalvesHead(n.q, k);
      merged, grown := true, if buddy < pa then buddy else pa;
    }

    /** The exclusive-or computes the buddy's page, and page_state tells whether it is free. */
    lemma BuddyPage(n: Node)
      requires Agrees() && InRange(n) && n.k < MAX_ORDER
      ensures Xor(Head(n.q, n.k), Pow2(n.k)) == Head(Flip(n.q), n.k)
      ensures InRange(Node(Flip(n.q), n.k)) && Head(Flip(n.q), n.k) + Pow2(n.k) <= NPAGES
      ensures Node(Flip(n.q), n.k) in free <==> state[Head(Flip(n.q), n.k)] == n.k
    {
      XorIsBuddy(n.q, n.k, 0);
      var b := Node(Flip(n.q), n.k);
      ParentInRange(n);
      assert InRange(b) by { HalvesInRange(Node(n.q / 2, n.k + 1)); }
      InRangeIff(b);
      StateSaysFree(b);
    }

    /** The tests of buddy_free_locked let the block of this order at page p through. */
    ghost predicate PassesTests(p: nat, order: nat)
      reads this, state
      requires state.Length == NPAGES
    {
      order <= MAX_ORDER && p % Pow2(order) == 0 && p < NPAGES && state[p] == -1
    }

    /** buddy_free_locked.  It panics on a bad order, a misaligned or an unmanaged page,
        and on a page at which a free block begins.  Otherwise the block is merged with
        its free buddies as far up as possible; a caller that passes the tests must
        really own it. */
    method FreeLocked(p: nat, order: nat) returns (ok: bool)
      requires Valid() && (PassesTests(p, order) ==> Apart(free, Node(Up(p, order), order)))
      modifies Footprint()
      ensures ok <==> old(PassesTests(p, order))
      ensures order <= MAX_ORDER && p % Pow2(order) == 0 && p < NPAGES && old(Apart(free, Node(Up(p, order), order))) ==> ok
      ensures Valid() && free == if ok then Free(old(free), Node(Up(p, order), order)) else old(free)
    {
      if order > MAX_ORDER { return false; }
      if p % Pow2(order) != 0 { return false; }
      if p >= NPAGES { return false; }
      hide Canonical; hide Apart; hide Agree; hide Lists.Valid; hide InRange; hide Head; hide Pow2; hide Up;
      ghost var n := Node(Up(p, order), order);
      AlignedIffHead(p, order);
      InRangeIff(n);
      if Apart(free, n) { StateOfApart(n); }
      if state[p] != -1 { return false; }
      MergeAndInsert(n, order, p);
      ok := true;
    }

    /** The loop of buddy_free_locked and the insertion after it. */
    method MergeAndInsert(ghost block: Node, order: nat, p: nat)
      requires Valid() && InRange(block) && Apart(free, block) && order == block.k && p == Head(block.q, order)
      modifies Footprint()
      ensures Valid() && free == Free(old(free), block)
    {
      assert order <= MAX_ORDER;
      hide Canonical; hide Apart; hide Agrees; hide InRange; hide Head; hide Free; hide Up; hide Covers;
      ghost var n, goal := block, Free(free, block);
      var k, pa, merging := order, p, true;
      while k < MAX_ORDER && merging
        invariant k <= MAX_ORDER && n.k == k && pa == Head(n.q, k)
        invariant Valid() && InRange(n) && Apart(free, n) && Free(free, n) == goal
        invariant !merging ==> Node(Flip(n.q), k) !in free
        decreases MAX_ORDER - k, merging
      {
        FreeStep(free, n);
        merging, pa := TryMerge(n, k, pa);
        if merging {
          n := Node(n.q / 2, k + 1);
          k := k + 1;
        }
      }
      InRangeIff(n);
      FreeStep(free, n);
      InsertKeeps(free, n);
      Attach(n, k, pa);
    }

    /** The splitting loop of buddy_alloc_locked, from the block in hand down to `order`. */
    method SplitDown(ghost n: Node, current: nat, order: nat, r: nat) returns (ghost m: Node)
      requires Valid() && InRange(n) && Apart(free, n) && n.k == current >= order && r == Head(n.q, current)
      modifies Footprint()
      ensures Valid() && (free, m) == Split(old(free), n, order)
      ensures m.k == order && r == Head(m.q, order) && InRange(m) && Apart(free, m)
    {
      hide Canonical; hide Apart; hide Agrees; hide InRange; hide Pow2; hide Split; hide Head; hide Up; hide Covers; hide SamePages;
      ghost var goal := Split(free, n, order);
      m := n;
      var k := current;
      while k > order
        invariant k >= order && m.k == k && r == Head(m.q, k)
        invariant Valid() && InRange(m) && Apart(free, m) && Split(free, m, order) == goal
      {
        k := k - 1;
        ghost var hi := Node(2 * m.q + 1, k);
        SplitStep(free, m);
        UpperHalf(free, m);
        SplitTurn(free, m, order);
        Attach(hi, k, r + Pow2(k));
        m := Node(2 * m.q, k);
      }
      SplitTurn(free, m, order);
    }

    /** buddy_alloc_locked: the first nonempty list from `order` up gives its first
        block, split down to size.  It fails exactly when no aligned run of 2^order
        pages is free, and otherwise takes exactly the pages of one such run, out of a
        smallest block that can give it. */
    method AllocLocked(order: nat) returns (r: Allocation)
      requires Valid()
      modifies Footprint()
      ensures Valid() && (r == Panic <==> order > MAX_ORDER)
      ensures !r.Page? ==> free == old(free)
      ensures r == OutOfMemory ==> forall q: nat :: !CoversRun(old(free), Node(q, order))
      ensures r.Page? ==>
        var m := Node(Up(r.p, order), order);
        && r.p % Pow2(order) == 0 && InRange(m) && CoversRun(old(free), m) && Apart(free, m)
        && (forall x: nat :: Covers(old(free), x) <==> Covers(free, x) || Holds(m, x))
        && Free(free, m) == old(free) && BestFit(old(free), order, r.p)
    {
      if order > MAX_ORDER { return Panic; }
      hide Agrees; hide Canonical; hide Apart; hide InRange; hide Head; hide Pow2; hide Up; hide Covers; hide Holds; hide CoversRun;
      var current := FindList(order);
      if current > MAX_ORDER {
        NoLargeBlock(free, order);
        return OutOfMemory;
      }
      var h := TakeFrom(current, order);
      r := Page(h);
    }

    /** The lowest nonempty list of at least the requested order. */
    method FindList(order: nat) returns (current: nat)
      requires Valid() && order <= MAX_ORDER
      ensures order <= current <= MAX_ORDER + 1
      ensures current <= MAX_ORDER ==> lists.first.Length == MAX_ORDER + 1 && lists.first[current] != -1
      ensures forall n :: n in free ==> n.k <= MAX_ORDER && !(order <= n.k < current)
    {
      current := order;
      assert forall n :: n in free ==> InRange(n);
      hide Canonical; hide InRange; hide Agree;
      while current <= MAX_ORDER && lists.first[current] == -1
        invariant order <= current <= MAX_ORDER + 1
        invariant forall n :: n in free ==> !(order <= n.k < current)
      {
        EmptyList(current);
        current := current + 1;
      }
    }

    method TakeFrom(current: nat, order: nat) returns (h: nat)
      requires Valid() && order <= current <= MAX_ORDER && lists.first[current] != -1
      modifies Footprint()
      ensures Valid()
      ensures
        var m := Node(Up(h, order), order);
        && h % Pow2(order) == 0 && InRange(m) && CoversRun(old(free), m) && Apart(free, m)
        && (forall x: nat :: Covers(old(free), x) <==> Covers(free, x) || Holds(m, x))
        && Free(free, m) == old(free) && exists n :: n in old(free) && n.k == current && Holds(n, h)
    {
      ghost var n := FirstBlock(current);
      h := lists.first[current];
      UpHead(n.q, current);
      ghost var f := free;
      hide Canonical; hide Apart; hide Agrees; hide InRange; hide Head; hide Pow2; hide Up; hide Covers; hide Holds; hide Free;
      AllocKeeps(f, n, order);
      AllocFreeRoundTrip(f, n, order);
      TakeOut(f, n);
      Detach(n, current, h);
      ghost var m := SplitDown(n, current, order, h);
      UpHead(m.q, order);
      AlignedIffHead(h, order);
    }

    /** An empty list means no free block of that order. */
    lemma EmptyList(k: nat)
      requires Agrees() && k <= MAX_ORDER && lists.first[k] == -1
      ensures forall n :: n in free ==> n.k != k
    {
      assert Chain(lists.lists[k], lists.first[k], lists.next[..], lists.prev[..]);
      assert lists.lists[k] != [] ==> Linked(lists.lists[k], 0, lists.next[..], lists.prev[..]);
      assert forall n :: n in free ==> Described(state[..], lists.lists, n);
    }

    /** The first run of a nonempty list is the head of a free block of that order. */
    lemma FirstBlock(k: nat) returns (n: Node)
      requires Agrees() && k <= MAX_ORDER && lists.first[k] != -1
      ensures n in free && n.k == k && lists.first[k] == Head(n.q, k)
    {
      var s := lists.lists[k];
      assert Chain(s, lists.first[k], lists.next[..], lists.prev[..]);
      assert AllOfOrder(state[..], s, k);
      assert Explained(state[..], free, s[0]);
      n := Node(Up(s[0], k), k);
    }

    /** buddy_add_range, in pages: the interval is cut into the largest aligned
        blocks that fit, and exactly its pages become free. */
    method AddRange(start: nat, end: nat)
      requires Valid() && end <= NPAGES && forall x: nat :: start <= x < end ==> !Covers(free, x)
      modifies Footprint()
      ensures Valid() && forall x: nat :: Covers(free, x) <==> Covers(old(free), x) || start <= x < end
    {
      hide Agrees; hide Canonical; hide Head; hide Up; hide Covers;
      var s := start;
      while s + 1 <= end
        invariant start <= s && (s <= end || s == start) && Valid()
        invariant forall x: nat :: Covers(free, x) <==> Covers(old(free), x) || (start <= x < s)
      {
        var order := LargestFitting(s, end);
        ghost var n := Node(Up(s, order), order);
        AlignedIffHead(s, order);
        forall x: nat ensures Holds(n, x) <==> s <= x < s + Pow2(order) {
          RunIsInterval(n.q, order, x);
        }
        InRangeIff(n);
        hide Pow2; hide Holds; hide InRange; hide Free;
        FreeKeeps(free, n);
        var ok := FreeLocked(s, order);
        s := s + Pow2(order);
      }
    }

    /** The inner loop of buddy_add_range. */
    static method LargestFitting(s: nat, end: nat) returns (order: nat)
      requires s + 1 <= end
      ensures order <= MAX_ORDER && s % Pow2(order) == 0 && s + Pow2(order) <= end
      ensures forall j :: order < j <= MAX_ORDER ==> !(s % Pow2(j) == 0 && s + Pow2(j) <= end)
    {
      order := MAX_ORDER;
      while order > 0 && !(s % Pow2(order) == 0 && s + Pow2(order) <= end)
        invariant order <= MAX_ORDER
        invariant forall j :: order < j <= MAX_ORDER ==> !(s % Pow2(j) == 0 && s + Pow2(j) <= end)
      {
        order := order - 1;
      }
    }

    /** kfree: one page, given by address.  A page that passes the double-free test must
        not be free. */
    method Kfree(addr: nat, kernelEnd: nat) returns (ok: bool)
      requires Valid() && KERNBASE <= kernelEnd
      requires KERNBASE <= addr < PHYSTOP && state[(addr - KERNBASE) / PGSIZE] == -1 ==> !Covers(free, (addr - KERNBASE) / PGSIZE)
      modifies Footprint()
      ensures ok <==> addr % PGSIZE == 0 && kernelEnd <= addr < PHYSTOP && old(state[(addr - KERNBASE) / PGSIZE]) == -1
      ensures Valid() && free == if ok then Free(old(free), Node((addr - KERNBASE) / PGSIZE, 0)) else old(free)
    {
      if addr % PGSIZE != 0 || addr < kernelEnd || addr >= PHYSTOP { return false; }
      var p := (addr - KERNBASE) / PGSIZE;
      hide Agrees; hide Canonical; hide Covers; hide Free;
      ok := FreeLocked(p, 0);
    }

    /** kalloc / kalloc_huge: an address, or 0 when nothing fits. */
    method KallocOrder(order: nat) returns (addr: nat)
      requires Valid() && order <= MAX_ORDER
      modifies Footprint()
      ensures Valid()
      ensures addr == 0 <==> forall q: nat :: !CoversRun(old(free), Node(q, order))
      ensures addr == 0 ==> free == old(free)
      ensures addr != 0 ==>
        var p := (addr - KERNBASE) / PGSIZE;
        && KERNBASE <= addr < PHYSTOP && addr == KERNBASE + p * PGSIZE && p % Pow2(order) == 0
        && Apart(free, Node(Up(p, order), order)) && Free(free, Node(Up(p, order), order)) == old(free)
        && BestFit(old(free), order, p)
    {
      hide Agrees; hide Canonical; hide Covers; hide Free; hide Pow2; hide Apart; hide CoversRun; hide Up; hide Head; hide BestFit;
      var r := AllocLocked(order);
      addr := 0;
      if r.Page? {
        AlignedIffHead(r.p, order);
        InRangeIff(Node(Up(r.p, order), order));
        addr := KERNBASE + r.p * PGSIZE;
      }
    }

    /** What the "buddy double free" test can see: only a free block that begins at
        the very page.  A page inside a larger free block, or one whose block was
        merged downwards, passes the test. */
    lemma DoubleFreeTest(p: nat)
      requires Valid() && p < NPAGES
      ensures state[p] != -1 <==> exists k: nat :: BeginsAt(free, p, k)
    {
      assert state[..][p] != -1 ==> Explained(state[..], free, p) && BeginsAt(free, p, state[p]);
      forall k: nat | BeginsAt(free, p, k) ensures state[p] == k {
        assert Described(state[..], lists.lists, Node(Up(p, k), k));
      }
    }

    /** So no page of a free block is caught but its first: freeing it again passes. */
    lemma DoubleFreeMissed(n: Node, x: nat)
      requires Valid() && n in free && Holds(n, x) && x != Head(n.q, n.k)
      ensures x < NPAGES && state[x] == -1 && Covers(free, x)
    {
      InRangeIff(n);
      RunIsInterval(n.q, n.k, x);
      DoubleFreeTest(x);
    }
  }

  /** Page p lies in a free block of the lowest order, from `order` up, that there is. */
  ghost predicate BestFit(f: set<Node>, order: nat, p: nat) {
    exists n :: n in f && order <= n.k && Holds(n, p) && forall o :: o in f && order <= o.k ==> n.k <= o.k
  }

  const KERNBASE: nat := 0x8000_0000
  const PHYSTOP: nat := KERNBASE + 128 * 1024 * 1024

  function PgRoundUp(a: nat): nat {
    (a + PGSIZE - 1) / PGSIZE * PGSIZE
  }

  /** kinit: exactly the whole pages between the end of the kernel and PHYSTOP are free. */
  method Kinit(kernelEnd: nat) returns (b: Buddy)
    requires KERNBASE <= kernelEnd
    ensures b.Valid() && fresh(b.Footprint())
    ensures forall x: nat :: Covers(b.free, x) <==> kernelEnd <= KERNBASE + x * PGSIZE < PHYSTOP
  {
    b := new Buddy.Empty();
    var start := PgRoundUp(kernelEnd);
    if start < PHYSTOP {
      b.AddRange((start - KERNBASE) / PGSIZE, NPAGES);
    }
  }

  lemma UpperHalf(f: set<Node>, n: Node)
    requires Apart(f, n) && n.k > 0 && InRange(n)
    ensures var hi := Node(2 * n.q + 1, n.k - 1); Apart(f, hi) && InRange(hi) && Head(hi.q, hi.k) < NPAGES
  {
    var hi := Node(2 * n.q + 1, n.k - 1);
    HalvesInRange(n);
    InRangeIff(hi);
    assert forall x: nat :: Holds(hi, x) ==> Holds(n, x);
  }

  lemma TakeOut(f: set<Node>, n: Node)
    requires Canonical(f) && n in f
    ensures InRange(n) && Apart(f - {n}, n) && Canonical(f - {n})
  {
    RemoveKeeps(f, n);
  }

  lemma NoLargeBlock(f: set<Node>, order: nat)
    requires Canonical(f) && order <= MAX_ORDER && forall n :: n in f ==> n.k < order
    ensures forall q: nat :: !CoversRun(f, Node(q, order))
  {
    AllocIffRun(f, order);
  }
}
