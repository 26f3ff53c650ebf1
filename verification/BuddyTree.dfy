/** The free memory of kernel/kalloc.c as a set of nodes of a binary tree.  Node
    (q, k) is the aligned block of 2^k pages with number q among the blocks of
    its order; its halves are (2q, k-1) and (2q+1, k-1), its buddy is the other
    half of its parent. */
module BuddyTree {
  const MAX_ORDER: nat := 15

  datatype Node = Node(q: nat, k: nat)

  /** The number of the order-k block that page x lies in: x / 2^k. */
  function Up(x: nat, k: nat): nat {
    if k == 0 then x else Up(x, k - 1) / 2
  }

  function Pow2(k: nat): (r: nat)
    ensures r >= 1
  {
    if k == 0 then 1 else 2 * Pow2(k - 1)
  }

  /** The first page of a block: q * 2^k. */
  function Head(q: nat, k: nat): nat
    decreases k
  {
    if k == 0 then q else Head(2 * q, k - 1)
  }

  /** The other half of the parent. */
  function Flip(q: nat): nat {
    if q % 2 == 0 then q + 1 else q - 1
  }

  /** The block lies inside the 2^MAX_ORDER pages that are managed. */
  predicate InRange(n: Node) {
    n.k <= MAX_ORDER && Up(n.q, MAX_ORDER - n.k) == 0
  }

  /** Page x lies in block n. */
  predicate Holds(n: Node, x: nat) {
    Up(x, n.k) == n.q
  }

  /** Page x is free: some free block holds it. */
  ghost predicate Covers(f: set<Node>, x: nat) {
    exists k: nat :: Node(Up(x, k), k) in f
  }

  ghost predicate CoversRun(f: set<Node>, n: Node) {
    forall x: nat :: Holds(n, x) ==> Covers(f, x)
  }

  /** No two free blocks overlap. */
  ghost predicate Disjoint(f: set<Node>) {
    forall x: nat, j: nat, k: nat :: Node(Up(x, j), j) in f && Node(Up(x, k), k) in f ==> j == k
  }

  /** Every pair of free buddies has been merged. */
  ghost predicate Merged(f: set<Node>) {
    forall n :: n in f && n.k < MAX_ORDER ==> Node(Flip(n.q), n.k) !in f
  }

  ghost predicate Canonical(f: set<Node>) {
    Disjoint(f) && Merged(f) && forall n :: n in f ==> InRange(n)
  }

  // ------------------------------------------------------ tree arithmetic

  lemma {:induction false} UpUp(x: nat, a: nat, b: nat)
    ensures Up(Up(x, a), b) == Up(x, a + b)
  {
    if b > 0 {
      UpUp(x, a, b - 1);
    }
  }

  lemma {:induction false} UpHead(q: nat, k: nat)
    ensures Up(Head(q, k), k) == q
    decreases k
  {
    if k > 0 {
      UpHead(2 * q, k - 1);
    }
  }

  lemma {:induction false} HeadNext(q: nat, k: nat)
    ensures Head(q + 1, k) == Head(q, k) + Pow2(k)
    decreases k
  {
    if k > 0 {
      HeadNext(2 * q, k - 1);
      HeadNext(2 * q + 1, k - 1);
    }
  }

  /** A run of pages is exactly the interval from its head. */
  lemma {:induction false} RunIsInterval(q: nat, k: nat, x: nat)
    ensures Up(x, k) == q <==> Head(q, k) <= x < Head(q, k) + Pow2(k)
    decreases k
  {
    if k > 0 {
      RunIsInterval(2 * q, k - 1, x);
      RunIsInterval(2 * q + 1, k - 1, x);
      HeadNext(2 * q, k - 1);
    }
  }

  lemma {:induction false} HeadIsProduct(q: nat, k: nat)
    ensures Head(q, k) == q * Pow2(k)
    decreases k
  {
    if k > 0 {
      HeadIsProduct(2 * q, k - 1);
    }
  }

  lemma DivMod(p: nat, d: nat)
    requires d >= 1
    ensures (p / d) * d <= p < (p / d) * d + d
    ensures p % d == 0 <==> p == (p / d) * d
  {
    assert p == d * (p / d) + p % d;
  }

  /** p is a multiple of 2^k exactly when it is the head of the block it lies in. */
  lemma AlignedIffHead(p: nat, k: nat)
    ensures p % Pow2(k) == 0 <==> Head(Up(p, k), k) == p
  {
    hide Pow2; hide Head; hide Up;
    var d := Pow2(k);
    var q := p / d;
    DivMod(p, d);
    HeadIsProduct(q, k);
    RunIsInterval(q, k, p);
  }

  function Xor(a: nat, b: nat): nat
    decreases a + b
  {
    if a == 0 && b == 0 then 0 else (if a % 2 != b % 2 then 1 else 0) + 2 * Xor(a / 2, b / 2)
  }

  lemma {:induction false} XorZero(a: nat)
    ensures Xor(a, 0) == a
  {
    if a > 0 {
      XorZero(a / 2);
    }
  }

  lemma {:induction false} HeadDouble(q: nat, k: nat)
    ensures Head(2 * q, k) == 2 * Head(q, k)
    decreases k
  {
    if k > 0 {
      HeadDouble(2 * q, k - 1);
    }
  }

  lemma {:induction false} PowIsHead(k: nat, m: nat)
    ensures Head(Pow2(k), m) == Pow2(k + m)
  {
    if m > 0 {
      HeadDouble(Pow2(k), m - 1);
      PowIsHead(k, m - 1);
    }
  }

  /** Exclusive or commutes with shifting both sides left by m bits. */
  lemma {:induction false} XorShifted(a: nat, b: nat, m: nat)
    ensures Xor(Head(a, m), Head(b, m)) == Head(Xor(a, b), m)
  {
    if m > 0 {
      XorShifted(a, b, m - 1);
      HeadDouble(a, m - 1);
      HeadDouble(b, m - 1);
      HeadDouble(Xor(a, b), m - 1);
    }
  }

  /** The address computation of the buddy: with byte offsets of blocks of
      2^k pages of 2^m bytes, `offset ^ order_size(k)` is the offset of the other
      half of the parent block. */
  lemma XorIsBuddy(q: nat, k: nat, m: nat)
    ensures Xor(Head(Head(q, k), m), Pow2(k + m)) == Head(Head(Flip(q), k), m)
  {
    assert Xor(q, 1) == Flip(q) by { XorZero(q / 2); }
    XorShifted(q, 1, k);
    PowIsHead(0, k);
    XorShifted(Head(q, k), Pow2(k), m);
    PowIsHead(k, m);
  }

  // -------------------------------------------------- canonical free sets

  /** In a canonical set an aligned run that is entirely free lies inside one free block. */
  lemma {:induction false} RunInsideOne(f: set<Node>, n: Node) returns (j: nat)
    requires Canonical(f) && n.k <= MAX_ORDER && CoversRun(f, n)
    ensures j >= n.k && Node(Up(n.q, j - n.k), j) in f
    decreases n.k
  {
    if n.k == 0 {
      assert Holds(n, n.q);
      j :| Node(Up(n.q, j), j) in f;
    } else {
      var lo, hi := Node(2 * n.q, n.k - 1), Node(2 * n.q + 1, n.k - 1);
      assert CoversRun(f, lo) && CoversRun(f, hi) by {
        assert forall x: nat :: Holds(lo, x) || Holds(hi, x) ==> Holds(n, x);
      }
      j := RunInsideOne(f, lo);
      if j == lo.k {
        j := RunInsideOne(f, hi);
        assert Flip(lo.q) == hi.q;
      }
      UpUp(2 * n.q, 1, j - n.k);
      UpUp(2 * n.q + 1, 1, j - n.k);
    }
  }

  /** A free block is a maximal aligned free run, and every such run is a free block. */
  lemma FreeIffMaximal(f: set<Node>, n: Node)
    requires Canonical(f) && n.k <= MAX_ORDER
    ensures n in f <==> CoversRun(f, n) && (n.k == MAX_ORDER || !CoversRun(f, Node(n.q / 2, n.k + 1)))
  {
    if n in f {
      assert CoversRun(f, n) by {
        assert forall x: nat :: Holds(n, x) ==> Node(Up(x, n.k), n.k) in f;
      }
      if n.k < MAX_ORDER && CoversRun(f, Node(n.q / 2, n.k + 1)) {
        var j := RunInsideOne(f, Node(n.q / 2, n.k + 1));
        UpUp(n.q, 1, j - n.k - 1);
        var x := Head(n.q, n.k);
        UpHead(n.q, n.k);
        UpUp(x, n.k, j - n.k);
      }
    } else if CoversRun(f, n) {
      var j := RunInsideOne(f, n);
      assert j > n.k;
      var p := Node(n.q / 2, n.k + 1);
      forall x: nat | Holds(p, x) ensures Covers(f, x) {
        UpUp(n.q, 1, j - n.k - 1);
        UpUp(x, n.k + 1, j - n.k - 1);
        assert Node(Up(x, j), j) in f;
      }
      assert InRange(Node(Up(n.q, j - n.k), j));
    }
  }

  /** The free blocks are determined by the free pages. */
  lemma CanonicalUnique(f: set<Node>, g: set<Node>)
    requires Canonical(f) && Canonical(g)
    requires forall x: nat :: Covers(f, x) <==> Covers(g, x)
    ensures f == g
  {
    forall n ensures n in f <==> n in g {
      if n in f || n in g {
        assert n.k <= MAX_ORDER;
        FreeIffMaximal(f, n);
        FreeIffMaximal(g, n);
      }
    }
  }

  // --------------------------------------------------------- free and split

  /** Block n shares no page with a free block. */
  ghost predicate Apart(f: set<Node>, n: Node) {
    forall x: nat :: Holds(n, x) ==> !Covers(f, x)
  }

  /** f together with n, and g together with m, hold the same pages. */
  ghost predicate SamePages(f: set<Node>, n: Node, g: set<Node>, m: Node) {
    forall x: nat :: Covers(f, x) || Holds(n, x) <==> Covers(g, x) || Holds(m, x)
  }

  /** buddy_free_locked: merge with the buddy while it is free, then insert. */
  ghost function Free(f: set<Node>, n: Node): set<Node>
    decreases MAX_ORDER - n.k
  {
    var buddy := Node(Flip(n.q), n.k);
    if n.k < MAX_ORDER && buddy in f then Free(f - {buddy}, Node(n.q / 2, n.k + 1)) else f + {n}
  }

  /** The splitting loop of buddy_alloc_locked: keep the lower half, free the upper. */
  ghost function Split(f: set<Node>, n: Node, k: nat): (set<Node>, Node)
    requires k <= n.k
    decreases n.k
  {
    if n.k == k then (f, n) else Split(f + {Node(2 * n.q + 1, n.k - 1)}, Node(2 * n.q, n.k - 1), k)
  }

  /** One turn of splitting, in blocks and in pages. */
  lemma SplitTurn(f: set<Node>, n: Node, k: nat)
    requires k <= n.k
    ensures n.k == k ==> Split(f, n, k) == (f, n)
    ensures n.k > k ==> Split(f, n, k) == Split(f + {Node(2 * n.q + 1, n.k - 1)}, Node(2 * n.q, n.k - 1), k)
    ensures n.k > k ==> Head(2 * n.q, n.k - 1) == Head(n.q, n.k) && Head(2 * n.q + 1, n.k - 1) == Head(n.q, n.k) + Pow2(n.k - 1)
  {
    if n.k > k { HeadNext(2 * n.q, n.k - 1); }
  }

  lemma CoversAdd(f: set<Node>, n: Node, x: nat)
    ensures Covers(f + {n}, x) <==> Covers(f, x) || Holds(n, x)
  {
    if Holds(n, x) {
      assert Node(Up(x, n.k), n.k) in f + {n};
    }
    if Covers(f, x) {
      var k: nat :| Node(Up(x, k), k) in f;
      assert Node(Up(x, k), k) in f + {n};
    }
  }

  lemma CoversRemove(f: set<Node>, n: Node, x: nat)
    requires Disjoint(f) && n in f
    ensures Covers(f - {n}, x) <==> Covers(f, x) && !Holds(n, x)
  {
    if Covers(f, x) {
      var k: nat :| Node(Up(x, k), k) in f;
      if !Holds(n, x) {
        assert Node(Up(x, k), k) in f - {n};
      } else {
        assert Node(Up(x, n.k), n.k) in f;
      }
    }
  }

  lemma InsertKeeps(f: set<Node>, n: Node)
    requires Canonical(f) && InRange(n) && Apart(f, n)
    requires n.k < MAX_ORDER ==> Node(Flip(n.q), n.k) !in f
    ensures Canonical(f + {n})
  {
    hide Up;
    forall x: nat, j: nat, k: nat | Node(Up(x, j), j) in f + {n} && Node(Up(x, k), k) in f + {n}
      ensures j == k
    {
      if Node(Up(x, j), j) == n || Node(Up(x, k), k) == n {
        assert Holds(n, x);
        assert Node(Up(x, j), j) in f ==> Covers(f, x);
        assert Node(Up(x, k), k) in f ==> Covers(f, x);
      }
    }
    assert Flip(Flip(n.q)) == n.q;
    assert forall m: Node :: Flip(m.q) == n.q ==> m.q == Flip(n.q);
  }

  lemma RemoveKeeps(f: set<Node>, n: Node)
    requires Canonical(f) && n in f
    ensures Canonical(f - {n}) && Apart(f - {n}, n)
  {
    hide Up;
    forall x: nat | Holds(n, x) ensures !Covers(f - {n}, x) {
      CoversRemove(f, n, x);
    }
  }

  lemma UpOne(x: nat)
    ensures Up(x, 1) == x / 2
  {
    assert Up(x, 0) == x;
  }

  lemma HalvesInRange(n: Node)
    requires InRange(n) && n.k > 0
    ensures InRange(Node(2 * n.q, n.k - 1)) && InRange(Node(2 * n.q + 1, n.k - 1))
  {
    UpOne(2 * n.q);
    UpOne(2 * n.q + 1);
    hide Up;
    UpUp(2 * n.q, 1, MAX_ORDER - n.k);
    UpUp(2 * n.q + 1, 1, MAX_ORDER - n.k);
  }

  lemma ParentInRange(n: Node)
    requires InRange(n) && n.k < MAX_ORDER
    ensures InRange(Node(n.q / 2, n.k + 1))
  {
    UpOne(n.q);
    hide Up;
    UpUp(n.q, 1, MAX_ORDER - n.k - 1);
  }

  /** One merge: the buddy leaves the free set and the parent is in hand. */
  lemma MergeStep(f: set<Node>, n: Node)
    requires Canonical(f) && InRange(n) && Apart(f, n) && n.k < MAX_ORDER && Node(Flip(n.q), n.k) in f
    ensures var g, m := f - {Node(Flip(n.q), n.k)}, Node(n.q / 2, n.k + 1);
      Canonical(g) && InRange(m) && Apart(g, m) && SamePages(f, n, g, m)
  {
    var buddy, m := Node(Flip(n.q), n.k), Node(n.q / 2, n.k + 1);
    var g := f - {buddy};
    RemoveKeeps(f, buddy);
    ParentInRange(n);
    assert Disjoint(f);
    hide Canonical; hide InRange; hide Disjoint;
    forall x: nat ensures Covers(g, x) <==> Covers(f, x) && !Holds(buddy, x) {
      CoversRemove(f, buddy, x);
    }
    forall x: nat | Holds(buddy, x) ensures Covers(f, x) {
      assert Node(Up(x, n.k), n.k) in f;
    }
    assert forall x: nat :: Holds(m, x) <==> Holds(n, x) || Holds(buddy, x);
    hide Covers; hide Holds;
  }

  /** One split: the upper half enters the free set and the lower is in hand. */
  lemma SplitStep(f: set<Node>, n: Node)
    requires Canonical(f) && InRange(n) && Apart(f, n) && n.k > 0
    ensures var g, m := f + {Node(2 * n.q + 1, n.k - 1)}, Node(2 * n.q, n.k - 1);
      Canonical(g) && InRange(m) && Apart(g, m) && SamePages(f, n, g, m)
  {
    var lo, hi := Node(2 * n.q, n.k - 1), Node(2 * n.q + 1, n.k - 1);
    HalvesInRange(n);
    assert forall x: nat :: Holds(n, x) <==> Holds(lo, x) || Holds(hi, x);
    assert lo !in f by {
      UpHead(lo.q, lo.k);
      assert Holds(lo, Head(lo.q, lo.k));
    }
    hide Canonical; hide InRange;
    InsertKeeps(f, hi);
    forall x: nat ensures Covers(f + {hi}, x) <==> Covers(f, x) || Holds(hi, x) {
      CoversAdd(f, hi, x);
    }
    assert forall x: nat :: Holds(lo, x) ==> !Holds(hi, x);
    hide Covers; hide Holds;
  }

  lemma FreeStep(f: set<Node>, n: Node)
    requires n.k <= MAX_ORDER
    ensures var buddy := Node(Flip(n.q), n.k);
      Free(f, n) == if n.k < MAX_ORDER && buddy in f then Free(f - {buddy}, Node(n.q / 2, n.k + 1)) else f + {n}
  {
  }

  lemma InRangeOrder(n: Node)
    requires InRange(n)
    ensures n.k <= MAX_ORDER
  {
  }

  /** Freeing keeps the set canonical and adds exactly the pages of the block. */
  lemma {:induction false} FreeKeeps(f: set<Node>, n: Node)
    requires Canonical(f) && InRange(n) && Apart(f, n)
    ensures Canonical(Free(f, n))
    ensures forall x: nat :: Covers(Free(f, n), x) <==> Covers(f, x) || Holds(n, x)
    decreases MAX_ORDER - n.k
  {
    hide Canonical; hide Apart; hide Covers; hide Up; hide Free; hide InRange;
    InRangeOrder(n);
    FreeStep(f, n);
    var buddy := Node(Flip(n.q), n.k);
    if n.k < MAX_ORDER && buddy in f {
      MergeStep(f, n);
      FreeKeeps(f - {buddy}, Node(n.q / 2, n.k + 1));
    } else {
      InsertKeeps(f, n);
      forall x: nat ensures Covers(f + {n}, x) <==> Covers(f, x) || Holds(n, x) {
        CoversAdd(f, n, x);
      }
    }
  }

  /** Splitting keeps the set canonical and apart from the block in hand, loses no
      page, and stops at the requested order. */
  lemma {:induction false} SplitKeeps(f: set<Node>, n: Node, k: nat)
    requires Canonical(f) && InRange(n) && Apart(f, n) && k <= n.k
    ensures var (g, m) := Split(f, n, k);
      Canonical(g) && InRange(m) && Apart(g, m) && m.k == k && SamePages(f, n, g, m)
    decreases n.k
  {
    hide Up; hide Canonical; hide InRange; hide Apart; hide Covers; hide Holds;
    if n.k > k {
      var f1, n1 := f + {Node(2 * n.q + 1, n.k - 1)}, Node(2 * n.q, n.k - 1);
      SplitStep(f, n);
      SplitKeeps(f1, n1, k);
      assert Split(f, n, k) == Split(f1, n1, k);
    } else {
      assert Split(f, n, k) == (f, n);
    }
  }

  /** Allocating order k from free block n takes exactly the pages of the block
      returned out of the free set. */
  lemma AllocKeeps(f: set<Node>, n: Node, k: nat)
    requires Canonical(f) && n in f && k <= n.k
    ensures var (g, m) := Split(f - {n}, n, k);
      && Canonical(g) && InRange(m) && m.k == k && Apart(g, m)
      && (forall x: nat :: Covers(f, x) <==> Covers(g, x) || Holds(m, x))
  {
    RemoveKeeps(f, n);
    SplitKeeps(f - {n}, n, k);
    forall x: nat ensures Covers(f, x) <==> Covers(f - {n}, x) || Holds(n, x) {
      CoversRemove(f, n, x);
      if Holds(n, x) {
        assert Node(Up(x, n.k), n.k) in f;
      }
    }
  }

  /** Allocate, then free: the very same free blocks are back. */
  lemma AllocFreeRoundTrip(f: set<Node>, n: Node, k: nat)
    requires Canonical(f) && n in f && k <= n.k
    ensures var (g, m) := Split(f - {n}, n, k); Free(g, m) == f
  {
    AllocKeeps(f, n, k);
    var (g, m) := Split(f - {n}, n, k);
    FreeKeeps(g, m);
    CanonicalUnique(Free(g, m), f);
  }

  /** An order-k allocation can succeed exactly when some aligned run of 2^k pages is free. */
  lemma AllocIffRun(f: set<Node>, k: nat)
    requires Canonical(f) && k <= MAX_ORDER
    ensures (exists n :: n in f && n.k >= k) <==> (exists q: nat :: CoversRun(f, Node(q, k)))
  {
    hide Up;
    if n :| n in f && n.k >= k {
      var (g, m) := Split(f - {n}, n, k);
      AllocKeeps(f, n, k);
      assert CoversRun(f, Node(m.q, k));
    }
    if q: nat :| CoversRun(f, Node(q, k)) {
      var j := RunInsideOne(f, Node(q, k));
    }
  }

  // ------------------------------------------------------------- whole runs

  /** The free blocks, and the blocks handed out and not yet returned. */
  datatype Memory = Memory(free: set<Node>, live: set<Node>)

  datatype Op = Alloc(n: Node, k: nat) | Return(m: Node)

  ghost predicate Enabled(s: Memory, op: Op) {
    match op
    case Alloc(n, k) => n in s.free && k <= n.k
    case Return(m) => m in s.live
  }

  ghost function Apply(s: Memory, op: Op): Memory
    requires Enabled(s, op)
  {
    match op
    case Alloc(n, k) => var (g, m) := Split(s.free - {n}, n, k); Memory(g, s.live + {m})
    case Return(m) => Memory(Free(s.free, m), s.live - {m})
  }

  ghost predicate IsRun(run: seq<Memory>, ops: seq<Op>) {
    && |run| == |ops| + 1
    && forall i :: 0 <= i < |ops| ==> Enabled(run[i], ops[i]) && run[i + 1] == Apply(run[i], ops[i])
  }

  /** Free and live blocks never overlap, and together hold exactly the pages of f0. */
  ghost predicate MemoryInv(s: Memory, f0: set<Node>) {
    && Canonical(s.free) && Disjoint(s.live)
    && (forall m :: m in s.live ==> InRange(m) && Apart(s.free, m))
    && (forall x: nat :: Covers(s.free, x) || Covers(s.live, x) <==> Covers(f0, x))
  }

  lemma NotBoth(s: Memory, x: nat)
    requires forall m :: m in s.live ==> Apart(s.free, m)
    ensures !(Covers(s.free, x) && Covers(s.live, x))
  {
    if Covers(s.live, x) {
      var j: nat :| Node(Up(x, j), j) in s.live;
      assert Holds(Node(Up(x, j), j), x);
    }
  }

  lemma AllocKeepsMemory(s: Memory, n: Node, k: nat, f0: set<Node>)
    requires MemoryInv(s, f0) && Enabled(s, Alloc(n, k))
    ensures MemoryInv(Apply(s, Alloc(n, k)), f0)
  {
    hide Up;
    var (g, m) := Split(s.free - {n}, n, k);
    var s' := Memory(g, s.live + {m});
    AllocKeeps(s.free, n, k);
    hide Canonical; hide InRange; hide Split;
    forall x: nat ensures !(Covers(s.free, x) && Covers(s.live, x)) && (Covers(s'.live, x) <==> Covers(s.live, x) || Holds(m, x)) {
      NotBoth(s, x);
      CoversAdd(s.live, m, x);
    }
    forall x: nat, i: nat, j: nat | Node(Up(x, i), i) in s'.live && Node(Up(x, j), j) in s'.live ensures i == j {
      assert Node(Up(x, i), i) in s.live ==> Covers(s.live, x);
      assert Node(Up(x, j), j) in s.live ==> Covers(s.live, x);
    }
  }

  lemma ReturnKeepsMemory(s: Memory, m: Node, f0: set<Node>)
    requires MemoryInv(s, f0) && m in s.live
    ensures MemoryInv(Apply(s, Return(m)), f0)
  {
    hide Up;
    var s' := Memory(Free(s.free, m), s.live - {m});
    FreeKeeps(s.free, m);
    hide Canonical; hide InRange; hide Free;
    forall x: nat ensures Covers(s'.live, x) <==> Covers(s.live, x) && !Holds(m, x) {
      CoversRemove(s.live, m, x);
    }
    forall x: nat | Holds(m, x) ensures Covers(s.live, x) {
      assert Node(Up(x, m.k), m.k) in s.live;
    }
    forall o | o in s'.live ensures Apart(s'.free, o) {
      forall x: nat | Holds(o, x) ensures !Covers(s'.free, x) {
        assert Node(Up(x, o.k), o.k) in s'.live;
      }
    }
  }

  /** Conservation: whatever is allocated and freed, in whatever order, no page is
      lost, duplicated, or in two blocks at once. */
  lemma {:induction false} RunKeeps(run: seq<Memory>, ops: seq<Op>, i: nat)
    requires IsRun(run, ops) && i < |run| && Canonical(run[0].free) && run[0].live == {}
    ensures MemoryInv(run[i], run[0].free)
  {
    if i > 0 {
      RunKeeps(run, ops, i - 1);
      hide MemoryInv;
      match ops[i - 1]
      case Alloc(n, k) => AllocKeepsMemory(run[i - 1], n, k, run[0].free);
      case Return(m) => ReturnKeepsMemory(run[i - 1], m, run[0].free);
    }
  }

  /** History independence: two runs from the same memory that leave the same
      blocks live leave the very same free blocks, however they got there. */
  lemma HistoryIndependent(a: seq<Memory>, aOps: seq<Op>, b: seq<Memory>, bOps: seq<Op>)
    requires IsRun(a, aOps) && IsRun(b, bOps) && a[0] == b[0] && Canonical(a[0].free) && a[0].live == {}
    requires a[|aOps|].live == b[|bOps|].live
    ensures a[|aOps|].free == b[|bOps|].free
  {
    RunKeeps(a, aOps, |aOps|);
    RunKeeps(b, bOps, |bOps|);
    hide IsRun;
    var s, t := a[|aOps|], b[|bOps|];
    forall x: nat ensures Covers(s.free, x) <==> Covers(t.free, x) {
      NotBoth(s, x);
      NotBoth(t, x);
    }
    CanonicalUnique(s.free, t.free);
  }
}
