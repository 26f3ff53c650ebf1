/** The invariant of the machine in ProcModel behind "no wakeup is lost", stated for one
    process, or a pair, at a time. */
module ProcInvariant {
  import opened ProcModel

  // ------------------------------------------------------------ who holds what

  predicate HoldsGuard(pc: Pc, g: Guard) {
    match pc
    case Acquiring(l) => g == Lk(l)
    case Acquired(l) => g == Lk(l)
    case Releasing(l) => g == Lk(l)
    case Released(l) => g == Lk(l)
    case Wake(_, _, k) => g == (if k.ThenRelease? then Lk(k.l) else WaitLock)
    case Sleep0(h) => g == h
    case Sleep1(h) => g == h
    case Scan(_, _) => g == WaitLock
    case Scanned(_) => g == WaitLock
    case WaitDone => g == WaitLock
    case Reparent(_) => g == WaitLock
    case WakeParent => g == WaitLock
    case LockSelf => g == WaitLock
    case Die => g == WaitLock
    case LeaveWait => g == WaitLock
    case Fork2(_) => g == WaitLock
    case Fork3(_) => g == WaitLock
    case _ => false
  }

  /** On a CPU, in state st, with p->lock held by h. */
  predicate Running(r: Proc, st: State, h: Holder) {
    r.onCpu && r.state == st && r.lock == h
  }

  /** Off its CPU in one of the states sts, and not holding its own lock; or back on one,
      with the lock that the scheduler handed over. */
  predicate Switched(r: Proc, sts: set<State>) {
    if r.onCpu then r.state == RUNNING && r.lock == Self else r.state in sts && r.lock != Self
  }

  /** Where a process is in the code fixes its state, its CPU and its lock. */
  predicate PlaceOk(p: nat, r: Proc) {
    match r.pc
    case Sleep1(_) => Running(r, RUNNING, Self)
    case Sleep2(_) => Running(r, RUNNING, Self)
    case Sleep3(g) => Running(r, SLEEPING, Self) && r.chan == ChanOf(p, g)
    case Sleep4(g) => Switched(r, {SLEEPING, RUNNABLE}) && r.chan == ChanOf(p, g)
    case Sleep5(_) => Running(r, RUNNING, Self)
    case Die => Running(r, RUNNING, Self)
    case LeaveWait => Running(r, ZOMBIE, Self)
    case LastSwitch => Running(r, ZOMBIE, Self)
    case Dead => !r.onCpu && r.state in {ZOMBIE, UNUSED} && r.lock != Self
    case Yield1 => Running(r, RUNNING, Self)
    case Yield2 => Running(r, RUNNABLE, Self)
    case Yield3 => Switched(r, {RUNNABLE})
    case Start => Switched(r, {RUNNABLE, USED, UNUSED})
    case _ => Running(r, RUNNING, Free)
  }

  /** kexit has begun. */
  predicate Exiting(pc: Pc) {
    match pc
    case Wake(_, _, k) => !k.ThenRelease?
    case Reparent(_) => true
    case WakeParent => true
    case LockSelf => true
    case Die => true
    case LeaveWait => true
    case LastSwitch => true
    case Dead => true
    case _ => false
  }

  /** One slot on its own.  A slot is freed as often as it died, save for a zombie. */
  predicate SlotOk(p: nat, r: Proc) {
    && PlaceOk(p, r)
    && (r.state in {UNUSED, USED} || Exiting(r.pc) ==> r.holds == {})
    && (r.pc.Releasing? ==> r.pc.l in r.holds)
    && r.exits == r.frees + if r.state == ZOMBIE then 1 else 0
  }

  /** A slot is either not freed by a step, or was a zombie off its CPU and is unused now. */
  predicate FreedFrom(r: Proc, r': Proc) {
    || r'.frees == r.frees
    || (r.state == ZOMBIE && !r.onCpu && r.pc == Dead && r.lock == Free && r'.state == UNUSED && r'.frees == r.frees + 1)
  }

  /** A condition lock is owned by exactly the process whose code holds it. */
  predicate GuardAt(s: Sys, p: nat, g: Guard)
    requires p < |s.procs|
  {
    HoldsGuard(s.procs[p].pc, g) <==> Owner(s, g) == p
  }

  function Owner(s: Sys, g: Guard): int {
    match g
    case Lk(l) => if l < |s.lks| then s.lks[l].owner else NOBODY
    case WaitLock => s.waitOwner
  }

  // ------------------------------------------------------------ lost wakeups

  /** p is asleep on g, or has let go of g and can no longer be stopped from sleeping. */
  predicate Asleep(r: Proc, g: Guard) {
    r.pc == Sleep2(g) || r.pc == Sleep3(g) || (r.pc == Sleep4(g) && r.state == SLEEPING)
  }

  /** q is in wakeup(c) and has yet to look at p. */
  predicate WillWake(s: Sys, q: int, c: Chan, p: nat) {
    0 <= q < |s.procs| && s.procs[q].pc.Wake? && s.procs[q].pc.c == c && s.procs[q].pc.i <= p
  }

  /** A process asleep on a sleeplock that is not locked is about to be woken. */
  predicate LockWakes(s: Sys, p: nat, l: nat)
    requires p < |s.procs| && l < |s.lks|
  {
    && (Asleep(s.procs[p], Lk(l)) && !s.lks[l].locked ==> WillWake(s, s.lks[l].owner, OnLock(l), p))
    && (s.procs[p].pc == Sleep0(Lk(l)) || s.procs[p].pc == Sleep1(Lk(l)) ==> s.lks[l].locked)
  }

  predicate ZombieChild(s: Sys, p: int, i: nat) {
    i < |s.procs| && s.procs[i].parent == p && s.procs[i].state == ZOMBIE
  }

  /** How far p's scan of the table, made while it holds wait_lock, has come. */
  function ScannedTo(s: Sys, pc: Pc): nat {
    match pc
    case Scan(i, _) => i
    case Scanned(_) => |s.procs|
    case Sleep0(WaitLock) => |s.procs|
    case Sleep1(WaitLock) => |s.procs|
    case _ => 0
  }

  /** kexit has gone past its parent in the wakeup and not yet become a zombie. */
  predicate PastParent(r: Proc) {
    r.pc in {LockSelf, Die} || (r.pc.Wake? && r.pc.k.ThenDie? && r.pc.i > r.parent)
  }

  /** A parent asleep in kwait with a zombie child is about to be woken. */
  predicate ParentWakes(s: Sys, p: nat, i: nat)
    requires p < |s.procs|
  {
    ZombieChild(s, p, i) && Asleep(s.procs[p], WaitLock) ==> WillWake(s, s.waitOwner, OnProc(p), p)
  }

  /** A scan of the table that has passed a child saw it alive, and so it still is. */
  predicate ScanMissesNone(s: Sys, p: nat, i: nat)
    requires p < |s.procs|
  {
    ZombieChild(s, p, i) ==> i >= ScannedTo(s, s.procs[p].pc)
  }

  /** A process about to become a zombie has woken its parent. */
  predicate ParentWoken(s: Sys, q: nat)
    requires q < |s.procs|
  {
    var r := s.procs[q];
    && (PastParent(r) && 0 <= r.parent < |s.procs| ==> !Asleep(s.procs[r.parent], WaitLock))
    && (r.pc.Wake? && r.pc.k.ThenDie? ==> r.pc.c == OnProc(r.parent))
  }

  // ------------------------------------------------------------ the rest

  /** A sleeplock is held by exactly the process it records. */
  predicate HeldBy(s: Sys, p: nat, l: nat)
    requires p < |s.procs|
  {
    l in s.procs[p].holds <==> l < |s.lks| && s.lks[l].locked && s.lks[l].pid == p
  }

  predicate InRange(s: Sys, l: nat) {
    && 0 < |s.procs| && NOBODY <= s.waitOwner < |s.procs|
    && (l < |s.lks| ==> NOBODY <= s.lks[l].owner < |s.procs| && (s.lks[l].locked ==> 0 <= s.lks[l].pid < |s.procs|))
  }

  function Child(pc: Pc): int {
    match pc
    case Fork1(c) => c
    case Fork2(c) => c
    case Fork3(c) => c
    case Fork4(c) => c
    case _ => NOBODY
  }

  /** A child under construction is in state USED and belongs to one kfork. */
  predicate ForkOk(s: Sys, p: nat, q: nat)
    requires p < |s.procs| && q < |s.procs|
  {
    var c := Child(s.procs[p].pc);
    && (c != NOBODY ==> 0 <= c < |s.procs| && s.procs[c].state == USED)
    && (c != NOBODY && c == Child(s.procs[q].pc) ==> p == q)
  }

  predicate Kept(s: Sys, p: nat, i: nat, g: Guard) {
    && p < |s.procs| && SlotOk(p, s.procs[p]) && GuardAt(s, p, g) && HeldBy(s, p, i)
    && ParentWakes(s, p, i) && ScanMissesNone(s, p, i) && ParentWoken(s, p)
    && (i < |s.lks| ==> LockWakes(s, p, i))
    && (i < |s.procs| ==> ForkOk(s, p, i))
  }

  /** Everything the invariant says about processes p and i, sleeplock i and guard g. */
  predicate At(s: Sys, p: nat, i: nat, g: Guard) {
    InRange(s, i) && (p < |s.procs| ==> Kept(s, p, i, g))
  }

  ghost predicate Inv(s: Sys) {
    forall p: nat, i: nat, g :: At(s, p, i, g)
  }

  /** What a step of p at another process q may rely on. */
  predicate Pair(s: Sys, p: nat, q: nat) {
    p < |s.procs| && q < |s.procs| && SlotOk(p, s.procs[p]) && SlotOk(q, s.procs[q]) && ForkOk(s, p, q)
  }

  predicate OwnerOk(s: Sys, o: int) {
    0 <= o < |s.procs| ==> SlotOk(o, s.procs[o])
  }

  predicate GuardPair(s: Sys, p: nat, q: nat, g: Guard) {
    Pair(s, p, q) && GuardAt(s, p, g) && GuardAt(s, q, g)
  }

  predicate HeldPair(s: Sys, p: nat, q: nat, l: nat) {
    Pair(s, p, q) && HeldBy(s, p, l) && HeldBy(s, q, l) && InRange(s, l)
  }

  predicate ForkTriple(s: Sys, p: nat, q: nat, x: nat) {
    && Pair(s, p, q) && Pair(s, p, x) && Pair(s, q, p) && Pair(s, q, x) && Pair(s, x, p) && Pair(s, x, q)
  }

  predicate LockPair(s: Sys, p: nat, q: nat, l: nat) {
    && GuardPair(s, p, q, Lk(l)) && l < |s.lks| && LockWakes(s, p, l) && LockWakes(s, q, l) && OwnerOk(s, s.lks[l].owner)
  }

  predicate ParentPair(s: Sys, p: nat, q: nat, i: nat) {
    && GuardPair(s, p, q, WaitLock) && (i < |s.procs| ==> Pair(s, p, i)) && OwnerOk(s, s.waitOwner)
    && ParentWakes(s, p, i) && ParentWakes(s, q, i) && ParentWoken(s, p) && ScanMissesNone(s, p, i)
  }

  predicate ScanPair(s: Sys, p: nat, q: nat, i: nat) {
    && GuardPair(s, p, q, WaitLock) && (i < |s.procs| ==> Pair(s, p, i)) && ScanMissesNone(s, p, i) && ScanMissesNone(s, q, i)
  }

  predicate WokenPair(s: Sys, p: nat, q: nat) {
    && GuardPair(s, p, q, WaitLock) && ParentWoken(s, p) && ParentWoken(s, q)
    && (0 <= s.procs[q].parent < |s.procs| ==> Pair(s, p, s.procs[q].parent))
  }

  lemma NearPair(s: Sys, p: nat, q: nat)
    requires Inv(s) && p < |s.procs| && q < |s.procs|
    ensures Pair(s, p, q)
  {
    assert At(s, p, q, WaitLock) && At(s, q, p, WaitLock);
  }

  lemma NearOwner(s: Sys, o: int)
    requires Inv(s)
    ensures OwnerOk(s, o)
  {
    assert 0 <= o ==> At(s, o, 0, WaitLock);
  }

  lemma NearGuard(s: Sys, p: nat, q: nat, g: Guard)
    requires Inv(s) && p < |s.procs| && q < |s.procs|
    ensures GuardPair(s, p, q, g)
  {
    assert At(s, p, 0, g) && At(s, q, 0, g);
    NearPair(s, p, q);
  }

  lemma NearHeld(s: Sys, p: nat, q: nat, l: nat)
    requires Inv(s) && p < |s.procs| && q < |s.procs|
    ensures HeldPair(s, p, q, l)
  {
    assert At(s, p, l, WaitLock) && At(s, q, l, WaitLock);
    NearPair(s, p, q);
  }

  lemma NearFork(s: Sys, p: nat, q: nat, x: nat)
    requires Inv(s) && p < |s.procs| && q < |s.procs| && x < |s.procs|
    ensures ForkTriple(s, p, q, x)
  {
    NearPair(s, p, q);
    NearPair(s, q, p);
    NearPair(s, p, x);
    NearPair(s, x, p);
    NearPair(s, q, x);
    NearPair(s, x, q);
  }

  lemma NearLock(s: Sys, p: nat, q: nat, l: nat)
    requires Inv(s) && p < |s.procs| && q < |s.procs| && l < |s.lks|
    ensures LockPair(s, p, q, l)
  {
    assert At(s, p, l, WaitLock) && At(s, q, l, WaitLock);
    NearGuard(s, p, q, Lk(l));
    NearOwner(s, s.lks[l].owner);
  }

  lemma NearParent(s: Sys, p: nat, q: nat, i: nat)
    requires Inv(s) && p < |s.procs| && q < |s.procs|
    ensures ParentPair(s, p, q, i)
  {
    assert At(s, p, i, WaitLock) && At(s, q, i, WaitLock);
    NearGuard(s, p, q, WaitLock);
    NearOwner(s, s.waitOwner);
    if i < |s.procs| { NearPair(s, p, i); }
  }

  lemma NearScan(s: Sys, p: nat, q: nat, i: nat)
    requires Inv(s) && p < |s.procs| && q < |s.procs|
    ensures ScanPair(s, p, q, i)
  {
    assert At(s, p, i, WaitLock) && At(s, q, i, WaitLock);
    NearGuard(s, p, q, WaitLock);
    if i < |s.procs| { NearPair(s, p, i); }
  }

  lemma NearWoken(s: Sys, p: nat, q: nat)
    requires Inv(s) && p < |s.procs| && q < |s.procs|
    ensures WokenPair(s, p, q)
  {
    assert At(s, p, 0, WaitLock) && At(s, q, 0, WaitLock);
    NearGuard(s, p, q, WaitLock);
    if 0 <= s.procs[q].parent < |s.procs| { NearPair(s, p, s.procs[q].parent); }
  }
}
