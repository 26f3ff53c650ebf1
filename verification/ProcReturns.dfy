/** What the calls of kernel/proc.c and kernel/sleeplock.c mean when they return, over every
    run of the machine in ProcModel: stated by what a process was doing before a step and
    what the state is after it. */
module ProcReturns {
  import opened ProcModel
  import opened ProcInvariant
  import opened SleepWakeup

  // ------------------------------------------------------------ which call

  /** The call a process is in. */
  datatype Activity = Idle | Acquire(l: nat) | Release(l: nat) | Waiting | Exit | Forking(c: nat) | Yielding

  function CallOf(pc: Pc): Activity {
    match pc
    case User => Idle
    case Acquiring(l) => Acquire(l)
    case Acquired(l) => Acquire(l)
    case Releasing(l) => Release(l)
    case Released(l) => Release(l)
    case Wake(_, _, k) => if k.ThenRelease? then Release(k.l) else Exit
    case Sleep0(g) => Sleeper(g)
    case Sleep1(g) => Sleeper(g)
    case Sleep2(g) => Sleeper(g)
    case Sleep3(g) => Sleeper(g)
    case Sleep4(g) => Sleeper(g)
    case Sleep5(g) => Sleeper(g)
    case Sleep6(g) => Sleeper(g)
    case Scan(_, _) => Waiting
    case Scanned(_) => Waiting
    case WaitDone => Waiting
    case Reparent(_) => Exit
    case WakeParent => Exit
    case LockSelf => Exit
    case Die => Exit
    case LeaveWait => Exit
    case LastSwitch => Exit
    case Dead => Exit
    case Fork1(c) => Forking(c)
    case Fork2(c) => Forking(c)
    case Fork3(c) => Forking(c)
    case Fork4(c) => Forking(c)
    case Yield1 => Yielding
    case Yield2 => Yielding
    case Yield3 => Yielding
    case Start => Yielding
  }

  /** Who sleeps on a guard is acquiring its sleeplock, or waiting for a child. */
  function Sleeper(g: Guard): Activity {
    match g
    case Lk(l) => Acquire(l)
    case WaitLock => Waiting
  }

  function Asked(call: Call): Activity {
    match call
    case CallAcquire(l) => Acquire(l)
    case CallRelease(l) => Release(l)
    case CallWait => Waiting
    case CallExit => Exit
    case CallFork(c) => Forking(c)
    case CallYield => Yielding
  }

  /** Once acquiresleep has the lock it is among those held; once releasesleep has given it
      up it is not. */
  predicate LocalOk(r: Proc) {
    && (r.pc.Acquired? ==> r.pc.l in r.holds)
    && (r.pc.Released? ==> r.pc.l !in r.holds)
    && (r.pc.Wake? && r.pc.k.ThenRelease? ==> r.pc.k.l !in r.holds)
  }

  /** What a return to user code means for the sleeplocks a process holds. */
  predicate Returned(r: Proc, r': Proc) {
    match CallOf(r.pc)
    case Acquire(l) => l in r'.holds
    case Release(l) => l !in r'.holds
    case Exit => false
    case _ => r'.holds == r.holds
  }

  /** A slot before and after a step; `own` says that the step is its process's own, `held`
      that whoever steps holds wait_lock, and `call` what it would ask for.  A process enters
      the call it asks for, stays in it until it returns, and never returns from kexit: only
      an unused slot is started afresh.  Parents change only under wait_lock. */
  predicate Turn(own: bool, held: bool, call: Call, r: Proc, r': Proc) {
    && (LocalOk(r) ==> LocalOk(r') && (r'.pc == User && r.pc != User ==> own && Returned(r, r')))
    && (|| CallOf(r'.pc) == CallOf(r.pc)
        || (r.pc == User && own && CallOf(r'.pc) == Asked(call))
        || (r'.pc == User && own)
        || (r.state == UNUSED && r'.pc == Start))
    && (!own ==> r'.pc == r.pc || (r.state == UNUSED && r'.pc == Start))
    && (!own ==> r'.holds == r.holds) && (!held ==> r'.parent == r.parent)
  }

  predicate HoldsWait(s: Sys, p: nat) {
    p < |s.procs| && HoldsGuard(s.procs[p].pc, WaitLock)
  }

  lemma EnterTurn(s: Sys, t: Sys, p: nat, call: Call, q: nat)
    requires p < |s.procs| && q < |s.procs| && s.procs[p].pc == User && t == Enter(s, p, call)
    ensures Turn(p == q, HoldsWait(s, p), call, s.procs[q], t.procs[q])
  {
    if q != p {
      assert t.procs[q] == s.procs[q] || t.procs[q] == s.procs[q].(state := USED, pc := Start);
    }
  }

  lemma WakeTurns(s: Sys, t: Sys, p: nat, call: Call, q: nat)
    requires p < |s.procs| && q < |s.procs| && s.procs[p].pc.Wake? && t == WakeTurn(s, p, s.procs[p].pc.c, s.procs[p].pc.i, s.procs[p].pc.k)
    ensures Turn(p == q, HoldsWait(s, p), call, s.procs[q], t.procs[q])
  {
  }

  lemma LockTurn(s: Sys, t: Sys, p: nat, call: Call, q: nat)
    requires p < |s.procs| && q < |s.procs| && t == LockStep(s, p)
    ensures Turn(p == q, HoldsWait(s, p), call, s.procs[q], t.procs[q])
  {
    if q != p { assert t.procs[q] == s.procs[q]; }
  }

  lemma OwnSleep(s: Sys, t: Sys, p: nat, call: Call)
    requires p < |s.procs| && t == SleepStep(s, p)
    ensures Turn(true, HoldsWait(s, p), call, s.procs[p], t.procs[p])
  {
    hide Turn; hide HoldsWait; hide GuardFree; hide ChanOf;
    var r, r' := s.procs[p], t.procs[p];
    assert r'.holds == r.holds && r'.parent == r.parent;
    assert r'.pc == r.pc || (CallOf(r'.pc) == CallOf(r.pc) && r'.pc != User && LocalOk(r'));
    hide SleepStep;
    SameCall(HoldsWait(s, p), call, r, r');
  }

  lemma SameCall(held: bool, call: Call, r: Proc, r': Proc)
    requires CallOf(r'.pc) == CallOf(r.pc) && r'.holds == r.holds && r'.parent == r.parent && (r'.pc == r.pc || (r'.pc != User && LocalOk(r')))
    ensures Turn(true, held, call, r, r')
  {
  }

  lemma SleepTurn(s: Sys, t: Sys, p: nat, call: Call, q: nat)
    requires p < |s.procs| && q < |s.procs| && t == SleepStep(s, p)
    ensures Turn(p == q, HoldsWait(s, p), call, s.procs[q], t.procs[q])
  {
    hide Turn;
    if q == p {
      OwnSleep(s, t, p, call);
    } else {
      NoTurn(false, HoldsWait(s, p), call, s.procs[q]);
      assert t.procs[q] == s.procs[q];
    }
  }

  lemma WaitTurn(s: Sys, t: Sys, p: nat, flag: bool, call: Call, q: nat)
    requires p < |s.procs| && q < |s.procs| && t == WaitStep(s, p, flag)
    ensures Turn(p == q, HoldsWait(s, p), call, s.procs[q], t.procs[q])
  {
    if q != p { assert t.procs[q].pc == s.procs[q].pc && t.procs[q].holds == s.procs[q].holds; }
  }

  lemma ExitTurn(s: Sys, t: Sys, p: nat, call: Call, q: nat)
    requires p < |s.procs| && q < |s.procs| && t == ExitStep(s, p)
    ensures Turn(p == q, HoldsWait(s, p), call, s.procs[q], t.procs[q])
  {
  }

  lemma ForkTurn(s: Sys, t: Sys, p: nat, call: Call, q: nat)
    requires p < |s.procs| && q < |s.procs| && t == ForkStep(s, p)
    ensures Turn(p == q, HoldsWait(s, p), call, s.procs[q], t.procs[q])
  {
    if q != p {
      assert t.procs[q].pc == s.procs[q].pc && t.procs[q].holds == s.procs[q].holds;
    }
  }

  lemma YieldTurn(s: Sys, t: Sys, p: nat, call: Call, q: nat)
    requires p < |s.procs| && q < |s.procs| && t == YieldStep(s, p)
    ensures Turn(p == q, HoldsWait(s, p), call, s.procs[q], t.procs[q])
  {
    if q != p { assert t.procs[q] == s.procs[q]; }
  }

  lemma OutsideTurn(s: Sys, t: Sys, a: Step, call: Call, q: nat)
    requires a.p < |s.procs| && q < |s.procs| && t == OutsideStep(s, a)
    ensures Turn(false, false, call, s.procs[q], t.procs[q])
  {
  }

  // ------------------------------------------------------------ parents and children

  predicate Alive(r: Proc) {
    r.state !in {UNUSED, USED, ZOMBIE}
  }

  /** An exiting process has given child i away. */
  predicate GivenAway(pc: Pc, i: nat) {
    match pc
    case Reparent(j) => i < j
    case Wake(_, _, k) => k.ThenDie? || (k.ThenReparent? && i <= k.j)
    case WakeParent => true
    case LockSelf => true
    case Die => true
    case LeaveWait => true
    case LastSwitch => true
    case Dead => true
    case _ => false
  }

  /** kwait has passed slot i without seeing a child so far. */
  predicate PassedNoChild(s: Sys, pc: Pc, i: nat) {
    match pc
    case Scan(k, have) => !have && i < k
    case Scanned(have) => !have
    case _ => false
  }

  /** How process q and slot i are related. */
  predicate Kin(s: Sys, q: nat, i: nat)
    requires q < |s.procs| && i < |s.procs|
  {
    && (s.procs[i].parent == q ==> Alive(s.procs[q]) && !GivenAway(s.procs[q].pc, i) && !PassedNoChild(s, s.procs[q].pc, i))
    && (s.procs[q].pc == Fork3(i) || s.procs[q].pc == Fork4(i) ==> s.procs[i].parent == q)
    && (q == INIT ==> Alive(s.procs[q]) && !Exiting(s.procs[q].pc))
  }

  ghost predicate KinInv(s: Sys) {
    forall q: nat, i: nat :: q < |s.procs| && i < |s.procs| ==> Kin(s, q, i)
  }

  /** What a step of p at q and i may rely on. */
  predicate Near(s: Sys, p: nat, q: nat, i: nat) {
    && GuardPair(s, p, q, WaitLock) && Pair(s, p, i) && Pair(s, q, i) && 0 < |s.procs| && Pair(s, p, INIT)
    && Kin(s, p, i) && Kin(s, q, i) && Kin(s, INIT, i) && Kin(s, q, p)
  }

  lemma IsNear(s: Sys, p: nat, q: nat, i: nat)
    requires Inv(s) && KinInv(s) && p < |s.procs| && q < |s.procs| && i < |s.procs|
    ensures Near(s, p, q, i)
  {
    hide Inv; hide KinInv;
    NearGuard(s, p, q, WaitLock);
    NearPair(s, p, i);
    NearPair(s, q, i);
    NearPair(s, p, INIT);
    KinAt(s, p, i);
    KinAt(s, q, i);
    KinAt(s, INIT, i);
    KinAt(s, q, p);
  }

  lemma KinAt(s: Sys, q: nat, i: nat)
    requires KinInv(s) && q < |s.procs| && i < |s.procs|
    ensures Kin(s, q, i)
  {
  }

  lemma EnterKin(s: Sys, t: Sys, p: nat, call: Call, q: nat, i: nat)
    requires p < |s.procs| && q < |s.procs| && i < |s.procs| && Near(s, p, q, i) && s.procs[p].onCpu && s.procs[p].pc == User && t == Enter(s, p, call)
    ensures Kin(t, q, i)
  {
    hide SlotOk; hide GuardAt; hide ForkOk;
  }

  lemma WakeKin(s: Sys, t: Sys, p: nat, q: nat, i: nat)
    requires p < |s.procs| && q < |s.procs| && i < |s.procs| && Near(s, p, q, i) && s.procs[p].onCpu && s.procs[p].pc.Wake?
    requires t == WakeTurn(s, p, s.procs[p].pc.c, s.procs[p].pc.i, s.procs[p].pc.k)
    ensures Kin(t, q, i)
  {
    hide SlotOk; hide GuardAt; hide ForkOk;
  }

  lemma LockKin(s: Sys, t: Sys, p: nat, q: nat, i: nat)
    requires p < |s.procs| && q < |s.procs| && i < |s.procs| && Near(s, p, q, i) && s.procs[p].onCpu && t == LockStep(s, p)
    ensures Kin(t, q, i)
  {
    hide SlotOk; hide GuardAt; hide ForkOk;
  }

  lemma SleepKin(s: Sys, t: Sys, p: nat, q: nat, i: nat)
    requires p < |s.procs| && q < |s.procs| && i < |s.procs| && Near(s, p, q, i) && s.procs[p].onCpu && t == SleepStep(s, p)
    ensures Kin(t, q, i)
  {
    hide SlotOk; hide GuardAt; hide ForkOk;
    assert t.procs[i].parent == s.procs[i].parent;
    if q != p {
      assert t.procs[q] == s.procs[q];
    } else {
      hide GuardFree; hide ChanOf;
    }
  }

  lemma ScanKin(s: Sys, t: Sys, p: nat, flag: bool, q: nat, i: nat)
    requires p < |s.procs| && q < |s.procs| && i < |s.procs| && Near(s, p, q, i) && s.procs[p].onCpu && s.procs[p].pc.Scan?
    requires t == ScanTurn(s, p, s.procs[p].pc.i, s.procs[p].pc.have, flag)
    ensures Kin(t, q, i)
  {
    hide SlotOk; hide GuardAt; hide ForkOk;
    if q != p {
      assert t.procs[q].pc == s.procs[q].pc && (t.procs[i].parent == q ==> s.procs[i].parent == q);
    }
  }

  lemma WaitKin(s: Sys, t: Sys, p: nat, flag: bool, q: nat, i: nat)
    requires p < |s.procs| && q < |s.procs| && i < |s.procs| && Near(s, p, q, i) && s.procs[p].onCpu && t == WaitStep(s, p, flag)
    ensures Kin(t, q, i)
  {
    hide SlotOk; hide GuardAt; hide ForkOk; hide ScanTurn;
    if s.procs[p].pc.Scan? {
      hide Kin; hide Near;
      ScanKin(s, t, p, flag, q, i);
    }
  }

  lemma ReparentKin(s: Sys, t: Sys, p: nat, q: nat, i: nat)
    requires p < |s.procs| && q < |s.procs| && i < |s.procs| && Near(s, p, q, i) && s.procs[p].onCpu && s.procs[p].pc.Reparent?
    requires t == ReparentTurn(s, p, s.procs[p].pc.j)
    ensures Kin(t, q, i)
  {
    hide SlotOk; hide ForkOk;
    var j := s.procs[p].pc.j;
    if j < |s.procs| && s.procs[j].parent == p {
      hide Kin; hide Near;
      HandOverKin(s, t, p, j, q, i);
    }
  }

  /** An exiting process hands child j over to init. */
  lemma HandOverKin(s: Sys, t: Sys, p: nat, j: nat, q: nat, i: nat)
    requires p < |s.procs| && q < |s.procs| && i < |s.procs| && Near(s, p, q, i) && s.procs[p].onCpu && s.procs[p].pc == Reparent(j) && j < |s.procs| && s.procs[j].parent == p
    requires t == Goto(Put(s, j, s.procs[j].(parent := INIT)), p, Wake(OnProc(INIT), 0, ThenReparent(j)))
    ensures Kin(t, q, i)
  {
    hide SlotOk; hide ForkOk;
    if q != p { assert CallOf(t.procs[q].pc) == CallOf(s.procs[q].pc); }
  }

  lemma ExitKin(s: Sys, t: Sys, p: nat, q: nat, i: nat)
    requires p < |s.procs| && q < |s.procs| && i < |s.procs| && Near(s, p, q, i) && s.procs[p].onCpu && t == ExitStep(s, p)
    ensures Kin(t, q, i)
  {
    hide SlotOk; hide ForkOk; hide ReparentTurn;
    if s.procs[p].pc.Reparent? {
      hide Kin; hide Near;
      ReparentKin(s, t, p, q, i);
    }
  }

  /** kfork makes p the parent of c. */
  lemma AdoptKin(s: Sys, t: Sys, p: nat, c: nat, q: nat, i: nat)
    requires p < |s.procs| && c < |s.procs| && q < |s.procs| && i < |s.procs| && Near(s, p, q, i) && s.procs[p].onCpu && s.procs[p].pc == Fork2(c)
    requires t == Goto(Put(s, c, s.procs[c].(parent := p)), p, Fork3(c))
    ensures Kin(t, q, i)
  {
  }

  lemma ForkKin(s: Sys, t: Sys, p: nat, q: nat, i: nat)
    requires p < |s.procs| && q < |s.procs| && i < |s.procs| && Near(s, p, q, i) && s.procs[p].onCpu && t == ForkStep(s, p)
    ensures Kin(t, q, i)
  {
    hide GuardAt;
    if s.procs[p].pc.Fork2? && s.procs[p].pc.kid < |s.procs| {
      hide Kin; hide Near;
      AdoptKin(s, t, p, s.procs[p].pc.kid, q, i);
    }
  }

  lemma YieldKin(s: Sys, t: Sys, p: nat, q: nat, i: nat)
    requires p < |s.procs| && q < |s.procs| && i < |s.procs| && Near(s, p, q, i) && s.procs[p].onCpu && t == YieldStep(s, p)
    ensures Kin(t, q, i)
  {
    hide SlotOk; hide GuardAt; hide ForkOk;
  }

  lemma OutsideKin(s: Sys, t: Sys, a: Step, q: nat, i: nat)
    requires a.p < |s.procs| && q < |s.procs| && i < |s.procs| && Near(s, a.p, q, i) && t == OutsideStep(s, a)
    ensures Kin(t, q, i)
  {
    hide SlotOk; hide GuardAt; hide ForkOk;
  }

  // ------------------------------------------------------------ every step, every run

  predicate StepOf(a: Step, q: nat) {
    a.Run? && a.p == q
  }

  function CallIn(a: Step): Call {
    if a.Run? then a.call else CallYield
  }

  lemma StepTurn(s: Sys, a: Step, q: nat)
    requires Inv(s) && q < |s.procs|
    ensures Turn(StepOf(a, q), a.Run? && HoldsWait(s, a.p), CallIn(a), s.procs[q], Do(s, a).procs[q])
  {
    hide Inv; hide Turn;
    hide Enter; hide WakeTurn; hide LockStep; hide SleepStep; hide WaitStep; hide ExitStep; hide ForkStep; hide YieldStep; hide OutsideStep;
    if a.p >= |s.procs| || (a.Run? && !s.procs[a.p].onCpu) {
      NoTurn(StepOf(a, q), a.Run? && HoldsWait(s, a.p), CallIn(a), s.procs[q]);
    } else {
      var t := Do(s, a);
      match a
      case Run(p, call, flag) =>
        match s.procs[p].pc {
          case User => EnterTurn(s, t, p, call, q);
          case Wake(_, _, _) => WakeTurns(s, t, p, call, q);
          case Acquiring(_) | Acquired(_) | Releasing(_) | Released(_) => LockTurn(s, t, p, call, q);
          case Sleep0(_) | Sleep1(_) | Sleep2(_) | Sleep3(_) | Sleep4(_) | Sleep5(_) | Sleep6(_) => SleepTurn(s, t, p, call, q);
          case Scan(_, _) | Scanned(_) | WaitDone => WaitTurn(s, t, p, flag, call, q);
          case Reparent(_) | WakeParent | LockSelf | Die | LeaveWait | LastSwitch => ExitTurn(s, t, p, call, q);
          case Fork1(_) | Fork2(_) | Fork3(_) | Fork4(_) => ForkTurn(s, t, p, call, q);
          case _ => YieldTurn(s, t, p, call, q);
        }
      case _ => OutsideTurn(s, t, a, CallIn(a), q);
    }
  }

  lemma NoTurn(own: bool, held: bool, call: Call, r: Proc)
    ensures Turn(own, held, call, r, r)
  {
  }

  lemma StepKin(s: Sys, a: Step, q: nat, i: nat)
    requires Inv(s) && KinInv(s) && q < |s.procs| && i < |s.procs|
    ensures Kin(Do(s, a), q, i)
  {
    hide Inv; hide Kin; hide Near; hide KinInv;
    hide Enter; hide WakeTurn; hide LockStep; hide SleepStep; hide WaitStep; hide ExitStep; hide ForkStep; hide YieldStep; hide OutsideStep;
    if a.p >= |s.procs| || (a.Run? && !s.procs[a.p].onCpu) {
      KinAt(s, q, i);
    } else {
      IsNear(s, a.p, q, i);
      var t := Do(s, a);
      match a
      case Run(p, call, flag) =>
        match s.procs[p].pc {
          case User => EnterKin(s, t, p, call, q, i);
          case Wake(_, _, _) => WakeKin(s, t, p, q, i);
          case Acquiring(_) | Acquired(_) | Releasing(_) | Released(_) => LockKin(s, t, p, q, i);
          case Sleep0(_) | Sleep1(_) | Sleep2(_) | Sleep3(_) | Sleep4(_) | Sleep5(_) | Sleep6(_) => SleepKin(s, t, p, q, i);
          case Scan(_, _) | Scanned(_) | WaitDone => WaitKin(s, t, p, flag, q, i);
          case Reparent(_) | WakeParent | LockSelf | Die | LeaveWait | LastSwitch => ExitKin(s, t, p, q, i);
          case Fork1(_) | Fork2(_) | Fork3(_) | Fork4(_) => ForkKin(s, t, p, q, i);
          case _ => YieldKin(s, t, p, q, i);
        }
      case _ => OutsideKin(s, t, a, q, i);
    }
  }

  // ------------------------------------------------------------ kwait and kfork

  ghost predicate HasChild(s: Sys, q: nat) {
    exists i: nat :: i < |s.procs| && s.procs[i].parent == q
  }

  /** kwait has seen a child, and still holds wait_lock. */
  predicate SawChild(pc: Pc) {
    match pc
    case Scan(_, have) => have
    case Scanned(have) => have
    case Sleep0(g) => g == WaitLock
    case Sleep1(g) => g == WaitLock
    case _ => false
  }

  ghost predicate SeenOk(s: Sys, q: nat)
    requires q < |s.procs|
  {
    SawChild(s.procs[q].pc) ==> HasChild(s, q)
  }

  lemma SeenKept(s: Sys, a: Step, q: nat)
    requires Inv(s) && q < |s.procs| && SeenOk(s, q)
    ensures SeenOk(Do(s, a), q)
  {
    var t := Do(s, a);
    if SawChild(t.procs[q].pc) {
      StepTurn(s, a, q);
      if StepOf(a, q) {
        OwnSeen(s, a, q);
      } else {
        NearPair(s, q, q);
        assert s.procs[q].pc == t.procs[q].pc;
        var i: nat :| i < |s.procs| && s.procs[i].parent == q;
        if HoldsWait(s, a.p) { NearGuard(s, a.p, q, WaitLock); }
        StepTurn(s, a, i);
        assert t.procs[i].parent == q;
      }
    }
  }

  lemma OwnSeen(s: Sys, a: Step, q: nat)
    requires Inv(s) && q < |s.procs| && StepOf(a, q) && SeenOk(s, q) && SawChild(Do(s, a).procs[q].pc)
    ensures HasChild(Do(s, a), q)
  {
    StepTurn(s, a, q);
    hide Inv; hide Enter; hide WakeTurn; hide LockStep; hide SleepStep; hide WaitStep; hide ExitStep; hide ForkStep; hide YieldStep; hide HasChild;
    var t := Do(s, a);
    if s.procs[q].onCpu {
      match s.procs[q].pc
      case User => EntersUnseen(s, t, q, a.call);
      case Scan(_, _) | Scanned(_) | WaitDone => WaitSeen(s, t, q, a.flag);
      case Sleep0(_) | Sleep1(_) | Sleep2(_) | Sleep3(_) | Sleep4(_) | Sleep5(_) | Sleep6(_) => SleepSeen(s, t, q);
      case _ =>
    }
  }

  lemma EntersUnseen(s: Sys, t: Sys, q: nat, call: Call)
    requires q < |s.procs| && s.procs[q].pc == User && t == Enter(s, q, call)
    ensures !SawChild(t.procs[q].pc)
  {
  }

  lemma WaitSeen(s: Sys, t: Sys, q: nat, flag: bool)
    requires q < |s.procs| && SeenOk(s, q) && t == WaitStep(s, q, flag)
    ensures SawChild(t.procs[q].pc) ==> HasChild(t, q)
  {
    if SawChild(t.procs[q].pc) {
      if SawChild(s.procs[q].pc) {
        var i: nat :| i < |s.procs| && s.procs[i].parent == q;
        assert t.procs[i].parent == q;
      } else {
        assert t.procs[s.procs[q].pc.i].parent == q;
      }
    }
  }

  lemma SleepSeen(s: Sys, t: Sys, q: nat)
    requires q < |s.procs| && SeenOk(s, q) && t == SleepStep(s, q)
    ensures SawChild(t.procs[q].pc) ==> HasChild(t, q)
  {
    if SawChild(t.procs[q].pc) {
      var i: nat :| i < |s.procs| && s.procs[i].parent == q;
      assert t.procs[i].parent == q;
    }
  }


  ghost predicate LocalInv(s: Sys) {
    forall q: nat :: q < |s.procs| ==> LocalOk(s.procs[q])
  }

  ghost predicate SeenInv(s: Sys) {
    forall q: nat :: q < |s.procs| ==> SeenOk(s, q)
  }

  /** Everything above, in every reachable state. */
  ghost predicate AllInv(s: Sys) {
    Inv(s) && LocalInv(s) && KinInv(s) && SeenInv(s)
  }

  lemma StepKeepsAll(s: Sys, a: Step)
    requires AllInv(s)
    ensures AllInv(Do(s, a))
  {
    StepKeeps(s, a);
    forall q: nat | q < |Do(s, a).procs| ensures LocalOk(Do(s, a).procs[q]) {
      hide Inv;
      StepTurn(s, a, q);
    }
    forall q: nat, i: nat | q < |Do(s, a).procs| && i < |Do(s, a).procs| ensures Kin(Do(s, a), q, i) {
      hide Inv; hide Kin;
      StepKin(s, a, q, i);
    }
    forall q: nat | q < |Do(s, a).procs| ensures SeenOk(Do(s, a), q) {
      hide Inv;
      SeenKept(s, a, q);
    }
  }

  lemma {:induction false} RunKeepsAll(s: Sys, steps: seq<Step>)
    requires AllInv(s)
    ensures AllInv(RunOf(s, steps))
    decreases |steps|
  {
    hide AllInv;
    if steps != [] {
      StepKeepsAll(s, steps[0]);
      RunKeepsAll(Do(s, steps[0]), steps[1..]);
    }
  }

  lemma ReachedAll(boot: Sys, steps: seq<Step>)
    requires Boot(boot)
    ensures AllInv(RunOf(boot, steps))
  {
    BootInv(boot);
    hide Inv;
    RunKeepsAll(boot, steps);
  }

  // ------------------------------------------------------------ what returns mean

  /** A process is in the call it asked for until it returns from it, by a step of its own;
      kexit does not return. */
  lemma CallsAreKept(boot: Sys, steps: seq<Step>, a: Step, p: nat)
    requires Boot(boot)
    ensures var s := RunOf(boot, steps); var t := Do(s, a);
      p < |s.procs| ==>
        || CallOf(t.procs[p].pc) == CallOf(s.procs[p].pc)
        || (s.procs[p].pc == User && StepOf(a, p) && CallOf(t.procs[p].pc) == Asked(CallIn(a)))
        || (t.procs[p].pc == User && StepOf(a, p) && CallOf(s.procs[p].pc) != Exit)
        || (s.procs[p].state == UNUSED && t.procs[p].pc == Start)
  {
    ReachedAll(boot, steps);
    hide Inv; hide KinInv;
    var s := RunOf(boot, steps);
    if p < |s.procs| { StepTurn(s, a, p); }
  }

  /** acquiresleep returns with the lock: the process holds it, and the lock says so. */
  lemma AcquireReturns(boot: Sys, steps: seq<Step>, a: Step, p: nat, l: nat)
    requires Boot(boot)
    ensures var s := RunOf(boot, steps); var t := Do(s, a);
      p < |s.procs| && CallOf(s.procs[p].pc) == Acquire(l) && t.procs[p].pc == User ==>
        l in t.procs[p].holds && l < |t.lks| && t.lks[l].locked && t.lks[l].pid == p
  {
    ReachedAll(boot, steps);
    var s := RunOf(boot, steps);
    StepKeeps(s, a);
    if p < |s.procs| {
      NearHeld(Do(s, a), p, p, l);
      hide Inv; hide KinInv;
      StepTurn(s, a, p);
    }
  }

  /** releasesleep returns without it. */
  lemma ReleaseReturns(boot: Sys, steps: seq<Step>, a: Step, p: nat, l: nat)
    requires Boot(boot)
    ensures var s := RunOf(boot, steps); var t := Do(s, a);
      p < |s.procs| && CallOf(s.procs[p].pc) == Release(l) && t.procs[p].pc == User ==>
        l !in t.procs[p].holds && !(l < |t.lks| && t.lks[l].locked && t.lks[l].pid == p)
  {
    ReachedAll(boot, steps);
    var s := RunOf(boot, steps);
    StepKeeps(s, a);
    if p < |s.procs| {
      NearHeld(Do(s, a), p, p, l);
      hide Inv; hide KinInv;
      StepTurn(s, a, p);
    }
  }

  /** No child is an orphan: in every reachable state the parent of a process is alive, and
      init always is. */
  lemma NoOrphans(boot: Sys, steps: seq<Step>, i: nat)
    requires Boot(boot)
    ensures var s := RunOf(boot, steps);
      && |s.procs| > 0 && Alive(s.procs[INIT])
      && (i < |s.procs| && 0 <= s.procs[i].parent < |s.procs| ==> Alive(s.procs[s.procs[i].parent]))
  {
    ReachedAll(boot, steps);
    hide Inv;
    var s := RunOf(boot, steps);
    RunSize(boot, steps);
    KinAt(s, INIT, INIT);
    if i < |s.procs| && 0 <= s.procs[i].parent < |s.procs| { KinAt(s, s.procs[i].parent, i); }
  }

  /** kwait decides to return in one of three ways: it has freed a child that was a zombie;
      it was told to give up (killed, or the copy of the status failed); or it has no child. */
  lemma WaitReturns(boot: Sys, steps: seq<Step>, a: Step, p: nat)
    requires Boot(boot)
    ensures var s := RunOf(boot, steps); var t := Do(s, a);
      p < |s.procs| && CallOf(s.procs[p].pc) == Waiting && s.procs[p].pc != WaitDone && t.procs[p].pc == WaitDone ==>
        || (exists i: nat :: i < |s.procs| && FreedChild(s, t, p, i))
        || (a.Run? && a.flag)
        || !HasChild(s, p)
  {
    ReachedAll(boot, steps);
    var s := RunOf(boot, steps);
    var t := Do(s, a);
    if p < |s.procs| && CallOf(s.procs[p].pc) == Waiting && s.procs[p].pc != WaitDone && t.procs[p].pc == WaitDone {
      StepTurn(s, a, p);
      forall i: nat | i < |s.procs| ensures Kin(s, p, i) {
        KinAt(s, p, i);
      }
      hide Inv; hide KinInv;
      WaitDecides(s, t, a, p);
    }
  }

  /** The step frees slot i, a zombie child of p. */
  predicate FreedChild(s: Sys, t: Sys, p: nat, i: nat)
    requires i < |s.procs| && i < |t.procs|
  {
    s.procs[i].parent == p && s.procs[i].state == ZOMBIE && t.procs[i].state == UNUSED && t.procs[i].frees == s.procs[i].frees + 1
  }

  lemma WaitDecides(s: Sys, t: Sys, a: Step, p: nat)
    requires p < |s.procs| && StepOf(a, p) && t == Do(s, a) && CallOf(s.procs[p].pc) == Waiting && s.procs[p].pc != WaitDone && t.procs[p].pc == WaitDone
    requires forall i: nat :: i < |s.procs| ==> Kin(s, p, i)
    ensures (exists i: nat :: i < |s.procs| && FreedChild(s, t, p, i)) || a.flag || !HasChild(s, p)
  {
    match s.procs[p].pc
    case Scan(i, _) => assert !a.flag ==> FreedChild(s, t, p, i);
    case Scanned(_) =>
      forall i: nat | i < |s.procs| && !a.flag ensures s.procs[i].parent != p {
        assert Kin(s, p, i);
      }
    case _ =>
  }

  /** A process that goes to sleep in kwait has a child to wait for. */
  lemma WaitSleepsForChild(boot: Sys, steps: seq<Step>, p: nat)
    requires Boot(boot)
    ensures var s := RunOf(boot, steps); p < |s.procs| && s.procs[p].pc == Sleep1(WaitLock) ==> HasChild(s, p)
  {
    ReachedAll(boot, steps);
    hide Inv; hide KinInv; hide LocalInv;
    var s := RunOf(boot, steps);
    assert p < |s.procs| ==> SeenOk(s, p);
  }

  /** kfork returns with a runnable child of the caller, in the slot it had set up. */
  lemma ForkReturns(boot: Sys, steps: seq<Step>, a: Step, p: nat, c: nat)
    requires Boot(boot)
    ensures var s := RunOf(boot, steps); var t := Do(s, a);
      p < |s.procs| && CallOf(s.procs[p].pc) == Forking(c) && t.procs[p].pc == User ==>
        c < |t.procs| && s.procs[c].state == USED && t.procs[c].state == RUNNABLE && t.procs[c].parent == p
  {
    ReachedAll(boot, steps);
    var s := RunOf(boot, steps);
    var t := Do(s, a);
    if p < |s.procs| && CallOf(s.procs[p].pc) == Forking(c) && t.procs[p].pc == User {
      StepTurn(s, a, p);
      NearPair(s, p, p);
      if c < |s.procs| { KinAt(s, p, c); }
      hide Inv; hide KinInv;
    }
  }

  // ------------------------------------------------------------ steps do something

  /** A lock that p's next step needs is taken. */
  predicate Awaits(s: Sys, p: nat)
    requires p < |s.procs|
  {
    match s.procs[p].pc
    case Sleep6(g) => !GuardFree(s, g)
    case Wake(_, i, _) => i < |s.procs| && i != p && s.procs[i].lock != Free
    case Scan(i, _) => i < |s.procs| && s.procs[i].parent == p && s.procs[i].lock != Free
    case Fork1(_) => s.waitOwner != NOBODY
    case Fork4(c) => c < |s.procs| && s.procs[c].lock != Free
    case _ => false
  }

  /** What the caller of a system call must bring, and the lock it begins with. */
  predicate Admissible(s: Sys, p: nat, call: Call)
    requires p < |s.procs|
  {
    match call
    case CallAcquire(l) => GuardFree(s, Lk(l))
    case CallRelease(l) => GuardFree(s, Lk(l)) && l in s.procs[p].holds
    case CallWait => s.waitOwner == NOBODY
    case CallExit => s.waitOwner == NOBODY && p != INIT && s.procs[p].holds == {}
    case CallFork(c) => c < |s.procs| && s.procs[c].state == UNUSED && s.procs[c].lock == Free
    case CallYield => true
  }

  /** p's step to t gets it somewhere, or a lock it needs is taken. */
  predicate Moved(s: Sys, t: Sys, p: nat)
    requires p < |s.procs| && p < |t.procs|
  {
    t.procs[p].pc == s.procs[p].pc ==> Awaits(s, p)
  }

  lemma EnterMoves(s: Sys, t: Sys, p: nat, call: Call)
    requires p < |s.procs| && Pair(s, p, p) && s.procs[p].onCpu && s.procs[p].pc == User && Admissible(s, p, call) && t == Enter(s, p, call)
    ensures t.procs[p].pc != User
  {
    hide ForkOk;
  }

  lemma WakeMoves(s: Sys, t: Sys, p: nat)
    requires p < |s.procs| && s.procs[p].pc.Wake? && t == WakeTurn(s, p, s.procs[p].pc.c, s.procs[p].pc.i, s.procs[p].pc.k)
    ensures Moved(s, t, p)
  {
  }

  lemma LockMoves(s: Sys, t: Sys, p: nat)
    requires p < |s.procs| && t == LockStep(s, p)
    requires s.procs[p].pc.Acquired? || s.procs[p].pc.Released? || (s.procs[p].pc.Acquiring? && s.procs[p].pc.l < |s.lks|) || (s.procs[p].pc.Releasing? && s.procs[p].pc.l < |s.lks|)
    ensures Moved(s, t, p)
  {
  }

  lemma SleepMoves(s: Sys, t: Sys, p: nat)
    requires p < |s.procs| && Pair(s, p, p) && s.procs[p].onCpu && t == SleepStep(s, p)
    requires s.procs[p].pc.Sleep0? || s.procs[p].pc.Sleep1? || s.procs[p].pc.Sleep2? || s.procs[p].pc.Sleep3? || s.procs[p].pc.Sleep4? || s.procs[p].pc.Sleep5? || s.procs[p].pc.Sleep6?
    ensures Moved(s, t, p)
  {
    hide GuardAt; hide ForkOk;
  }

  lemma WaitMoves(s: Sys, t: Sys, p: nat, flag: bool)
    requires p < |s.procs| && Pair(s, p, p) && s.procs[p].onCpu && t == WaitStep(s, p, flag)
    requires s.procs[p].pc.Scan? || s.procs[p].pc.Scanned? || s.procs[p].pc.WaitDone?
    ensures Moved(s, t, p)
  {
    hide SlotOk; hide GuardAt; hide ForkOk;
  }

  lemma ExitMoves(s: Sys, t: Sys, p: nat)
    requires p < |s.procs| && Pair(s, p, p) && s.procs[p].onCpu && t == ExitStep(s, p)
    requires s.procs[p].pc.Reparent? || s.procs[p].pc.WakeParent? || s.procs[p].pc.LockSelf? || s.procs[p].pc.Die? || s.procs[p].pc.LeaveWait? || s.procs[p].pc.LastSwitch?
    ensures Moved(s, t, p)
  {
    hide GuardAt; hide ForkOk;
  }

  lemma ForkMoves(s: Sys, t: Sys, p: nat)
    requires p < |s.procs| && Pair(s, p, p) && s.procs[p].onCpu && t == ForkStep(s, p)
    requires s.procs[p].pc.Fork1? || s.procs[p].pc.Fork2? || s.procs[p].pc.Fork3? || s.procs[p].pc.Fork4?
    ensures Moved(s, t, p)
  {
    hide SlotOk; hide GuardAt;
  }

  lemma YieldMoves(s: Sys, t: Sys, p: nat)
    requires p < |s.procs| && Pair(s, p, p) && s.procs[p].onCpu && t == YieldStep(s, p)
    requires s.procs[p].pc.Yield1? || s.procs[p].pc.Yield2? || s.procs[p].pc.Yield3? || s.procs[p].pc.Start?
    ensures Moved(s, t, p)
  {
    hide SlotOk; hide GuardAt; hide ForkOk;
  }

  lemma StepMoves(s: Sys, a: Step, p: nat)
    requires Inv(s) && p < |s.procs| && s.procs[p].onCpu && StepOf(a, p)
    ensures var t := Do(s, a); if s.procs[p].pc == User then Admissible(s, p, a.call) ==> t.procs[p].pc != User else Moved(s, t, p)
  {
    NearPair(s, p, p);
    hide Inv; hide Pair; hide Admissible; hide Moved;
    hide Enter; hide WakeTurn; hide LockStep; hide SleepStep; hide WaitStep; hide ExitStep; hide ForkStep; hide YieldStep;
    var t := Do(s, a);
    match s.procs[p].pc
    case User => if Admissible(s, p, a.call) { EnterMoves(s, t, p, a.call); }
    case Wake(_, _, _) => WakeMoves(s, t, p);
    case Acquiring(l) => GuardExists(s, p, l); LockMoves(s, t, p);
    case Releasing(l) => GuardExists(s, p, l); LockMoves(s, t, p);
    case Acquired(_) | Released(_) => LockMoves(s, t, p);
    case Sleep0(_) | Sleep1(_) | Sleep2(_) | Sleep3(_) | Sleep4(_) | Sleep5(_) | Sleep6(_) => SleepMoves(s, t, p);
    case Scan(_, _) | Scanned(_) | WaitDone => WaitMoves(s, t, p, a.flag);
    case Reparent(_) | WakeParent | LockSelf | Die | LeaveWait | LastSwitch => ExitMoves(s, t, p);
    case Fork1(_) | Fork2(_) | Fork3(_) | Fork4(_) => ForkMoves(s, t, p);
    case Yield1 | Yield2 | Yield3 | Start => YieldMoves(s, t, p);
    case Dead => DeadIsOff(s, p);
  }

  /** A running process in the kernel moves on with every step unless a lock it needs is
      taken, and an admissible call is entered: nothing stands still by itself. */
  lemma MovesOn(boot: Sys, steps: seq<Step>, a: Step, p: nat)
    requires Boot(boot)
    ensures var s := RunOf(boot, steps); var t := Do(s, a);
      p < |s.procs| && s.procs[p].onCpu && StepOf(a, p) && t.procs[p].pc == s.procs[p].pc ==>
        if s.procs[p].pc == User then !Admissible(s, p, a.call) else Awaits(s, p)
  {
    Reached(boot, steps);
    var s := RunOf(boot, steps);
    hide Inv; hide Awaits; hide Admissible; hide RunStep;
    if p < |s.procs| && s.procs[p].onCpu && StepOf(a, p) { StepMoves(s, a, p); }
  }

  lemma GuardExists(s: Sys, p: nat, l: nat)
    requires Inv(s) && p < |s.procs| && HoldsGuard(s.procs[p].pc, Lk(l))
    ensures l < |s.lks|
  {
    NearGuard(s, p, p, Lk(l));
  }

  lemma DeadIsOff(s: Sys, p: nat)
    requires p < |s.procs| && Pair(s, p, p)
    ensures s.procs[p].pc == Dead ==> !s.procs[p].onCpu
  {
  }

  /** Only a kill, or a wakeup on the very channel, ends a sleep. */
  lemma OnlyWokenByChannel(s: Sys, a: Step, q: nat)
    requires Inv(s) && q < |s.procs| && s.procs[q].state == SLEEPING && Do(s, a).procs[q].state != SLEEPING
    ensures a == Kill(q) || (a.Run? && a.p < |s.procs| && s.procs[a.p].pc.Wake? && s.procs[a.p].pc.c == s.procs[q].chan && s.procs[a.p].pc.i == q)
  {
    if a.p < |s.procs| && a.Run? && !s.procs[a.p].pc.Wake? {
      NearPair(s, a.p, q);
      hide Inv; hide RunStep;
      NotWoken(s, a.p, a.call, a.flag, q);
    } else {
      hide Inv;
    }
  }

  lemma NotWoken(s: Sys, p: nat, call: Call, flag: bool, q: nat)
    requires Pair(s, p, q) && !s.procs[p].pc.Wake? && s.procs[q].state == SLEEPING
    ensures RunStep(s, p, call, flag).procs[q].state == SLEEPING
  {
    if p != q {
      hide PlaceOk;
    }
  }

  /** A kill wakes, a scheduler runs and lets go, whenever p->lock allows it. */
  lemma OutsideActs(s: Sys, p: nat)
    requires p < |s.procs|
    ensures Do(s, Unlock(p)).procs[p].lock != Scheduler
    ensures s.procs[p].lock == Free ==> Do(s, Kill(p)).procs[p].state != SLEEPING
    ensures s.procs[p].lock == Free ==> Do(s, Dispatch(p)).procs[p].state != RUNNABLE
    ensures s.procs[p].state == RUNNABLE && s.procs[p].lock == Free ==> Do(s, Dispatch(p)).procs[p].onCpu
  {
  }
}
