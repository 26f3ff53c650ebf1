/** Every kind of step keeps every part of the invariant. */
module ProcSteps {
  import opened ProcModel
  import opened ProcInvariant

  // ------------------------------------------------------------ entering a system call

  lemma EnterSlot(s: Sys, t: Sys, p: nat, call: Call, q: nat)
    requires Inv(s) && p < |s.procs| && q < |s.procs| && s.procs[p].onCpu && s.procs[p].pc == User && t == Enter(s, p, call)
    ensures SlotOk(q, t.procs[q]) && FreedFrom(s.procs[q], t.procs[q])
  {
    hide Inv; hide ForkOk;
    NearPair(s, p, q);
  }

  lemma EnterGuard(s: Sys, t: Sys, p: nat, call: Call, q: nat, g: Guard)
    requires Inv(s) && p < |s.procs| && q < |s.procs| && s.procs[p].onCpu && s.procs[p].pc == User && t == Enter(s, p, call)
    ensures GuardAt(t, q, g)
  {
    hide Inv; hide ForkOk;
    NearGuard(s, p, q, g);
  }

  lemma EnterHeld(s: Sys, t: Sys, p: nat, call: Call, q: nat, l: nat)
    requires Inv(s) && p < |s.procs| && q < |s.procs| && s.procs[p].onCpu && s.procs[p].pc == User && t == Enter(s, p, call)
    ensures InRange(t, l) && HeldBy(t, q, l)
  {
    hide Inv; hide SlotOk; hide ForkOk;
    NearHeld(s, p, q, l);
  }

  lemma EnterFork(s: Sys, t: Sys, p: nat, call: Call, q: nat, x: nat)
    requires Inv(s) && p < |s.procs| && q < |s.procs| && x < |s.procs| && s.procs[p].onCpu && s.procs[p].pc == User && t == Enter(s, p, call)
    ensures ForkOk(t, q, x)
  {
    hide Inv;
    NearFork(s, p, q, x);
  }

  lemma EnterLockWakes(s: Sys, t: Sys, p: nat, call: Call, q: nat, l: nat)
    requires Inv(s) && p < |s.procs| && q < |s.procs| && l < |s.lks| && s.procs[p].onCpu && s.procs[p].pc == User && t == Enter(s, p, call)
    ensures LockWakes(t, q, l)
  {
    hide Inv; hide ForkOk;
    NearLock(s, p, q, l);
  }

  lemma EnterParentWakes(s: Sys, t: Sys, p: nat, call: Call, q: nat, i: nat)
    requires Inv(s) && p < |s.procs| && q < |s.procs| && s.procs[p].onCpu && s.procs[p].pc == User && t == Enter(s, p, call)
    ensures ParentWakes(t, q, i)
  {
    hide Inv; hide ForkOk;
    NearParent(s, p, q, i);
  }

  lemma EnterScan(s: Sys, t: Sys, p: nat, call: Call, q: nat, i: nat)
    requires Inv(s) && p < |s.procs| && q < |s.procs| && s.procs[p].onCpu && s.procs[p].pc == User && t == Enter(s, p, call)
    ensures ScanMissesNone(t, q, i)
  {
    hide Inv; hide SlotOk; hide ForkOk;
    NearScan(s, p, q, i);
  }

  lemma EnterWoken(s: Sys, t: Sys, p: nat, call: Call, q: nat)
    requires Inv(s) && p < |s.procs| && q < |s.procs| && s.procs[p].onCpu && s.procs[p].pc == User && t == Enter(s, p, call)
    ensures ParentWoken(t, q)
  {
    hide Inv; hide SlotOk; hide ForkOk;
    NearWoken(s, p, q);
  }

  // ------------------------------------------------------------ wakeup

  lemma WakeSlot(s: Sys, t: Sys, p: nat, q: nat)
    requires Inv(s) && p < |s.procs| && q < |s.procs| && s.procs[p].onCpu && s.procs[p].pc.Wake? && t == WakeTurn(s, p, s.procs[p].pc.c, s.procs[p].pc.i, s.procs[p].pc.k)
    ensures SlotOk(q, t.procs[q]) && FreedFrom(s.procs[q], t.procs[q])
  {
    hide Inv; hide ForkOk;
    NearPair(s, p, q);
  }

  lemma WakeGuard(s: Sys, t: Sys, p: nat, q: nat, g: Guard)
    requires Inv(s) && p < |s.procs| && q < |s.procs| && s.procs[p].onCpu && s.procs[p].pc.Wake? && t == WakeTurn(s, p, s.procs[p].pc.c, s.procs[p].pc.i, s.procs[p].pc.k)
    ensures GuardAt(t, q, g)
  {
    hide Inv; hide SlotOk; hide ForkOk;
    NearGuard(s, p, q, g);
  }

  lemma WakeHeld(s: Sys, t: Sys, p: nat, q: nat, l: nat)
    requires Inv(s) && p < |s.procs| && q < |s.procs| && s.procs[p].onCpu && s.procs[p].pc.Wake? && t == WakeTurn(s, p, s.procs[p].pc.c, s.procs[p].pc.i, s.procs[p].pc.k)
    ensures InRange(t, l) && HeldBy(t, q, l)
  {
    hide Inv; hide SlotOk; hide ForkOk;
    NearHeld(s, p, q, l);
  }

  lemma WakeFork(s: Sys, t: Sys, p: nat, q: nat, x: nat)
    requires Inv(s) && p < |s.procs| && q < |s.procs| && x < |s.procs| && s.procs[p].onCpu && s.procs[p].pc.Wake? && t == WakeTurn(s, p, s.procs[p].pc.c, s.procs[p].pc.i, s.procs[p].pc.k)
    ensures ForkOk(t, q, x)
  {
    hide Inv;
    NearFork(s, p, q, x);
  }

  lemma WakeLockWakes(s: Sys, t: Sys, p: nat, q: nat, l: nat)
    requires Inv(s) && p < |s.procs| && q < |s.procs| && l < |s.lks| && s.procs[p].onCpu && s.procs[p].pc.Wake? && t == WakeTurn(s, p, s.procs[p].pc.c, s.procs[p].pc.i, s.procs[p].pc.k)
    ensures LockWakes(t, q, l)
  {
    hide Inv; hide ForkOk;
    NearLock(s, p, q, l);
  }

  lemma WakeParentWakes(s: Sys, t: Sys, p: nat, q: nat, i: nat)
    requires Inv(s) && p < |s.procs| && q < |s.procs| && s.procs[p].onCpu && s.procs[p].pc.Wake? && t == WakeTurn(s, p, s.procs[p].pc.c, s.procs[p].pc.i, s.procs[p].pc.k)
    ensures ParentWakes(t, q, i)
  {
    hide Inv; hide ForkOk; hide Exiting;
    NearParent(s, p, q, i);
  }

  lemma WakeScan(s: Sys, t: Sys, p: nat, q: nat, i: nat)
    requires Inv(s) && p < |s.procs| && q < |s.procs| && s.procs[p].onCpu && s.procs[p].pc.Wake? && t == WakeTurn(s, p, s.procs[p].pc.c, s.procs[p].pc.i, s.procs[p].pc.k)
    ensures ScanMissesNone(t, q, i)
  {
    hide Inv; hide SlotOk; hide ForkOk;
    NearScan(s, p, q, i);
  }

  lemma WakeWoken(s: Sys, t: Sys, p: nat, q: nat)
    requires Inv(s) && p < |s.procs| && q < |s.procs| && s.procs[p].onCpu && s.procs[p].pc.Wake? && t == WakeTurn(s, p, s.procs[p].pc.c, s.procs[p].pc.i, s.procs[p].pc.k)
    ensures ParentWoken(t, q)
  {
    hide Inv; hide ForkOk;
    NearWoken(s, p, q);
  }

  // ------------------------------------------------------------ acquiresleep and releasesleep

  lemma LockSlot(s: Sys, t: Sys, p: nat, q: nat)
    requires Inv(s) && p < |s.procs| && q < |s.procs| && s.procs[p].onCpu && t == LockStep(s, p)
    ensures SlotOk(q, t.procs[q]) && FreedFrom(s.procs[q], t.procs[q])
  {
    hide Inv; hide ForkOk;
    NearPair(s, p, q);
  }

  lemma LockGuard(s: Sys, t: Sys, p: nat, q: nat, g: Guard)
    requires Inv(s) && p < |s.procs| && q < |s.procs| && s.procs[p].onCpu && t == LockStep(s, p)
    ensures GuardAt(t, q, g)
  {
    hide Inv; hide SlotOk; hide ForkOk;
    NearGuard(s, p, q, g);
  }

  lemma LockHeld(s: Sys, t: Sys, p: nat, q: nat, l: nat)
    requires Inv(s) && p < |s.procs| && q < |s.procs| && s.procs[p].onCpu && t == LockStep(s, p)
    ensures InRange(t, l) && HeldBy(t, q, l)
  {
    hide Inv; hide ForkOk;
    NearHeld(s, p, q, l);
  }

  lemma LockFork(s: Sys, t: Sys, p: nat, q: nat, x: nat)
    requires Inv(s) && p < |s.procs| && q < |s.procs| && x < |s.procs| && s.procs[p].onCpu && t == LockStep(s, p)
    ensures ForkOk(t, q, x)
  {
    hide Inv;
    NearFork(s, p, q, x);
  }

  lemma LockLockWakes(s: Sys, t: Sys, p: nat, q: nat, l: nat)
    requires Inv(s) && p < |s.procs| && q < |s.procs| && l < |s.lks| && s.procs[p].onCpu && t == LockStep(s, p)
    ensures LockWakes(t, q, l)
  {
    hide Inv; hide SlotOk; hide ForkOk;
    NearLock(s, p, q, l);
  }

  lemma LockParentWakes(s: Sys, t: Sys, p: nat, q: nat, i: nat)
    requires Inv(s) && p < |s.procs| && q < |s.procs| && s.procs[p].onCpu && t == LockStep(s, p)
    ensures ParentWakes(t, q, i)
  {
    hide Inv; hide SlotOk; hide ForkOk;
    NearParent(s, p, q, i);
  }

  lemma LockScan(s: Sys, t: Sys, p: nat, q: nat, i: nat)
    requires Inv(s) && p < |s.procs| && q < |s.procs| && s.procs[p].onCpu && t == LockStep(s, p)
    ensures ScanMissesNone(t, q, i)
  {
    hide Inv; hide SlotOk; hide ForkOk;
    NearScan(s, p, q, i);
  }

  lemma LockWoken(s: Sys, t: Sys, p: nat, q: nat)
    requires Inv(s) && p < |s.procs| && q < |s.procs| && s.procs[p].onCpu && t == LockStep(s, p)
    ensures ParentWoken(t, q)
  {
    hide Inv; hide SlotOk; hide ForkOk;
    NearWoken(s, p, q);
  }

  // ------------------------------------------------------------ sleep

  lemma SleepSlot(s: Sys, t: Sys, p: nat, q: nat)
    requires Inv(s) && p < |s.procs| && q < |s.procs| && s.procs[p].onCpu && t == SleepStep(s, p)
    ensures SlotOk(q, t.procs[q]) && FreedFrom(s.procs[q], t.procs[q])
  {
    hide Inv; hide ForkOk;
    NearPair(s, p, q);
  }

  lemma SleepGuard(s: Sys, t: Sys, p: nat, q: nat, g: Guard)
    requires Inv(s) && p < |s.procs| && q < |s.procs| && s.procs[p].onCpu && t == SleepStep(s, p)
    ensures GuardAt(t, q, g)
  {
    hide Inv;
    NearGuard(s, p, q, g);
  }

  lemma SleepHeld(s: Sys, t: Sys, p: nat, q: nat, l: nat)
    requires Inv(s) && p < |s.procs| && q < |s.procs| && s.procs[p].onCpu && t == SleepStep(s, p)
    ensures InRange(t, l) && HeldBy(t, q, l)
  {
    hide Inv;
    NearHeld(s, p, q, l);
  }

  lemma SleepFork(s: Sys, t: Sys, p: nat, q: nat, x: nat)
    requires Inv(s) && p < |s.procs| && q < |s.procs| && x < |s.procs| && s.procs[p].onCpu && t == SleepStep(s, p)
    ensures ForkOk(t, q, x)
  {
    hide Inv;
    NearFork(s, p, q, x);
  }

  lemma SleepLockWakes(s: Sys, t: Sys, p: nat, q: nat, l: nat)
    requires Inv(s) && p < |s.procs| && q < |s.procs| && l < |s.lks| && s.procs[p].onCpu && t == SleepStep(s, p)
    ensures LockWakes(t, q, l)
  {
    hide Inv; hide SlotOk; hide ForkOk;
    NearLock(s, p, q, l);
  }

  lemma SleepParentWakes(s: Sys, t: Sys, p: nat, q: nat, i: nat)
    requires Inv(s) && p < |s.procs| && q < |s.procs| && s.procs[p].onCpu && t == SleepStep(s, p)
    ensures ParentWakes(t, q, i)
  {
    hide Inv; hide SlotOk; hide ForkOk;
    NearParent(s, p, q, i);
  }

  lemma SleepScan(s: Sys, t: Sys, p: nat, q: nat, i: nat)
    requires Inv(s) && p < |s.procs| && q < |s.procs| && s.procs[p].onCpu && t == SleepStep(s, p)
    ensures ScanMissesNone(t, q, i)
  {
    hide Inv; hide SlotOk; hide ForkOk;
    NearScan(s, p, q, i);
  }

  lemma SleepWoken(s: Sys, t: Sys, p: nat, q: nat)
    requires Inv(s) && p < |s.procs| && q < |s.procs| && s.procs[p].onCpu && t == SleepStep(s, p)
    ensures ParentWoken(t, q)
  {
    hide Inv; hide SlotOk;
    NearWoken(s, p, q);
  }

  // ------------------------------------------------------------ kwait

  lemma WaitSlot(s: Sys, t: Sys, p: nat, flag: bool, q: nat)
    requires Inv(s) && p < |s.procs| && q < |s.procs| && s.procs[p].onCpu && t == WaitStep(s, p, flag)
    ensures SlotOk(q, t.procs[q]) && FreedFrom(s.procs[q], t.procs[q])
  {
    hide Inv; hide ForkOk;
    NearPair(s, p, q);
  }

  lemma WaitGuard(s: Sys, t: Sys, p: nat, flag: bool, q: nat, g: Guard)
    requires Inv(s) && p < |s.procs| && q < |s.procs| && s.procs[p].onCpu && t == WaitStep(s, p, flag)
    ensures GuardAt(t, q, g)
  {
    hide Inv; hide SlotOk; hide ForkOk;
    NearGuard(s, p, q, g);
  }

  lemma WaitHeld(s: Sys, t: Sys, p: nat, flag: bool, q: nat, l: nat)
    requires Inv(s) && p < |s.procs| && q < |s.procs| && s.procs[p].onCpu && t == WaitStep(s, p, flag)
    ensures InRange(t, l) && HeldBy(t, q, l)
  {
    hide Inv; hide SlotOk; hide ForkOk;
    NearHeld(s, p, q, l);
  }

  lemma WaitFork(s: Sys, t: Sys, p: nat, flag: bool, q: nat, x: nat)
    requires Inv(s) && p < |s.procs| && q < |s.procs| && x < |s.procs| && s.procs[p].onCpu && t == WaitStep(s, p, flag)
    ensures ForkOk(t, q, x)
  {
    hide Inv;
    NearFork(s, p, q, x);
  }

  lemma WaitLockWakes(s: Sys, t: Sys, p: nat, flag: bool, q: nat, l: nat)
    requires Inv(s) && p < |s.procs| && q < |s.procs| && l < |s.lks| && s.procs[p].onCpu && t == WaitStep(s, p, flag)
    ensures LockWakes(t, q, l)
  {
    hide Inv; hide SlotOk; hide ForkOk;
    NearLock(s, p, q, l);
  }

  lemma WaitParentWakes(s: Sys, t: Sys, p: nat, flag: bool, q: nat, i: nat)
    requires Inv(s) && p < |s.procs| && q < |s.procs| && s.procs[p].onCpu && t == WaitStep(s, p, flag)
    ensures ParentWakes(t, q, i)
  {
    hide Inv; hide SlotOk; hide ForkOk;
    NearParent(s, p, q, i);
  }

  lemma WaitScan(s: Sys, t: Sys, p: nat, flag: bool, q: nat, i: nat)
    requires Inv(s) && p < |s.procs| && q < |s.procs| && s.procs[p].onCpu && t == WaitStep(s, p, flag)
    ensures ScanMissesNone(t, q, i)
  {
    hide Inv; hide SlotOk; hide ForkOk;
    NearScan(s, p, q, i);
  }

  lemma WaitWoken(s: Sys, t: Sys, p: nat, flag: bool, q: nat)
    requires Inv(s) && p < |s.procs| && q < |s.procs| && s.procs[p].onCpu && t == WaitStep(s, p, flag)
    ensures ParentWoken(t, q)
  {
    hide Inv; hide SlotOk;
    NearWoken(s, p, q);
  }

  // ------------------------------------------------------------ kexit

  lemma ExitSlot(s: Sys, t: Sys, p: nat, q: nat)
    requires Inv(s) && p < |s.procs| && q < |s.procs| && s.procs[p].onCpu && t == ExitStep(s, p)
    ensures SlotOk(q, t.procs[q]) && FreedFrom(s.procs[q], t.procs[q])
  {
    hide Inv; hide ForkOk;
    NearPair(s, p, q);
  }

  lemma ExitGuard(s: Sys, t: Sys, p: nat, q: nat, g: Guard)
    requires Inv(s) && p < |s.procs| && q < |s.procs| && s.procs[p].onCpu && t == ExitStep(s, p)
    ensures GuardAt(t, q, g)
  {
    hide Inv; hide SlotOk; hide ForkOk;
    NearGuard(s, p, q, g);
  }

  lemma ExitHeld(s: Sys, t: Sys, p: nat, q: nat, l: nat)
    requires Inv(s) && p < |s.procs| && q < |s.procs| && s.procs[p].onCpu && t == ExitStep(s, p)
    ensures InRange(t, l) && HeldBy(t, q, l)
  {
    hide Inv; hide SlotOk; hide ForkOk;
    NearHeld(s, p, q, l);
  }

  lemma ExitFork(s: Sys, t: Sys, p: nat, q: nat, x: nat)
    requires Inv(s) && p < |s.procs| && q < |s.procs| && x < |s.procs| && s.procs[p].onCpu && t == ExitStep(s, p)
    ensures ForkOk(t, q, x)
  {
    hide Inv;
    NearFork(s, p, q, x);
  }

  lemma ExitLockWakes(s: Sys, t: Sys, p: nat, q: nat, l: nat)
    requires Inv(s) && p < |s.procs| && q < |s.procs| && l < |s.lks| && s.procs[p].onCpu && t == ExitStep(s, p)
    ensures LockWakes(t, q, l)
  {
    hide Inv; hide SlotOk; hide ForkOk;
    NearLock(s, p, q, l);
  }

  lemma ExitParentWakes(s: Sys, t: Sys, p: nat, q: nat, i: nat)
    requires Inv(s) && p < |s.procs| && q < |s.procs| && s.procs[p].onCpu && t == ExitStep(s, p)
    ensures ParentWakes(t, q, i)
  {
    hide Inv; hide SlotOk; hide ForkOk;
    NearParent(s, p, q, i);
  }

  lemma ExitScan(s: Sys, t: Sys, p: nat, q: nat, i: nat)
    requires Inv(s) && p < |s.procs| && q < |s.procs| && s.procs[p].onCpu && t == ExitStep(s, p)
    ensures ScanMissesNone(t, q, i)
  {
    hide Inv; hide SlotOk; hide ForkOk;
    NearScan(s, p, q, i);
  }

  lemma ExitWoken(s: Sys, t: Sys, p: nat, q: nat)
    requires Inv(s) && p < |s.procs| && q < |s.procs| && s.procs[p].onCpu && t == ExitStep(s, p)
    ensures ParentWoken(t, q)
  {
    hide Inv; hide SlotOk;
    NearWoken(s, p, q);
  }

  // ------------------------------------------------------------ kfork

  lemma ForkSlot(s: Sys, t: Sys, p: nat, q: nat)
    requires Inv(s) && p < |s.procs| && q < |s.procs| && s.procs[p].onCpu && t == ForkStep(s, p)
    ensures SlotOk(q, t.procs[q]) && FreedFrom(s.procs[q], t.procs[q])
  {
    hide Inv;
    NearPair(s, p, q);
    assert q != p && q != Child(s.procs[p].pc) ==> t.procs[q] == s.procs[q];
  }

  lemma ForkGuard(s: Sys, t: Sys, p: nat, q: nat, g: Guard)
    requires Inv(s) && p < |s.procs| && q < |s.procs| && s.procs[p].onCpu && t == ForkStep(s, p)
    ensures GuardAt(t, q, g)
  {
    hide Inv; hide SlotOk; hide ForkOk;
    NearGuard(s, p, q, g);
  }

  lemma ForkHeld(s: Sys, t: Sys, p: nat, q: nat, l: nat)
    requires Inv(s) && p < |s.procs| && q < |s.procs| && s.procs[p].onCpu && t == ForkStep(s, p)
    ensures InRange(t, l) && HeldBy(t, q, l)
  {
    hide Inv; hide SlotOk; hide ForkOk;
    NearHeld(s, p, q, l);
  }

  lemma ForkFork(s: Sys, t: Sys, p: nat, q: nat, x: nat)
    requires Inv(s) && p < |s.procs| && q < |s.procs| && x < |s.procs| && s.procs[p].onCpu && t == ForkStep(s, p)
    ensures ForkOk(t, q, x)
  {
    hide Inv;
    NearFork(s, p, q, x);
  }

  lemma ForkLockWakes(s: Sys, t: Sys, p: nat, q: nat, l: nat)
    requires Inv(s) && p < |s.procs| && q < |s.procs| && l < |s.lks| && s.procs[p].onCpu && t == ForkStep(s, p)
    ensures LockWakes(t, q, l)
  {
    hide Inv; hide SlotOk; hide ForkOk;
    NearLock(s, p, q, l);
  }

  lemma ForkParentWakes(s: Sys, t: Sys, p: nat, q: nat, i: nat)
    requires Inv(s) && p < |s.procs| && q < |s.procs| && s.procs[p].onCpu && t == ForkStep(s, p)
    ensures ParentWakes(t, q, i)
  {
    hide Inv; hide SlotOk; hide ForkOk;
    NearParent(s, p, q, i);
  }

  lemma ForkScan(s: Sys, t: Sys, p: nat, q: nat, i: nat)
    requires Inv(s) && p < |s.procs| && q < |s.procs| && s.procs[p].onCpu && t == ForkStep(s, p)
    ensures ScanMissesNone(t, q, i)
  {
    hide Inv; hide SlotOk; hide ForkOk;
    NearScan(s, p, q, i);
  }

  lemma ForkWoken(s: Sys, t: Sys, p: nat, q: nat)
    requires Inv(s) && p < |s.procs| && q < |s.procs| && s.procs[p].onCpu && t == ForkStep(s, p)
    ensures ParentWoken(t, q)
  {
    hide Inv; hide SlotOk;
    NearWoken(s, p, q);
  }

  // ------------------------------------------------------------ yield and forkret

  lemma YieldSlot(s: Sys, t: Sys, p: nat, q: nat)
    requires Inv(s) && p < |s.procs| && q < |s.procs| && s.procs[p].onCpu && t == YieldStep(s, p)
    ensures SlotOk(q, t.procs[q]) && FreedFrom(s.procs[q], t.procs[q])
  {
    hide Inv; hide ForkOk;
    NearPair(s, p, q);
  }

  lemma YieldGuard(s: Sys, t: Sys, p: nat, q: nat, g: Guard)
    requires Inv(s) && p < |s.procs| && q < |s.procs| && s.procs[p].onCpu && t == YieldStep(s, p)
    ensures GuardAt(t, q, g)
  {
    hide Inv; hide SlotOk; hide ForkOk;
    NearGuard(s, p, q, g);
  }

  lemma YieldHeld(s: Sys, t: Sys, p: nat, q: nat, l: nat)
    requires Inv(s) && p < |s.procs| && q < |s.procs| && s.procs[p].onCpu && t == YieldStep(s, p)
    ensures InRange(t, l) && HeldBy(t, q, l)
  {
    hide Inv; hide SlotOk; hide ForkOk;
    NearHeld(s, p, q, l);
  }

  lemma YieldFork(s: Sys, t: Sys, p: nat, q: nat, x: nat)
    requires Inv(s) && p < |s.procs| && q < |s.procs| && x < |s.procs| && s.procs[p].onCpu && t == YieldStep(s, p)
    ensures ForkOk(t, q, x)
  {
    hide Inv;
    NearFork(s, p, q, x);
  }

  lemma YieldLockWakes(s: Sys, t: Sys, p: nat, q: nat, l: nat)
    requires Inv(s) && p < |s.procs| && q < |s.procs| && l < |s.lks| && s.procs[p].onCpu && t == YieldStep(s, p)
    ensures LockWakes(t, q, l)
  {
    hide Inv; hide SlotOk; hide ForkOk;
    NearLock(s, p, q, l);
  }

  lemma YieldParentWakes(s: Sys, t: Sys, p: nat, q: nat, i: nat)
    requires Inv(s) && p < |s.procs| && q < |s.procs| && s.procs[p].onCpu && t == YieldStep(s, p)
    ensures ParentWakes(t, q, i)
  {
    hide Inv; hide SlotOk; hide ForkOk;
    NearParent(s, p, q, i);
  }

  lemma YieldScan(s: Sys, t: Sys, p: nat, q: nat, i: nat)
    requires Inv(s) && p < |s.procs| && q < |s.procs| && s.procs[p].onCpu && t == YieldStep(s, p)
    ensures ScanMissesNone(t, q, i)
  {
    hide Inv; hide SlotOk; hide ForkOk;
    NearScan(s, p, q, i);
  }

  lemma YieldWoken(s: Sys, t: Sys, p: nat, q: nat)
    requires Inv(s) && p < |s.procs| && q < |s.procs| && s.procs[p].onCpu && t == YieldStep(s, p)
    ensures ParentWoken(t, q)
  {
    hide Inv; hide SlotOk; hide ForkOk;
    NearWoken(s, p, q);
  }

  // ------------------------------------------------------------ scheduler and kkill

  lemma OutsideSlot(s: Sys, t: Sys, p: nat, a: Step, q: nat)
    requires Inv(s) && p < |s.procs| && q < |s.procs| && a.p == p && t == OutsideStep(s, a)
    ensures SlotOk(q, t.procs[q]) && FreedFrom(s.procs[q], t.procs[q])
  {
    hide Inv; hide ForkOk;
    NearPair(s, p, q);
  }

  lemma OutsideGuard(s: Sys, t: Sys, p: nat, a: Step, q: nat, g: Guard)
    requires Inv(s) && p < |s.procs| && q < |s.procs| && a.p == p && t == OutsideStep(s, a)
    ensures GuardAt(t, q, g)
  {
    hide Inv; hide SlotOk; hide ForkOk;
    NearGuard(s, p, q, g);
  }

  lemma OutsideHeld(s: Sys, t: Sys, p: nat, a: Step, q: nat, l: nat)
    requires Inv(s) && p < |s.procs| && q < |s.procs| && a.p == p && t == OutsideStep(s, a)
    ensures InRange(t, l) && HeldBy(t, q, l)
  {
    hide Inv; hide SlotOk; hide ForkOk;
    NearHeld(s, p, q, l);
  }

  lemma OutsideFork(s: Sys, t: Sys, p: nat, a: Step, q: nat, x: nat)
    requires Inv(s) && p < |s.procs| && q < |s.procs| && x < |s.procs| && a.p == p && t == OutsideStep(s, a)
    ensures ForkOk(t, q, x)
  {
    hide Inv;
    NearFork(s, p, q, x);
  }

  lemma OutsideLockWakes(s: Sys, t: Sys, p: nat, a: Step, q: nat, l: nat)
    requires Inv(s) && p < |s.procs| && q < |s.procs| && l < |s.lks| && a.p == p && t == OutsideStep(s, a)
    ensures LockWakes(t, q, l)
  {
    hide Inv; hide SlotOk; hide ForkOk;
    NearLock(s, p, q, l);
  }

  lemma OutsideParentWakes(s: Sys, t: Sys, p: nat, a: Step, q: nat, i: nat)
    requires Inv(s) && p < |s.procs| && q < |s.procs| && a.p == p && t == OutsideStep(s, a)
    ensures ParentWakes(t, q, i)
  {
    hide Inv; hide SlotOk; hide ForkOk;
    NearParent(s, p, q, i);
  }

  lemma OutsideScan(s: Sys, t: Sys, p: nat, a: Step, q: nat, i: nat)
    requires Inv(s) && p < |s.procs| && q < |s.procs| && a.p == p && t == OutsideStep(s, a)
    ensures ScanMissesNone(t, q, i)
  {
    hide Inv; hide SlotOk; hide ForkOk;
    NearScan(s, p, q, i);
  }

  lemma OutsideWoken(s: Sys, t: Sys, p: nat, a: Step, q: nat)
    requires Inv(s) && p < |s.procs| && q < |s.procs| && a.p == p && t == OutsideStep(s, a)
    ensures ParentWoken(t, q)
  {
    hide Inv; hide SlotOk; hide ForkOk;
    NearWoken(s, p, q);
  }

  // ------------------------------------------------------------ all parts together

  lemma EnterKeeps(s: Sys, t: Sys, p: nat, call: Call, q: nat, i: nat, g: Guard)
    requires Inv(s) && p < |s.procs| && q < |s.procs| && s.procs[p].onCpu && s.procs[p].pc == User && t == Enter(s, p, call)
    ensures At(t, q, i, g) && FreedFrom(s.procs[q], t.procs[q])
  {
    hide Inv; hide SlotOk; hide GuardAt; hide HeldBy; hide ForkOk; hide LockWakes; hide ParentWakes; hide ScanMissesNone; hide ParentWoken; hide InRange; hide FreedFrom;
    EnterSlot(s, t, p, call, q);
    EnterGuard(s, t, p, call, q, g);
    EnterHeld(s, t, p, call, q, i);
    EnterParentWakes(s, t, p, call, q, i);
    EnterScan(s, t, p, call, q, i);
    EnterWoken(s, t, p, call, q);
    if i < |s.procs| { EnterFork(s, t, p, call, q, i); }
    if i < |s.lks| { EnterLockWakes(s, t, p, call, q, i); }
  }

  lemma WakeKeeps(s: Sys, t: Sys, p: nat, q: nat, i: nat, g: Guard)
    requires Inv(s) && p < |s.procs| && q < |s.procs| && s.procs[p].onCpu && s.procs[p].pc.Wake? && t == WakeTurn(s, p, s.procs[p].pc.c, s.procs[p].pc.i, s.procs[p].pc.k)
    ensures At(t, q, i, g) && FreedFrom(s.procs[q], t.procs[q])
  {
    hide Inv; hide SlotOk; hide GuardAt; hide HeldBy; hide ForkOk; hide LockWakes; hide ParentWakes; hide ScanMissesNone; hide ParentWoken; hide InRange; hide FreedFrom;
    WakeSlot(s, t, p, q);
    WakeGuard(s, t, p, q, g);
    WakeHeld(s, t, p, q, i);
    WakeParentWakes(s, t, p, q, i);
    WakeScan(s, t, p, q, i);
    WakeWoken(s, t, p, q);
    if i < |s.procs| { WakeFork(s, t, p, q, i); }
    if i < |s.lks| { WakeLockWakes(s, t, p, q, i); }
  }

  lemma LockKeeps(s: Sys, t: Sys, p: nat, q: nat, i: nat, g: Guard)
    requires Inv(s) && p < |s.procs| && q < |s.procs| && s.procs[p].onCpu && t == LockStep(s, p)
    ensures At(t, q, i, g) && FreedFrom(s.procs[q], t.procs[q])
  {
    hide Inv; hide SlotOk; hide GuardAt; hide HeldBy; hide ForkOk; hide LockWakes; hide ParentWakes; hide ScanMissesNone; hide ParentWoken; hide InRange; hide FreedFrom;
    LockSlot(s, t, p, q);
    LockGuard(s, t, p, q, g);
    LockHeld(s, t, p, q, i);
    LockParentWakes(s, t, p, q, i);
    LockScan(s, t, p, q, i);
    LockWoken(s, t, p, q);
    if i < |s.procs| { LockFork(s, t, p, q, i); }
    if i < |s.lks| { LockLockWakes(s, t, p, q, i); }
  }

  lemma SleepKeeps(s: Sys, t: Sys, p: nat, q: nat, i: nat, g: Guard)
    requires Inv(s) && p < |s.procs| && q < |s.procs| && s.procs[p].onCpu && t == SleepStep(s, p)
    ensures At(t, q, i, g) && FreedFrom(s.procs[q], t.procs[q])
  {
    hide Inv; hide SlotOk; hide GuardAt; hide HeldBy; hide ForkOk; hide LockWakes; hide ParentWakes; hide ScanMissesNone; hide ParentWoken; hide InRange; hide FreedFrom;
    SleepSlot(s, t, p, q);
    SleepGuard(s, t, p, q, g);
    SleepHeld(s, t, p, q, i);
    SleepParentWakes(s, t, p, q, i);
    SleepScan(s, t, p, q, i);
    SleepWoken(s, t, p, q);
    if i < |s.procs| { SleepFork(s, t, p, q, i); }
    if i < |s.lks| { SleepLockWakes(s, t, p, q, i); }
  }

  lemma WaitKeeps(s: Sys, t: Sys, p: nat, flag: bool, q: nat, i: nat, g: Guard)
    requires Inv(s) && p < |s.procs| && q < |s.procs| && s.procs[p].onCpu && t == WaitStep(s, p, flag)
    ensures At(t, q, i, g) && FreedFrom(s.procs[q], t.procs[q])
  {
    hide Inv; hide SlotOk; hide GuardAt; hide HeldBy; hide ForkOk; hide LockWakes; hide ParentWakes; hide ScanMissesNone; hide ParentWoken; hide InRange; hide FreedFrom;
    WaitSlot(s, t, p, flag, q);
    WaitGuard(s, t, p, flag, q, g);
    WaitHeld(s, t, p, flag, q, i);
    WaitParentWakes(s, t, p, flag, q, i);
    WaitScan(s, t, p, flag, q, i);
    WaitWoken(s, t, p, flag, q);
    if i < |s.procs| { WaitFork(s, t, p, flag, q, i); }
    if i < |s.lks| { WaitLockWakes(s, t, p, flag, q, i); }
  }

  lemma ExitKeeps(s: Sys, t: Sys, p: nat, q: nat, i: nat, g: Guard)
    requires Inv(s) && p < |s.procs| && q < |s.procs| && s.procs[p].onCpu && t == ExitStep(s, p)
    ensures At(t, q, i, g) && FreedFrom(s.procs[q], t.procs[q])
  {
    hide Inv; hide SlotOk; hide GuardAt; hide HeldBy; hide ForkOk; hide LockWakes; hide ParentWakes; hide ScanMissesNone; hide ParentWoken; hide InRange; hide FreedFrom;
    ExitSlot(s, t, p, q);
    ExitGuard(s, t, p, q, g);
    ExitHeld(s, t, p, q, i);
    ExitParentWakes(s, t, p, q, i);
    ExitScan(s, t, p, q, i);
    ExitWoken(s, t, p, q);
    if i < |s.procs| { ExitFork(s, t, p, q, i); }
    if i < |s.lks| { ExitLockWakes(s, t, p, q, i); }
  }

  lemma ForkKeeps(s: Sys, t: Sys, p: nat, q: nat, i: nat, g: Guard)
    requires Inv(s) && p < |s.procs| && q < |s.procs| && s.procs[p].onCpu && t == ForkStep(s, p)
    ensures At(t, q, i, g) && FreedFrom(s.procs[q], t.procs[q])
  {
    hide Inv; hide SlotOk; hide GuardAt; hide HeldBy; hide ForkOk; hide LockWakes; hide ParentWakes; hide ScanMissesNone; hide ParentWoken; hide InRange; hide FreedFrom;
    ForkSlot(s, t, p, q);
    ForkGuard(s, t, p, q, g);
    ForkHeld(s, t, p, q, i);
    ForkParentWakes(s, t, p, q, i);
    ForkScan(s, t, p, q, i);
    ForkWoken(s, t, p, q);
    if i < |s.procs| { ForkFork(s, t, p, q, i); }
    if i < |s.lks| { ForkLockWakes(s, t, p, q, i); }
  }

  lemma YieldKeeps(s: Sys, t: Sys, p: nat, q: nat, i: nat, g: Guard)
    requires Inv(s) && p < |s.procs| && q < |s.procs| && s.procs[p].onCpu && t == YieldStep(s, p)
    ensures At(t, q, i, g) && FreedFrom(s.procs[q], t.procs[q])
  {
    hide Inv; hide SlotOk; hide GuardAt; hide HeldBy; hide ForkOk; hide LockWakes; hide ParentWakes; hide ScanMissesNone; hide ParentWoken; hide InRange; hide FreedFrom;
    YieldSlot(s, t, p, q);
    YieldGuard(s, t, p, q, g);
    YieldHeld(s, t, p, q, i);
    YieldParentWakes(s, t, p, q, i);
    YieldScan(s, t, p, q, i);
    YieldWoken(s, t, p, q);
    if i < |s.procs| { YieldFork(s, t, p, q, i); }
    if i < |s.lks| { YieldLockWakes(s, t, p, q, i); }
  }

  lemma OutsideKeeps(s: Sys, t: Sys, p: nat, a: Step, q: nat, i: nat, g: Guard)
    requires Inv(s) && p < |s.procs| && q < |s.procs| && a.p == p && t == OutsideStep(s, a)
    ensures At(t, q, i, g) && FreedFrom(s.procs[q], t.procs[q])
  {
    hide Inv; hide SlotOk; hide GuardAt; hide HeldBy; hide ForkOk; hide LockWakes; hide ParentWakes; hide ScanMissesNone; hide ParentWoken; hide InRange; hide FreedFrom;
    OutsideSlot(s, t, p, a, q);
    OutsideGuard(s, t, p, a, q, g);
    OutsideHeld(s, t, p, a, q, i);
    OutsideParentWakes(s, t, p, a, q, i);
    OutsideScan(s, t, p, a, q, i);
    OutsideWoken(s, t, p, a, q);
    if i < |s.procs| { OutsideFork(s, t, p, a, q, i); }
    if i < |s.lks| { OutsideLockWakes(s, t, p, a, q, i); }
  }
}
