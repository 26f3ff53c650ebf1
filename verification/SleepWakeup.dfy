/** What the invariant of kernel/proc.c's sleep and wakeup amounts to, over every run. */
module SleepWakeup {
  import opened ProcModel
  import opened ProcInvariant
  import opened ProcSteps

  lemma FreedFromSame(r: Proc)
    ensures FreedFrom(r, r)
  {
  }

  /** Every step of every process, scheduler or killer keeps the invariant. */
  lemma StepKeepsAt(s: Sys, a: Step, q: nat, i: nat, g: Guard)
    requires Inv(s)
    ensures At(Do(s, a), q, i, g)
    ensures q < |s.procs| ==> FreedFrom(s.procs[q], Do(s, a).procs[q])
  {
    hide Kept; hide InRange; hide FreedFrom;
    hide Enter; hide WakeTurn; hide LockStep; hide SleepStep; hide WaitStep; hide ExitStep; hide ForkStep; hide YieldStep; hide OutsideStep;
    if a.p >= |s.procs| || (a.Run? && !s.procs[a.p].onCpu) {
      assert Do(s, a) == s && At(s, q, i, g);
      if q < |s.procs| { FreedFromSame(s.procs[q]); }
    } else {
      var q' := if q < |s.procs| then q else a.p;
      hide Inv;
      var t := Do(s, a);
      match a
      case Run(p, call, flag) =>
        match s.procs[p].pc {
          case User => EnterKeeps(s, t, p, call, q', i, g);
          case Wake(_, _, _) => WakeKeeps(s, t, p, q', i, g);
          case Acquiring(_) | Acquired(_) | Releasing(_) | Released(_) => LockKeeps(s, t, p, q', i, g);
          case Sleep0(_) | Sleep1(_) | Sleep2(_) | Sleep3(_) | Sleep4(_) | Sleep5(_) | Sleep6(_) => SleepKeeps(s, t, p, q', i, g);
          case Scan(_, _) | Scanned(_) | WaitDone => WaitKeeps(s, t, p, flag, q', i, g);
          case Reparent(_) | WakeParent | LockSelf | Die | LeaveWait | LastSwitch => ExitKeeps(s, t, p, q', i, g);
          case Fork1(_) | Fork2(_) | Fork3(_) | Fork4(_) => ForkKeeps(s, t, p, q', i, g);
          case _ => YieldKeeps(s, t, p, q', i, g);
        }
      case _ => OutsideKeeps(s, t, a.p, a, q', i, g);
    }
  }

  lemma StepKeeps(s: Sys, a: Step)
    requires Inv(s)
    ensures Inv(Do(s, a))
  {
    forall q: nat, i: nat, g ensures At(Do(s, a), q, i, g) {
      StepKeepsAt(s, a, q, i, g);
    }
  }

  lemma BootInv(s: Sys)
    requires Boot(s)
    ensures Inv(s)
  {
  }

  lemma {:induction false} RunKeeps(s: Sys, steps: seq<Step>)
    requires Inv(s)
    ensures Inv(RunOf(s, steps))
    decreases |steps|
  {
    if steps != [] {
      StepKeeps(s, steps[0]);
      RunKeeps(Do(s, steps[0]), steps[1..]);
    }
  }

  lemma Reached(s: Sys, steps: seq<Step>)
    requires Boot(s)
    ensures Inv(RunOf(s, steps))
  {
    BootInv(s);
    RunKeeps(s, steps);
  }

  /** In every reachable state whose condition lock is free, nobody sleeps on a sleeplock
      that is not locked, nor has let go of the condition lock in order to. */
  lemma NoLostWakeupOnLock(boot: Sys, steps: seq<Step>, p: nat, l: nat)
    requires Boot(boot)
    ensures var s := RunOf(boot, steps);
      p < |s.procs| && l < |s.lks| && s.lks[l].owner == NOBODY && !s.lks[l].locked ==>
        !Asleep(s.procs[p], Lk(l)) && !(s.procs[p].state == SLEEPING && s.procs[p].chan == OnLock(l))
  {
    Reached(boot, steps);
    assert At(RunOf(boot, steps), p, l, WaitLock);
  }

  /** In every reachable state with wait_lock free, no parent that has a zombie child sleeps
      in kwait, or has let go of wait_lock in order to. */
  lemma NoLostWakeupInWait(boot: Sys, steps: seq<Step>, p: nat, i: nat)
    requires Boot(boot)
    ensures var s := RunOf(boot, steps);
      p < |s.procs| && i < |s.procs| && s.waitOwner == NOBODY && s.procs[i].parent == p && s.procs[i].state == ZOMBIE ==>
        !Asleep(s.procs[p], WaitLock) && !(s.procs[p].state == SLEEPING && s.procs[p].chan == OnProc(p))
  {
    Reached(boot, steps);
    assert At(RunOf(boot, steps), p, i, WaitLock);
  }

  /** A sleeplock has at most one holder in every reachable state, and one exactly when
      it is locked. */
  lemma MutualExclusion(boot: Sys, steps: seq<Step>, l: nat)
    requires Boot(boot) && l < |boot.lks|
    ensures var s := RunOf(boot, steps);
      && |s.lks| == |boot.lks| && |s.procs| == |boot.procs|
      && (forall p: nat, q: nat :: p < |s.procs| && q < |s.procs| && l in s.procs[p].holds && l in s.procs[q].holds ==> p == q)
      && (s.lks[l].locked <==> exists p: nat :: p < |s.procs| && l in s.procs[p].holds)
  {
    Reached(boot, steps);
    RunSize(boot, steps);
    var s := RunOf(boot, steps);
    forall p: nat | p < |s.procs| ensures l in s.procs[p].holds <==> s.lks[l].locked && s.lks[l].pid == p {
      assert At(s, p, l, WaitLock);
    }
    assert InRange(s, l) by { assert At(s, 0, l, WaitLock); }
    assert s.lks[l].locked ==> l in s.procs[s.lks[l].pid].holds;
  }

  lemma {:induction false} RunSize(s: Sys, steps: seq<Step>)
    ensures SameSize(s, RunOf(s, steps))
    decreases |steps|
  {
    if steps != [] { RunSize(Do(s, steps[0]), steps[1..]); }
  }

  /** A slot is freed once for each time its process died, less a zombie still waiting. */
  lemma FreedOncePerExit(boot: Sys, steps: seq<Step>, i: nat)
    requires Boot(boot)
    ensures var s := RunOf(boot, steps);
      i < |s.procs| ==> s.procs[i].exits == s.procs[i].frees + if s.procs[i].state == ZOMBIE then 1 else 0
  {
    Reached(boot, steps);
    assert At(RunOf(boot, steps), i, i, WaitLock);
  }

  /** The step that frees a slot finds a zombie that has switched off its CPU and whose
      lock the scheduler has released; no other step frees it. */
  lemma FreedOffCpu(boot: Sys, steps: seq<Step>, a: Step, i: nat)
    requires Boot(boot)
    ensures var s := RunOf(boot, steps); var t := Do(s, a);
      i < |s.procs| && t.procs[i].frees != s.procs[i].frees ==>
        && s.procs[i].state == ZOMBIE && !s.procs[i].onCpu && s.procs[i].pc == Dead && s.procs[i].lock == Free
        && t.procs[i].state == UNUSED && t.procs[i].frees == s.procs[i].frees + 1
  {
    Reached(boot, steps);
    StepKeepsAt(RunOf(boot, steps), a, i, i, WaitLock);
  }

  /** Three of sched's four panics are out of reach: a process that calls it holds its own
      lock and no condition lock, and has left state RUNNING. */
  lemma SchedNeverPanics(boot: Sys, steps: seq<Step>, p: nat)
    requires Boot(boot)
    ensures var s := RunOf(boot, steps);
      p < |s.procs| && (s.procs[p].pc.Sleep3? || s.procs[p].pc.Yield2? || s.procs[p].pc.LastSwitch?) ==>
        s.procs[p].lock == Self && s.procs[p].state != RUNNING && s.waitOwner != p && forall l: nat :: l < |s.lks| ==> s.lks[l].owner != p
  {
    Reached(boot, steps);
    var s := RunOf(boot, steps);
    assert At(s, p, p, WaitLock);
    if p < |s.procs| {
      forall l: nat | l < |s.lks| && !(exists g :: HoldsGuard(s.procs[p].pc, g)) ensures s.lks[l].owner != p {
        assert At(s, p, l, Lk(l));
      }
    }
  }
}
