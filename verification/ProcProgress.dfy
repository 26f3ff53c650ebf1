/** How far a process of kernel/proc.c gets: a bound on the steps of each call between two
    sleeps, and what yield and a killed kwait do. */
module ProcProgress {
  import opened ProcModel
  import opened ProcInvariant
  import opened SleepWakeup
  import opened ProcReturns

  /** Turns left of a loop over n processes at index i. */
  function Turns(n: nat, i: nat): nat {
    if i < n then n - i else 0
  }

  /** A bound, with n processes, on the steps from pc until the call returns, the process is
      dead, or it has slept and is about to look at its condition again. */
  function Bound(n: nat, pc: Pc): nat {
    match pc
    case User | Dead => 0
    case Acquiring(_) => 10
    case Acquired(_) | Released(_) | WaitDone | Start => 1
    case Releasing(_) => n + 4
    case Wake(_, i, k) => Turns(n, i) + AfterWake(n, k)
    case Sleep0(_) => 8
    case Sleep1(_) => 7
    case Sleep2(_) => 6
    case Sleep3(_) => 5
    case Sleep4(_) => 4
    case Sleep5(_) => 3
    case Sleep6(_) => 2
    case Scan(i, _) => Turns(n, i) + 12
    case Scanned(_) => 11
    case Reparent(j) => Turns(n, j) * (n + 2) + n + 8
    case WakeParent => n + 7
    case LockSelf => 5
    case Die => 4
    case LeaveWait | Yield1 => 3
    case LastSwitch | Yield2 | Fork3(_) => 2
    case Yield3 | Fork4(_) => 1
    case Fork1(_) => 4
    case Fork2(_) => 3
  }

  function AfterWake(n: nat, k: Cont): nat {
    match k
    case ThenRelease(_) => 2
    case ThenReparent(j) => Turns(n, j + 1) * (n + 2) + n + 9
    case ThenDie => 6
  }

  /** In the middle of a call, and not at the end of a sleep. */
  predicate Busy(pc: Pc) {
    pc != User && pc != Dead && !pc.Sleep6?
  }

  /** p's program counter changes. */
  predicate Advances(s: Sys, t: Sys, p: nat)
    requires p < |s.procs| && p < |t.procs|
  {
    t.procs[p].pc != s.procs[p].pc
  }

  lemma NextTurnIsLess(n: nat, j: nat)
    ensures j < n ==> Turns(n, j) * (n + 2) == Turns(n, j + 1) * (n + 2) + n + 2
    ensures j >= n ==> Turns(n, j) * (n + 2) == 0
  {
    if j < n { assert Turns(n, j) == Turns(n, j + 1) + 1; }
  }

  lemma ExitCounts(s: Sys, t: Sys, p: nat)
    requires p < |s.procs| && t == ExitStep(s, p) && Busy(s.procs[p].pc) && Advances(s, t, p)
    ensures Bound(|s.procs|, t.procs[p].pc) < Bound(|s.procs|, s.procs[p].pc)
  {
    if s.procs[p].pc.Reparent? { NextTurnIsLess(|s.procs|, s.procs[p].pc.j); }
  }

  lemma WakeCounts(s: Sys, t: Sys, p: nat)
    requires p < |s.procs| && s.procs[p].pc.Wake? && t == WakeTurn(s, p, s.procs[p].pc.c, s.procs[p].pc.i, s.procs[p].pc.k) && Advances(s, t, p)
    ensures Bound(|s.procs|, t.procs[p].pc) < Bound(|s.procs|, s.procs[p].pc)
  {
  }

  /** A step of p's own in the middle of a call, if it does anything, brings the bound down. */
  lemma OwnStepCounts(s: Sys, a: Step, p: nat)
    requires p < |s.procs| && StepOf(a, p) && Busy(s.procs[p].pc) && Advances(s, Do(s, a), p)
    ensures Bound(|s.procs|, Do(s, a).procs[p].pc) < Bound(|s.procs|, s.procs[p].pc)
  {
    var t := Do(s, a);
    match s.procs[p].pc
    case Wake(_, _, _) => WakeCounts(s, t, p);
    case Reparent(_) | WakeParent | LockSelf | Die | LeaveWait | LastSwitch => ExitCounts(s, t, p);
    case _ =>
  }

  /** Nobody else moves p's program counter in the middle of a call. */
  lemma OthersLeavePc(s: Sys, a: Step, p: nat)
    requires Inv(s) && p < |s.procs| && !StepOf(a, p) && Busy(s.procs[p].pc)
    ensures !Advances(s, Do(s, a), p)
  {
    StepTurn(s, a, p);
    NearPair(s, p, p);
    hide Inv;
  }

  /** The run stays in the middle of one call of p, without reaching the end of a sleep. */
  ghost predicate Within(s: Sys, steps: seq<Step>, p: nat)
    requires p < |s.procs|
    decreases |steps|
  {
    steps != [] ==> Busy(s.procs[p].pc) && Within(Do(s, steps[0]), steps[1..], p)
  }

  ghost function Moves(s: Sys, steps: seq<Step>, p: nat): nat
    requires p < |s.procs|
    decreases |steps|
  {
    if steps == [] then 0
    else (if Advances(s, Do(s, steps[0]), p) then 1 else 0) + Moves(Do(s, steps[0]), steps[1..], p)
  }

  lemma {:induction false} MovesBounded(s: Sys, steps: seq<Step>, p: nat)
    requires Inv(s) && p < |s.procs| && Within(s, steps, p)
    ensures Moves(s, steps, p) <= Bound(|s.procs|, s.procs[p].pc)
    decreases |steps|
  {
    hide Inv; hide Bound; hide Advances; hide Busy;
    if steps != [] {
      var t := Do(s, steps[0]);
      StepKeeps(s, steps[0]);
      MovesBounded(t, steps[1..], p);
      if Advances(s, t, p) {
        if !StepOf(steps[0], p) { OthersLeavePc(s, steps[0], p); }
        OwnStepCounts(s, steps[0], p);
      } else {
        SamePc(s, t, p);
      }
    }
  }

  lemma SamePc(s: Sys, t: Sys, p: nat)
    requires p < |s.procs| && p < |t.procs| && !Advances(s, t, p)
    ensures t.procs[p].pc == s.procs[p].pc
  {
  }

  /** However the steps of all processes interleave, a call takes no more steps of its own
      than its bound before it returns, dies or has slept: no loop of the kernel goes round
      forever.  (That a step is taken at all unless a lock is missing is MovesOn.) */
  lemma CallsRunOut(boot: Sys, before: seq<Step>, steps: seq<Step>, p: nat)
    requires Boot(boot)
    ensures var s := RunOf(boot, before); p < |s.procs| && Within(s, steps, p) ==> Moves(s, steps, p) <= Bound(|s.procs|, s.procs[p].pc)
  {
    Reached(boot, before);
    var s := RunOf(boot, before);
    hide Inv; hide Within; hide Moves; hide Bound;
    if p < |s.procs| && Within(s, steps, p) { MovesBounded(s, steps, p); }
  }

  // ------------------------------------------------------------ yield and a killed kwait

  lemma YieldStays(s: Sys, a: Step, p: nat)
    requires Inv(s) && p < |s.procs| && s.procs[p].pc in {Yield1, Yield2}
    ensures var r := Do(s, a).procs[p]; r.pc in {Yield1, Yield2} || (r.pc == Yield3 && !r.onCpu)
  {
    if !StepOf(a, p) { OthersLeavePc(s, a, p); }
  }

  lemma {:induction false} OffCpuOnTheWay(s: Sys, steps: seq<Step>, p: nat) returns (k: nat)
    requires Inv(s) && p < |s.procs| && s.procs[p].pc in {Yield1, Yield2} && p < |RunOf(s, steps).procs| && RunOf(s, steps).procs[p].pc == User
    ensures k <= |steps| && p < |RunOf(s, steps[..k]).procs| && !RunOf(s, steps[..k]).procs[p].onCpu
    decreases |steps|
  {
    var t := Do(s, steps[0]);
    YieldStays(s, steps[0], p);
    StepKeeps(s, steps[0]);
    hide Inv; hide Do;
    if t.procs[p].pc == Yield3 {
      k := 1;
      assert steps[..1][1..] == [];
    } else {
      k := OffCpuOnTheWay(t, steps[1..], p);
      assert steps[..k + 1][1..] == steps[1..][..k];
      k := k + 1;
    }
  }

  /** yield gives up the CPU: it returns only after the process has been off it. */
  lemma YieldGivesUpCpu(boot: Sys, before: seq<Step>, steps: seq<Step>, p: nat)
    requires Boot(boot)
    ensures var s := RunOf(boot, before);
      p < |s.procs| && s.procs[p].pc == Yield1 && p < |RunOf(s, steps).procs| && RunOf(s, steps).procs[p].pc == User ==>
        exists k: nat :: k <= |steps| && p < |RunOf(s, steps[..k]).procs| && !RunOf(s, steps[..k]).procs[p].onCpu
  {
    Reached(boot, before);
    var s := RunOf(boot, before);
    hide Inv; hide Do;
    if p < |s.procs| && s.procs[p].pc == Yield1 && p < |RunOf(s, steps).procs| && RunOf(s, steps).procs[p].pc == User {
      var k := OffCpuOnTheWay(s, steps, p);
    }
  }

  /** A caller of kwait that is told to give up does not go to sleep. */
  lemma GivingUpDoesNotSleep(s: Sys, a: Step, p: nat)
    requires p < |s.procs| && StepOf(a, p) && a.flag && CallOf(s.procs[p].pc) == Waiting && !s.procs[p].pc.Sleep0?
    ensures !Do(s, a).procs[p].pc.Sleep0?
  {
  }
}
