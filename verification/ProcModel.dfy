/** kernel/proc.c and kernel/sleeplock.c as a state machine.  Every step is one
    acquire, release, assignment or context switch of one process, or one action of a
    scheduler; between any two steps any other process may act.  A critical section on
    another process's lock that only tests and sets its state is one step. */
module ProcModel {
  datatype State = UNUSED | USED | SLEEPING | RUNNABLE | RUNNING | ZOMBIE

  /** Who holds p->lock: nobody, p itself, or the scheduler that p switched to. */
  datatype Holder = Free | Self | Scheduler

  /** The condition lock that sleep is given: a sleeplock's own spinlock, or wait_lock. */
  datatype Guard = Lk(l: nat) | WaitLock

  datatype Chan = NoChan | OnLock(l: nat) | OnProc(p: int)

  /** What follows a wakeup loop. */
  datatype Cont = ThenRelease(l: nat) | ThenReparent(j: nat) | ThenDie

  /** Where a process is in kernel code. */
  datatype Pc =
    | User
    | Acquiring(l: nat)                // acquiresleep, holding lk
    | Acquired(l: nat)                 //   locked is set, lk still held
    | Releasing(l: nat)                // releasesleep, holding lk
    | Released(l: nat)                 //   after the wakeup, lk still held
    | Wake(c: Chan, i: nat, k: Cont)   // wakeup(c), about to look at process i
    | Sleep0(g: Guard)                 // sleep: acquire p->lock
    | Sleep1(g: Guard)                 //   release the condition lock
    | Sleep2(g: Guard)                 //   set chan and SLEEPING
    | Sleep3(g: Guard)                 //   sched
    | Sleep4(g: Guard)                 //   clear chan, once running again
    | Sleep5(g: Guard)                 //   release p->lock
    | Sleep6(g: Guard)                 //   reacquire the condition lock
    | Scan(i: nat, have: bool)         // kwait, looking at process i
    | Scanned(have: bool)
    | WaitDone                         //   release wait_lock and return
    | Reparent(j: nat)                 // kexit: reparent, looking at process j
    | WakeParent
    | LockSelf
    | Die
    | LeaveWait
    | LastSwitch
    | Dead
    | Fork1(kid: nat)                  // kfork: acquire wait_lock
    | Fork2(kid: nat)                  //   set the parent
    | Fork3(kid: nat)                  //   release wait_lock
    | Fork4(kid: nat)                  //   make the child runnable
    | Yield1 | Yield2 | Yield3         // yield: set RUNNABLE, sched, release p->lock
    | Start                            // forkret: release p->lock

  /** One slot of the process table.  `holds` is the set of sleeplocks acquired and not
      yet released; exits and frees count how often the slot died and was freed. */
  datatype Proc = Proc(state: State, chan: Chan, parent: int, pc: Pc, onCpu: bool, lock: Holder,
                       holds: set<nat>, exits: nat, frees: nat)

  datatype SleepLock = SleepLock(locked: bool, pid: int, owner: int)

  datatype Sys = Sys(procs: seq<Proc>, waitOwner: int, lks: seq<SleepLock>)

  const NOBODY: int := -1
  const INIT: nat := 0

  function ChanOf(p: nat, g: Guard): Chan {
    match g
    case Lk(l) => OnLock(l)
    case WaitLock => OnProc(p)
  }

  predicate SameSize(s: Sys, t: Sys) {
    |t.procs| == |s.procs| && |t.lks| == |s.lks|
  }

  function Put(s: Sys, p: nat, r: Proc): (t: Sys)
    requires p < |s.procs|
    ensures SameSize(s, t)
  {
    s.(procs := s.procs[p := r])
  }

  function Goto(s: Sys, p: nat, pc: Pc): (t: Sys)
    requires p < |s.procs|
    ensures SameSize(s, t)
  {
    Put(s, p, s.procs[p].(pc := pc))
  }

  predicate GuardFree(s: Sys, g: Guard) {
    match g
    case Lk(l) => l < |s.lks| && s.lks[l].owner == NOBODY
    case WaitLock => s.waitOwner == NOBODY
  }

  /** Give a condition lock to process o, or to NOBODY. */
  function Own(s: Sys, g: Guard, o: int): (t: Sys)
    ensures SameSize(s, t)
  {
    match g
    case Lk(l) => if l < |s.lks| then s.(lks := s.lks[l := s.lks[l].(owner := o)]) else s
    case WaitLock => s.(waitOwner := o)
  }

  /** What a process in user code may ask for. */
  datatype Call = CallAcquire(l: nat) | CallRelease(l: nat) | CallWait | CallExit | CallFork(c: nat) | CallYield

  /** Entering a system call takes its first lock, if that is free. */
  function Enter(s: Sys, p: nat, call: Call): (t: Sys)
    requires p < |s.procs|
    ensures SameSize(s, t)
  {
    match call
    case CallAcquire(l) => if GuardFree(s, Lk(l)) then Goto(Own(s, Lk(l), p), p, Acquiring(l)) else s
    case CallRelease(l) => if GuardFree(s, Lk(l)) && l in s.procs[p].holds then Goto(Own(s, Lk(l), p), p, Releasing(l)) else s
    case CallWait => if GuardFree(s, WaitLock) then Goto(Own(s, WaitLock, p), p, Scan(0, false)) else s
    case CallExit => if GuardFree(s, WaitLock) && p != INIT && s.procs[p].holds == {} then Goto(Own(s, WaitLock, p), p, Reparent(0)) else s
    case CallFork(c) =>
      if c < |s.procs| && s.procs[c].state == UNUSED && s.procs[c].lock == Free
      then Goto(Put(s, c, s.procs[c].(state := USED, pc := Start)), p, Fork1(c)) else s
    case CallYield => if s.procs[p].lock == Free then Put(s, p, s.procs[p].(lock := Self, pc := Yield1)) else s
  }

  function After(k: Cont): Pc {
    match k
    case ThenRelease(l) => Released(l)
    case ThenReparent(j) => Reparent(j + 1)
    case ThenDie => LockSelf
  }

  /** One turn of wakeup's loop. */
  function WakeTurn(s: Sys, p: nat, c: Chan, i: nat, k: Cont): (t: Sys)
    requires p < |s.procs|
    ensures SameSize(s, t)
  {
    if i >= |s.procs| then Goto(s, p, After(k))
    else if i == p then Goto(s, p, Wake(c, i + 1, k))
    else if s.procs[i].lock != Free then s
    else if s.procs[i].state == SLEEPING && s.procs[i].chan == c
    then Goto(Put(s, i, s.procs[i].(state := RUNNABLE)), p, Wake(c, i + 1, k))
    else Goto(s, p, Wake(c, i + 1, k))
  }

  /** One turn of kwait's scan; `copyFails` is the failing copyout of the exit status. */
  function ScanTurn(s: Sys, p: nat, i: nat, have: bool, copyFails: bool): (t: Sys)
    requires p < |s.procs|
    ensures SameSize(s, t)
  {
    if i >= |s.procs| then Goto(s, p, Scanned(have))
    else if s.procs[i].parent != p then Goto(s, p, Scan(i + 1, have))
    else if s.procs[i].lock != Free then s
    else if s.procs[i].state != ZOMBIE then Goto(s, p, Scan(i + 1, true))
    else if copyFails then Goto(s, p, WaitDone)
    else Goto(Put(s, i, s.procs[i].(state := UNUSED, chan := NoChan, parent := NOBODY, frees := s.procs[i].frees + 1)), p, WaitDone)
  }

  /** One turn of reparent's loop. */
  function ReparentTurn(s: Sys, p: nat, j: nat): (t: Sys)
    requires p < |s.procs|
    ensures SameSize(s, t)
  {
    if j >= |s.procs| then Goto(s, p, WakeParent)
    else if s.procs[j].parent == p then Goto(Put(s, j, s.procs[j].(parent := INIT)), p, Wake(OnProc(INIT), 0, ThenReparent(j)))
    else Goto(s, p, Reparent(j + 1))
  }

  /** The return from sleep to its caller's loop. */
  function Resume(g: Guard): Pc {
    match g
    case Lk(l) => Acquiring(l)
    case WaitLock => Scan(0, false)
  }

  /** The context switch of sched: p leaves its CPU with p->lock still held. */
  function SwitchOff(s: Sys, p: nat, pc: Pc): (t: Sys)
    requires p < |s.procs|
    ensures SameSize(s, t)
  {
    Put(s, p, s.procs[p].(onCpu := false, lock := Scheduler, pc := pc))
  }

  function SleepStep(s: Sys, p: nat): (t: Sys)
    requires p < |s.procs|
    ensures SameSize(s, t)
  {
    var r := s.procs[p];
    match r.pc
    case Sleep0(g) => if r.lock == Free then Put(s, p, r.(lock := Self, pc := Sleep1(g))) else s
    case Sleep1(g) => Goto(Own(s, g, NOBODY), p, Sleep2(g))
    case Sleep2(g) => Put(s, p, r.(chan := ChanOf(p, g), state := SLEEPING, pc := Sleep3(g)))
    case Sleep3(g) => SwitchOff(s, p, Sleep4(g))
    case Sleep4(g) => Put(s, p, r.(chan := NoChan, pc := Sleep5(g)))
    case Sleep5(g) => Put(s, p, r.(lock := Free, pc := Sleep6(g)))
    case Sleep6(g) => if GuardFree(s, g) then Goto(Own(s, g, p), p, Resume(g)) else s
    case _ => s
  }

  function LockStep(s: Sys, p: nat): (t: Sys)
    requires p < |s.procs|
    ensures SameSize(s, t)
  {
    var r := s.procs[p];
    match r.pc
    case Acquiring(l) =>
      if l >= |s.lks| then s
      else if s.lks[l].locked then Goto(s, p, Sleep0(Lk(l)))
      else Put(s.(lks := s.lks[l := s.lks[l].(locked := true, pid := p)]), p, r.(holds := r.holds + {l}, pc := Acquired(l)))
    case Acquired(l) => Goto(Own(s, Lk(l), NOBODY), p, User)
    case Releasing(l) =>
      if l >= |s.lks| then s
      else Put(s.(lks := s.lks[l := s.lks[l].(locked := false, pid := NOBODY)]), p, r.(holds := r.holds - {l}, pc := Wake(OnLock(l), 0, ThenRelease(l))))
    case Released(l) => Goto(Own(s, Lk(l), NOBODY), p, User)
    case _ => s
  }

  function ExitStep(s: Sys, p: nat): (t: Sys)
    requires p < |s.procs|
    ensures SameSize(s, t)
  {
    var r := s.procs[p];
    match r.pc
    case Reparent(j) => ReparentTurn(s, p, j)
    case WakeParent => Goto(s, p, Wake(OnProc(r.parent), 0, ThenDie))
    case LockSelf => if r.lock == Free then Put(s, p, r.(lock := Self, pc := Die)) else s
    case Die => Put(s, p, r.(state := ZOMBIE, pc := LeaveWait, exits := r.exits + 1))
    case LeaveWait => Goto(Own(s, WaitLock, NOBODY), p, LastSwitch)
    case LastSwitch => SwitchOff(s, p, Dead)
    case _ => s
  }

  /** `flag` stands for what the model leaves open: a failing copyout, a killed caller. */
  function WaitStep(s: Sys, p: nat, flag: bool): (t: Sys)
    requires p < |s.procs|
    ensures SameSize(s, t)
  {
    match s.procs[p].pc
    case Scan(i, have) => ScanTurn(s, p, i, have, flag)
    case Scanned(have) => Goto(s, p, if !have || flag then WaitDone else Sleep0(WaitLock))
    case WaitDone => Goto(Own(s, WaitLock, NOBODY), p, User)
    case _ => s
  }

  function ForkStep(s: Sys, p: nat): (t: Sys)
    requires p < |s.procs|
    ensures SameSize(s, t)
  {
    match s.procs[p].pc
    case Fork1(c) => if GuardFree(s, WaitLock) then Goto(Own(s, WaitLock, p), p, Fork2(c)) else s
    case Fork2(c) => if c < |s.procs| then Goto(Put(s, c, s.procs[c].(parent := p)), p, Fork3(c)) else s
    case Fork3(c) => Goto(Own(s, WaitLock, NOBODY), p, Fork4(c))
    case Fork4(c) =>
      if c < |s.procs| && s.procs[c].lock == Free then Goto(Put(s, c, s.procs[c].(state := RUNNABLE)), p, User) else s
    case _ => s
  }

  function YieldStep(s: Sys, p: nat): (t: Sys)
    requires p < |s.procs|
    ensures SameSize(s, t)
  {
    var r := s.procs[p];
    match r.pc
    case Yield1 => Put(s, p, r.(state := RUNNABLE, pc := Yield2))
    case Yield2 => SwitchOff(s, p, Yield3)
    case Yield3 => Put(s, p, r.(lock := Free, pc := User))
    case Start => Put(s, p, r.(lock := Free, pc := User))
    case _ => s
  }

  datatype Step =
    | Run(p: nat, call: Call, flag: bool)
    | Dispatch(p: nat)                 // a scheduler picks p
    | Unlock(p: nat)                   // the scheduler p switched to releases p->lock
    | Kill(p: nat)                     // kkill: wakes a sleeper whatever it waits for

  /** A step of p's own code. */
  function RunStep(s: Sys, p: nat, call: Call, flag: bool): (t: Sys)
    requires p < |s.procs|
    ensures SameSize(s, t)
  {
    if !s.procs[p].onCpu then s
    else match s.procs[p].pc
      case User => Enter(s, p, call)
      case Wake(c, i, k) => WakeTurn(s, p, c, i, k)
      case Acquiring(_) | Acquired(_) | Releasing(_) | Released(_) => LockStep(s, p)
      case Sleep0(_) | Sleep1(_) | Sleep2(_) | Sleep3(_) | Sleep4(_) | Sleep5(_) | Sleep6(_) => SleepStep(s, p)
      case Scan(_, _) | Scanned(_) | WaitDone => WaitStep(s, p, flag)
      case Reparent(_) | WakeParent | LockSelf | Die | LeaveWait | LastSwitch => ExitStep(s, p)
      case Fork1(_) | Fork2(_) | Fork3(_) | Fork4(_) => ForkStep(s, p)
      case _ => YieldStep(s, p)
  }

  /** A step of a scheduler, or a kill. */
  function OutsideStep(s: Sys, a: Step): (t: Sys)
    requires a.p < |s.procs|
    ensures SameSize(s, t)
  {
    var r := s.procs[a.p];
    match a
    case Run(_, _, _) => s
    case Dispatch(p) => if r.lock == Free && r.state == RUNNABLE then Put(s, p, r.(state := RUNNING, onCpu := true, lock := Self)) else s
    case Unlock(p) => if r.lock == Scheduler then Put(s, p, r.(lock := Free)) else s
    case Kill(p) => if r.lock == Free && r.state == SLEEPING then Put(s, p, r.(state := RUNNABLE)) else s
  }

  /** The next state; a step that is not enabled changes nothing. */
  function Do(s: Sys, a: Step): (t: Sys)
    ensures SameSize(s, t)
  {
    if a.p >= |s.procs| then s
    else match a
      case Run(p, call, flag) => RunStep(s, p, call, flag)
      case _ => OutsideStep(s, a)
  }

  function RunOf(s: Sys, steps: seq<Step>): Sys
    decreases |steps|
  {
    if steps == [] then s else RunOf(Do(s, steps[0]), steps[1..])
  }

  /** After boot: the first process is runnable, every other slot unused, every lock free. */
  predicate Boot(s: Sys) {
    && |s.procs| > 0 && s.waitOwner == NOBODY
    && (forall l :: 0 <= l < |s.lks| ==> s.lks[l] == SleepLock(false, NOBODY, NOBODY))
    && (forall p :: 0 <= p < |s.procs| ==>
          s.procs[p] == Proc(if p == INIT then RUNNABLE else UNUSED, NoChan, NOBODY, Start, false, Free, {}, 0, 0))
  }
}
