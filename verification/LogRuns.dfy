/** What the steps of LogSystem are for: what each leaves behind, that a logged write becomes
    durable, and that a commit comes to an end. */
module LogRuns {
  import opened Params
  import opened Wrappers
  import opened RedoLog
  import opened LogSystem

  /** log_write in the running system: the block is in the header, and pinned by one more
      reference exactly if it was not there before; its buffer is clean and holds what it
      held; nothing else changes, and there is no panic. */
  lemma LogWriteMeans(l: Layout, s: State, t: nat, b: int)
    requires Inv(l, s) && Enabled(l, s, LogWrite(t, b))
    ensures var s' := Apply(l, s, LogWrite(t, b));
      && b in s'.lh && Pinned(s', b) && (forall i :: 0 <= i < |s.lh| ==> i < |s'.lh| && s'.lh[i] == s.lh[i])
      && (forall c :: c in s'.lh ==> c == b || c in s.lh) && |s'.lh| == |s.lh| + (if b in s.lh then 0 else 1)
      && s'.cache.Keys == s.cache.Keys && (forall c :: c in s.cache && c != b ==> s'.cache[c] == s.cache[c])
      && !s'.cache[b].dirty && s'.cache[b].data == s.cache[b].data && s'.cache[b].holder == Some(t)
      && s'.cache[b].refcnt == s.cache[b].refcnt + (if b in s.lh then 0 else 1)
      && !s'.panicked && s'.disk == s.disk && s'.ops.Keys == s.ops.Keys && s'.outstanding == s.outstanding
  {
    RoomToLog(s, t);
    hide CacheInv; hide CoherenceInv; hide Recoverable; hide PhaseInv; hide HeldInv; hide HeaderInv;
    OpenIsIdle(s);
    var s' := Apply(l, s, LogWrite(t, b));
    assert b in s'.lh by {
      if b !in s.lh { assert s'.lh[|s.lh|] == b; }
    }
  }

  lemma OpenIsIdle(s: State)
    requires AdmissionInv(s) && s.ops != map[]
    ensures s.phase == LogSystem.Idle && !s.recovering && Unpinned(s) == 0
  {
    assert |s.ops| > 0 by {
      var t :| t in s.ops.Keys;
      assert |s.ops.Keys| > 0;
    }
  }

  // ------------------------------------------------------------ other steps

  /** begin_op opens the operation, with nothing spent of its budget; if every open operation
      spends all of its own, the log still holds them. */
  lemma BeginOpMeans(l: Layout, s: State, t: nat)
    requires Inv(l, s) && Enabled(l, s, BeginOp(t))
    ensures var s' := Apply(l, s, BeginOp(t));
      && s'.ops == s.ops[t := 0] && s'.outstanding == |s'.ops| && s'.lh == s.lh && s'.cache == s.cache && s'.disk == s.disk
      && |s'.lh| + |s'.ops| * MAXOPBLOCKS <= LOGBLOCKS
  {
    assert s.outstanding == |s.ops|;
    OneMoreOp(s.ops, t);
    hide Inv; hide WorkEnabled; hide DoWork; hide DoGet; hide DoLogWrite; hide DoEndOp; hide DoCrash; hide Holding; hide Ready;
  }

  lemma OneMoreOp(ops: map<nat, nat>, t: nat)
    requires t !in ops
    ensures |ops[t := 0]| == |ops| + 1
  {
    assert ops[t := 0].Keys == ops.Keys + {t};
    assert |ops[t := 0]| == |ops[t := 0].Keys| && |ops| == |ops.Keys|;
  }

  /** A reader or writer gets the block's buffer, then its lock, then its contents. */
  lemma ReadMeans(l: Layout, s: State, t: nat, b: int, victim: Option<int>)
    ensures Enabled(l, s, Get(t, b, victim)) ==>
      var s' := Apply(l, s, Get(t, b, victim));
      b in s'.cache && t in s'.cache[b].users && forall c :: c in s.cache && victim != Some(c) ==> c in s'.cache
    ensures Enabled(l, s, Lock(t, b)) ==> Holding(Apply(l, s, Lock(t, b)), t, b)
    ensures Enabled(l, s, Fill(t, b)) && 0 <= b ==>
      var s' := Apply(l, s, Fill(t, b)); Holding(s', t, b) && s'.cache[b].valid && s'.cache[b].data == Logical(s, b)
    ensures Enabled(l, s, Release(t, b)) ==>
      var s' := Apply(l, s, Release(t, b)); b in s'.cache && t !in s'.cache[b].users && s'.cache[b].holder == None
  {
  }

  /** A modification is what readers see next, and it must be logged: the writer can neither
      release the buffer nor end its operation before. */
  lemma ModifyMeans(l: Layout, s: State, t: nat, b: int, data: Data)
    requires Inv(l, s) && Enabled(l, s, Modify(t, b, data))
    ensures var s' := Apply(l, s, Modify(t, b, data));
      Logical(s', b) == data && !Enabled(l, s', Release(t, b)) && !Enabled(l, s', EndOp(t))
  {
    hide CoherenceInv; hide Recoverable; hide PhaseInv; hide CacheInv; hide AdmissionInv; hide HeldInv;
    var s' := Apply(l, s, Modify(t, b, data));
    assert s'.cache[b].dirty && s'.cache[b].holder == Some(t);
  }

  /** The last operation out starts the commit, and no other. */
  lemma EndOpMeans(l: Layout, s: State, t: nat)
    requires Inv(l, s) && Enabled(l, s, EndOp(t))
    ensures var s' := Apply(l, s, EndOp(t));
      && s'.ops == s.ops - {t} && s'.lh == s.lh && s'.cache == s.cache && s'.disk == s.disk
      && if s'.ops == map[] then s'.phase == CopyToLog(0) && s'.worker == t && s'.committing else s'.phase == LogSystem.Idle && !s'.committing
  {
    hide CoherenceInv; hide Recoverable; hide PhaseInv; hide CacheInv; hide HeaderInv; hide HeldInv;
    OpenIsIdle(s);
    var rest := s.ops - {t};
    assert rest.Keys == s.ops.Keys - {t};
    assert |rest.Keys| == |s.ops.Keys| - 1 && |rest| == |rest.Keys| && |s.ops| == |s.ops.Keys|;
    assert rest == map[] <==> rest.Keys == {};
    assert rest.Keys == {} <==> |rest.Keys| == 0;
  }

  // ------------------------------------------------------------ durability

  /** Before the header write of the transaction that is being collected or logged. */
  predicate Collecting(s: State) {
    !s.recovering && (s.phase == LogSystem.Idle || s.phase.CopyToLog? || s.phase.WriteLog? || s.phase == FillHead || s.phase == WriteHead)
  }

  /** A logged block stays in the header until the header is written. */
  lemma StaysLogged(l: Layout, s: State, step: Step, b: int)
    requires Inv(l, s) && Enabled(l, s, step) && !step.Crash? && Collecting(s) && b in s.lh
    ensures var s' := Apply(l, s, step); b in s'.lh && (Collecting(s') || (step.Work? && s.phase == WriteHead))
  {
    hide CacheInv; hide CoherenceInv; hide Recoverable; hide PhaseInv; hide HeldInv; hide HeaderInv;
    match step
    case LogWrite(t, c) => RoomToLog(s, t);
    case EndOp(t) => OpenIsIdle(s);
    case _ =>
  }

  /** Step h of the run is the header write of a transaction with block b, and makes what
      readers see of b then its committed contents. */
  ghost predicate CommitsAt(l: Layout, states: seq<State>, steps: seq<Step>, h: nat, b: int) {
    && h < |steps| < |states| && steps[h].Work? && states[h].phase == WriteHead && b in states[h].lh
    && 0 <= b < |states[h].disk| && b < |states[h + 1].committed| && states[h + 1].committed[b] == Logical(states[h], b)
  }

  lemma {:induction false} CommittedOnTheWay(l: Layout, states: seq<State>, steps: seq<Step>, i: nat, j: nat, b: int)
    requires IsRun(l, states, steps) && Inv(l, states[0]) && i <= j < |states|
    requires Collecting(states[i]) && b in states[i].lh && forall k :: i <= k < j ==> !steps[k].Crash?
    ensures (Collecting(states[j]) && b in states[j].lh) || exists h: nat :: i <= h < j && CommitsAt(l, states, steps, h, b)
    decreases j - i
  {
    if i < j {
      RunKeeps(l, states, steps, i);
      hide Inv;
      StaysLogged(l, states[i], steps[i], b);
      if Collecting(states[i + 1]) {
        CommittedOnTheWay(l, states, steps, i + 1, j, b);
      } else {
        HeaderWrite(l, states, steps, i, b);
      }
    }
  }

  lemma HeaderWrite(l: Layout, states: seq<State>, steps: seq<Step>, h: nat, b: int)
    requires IsRun(l, states, steps) && h < |steps| && Inv(l, states[h]) && steps[h].Work? && states[h].phase == WriteHead && b in states[h].lh
    ensures CommitsAt(l, states, steps, h, b)
  {
    hide CacheInv; hide CoherenceInv; hide Recoverable; hide PhaseInv; hide HeldInv; hide AdmissionInv;
  }

  /** Durability over every run: a block that an operation has logged is in a header write
      before the system is next at rest, unless it crashes first; from then on a recovery
      brings back what readers saw of the block at that write. */
  lemma Durable(l: Layout, states: seq<State>, steps: seq<Step>, i: nat, j: nat, t: nat, b: int)
    requires IsRun(l, states, steps) && Inv(l, states[0]) && i < j < |states| && steps[i] == LogWrite(t, b)
    requires (forall k :: i < k < j ==> !steps[k].Crash?) && states[j].phase == LogSystem.Idle && states[j].outstanding == 0
    ensures exists h: nat :: i < h < j && CommitsAt(l, states, steps, h, b)
  {
    RunKeeps(l, states, steps, i);
    RunKeeps(l, states, steps, j);
    LogWriteMeans(l, states[i], t, b);
    assert Collecting(states[i + 1]) by {
      hide CacheInv; hide CoherenceInv; hide Recoverable; hide PhaseInv; hide HeldInv; hide HeaderInv;
      OpenIsIdle(states[i]);
      RoomToLog(states[i], t);
    }
    assert states[j].lh == [] by {
      hide CacheInv; hide CoherenceInv; hide Recoverable; hide PhaseInv; hide HeldInv; hide HeaderInv;
    }
    hide Inv;
    CommittedOnTheWay(l, states, steps, i + 1, j, b);
  }

  // ------------------------------------------------------------ commits end

  /** The steps that the worker still has to take. */
  function Left(l: Layout, s: State): int
    requires l.Holds(s.disk)
  {
    var n := |s.lh|;
    match s.phase
    case Idle => 0
    case CopyToLog(k) => 2 * (n - k) + 7 + 3 * n
    case WriteLog(k) => 2 * (n - k) + 6 + 3 * n
    case FillHead => 3 * n + 6
    case WriteHead => 3 * n + 5
    case CopyHome(k) => if s.recovering then 2 * (n - k) + 4 else 3 * (n - k) + 4
    case WriteHome(k) => if s.recovering then 2 * (n - k) + 3 else 3 * (n - k) + 3
    case Unpin(k) => 3 * (n - k) + 2
    case FillZero => 3
    case WriteZero => 2
    case Finish => 1
    case ReadHead => 2 * s.disk[l.start][0] + 5
  }

  /** How far each phase has come. */
  ghost predicate Bounded(l: Layout, s: State)
    requires l.Holds(s.disk)
  {
    match s.phase
    case CopyToLog(k) => k <= |s.lh|
    case WriteLog(k) => k < |s.lh|
    case FillHead => !s.recovering
    case WriteHead => !s.recovering
    case CopyHome(k) => k <= |s.lh|
    case WriteHome(k) => k < |s.lh|
    case Unpin(k) => k < |s.lh| && !s.recovering
    case ReadHead => s.recovering && (Ready(s, l.start) ==> s.cache[l.start].data == s.disk[l.start])
    case _ => true
  }

  lemma IsBounded(l: Layout, s: State)
    requires Inv(l, s)
    ensures l.Holds(s.disk) && Bounded(l, s)
  {
    hide CacheInv; hide Recoverable; hide AdmissionInv; hide HeldInv;
  }

  lemma LogLeft(l: Layout, s: State)
    requires l.Holds(s.disk) && Bounded(l, s) && WorkEnabled(l, s) && (s.phase.CopyToLog? || s.phase.WriteLog?)
    ensures l.Holds(DoWork(l, s).disk) && 0 <= Left(l, DoWork(l, s)) < Left(l, s)
  {
    hide EncodeHead; hide View; hide Entries;
  }

  lemma HeadLeft(l: Layout, s: State)
    requires l.Holds(s.disk) && Bounded(l, s) && WorkEnabled(l, s) && (s.phase == FillHead || s.phase == WriteHead)
    ensures l.Holds(DoWork(l, s).disk) && 0 <= Left(l, DoWork(l, s)) < Left(l, s)
  {
    hide EncodeHead; hide View; hide Entries;
  }

  lemma HomeLeft(l: Layout, s: State)
    requires l.Holds(s.disk) && Bounded(l, s) && WorkEnabled(l, s) && (s.phase.CopyHome? || s.phase.WriteHome? || s.phase.Unpin?)
    ensures l.Holds(DoWork(l, s).disk) && 0 <= Left(l, DoWork(l, s)) < Left(l, s)
  {
    hide EncodeHead; hide View; hide Entries;
  }

  lemma ZeroLeft(l: Layout, s: State)
    requires l.Holds(s.disk) && Bounded(l, s) && WorkEnabled(l, s) && (s.phase == FillZero || s.phase == WriteZero || s.phase == Finish)
    ensures l.Holds(DoWork(l, s).disk) && 0 <= Left(l, DoWork(l, s)) < Left(l, s)
  {
    hide EncodeHead; hide View; hide Entries;
  }

  lemma ReadLeft(l: Layout, s: State)
    requires l.Holds(s.disk) && Bounded(l, s) && WorkEnabled(l, s) && (s.phase == ReadHead)
    ensures l.Holds(DoWork(l, s).disk) && 0 <= Left(l, DoWork(l, s)) < Left(l, s)
  {
    hide EncodeHead; hide View; hide Entries;
    HeadLength(s.cache[l.start].data);
  }

  lemma HeadLength(head: Data)
    requires 0 <= head[0] <= LOGBLOCKS
    ensures |Entries(head)| == head[0]
  {
  }

  /** Every step of commit or recovery brings it nearer its end. */
  lemma WorkProgress(l: Layout, s: State)
    requires Inv(l, s) && WorkEnabled(l, s)
    ensures l.Holds(DoWork(l, s).disk) && 0 <= Left(l, DoWork(l, s)) < Left(l, s)
  {
    IsBounded(l, s);
    hide Inv; hide DoWork; hide Left; hide Bounded;
    match s.phase
    case CopyToLog(_) | WriteLog(_) => LogLeft(l, s);
    case FillHead | WriteHead => HeadLeft(l, s);
    case CopyHome(_) | WriteHome(_) | Unpin(_) => HomeLeft(l, s);
    case FillZero | WriteZero | Finish => ZeroLeft(l, s);
    case ReadHead => ReadLeft(l, s);
  }
}
