/** kernel/log.c and kernel/bio.c running together, as one interleaved
    transition system: file system operations, plain readers, the buffer cache,
    group commit, crashes at any point and recovery (which may crash again). */
module LogSystem {
  import opened Params
  import opened Wrappers
  import opened RedoLog

  /** A cached block.  `users` are the threads holding a reference, `holder`
      the one holding its sleep-lock, `dirty` says that the holder has changed
      the data and has not yet called log_write. */
  datatype Buf = Buf(valid: bool, data: Data, refcnt: int, users: set<nat>, holder: Option<nat>, dirty: bool)

  /** Program counter of the thread inside commit() or recover_from_log(). */
  datatype Phase =
    | Idle
    | CopyToLog(k: nat)    // write_log, about to copy entry k into its log buffer
    | WriteLog(k: nat)     //            copied; about to bwrite it
    | FillHead | WriteHead // write_head with lh.n > 0
    | CopyHome(k: nat)     // install_trans, about to copy slot k to its home buffer
    | WriteHome(k: nat)    //            copied; about to bwrite it
    | Unpin(k: nat)        //            written; about to bunpin it
    | FillZero | WriteZero // write_head with lh.n == 0
    | Finish
    | ReadHead             // recovery only

  datatype State = State(
    disk: Disk,
    cache: map<int, Buf>,
    lh: seq<int>,
    outstanding: int,
    committing: bool,
    ops: map<nat, nat>,    // open operations and the log entries each has appended
    phase: Phase,
    worker: nat,           // the thread that is at `phase`
    recovering: bool,
    panicked: bool,
    committed: Disk)       // contents as of the last transaction that committed

  datatype Step =
    | BeginOp(t: nat)
    | Get(t: nat, b: int, victim: Option<int>)
    | Lock(t: nat, b: int)
    | Fill(t: nat, b: int)
    | Modify(t: nat, b: int, data: Data)
    | LogWrite(t: nat, b: int)
    | Release(t: nat, b: int)
    | EndOp(t: nat)
    | Work
    | Crash(t: nat)

  // ---------------------------------------------------------------- steps

  predicate Holding(s: State, t: nat, b: int) {
    b in s.cache && s.cache[b].holder == Some(t)
  }

  predicate Ready(s: State, b: int) {
    Holding(s, s.worker, b) && s.cache[b].valid
  }

  /** The buffer the worker has filled but not yet written to disk. */
  function Unwritten(l: Layout, s: State): (b: int) {
    match s.phase
    case WriteLog(k) => l.Slot(k)
    case WriteHead => l.start
    case WriteHome(k) => if k < |s.lh| then s.lh[k] else -1
    case WriteZero => l.start
    case _ => -1
  }

  /** Entries already unpinned by install_trans. */
  function Unpinned(s: State): (n: nat) {
    if s.recovering then |s.lh|
    else match s.phase
      case CopyHome(k) => k
      case WriteHome(k) => k
      case Unpin(k) => k
      case _ => 0
  }

  /** log_write has pinned b and install_trans has not yet unpinned it. */
  ghost predicate Pinned(s: State, b: int) {
    exists i :: Unpinned(s) <= i < |s.lh| && s.lh[i] == b
  }

  predicate Enabled(l: Layout, s: State, step: Step) {
    && !s.panicked
    && match step
       case BeginOp(t) =>
         && !s.recovering && t !in s.ops
         && !s.committing && |s.lh| + (s.outstanding + 1) * MAXOPBLOCKS <= LOGBLOCKS
       case Get(t, b, victim) =>
         && (s.recovering ==> t == s.worker)
         && 0 <= b < l.size && (l.IsHome(b) || (s.phase != Idle && t == s.worker))
         && (if b in s.cache then t !in s.cache[b].users && victim == None
             else match victim
               case None => |s.cache| < NBUF
               case Some(v) => v in s.cache && s.cache[v].refcnt == 0)
       case Lock(t, b) => b in s.cache && t in s.cache[b].users && s.cache[b].holder == None
       case Fill(t, b) => Holding(s, t, b) && !s.cache[b].valid && b < |s.disk|
       case Modify(t, b, data) =>
         t in s.ops && Holding(s, t, b) && s.cache[b].valid && l.IsHome(b)
       case LogWrite(t, b) =>
         // the client's side: an operation logs at most MAXOPBLOCKS blocks
         t in s.ops && Holding(s, t, b) && s.cache[b].valid && l.IsHome(b) && s.ops[t] < MAXOPBLOCKS
       case Release(t, b) =>
         Holding(s, t, b) && !s.cache[b].dirty && (t == s.worker ==> b != Unwritten(l, s))
       case EndOp(t) =>
         t in s.ops && forall b :: b in s.cache && s.cache[b].dirty ==> s.cache[b].holder != Some(t)
       case Work => l.Holds(s.disk) && WorkEnabled(l, s)
       case Crash(_) => true
  }

  predicate WorkEnabled(l: Layout, s: State) {
    match s.phase
    case Idle => false
    case CopyToLog(k) =>
      if k < |s.lh| then k < LOGBLOCKS && Ready(s, l.Slot(k)) && Ready(s, s.lh[k]) else true
    case WriteLog(k) => k < LOGBLOCKS && Ready(s, l.Slot(k))
    case FillHead => Ready(s, l.start) && |s.lh| <= LOGBLOCKS
    case WriteHead => Ready(s, l.start)
    case CopyHome(k) =>
      if k < |s.lh| then k < LOGBLOCKS && Ready(s, l.Slot(k)) && Ready(s, s.lh[k]) else true
    case WriteHome(k) => k < |s.lh| && Ready(s, s.lh[k]) && 0 <= s.lh[k] < l.size
    case Unpin(k) => k < |s.lh| && s.lh[k] in s.cache
    case FillZero => Ready(s, l.start)
    case WriteZero => Ready(s, l.start)
    case Finish => true
    case ReadHead => Ready(s, l.start) && 0 <= s.cache[l.start].data[0] <= LOGBLOCKS
  }

  function WithData(s: State, b: int, data: Data): State
    requires b in s.cache
  {
    s.(cache := s.cache[b := s.cache[b].(data := data)])
  }

  function Bwrite(s: State, b: int): State
    requires b in s.cache && 0 <= b < |s.disk|
  {
    s.(disk := s.disk[b := s.cache[b].data])
  }

  function DoWork(l: Layout, s: State): State
    requires l.Holds(s.disk) && WorkEnabled(l, s)
  {
    match s.phase
    case CopyToLog(k) =>
      if k < |s.lh| then WithData(s, l.Slot(k), s.cache[s.lh[k]].data).(phase := WriteLog(k))
      else s.(phase := if |s.lh| > 0 then FillHead else Finish)
    case WriteLog(k) => Bwrite(s, l.Slot(k)).(phase := CopyToLog(k + 1))
    case FillHead =>
      WithData(s, l.start, EncodeHead(s.lh, s.cache[l.start].data)).(phase := WriteHead)
    case WriteHead =>
      Bwrite(s, l.start).(phase := CopyHome(0), committed := View(l, s))
    case CopyHome(k) =>
      if k < |s.lh| then WithData(s, s.lh[k], s.cache[l.Slot(k)].data).(phase := WriteHome(k))
      else s.(lh := [], phase := FillZero)
    case WriteHome(k) =>
      Bwrite(s, s.lh[k]).(phase := if s.recovering then CopyHome(k + 1) else Unpin(k))
    case Unpin(k) =>
      var buf := s.cache[s.lh[k]];
      s.(cache := s.cache[s.lh[k] := buf.(refcnt := buf.refcnt - 1)], phase := CopyHome(k + 1))
    case FillZero => WithData(s, l.start, EncodeHead([], s.cache[l.start].data)).(phase := WriteZero)
    case WriteZero => Bwrite(s, l.start).(phase := Finish)
    case Finish => s.(phase := Idle, committing := false, recovering := false)
    case ReadHead => s.(lh := Entries(s.cache[l.start].data), phase := CopyHome(0))
  }

  function DoGet(s: State, t: nat, b: int, victim: Option<int>): State
    requires 0 <= b
  {
    if b in s.cache then
      var buf := s.cache[b];
      s.(cache := s.cache[b := buf.(refcnt := buf.refcnt + 1, users := buf.users + {t})])
    else
      var rest := if victim.Some? then s.cache - {victim.value} else s.cache;
      s.(cache := rest[b := Buf(false, seq(WORDS, _ => 0), 1, {t}, None, false)])
  }

  function DoLogWrite(s: State, t: nat, b: int): State
    requires t in s.ops && b in s.cache
  {
    if |s.lh| >= LOGBLOCKS || s.outstanding < 1 then s.(panicked := true)
    else
      var buf := s.cache[b].(dirty := false);
      if b in s.lh then s.(cache := s.cache[b := buf])
      else
        s.(lh := s.lh + [b], ops := s.ops[t := s.ops[t] + 1],
           cache := s.cache[b := buf.(refcnt := buf.refcnt + 1)])
  }

  function DoEndOp(s: State, t: nat): State {
    var s1 := s.(outstanding := s.outstanding - 1, ops := s.ops - {t});
    if s.committing then s1.(panicked := true)
    else if s1.outstanding == 0 then s1.(committing := true, worker := t, phase := CopyToLog(0))
    else s1
  }

  /** Power fails; thread t reboots into recovery with nothing but the disk. */
  function DoCrash(s: State, t: nat): State {
    State(s.disk, map[], [], 0, false, map[], ReadHead, t, true, false, s.committed)
  }

  function Apply(l: Layout, s: State, step: Step): State
    requires Enabled(l, s, step)
  {
    match step
    case BeginOp(t) => s.(outstanding := s.outstanding + 1, ops := s.ops[t := 0])
    case Get(t, b, victim) => DoGet(s, t, b, victim)
    case Lock(t, b) => s.(cache := s.cache[b := s.cache[b].(holder := Some(t))])
    case Fill(t, b) =>
      if b < 0 then s else
      s.(cache := s.cache[b := s.cache[b].(valid := true, data := s.disk[b])])
    case Modify(t, b, data) => s.(cache := s.cache[b := s.cache[b].(data := data, dirty := true)])
    case LogWrite(t, b) => DoLogWrite(s, t, b)
    case Release(t, b) =>
      var buf := s.cache[b];
      s.(cache := s.cache[b := buf.(holder := None, refcnt := buf.refcnt - 1, users := buf.users - {t})])
    case EndOp(t) => DoEndOp(s, t)
    case Work => DoWork(l, s)
    case Crash(t) => DoCrash(s, t)
  }

  /** What readers see: the cached copy where there is one, the disk otherwise. */
  function Logical(s: State, b: int): Data
    requires 0 <= b < |s.disk|
  {
    if b in s.cache && s.cache[b].valid then s.cache[b].data else s.disk[b]
  }

  function View(l: Layout, s: State): (d: Disk)
    requires l.Holds(s.disk)
    ensures l.Holds(d)
    ensures forall b :: 0 <= b < |d| ==> d[b] == Logical(s, b)
  {
    seq(|s.disk|, b requires 0 <= b < |s.disk| => Logical(s, b))
  }

  // ----------------------------------------------------------- invariants

  /** The sum of all appended-entry counts. */
  ghost function Spent(ops: map<nat, nat>): nat
    decreases ops.Keys
  {
    if ops.Keys == {} then 0
    else
      var t :| t in ops.Keys;
      ops[t] + Spent(ops - {t})
  }

  /** Admission: who may be in a transaction, and how much log it may still use. */
  ghost predicate AdmissionInv(s: State) {
    && !s.panicked
    && s.outstanding == |s.ops|
    && (forall t :: t in s.ops ==> s.ops[t] <= MAXOPBLOCKS)
    && |s.lh| + s.outstanding * MAXOPBLOCKS - Spent(s.ops) <= LOGBLOCKS
    && (s.committing ==> s.outstanding == 0 && !s.recovering)
    && (s.committing || s.recovering <==> s.phase != Idle)
    && (s.recovering ==> s.outstanding == 0)
    && (s.outstanding == 0 && s.phase == Idle ==> s.lh == [])
  }

  ghost predicate HeaderInv(l: Layout, s: State) {
    && l.Holds(s.disk) && l.Holds(s.committed)
    && |s.lh| <= LOGBLOCKS
    && (forall i :: 0 <= i < |s.lh| ==> l.IsHome(s.lh[i]))
    && (forall i, j :: 0 <= i < j < |s.lh| ==> s.lh[i] != s.lh[j])
  }

  /** Reference counts are exact: one per user, plus one for a pinned block. */
  ghost predicate CacheInv(l: Layout, s: State) {
    && |s.cache| <= NBUF
    && (forall b :: b in s.cache ==> 0 <= b < l.size)
    && (forall b :: b in s.cache ==> BufInv(l, s, b))
    && (forall b :: Pinned(s, b) ==> b in s.cache && s.cache[b].valid)
  }

  ghost predicate BufInv(l: Layout, s: State, b: int)
    requires b in s.cache
  {
    var buf := s.cache[b];
    && buf.refcnt == |buf.users| + (if Pinned(s, b) then 1 else 0)
    && (buf.holder.Some? ==> buf.holder.value in buf.users)
    && (buf.dirty ==> l.IsHome(b) && buf.valid && buf.holder.Some? && buf.holder.value in s.ops)
  }

  /** A cached copy differs from the disk only while pinned, still dirty, or in
      the worker's hands between the copy and the disk write. */
  ghost predicate CoherenceInv(l: Layout, s: State)
    requires l.Holds(s.disk)
  {
    forall b :: b in s.cache && s.cache[b].valid && 0 <= b < l.size ==>
      || s.cache[b].data == s.disk[b]
      || (l.IsHome(b) && (Pinned(s, b) || s.cache[b].dirty))
      || b == Unwritten(l, s)
  }

  /** The header on disk is empty and no home block on disk has been touched. */
  ghost predicate NothingCommitted(l: Layout, s: State)
    requires l.Holds(s.disk) && l.Holds(s.committed)
  {
    && s.disk[l.start][0] == 0
    && (forall b :: l.IsHome(b) ==> s.disk[b] == s.committed[b])
  }

  /** The first k log slots hold the latest contents of the first k logged blocks. */
  ghost predicate LoggedUpTo(l: Layout, s: State, k: nat)
    requires HeaderInv(l, s)
  {
    k <= |s.lh| && forall i :: 0 <= i < k ==> s.disk[l.Slot(i)] == Logical(s, s.lh[i])
  }

  /** The first k logged blocks have been copied home. */
  ghost predicate InstalledUpTo(l: Layout, s: State, k: nat)
    requires HeaderInv(l, s)
  {
    && k <= |s.lh|
    && 0 <= s.disk[l.start][0] <= LOGBLOCKS && Entries(s.disk[l.start]) == s.lh
    && (forall i :: 0 <= i < k ==> s.disk[s.lh[i]] == s.committed[s.lh[i]])
    && (!s.recovering ==> forall b :: l.IsHome(b) ==> Logical(s, b) == s.committed[b])
  }

  ghost predicate PhaseInv(l: Layout, s: State)
    requires HeaderInv(l, s)
  {
    && (s.phase == ReadHead ==> s.recovering && s.lh == [])
    && (s.recovering ==> !s.phase.Idle? && !s.phase.CopyToLog? && !s.phase.WriteLog? && !s.phase.FillHead? && !s.phase.WriteHead? && !s.phase.Unpin?)
    && match s.phase
       case Idle => NothingCommitted(l, s)
       case CopyToLog(k) => NothingCommitted(l, s) && LoggedUpTo(l, s, k)
       case WriteLog(k) =>
         && NothingCommitted(l, s) && LoggedUpTo(l, s, k) && k < |s.lh|
         && l.Slot(k) in s.cache && s.cache[l.Slot(k)].data == Logical(s, s.lh[k])
       case FillHead => NothingCommitted(l, s) && LoggedUpTo(l, s, |s.lh|)
       case WriteHead =>
         && NothingCommitted(l, s) && LoggedUpTo(l, s, |s.lh|)
         && l.start in s.cache && s.cache[l.start].data[0] == |s.lh| && Entries(s.cache[l.start].data) == s.lh
       case CopyHome(k) => InstalledUpTo(l, s, k)
       case WriteHome(k) =>
         && InstalledUpTo(l, s, k) && k < |s.lh|
         && s.lh[k] in s.cache && s.cache[s.lh[k]].data == s.committed[s.lh[k]]
       case Unpin(k) => InstalledUpTo(l, s, k + 1)
       case FillZero => s.lh == [] && forall b :: l.IsHome(b) ==> s.disk[b] == s.committed[b]
       case WriteZero =>
         && s.lh == []
         && (forall b :: l.IsHome(b) ==> s.disk[b] == s.committed[b])
         && l.start in s.cache && s.cache[l.start].data[0] == 0
       case Finish => NothingCommitted(l, s) && s.lh == []
       case ReadHead => true
  }

  /** The worker keeps the lock of a buffer from the copy to the disk write. */
  ghost predicate HeldInv(l: Layout, s: State) {
    Unwritten(l, s) >= 0 ==> Ready(s, Unwritten(l, s))
  }

  ghost predicate Inv(l: Layout, s: State) {
    && AdmissionInv(s)
    && HeaderInv(l, s)
    && CacheInv(l, s)
    && CoherenceInv(l, s)
    && Recoverable(l, s.disk, s.committed)
    && PhaseInv(l, s)
    && HeldInv(l, s)
  }

  // -------------------------------------------------- every step keeps Inv

  lemma {:induction false} SpentAdd(ops: map<nat, nat>, t: nat)
    requires t in ops.Keys
    ensures Spent(ops) == ops[t] + Spent(ops - {t})
    decreases ops.Keys
  {
    var u :| u in ops.Keys && Spent(ops) == ops[u] + Spent(ops - {u});
    if u != t {
      var a, b := ops - {u}, ops - {t};
      assert a.Keys == ops.Keys - {u};
      SpentAdd(a, t);
      assert b.Keys == ops.Keys - {t};
      SpentAdd(b, u);
      assert a - {t} == b - {u};
    }
  }

  lemma {:induction false} SpentBound(ops: map<nat, nat>)
    requires forall t :: t in ops ==> ops[t] <= MAXOPBLOCKS
    ensures Spent(ops) <= |ops.Keys| * MAXOPBLOCKS
    decreases ops.Keys
  {
    if ops.Keys != {} {
      var t :| t in ops.Keys && Spent(ops) == ops[t] + Spent(ops - {t});
      assert (ops - {t}).Keys == ops.Keys - {t};
      SpentBound(ops - {t});
    }
  }

  /** A cache change that no reader can see, and that leaves alone what the
      worker is about to write, keeps every invariant but the cache's own. */
  lemma CacheChangeKeeps(l: Layout, s: State, c: map<int, Buf>)
    requires Inv(l, s)
    requires forall b :: l.IsHome(b) ==> Logical(s.(cache := c), b) == Logical(s, b)
    requires var u := Unwritten(l, s); u >= 0 ==> u in c && c[u].data == s.cache[u].data && c[u].valid && c[u].holder == Some(s.worker)
    requires CacheInv(l, s.(cache := c)) && CoherenceInv(l, s.(cache := c))
    ensures Inv(l, s.(cache := c))
  {
    hide BufInv; hide CacheInv; hide CoherenceInv; hide Recoverable; hide AdmissionInv;
    var s' := s.(cache := c);
    assert AdmissionInv(s') by { AdmissionFrame(s, s'); }
    assert forall k :: LoggedUpTo(l, s, k) ==> LoggedUpTo(l, s', k);
    assert forall k :: InstalledUpTo(l, s, k) ==> InstalledUpTo(l, s', k);
    assert PhaseInv(l, s');
  }

  lemma AdmissionFrame(s: State, s': State)
    requires AdmissionInv(s)
    requires s' == s.(cache := s'.cache, disk := s'.disk, committed := s'.committed)
    ensures AdmissionInv(s')
  {
  }

  /** Pinning depends on the header and the worker's progress only. */
  lemma PinnedFrame(l: Layout, s: State, c: map<int, Buf>)
    ensures forall b :: Pinned(s.(cache := c), b) <==> Pinned(s, b)
    ensures Unwritten(l, s.(cache := c)) == Unwritten(l, s)
  {
  }

  /** Replace one buffer by another with the same pin count and the same contents
      (or, if it was not valid, with the contents on disk). */
  lemma PutKeeps(l: Layout, s: State, b: int, buf: Buf)
    requires Inv(l, s) && b in s.cache
    requires buf.refcnt - |buf.users| == s.cache[b].refcnt - |s.cache[b].users|
    requires buf.holder.Some? ==> buf.holder.value in buf.users
    requires buf.dirty == s.cache[b].dirty && (buf.dirty || b == Unwritten(l, s) ==> buf.holder == s.cache[b].holder)
    requires s.cache[b].valid ==> buf.valid && buf.data == s.cache[b].data
    requires 0 <= b < l.size && !s.cache[b].valid && buf.valid ==> buf.data == s.disk[b]
    ensures Inv(l, s.(cache := s.cache[b := buf]))
  {
    hide PhaseInv; hide Recoverable; hide AdmissionInv; hide Pinned; hide Unwritten;
    var c := s.cache[b := buf];
    var s' := s.(cache := c);
    PinnedFrame(l, s, c);
    assert c.Keys == s.cache.Keys;
    forall x | x in c ensures BufInv(l, s', x) {
      assert BufInv(l, s, x);
    }
    CacheChangeKeeps(l, s, c);
  }

  /** bget may recycle any buffer whose reference count is 0. */
  lemma EvictKeeps(l: Layout, s: State, v: int)
    requires Inv(l, s) && v in s.cache && s.cache[v].refcnt == 0
    ensures Inv(l, s.(cache := s.cache - {v}))
  {
    hide PhaseInv; hide Recoverable; hide AdmissionInv; hide Pinned; hide Unwritten;
    var c := s.cache - {v};
    var s' := s.(cache := c);
    assert BufInv(l, s, v);
    PinnedFrame(l, s, c);
    assert c.Keys == s.cache.Keys - {v};
    forall x | x in c ensures BufInv(l, s', x) {
      assert BufInv(l, s, x);
    }
    CacheChangeKeeps(l, s, c);
  }

  lemma AddKeeps(l: Layout, s: State, t: nat, b: int)
    requires Inv(l, s) && b !in s.cache && 0 <= b < l.size && |s.cache| < NBUF
    ensures Inv(l, s.(cache := s.cache[b := Buf(false, seq(WORDS, _ => 0), 1, {t}, None, false)]))
  {
    hide PhaseInv; hide Recoverable; hide AdmissionInv; hide Pinned; hide Unwritten;
    var c := s.cache[b := Buf(false, seq(WORDS, _ => 0), 1, {t}, None, false)];
    var s' := s.(cache := c);
    PinnedFrame(l, s, c);
    assert c.Keys == s.cache.Keys + {b};
    forall x | x in c ensures BufInv(l, s', x) {
      if x != b { assert BufInv(l, s, x); }
    }
    CacheChangeKeeps(l, s, c);
  }

  lemma GetKeeps(l: Layout, s: State, t: nat, b: int, victim: Option<int>)
    requires Inv(l, s) && Enabled(l, s, Get(t, b, victim))
    ensures Inv(l, Apply(l, s, Get(t, b, victim)))
  {
    hide PhaseInv; hide Recoverable; hide AdmissionInv; hide CoherenceInv;
    if b in s.cache {
      assert BufInv(l, s, b);
      var buf := s.cache[b];
      PutKeeps(l, s, b, buf.(refcnt := buf.refcnt + 1, users := buf.users + {t}));
    } else if victim.Some? {
      EvictKeeps(l, s, victim.value);
      assert (s.cache - {victim.value}).Keys == s.cache.Keys - {victim.value};
      AddKeeps(l, s.(cache := s.cache - {victim.value}), t, b);
    } else {
      AddKeeps(l, s, t, b);
    }
  }

  lemma LockKeeps(l: Layout, s: State, t: nat, b: int)
    requires Inv(l, s) && Enabled(l, s, Lock(t, b))
    ensures Inv(l, Apply(l, s, Lock(t, b)))
  {
    hide PhaseInv; hide Recoverable; hide AdmissionInv; hide CoherenceInv;
    assert BufInv(l, s, b);
    PutKeeps(l, s, b, s.cache[b].(holder := Some(t)));
  }

  lemma FillKeeps(l: Layout, s: State, t: nat, b: int)
    requires Inv(l, s) && Enabled(l, s, Fill(t, b))
    ensures Inv(l, Apply(l, s, Fill(t, b)))
  {
    hide PhaseInv; hide Recoverable; hide AdmissionInv; hide CoherenceInv;
    assert BufInv(l, s, b);
    PutKeeps(l, s, b, s.cache[b].(valid := true, data := s.disk[b]));
  }

  lemma ReleaseKeeps(l: Layout, s: State, t: nat, b: int)
    requires Inv(l, s) && Enabled(l, s, Release(t, b))
    ensures Inv(l, Apply(l, s, Release(t, b)))
  {
    hide PhaseInv; hide Recoverable; hide AdmissionInv; hide CoherenceInv;
    assert BufInv(l, s, b);
    var buf := s.cache[b];
    PutKeeps(l, s, b, buf.(holder := None, refcnt := buf.refcnt - 1, users := buf.users - {t}));
  }

  lemma CrashKeeps(l: Layout, s: State, t: nat)
    requires Inv(l, s)
    ensures Inv(l, DoCrash(s, t))
  {
  }

  /** At phase Idle the invariants of disk and phase say only that the disk is
      untouched, so a step that leaves disk, phase and `committed` alone keeps them. */
  lemma IdleKeeps(l: Layout, s: State, s': State)
    requires Inv(l, s) && s.phase == Idle
    requires s'.disk == s.disk && s'.committed == s.committed && s'.recovering == s.recovering
    requires s'.phase == Idle || (s'.phase == CopyToLog(0) && !s.recovering)
    requires AdmissionInv(s') && HeaderInv(l, s') && CacheInv(l, s') && CoherenceInv(l, s')
    ensures Inv(l, s')
  {
    hide BufInv; hide CacheInv; hide CoherenceInv; hide Recoverable; hide AdmissionInv;
  }

  /** begin_op reserves MAXOPBLOCKS entries and leaves every earlier reservation intact. */
  lemma BeginOpAdmission(s: State, t: nat)
    requires AdmissionInv(s) && t !in s.ops && s.phase == Idle
    requires |s.lh| + (s.outstanding + 1) * MAXOPBLOCKS <= LOGBLOCKS
    ensures AdmissionInv(s.(outstanding := s.outstanding + 1, ops := s.ops[t := 0]))
  {
    var ops := s.ops[t := 0];
    SpentAdd(ops, t);
    assert ops - {t} == s.ops;
    assert ops.Keys == s.ops.Keys + {t};
  }

  /** end_op never meets its "log.committing" panic, and the last operation out commits. */
  lemma EndOpAdmission(s: State, t: nat)
    requires AdmissionInv(s) && t in s.ops
    ensures AdmissionInv(DoEndOp(s, t))
    ensures DoEndOp(s, t).committing <==> s.ops.Keys == {t}
  {
    var s' := DoEndOp(s, t);
    SpentAdd(s.ops, t);
    assert s'.ops.Keys == s.ops.Keys - {t};
    assert |s'.ops.Keys| == 0 <==> s'.ops.Keys == {};
    if s'.ops.Keys == {} {
      assert Spent(s'.ops) == 0;
    }
  }

  lemma BeginOpKeeps(l: Layout, s: State, t: nat)
    requires Inv(l, s) && Enabled(l, s, BeginOp(t))
    ensures Inv(l, Apply(l, s, BeginOp(t)))
  {
    hide PhaseInv; hide Recoverable; hide Pinned; hide Unwritten; hide Spent;
    var s' := s.(outstanding := s.outstanding + 1, ops := s.ops[t := 0]);
    BeginOpAdmission(s, t);
    hide AdmissionInv;
    SameProgress(l, s, s');
    forall b | b in s'.cache ensures BufInv(l, s', b) {
      assert BufInv(l, s, b);
    }
    assert CoherenceInv(l, s');
    IdleKeeps(l, s, s');
  }

  lemma SameProgress(l: Layout, s: State, s': State)
    requires s'.lh == s.lh && s'.recovering == s.recovering
    requires s'.phase == s.phase || (s.phase == Idle && s'.phase == CopyToLog(0))
    ensures forall b :: Pinned(s', b) <==> Pinned(s, b)
    ensures Unwritten(l, s') == Unwritten(l, s)
  {
  }

  lemma ModifyKeeps(l: Layout, s: State, t: nat, b: int, data: Data)
    requires Inv(l, s) && Enabled(l, s, Modify(t, b, data))
    ensures Inv(l, Apply(l, s, Modify(t, b, data)))
  {
    hide PhaseInv; hide Recoverable; hide Pinned; hide Unwritten;
    var s' := s.(cache := s.cache[b := s.cache[b].(data := data, dirty := true)]);
    assert s'.cache.Keys == s.cache.Keys;
    SameProgress(l, s, s');
    AdmissionFrame(s, s');
    forall c | c in s'.cache ensures BufInv(l, s', c) {
      assert BufInv(l, s, c);
    }
    assert CoherenceInv(l, s');
    IdleKeeps(l, s, s');
  }

  /** An operation within its budget finds room in the log. */
  lemma RoomToLog(s: State, t: nat)
    requires AdmissionInv(s) && t in s.ops && s.ops[t] < MAXOPBLOCKS
    ensures |s.lh| < LOGBLOCKS && s.outstanding >= 1
  {
    SpentAdd(s.ops, t);
    SpentBound(s.ops - {t});
    assert (s.ops - {t}).Keys == s.ops.Keys - {t};
  }

  lemma LogWriteAdmission(s: State, t: nat, b: int)
    requires AdmissionInv(s) && t in s.ops && s.ops[t] < MAXOPBLOCKS && b in s.cache
    ensures AdmissionInv(DoLogWrite(s, t, b))
  {
    RoomToLog(s, t);
    var s' := DoLogWrite(s, t, b);
    if b !in s.lh {
      SpentAdd(s.ops, t);
      SpentAdd(s'.ops, t);
      assert s'.ops - {t} == s.ops - {t};
      assert s'.ops.Keys == s.ops.Keys;
    }
  }

  lemma LogWritePins(s: State, s': State, b: int)
    requires Unpinned(s) == Unpinned(s') == 0
    requires s'.lh == if b in s.lh then s.lh else s.lh + [b]
    ensures Pinned(s, b) <==> b in s.lh
    ensures forall c :: Pinned(s', c) <==> Pinned(s, c) || c == b
  {
    assert forall c :: Pinned(s, c) <==> c in s.lh;
    assert forall c :: Pinned(s', c) <==> c in s'.lh;
  }

  lemma LogWriteKeeps(l: Layout, s: State, t: nat, b: int)
    requires Inv(l, s) && Enabled(l, s, LogWrite(t, b))
    ensures Inv(l, Apply(l, s, LogWrite(t, b)))
  {
    hide PhaseInv; hide Recoverable; hide Spent;
    var s' := DoLogWrite(s, t, b);
    RoomToLog(s, t);
    LogWriteAdmission(s, t, b);
    assert s.phase == Idle && !s.recovering;
    assert s'.cache.Keys == s.cache.Keys;
    LogWritePins(s, s', b);
    assert HeaderInv(l, s');
    hide Pinned;
    forall c | c in s'.cache ensures BufInv(l, s', c) {
      assert BufInv(l, s, c);
    }
    assert CoherenceInv(l, s');
    IdleKeeps(l, s, s');
  }

  lemma EndOpKeeps(l: Layout, s: State, t: nat)
    requires Inv(l, s) && Enabled(l, s, EndOp(t))
    ensures Inv(l, Apply(l, s, EndOp(t)))
  {
    hide PhaseInv; hide Recoverable; hide Pinned; hide Unwritten; hide Spent; hide CoherenceInv; hide CacheInv;
    var s' := DoEndOp(s, t);
    EndOpAdmission(s, t);
    assert s.phase == Idle && !s.committing && s'.ops.Keys == s.ops.Keys - {t};
    SameProgress(l, s, s');
    EndOpCache(l, s, s', t);
    IdleKeeps(l, s, s');
  }

  lemma EndOpCache(l: Layout, s: State, s': State, t: nat)
    requires CacheInv(l, s) && l.Holds(s.disk) && CoherenceInv(l, s)
    requires s'.cache == s.cache && s'.disk == s.disk && s'.ops.Keys == s.ops.Keys - {t}
    requires Unwritten(l, s') == Unwritten(l, s)
    requires forall b :: Pinned(s', b) <==> Pinned(s, b)
    requires forall b :: b in s.cache && s.cache[b].dirty ==> s.cache[b].holder != Some(t)
    ensures CacheInv(l, s') && CoherenceInv(l, s')
  {
    hide Pinned; hide Unwritten;
    forall b | b in s'.cache ensures BufInv(l, s', b) {
      assert BufInv(l, s, b);
    }
  }

  // ------------------------------------------- the worker, phase by phase

  /** Changing only buffer contents keeps the reference counts exact. */
  lemma SameCounts(l: Layout, s: State, s': State)
    requires CacheInv(l, s) && s'.ops == s.ops
    requires s'.lh == s.lh && s'.recovering == s.recovering && Unpinned(s') == Unpinned(s)
    requires s'.cache.Keys == s.cache.Keys
    requires forall b :: b in s.cache ==> s'.cache[b] == s.cache[b].(data := s'.cache[b].data)
    ensures CacheInv(l, s')
    ensures forall b :: Pinned(s', b) <==> Pinned(s, b)
  {
    assert forall b :: Pinned(s', b) <==> Pinned(s, b);
    hide Pinned; hide Unpinned;
    forall b | b in s'.cache ensures BufInv(l, s', b) {
      assert BufInv(l, s, b);
    }
  }

  lemma SameAdmission(s: State, s': State)
    requires AdmissionInv(s) && s.phase != Idle && s'.phase != Idle
    requires s' == s.(cache := s'.cache, disk := s'.disk, committed := s'.committed, phase := s'.phase)
    ensures AdmissionInv(s')
  {
  }

  /** While a commit runs, no buffer is dirty. */
  lemma NoneDirty(l: Layout, s: State)
    requires AdmissionInv(s) && CacheInv(l, s) && s.phase != Idle
    ensures forall b :: b in s.cache ==> !s.cache[b].dirty
  {
    forall b | b in s.cache ensures !s.cache[b].dirty {
      assert BufInv(l, s, b);
      assert |s.ops.Keys| == 0;
    }
  }

  /** Filling a buffer and becoming its unfinished writer: everything but the
      phase's own claims is kept. */
  lemma CopyKeeps(l: Layout, s: State, b: int, data: Data, phase: Phase)
    requires HeaderInv(l, s) && AdmissionInv(s) && CacheInv(l, s) && CoherenceInv(l, s)
    requires s.phase != Idle && Unwritten(l, s) == -1 && Ready(s, b)
    requires var s' := s.(phase := phase); Unwritten(l, s') == b && Unpinned(s') == Unpinned(s) && phase != Idle
    ensures var s' := WithData(s, b, data).(phase := phase);
      HeaderInv(l, s') && AdmissionInv(s') && CacheInv(l, s') && CoherenceInv(l, s') && HeldInv(l, s')
  {
    var s' := WithData(s, b, data).(phase := phase);
    assert AdmissionInv(s') by { SameAdmission(s, s'); }
    SameCounts(l, s, s');
    hide AdmissionInv; hide BufInv; hide Pinned; hide CacheInv;
    assert Unwritten(l, s') == Unwritten(l, s.(phase := phase));
    hide Unwritten;
    assert CoherenceInv(l, s');
  }

  /** Writing the unfinished buffer to disk: likewise. */
  lemma BwriteKeeps(l: Layout, s: State, phase: Phase, committed: Disk)
    requires HeaderInv(l, s) && AdmissionInv(s) && CacheInv(l, s) && CoherenceInv(l, s) && HeldInv(l, s)
    requires s.phase != Idle && 0 <= Unwritten(l, s) < l.size && l.Holds(committed)
    requires var s' := s.(phase := phase); Unwritten(l, s') == -1 && Unpinned(s') == Unpinned(s) && phase != Idle
    ensures var s' := Bwrite(s, Unwritten(l, s)).(phase := phase, committed := committed);
      HeaderInv(l, s') && AdmissionInv(s') && CacheInv(l, s') && CoherenceInv(l, s') && HeldInv(l, s')
  {
    var b := Unwritten(l, s);
    var s' := Bwrite(s, b).(phase := phase, committed := committed);
    assert AdmissionInv(s') by { SameAdmission(s, s'); }
    SameCounts(l, s, s');
    hide AdmissionInv; hide BufInv; hide Pinned; hide CacheInv;
    assert Unwritten(l, s') == Unwritten(l, s.(phase := phase));
    hide Unwritten;
    assert CoherenceInv(l, s');
  }

  /** write_log fills the log buffer of entry k from the pinned home buffer. */
  lemma CopyToLogKeeps(l: Layout, s: State, k: nat)
    requires Inv(l, s) && s.phase == CopyToLog(k) && k < |s.lh|
    requires Ready(s, l.Slot(k)) && Ready(s, s.lh[k])
    ensures Inv(l, WithData(s, l.Slot(k), s.cache[s.lh[k]].data).(phase := WriteLog(k)))
  {
    CopyKeeps(l, s, l.Slot(k), s.cache[s.lh[k]].data, WriteLog(k));
    hide Recoverable; hide AdmissionInv; hide CacheInv; hide CoherenceInv; hide HeldInv;
  }

  lemma WriteLogKeeps(l: Layout, s: State, k: nat)
    requires Inv(l, s) && s.phase == WriteLog(k)
    ensures Inv(l, Bwrite(s, l.Slot(k)).(phase := CopyToLog(k + 1)))
  {
    BwriteKeeps(l, s, CopyToLog(k + 1), s.committed);
    hide AdmissionInv; hide CacheInv; hide CoherenceInv; hide HeldInv;
  }

  lemma FillHeadKeeps(l: Layout, s: State)
    requires Inv(l, s) && s.phase == FillHead && Ready(s, l.start)
    ensures Inv(l, WithData(s, l.start, EncodeHead(s.lh, s.cache[l.start].data)).(phase := WriteHead))
  {
    CopyKeeps(l, s, l.start, EncodeHead(s.lh, s.cache[l.start].data), WriteHead);
    hide Recoverable; hide AdmissionInv; hide CacheInv; hide CoherenceInv; hide HeldInv;
  }

  /** The commit point: once the header is on disk, recovery yields the contents
      that readers saw at that moment, for every block. */
  lemma CommitPoint(l: Layout, s: State, head: Data)
    requires HeaderInv(l, s) && CoherenceInv(l, s) && NothingCommitted(l, s) && LoggedUpTo(l, s, |s.lh|)
    requires head[0] == |s.lh| && Entries(head) == s.lh
    requires forall b :: b in s.cache ==> !s.cache[b].dirty
    requires forall b :: Pinned(s, b) ==> b in s.lh
    requires !l.IsHome(Unwritten(l, s))
    ensures Recoverable(l, s.disk[l.start := head], View(l, s))
  {
    hide Pinned; hide Unwritten;
    var d, committed := s.disk[l.start := head], View(l, s);
    assert forall i :: 1 <= i <= head[0] ==> head[i] == s.lh[i - 1];
    forall b | l.IsHome(b) && b !in s.lh ensures d[b] == committed[b] {
      assert committed[b] == Logical(s, b);
    }
  }

  lemma WriteHeadKeeps(l: Layout, s: State)
    requires Inv(l, s) && s.phase == WriteHead
    ensures Inv(l, Bwrite(s, l.start).(phase := CopyHome(0), committed := View(l, s)))
  {
    hide AdmissionInv; hide BufInv; hide CoherenceInv; hide Recoverable;
    NoneDirty(l, s);
    BwriteKeeps(l, s, CopyHome(0), View(l, s));
    hide CacheInv;
    assert forall b :: Pinned(s, b) ==> b in s.lh;
    hide Pinned;
    CommitPoint(l, s, s.cache[l.start].data);
    hide LoggedUpTo; hide NothingCommitted;
    var s' := Bwrite(s, l.start).(phase := CopyHome(0), committed := View(l, s));
    assert InstalledUpTo(l, s', 0);
  }

  /** The log buffer install_trans copies from holds the committed contents. */
  lemma SlotBuffer(l: Layout, s: State, k: nat)
    requires Inv(l, s) && s.phase == CopyHome(k) && k < |s.lh| && Ready(s, l.Slot(k))
    ensures s.cache[l.Slot(k)].data == s.committed[s.lh[k]]
  {
    hide AdmissionInv; hide BufInv; hide HeldInv; hide Pinned;
    assert s.cache[l.Slot(k)].data == s.disk[l.Slot(k)];
  }

  lemma InstalledCopy(l: Layout, s: State, k: nat, phase: Phase)
    requires HeaderInv(l, s) && k < |s.lh| && InstalledUpTo(l, s, k)
    requires s.lh[k] in s.cache && s.cache[s.lh[k]].valid
    ensures var s' := WithData(s, s.lh[k], s.committed[s.lh[k]]).(phase := phase);
      HeaderInv(l, s') && InstalledUpTo(l, s', k)
  {
  }

  lemma InstalledWrite(l: Layout, s: State, k: nat, phase: Phase)
    requires HeaderInv(l, s) && k < |s.lh| && InstalledUpTo(l, s, k)
    requires s.lh[k] in s.cache && s.cache[s.lh[k]].valid && s.cache[s.lh[k]].data == s.committed[s.lh[k]]
    ensures var s' := Bwrite(s, s.lh[k]).(phase := phase);
      HeaderInv(l, s') && InstalledUpTo(l, s', k + 1)
  {
    var s' := Bwrite(s, s.lh[k]).(phase := phase);
    assert forall b :: l.IsHome(b) ==> Logical(s', b) == Logical(s, b);
  }

  lemma CopyHomeKeeps(l: Layout, s: State, k: nat)
    requires Inv(l, s) && s.phase == CopyHome(k) && k < |s.lh|
    requires Ready(s, l.Slot(k)) && Ready(s, s.lh[k])
    ensures Inv(l, WithData(s, s.lh[k], s.cache[l.Slot(k)].data).(phase := WriteHome(k)))
  {
    hide AdmissionInv; hide CacheInv; hide CoherenceInv; hide Recoverable; hide InstalledUpTo;
    SlotBuffer(l, s, k);
    CopyKeeps(l, s, s.lh[k], s.cache[l.Slot(k)].data, WriteHome(k));
    InstalledCopy(l, s, k, WriteHome(k));
  }

  lemma WriteHomeKeeps(l: Layout, s: State, k: nat)
    requires Inv(l, s) && s.phase == WriteHome(k)
    ensures Inv(l, Bwrite(s, s.lh[k]).(phase := if s.recovering then CopyHome(k + 1) else Unpin(k)))
  {
    hide AdmissionInv; hide CacheInv; hide CoherenceInv; hide Recoverable; hide InstalledUpTo;
    var s' := Bwrite(s, s.lh[k]).(phase := if s.recovering then CopyHome(k + 1) else Unpin(k));
    BwriteKeeps(l, s, s'.phase, s.committed);
    InstallRecoverable(l, s.disk, s.committed, s.lh[k]);
    InstalledWrite(l, s, k, s'.phase);
  }

  lemma FillZeroKeeps(l: Layout, s: State)
    requires Inv(l, s) && s.phase == FillZero && Ready(s, l.start)
    ensures Inv(l, WithData(s, l.start, EncodeHead([], s.cache[l.start].data)).(phase := WriteZero))
  {
    CopyKeeps(l, s, l.start, EncodeHead([], s.cache[l.start].data), WriteZero);
    hide Recoverable; hide AdmissionInv; hide CacheInv; hide CoherenceInv; hide HeldInv;
  }

  lemma WriteZeroKeeps(l: Layout, s: State)
    requires Inv(l, s) && s.phase == WriteZero
    ensures Inv(l, Bwrite(s, l.start).(phase := Finish))
  {
    BwriteKeeps(l, s, Finish, s.committed);
    hide AdmissionInv; hide CacheInv; hide CoherenceInv; hide HeldInv;
  }

  lemma LogCopiedKeeps(l: Layout, s: State, k: nat)
    requires Inv(l, s) && s.phase == CopyToLog(k) && k >= |s.lh|
    ensures Inv(l, s.(phase := if |s.lh| > 0 then FillHead else Finish))
  {
    var s' := s.(phase := if |s.lh| > 0 then FillHead else Finish);
    assert AdmissionInv(s') by { SameAdmission(s, s'); }
    hide AdmissionInv; hide Recoverable; hide BufInv; hide Pinned;
    SameCounts(l, s, s');
    hide CacheInv;
  }

  /** bunpin: the pin log_write added for entry k is dropped, and no other. */
  lemma UnpinCounts(l: Layout, s: State, k: nat)
    requires CacheInv(l, s) && HeaderInv(l, s) && s.phase == Unpin(k) && k < |s.lh| && !s.recovering
    requires s.lh[k] in s.cache
    ensures var buf := s.cache[s.lh[k]];
      CacheInv(l, s.(cache := s.cache[s.lh[k] := buf.(refcnt := buf.refcnt - 1)], phase := CopyHome(k + 1)))
  {
    var b := s.lh[k];
    var buf := s.cache[b];
    var s' := s.(cache := s.cache[b := buf.(refcnt := buf.refcnt - 1)], phase := CopyHome(k + 1));
    assert s'.cache.Keys == s.cache.Keys;
    UnpinOne(l, s, s', k);
    hide Pinned; hide HeaderInv; hide Unpinned;
    forall x | x in s'.cache ensures BufInv(l, s', x) {
      assert BufInv(l, s, x);
    }
  }

  lemma UnpinOne(l: Layout, s: State, s': State, k: nat)
    requires HeaderInv(l, s) && k < |s.lh| && s'.lh == s.lh && Unpinned(s) == k && Unpinned(s') == k + 1
    ensures Pinned(s, s.lh[k])
    ensures forall x :: Pinned(s', x) <==> Pinned(s, x) && x != s.lh[k]
  {
  }

  lemma UnpinCoherence(l: Layout, s: State, s': State, b: int)
    requires l.Holds(s.disk) && CoherenceInv(l, s) && s'.disk == s.disk
    requires forall x :: x in s'.cache ==> x in s.cache && s'.cache[x].data == s.cache[x].data && s'.cache[x].valid == s.cache[x].valid && s'.cache[x].dirty == s.cache[x].dirty
    requires forall x :: Pinned(s, x) && x != b ==> Pinned(s', x)
    requires b in s.cache && 0 <= b < l.size && s.cache[b].data == s.disk[b]
    requires Unwritten(l, s) == -1
    ensures CoherenceInv(l, s')
  {
    hide Pinned; hide Unwritten;
  }

  lemma UnpinKeeps(l: Layout, s: State, k: nat)
    requires Inv(l, s) && s.phase == Unpin(k)
    ensures k < |s.lh| && s.lh[k] in s.cache
    ensures var buf := s.cache[s.lh[k]];
      Inv(l, s.(cache := s.cache[s.lh[k] := buf.(refcnt := buf.refcnt - 1)], phase := CopyHome(k + 1)))
  {
    hide Recoverable; hide BufInv; hide CoherenceInv; hide Pinned; hide AdmissionInv;
    var b := s.lh[k];
    UnpinOne(l, s, s.(phase := CopyHome(k + 1)), k);
    var buf := s.cache[b];
    var s' := s.(cache := s.cache[b := buf.(refcnt := buf.refcnt - 1)], phase := CopyHome(k + 1));
    UnpinOne(l, s, s', k);
    assert AdmissionInv(s') by { SameAdmission(s, s'); }
    UnpinCounts(l, s, k);
    assert Logical(s, b) == s.committed[b] == s.disk[b];
    UnpinCoherence(l, s, s', b);
    hide CacheInv;
    assert forall x :: l.IsHome(x) ==> Logical(s', x) == Logical(s, x);
    assert InstalledUpTo(l, s', k + 1);
    hide InstalledUpTo;
  }

  /** All entries installed: the in-memory header is emptied and every pin is gone. */
  lemma AllInstalledKeeps(l: Layout, s: State, k: nat)
    requires Inv(l, s) && s.phase == CopyHome(k) && k >= |s.lh|
    ensures Inv(l, s.(lh := [], phase := FillZero))
  {
    hide Recoverable;
    var s' := s.(lh := [], phase := FillZero);
    assert AdmissionInv(s') by { SpentBound(s.ops); }
    hide AdmissionInv;
    assert forall x :: !Pinned(s, x) && !Pinned(s', x);
    hide Pinned;
    forall x | x in s'.cache ensures BufInv(l, s', x) {
      assert BufInv(l, s, x);
    }
    hide BufInv;
    assert CoherenceInv(l, s');
    assert HeaderInv(l, s');
    hide CoherenceInv; hide CacheInv;
    InstalledAll(l, s);
  }

  lemma InstalledAll(l: Layout, s: State)
    requires HeaderInv(l, s) && Recoverable(l, s.disk, s.committed) && InstalledUpTo(l, s, |s.lh|)
    ensures forall b :: l.IsHome(b) ==> s.disk[b] == s.committed[b]
  {
  }

  lemma FinishKeeps(l: Layout, s: State)
    requires Inv(l, s) && s.phase == Finish
    ensures Inv(l, s.(phase := Idle, committing := false, recovering := false))
  {
    var s' := s.(phase := Idle, committing := false, recovering := false);
    hide Recoverable;
    NoneDirty(l, s);
    assert AdmissionInv(s');
    hide AdmissionInv;
    assert forall x :: !Pinned(s, x) && !Pinned(s', x);
    hide Pinned;
    forall x | x in s'.cache ensures BufInv(l, s', x) {
      assert BufInv(l, s, x);
    }
    assert CoherenceInv(l, s');
  }

  /** read_head: recovery loads the header that the disk holds. */
  lemma ReadHeadKeeps(l: Layout, s: State)
    requires Inv(l, s) && s.phase == ReadHead && Ready(s, l.start)
    ensures 0 <= s.cache[l.start].data[0] <= LOGBLOCKS
    ensures Inv(l, s.(lh := Entries(s.cache[l.start].data), phase := CopyHome(0)))
  {
    hide BufInv; hide Pinned;
    assert s.cache[l.start].data == s.disk[l.start];
    var s' := s.(lh := Entries(s.cache[l.start].data), phase := CopyHome(0));
    assert AdmissionInv(s') by { ReadHeadAdmission(s, s'); }
    hide AdmissionInv;
    NotPinned(s, s');
    ReadHeadCache(l, s, s');
    hide CacheInv;
    assert HeaderInv(l, s');
    assert CoherenceInv(l, s');
    hide CoherenceInv; hide Recoverable;
    assert InstalledUpTo(l, s', 0);
  }

  lemma ReadHeadAdmission(s: State, s': State)
    requires AdmissionInv(s) && s.recovering && |s'.lh| <= LOGBLOCKS
    requires s' == s.(lh := s'.lh, phase := CopyHome(0))
    ensures AdmissionInv(s')
  {
    SpentBound(s.ops);
  }

  lemma NotPinned(s: State, s': State)
    requires s.recovering && s'.recovering
    ensures forall b :: !Pinned(s, b) && !Pinned(s', b)
  {
  }

  lemma ReadHeadCache(l: Layout, s: State, s': State)
    requires CacheInv(l, s) && s'.cache == s.cache && s'.ops == s.ops
    requires forall b :: !Pinned(s, b) && !Pinned(s', b)
    ensures CacheInv(l, s')
  {
    hide Pinned;
    forall b | b in s'.cache ensures BufInv(l, s', b) {
      assert BufInv(l, s, b);
    }
  }

  lemma WorkKeeps(l: Layout, s: State)
    requires Inv(l, s) && WorkEnabled(l, s)
    ensures Inv(l, DoWork(l, s))
  {
    hide AdmissionInv; hide CacheInv; hide CoherenceInv; hide Recoverable; hide PhaseInv; hide HeldInv;
    match s.phase
    case CopyToLog(k) =>
      if k < |s.lh| { CopyToLogKeeps(l, s, k); } else { LogCopiedKeeps(l, s, k); }
    case WriteLog(k) => WriteLogKeeps(l, s, k);
    case FillHead => FillHeadKeeps(l, s);
    case WriteHead => WriteHeadKeeps(l, s);
    case CopyHome(k) =>
      if k < |s.lh| { CopyHomeKeeps(l, s, k); } else { AllInstalledKeeps(l, s, k); }
    case WriteHome(k) => WriteHomeKeeps(l, s, k);
    case Unpin(k) => UnpinKeeps(l, s, k);
    case FillZero => FillZeroKeeps(l, s);
    case WriteZero => WriteZeroKeeps(l, s);
    case Finish => FinishKeeps(l, s);
    case ReadHead => ReadHeadKeeps(l, s);
  }

  lemma StepKeeps(l: Layout, s: State, step: Step)
    requires Inv(l, s) && Enabled(l, s, step)
    ensures Inv(l, Apply(l, s, step))
  {
    hide Inv;
    match step
    case BeginOp(t) => BeginOpKeeps(l, s, t);
    case Get(t, b, victim) => GetKeeps(l, s, t, b, victim);
    case Lock(t, b) => LockKeeps(l, s, t, b);
    case Fill(t, b) => FillKeeps(l, s, t, b);
    case Modify(t, b, data) => ModifyKeeps(l, s, t, b, data);
    case LogWrite(t, b) => LogWriteKeeps(l, s, t, b);
    case Release(t, b) => ReleaseKeeps(l, s, t, b);
    case EndOp(t) => EndOpKeeps(l, s, t);
    case Work => WorkKeeps(l, s);
    case Crash(t) => CrashKeeps(l, s, t);
  }

  // ------------------------------------------------------- whole-run theorems

  /** Power-on with disk d: thread t runs recovery first. */
  ghost function Boot(l: Layout, d: Disk, t: nat): State
    requires l.Holds(d) && WellFormedHead(l, d[l.start])
  {
    State(d, map[], [], 0, false, map[], ReadHead, t, true, false, Recovered(l, d))
  }

  ghost predicate BootDisk(l: Layout, d: Disk) {
    && l.Holds(d) && WellFormedHead(l, d[l.start])
    && var e := Entries(d[l.start]); forall i, j :: 0 <= i < j < |e| ==> e[i] != e[j]
  }

  ghost predicate IsRun(l: Layout, states: seq<State>, steps: seq<Step>) {
    && |states| == |steps| + 1
    && forall i :: 0 <= i < |steps| ==> Enabled(l, states[i], steps[i]) && states[i + 1] == Apply(l, states[i], steps[i])
  }

  lemma BootInv(l: Layout, d: Disk, t: nat)
    requires BootDisk(l, d)
    ensures Inv(l, Boot(l, d, t))
  {
    var e := Entries(d[l.start]);
    var r := Recovered(l, d);
    forall b | l.IsHome(b) ensures r[b] == if LastEntry(e, |e|, b) >= 0 then d[l.Slot(LastEntry(e, |e|, b))] else d[b] {
      InstalledAt(l, d, e, |e|, b);
    }
    assert Recoverable(l, d, r);
    hide Recoverable; hide Recovered;
  }

  lemma {:induction false} RunKeeps(l: Layout, states: seq<State>, steps: seq<Step>, i: nat)
    requires IsRun(l, states, steps) && Inv(l, states[0]) && i < |states|
    ensures Inv(l, states[i])
  {
    if i > 0 {
      RunKeeps(l, states, steps, i - 1);
      StepKeeps(l, states[i - 1], steps[i - 1]);
    }
  }

  /** Crash atomicity over every run: whatever the interleaving of operations,
      readers, evictions, commits, crashes and recoveries, at every moment a
      recovery from the disk alone gives exactly the contents of the last
      committed transaction, and no panic of the log has been reached. */
  lemma {:induction false} CrashSafety(l: Layout, d: Disk, t: nat, states: seq<State>, steps: seq<Step>, i: nat)
    requires BootDisk(l, d) && IsRun(l, states, steps) && states[0] == Boot(l, d, t) && i < |states|
    ensures var s := states[i];
      && !s.panicked
      && l.Holds(s.disk) && l.Holds(s.committed)
      && WellFormedHead(l, s.disk[l.start])
      && SameHome(l, Recovered(l, s.disk), s.committed)
  {
    BootInv(l, d, t);
    RunKeeps(l, states, steps, i);
    RecoveredIsCommitted(l, states[i].disk, states[i].committed);
  }

  /** Group commit: the committed contents are always those readers saw at one
      moment of the past at which no operation was open (or those the machine
      booted with), so a transaction never holds half of an operation. */
  lemma {:induction false} GroupCommit(l: Layout, states: seq<State>, steps: seq<Step>, i: nat)
    requires IsRun(l, states, steps) && Inv(l, states[0]) && i < |states|
    ensures
      || states[i].committed == states[0].committed
      || exists j :: 0 <= j < i && states[j].phase == WriteHead && states[j].ops == map[]
                   && l.Holds(states[j].disk) && states[i].committed == View(l, states[j])
  {
    hide Inv; hide Enabled; hide Apply;
    if i > 0 {
      GroupCommit(l, states, steps, i - 1);
      RunKeeps(l, states, steps, i - 1);
      CommittedStep(l, states[i - 1], steps[i - 1]);
    }
  }

  lemma CommittedStep(l: Layout, s: State, step: Step)
    requires Inv(l, s) && Enabled(l, s, step)
    ensures
      || Apply(l, s, step).committed == s.committed
      || (s.phase == WriteHead && s.ops == map[] && Apply(l, s, step).committed == View(l, s))
  {
    hide CacheInv; hide CoherenceInv; hide Recoverable; hide PhaseInv; hide HeldInv;
    if step.Work? && s.phase == WriteHead {
      assert |s.ops| == 0;
    }
  }

  /** Caching, eviction, logging, committing and installing are invisible: only
      Modify (and a crash) changes what a reader of a home block sees. */
  lemma Transparent(l: Layout, s: State, step: Step, b: int)
    requires Inv(l, s) && Enabled(l, s, step) && !s.recovering && !step.Crash? && l.IsHome(b)
    ensures |Apply(l, s, step).disk| == |s.disk|
    ensures !(step.Modify? && step.b == b) ==> Logical(Apply(l, s, step), b) == Logical(s, b)
  {
    hide AdmissionInv; hide Recoverable; hide PhaseInv; hide HeldInv; hide CoherenceInv; hide CacheInv; hide DoWork; hide DoGet;
    match step
    case Get(t, c, victim) => TransparentGet(l, s, t, c, victim, b);
    case Work => TransparentWork(l, s, b);
    case _ =>
  }

  lemma TransparentGet(l: Layout, s: State, t: nat, c: int, victim: Option<int>, b: int)
    requires Inv(l, s) && l.IsHome(b) && 0 <= c
    requires victim.Some? ==> victim.value in s.cache && s.cache[victim.value].refcnt == 0
    ensures Logical(DoGet(s, t, c, victim), b) == Logical(s, b)
    ensures DoGet(s, t, c, victim).disk == s.disk
  {
    hide AdmissionInv; hide Recoverable; hide PhaseInv; hide HeldInv; hide CoherenceInv; hide CacheInv;
    if victim == Some(b) {
      EvictedWasClean(l, s, b);
    }
  }

  /** A buffer bget may recycle holds nothing the disk does not. */
  lemma EvictedWasClean(l: Layout, s: State, b: int)
    requires Inv(l, s) && l.IsHome(b) && b in s.cache && s.cache[b].refcnt == 0
    ensures Logical(s, b) == s.disk[b]
  {
    hide AdmissionInv; hide Recoverable; hide PhaseInv; hide Pinned; hide Unwritten;
    assert BufInv(l, s, b);
  }

  lemma TransparentWork(l: Layout, s: State, b: int)
    requires Inv(l, s) && WorkEnabled(l, s) && !s.recovering && l.IsHome(b)
    ensures |DoWork(l, s).disk| == |s.disk|
    ensures Logical(DoWork(l, s), b) == Logical(s, b)
  {
    hide AdmissionInv; hide CoherenceInv; hide CacheInv; hide Recoverable; hide PhaseInv; hide HeldInv;
    assert l.Holds(s.disk);
    match s.phase
    case CopyToLog(k) => if k < |s.lh| { SameContents(s, l.Slot(k), b, s.cache[s.lh[k]].data); }
    case WriteLog(k) => SameWritten(s, l.Slot(k), b);
    case FillHead => SameContents(s, l.start, b, EncodeHead(s.lh, s.cache[l.start].data));
    case WriteHead => SameWritten(s, l.start, b);
    case CopyHome(k) =>
      if k < |s.lh| {
        TransparentInstall(l, s, k);
        SameContents(s, s.lh[k], b, s.cache[l.Slot(k)].data);
      }
    case WriteHome(k) => SameWritten(s, s.lh[k], b);
    case FillZero => SameContents(s, l.start, b, EncodeHead([], s.cache[l.start].data));
    case WriteZero => SameWritten(s, l.start, b);
    case Unpin(k) =>
    case Finish =>
    case ReadHead =>
  }

  lemma SameContents(s: State, c: int, b: int, data: Data)
    requires c in s.cache && (c == b ==> data == s.cache[b].data) && 0 <= b < |s.disk|
    ensures Logical(WithData(s, c, data), b) == Logical(s, b)
  {
  }

  lemma SameWritten(s: State, c: int, b: int)
    requires c in s.cache && s.cache[c].valid && 0 <= c < |s.disk| && 0 <= b < |s.disk|
    ensures Logical(Bwrite(s, c), b) == Logical(s, b)
  {
  }

  lemma TransparentInstall(l: Layout, s: State, k: nat)
    requires Inv(l, s) && !s.recovering && s.phase == CopyHome(k) && k < |s.lh|
    requires Ready(s, l.Slot(k)) && Ready(s, s.lh[k])
    ensures s.cache[l.Slot(k)].data == s.cache[s.lh[k]].data
  {
    hide AdmissionInv; hide CoherenceInv; hide CacheInv; hide Recoverable; hide HeldInv;
    SlotBuffer(l, s, k);
    assert Logical(s, s.lh[k]) == s.committed[s.lh[k]];
  }

  /** With no operation open and no commit under way, the cache, the disk and the
      committed contents agree, and no reference count holds a pin. */
  lemma Quiescent(l: Layout, s: State)
    requires Inv(l, s) && s.phase == Idle && s.outstanding == 0
    ensures forall b :: l.IsHome(b) ==> s.disk[b] == s.committed[b] && Logical(s, b) == s.committed[b]
    ensures forall b :: b in s.cache ==> s.cache[b].refcnt == |s.cache[b].users|
  {
    hide Recoverable;
    forall b | b in s.cache ensures s.cache[b].refcnt == |s.cache[b].users| && !s.cache[b].dirty {
      assert BufInv(l, s, b);
    }
  }
}
