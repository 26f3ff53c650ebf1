/** kernel/log.c as it runs on one CPU over the buffer cache: the loops of
    write_log, install_trans, read_head and write_head, commit and recovery.
    A crash leaves the disk in any of the states `cache.history` records. */
module LogCode {
  import opened Params
  import opened RedoLog
  import opened BufferCache

  datatype Outcome = Done | Committed | Panic | NoBuffers

  /** The disk states install_trans passes through on its first k writes. */
  ghost function InstallTrace(l: Layout, d: Disk, h: seq<int>, k: nat): (trace: seq<Disk>)
    requires l.Holds(d) && k <= |h| <= LOGBLOCKS
    requires forall i :: 0 <= i < |h| ==> l.IsHome(h[i])
    ensures |trace| == k && forall i :: 0 <= i < k ==> trace[i] == Installed(l, d, h, i + 1)
  {
    if k == 0 then [] else InstallTrace(l, d, h, k - 1) + [Installed(l, d, h, k)]
  }

  /** The cache after install_trans has copied the first k entries of h home from
      the log slots of d, dropping `drop` references of each. */
  ghost function InstalledView(l: Layout, v: seq<Entry>, d: Disk, h: seq<int>, k: nat, drop: nat): (r: seq<Entry>)
    requires l.Holds(d) && |v| == |d| && k <= |h| <= LOGBLOCKS
    requires forall i :: 0 <= i < |h| ==> l.IsHome(h[i])
    ensures |r| == |v|
  {
    if k == 0 then v
    else
      var prev := InstalledView(l, v, d, h, k - 1, drop);
      prev[h[k - 1] := prev[h[k - 1]].(data := d[l.Slot(k - 1)], refs := prev[h[k - 1]].refs - drop)]
  }

  /** Each installed block shows its slot and has lost its references; all else is as before. */
  lemma {:induction false} InstalledViewAt(l: Layout, v: seq<Entry>, d: Disk, h: seq<int>, k: nat, drop: nat, c: int)
    requires l.Holds(d) && |v| == |d| && k <= |h| <= LOGBLOCKS && 0 <= c < |d|
    requires forall i :: 0 <= i < |h| ==> l.IsHome(h[i])
    ensures var r := InstalledView(l, v, d, h, k, drop);
      && r[c].locked == v[c].locked
      && (c !in h[..k] ==> r[c] == v[c])
      && ((forall i, j :: 0 <= i < j < |h| ==> h[i] != h[j]) ==>
            forall i :: 0 <= i < k && h[i] == c ==> r[c] == v[c].(data := d[l.Slot(i)], refs := v[c].refs - drop))
  {
    if k > 0 {
      InstalledViewAt(l, v, d, h, k - 1, drop, c);
    }
  }

  /** An entry with one more reference, held locked. */
  ghost function Taken(e: Entry): Entry {
    e.(refs := e.refs + 1, locked := true)
  }

  ghost predicate PinnedIn(h: seq<int>, v: seq<Entry>) {
    && (forall i, j :: 0 <= i < j < |h| ==> h[i] != h[j])
    && (forall i :: 0 <= i < |h| ==> 0 <= h[i] < |v| && v[h[i]].refs >= 1)
  }

  ghost predicate NewerIn(l: Layout, h: seq<int>, v: seq<Entry>, d: Disk, b: int)
    requires l.Holds(d) && |v| == |d|
  {
    forall c :: l.IsHome(c) && c != b && c !in h ==> v[c].data == d[c]
  }

  /** Holding and changing the buffer of block b breaks no pin, and only b gets newer. */
  lemma ChangedOne(l: Layout, h: seq<int>, v: seq<Entry>, d: Disk, b: int, e: Entry)
    requires l.Holds(d) && |v| == |d| && 0 <= b < |v| && e.refs >= v[b].refs
    requires PinnedIn(h, v) && NewerIn(l, h, v, d, -1)
    ensures PinnedIn(h, v[b := e]) && NewerIn(l, h, v[b := e], d, b)
    ensures b in h ==> v[b].refs >= 1
  {
  }

  class Log {
    const l: Layout
    const cache: Bcache
    var n: nat            // lh.n
    var block: seq<int>   // lh.block
    var outstanding: int
    var committing: bool

    ghost predicate Valid()
      reads this, cache
    {
      && cache.Valid() && l.Holds(cache.disk)
      && |block| == LOGBLOCKS && n <= LOGBLOCKS
      && (forall i :: 0 <= i < n ==> l.IsHome(block[i]))
    }

    ghost function Header(): (h: seq<int>)
      reads this
      requires n <= |block|
    {
      block[..n]
    }

    /** Nobody holds a buffer lock, and log blocks are never modified in the cache only. */
    ghost predicate Quiet()
      reads cache
      requires l.Holds(cache.disk)
    {
      forall c :: 0 <= c < l.size ==> !cache.View()[c].locked && (l.IsLog(c) ==> cache.View()[c].data == cache.disk[c])
    }

    constructor (l: Layout, cache: Bcache)
      requires cache.Valid() && l.Holds(cache.disk)
      ensures this.l == l && this.cache == cache && n == 0 && Valid()
    {
      this.l := l;
      this.cache := cache;
      n := 0;
      outstanding := 0;
      committing := false;
      block := seq(LOGBLOCKS, _ => 0);
    }

    /** write_head's loop: the in-memory header over the words of the header block. */
    method FillHead(was: Data) returns (hb: Data)
      requires |block| == LOGBLOCKS && n <= LOGBLOCKS
      ensures hb == EncodeHead(Header(), was)
    {
      var words: seq<int> := was[0 := n];
      var k := 0;
      while k < n
        invariant 0 <= k <= n && |words| == WORDS
        invariant words == [n] + block[..k] + was[1 + k..]
      {
        words := words[1 + k := block[k]];
        k := k + 1;
      }
      hb := words;
    }

    /** write_head: the header block on disk becomes the in-memory header. */
    method WriteHead() returns (ok: bool)
      requires Valid() && Quiet()
      modifies cache
      ensures Valid() && (ok ==> Quiet())
      ensures !ok ==> cache.Exhausted()
      ensures !ok ==> cache.disk == old(cache.disk) && cache.history == old(cache.history)
      ensures ok ==>
        var head := EncodeHead(Header(), old(cache.disk[l.start]));
        && cache.disk == old(cache.disk)[l.start := head]
        && cache.history == old(cache.history) + [cache.disk]
        && cache.View() == old(cache.View())[l.start := old(cache.View()[l.start].(data := head))]
    {
      hide Bcache.Valid; hide Bcache.View; hide Bcache.Exhausted;
      cache.Unreferenced(l.start);
      var i := cache.Bread(l.start);
      if i < 0 { return false; }
      var hb := FillHead(cache.bufs[i].data);
      cache.Fill(i, hb);
      cache.Bwrite(i);
      cache.Brelse(i);
      ok := true;
    }

    /** The first half of a turn of write_log's loop: the log slot is written, and both
        buffers are still held. */
    method CopyToSlot(tail: nat) returns (to: int, from: int)
      requires Valid() && Quiet() && tail < n
      modifies cache
      ensures Valid()
      ensures to < 0 || from < 0 ==> cache.Exhausted()
      ensures to < 0 || from < 0 ==> cache.disk == old(cache.disk) && cache.history == old(cache.history)
      ensures to >= 0 && from >= 0 ==>
        var a, b := l.Slot(tail), block[tail];
        var data := old(cache.View()[b].data);
        && cache.disk == old(cache.disk)[a := data] && cache.history == old(cache.history) + [cache.disk]
        && cache.Held(to) && cache.bufs[to].blockno == a && cache.bufs[to].data == data
        && cache.Held(from) && cache.bufs[from].blockno == b && (cache.bufs[from].refcnt == 1 ==> cache.bufs[from].data == cache.disk[b])
        && cache.View() == old(cache.View())[a := Taken(old(cache.View()[a])).(data := data)][b := Taken(old(cache.View()[b]))]
    {
      hide Bcache.Valid; hide Bcache.View; hide Bcache.Exhausted; hide Look; hide ViewOf;
      from := -1;
      to := cache.Bread(l.start + tail + 1);
      if to < 0 { return; }
      cache.Unreferenced(block[tail]);
      from := cache.Bread(block[tail]);
      if from < 0 { return; }
      cache.Fill(to, cache.bufs[from].data);
      cache.Bwrite(to);
    }

    /** One turn of write_log's loop. */
    method LogOne(tail: nat) returns (ok: bool)
      requires Valid() && Quiet() && tail < n
      modifies cache
      ensures Valid() && (ok ==> Quiet())
      ensures !ok ==> cache.Exhausted()
      ensures !ok ==> cache.disk == old(cache.disk) && cache.history == old(cache.history)
      ensures ok ==>
        var data := old(cache.View()[block[tail]].data);
        && cache.disk == old(cache.disk)[l.Slot(tail) := data]
        && cache.history == old(cache.history) + [cache.disk]
        && cache.View() == old(cache.View())[l.Slot(tail) := old(cache.View()[l.Slot(tail)]).(data := data)]
    {
      hide Bcache.Valid; hide Bcache.View; hide Bcache.Exhausted; hide Look; hide ViewOf;
      var to, from := CopyToSlot(tail);
      if to < 0 || from < 0 { return false; }
      cache.Brelse(from);
      cache.Brelse(to);
      ok := true;
    }

    /** The first half of a turn of install_trans's loop: the home block is
        written, and both buffers are still held. */
    method WriteHome(tail: nat) returns (lbuf: int, dbuf: int)
      requires Valid() && Quiet() && tail < n
      modifies cache
      ensures Valid()
      ensures lbuf < 0 || dbuf < 0 ==> cache.Exhausted()
      ensures lbuf < 0 || dbuf < 0 ==> cache.disk == old(cache.disk) && cache.history == old(cache.history)
      ensures lbuf >= 0 && dbuf >= 0 ==>
        var data, a, b := old(cache.disk[l.Slot(tail)]), l.Slot(tail), block[tail];
        && cache.disk == old(cache.disk)[b := data] && cache.history == old(cache.history) + [cache.disk]
        && cache.Held(lbuf) && cache.bufs[lbuf].blockno == a && cache.bufs[lbuf].data == data
        && cache.Held(dbuf) && cache.bufs[dbuf].blockno == b && cache.bufs[dbuf].data == data
        && cache.bufs[dbuf].refcnt == old(cache.View()[b].refs) + 1
        && cache.View() == old(cache.View())[a := Taken(old(cache.View()[a]))][b := Taken(old(cache.View()[b])).(data := data)]
    {
      hide Bcache.Valid; hide Bcache.View; hide Bcache.Exhausted;
      cache.Unreferenced(l.Slot(tail));
      dbuf := -1;
      lbuf := cache.Bread(l.start + tail + 1);
      if lbuf < 0 { return; }
      dbuf := cache.Bread(block[tail]);
      if dbuf < 0 { return; }
      cache.Fill(dbuf, cache.bufs[lbuf].data);
      cache.Bwrite(dbuf);
    }

    /** One turn of install_trans's loop. */
    method InstallOne(tail: nat, recovering: bool) returns (ok: bool)
      requires Valid() && Quiet() && tail < n
      requires !recovering ==> cache.View()[block[tail]].refs >= 1
      modifies cache
      ensures Valid() && (ok ==> Quiet())
      ensures !ok ==> cache.Exhausted()
      ensures !ok ==> cache.disk == old(cache.disk) && cache.history == old(cache.history)
      ensures ok ==>
        var data := old(cache.disk[l.Slot(tail)]);
        var entry := old(cache.View()[block[tail]]);
        && cache.disk == old(cache.disk)[block[tail] := data]
        && cache.history == old(cache.history) + [cache.disk]
        && cache.View() == old(cache.View())[block[tail] := entry.(data := data, refs := entry.refs - (if recovering then 0 else 1))]
    {
      hide Bcache.Valid; hide Bcache.View; hide Bcache.Exhausted;
      var lbuf, dbuf := WriteHome(tail);
      if lbuf < 0 || dbuf < 0 { return false; }
      if !recovering {
        cache.Bunpin(dbuf);
      }
      cache.Brelse(lbuf);
      cache.Brelse(dbuf);
      ok := true;
    }

    /** write_log: slot i receives the latest contents of the i-th logged block;
        no home block and no header is touched on the way. */
    method WriteLog() returns (ok: bool)
      requires Valid() && Quiet()
      modifies cache
      ensures Valid()
      ensures !ok ==> cache.Exhausted()
      ensures old(cache.history) <= cache.history && |cache.history| <= |old(cache.history)| + n
      ensures forall k :: |old(cache.history)| <= k < |cache.history| ==> SlotsOnly(l, old(cache.disk), cache.history[k])
      ensures ok ==> Quiet() && |cache.history| == |old(cache.history)| + n && SlotsOnly(l, old(cache.disk), cache.disk)
      ensures ok ==> forall i :: 0 <= i < n ==> cache.disk[l.Slot(i)] == old(cache.View()[block[i]].data)
      ensures ok ==> forall c :: l.IsHome(c) ==> cache.View()[c] == old(cache.View()[c])
    {
      hide Bcache.Valid; hide Bcache.View; hide Bcache.Exhausted;
      var tail := 0;
      while tail < n
        invariant 0 <= tail <= n && Valid() && Quiet()
        invariant SlotsOnly(l, old(cache.disk), cache.disk)
        invariant forall i :: 0 <= i < tail ==> cache.disk[l.Slot(i)] == old(cache.View()[block[i]].data)
        invariant old(cache.history) <= cache.history && |cache.history| == |old(cache.history)| + tail
        invariant forall k :: |old(cache.history)| <= k < |cache.history| ==> SlotsOnly(l, old(cache.disk), cache.history[k])
        invariant forall c :: l.IsHome(c) ==> cache.View()[c] == old(cache.View()[c])
      {
        ok := LogOne(tail);
        if !ok { return; }
        tail := tail + 1;
      }
      ok := true;
    }

    /** install_trans: the disk becomes the log installed, one entry per write;
        outside recovery the pin of every entry is dropped. */
    method InstallTrans(recovering: bool) returns (ok: bool, ghost done: nat)
      requires Valid() && Quiet()
      requires !recovering ==> forall i :: 0 <= i < n ==> cache.View()[block[i]].refs >= 1
      requires !recovering ==> forall i, j :: 0 <= i < j < n ==> block[i] != block[j]
      modifies cache
      ensures Valid()
      ensures !ok ==> cache.Exhausted()
      ensures done <= n && (ok ==> done == n)
      ensures cache.history == old(cache.history) + InstallTrace(l, old(cache.disk), Header(), done)
      ensures ok ==> Quiet()
      ensures ok ==> cache.disk == Installed(l, old(cache.disk), Header(), n)
      ensures ok ==> cache.View() == InstalledView(l, old(cache.View()), old(cache.disk), Header(), n, if recovering then 0 else 1)
    {
      hide Bcache.Valid; hide Bcache.View; hide Bcache.Exhausted; hide Installed; hide InstalledView; hide InstallTrace; hide Quiet; hide Look; hide ViewOf; hide Unique; hide IsPermutation;
      ghost var h, d, v, past := Header(), cache.disk, cache.View(), cache.history;
      ghost var drop := if recovering then 0 else 1;
      NothingInstalled(l, v, d, h, drop);
      var tail := 0;
      done := 0;
      while tail < n
        invariant 0 <= tail <= n && done == tail && Valid() && Quiet() && h == Header()
        invariant cache.disk == Installed(l, d, h, tail)
        invariant cache.View() == InstalledView(l, v, d, h, tail, drop)
        invariant cache.history == past + InstallTrace(l, d, h, tail)
      {
        NextEntry(l, v, d, h, tail, drop, recovering);
        ok := InstallOne(tail, recovering);
        if !ok { return; }
        OneMore(l, v, d, h, tail, drop);
        tail := tail + 1;
        done := done + 1;
      }
      ok := true;
    }

    /** read_head: the in-memory header becomes the one on disk. */
    method ReadHead() returns (ok: bool)
      requires Valid() && Quiet() && WellFormedHead(l, cache.disk[l.start])
      modifies this, cache
      ensures Valid() && cache.disk == old(cache.disk) && cache.history == old(cache.history)
      ensures !ok ==> cache.Exhausted()
      ensures ok ==> Quiet() && Header() == Entries(cache.disk[l.start]) && cache.View() == old(cache.View())
    {
      hide Bcache.Valid; hide Bcache.View; hide Bcache.Exhausted; hide Look; hide ViewOf; hide Unique; hide IsPermutation; hide Bcache.BufOk;
      n := 0;
      cache.Unreferenced(l.start);
      var i := cache.Bread(l.start);
      if i < 0 { return false; }
      var lh := cache.bufs[i].data;
      assert lh == old(cache.disk[l.start]);
      var count := lh[0];
      var k := 0;
      while k < count
        invariant 0 <= k <= count && |block| == LOGBLOCKS && n == 0
        invariant forall j :: 0 <= j < k ==> block[j] == lh[1 + j]
        modifies this
      {
        block := block[k := lh[1 + k]];
        k := k + 1;
      }
      n := count;
      cache.Brelse(i);
      ok := true;
    }

    /** Only blocks named in the header are newer in the cache than on disk. */
    ghost predicate OnlyLoggedAreNewer()
      reads this, cache
      requires Valid()
    {
      NewerIn(l, Header(), cache.View(), cache.disk, -1)
    }

    /** Every block in the header is there once, and pinned. */
    ghost predicate Pinned()
      reads this, cache
      requires Valid()
    {
      PinnedIn(Header(), cache.View())
    }

    /** No commit is half done and no buffer is held: what commit starts from. */
    ghost predicate Ready()
      reads this, cache
      ensures Ready() ==> Valid()
    {
      Valid() && Quiet() && cache.disk[l.start][0] == 0 && OnlyLoggedAreNewer() && Pinned()
    }

    /** What readers see, as a disk. */
    ghost function Seen(): (d: Disk)
      reads this, cache
      requires Valid()
      ensures l.Holds(d)
    {
      var v := cache.View();
      seq<Data>(l.size, c requires 0 <= c < l.size => v[c].data)
    }

    /** The first half of commit, up to and including the header write. */
    method LogAndHead() returns (ok: bool)
      requires Valid() && Quiet() && cache.disk[l.start][0] == 0 && OnlyLoggedAreNewer()
      requires forall i, j :: 0 <= i < j < n ==> block[i] != block[j]
      modifies cache
      ensures Valid() && old(cache.history) <= cache.history && |cache.history| <= |old(cache.history)| + n + 1
      ensures !ok ==> cache.Exhausted()
      ensures forall k :: |old(cache.history)| <= k < |cache.history| ==>
        l.Holds(cache.history[k]) &&
        Recoverable(l, cache.history[k], if k < |old(cache.history)| + n then old(cache.disk) else old(Seen()))
      ensures ok ==> Quiet() && |cache.history| == |old(cache.history)| + n + 1
      ensures ok ==> Recoverable(l, cache.disk, old(Seen())) && Entries(cache.disk[l.start]) == Header()
      ensures ok ==> forall c :: l.IsHome(c) ==> cache.View()[c] == old(cache.View()[c])
    {
      hide Bcache.Valid; hide Bcache.View; hide Bcache.Exhausted; hide Recoverable; hide Look; hide ViewOf; hide Unique; hide IsPermutation; hide Bcache.BufOk;
      hide NewerIn; hide EncodeHead; hide Entries;
      ghost var h, pre, seen, v := Header(), cache.disk, Seen(), cache.View();
      ok := WriteLog();
      SlotsRecoverable(l, pre, |old(cache.history)|, cache.history);
      if !ok { return; }
      ghost var logged := cache.disk;
      ok := WriteHead();
      if !ok { return; }
      LoggedCommits(l, pre, logged, cache.disk, h, v, seen);
    }

    /** commit's call of install_trans: recoverable after every write, and at the end
        the new contents are at home. */
    method InstallAll(ghost seen: Disk) returns (ok: bool)
      requires Valid() && Quiet() && l.Holds(seen) && Recoverable(l, cache.disk, seen) && Entries(cache.disk[l.start]) == Header()
      requires forall i :: 0 <= i < n ==> cache.View()[block[i]].refs >= 1
      modifies cache
      ensures Valid() && old(cache.history) <= cache.history
      ensures !ok ==> cache.Exhausted()
      ensures forall k :: |old(cache.history)| <= k < |cache.history| ==>
        l.Holds(cache.history[k]) && Recoverable(l, cache.history[k], seen)
      ensures ok ==> Quiet() && SameHome(l, cache.disk, seen)
      ensures ok ==> cache.View() == InstalledView(l, old(cache.View()), old(cache.disk), Header(), n, 1)
    {
      hide Bcache.Valid; hide Bcache.View; hide Bcache.Exhausted; hide Installed; hide InstalledView; hide Quiet; hide Look; hide ViewOf;
      ghost var d, past := cache.disk, cache.history;
      assert forall i, j :: 0 <= i < j < n ==> Header()[i] != Header()[j];
      hide Recoverable; hide SameHome; hide Entries; hide InstallTrace;
      ghost var done;
      ok, done := InstallTrans(false);
      AllRecoverable(l, d, seen, past, cache.history, done);
      if ok { AllInstalled(l, d, seen); }
    }

    /** The second half: install, then clear the header. */
    method InstallAndClear(ghost seen: Disk) returns (ok: bool)
      requires Valid() && Quiet() && l.Holds(seen) && Recoverable(l, cache.disk, seen) && Entries(cache.disk[l.start]) == Header()
      requires forall i :: 0 <= i < n ==> cache.View()[block[i]].refs >= 1
      modifies `n, cache
      ensures Valid() && old(cache.history) <= cache.history
      ensures !ok ==> cache.Exhausted()
      ensures forall k :: |old(cache.history)| <= k < |cache.history| ==>
        l.Holds(cache.history[k]) && Recoverable(l, cache.history[k], seen)
      ensures ok ==> n == 0 && Quiet() && cache.disk[l.start][0] == 0 && SameHome(l, cache.disk, seen)
      ensures ok ==> forall c :: l.IsHome(c) ==>
        cache.View()[c] == InstalledView(l, old(cache.View()), old(cache.disk), old(Header()), old(n), 1)[c]
    {
      hide Bcache.Valid; hide Bcache.View; hide Bcache.Exhausted; hide InstalledView; hide Quiet; hide Look; hide ViewOf; hide Recoverable; hide SameHome;
      ok := InstallAll(seen);
      if !ok { return; }
      n := 0;
      ghost var installed := cache.disk;
      ok := WriteHead();
      if !ok { return; }
      ClearedRecoverable(l, installed, cache.disk, seen);
    }

    /** commit: crash it after any of its disk writes, and recovery finds either
        exactly the contents before the transaction or exactly those after it:
        the latter if and only if the header naming n > 0 blocks has been written
        (write number n, counting from 0).  Run to the end it leaves the new
        contents at home, the header cleared, and one reference fewer per logged block. */
    method Commit() returns (ok: bool)
      requires Ready()
      modifies `n, cache
      ensures Valid() && old(cache.history) <= cache.history
      ensures !ok ==> cache.Exhausted()
      ensures forall k :: |old(cache.history)| <= k < |cache.history| ==>
        l.Holds(cache.history[k]) &&
        Recoverable(l, cache.history[k], if k < |old(cache.history)| + old(n) then old(cache.disk) else old(Seen()))
      ensures ok ==> n == 0 && Quiet() && cache.disk[l.start][0] == 0 && SameHome(l, cache.disk, old(Seen()))
      ensures ok ==> forall c :: l.IsHome(c) ==> cache.View()[c].data == old(cache.View()[c].data)
      ensures ok ==> forall c :: l.IsHome(c) ==> cache.View()[c].refs == old(cache.View()[c].refs - if c in Header() then 1 else 0)
    {
      hide Bcache.Valid; hide Bcache.View; hide Bcache.Exhausted; hide Recoverable; hide InstalledView; hide Quiet;
      if n > 0 {
        ghost var v, h, seen := cache.View(), Header(), Seen();
        ok := LogAndHead();
        if !ok { return; }
        ghost var v1, d1, half := cache.View(), cache.disk, cache.history;
        ok := InstallAndClear(seen);
        if ok {
          forall c | l.IsHome(c) ensures cache.View()[c].data == v[c].data && cache.View()[c].refs == v[c].refs - if c in h then 1 else 0 {
            CommittedView(l, v1, d1, h, seen, c);
          }
        }
      } else {
        ok := true;
      }
    }

    /** recover_from_log: every state it leaves the disk in, if cut off there, is a
        stage of the one recovery of the disk it started from. */
    method Recover() returns (ok: bool)
      requires Valid() && Quiet() && WellFormedHead(l, cache.disk[l.start])
      modifies this, cache
      ensures Valid() && old(cache.history) <= cache.history
      ensures !ok ==> cache.Exhausted()
      ensures forall k :: |old(cache.history)| <= k < |cache.history| ==> DuringRecovery(l, old(cache.disk), cache.history[k])
      ensures ok ==> n == 0 && Quiet() && cache.disk == Recovered(l, old(cache.disk))
    {
      hide Bcache.Valid; hide Bcache.View; hide Bcache.Exhausted; hide InstalledView; hide Quiet; hide Installed;
      ok := ReadHead();
      if !ok { return; }
      ghost var done;
      ok, done := InstallTrans(true);
      if !ok { return; }
      n := 0;
      ok := WriteHead();
    }

    /** begin_op, one turn of its loop: admitted unless a commit is running or the
        operation's worst case might not fit; otherwise the caller sleeps and retries. */
    method TryBeginOp() returns (admitted: bool)
      modifies `outstanding
      ensures admitted <==> !committing && n + (old(outstanding) + 1) * MAXOPBLOCKS <= LOGBLOCKS
      ensures outstanding == if admitted then old(outstanding) + 1 else old(outstanding)
    {
      admitted := !committing && !(n + (outstanding + 1) * MAXOPBLOCKS > LOGBLOCKS);
      if admitted {
        outstanding := outstanding + 1;
      }
    }

    /** end_op: the last operation out commits.  Crash it after any disk write, and recovery
        finds what was on disk before, or, from the header write on, all that the open
        operations of this transaction have shown to readers. */
    method EndOp() returns (r: Outcome)
      requires Valid() && (outstanding == 1 && !committing ==> Ready())
      modifies `outstanding, `committing, `n, cache
      ensures Valid() && outstanding == old(outstanding) - 1 && old(cache.history) <= cache.history
      ensures r == Panic <==> old(committing)
      ensures r in {Committed, NoBuffers} <==> !old(committing) && outstanding == 0
      ensures r in {Done, Panic} ==> committing == old(committing) && n == old(n) && cache.View() == old(cache.View()) && cache.history == old(cache.history)
      ensures r == NoBuffers ==> cache.Exhausted()
      ensures forall k :: |old(cache.history)| <= k < |cache.history| ==>
        l.Holds(cache.history[k]) &&
        Recoverable(l, cache.history[k], if k < |old(cache.history)| + old(n) then old(cache.disk) else old(Seen()))
      ensures r == Committed ==> !committing && n == 0 && Ready() && SameHome(l, cache.disk, old(Seen()))
      ensures r == Committed ==> forall c :: l.IsHome(c) ==> cache.View()[c].data == old(cache.View()[c].data)
      ensures r == Committed ==> forall c :: l.IsHome(c) ==> cache.View()[c].refs == old(cache.View()[c].refs - if c in Header() then 1 else 0)
    {
      hide Bcache.Valid; hide Bcache.View; hide Bcache.Exhausted; hide Recoverable; hide Quiet;
      outstanding := outstanding - 1;
      if committing { return Panic; }
      if outstanding != 0 { return Done; }
      committing := true;
      var ok := Commit();
      if !ok { return NoBuffers; }
      committing := false;
      r := Committed;
    }

    /** log_write: absorbed when the block is already logged, otherwise appended and pinned;
        so each logged block stays in the header once, pinned, and a block that only the
        holder of buffer i had changed is logged now. */
    method LogWrite(i: nat) returns (r: Outcome)
      requires Valid() && cache.Held(i) && l.IsHome(cache.bufs[i].blockno)
      modifies `n, `block, cache`bufs
      ensures Valid() && r in {Done, Panic}
      ensures r == Panic <==> old(n) >= LOGBLOCKS || outstanding < 1
      ensures r == Panic ==> n == old(n) && cache.View() == old(cache.View())
      ensures var b := old(cache.bufs[i].blockno); r != Panic ==>
        && Header() == (if b in old(Header()) then old(Header()) else old(Header()) + [b])
        && cache.View() == (if b in old(Header()) then old(cache.View())
                            else old(cache.View()[b := cache.View()[b].(refs := cache.View()[b].refs + 1)]))
      ensures r != Panic ==> cache.bufs == old(cache.bufs)[i := old(cache.bufs)[i].(refcnt := cache.bufs[i].refcnt)]
      ensures r != Panic ==> cache.bufs[i].refcnt == old(cache.bufs[i].refcnt + if cache.bufs[i].blockno in Header() then 0 else 1)
      ensures r != Panic && old(Pinned()) ==> Pinned()
      ensures r != Panic && old(OnlyNewer(cache.bufs[i].blockno)) ==> OnlyLoggedAreNewer()
    {
      hide Bcache.Valid; hide Bcache.View; hide Bcache.Exhausted;
      if n >= LOGBLOCKS { return Panic; }
      if outstanding < 1 { return Panic; }
      var b := cache.bufs[i].blockno;
      var k := 0;
      while k < n && block[k] != b
        invariant 0 <= k <= n && forall j :: 0 <= j < k ==> block[j] != b
      {
        k := k + 1;
      }
      assert k < n ==> Header()[k] == b;
      ghost var h := Header();
      block := block[k := b];
      if k == n {
        cache.Unreferenced(b);
        cache.Bpin(i);
        n := n + 1;
        assert Header() == h + [b];
      } else {
        assert Header() == h;
      }
      r := Done;
    }

    /** Only blocks named in the header, and block b, are newer in the cache than on disk. */
    ghost predicate OnlyNewer(b: int)
      reads this, cache
      requires Valid()
    {
      NewerIn(l, Header(), cache.View(), cache.disk, b)
    }

    /** bread, memmove and log_write, with the buffer still held. */
    method ChangeBlock(b: nat, data: Data) returns (i: int)
      requires Ready() && l.IsHome(b) && outstanding >= 1 && n < LOGBLOCKS
      modifies `n, `block, cache`bufs
      ensures Valid() && (i < 0 ==> cache.Exhausted())
      ensures i >= 0 ==> cache.Held(i) && cache.bufs[i].blockno == b && cache.bufs[i].refcnt >= 2 && b in Header() && n <= old(n) + 1
      ensures i >= 0 ==> Pinned() && OnlyLoggedAreNewer() && cache.View()[b].refs >= 2
      ensures i >= 0 ==> cache.View() == old(cache.View())[b := Entry(data, cache.View()[b].refs, true)]
    {
      hide Bcache.Valid; hide Bcache.View; hide Bcache.Exhausted; hide Look; hide ViewOf; hide Unique; hide IsPermutation; hide Bcache.BufOk; hide PinnedIn; hide NewerIn;
      ghost var v, e := cache.View(), Taken(cache.View()[b]).(data := data);
      ChangedOne(l, Header(), v, cache.disk, b, e);
      cache.Unreferenced(b);
      i := cache.Bread(b);
      if i < 0 { return; }
      cache.Fill(i, data);
      assert cache.View() == v[b := e];
      var r := LogWrite(i);
    }

    /** How an operation changes a block: bread, memmove, log_write, brelse. */
    method WriteBlock(b: nat, data: Data) returns (r: Outcome)
      requires Ready() && l.IsHome(b) && outstanding >= 1 && n < LOGBLOCKS
      modifies `n, `block, cache`bufs, cache`lru, cache`releases, cache`released
      ensures r in {Done, NoBuffers} && (r == NoBuffers ==> Valid() && cache.Exhausted())
      ensures r == Done ==> Ready() && Seen() == old(Seen())[b := data] && n <= old(n) + 1
    {
      hide Bcache.Valid; hide Bcache.View; hide Bcache.Exhausted; hide Look; hide ViewOf; hide Unique; hide IsPermutation; hide Bcache.BufOk;
      var i := ChangeBlock(b, data);
      if i < 0 { return NoBuffers; }
      cache.Brelse(i);
      r := Done;
    }

    /** An operation from begin_op to end_op that writes up to MAXOPBLOCKS times is atomic:
        after every disk write it makes, recovery finds exactly the contents before it or
        exactly those with all of its writes; and none of log.c's panics is met. */
    method Operation(writes: seq<(nat, Data)>) returns (r: Outcome, ghost logged: nat)
      requires Ready() && n == 0 && outstanding == 0 && !committing && |writes| <= MAXOPBLOCKS
      requires forall k :: 0 <= k < |writes| ==> l.IsHome(writes[k].0)
      modifies this, cache
      ensures Valid() && r in {Committed, NoBuffers} && old(cache.history) <= cache.history && logged <= |writes|
      ensures r == NoBuffers ==> cache.Exhausted()
      ensures forall k :: |old(cache.history)| <= k < |cache.history| ==>
        l.Holds(cache.history[k]) &&
        Recoverable(l, cache.history[k], if k < |old(cache.history)| + logged then old(cache.disk) else Written(old(cache.disk), writes))
      ensures r == Committed ==> Ready() && n == 0 && outstanding == 0 && !committing && SameHome(l, cache.disk, Written(old(cache.disk), writes))
    {
      hide Bcache.Valid; hide Bcache.View; hide Bcache.Exhausted; hide Recoverable;
      ghost var was := cache.disk;
      SeenIsDisk();
      logged := 0;
      assert writes[..0] == [];
      var admitted := TryBeginOp();
      hide Ready; hide Seen;
      var k := 0;
      while k < |writes|
        invariant 0 <= k <= |writes| && Valid() && Ready() && n <= k && outstanding == 1 && !committing
        invariant cache.disk == was && cache.history == old(cache.history) && Seen() == Written(was, writes[..k])
      {
        r := WriteBlock(writes[k].0, writes[k].1);
        if r == NoBuffers { return; }
        assert writes[..k + 1][..k] == writes[..k];
        k := k + 1;
      }
      assert writes[..k] == writes;
      logged := n;
      r := EndOp();
    }

    /** With nothing logged, readers see the disk. */
    lemma SeenIsDisk()
      requires Ready() && n == 0
      ensures Seen() == cache.disk
    {
    }
  }

  /** The disk with the blocks of an operation written, in order. */
  ghost function Written(d: Disk, writes: seq<(nat, Data)>): (r: Disk)
    requires forall k :: 0 <= k < |writes| ==> writes[k].0 < |d|
    ensures |r| == |d|
  {
    if writes == [] then d else Written(d, writes[..|writes| - 1])[writes[|writes| - 1].0 := writes[|writes| - 1].1]
  }

  /** Committing shows every reader what it saw before, with the pins gone. */
  lemma CommittedView(l: Layout, v: seq<Entry>, d: Disk, h: seq<int>, seen: Disk, c: int)
    requires l.Holds(d) && |v| == |d| && |h| <= LOGBLOCKS && l.Holds(seen) && l.IsHome(c)
    requires Recoverable(l, d, seen) && Entries(d[l.start]) == h && v[c].data == seen[c]
    ensures forall i :: 0 <= i < |h| ==> l.IsHome(h[i])
    ensures var e := InstalledView(l, v, d, h, |h|, 1)[c];
      e.data == v[c].data && e.refs == v[c].refs - if c in h then 1 else 0
  {
    HeaderFacts(l, d, h, seen);
    hide Recoverable; hide Entries; hide InstalledView;
    InstalledViewAt(l, v, d, h, |h|, 1, c);
    assert h[..|h|] == h;
    if c in h {
      var i :| 0 <= i < |h| && h[i] == c;
      assert d[l.Slot(i)] == seen[h[i]];
    }
  }

  lemma HeaderFacts(l: Layout, d: Disk, h: seq<int>, seen: Disk)
    requires l.Holds(d) && l.Holds(seen) && Recoverable(l, d, seen) && Entries(d[l.start]) == h
    ensures |h| <= LOGBLOCKS && (forall i :: 0 <= i < |h| ==> l.IsHome(h[i]))
    ensures forall i, j :: 0 <= i < j < |h| ==> h[i] != h[j]
    ensures forall i :: 0 <= i < |h| ==> d[l.Slot(i)] == seen[h[i]]
  {
    assert forall i :: 0 <= i < |h| ==> h[i] == d[l.start][1 + i];
  }

  /** e differs from d in log slots only. */
  ghost predicate SlotsOnly(l: Layout, d: Disk, e: Disk) {
    |d| == |e| == l.size && forall c :: 0 <= c < l.size && !(l.start < c <= l.start + LOGBLOCKS) ==> e[c] == d[c]
  }

  /** Filling log slots commits nothing. */
  lemma SlotsRecoverable(l: Layout, pre: Disk, from: nat, history: seq<Disk>)
    requires l.Holds(pre) && pre[l.start][0] == 0
    requires forall k :: from <= k < |history| ==> SlotsOnly(l, pre, history[k])
    ensures forall k :: from <= k < |history| ==> l.Holds(history[k]) && Recoverable(l, history[k], pre)
  {
  }

  /** With every slot holding what readers see of its block, the header write commits. */
  lemma LoggedCommits(l: Layout, pre: Disk, d: Disk, e: Disk, h: seq<int>, v: seq<Entry>, seen: Disk)
    requires l.Holds(pre) && l.Holds(seen) && |v| == |pre| && |h| <= LOGBLOCKS && SlotsOnly(l, pre, d)
    requires (forall c :: 0 <= c < l.size ==> seen[c] == v[c].data) && NewerIn(l, h, v, pre, -1)
    requires forall i :: 0 <= i < |h| ==> l.IsHome(h[i]) && d[l.Slot(i)] == v[h[i]].data
    requires forall i, j :: 0 <= i < j < |h| ==> h[i] != h[j]
    requires e == d[l.start := EncodeHead(h, d[l.start])]
    ensures Recoverable(l, e, seen) && Entries(e[l.start]) == h
  {
    hide Recoverable; hide EncodeHead; hide Entries;
    HeaderCommits(l, d, e, h, seen);
  }

  lemma HeaderCommits(l: Layout, d: Disk, e: Disk, h: seq<int>, seen: Disk)
    requires l.Holds(d) && l.Holds(seen) && |h| <= LOGBLOCKS
    requires forall i :: 0 <= i < |h| ==> l.IsHome(h[i]) && d[l.Slot(i)] == seen[h[i]]
    requires forall i, j :: 0 <= i < j < |h| ==> h[i] != h[j]
    requires forall b :: l.IsHome(b) && b !in h ==> d[b] == seen[b]
    requires e == d[l.start := EncodeHead(h, d[l.start])]
    ensures Recoverable(l, e, seen) && Entries(e[l.start]) == h
  {
  }

  lemma InstalledStep(l: Layout, d: Disk, h: seq<int>, k: nat)
    requires l.Holds(d) && k <= |h| <= LOGBLOCKS && forall i :: 0 <= i < |h| ==> l.IsHome(h[i])
    ensures Installed(l, d, h, 0) == d
    ensures k > 0 ==> var prev := Installed(l, d, h, k - 1); Installed(l, d, h, k) == prev[h[k - 1] := prev[l.Slot(k - 1)]]
  {
  }

  lemma {:induction false} TraceRecoverable(l: Layout, d: Disk, seen: Disk, k: nat)
    requires l.Holds(d) && l.Holds(seen) && Recoverable(l, d, seen) && k <= |Entries(d[l.start])|
    ensures var e := Installed(l, d, Entries(d[l.start]), k); Recoverable(l, e, seen) && e[l.start] == d[l.start]
  {
    var h := Entries(d[l.start]);
    HeaderFacts(l, d, h, seen);
    hide Recoverable; hide Entries; hide Installed;
    InstalledStep(l, d, h, k);
    if k > 0 {
      TraceRecoverable(l, d, seen, k - 1);
      InstalledAt(l, d, h, k - 1, l.Slot(k - 1));
      InstallRecoverable(l, Installed(l, d, h, k - 1), seen, h[k - 1]);
    }
  }

  lemma AllRecoverable(l: Layout, d: Disk, seen: Disk, past: seq<Disk>, history: seq<Disk>, k: nat)
    requires l.Holds(d) && l.Holds(seen) && Recoverable(l, d, seen) && k <= |Entries(d[l.start])|
    requires history == past + InstallTrace(l, d, Entries(d[l.start]), k)
    ensures forall i :: |past| <= i < |history| ==> l.Holds(history[i]) && Recoverable(l, history[i], seen)
  {
    hide InstallTrace; hide Installed;
    forall i | |past| <= i < |history| ensures l.Holds(history[i]) && Recoverable(l, history[i], seen) {
      TraceRecoverable(l, d, seen, i + 1 - |past|);
    }
  }

  lemma AllInstalled(l: Layout, d: Disk, seen: Disk)
    requires l.Holds(d) && l.Holds(seen) && Recoverable(l, d, seen)
    ensures var h := Entries(d[l.start]); SameHome(l, Installed(l, d, h, |h|), seen)
  {
    RecoveredIsCommitted(l, d, seen);
  }

  lemma ClearedRecoverable(l: Layout, d: Disk, e: Disk, seen: Disk)
    requires l.Holds(d) && l.Holds(seen) && SameHome(l, d, seen)
    requires e == d[l.start := EncodeHead([], d[l.start])]
    ensures Recoverable(l, e, seen) && SameHome(l, e, seen)
  {
  }

  /** Before turn `tail` its slot is as it was, and its block still has its pin. */
  lemma NextEntry(l: Layout, v: seq<Entry>, d: Disk, h: seq<int>, tail: nat, drop: nat, recovering: bool)
    requires l.Holds(d) && |v| == |d| && tail < |h| <= LOGBLOCKS && (forall i :: 0 <= i < |h| ==> l.IsHome(h[i]))
    requires drop == (if recovering then 0 else 1) && (!recovering ==> forall i, j :: 0 <= i < j < |h| ==> h[i] != h[j])
    requires !recovering ==> l.IsHome(h[tail]) && v[h[tail]].refs >= 1
    ensures Installed(l, d, h, tail)[l.Slot(tail)] == d[l.Slot(tail)]
    ensures !recovering ==> InstalledView(l, v, d, h, tail, drop)[h[tail]].refs >= 1
  {
    InstalledAt(l, d, h, tail, l.Slot(tail));
    InstalledViewAt(l, v, d, h, tail, drop, h[tail]);
  }

  lemma NothingInstalled(l: Layout, v: seq<Entry>, d: Disk, h: seq<int>, drop: nat)
    requires l.Holds(d) && |v| == |d| && |h| <= LOGBLOCKS
    requires forall i :: 0 <= i < |h| ==> l.IsHome(h[i])
    ensures Installed(l, d, h, 0) == d && InstallTrace(l, d, h, 0) == [] && InstalledView(l, v, d, h, 0, drop) == v
  {
  }

  lemma OneMore(l: Layout, v: seq<Entry>, d: Disk, h: seq<int>, k: nat, drop: nat)
    requires l.Holds(d) && |v| == |d| && k < |h| <= LOGBLOCKS
    requires forall i :: 0 <= i < |h| ==> l.IsHome(h[i])
    ensures var prev := Installed(l, d, h, k); Installed(l, d, h, k + 1) == prev[h[k] := prev[l.Slot(k)]]
    ensures InstallTrace(l, d, h, k + 1) == InstallTrace(l, d, h, k) + [Installed(l, d, h, k + 1)]
    ensures var prev := InstalledView(l, v, d, h, k, drop);
      InstalledView(l, v, d, h, k + 1, drop) == prev[h[k] := prev[h[k]].(data := d[l.Slot(k)], refs := prev[h[k]].refs - drop)]
  {
  }
}
