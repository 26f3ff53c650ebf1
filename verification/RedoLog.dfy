/** The on-disk redo log of kernel/log.c, as values: a disk is a sequence of
    blocks, a block is BSIZE / sizeof(int) words, and the block at `start` holds
    the log header (word 0 the entry count, the following words the home block
    numbers).  `Recovered` is what a complete, uninterrupted recovery leaves. */
module RedoLog {
  import opened Params

  const WORDS: nat := 256

  type Data = d: seq<int> | |d| == WORDS witness seq(WORDS, _ => 0)
  type Disk = seq<Data>

  /** Where the log lives: header at `start`, LOGBLOCKS data slots after it. */
  datatype Layout = Layout(start: nat, size: nat) {
    predicate Fits() {
      start + LOGBLOCKS < size
    }

    predicate IsLog(b: int) {
      start <= b <= start + LOGBLOCKS
    }

    predicate IsHome(b: int) {
      0 <= b < size && !IsLog(b)
    }

    /** Slot of the i-th log entry. */
    function Slot(i: nat): nat {
      start + 1 + i
    }

    predicate Holds(d: Disk) {
      Fits() && |d| == size
    }
  }

  /** A header block that names between 0 and LOGBLOCKS home blocks. */
  predicate WellFormedHead(l: Layout, head: Data) {
    && 0 <= head[0] <= LOGBLOCKS
    && forall i :: 1 <= i <= head[0] ==> l.IsHome(head[i])
  }

  function Entries(head: Data): (blocks: seq<int>)
    requires 0 <= head[0] <= LOGBLOCKS
  {
    head[1..1 + head[0]]
  }

  /** write_head: overwrite the count and the first |blocks| numbers of a header block. */
  function EncodeHead(blocks: seq<int>, old_: Data): (head: Data)
    requires |blocks| <= LOGBLOCKS
    ensures 0 <= head[0] <= LOGBLOCKS && Entries(head) == blocks
  {
    [|blocks|] + blocks + old_[1 + |blocks|..]
  }

  /** The disk after the first k entries have been copied home, in order. */
  ghost function Installed(l: Layout, d: Disk, blocks: seq<int>, k: nat): (r: Disk)
    requires l.Holds(d) && k <= |blocks| <= LOGBLOCKS
    requires forall i :: 0 <= i < |blocks| ==> l.IsHome(blocks[i])
    ensures |r| == |d|
  {
    if k == 0 then d
    else
      var prev := Installed(l, d, blocks, k - 1);
      prev[blocks[k - 1] := prev[l.Slot(k - 1)]]
  }

  /** recover_from_log, run to completion on disk d. */
  ghost function Recovered(l: Layout, d: Disk): (r: Disk)
    requires l.Holds(d) && WellFormedHead(l, d[l.start])
    ensures |r| == |d|
  {
    var blocks := Entries(d[l.start]);
    var r := Installed(l, d, blocks, |blocks|);
    r[l.start := EncodeHead([], r[l.start])]
  }

  /** The two disks agree outside the log. */
  ghost predicate SameHome(l: Layout, d: Disk, e: Disk)
    requires l.Holds(d) && l.Holds(e)
  {
    forall b :: l.IsHome(b) ==> d[b] == e[b]
  }

  /** The last of the first k entries naming b, or -1. */
  ghost function LastEntry(blocks: seq<int>, k: nat, b: int): (i: int)
    requires k <= |blocks|
    ensures -1 <= i < k
    ensures i >= 0 ==> blocks[i] == b
    ensures forall j :: i < j < k ==> blocks[j] != b
  {
    if k == 0 then -1 else if blocks[k - 1] == b then k - 1 else LastEntry(blocks, k - 1, b)
  }

  /** Installing k entries: a home block gets the slot of the last entry naming it. */
  lemma {:induction false} InstalledAt(l: Layout, d: Disk, blocks: seq<int>, k: nat, b: int)
    requires l.Holds(d) && k <= |blocks| <= LOGBLOCKS
    requires forall i :: 0 <= i < |blocks| ==> l.IsHome(blocks[i])
    requires 0 <= b < l.size
    ensures
      var i := LastEntry(blocks, k, b);
      Installed(l, d, blocks, k)[b] == if i >= 0 then d[l.Slot(i)] else d[b]
  {
    if k > 0 {
      InstalledAt(l, d, blocks, k - 1, b);
      InstalledAt(l, d, blocks, k - 1, l.Slot(k - 1));
    }
  }

  /** Recovery is idempotent under crashes: stop it after any number k of home
      writes, and a fresh recovery reaches the same home blocks as the first
      would have. */
  lemma {:induction false} CrashDuringRecovery(l: Layout, d: Disk, k: nat)
    requires l.Holds(d) && WellFormedHead(l, d[l.start])
    requires k <= |Entries(d[l.start])|
    ensures
      var e := Installed(l, d, Entries(d[l.start]), k);
      && e[l.start] == d[l.start]
      && WellFormedHead(l, e[l.start])
      && SameHome(l, Recovered(l, e), Recovered(l, d))
  {
    var blocks := Entries(d[l.start]);
    var e := Installed(l, d, blocks, k);
    InstalledAt(l, d, blocks, k, l.start);
    forall b | l.IsHome(b)
      ensures Recovered(l, e)[b] == Recovered(l, d)[b]
    {
      InstalledAt(l, d, blocks, |blocks|, b);
      InstalledAt(l, e, blocks, |blocks|, b);
      InstalledAt(l, d, blocks, k, b);
      var i := LastEntry(blocks, |blocks|, b);
      if i >= 0 {
        InstalledAt(l, d, blocks, k, l.Slot(i));
      }
    }
  }

  /** The states the disk passes through while recovery runs on d: k home blocks
      written, or the header cleared as well. */
  ghost predicate DuringRecovery(l: Layout, d: Disk, e: Disk)
    requires l.Holds(d) && WellFormedHead(l, d[l.start])
  {
    || e == Recovered(l, d)
    || exists k :: 0 <= k <= |Entries(d[l.start])| && e == Installed(l, d, Entries(d[l.start]), k)
  }

  lemma CrashOnce(l: Layout, d: Disk, e: Disk)
    requires l.Holds(d) && WellFormedHead(l, d[l.start]) && DuringRecovery(l, d, e)
    ensures l.Holds(e) && WellFormedHead(l, e[l.start]) && SameHome(l, Recovered(l, e), Recovered(l, d))
  {
    if e != Recovered(l, d) {
      var k :| 0 <= k <= |Entries(d[l.start])| && e == Installed(l, d, Entries(d[l.start]), k);
      CrashDuringRecovery(l, d, k);
    }
  }

  /** Crash recovery itself any number of times, anywhere: disks[i + 1] is where
      the i-th recovery attempt was cut off.  The last attempt still recovers
      what the first one would have. */
  lemma {:induction false} AnyNumberOfCrashes(l: Layout, disks: seq<Disk>, n: nat)
    requires n < |disks| && l.Holds(disks[0]) && WellFormedHead(l, disks[0][l.start])
    requires forall i :: 0 <= i < n && l.Holds(disks[i]) && WellFormedHead(l, disks[i][l.start]) ==> DuringRecovery(l, disks[i], disks[i + 1])
    ensures l.Holds(disks[n]) && WellFormedHead(l, disks[n][l.start])
    ensures SameHome(l, Recovered(l, disks[n]), Recovered(l, disks[0]))
  {
    if n > 0 {
      AnyNumberOfCrashes(l, disks, n - 1);
      CrashOnce(l, disks[n - 1], disks[n]);
    }
  }

  /** Recovering the disk yields exactly `committed`. */
  ghost predicate Recoverable(l: Layout, d: Disk, committed: Disk)
    requires l.Holds(d) && l.Holds(committed)
  {
    && WellFormedHead(l, d[l.start])
    && var e := Entries(d[l.start]);
       && (forall i, j :: 0 <= i < j < |e| ==> e[i] != e[j])
       && (forall i :: 0 <= i < |e| ==> d[l.Slot(i)] == committed[e[i]])
       && (forall b :: l.IsHome(b) && b !in e ==> d[b] == committed[b])
  }

  /** What recovery leaves on a recoverable disk is exactly the committed contents. */
  lemma RecoveredIsCommitted(l: Layout, d: Disk, committed: Disk)
    requires l.Holds(d) && l.Holds(committed) && Recoverable(l, d, committed)
    ensures SameHome(l, Recovered(l, d), committed)
  {
    var e := Entries(d[l.start]);
    forall b | l.IsHome(b) ensures Recovered(l, d)[b] == committed[b] {
      InstalledAt(l, d, e, |e|, b);
    }
  }

  /** Installing an entry, again or for the first time, leaves the disk recoverable. */
  lemma InstallRecoverable(l: Layout, d: Disk, committed: Disk, b: int)
    requires l.Holds(d) && l.Holds(committed) && Recoverable(l, d, committed) && l.IsHome(b)
    ensures Recoverable(l, d[b := committed[b]], committed)
  {
  }
}
