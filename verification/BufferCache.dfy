/** kernel/bio.c: the buffer cache over one disk.  The LRU list is a sequence of
    buffer indices, most recently released first; the disk is written one block
    at a time, and `history` records every state it has been in. */
module BufferCache {
  import opened Params
  import opened RedoLog

  const ZERO: Data := seq(WORDS, _ => 0)

  datatype Buf = Buf(valid: bool, dev: nat, blockno: nat, refcnt: int, locked: bool, data: Data)

  /** What the cache means for one block: what a reader of it sees, how many
      references there are to its buffer, and whether someone holds its lock. */
  datatype Entry = Entry(data: Data, refs: int, locked: bool)

  /** Buffer i is the cache's buffer for block c of device dev. */
  ghost predicate IsFor(bufs: seq<Buf>, dev: nat, i: int, c: int) {
    0 <= i < |bufs| && bufs[i].dev == dev && bufs[i].blockno == c
  }

  /** No two buffers are for the same block. */
  ghost predicate Unique(bufs: seq<Buf>, dev: nat) {
    forall i, j, c :: IsFor(bufs, dev, i, c) && IsFor(bufs, dev, j, c) ==> i == j
  }

  ghost function EntryOf(b: Buf, onDisk: Data): Entry {
    Entry(if b.valid then b.data else onDisk, b.refcnt, b.locked)
  }

  ghost function Look(bufs: seq<Buf>, dev: nat, disk: Disk, c: int): Entry
    requires 0 <= c < |disk|
  {
    if i :| IsFor(bufs, dev, i, c) then EntryOf(bufs[i], disk[c]) else Entry(disk[c], 0, false)
  }

  /** The meaning of the whole cache and disk, block by block. */
  ghost function ViewOf(bufs: seq<Buf>, dev: nat, disk: Disk): (v: seq<Entry>)
    ensures |v| == |disk|
  {
    seq(|disk|, c requires 0 <= c < |disk| => Look(bufs, dev, disk, c))
  }

  ghost predicate IsPermutation(lru: seq<nat>) {
    && |lru| == NBUF
    && (forall k :: 0 <= k < NBUF ==> lru[k] < NBUF)
    && (forall j, k :: 0 <= j < k < NBUF ==> lru[j] != lru[k])
    && (forall i :: 0 <= i < NBUF ==> i in lru)
  }

  lemma MovedToFront(lru: seq<nat>, p: nat)
    requires IsPermutation(lru) && p < NBUF
    ensures IsPermutation([lru[p]] + lru[..p] + lru[p + 1..])
  {
    var moved := [lru[p]] + lru[..p] + lru[p + 1..];
    forall j | 0 <= j < NBUF ensures j in moved {
      assert j in lru;
      var k :| 0 <= k < NBUF && lru[k] == j;
      assert moved[if k < p then k + 1 else if k == p then 0 else k] == j;
    }
  }

  lemma LookAt(bufs: seq<Buf>, dev: nat, disk: Disk, i: int, c: int)
    requires Unique(bufs, dev) && 0 <= c < |disk| && IsFor(bufs, dev, i, c)
    ensures Look(bufs, dev, disk, c) == EntryOf(bufs[i], disk[c])
  {
    var j :| IsFor(bufs, dev, j, c) && Look(bufs, dev, disk, c) == EntryOf(bufs[j], disk[c]);
  }

  /** Re-using an unreferenced buffer that holds nothing new for a block that is
      not cached changes the meaning of that block only, and only by the reference. */
  lemma Recycle(bufs: seq<Buf>, dev: nat, disk: Disk, i: int, buf: Buf)
    requires Unique(bufs, dev) && 0 <= i < |bufs| && bufs[i].refcnt == 0
    requires bufs[i].dev == dev && bufs[i].blockno < |disk| ==> EntryOf(bufs[i], disk[bufs[i].blockno]) == Entry(disk[bufs[i].blockno], 0, false)
    requires buf.dev == dev && buf.blockno < |disk| && forall j :: !IsFor(bufs, dev, j, buf.blockno)
    ensures Unique(bufs[i := buf], dev)
    ensures ViewOf(bufs[i := buf], dev, disk) == ViewOf(bufs, dev, disk)[buf.blockno := EntryOf(buf, disk[buf.blockno])]
    ensures ViewOf(bufs, dev, disk)[buf.blockno] == Entry(disk[buf.blockno], 0, false)
  {
    var bufs' := bufs[i := buf];
    assert forall j, c :: IsFor(bufs', dev, j, c) <==> if j == i then c == buf.blockno else IsFor(bufs, dev, j, c);
    LookAt(bufs', dev, disk, i, buf.blockno);
    forall c | 0 <= c < |disk| && c != buf.blockno ensures Look(bufs', dev, disk, c) == Look(bufs, dev, disk, c) {
      if j :| IsFor(bufs, dev, j, c) {
        LookAt(bufs, dev, disk, j, c);
        if j != i {
          LookAt(bufs', dev, disk, j, c);
        }
      }
    }
  }

  /** Changing a buffer, or the disk under it, without re-using it. */
  lemma Replace(bufs: seq<Buf>, dev: nat, disk: Disk, disk': Disk, i: int, buf: Buf)
    requires Unique(bufs, dev) && 0 <= i < |bufs| && buf.dev == bufs[i].dev == dev
    requires buf.blockno == bufs[i].blockno < |disk| == |disk'|
    requires forall c :: 0 <= c < |disk| && c != buf.blockno ==> disk'[c] == disk[c]
    ensures Unique(bufs[i := buf], dev)
    ensures ViewOf(bufs[i := buf], dev, disk') == ViewOf(bufs, dev, disk)[buf.blockno := EntryOf(buf, disk'[buf.blockno])]
    ensures ViewOf(bufs, dev, disk)[buf.blockno] == EntryOf(bufs[i], disk[buf.blockno])
  {
    var bufs' := bufs[i := buf];
    assert forall j, c :: IsFor(bufs', dev, j, c) <==> IsFor(bufs, dev, j, c);
    LookAt(bufs', dev, disk', i, buf.blockno);
    LookAt(bufs, dev, disk, i, buf.blockno);
    forall c | 0 <= c < |disk| && c != buf.blockno ensures Look(bufs', dev, disk', c) == Look(bufs, dev, disk, c) {
      if j :| IsFor(bufs, dev, j, c) {
        LookAt(bufs, dev, disk, j, c);
        LookAt(bufs', dev, disk', j, c);
      }
    }
  }

  /** The list is in the order of the last releases, latest first. */
  ghost predicate ByRelease(lru: seq<nat>, released: seq<nat>, releases: nat) {
    && |released| == NBUF && IsPermutation(lru) && (forall i :: 0 <= i < NBUF ==> released[i] <= releases)
    && forall j, k :: 0 <= j < k < NBUF ==> released[lru[j]] >= released[lru[k]]
  }

  lemma FrontIsNewest(lru: seq<nat>, lru': seq<nat>, released: seq<nat>, releases: nat, i: nat)
    requires ByRelease(lru, released, releases) && IsPermutation(lru') && i < NBUF
    requires exists p :: 0 <= p < |lru| && lru[p] == i && lru' == [i] + lru[..p] + lru[p + 1..]
    ensures ByRelease(lru', released[i := releases + 1], releases + 1)
  {
    var p :| 0 <= p < |lru| && lru[p] == i && lru' == [i] + lru[..p] + lru[p + 1..];
    forall j | 0 < j < NBUF ensures lru'[j] == lru[if j <= p then j - 1 else j] {
    }
  }

  class Bcache {
    const dev: nat
    var bufs: seq<Buf>
    var lru: seq<nat>
    var disk: Disk
    ghost var history: seq<Disk>
    ghost var releases: nat        // how often a buffer has become unused
    ghost var released: seq<nat>   // the number of each buffer's last such release

    ghost predicate Valid()
      reads this
    {
      && dev != 0 && |bufs| == NBUF && IsPermutation(lru) && Unique(bufs, dev)
      && (forall i :: 0 <= i < NBUF ==> BufOk(bufs[i]))
      && |history| > 0 && history[|history| - 1] == disk && ByRelease(lru, released, releases)
    }

    /** A buffer nobody refers to is unlocked and holds what the disk holds. */
    ghost predicate BufOk(b: Buf)
      reads this
    {
      && b.dev in {0, dev} && b.refcnt >= 0
      && (b.dev == 0 ==> b.refcnt == 0)
      && (b.dev == dev ==> b.blockno < |disk|)
      && (b.dev == dev && b.refcnt == 0 ==> !b.locked && (b.valid ==> b.data == disk[b.blockno]))
    }

    /** Every buffer is in use: the "no buffers" panic of bget. */
    ghost predicate Exhausted()
      reads this
    {
      forall i :: 0 <= i < |bufs| ==> bufs[i].refcnt != 0
    }

    /** The caller holds buffer i, locked and filled. */
    ghost predicate Held(i: int)
      reads this
    {
      0 <= i < |bufs| && bufs[i].dev == dev && bufs[i].valid && bufs[i].locked && bufs[i].refcnt > 0
    }

    ghost function View(): (v: seq<Entry>)
      reads this
      ensures |v| == |disk|
    {
      ViewOf(bufs, dev, disk)
    }

    /** A block without references has no newer contents than the disk's. */
    lemma Unreferenced(c: int)
      requires Valid() && 0 <= c < |disk|
      ensures View()[c].refs >= 0
      ensures View()[c].refs == 0 ==> View()[c] == Entry(disk[c], 0, false)
    {
      if i :| IsFor(bufs, dev, i, c) {
        LookAt(bufs, dev, disk, i, c);
      }
    }

    /** binit: every buffer is for (0, 0), so buffers coincide only for device 0. */
    constructor (dev: nat, disk: Disk)
      requires dev != 0
      ensures Valid() && this.disk == disk && this.dev == dev && history == [disk]
      ensures forall c :: 0 <= c < |disk| ==> View()[c] == Entry(disk[c], 0, false)
    {
      this.dev := dev;
      this.disk := disk;
      bufs := seq(NBUF, _ => Buf(false, 0, 0, 0, false, ZERO));
      lru := seq(NBUF, k requires 0 <= k < NBUF => NBUF - 1 - k);
      history := [disk];
      releases, released := 0, seq(NBUF, _ => 0);
      new;
      forall i | 0 <= i < NBUF ensures i in lru {
        assert lru[NBUF - 1 - i] == i;
      }
    }

    /** bget: the cached buffer, or else the least recently released unused one
        (its last position in the list), or -1 for the "no buffers" panic. */
    method Bget(blockno: nat) returns (r: int)
      requires Valid() && blockno < |disk| && !View()[blockno].locked
      modifies `bufs
      ensures Valid() && -1 <= r < NBUF
      ensures r < 0 ==> bufs == old(bufs) && forall i :: 0 <= i < NBUF ==> bufs[i].refcnt != 0 && !IsFor(bufs, dev, i, blockno)
      ensures r >= 0 ==> IsFor(bufs, dev, r, blockno) && bufs[r].locked && bufs[r].refcnt > 0
      ensures forall j :: 0 <= j < NBUF && j != r ==> bufs[j] == old(bufs)[j]
      ensures r >= 0 && !IsFor(old(bufs), dev, r, blockno) ==> old(bufs)[r].refcnt == 0
      ensures r >= 0 && !IsFor(old(bufs), dev, r, blockno) ==>
        exists k :: 0 <= k < NBUF && lru[k] == r && forall j :: k < j < NBUF ==> old(bufs)[lru[j]].refcnt != 0
      ensures r >= 0 && !IsFor(old(bufs), dev, r, blockno) ==>
        forall u :: 0 <= u < NBUF && old(bufs)[u].refcnt == 0 ==> released[r] <= released[u]
      ensures r >= 0 ==> View() == old(View()[blockno := View()[blockno].(refs := View()[blockno].refs + 1, locked := true)])
    {
      var k := 0;
      while k < NBUF
        invariant 0 <= k <= NBUF && bufs == old(bufs)
        invariant forall j :: 0 <= j < k ==> !IsFor(bufs, dev, lru[j], blockno)
      {
        var i := lru[k];
        var b := bufs[i];
        if b.dev == dev && b.blockno == blockno {
          Replace(bufs, dev, disk, disk, i, b.(refcnt := b.refcnt + 1, locked := true));
          bufs := bufs[i := b.(refcnt := b.refcnt + 1, locked := true)];
          return i;
        }
        k := k + 1;
      }
      forall i ensures !IsFor(bufs, dev, i, blockno) {
        if 0 <= i < NBUF { assert i in lru; }
      }
      k := NBUF - 1;
      while k >= 0
        invariant -1 <= k < NBUF && bufs == old(bufs)
        invariant forall j :: k < j < NBUF ==> bufs[lru[j]].refcnt != 0
      {
        var i := lru[k];
        if bufs[i].refcnt == 0 {
          var b := Buf(false, dev, blockno, 1, true, bufs[i].data);
          Recycle(bufs, dev, disk, i, b);
          forall u | 0 <= u < NBUF && bufs[u].refcnt == 0 ensures released[i] <= released[u] {
            assert u in lru;
          }
          bufs := bufs[i := b];
          return i;
        }
        k := k - 1;
      }
      forall i | 0 <= i < NBUF ensures bufs[i].refcnt != 0 {
        assert i in lru;
      }
      r := -1;
    }

    /** bread: a locked buffer holding what any reader of the block would see. */
    method Bread(blockno: nat) returns (r: int)
      requires Valid() && blockno < |disk| && !View()[blockno].locked
      modifies `bufs
      ensures Valid() && -1 <= r < NBUF
      ensures r >= 0 ==> IsFor(bufs, dev, r, blockno) && Held(r) && bufs[r].data == old(View()[blockno].data) && bufs[r].refcnt == old(View()[blockno].refs) + 1
      ensures r < 0 ==> bufs == old(bufs) && Exhausted()
      ensures forall j :: old(Held(j) && bufs[j].blockno != blockno) ==> j != r && bufs[j] == old(bufs)[j]
      ensures r >= 0 ==> View() == old(View()[blockno := View()[blockno].(refs := View()[blockno].refs + 1, locked := true)])
    {
      r := Bget(blockno);
      if r >= 0 {
        LookAt(bufs, dev, disk, r, blockno);
        assert View()[blockno] == EntryOf(bufs[r], disk[blockno]);
        if !bufs[r].valid {
          var b := bufs[r].(valid := true, data := disk[blockno]);
          Replace(bufs, dev, disk, disk, r, b);
          bufs := bufs[r := b];
        }
      }
    }

    /** memmove into the data of a buffer the caller holds. */
    method Fill(i: nat, data: Data)
      requires Valid() && Held(i)
      modifies `bufs
      ensures Valid() && bufs == old(bufs)[i := old(bufs)[i].(data := data)]
      ensures var c := old(bufs)[i].blockno; View() == old(View())[c := old(View()[c].(data := data))]
    {
      Replace(bufs, dev, disk, disk, i, bufs[i].(data := data));
      bufs := bufs[i := bufs[i].(data := data)];
    }

    /** bwrite: one atomic block write; readers notice nothing. */
    method Bwrite(i: nat)
      requires Valid() && Held(i)
      modifies `disk, `history
      ensures Valid() && disk == old(disk)[bufs[i].blockno := bufs[i].data] && history == old(history) + [disk]
      ensures View() == old(View())
    {
      var b := bufs[i];
      ghost var was := disk;
      disk := disk[b.blockno := b.data];
      history := history + [disk];
      assert bufs[i := b] == bufs;
      Replace(bufs, dev, was, disk, i, b);
      forall j | 0 <= j < NBUF ensures BufOk(bufs[j]) {
        if bufs[j].dev == dev && j != i {
          assert IsFor(bufs, dev, i, b.blockno) && IsFor(bufs, dev, j, bufs[j].blockno);
        }
      }
    }

    /** brelse: unlock, drop the reference, and move an unused buffer to the front.
        A changed buffer must have been pinned or written before. */
    method Brelse(i: nat)
      requires Valid() && Held(i)
      requires bufs[i].refcnt == 1 ==> bufs[i].data == disk[bufs[i].blockno]
      modifies `bufs, `lru, `releases, `released
      ensures Valid() && bufs == old(bufs)[i := old(bufs)[i].(locked := false, refcnt := old(bufs)[i].refcnt - 1)]
      ensures var c := old(bufs)[i].blockno; View() == old(View())[c := old(View()[c].(locked := false, refs := View()[c].refs - 1))]
      ensures bufs[i].refcnt == 0 ==> lru[0] == i && releases == old(releases) + 1 && released == old(released)[i := releases]
      ensures bufs[i].refcnt != 0 ==> lru == old(lru) && releases == old(releases) && released == old(released)
    {
      var b := bufs[i].(locked := false, refcnt := bufs[i].refcnt - 1);
      Replace(bufs, dev, disk, disk, i, b);
      bufs := bufs[i := b];
      if b.refcnt == 0 {
        ghost var lru0 := lru;
        ToFront(i);
        FrontIsNewest(lru0, lru, released, releases, i);
        releases := releases + 1;
        released := released[i := releases];
      }
    }

    method ToFront(i: nat)
      requires IsPermutation(lru) && i < NBUF
      modifies `lru
      ensures IsPermutation(lru) && lru[0] == i
      ensures exists p :: 0 <= p < |old(lru)| && old(lru)[p] == i && lru == [i] + old(lru)[..p] + old(lru)[p + 1..]
    {
      var p := 0;
      assert i in lru;
      while lru[p] != i
        invariant 0 <= p < NBUF && forall j :: 0 <= j < p ==> lru[j] != i
        decreases NBUF - p
      {
        p := p + 1;
        assert i in lru;
      }
      MovedToFront(lru, p);
      lru := [i] + lru[..p] + lru[p + 1..];
    }

    /** bpin / bunpin: one reference more or less, nothing else. */
    method Bpin(i: nat)
      requires Valid() && i < |bufs| && bufs[i].dev == dev && bufs[i].refcnt > 0
      modifies `bufs
      ensures Valid() && bufs == old(bufs)[i := old(bufs)[i].(refcnt := old(bufs)[i].refcnt + 1)]
      ensures var c := old(bufs)[i].blockno; View() == old(View())[c := old(View()[c].(refs := View()[c].refs + 1))]
    {
      Replace(bufs, dev, disk, disk, i, bufs[i].(refcnt := bufs[i].refcnt + 1));
      bufs := bufs[i := bufs[i].(refcnt := bufs[i].refcnt + 1)];
    }

    method Bunpin(i: nat)
      requires Valid() && i < |bufs| && bufs[i].dev == dev && bufs[i].refcnt > 1
      modifies `bufs
      ensures Valid() && bufs == old(bufs)[i := old(bufs)[i].(refcnt := old(bufs)[i].refcnt - 1)]
      ensures var c := old(bufs)[i].blockno; View() == old(View())[c := old(View()[c].(refs := View()[c].refs - 1))]
    {
      Replace(bufs, dev, disk, disk, i, bufs[i].(refcnt := bufs[i].refcnt - 1));
      bufs := bufs[i := bufs[i].(refcnt := bufs[i].refcnt - 1)];
    }
  }
}
