/** The file system on the log: after any crash and any recovery the home blocks on the disk are those of
    a file system in order, the one that the operations of the committed batches have made. */
module FileCrash {
  import opened Disk
  import opened RedoLog
  import L = LogRuns
  import opened FileBlocks
  import opened FileSteps
  import opened FileIo
  import opened FileRuns
  import opened FileCover
  import opened FileWrite

  // ---- the disk as the file system has written it ------------------------------------------

  ghost predicate InBitmap(f: Fs, b: nat) { f.sb.bmapstart <= b && (b - f.sb.bmapstart) * BPB < |f.used| }

  ghost predicate InInodes(f: Fs, b: nat) { f.sb.inodestart <= b && (b - f.sb.inodestart) * 16 < |f.saved| }

  // The words of a bitmap block, and of an inode block.
  ghost function BitWords(f: Fs, b: nat): seq<nat>
    requires InBitmap(f, b)
  {
    var at := (b - f.sb.bmapstart) * BPB;
    seq(BPB, i requires 0 <= i < BPB => if at + i < |f.used| && f.used[at + i] then 1 else 0)
  }

  ghost function InodeWords(x: Inode): seq<nat> { [x.kind, x.nlink, x.size] + x.addrs }

  ghost function InodesFrom(f: Fs, n: nat, count: nat): seq<nat>
    decreases count
  {
    if count == 0 || n >= |f.saved| then [] else InodeWords(f.saved[n]) + InodesFrom(f, n + 1, count - 1)
  }

  // What block b holds on the disk when the file system is f.
  ghost function OnDisk(f: Fs, b: nat): Block
    requires b < |f.blocks|
  {
    if InBitmap(f, b) then Block(BitWords(f, b))
    else if InInodes(f, b) then Block(InodesFrom(f, (b - f.sb.inodestart) * 16, 16))
    else Block(f.blocks[b])
  }

  // The home blocks of the disk are the file system f.
  ghost predicate Encodes(start: nat, d: Image, f: Fs) {
    |d| == |f.blocks| && forall b :: 0 <= b < |d| && IsHome(start, b) ==> d[b] == OnDisk(f, b)
  }

  // ---- what is not logged ------------------------------------------------------------------

  lemma {:induction false} SameInodes(f: Fs, g: Fs, n: nat, count: nat)
    requires |g.saved| == |f.saved| && forall m :: n <= m < n + count && m < |f.saved| ==> g.saved[m] == f.saved[m]
    ensures InodesFrom(g, n, count) == InodesFrom(f, n, count)
    decreases count
  {
    if count > 0 && n < |f.saved| { SameInodes(f, g, n + 1, count - 1); }
  }

  // A block that was not logged is the same on the disk.
  lemma NotLoggedSame(f: Fs, g: Fs, b: nat)
    requires Covered(f, g) && b < |f.blocks| && b !in g.logged
    ensures OnDisk(g, b) == OnDisk(f, b)
  {
    if InBitmap(f, b) {
      var at := (b - f.sb.bmapstart) * BPB;
      forall c | at <= c < at + BPB && c < |f.used| ensures g.used[c] == f.used[c] { InBlock(b - f.sb.bmapstart, c - at); }
      assert BitWords(g, b) == BitWords(f, b);
    } else if InInodes(f, b) {
      var n := (b - f.sb.inodestart) * 16;
      forall m | n <= m < n + 16 && m < |f.saved| ensures g.saved[m] == f.saved[m] { assert InodeBlock(f.sb, m) == b; }
      SameInodes(f, g, n, 16);
    }
  }

  lemma InBlock(k: nat, i: nat)
    requires i < BPB
    ensures (k * BPB + i) / BPB == k
  {
  }

  lemma CoveredSize(f: Fs, g: Fs)
    requires Covered(f, g)
    ensures |g.blocks| == |f.blocks|
  {
  }

  // ---- sequences of operations -------------------------------------------------------------

  // One operation after the other, each in a transaction of its own, from an orderly file system.
  ghost predicate IsHistory(fs: seq<Fs>, ops: seq<Op>) {
    && |fs| == |ops| + 1 && Wf(fs[0]) && Inv(fs[0])
    && forall i :: 0 <= i < |ops| ==> Leads(fs[i], ops[i], fs[i + 1])
  }

  // The operation is possible in f, and leads to g unless it panics.
  ghost predicate Leads(f: Fs, op: Op, g: Fs) {
    Wf(f) && Inv(f.(logged := {})) && Wf(f.(logged := {})) ==>
      Enabled(f.(logged := {}), op) && (Do(f.(logged := {}), op).Freed? ==> g == Do(f.(logged := {}), op).fs)
  }

  lemma BeginKeepsInv(f: FileSys)
    requires Inv(f)
    ensures Wf(f.(logged := {})) && Inv(f.(logged := {}))
  {
    hide BlockOk;
    hide InodeOk;
    hide NoHoles;
    BeginWf(f);
    forall n | 0 <= n < |f.inodes| ensures NoHoles(f.(logged := {}), n) { BeginSame(f, n); }
  }

  lemma {:induction false} HistoryInOrder(fs: seq<Fs>, ops: seq<Op>, i: nat)
    requires IsHistory(fs, ops) && i < |fs|
    ensures Wf(fs[i]) && Inv(fs[i]) && (i > 0 ==> Covered(fs[i - 1].(logged := {}), fs[i]))
  {
    hide Wf;
    hide Inv;
    hide Do;
    hide Enabled;
    hide Covered;
    if i > 0 {
      HistoryInOrder(fs, ops, i - 1);
      assert Leads(fs[i - 1], ops[i - 1], fs[i]);
      BeginKeepsInv(fs[i - 1]);
      OpKeepsInv(fs[i - 1].(logged := {}), ops[i - 1]);
      EveryChangeIsLogged(fs[i - 1].(logged := {}), ops[i - 1]);
    }
  }

  lemma BeginSameBlock(f: Fs, b: nat)
    requires b < |f.blocks|
    ensures OnDisk(f.(logged := {}), b) == OnDisk(f, b)
  {
    if !InBitmap(f, b) && InInodes(f, b) { SameInodes(f, f.(logged := {}), (b - f.sb.inodestart) * 16, 16); }
  }

  // ---- batches -----------------------------------------------------------------------------

  // The blocks that the operations from a to b pass to log_write.
  ghost function Logged(fs: seq<Fs>, a: nat, b: nat): set<nat>
    requires b < |fs|
    decreases b - a
  {
    if a >= b then {} else Logged(fs, a, b - 1) + fs[b].logged
  }

  // Write k is the last one of the block, and writes what the block holds in g.
  ghost predicate LastWrite(g: Fs, ws: seq<Write>, b: nat, k: int) {
    && 0 <= k < |ws| && b < |g.blocks| && ws[k].blockno == b && ws[k].data == OnDisk(g, b)
    && forall i :: k < i < |ws| ==> ws[i].blockno != b
  }

  ghost predicate LastWritten(g: Fs, ws: seq<Write>, b: nat) { exists k :: LastWrite(g, ws, b, k) }

  /** The writes of a batch, of any number of operations and interleaved in any way: all of blocks that
      the operations log, and each of these the last time with what it holds after them all. */
  ghost predicate IsBatch(ws: seq<Write>, fs: seq<Fs>, a: nat, b: nat) {
    && a <= b < |fs|
    && (forall i :: 0 <= i < |ws| ==> ws[i].blockno in Logged(fs, a, b))
    && forall x :: x in Logged(fs, a, b) && x < |fs[b].blocks| ==> LastWritten(fs[b], ws, x)
  }

  // A block that none of the operations logs is the same after them.
  lemma {:induction false} UnloggedSame(fs: seq<Fs>, ops: seq<Op>, a: nat, b: nat, x: nat)
    requires IsHistory(fs, ops) && a <= b < |fs| && x < |fs[a].blocks| && x !in Logged(fs, a, b)
    ensures x < |fs[b].blocks| == |fs[a].blocks| && OnDisk(fs[b], x) == OnDisk(fs[a], x)
    decreases b - a
  {
    hide IsHistory;
    hide OnDisk;
    hide Covered;
    hide Wf;
    hide Inv;
    if a < b {
      UnloggedSame(fs, ops, a, b - 1, x);
      HistoryInOrder(fs, ops, b);
      BeginSameBlock(fs[b - 1], x);
      CoveredSize(fs[b - 1].(logged := {}), fs[b]);
      NotLoggedSame(fs[b - 1].(logged := {}), fs[b], x);
    }
  }

  lemma {:induction false} SameSize(fs: seq<Fs>, ops: seq<Op>, a: nat, b: nat)
    requires IsHistory(fs, ops) && a <= b < |fs|
    ensures |fs[b].blocks| == |fs[a].blocks|
    decreases b - a
  {
    hide IsHistory;
    hide Covered;
    hide Wf;
    hide Inv;
    if a < b {
      SameSize(fs, ops, a, b - 1);
      HistoryInOrder(fs, ops, b);
      CoveredSize(fs[b - 1].(logged := {}), fs[b]);
    }
  }

  /** Performing the writes of a batch takes the disk from the file system before its operations to the
      one after them. */
  lemma BatchApplies(start: nat, d: Image, fs: seq<Fs>, ops: seq<Op>, ws: seq<Write>, a: nat, b: nat)
    requires IsHistory(fs, ops) && IsBatch(ws, fs, a, b) && Encodes(start, d, fs[a]) && InRange(d, ws)
    ensures Encodes(start, Apply(d, ws), fs[b])
  {
    hide IsHistory;
    hide OnDisk;
    SameSize(fs, ops, a, b);
    forall x | 0 <= x < |d| && IsHome(start, x) ensures Apply(d, ws)[x] == OnDisk(fs[b], x) {
      if x in Logged(fs, a, b) {
        var k :| LastWrite(fs[b], ws, x, k);
        ApplyLast(d, ws, k);
      } else {
        ApplyUntouched(d, ws, x);
        UnloggedSame(fs, ops, a, b, x);
      }
    }
  }

  // Batch k is what the operations from cuts[k] to cuts[k + 1] log together.
  ghost predicate Batched(batches: seq<L.Batch>, fs: seq<Fs>, cuts: seq<nat>) {
    && |cuts| == |batches| + 1 && cuts[0] == 0
    && (forall k :: 0 <= k < |cuts| ==> cuts[k] < |fs|)
    && (forall k :: 0 <= k < |batches| ==> IsBatch(L.Effects(batches[k].writes), fs, cuts[k], cuts[k + 1]))
  }

  lemma {:induction false} ReplayEncodes(start: nat, home: Image, batches: seq<L.Batch>, fs: seq<Fs>, ops: seq<Op>, cuts: seq<nat>)
    requires IsHistory(fs, ops) && Batched(batches, fs, cuts) && Encodes(start, home, fs[0]) && L.InRanges(home, batches)
    ensures Encodes(start, L.Replay(home, batches), fs[cuts[|batches|]])
    decreases |batches|
  {
    hide IsHistory;
    hide Encodes;
    hide L.Effects;
    hide IsBatch;
    if batches == [] {
      assert L.Replay(home, batches) == home;
    } else {
      var n := |batches| - 1;
      var rest := batches[..n];
      assert forall i :: 0 <= i < n ==> rest[i] == batches[i];
      ReplayEncodes(start, home, rest, fs, ops, cuts[..n + 1]);
      assert IsBatch(L.Effects(batches[n].writes), fs, cuts[n], cuts[n + 1]);
      BatchApplies(start, L.Replay(home, rest), fs, ops, L.Effects(batches[n].writes), cuts[n], cuts[n + 1]);
    }
  }

  // ---- one operation after the other -------------------------------------------------------

  ghost function Flatten(wss: seq<seq<Write>>): seq<Write> {
    if wss == [] then [] else Flatten(wss[..|wss| - 1]) + wss[|wss| - 1]
  }

  // Each operation on its own, from the one that leads to fs[a + 1] on.
  ghost predicate OpsLog(fs: seq<Fs>, wss: seq<seq<Write>>, a: nat) {
    a + |wss| < |fs| && forall i :: 0 <= i < |wss| ==> IsBatch(wss[i], fs, a + i, a + i + 1)
  }

  // The last operation's write is the last one of all.
  lemma LastInLast(g: Fs, front: seq<Write>, last: seq<Write>, x: nat)
    requires LastWritten(g, last, x)
    ensures LastWritten(g, front + last, x)
  {
    hide OnDisk;
    var k :| LastWrite(g, last, x, k);
    assert LastWrite(g, front + last, x, |front| + k);
  }

  // What the last operation does not touch was written before it.
  lemma LastInFront(f: Fs, g: Fs, front: seq<Write>, last: seq<Write>, x: nat)
    requires LastWritten(f, front, x) && x < |f.blocks| && x < |g.blocks| && OnDisk(g, x) == OnDisk(f, x)
    requires forall i :: 0 <= i < |last| ==> last[i].blockno != x
    ensures LastWritten(g, front + last, x)
  {
    hide OnDisk;
    var k :| LastWrite(f, front, x, k);
    assert LastWrite(g, front + last, x, k);
  }

  /** Operations that log one after the other make up a batch. */
  lemma {:induction false} SerialBatch(fs: seq<Fs>, ops: seq<Op>, wss: seq<seq<Write>>, a: nat)
    requires IsHistory(fs, ops) && OpsLog(fs, wss, a)
    ensures IsBatch(Flatten(wss), fs, a, a + |wss|)
    decreases |wss|
  {
    hide IsHistory;
    hide OnDisk;
    hide LastWritten;
    if wss != [] {
      var n := |wss| - 1;
      var front, last := Flatten(wss[..n]), wss[n];
      var b, e := a + n, a + n + 1;
      SerialBatch(fs, ops, wss[..n], a);
      assert IsBatch(last, fs, b, e);
      SameSize(fs, ops, b, e);
      OneLogged(fs, b);
      forall x | x in Logged(fs, a, e) && x < |fs[e].blocks| ensures LastWritten(fs[e], front + last, x) {
        if x in fs[e].logged {
          LastInLast(fs[e], front, last, x);
        } else {
          UnloggedSame(fs, ops, b, e, x);
          LastInFront(fs[b], fs[e], front, last, x);
        }
      }
    }
  }

  lemma OneLogged(fs: seq<Fs>, b: nat)
    requires b + 1 < |fs|
    ensures Logged(fs, b, b + 1) == fs[b + 1].logged
  {
    assert Logged(fs, b, b) == {};
  }

  // ---- after a crash -----------------------------------------------------------------------

  // The bit of block b in the bitmap on the disk.
  ghost predicate DiskBit(d: Image, sb: Super, b: nat) {
    BitmapBlock(sb, b) < |d| && b % BPB < |d[BitmapBlock(sb, b)].words| && d[BitmapBlock(sb, b)].words[b % BPB] == 1
  }

  lemma BitIsUsed(start: nat, d: Image, f: Fs, b: nat)
    requires Encodes(start, d, f) && b < |f.used| && BitmapBlock(f.sb, b) < |d| && IsHome(start, BitmapBlock(f.sb, b))
    ensures DiskBit(d, f.sb, b) <==> f.used[b]
  {
    var at := BitmapBlock(f.sb, b);
    assert (at - f.sb.bmapstart) * BPB + b % BPB == b;
    assert InBitmap(f, at) && OnDisk(f, at) == Block(BitWords(f, at));
  }

  /** At every point of every run of the log, crashes and crashes inside recovery among its steps,
      finishing recover_from_log gives the home blocks of a file system in order: the one that exactly
      the operations of the committed batches have made.  On that disk a bitmap bit is set exactly when
      its block is metadata or is named by a slot of some inode or indirect block, and by one only. */
  lemma RecoversInOrder(start: nat, home: Image, run: seq<L.State>, steps: seq<L.Step>, i: nat,
                        fs: seq<Fs>, ops: seq<Op>, cuts: seq<nat>)
    requires L.IsRun(start, home, run, steps) && i < |run|
    requires IsHistory(fs, ops) && Batched(run[i].durable, fs, cuts) && Encodes(start, home, fs[0])
    ensures WellFormed(start, run[i].disk)
    ensures var f, d := fs[cuts[|run[i].durable|]], Recovered(start, run[i].disk);
            && Wf(f) && Inv(f) && Encodes(start, d, f)
            && forall b :: 0 < b < |f.used| && BitmapBlock(f.sb, b) < |d| && IsHome(start, BitmapBlock(f.sb, b)) ==> BitExact(d, f, b)
  {
    hide L.IsRun;
    hide IsHistory;
    hide Encodes;
    hide Wf;
    hide Inv;
    hide WellFormed;
    hide BitExact;
    L.CrashAtomicity(start, home, run, steps, i);
    var f, d := fs[cuts[|run[i].durable|]], Recovered(start, run[i].disk);
    ReplayEncodes(start, home, run[i].durable, fs, ops, cuts);
    HistoryLength(fs, ops);
    HistoryInOrder(fs, ops, cuts[|run[i].durable|]);
    SameHomeEncodes(start, L.Replay(home, run[i].durable), d, f);
    forall b | 0 < b < |f.used| && BitmapBlock(f.sb, b) < |d| && IsHome(start, BitmapBlock(f.sb, b)) ensures BitExact(d, f, b) {
      BitsExact(start, d, f, b);
    }
  }

  lemma HistoryLength(fs: seq<Fs>, ops: seq<Op>)
    requires IsHistory(fs, ops)
    ensures |fs| == |ops| + 1
  {
  }

  lemma SameHomeEncodes(start: nat, d: Image, e: Image, f: Fs)
    requires Encodes(start, d, f) && SameHome(start, e, d)
    ensures Encodes(start, e, f)
  {
  }

  ghost predicate BitExact(d: Image, f: Fs, b: nat) {
    && b < |f.owner|
    && (DiskBit(d, f.sb, b) <==> f.owner[b] == Meta || exists s :: NamedBy(f, b, s))
    && forall s, s' :: NamedBy(f, b, s) && NamedBy(f, b, s') ==> s == s'
  }

  lemma BitsExact(start: nat, d: Image, f: FileSys, b: nat)
    requires Inv(f) && Encodes(start, d, f) && 0 < b < |f.used| && BitmapBlock(f.sb, b) < |d| && IsHome(start, BitmapBlock(f.sb, b))
    ensures BitExact(d, f, b)
  {
    hide BlockOk;
    hide InodeOk;
    hide NoHoles;
    BitIsUsed(start, d, f, b);
    BitmapIsExact(f, b);
  }
}
