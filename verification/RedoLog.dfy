/** The redo log of log.c as lists of disk writes: what `commit` and `recover_from_log`
    write, in which order, and why a crash between any two of those writes is harmless. */
module RedoLog {
  import opened Disk

  const MAXOPBLOCKS: nat := 10
  const LOGBLOCKS: nat := 30

  // The on-disk header block: word 0 is n, words 1..n are home block numbers.
  predicate ValidHeader(b: Block) { |b.words| == WORDS && b.words[0] <= LOGBLOCKS }

  function HeaderBlocks(b: Block): (blocks: seq<nat>)
    requires ValidHeader(b)
    ensures |blocks| == b.words[0]
  {
    b.words[1..1 + b.words[0]]
  }

  // write_head overwrites n and the first n entries of the header buffer only.
  function EncodeHeader(prior: Block, blocks: seq<nat>): (b: Block)
    requires |blocks| <= LOGBLOCKS && |prior.words| == WORDS
    ensures ValidHeader(b) && HeaderBlocks(b) == blocks
  {
    Block([|blocks|] + blocks + prior.words[1 + |blocks|..])
  }

  // Blocks outside the header and the LOGBLOCKS log blocks that follow it.
  predicate IsHome(start: nat, b: nat) { b < start || start + LOGBLOCKS < b }

  ghost predicate GoodBlocks(start: nat, size: nat, blocks: seq<nat>) {
    && |blocks| <= LOGBLOCKS
    && (forall i :: 0 <= i < |blocks| ==> blocks[i] < size && IsHome(start, blocks[i]))
    && (forall i, j :: 0 <= i < j < |blocks| ==> blocks[i] != blocks[j])
  }

  // A disk whose header, if it names blocks, names distinct home blocks.
  ghost predicate WellFormed(start: nat, d: Image) {
    && start + LOGBLOCKS < |d|
    && ValidHeader(d[start])
    && GoodBlocks(start, |d|, HeaderBlocks(d[start]))
  }

  ghost function LogWrites(start: nat, data: seq<Block>): (ws: seq<Write>)
    ensures |ws| == |data|
  {
    seq(|data|, i requires 0 <= i < |data| => Write(start + 1 + i, data[i]))
  }

  ghost function InstallWrites(blocks: seq<nat>, data: seq<Block>): (ws: seq<Write>)
    requires |blocks| == |data|
    ensures |ws| == |data|
  {
    seq(|data|, i requires 0 <= i < |data| => Write(blocks[i], data[i]))
  }

  ghost function LoggedData(start: nat, d: Image, n: nat): (data: seq<Block>)
    requires start + n < |d|
    ensures |data| == n
  {
    seq(n, i requires 0 <= i < n => d[start + 1 + i])
  }

  // The writes of recover_from_log(): home blocks out of the log, cleared header.
  ghost function RecoverWrites(start: nat, d: Image): (ws: seq<Write>)
    requires WellFormed(start, d)
    ensures |ws| == d[start].words[0] + 1 && InRange(d, ws)
  {
    var blocks := HeaderBlocks(d[start]);
    InstallWrites(blocks, LoggedData(start, d, |blocks|)) + [Write(start, EncodeHeader(d[start], []))]
  }

  // What the disk becomes if recovery runs on it without interruption.
  ghost function Recovered(start: nat, d: Image): (r: Image)
    requires WellFormed(start, d)
    ensures |r| == |d|
  {
    Apply(d, RecoverWrites(start, d))
  }

  // Two images that agree on every block a file system operation can see.
  ghost predicate SameHome(start: nat, d: Image, e: Image) {
    && |d| == |e|
    && forall b :: 0 <= b < |d| && IsHome(start, b) ==> d[b] == e[b]
  }

  // The home contents a set of logged blocks stands for.
  ghost predicate Overlays(start: nat, d: Image, blocks: seq<nat>, data: seq<Block>, r: Image)
    requires |blocks| == |data| && GoodBlocks(start, |d|, blocks)
  {
    && |r| == |d|
    && (forall i :: 0 <= i < |blocks| ==> r[blocks[i]] == data[i])
    && (forall b :: 0 <= b < |d| && IsHome(start, b) && b !in blocks ==> r[b] == d[b])
  }

  // One commit: the disk it starts from, the logged block numbers and their cached contents.
  datatype Transaction = Transaction(start: nat, disk: Image, blocks: seq<nat>, data: seq<Block>) {

    ghost predicate Ready() {
      && WellFormed(start, disk) && disk[start].words[0] == 0
      && |blocks| == |data| && GoodBlocks(start, |disk|, blocks)
    }

    ghost function Full(): Block
      requires Ready()
    {
      EncodeHeader(disk[start], blocks)
    }

    // Up to and including the commit point: the log blocks, then the header naming them.
    ghost function Logging(): (ws: seq<Write>)
      requires Ready()
      ensures |ws| == |blocks| + 1 && InRange(disk, ws)
    {
      LogWrites(start, data) + [Write(start, Full())]
    }

    // After it: the home blocks, then the cleared header.
    ghost function Installing(): (ws: seq<Write>)
      requires Ready()
      ensures |ws| == |blocks| + 1 && InRange(disk, ws)
    {
      InstallWrites(blocks, data) + [Write(start, EncodeHeader(Full(), []))]
    }

    // The disk writes of commit(), in order; an empty log is not written at all.
    ghost function Writes(): (ws: seq<Write>)
      requires Ready()
      ensures InRange(disk, ws)
      ensures |ws| == if blocks == [] then 0 else 2 * |blocks| + 2
    {
      if blocks == [] then [] else Logging() + Installing()
    }

    // The disk after the first j of them.
    ghost function After(j: nat): (e: Image)
      requires Ready() && j <= |Writes()|
      ensures |e| == |disk|
    {
      Apply(disk, Writes()[..j])
    }
  }

  // Installing the first j of n logged blocks, home block by home block.
  lemma InstallPrefix(start: nat, d: Image, blocks: seq<nat>, data: seq<Block>, j: nat)
    requires |blocks| == |data| && GoodBlocks(start, |d|, blocks) && j <= |blocks|
    ensures InRange(d, InstallWrites(blocks, data)) && InRange(d, InstallWrites(blocks, data)[..j])
    ensures forall i :: 0 <= i < j ==> Apply(d, InstallWrites(blocks, data)[..j])[blocks[i]] == data[i]
    ensures forall b :: 0 <= b < |d| && b !in blocks[..j] ==> Apply(d, InstallWrites(blocks, data)[..j])[b] == d[b]
  {
    hide Apply;
    var ws := InstallWrites(blocks, data)[..j];
    forall i | 0 <= i < j ensures Apply(d, ws)[blocks[i]] == data[i] {
      ApplyLast(d, ws, i);
    }
    forall b | 0 <= b < |d| && b !in blocks[..j] ensures Apply(d, ws)[b] == d[b] {
      forall i | 0 <= i < |ws| ensures ws[i].blockno != b {
        assert blocks[..j][i] == blocks[i];
      }
      ApplyUntouched(d, ws, b);
    }
  }

  // Recovery of a disk overlays the logged blocks on the home blocks and clears the header.
  lemma RecoveredIsOverlay(start: nat, d: Image)
    requires WellFormed(start, d)
    ensures Overlays(start, d, HeaderBlocks(d[start]), LoggedData(start, d, d[start].words[0]), Recovered(start, d))
    ensures WellFormed(start, Recovered(start, d)) && Recovered(start, d)[start].words[0] == 0
  {
    var blocks := HeaderBlocks(d[start]);
    var data := LoggedData(start, d, |blocks|);
    var ws := InstallWrites(blocks, data);
    InstallPrefix(start, d, blocks, data, |blocks|);
    assert ws[..|blocks|] == ws;
    assert blocks[..|blocks|] == blocks;
    ApplyConcat(d, ws, [Write(start, EncodeHeader(d[start], []))]);
  }

  lemma OverlaysUnique(start: nat, d: Image, blocks: seq<nat>, data: seq<Block>, r: Image, s: Image)
    requires |blocks| == |data| && GoodBlocks(start, |d|, blocks)
    requires Overlays(start, d, blocks, data, r) && Overlays(start, d, blocks, data, s)
    ensures SameHome(start, r, s)
  {
    forall b | 0 <= b < |d| && IsHome(start, b) ensures r[b] == s[b] {
      if b in blocks {
        var i :| 0 <= i < |blocks| && blocks[i] == b;
      }
    }
  }

  // A clean header means recovery changes no home block.
  lemma CleanRecovers(start: nat, d: Image)
    requires WellFormed(start, d) && d[start].words[0] == 0
    ensures SameHome(start, d, Recovered(start, d))
  {
    RecoveredIsOverlay(start, d);
  }

  /** Idempotence: crash recovery after any prefix of its own writes, and recovering again
      gives what an uninterrupted recovery would have given. */
  lemma RecoveryIdempotent(start: nat, d: Image, j: nat)
    requires WellFormed(start, d) && j <= |RecoverWrites(start, d)|
    ensures InRange(d, RecoverWrites(start, d)[..j])
    ensures WellFormed(start, Apply(d, RecoverWrites(start, d)[..j]))
    ensures SameHome(start, Recovered(start, d), Recovered(start, Apply(d, RecoverWrites(start, d)[..j])))
    ensures j == |RecoverWrites(start, d)| ==> Apply(d, RecoverWrites(start, d)[..j])[start].words[0] == 0
  {
    var blocks := HeaderBlocks(d[start]);
    var data := LoggedData(start, d, |blocks|);
    var e := Apply(d, RecoverWrites(start, d)[..j]);
    RecoveredIsOverlay(start, d);
    if j == |blocks| + 1 {
      assert RecoverWrites(start, d)[..j] == RecoverWrites(start, d);
      CleanRecovers(start, e);
    } else {
      assert RecoverWrites(start, d)[..j] == InstallWrites(blocks, data)[..j];
      InstallPrefix(start, d, blocks, data, j);
      HomeWritesKeepLog(start, d, blocks, j, e);
      RecoveredIsOverlay(start, e);
      OverlayAbsorbsInstall(start, d, blocks, data, j, e, Recovered(start, e));
      OverlaysUnique(start, d, blocks, data, Recovered(start, d), Recovered(start, e));
    }
  }

  // Writes to home blocks leave the header and the log blocks alone.
  lemma HomeWritesKeepLog(start: nat, d: Image, blocks: seq<nat>, j: nat, e: Image)
    requires WellFormed(start, d) && GoodBlocks(start, |d|, blocks) && j <= |blocks|
    requires |e| == |d| && forall b :: 0 <= b < |d| && b !in blocks[..j] ==> e[b] == d[b]
    ensures e[start] == d[start] && WellFormed(start, e)
    ensures LoggedData(start, e, d[start].words[0]) == LoggedData(start, d, d[start].words[0])
  {
    forall b | start <= b <= start + LOGBLOCKS ensures e[b] == d[b] {
      assert !IsHome(start, b);
    }
  }

  // Overlaying the whole log on a partly installed disk is the same as overlaying it at once.
  lemma OverlayAbsorbsInstall(start: nat, d: Image, blocks: seq<nat>, data: seq<Block>, j: nat, e: Image, r: Image)
    requires |blocks| == |data| && GoodBlocks(start, |d|, blocks) && j <= |blocks| && |e| == |d|
    requires forall b :: 0 <= b < |d| && b !in blocks[..j] ==> e[b] == d[b]
    requires Overlays(start, e, blocks, data, r)
    ensures Overlays(start, d, blocks, data, r)
  {
    forall b | 0 <= b < |d| && IsHome(start, b) && b !in blocks ensures r[b] == d[b] {
      assert b !in blocks[..j];
    }
  }

  /** Before the header write of a commit no home block has changed, and neither has the header. */
  lemma BeforeCommitPoint(c: Transaction, j: nat)
    requires c.Ready() && c.blocks != [] && j <= |c.blocks|
    ensures WellFormed(c.start, c.After(j)) && SameHome(c.start, c.disk, c.After(j))
    ensures c.After(j)[c.start] == c.disk[c.start]
  {
    LogPhase(c.start, c.disk, c.data, j);
    assert c.Writes()[..j] == LogWrites(c.start, c.data)[..j];
  }

  /** From the header write of a commit on, recovery yields every logged block, wherever the
      commit was cut off. */
  lemma AfterCommitPoint(c: Transaction, j: nat)
    requires c.Ready() && c.blocks != [] && |c.blocks| < j <= |c.Writes()|
    ensures WellFormed(c.start, c.After(j))
    ensures Overlays(c.start, c.disk, c.blocks, c.data, Recovered(c.start, c.After(j)))
    ensures j == |c.Writes()| ==> c.After(j)[c.start].words[0] == 0
  {
    var e0 := HeaderWritten(c);
    RestIsRecovery(c, e0, j);
    RecoveryIdempotent(c.start, e0, j - |c.blocks| - 1);
    RecoveredIsOverlay(c.start, e0);
    OverlayTransfer(c.start, c.disk, e0, c.blocks, c.data, Recovered(c.start, e0), Recovered(c.start, c.After(j)));
  }

  /** A finished commit has installed every logged block and cleared the header. */
  lemma CommitCompletes(c: Transaction)
    requires c.Ready()
    ensures WellFormed(c.start, c.After(|c.Writes()|)) && c.After(|c.Writes()|)[c.start].words[0] == 0
    ensures Overlays(c.start, c.disk, c.blocks, c.data, c.After(|c.Writes()|))
  {
    if c.blocks != [] {
      var e := c.After(|c.Writes()|);
      AfterCommitPoint(c, |c.Writes()|);
      CleanRecovers(c.start, e);
      OverlayTransfer(c.start, c.disk, c.disk, c.blocks, c.data, Recovered(c.start, e), e);
    }
  }

  // Writing the log blocks leaves the header for write_head to build on.
  lemma AfterLogging(c: Transaction)
    requires c.Ready()
    ensures InRange(c.disk, LogWrites(c.start, c.data))
    ensures Apply(c.disk, LogWrites(c.start, c.data))[c.start] == c.disk[c.start]
    ensures Apply(c.disk, c.Logging()) == Apply(c.disk, LogWrites(c.start, c.data))[c.start := c.Full()]
  {
    LogPhase(c.start, c.disk, c.data, |c.blocks|);
    assert LogWrites(c.start, c.data)[..|c.blocks|] == LogWrites(c.start, c.data);
    ApplyConcat(c.disk, LogWrites(c.start, c.data), [Write(c.start, c.Full())]);
  }

  // The disk right after the header write.
  lemma HeaderWritten(c: Transaction) returns (e0: Image)
    requires c.Ready() && c.blocks != []
    ensures e0 == Apply(c.disk, c.Logging()) && |e0| == |c.disk|
    ensures WellFormed(c.start, e0) && SameHome(c.start, c.disk, e0)
    ensures e0[c.start] == c.Full() && LoggedData(c.start, e0, |c.blocks|) == c.data
  {
    AfterLogging(c);
    e0 := Apply(c.disk, c.Logging());
    LogPhase(c.start, c.disk, c.data, |c.blocks|);
    assert LogWrites(c.start, c.data)[..|c.blocks|] == LogWrites(c.start, c.data);
  }

  // From there on the commit performs the writes recovery would perform.
  lemma RestIsRecovery(c: Transaction, e0: Image, j: nat)
    requires c.Ready() && c.blocks != [] && |c.blocks| < j <= |c.Writes()|
    requires e0 == Apply(c.disk, c.Logging()) && WellFormed(c.start, e0)
    requires e0[c.start] == c.Full() && LoggedData(c.start, e0, |c.blocks|) == c.data
    ensures RecoverWrites(c.start, e0) == c.Installing()
    ensures c.After(j) == Apply(e0, RecoverWrites(c.start, e0)[..j - |c.blocks| - 1])
  {
    var rest := c.Installing()[..j - |c.blocks| - 1];
    assert c.Writes()[..j] == c.Logging() + rest;
    ApplyConcat(c.disk, c.Logging(), rest);
  }

  // The overlay relation sees home blocks only.
  lemma OverlayTransfer(start: nat, d: Image, d': Image, blocks: seq<nat>, data: seq<Block>, r: Image, r': Image)
    requires |blocks| == |data| && GoodBlocks(start, |d|, blocks)
    requires SameHome(start, d, d') && SameHome(start, r, r') && Overlays(start, d', blocks, data, r)
    ensures Overlays(start, d, blocks, data, r')
  {
  }

  // Writing the first j log blocks touches neither the header nor any home block.
  lemma LogPhase(start: nat, d: Image, data: seq<Block>, j: nat)
    requires WellFormed(start, d) && j <= |data| <= LOGBLOCKS
    ensures InRange(d, LogWrites(start, data)[..j])
    ensures var e := Apply(d, LogWrites(start, data)[..j]);
            && SameHome(start, d, e) && e[start] == d[start]
            && forall i :: 0 <= i < j ==> e[start + 1 + i] == data[i]
  {
    var ws := LogWrites(start, data)[..j];
    forall b | 0 <= b < |d| && (IsHome(start, b) || b == start) ensures Apply(d, ws)[b] == d[b] {
      ApplyUntouched(d, ws, b);
    }
    forall i | 0 <= i < j ensures Apply(d, ws)[start + 1 + i] == data[i] {
      ApplyLast(d, ws, i);
    }
  }
}
