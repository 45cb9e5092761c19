/** log.c in its own form: a log object over the in-memory header, the pinned buffers and the disk,
    every method proved against the write lists of RedoLog and the steps of LogOps. */
module LogCode {
  import opened Disk
  import opened RedoLog
  import opened LogOps
  import BufferCache

  // bunpin: the log lets go of the buffers of these blocks.
  ghost function Unpin(cache: map<nat, Block>, blocks: seq<nat>): map<nat, Block> {
    map b | b in cache && b !in blocks :: cache[b]
  }

  lemma UnpinNone(cache: map<nat, Block>)
    ensures Unpin(cache, []) == cache
  {
  }

  // Letting go of one block more, which is still pinned.
  lemma UnpinOne(start: nat, size: nat, cache: map<nat, Block>, blocks: seq<nat>, k: nat)
    requires GoodBlocks(start, size, blocks) && k < |blocks| && blocks[k] in cache
    ensures blocks[k] in Unpin(cache, blocks[..k])
    ensures Unpin(cache, blocks[..k]) - {blocks[k]} == Unpin(cache, blocks[..k + 1])
  {
    assert blocks[..k + 1] == blocks[..k] + [blocks[k]];
  }

  // The log holds on to home blocks only.
  ghost predicate HomeOnly(start: nat, cache: map<nat, Block>) {
    forall b :: b in cache ==> IsHome(start, b)
  }

  // The log pins one buffer for each of its blocks.
  lemma {:induction false} PinsCount(cache: map<nat, Block>, blocks: seq<nat>, data: seq<Block>)
    requires Pins(cache, blocks, data) && forall i, j :: 0 <= i < j < |blocks| ==> blocks[i] != blocks[j]
    ensures |cache| == |blocks|
    decreases |blocks|
  {
    if blocks == [] {
      assert cache == map[];
    } else {
      var n := |blocks| - 1;
      var rest := cache - {blocks[n]};
      forall b | b in rest ensures b in blocks[..n] {
        var i :| 0 <= i < |blocks| && blocks[i] == b;
        assert blocks[..n][i] == b;
      }
      PinsCount(rest, blocks[..n], data[..n]);
      assert cache.Keys == rest.Keys + {blocks[n]};
    }
  }

  lemma PinsAll(cache: map<nat, Block>, blocks: seq<nat>, data: seq<Block>)
    requires Pins(cache, blocks, data)
    ensures forall i :: 0 <= i < |blocks| ==> blocks[i] in cache
  {
  }

  class Log {
    const start: nat
    var n: nat
    const block: array<nat>
    var outstanding: nat
    var committing: bool
    var sleepers: set<Proc>

    var cache: map<nat, Block>
    var dev: Device

    ghost predicate Valid()
      reads this, block
    {
      && block.Length == LOGBLOCKS && n <= LOGBLOCKS
      && start + LOGBLOCKS < |dev.image|
      && Consistent(Mem(), start, |dev.image|)
    }

    ghost function Mem(): LogMem
      reads this, block
      requires n <= block.Length
    {
      LogMem(block[..n], outstanding, committing, cache, sleepers)
    }

    // A freshly booted log: nothing in memory, the disk as the last run left it.
    constructor (start: nat, disk: Image)
      requires start + LOGBLOCKS < |disk|
      ensures Valid() && Mem() == EmptyMem && this.start == start && dev == Device(disk, [])
    {
      this.start := start;
      this.n := 0;
      this.block := new nat[LOGBLOCKS](_ => 0);
      this.outstanding := 0;
      this.committing := false;
      this.sleepers := {};
      this.cache := map[];
      this.dev := Device(disk, []);
    }

    // bread as the log sees it: the pinned buffer if there is one, else the disk.
    function Bread(b: nat): Block
      reads this
      requires b < |dev.image|
    {
      if b in cache then cache[b] else dev.image[b]
    }

    // bget finds a buffer for the block beside `held` others, as nobody but the log uses any
    // (CacheRoom.BgetPanicsIff); where it does not, it panics.
    predicate HasBuffer(b: nat, held: nat)
      reads this
    {
      b in cache || |cache| + held < BufferCache.NBUF
    }

    method Bwrite(b: nat, data: Block)
      requires b < |dev.image|
      modifies this`dev
      ensures dev == Perform(old(dev), [Write(b, data)]) && dev.image == old(dev.image)[b := data]
    {
      PerformOne(dev, Write(b, data));
      dev := Device(dev.image[b := data], dev.trace + [Write(b, data)]);
    }

    method ReadHead()
      requires Valid() && cache == map[] && n == 0 && WellFormed(start, dev.image)
      modifies this`n, block
      ensures n == dev.image[start].words[0] && block[..n] == HeaderBlocks(dev.image[start])
    {
      var lh := Bread(start).words;
      n := lh[0];
      var i := 0;
      while i < n
        invariant 0 <= i <= n == lh[0] <= LOGBLOCKS
        invariant forall k :: 0 <= k < i ==> block[k] == lh[1 + k]
      {
        block[i] := lh[1 + i];
        i := i + 1;
      }
    }

    // Not `ok` where the source panics, here and below.
    method WriteHead() returns (ok: bool)
      requires n <= block.Length == LOGBLOCKS && start < |dev.image| && start !in cache
      requires |dev.image[start].words| == WORDS
      modifies this`dev
      ensures ok == (|cache| < BufferCache.NBUF) && (!ok ==> dev == old(dev))
      ensures ok ==> dev == Perform(old(dev), [Write(start, EncodeHeader(old(dev.image[start]), block[..n]))])
    {
      if !HasBuffer(start, 0) {
        return false;
      }
      var hb := Bread(start).words;
      ghost var before := hb;
      hb := hb[0 := n];
      var i := 0;
      while i < n
        invariant 0 <= i <= n
        invariant |hb| == WORDS && hb[0] == n
        invariant forall k :: 0 <= k < i ==> hb[1 + k] == block[k]
        invariant forall k :: i < k < WORDS ==> hb[k] == before[k]
      {
        hb := hb[1 + i := block[i]];
        i := i + 1;
      }
      assert hb == EncodeHeader(Block(before), block[..n]).words;
      Bwrite(start, Block(hb));
      ok := true;
    }

    // Copy committed blocks, `data`, from the log to their home location.
    method InstallTrans(recovering: bool, ghost data: seq<Block>) returns (ok: bool)
      requires n == |data| <= block.Length && start + LOGBLOCKS < |dev.image|
      requires GoodBlocks(start, |dev.image|, block[..n]) && HomeOnly(start, cache)
      requires LoggedData(start, dev.image, n) == data
      requires if recovering then cache == map[] else forall i :: 0 <= i < n ==> block[i] in cache
      modifies this`dev, this`cache
      ensures InRange(old(dev.image), InstallWrites(block[..n], data))
      ensures ok == (n == 0 || |old(cache)| < BufferCache.NBUF) && (!ok ==> dev == old(dev))
      ensures ok ==> dev == Perform(old(dev), InstallWrites(block[..n], data))
      ensures ok ==> cache == (if recovering then old(cache) else Unpin(old(cache), block[..n])) && |cache| <= |old(cache)|
    {
      hide Perform;
      hide Apply;
      hide Unpin;
      hide LoggedData;
      hide InstallWrites;
      hide GoodBlocks;
      ghost var bs := block[..n];
      ghost var ws := InstallWrites(bs, data);
      PerformNone(dev);
      UnpinNone(cache);
      InstallFits(start, dev.image, bs, data);
      assert ws[..0] == [] && bs[..0] == [] && ws[..n] == ws && bs[..n] == bs;
      var tail := 0;
      while tail < n
        invariant 0 <= tail <= n && bs == block[..n] && |dev.image| == |old(dev.image)|
        invariant dev == Perform(old(dev), ws[..tail])
        invariant LoggedData(start, dev.image, n) == data && HomeOnly(start, cache)
        invariant cache == if recovering then old(cache) else Unpin(old(cache), bs[..tail])
        invariant |cache| <= |old(cache)| && (tail > 0 ==> |old(cache)| < BufferCache.NBUF)
      {
        assert block[tail] == bs[tail];
        if !recovering { UnpinOne(start, |dev.image|, old(cache), bs, tail); }
        if !HasBuffer(start + tail + 1, 0) || !HasBuffer(block[tail], 1) {
          return false;
        }
        var lbuf := Bread(start + tail + 1);
        LoggedAt(start, dev.image, n, tail);
        PerformNext(old(dev), ws, tail);
        HomeWriteKeepsLog(dev.image, n, block[tail], lbuf);
        Bwrite(block[tail], lbuf);
        if !recovering {
          cache := cache - {block[tail]};
        }
        tail := tail + 1;
      }
      ok := true;
    }

    lemma InstallFits(start: nat, d: Image, bs: seq<nat>, data: seq<Block>)
      requires |bs| == |data| && GoodBlocks(start, |d|, bs)
      ensures InRange(d, InstallWrites(bs, data)) && |bs| <= LOGBLOCKS
      ensures forall i :: 0 <= i < |bs| ==> bs[i] < |d| && IsHome(start, bs[i])
      ensures forall i :: 0 <= i < |bs| ==> InstallWrites(bs, data)[i] == Write(bs[i], data[i])
    {
    }

    lemma LoggedAt(start: nat, d: Image, n: nat, i: nat)
      requires start + n < |d| && i < n
      ensures LoggedData(start, d, n)[i] == d[start + i + 1]
    {
    }

    // The second half of commit() and of recover_from_log(): install, then erase the log.
    method InstallAndErase(recovering: bool, ghost data: seq<Block>) returns (ok: bool)
      requires n == |data| <= block.Length == LOGBLOCKS && start + LOGBLOCKS < |dev.image|
      requires GoodBlocks(start, |dev.image|, block[..n]) && HomeOnly(start, cache)
      requires LoggedData(start, dev.image, n) == data && |dev.image[start].words| == WORDS
      requires if recovering then cache == map[] else forall i :: 0 <= i < n ==> block[i] in cache
      modifies this`dev, this`cache, this`n
      ensures InRange(old(dev.image), InstallWrites(old(block[..n]), data))
      ensures ok == (|old(cache)| < BufferCache.NBUF) && (!ok ==> dev == old(dev))
      ensures ok ==> dev == Perform(old(dev), InstallWrites(old(block[..n]), data)
                                              + [Write(start, EncodeHeader(old(dev.image[start]), []))])
      ensures ok ==> n == 0 && cache == if recovering then old(cache) else Unpin(old(cache), old(block[..n]))
    {
      hide Perform;
      hide Apply;
      ghost var ws := InstallWrites(block[..n], data);
      InstallPrefix(start, dev.image, block[..n], data, n);
      assert ws[..n] == ws;
      ghost var d := dev;
      PerformNone(d);
      UnpinNone(cache);
      assert n == 0 ==> ws == [] && block[..n] == [];
      ok := InstallTrans(recovering, data);
      if !ok {
        return;
      }
      PerformImage(d, ws);
      assert dev.image[start] == old(dev.image[start]);
      n := 0;
      assert block[..n] == [];
      ok := WriteHead();
      PerformConcat(old(dev), ws, [Write(start, EncodeHeader(old(dev.image[start]), []))]);
    }

    lemma HomeWriteKeepsLog(d: Image, n: nat, b: nat, data: Block)
      requires start + n < |d| && n <= LOGBLOCKS && b < |d| && IsHome(start, b)
      ensures LoggedData(start, d[b := data], n) == LoggedData(start, d, n)
    {
    }

    // Copy modified blocks, `data`, from the cache to the log.
    method WriteLog(ghost data: seq<Block>) returns (ok: bool)
      requires n == |data| <= block.Length && start + LOGBLOCKS < |dev.image|
      requires GoodBlocks(start, |dev.image|, block[..n]) && Pins(cache, block[..n], data)
      modifies this`dev
      ensures InRange(old(dev.image), LogWrites(start, data))
      ensures ok == (n < BufferCache.NBUF) && (!ok ==> dev == old(dev))
      ensures ok ==> dev == Perform(old(dev), LogWrites(start, data))
    {
      hide Perform;
      hide Apply;
      ghost var ws := LogWrites(start, data);
      PinsCount(cache, block[..n], data);
      PerformNone(dev);
      assert ws[..0] == [];
      var tail := 0;
      while tail < n
        invariant 0 <= tail <= n && InRange(old(dev.image), ws) && |dev.image| == |old(dev.image)|
        invariant dev == Perform(old(dev), ws[..tail]) && (tail > 0 ==> n < BufferCache.NBUF)
      {
        assert block[tail] == block[..n][tail];
        if !HasBuffer(start + tail + 1, 0) || !HasBuffer(block[tail], 1) {
          return false;
        }
        var from := Bread(block[tail]);
        PerformNext(old(dev), ws, tail);
        Bwrite(start + tail + 1, from);
        tail := tail + 1;
      }
      assert ws[..n] == ws;
      ok := true;
    }

    // The commit the log is ready to perform.
    ghost function Txn(): Transaction
      reads this, block
      requires Valid()
    {
      Transaction(start, dev.image, block[..n], CachedData(cache, block[..n]))
    }

    // The log, its pinned buffers and the disk make up the transaction `c`.
    ghost predicate Holds(c: Transaction)
      reads this, block
    {
      && n == |c.blocks| <= LOGBLOCKS == block.Length && block[..n] == c.blocks
      && c.start == start && c.disk == dev.image && c.Ready()
      && Pins(cache, c.blocks, c.data) && HomeOnly(start, cache) && Unpin(cache, c.blocks) == map[]
    }

    lemma HoldsTxn()
      requires Valid() && Txn().Ready()
      ensures Holds(Txn())
    {
    }

    /** commit() performs exactly the writes of the transaction in memory, in that order, and
        leaves the log empty; unless it has NBUF blocks, when it panics before it writes anything. */
    method Commit(ghost c: Transaction) returns (ok: bool)
      requires Holds(c)
      modifies this`dev, this`cache, this`n
      ensures ok == (|c.blocks| < BufferCache.NBUF)
      ensures !ok ==> dev == old(dev) && n == old(n) && cache == old(cache)
      ensures ok ==> dev == Perform(old(dev), c.Writes()) && n == 0 && cache == map[]
    {
      hide Perform;
      hide Apply;
      hide LogWrites;
      hide InstallWrites;
      hide EncodeHeader;
      hide LoggedData;
      hide Pins;
      assert c.blocks == [] ==> cache == map[];
      PerformNone(dev);
      if n > 0 {
        ghost var e0 := CommitPhases(c, dev);
        PinsCount(cache, c.blocks, c.data);
        PinsAll(cache, c.blocks, c.data);
        ok := LogAndMark(c);
        if !ok {
          return;
        }
        ok := InstallAndErase(false, c.data);
      } else {
        ok := true;
      }
    }

    // The first half of commit(): the log blocks, then the header that commits them.
    method LogAndMark(ghost c: Transaction) returns (ok: bool)
      requires Holds(c) && n > 0
      modifies this`dev
      ensures ok == (|c.blocks| < BufferCache.NBUF) && (!ok ==> dev == old(dev))
      ensures ok ==> dev == Perform(old(dev), c.Logging())
    {
      ghost var e0 := CommitPhases(c, dev);
      PinsCount(cache, c.blocks, c.data);
      ok := WriteLog(c.data);
      if ok {
        ok := WriteHead();
      }
    }

    lemma PerformImage(dev: Device, ws: seq<Write>)
      requires InRange(dev.image, ws)
      ensures Perform(dev, ws).image == Apply(dev.image, ws)
    {
    }

    lemma PerformNone(dev: Device)
      ensures Perform(dev, []) == dev
    {
    }

    // The disk after each half of a commit.
    lemma CommitPhases(c: Transaction, dev: Device) returns (e0: Image)
      requires c.Ready() && c.blocks != [] && c.disk == dev.image
      ensures InRange(dev.image, LogWrites(c.start, c.data))
      ensures Apply(dev.image, LogWrites(c.start, c.data))[c.start] == c.disk[c.start]
      ensures Perform(Perform(dev, LogWrites(c.start, c.data)), [Write(c.start, c.Full())]) == Perform(dev, c.Logging())
      ensures e0 == Apply(dev.image, c.Logging()) && e0[c.start] == c.Full()
      ensures LoggedData(c.start, e0, |c.blocks|) == c.data
      ensures Perform(dev, c.Logging()).image == e0 && |e0| == |c.disk| && |e0[c.start].words| == WORDS
      ensures Perform(Perform(dev, c.Logging()), c.Installing()) == Perform(dev, c.Writes())
    {
      AfterLogging(c);
      e0 := HeaderWritten(c);
      PerformConcat(dev, LogWrites(c.start, c.data), [Write(c.start, c.Full())]);
      PerformConcat(dev, c.Logging(), c.Installing());
    }

    /** recover_from_log() performs exactly RecoverWrites of the disk it finds. */
    method RecoverFromLog() returns (ok: bool)
      requires Valid() && n == 0 && cache == map[] && WellFormed(start, dev.image)
      modifies this`dev, this`cache, this`n, block
      ensures ok && dev == Perform(old(dev), RecoverWrites(start, old(dev.image)))
      ensures n == 0 && cache == map[]
    {
      ReadHead();
      ok := InstallAndErase(true, LoggedData(start, dev.image, n));
    }

    // One turn of begin_op's loop; `admitted` when the caller may proceed.
    method BeginOp(p: Proc) returns (admitted: bool)
      requires Valid()
      modifies this`outstanding, this`sleepers
      ensures Valid() && Mem() == LogOps.BeginOp(old(Mem()), p)
      ensures admitted == (!old(committing) && old(n) + (old(outstanding) + 1) * MAXOPBLOCKS <= LOGBLOCKS)
      ensures outstanding == old(outstanding) + (if admitted then 1 else 0)
      ensures sleepers == if admitted then old(sleepers) else old(sleepers) + {p}
    {
      if committing {
        sleepers := sleepers + {p};
        admitted := false;
      } else if n + (outstanding + 1) * MAXOPBLOCKS > LOGBLOCKS {
        sleepers := sleepers + {p};
        admitted := false;
      } else {
        outstanding := outstanding + 1;
        admitted := true;
      }
    }

    // log_write for a buffer of block b holding `data`; not `ok` where the source panics.
    method LogWrite(b: nat, data: Block) returns (ok: bool)
      requires Valid() && b < |dev.image| && IsHome(start, b)
      modifies this`n, this`cache, block
      ensures Valid()
      ensures ok == LogOps.LogWrite(old(Mem()), b, data).Done?
      ensures Mem() == if ok then LogOps.LogWrite(old(Mem()), b, data).mem else old(Mem())
    {
      hide Consistent;
      if n >= LOGBLOCKS || outstanding < 1 {
        return false;
      }
      ghost var m := Mem();
      var i := 0;
      while i < n
        invariant 0 <= i <= n
        invariant forall k :: 0 <= k < i ==> block[k] != b
      {
        if block[i] == b { break; }
        i := i + 1;
      }
      assert i < n <==> b in m.blocks;
      block[i] := b;
      cache := cache[b := data];
      if i == n {
        n := n + 1;
      }
      assert block[..n] == Record(m.blocks, b);
      LogWriteConsistent(m, start, |dev.image|, b, data);
      ok := true;
    }

    // end_op: `ok` is false where the source panics; the last operation out commits.
    method EndOp() returns (ok: bool)
      requires Valid() && outstanding >= 1 && Txn().Ready()
      modifies this`outstanding, this`committing, this`sleepers, this`dev, this`cache, this`n
      ensures n <= block.Length
      ensures ok == (LogOps.EndOp(old(Mem())).Done? && (old(outstanding) > 1 || old(n) < BufferCache.NBUF))
      ensures !ok ==> dev == old(dev)
      ensures ok && old(outstanding) > 1 ==>
                Mem() == LogOps.EndOp(old(Mem())).mem && dev == old(dev)
      ensures ok && old(outstanding) == 1 ==>
                && Mem() == LogOps.FinishCommit(LogOps.EndOp(old(Mem())).mem.(blocks := [], cache := map[]))
                && dev == Perform(old(dev), old(Txn()).Writes())
    {
      var doCommit := false;
      outstanding := outstanding - 1;
      if committing {
        return false;
      }
      if outstanding == 0 {
        doCommit := true;
        committing := true;
      } else {
        sleepers := {};
      }
      if doCommit {
        HoldsTxn();
        var done := Commit(Txn());
        if !done {
          return false;
        }
        committing := false;
        sleepers := {};
        assert block[..n] == [];
      }
      ok := true;
    }
  }
}
