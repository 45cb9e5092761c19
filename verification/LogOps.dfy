/** The in-memory half of log.c as values: what begin_op, log_write and end_op do to it in
    one critical section under log.lock. */
module LogOps {
  import opened Disk
  import opened RedoLog

  type Proc = nat

  datatype LogMem = LogMem(
    blocks: seq<nat>,        // log.lh.block[0..log.lh.n]
    outstanding: nat,
    committing: bool,
    cache: map<nat, Block>,   // contents of the buffers the log has pinned
    sleepers: set<Proc>)      // processes asleep on &log

  datatype Outcome = Done(mem: LogMem) | Panic

  const EmptyMem: LogMem := LogMem([], 0, false, map[], {})

  function Wakeup(m: LogMem): LogMem { m.(sleepers := {}) }

  // The test of begin_op: is there room for one more operation of MAXOPBLOCKS blocks?
  predicate Admits(m: LogMem) {
    !m.committing && |m.blocks| + (m.outstanding + 1) * MAXOPBLOCKS <= LOGBLOCKS
  }

  // One turn of begin_op's loop for process p: it enters, or goes to sleep on the log.
  function BeginOp(m: LogMem, p: Proc): LogMem {
    if Admits(m) then m.(outstanding := m.outstanding + 1)
    else m.(sleepers := m.sleepers + {p})
  }

  function Record(blocks: seq<nat>, b: nat): seq<nat> {
    if b in blocks then blocks else blocks + [b]
  }

  // log_write on a buffer of block b whose contents the caller has just set to `data`.
  function LogWrite(m: LogMem, b: nat, data: Block): Outcome {
    if |m.blocks| >= LOGBLOCKS || m.outstanding < 1 then Panic
    else Done(m.(blocks := Record(m.blocks, b), cache := m.cache[b := data]))
  }

  // end_op up to the release of log.lock; the last operation out starts the commit.
  function EndOp(m: LogMem): Outcome
    requires m.outstanding >= 1
  {
    if m.committing then Panic
    else if m.outstanding == 1 then Done(m.(outstanding := 0, committing := true))
    else Done(Wakeup(m.(outstanding := m.outstanding - 1)))
  }

  // The second critical section of end_op, after commit().
  function FinishCommit(m: LogMem): LogMem { Wakeup(m.(committing := false)) }

  // The pinned buffers hold `data`, in log order, and there are no others.
  ghost predicate Pins(cache: map<nat, Block>, blocks: seq<nat>, data: seq<Block>) {
    && |data| == |blocks|
    && (forall i :: 0 <= i < |blocks| ==> blocks[i] in cache && cache[blocks[i]] == data[i])
    && (forall b :: b in cache ==> b in blocks)
  }

  ghost function CachedData(cache: map<nat, Block>, blocks: seq<nat>): (data: seq<Block>)
    requires forall i :: 0 <= i < |blocks| ==> blocks[i] in cache
    ensures |data| == |blocks|
  {
    seq(|blocks|, i requires 0 <= i < |blocks| => cache[blocks[i]])
  }

  // The log names distinct home blocks, and pins exactly their buffers.
  ghost predicate Consistent(m: LogMem, start: nat, size: nat) {
    && GoodBlocks(start, size, m.blocks)
    && (forall i :: 0 <= i < |m.blocks| ==> m.blocks[i] in m.cache)
    && (forall b :: b in m.cache ==> b in m.blocks)
  }

  lemma RecordGood(start: nat, size: nat, blocks: seq<nat>, b: nat)
    requires GoodBlocks(start, size, blocks) && |blocks| < LOGBLOCKS && b < size && IsHome(start, b)
    ensures GoodBlocks(start, size, Record(blocks, b))
  {
  }

  /** log_write keeps the log consistent, whether it appends or absorbs. */
  lemma LogWriteConsistent(m: LogMem, start: nat, size: nat, b: nat, data: Block)
    requires Consistent(m, start, size) && b < size && IsHome(start, b) && LogWrite(m, b, data).Done?
    ensures Consistent(LogWrite(m, b, data).mem, start, size)
  {
    RecordGood(start, size, m.blocks, b);
    var m' := LogWrite(m, b, data).mem;
    forall i | 0 <= i < |m'.blocks| ensures m'.blocks[i] in m'.cache {
      assert i < |m.blocks| ==> m'.blocks[i] == m.blocks[i];
    }
  }
}
