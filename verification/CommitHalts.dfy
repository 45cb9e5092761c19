/** A run that fills the log with NBUF blocks, after which commit() halts. */
module CommitHalts {
  import opened Disk
  import opened RedoLog
  import opened BufferCache
  import opened CacheRuns
  import opened CacheRoom
  import opened CacheOps
  import opened CommitBuffers
  import opened CommitRoom
  import L = LogHalt

  const FULL: Block := Block([])

  ghost function Blocks(n: nat): (d: map<Key, Block>)
    requires n <= 64
    ensures forall k :: k in d <==> k.dev == 1 && k.blockno < n
    ensures forall k :: k in d ==> d[k] == L.CleanDisk()[k.blockno]
  {
    if n == 0 then map[] else Blocks(n - 1)[Key(1, n - 1) := L.CleanDisk()[n - 1]]
  }

  // The first k blocks behind the log, with new contents.
  ghost function Logged(k: nat): (c: Transaction)
    requires k <= LOGBLOCKS
    ensures c.Ready() && c.start == L.START && c.disk == L.CleanDisk() && |c.blocks| == |c.data| == k
    ensures forall i :: 0 <= i < k ==> c.blocks[i] == L.FIRST + i && c.data[i] == FULL
  {
    Transaction(L.START, L.CleanDisk(), L.FirstBlocks(k), seq(k, i => FULL))
  }

  lemma RoomForOne(s: State, k: nat)
    requires k < LOGBLOCKS && CanCommit(s, 1, Logged(k))
    ensures CanBread(s, 0, Key(1, L.FIRST + k)) && Bread(s, 0, Key(1, L.FIRST + k)).Next?
  {
    hide Inv;
    hide Bread;
    hide Logged;
    hide L.CleanDisk;
    hide WellFormed;
    hide PinsFrom;
    hide DataFrom;
    PinCount(s, 1, Logged(k), Logged(k).disk, 0);
    BreadGives(s, 0, Key(1, L.FIRST + k));
    assert s.pinned + Held(s) == s.pinned;
  }

  lemma LogOneMore(s: State, k: nat) returns (t: State)
    requires k < LOGBLOCKS && Reachable(Blocks(64), s) && CanCommit(s, 1, Logged(k))
    ensures Reachable(Blocks(64), t) && CanCommit(t, 1, Logged(k + 1))
  {
    hide Inv;
    hide Reachable;
    hide Midway;
    hide Bread;
    hide LogCall;
    hide Release;
    hide Blocks;
    hide Logged;
    var key := Key(1, L.FIRST + k);
    RoomForOne(s, k);
    BreadGives(s, 0, key);
    var r;
    r, t := ReachLogged(Blocks(64), s, 0, key, FULL);
    LogPins(r, 0, FULL);
    ReleaseDrops(LogCall(r, 0, FULL), 0);
    AddsToLog(s, r, LogCall(r, 0, FULL), t, k);
  }

  lemma AddsToLog(s: State, r: State, q: State, t: State, k: nat)
    requires k < LOGBLOCKS && CanCommit(s, 1, Logged(k)) && Given(s, r, 0, Key(1, L.FIRST + k))
    requires q.pinned == r.pinned + {r.uses[0].buf} && q.disk == r.disk && q.latest == r.latest[Key(1, L.FIRST + k) := FULL] && q.uses == r.uses
    requires |q.cache.bufs| == |r.cache.bufs| == NBUF && forall c :: 0 <= c < NBUF ==> q.cache.bufs[c].key == r.cache.bufs[c].key
    requires Inv(t) && SamePins(q, t) && t.disk == q.disk && t.latest == q.latest && t.uses == q.uses - {0}
    ensures CanCommit(t, 1, Logged(k + 1))
  {
    hide Inv;
    hide PinsFrom;
    hide Logged;
    hide L.CleanDisk;
    hide WellFormed;
    var c, c' := Logged(k), Logged(k + 1);
    assert c.blocks <= c'.blocks;
    PinsGrow(s, t, r.uses[0].buf, c.blocks, c'.blocks);
    forall i | 0 <= i <= k ensures Key(1, c'.blocks[i]) in t.latest && t.latest[Key(1, c'.blocks[i])] == FULL {
      if i < k { assert c.blocks[i] == c'.blocks[i] && s.latest[Key(1, c.blocks[i])] == FULL; }
    }
    assert t.uses == map[];
  }

  // Buffer b is pinned too, and the others as before.
  ghost predicate OnePinMore(s: State, t: State, b: nat) {
    && |s.cache.bufs| == |t.cache.bufs| == NBUF && b < NBUF && t.pinned == s.pinned + {b}
    && forall p :: p in s.pinned ==> p < NBUF && t.cache.bufs[p].key == s.cache.bufs[p].key
  }

  lemma PinGrows(s: State, t: State, b: nat, key: Key)
    requires OnePinMore(s, t, b) && HasPin(s, key)
    ensures HasPin(t, key)
  {
    var p :| p in s.pinned && p < |s.cache.bufs| && s.cache.bufs[p].key == key;
    assert p in t.pinned && t.cache.bufs[p].key == key;
  }

  lemma PinsGrow(s: State, t: State, b: nat, few: seq<nat>, more: seq<nat>)
    requires OnePinMore(s, t, b) && PinsFrom(s, 1, few, 0) && few <= more && |more| == |few| + 1 && t.cache.bufs[b].key == Key(1, more[|few|])
    ensures PinsFrom(t, 1, more, 0)
  {
    hide HasPin;
    forall i | 0 <= i < |more| ensures HasPin(t, Key(1, more[i])) {
      if i < |few| { PinGrows(s, t, b, Key(1, few[i])); } else { HereIsPin(t, b); }
    }
    forall p | p in t.pinned ensures p < NBUF && exists i :: 0 <= i < |more| && t.cache.bufs[p].key == Key(1, more[i]) {
      if p == b {
        assert t.cache.bufs[p].key == Key(1, more[|few|]);
      } else {
        var i :| 0 <= i < |few| && s.cache.bufs[p].key == Key(1, few[i]);
        assert t.cache.bufs[p].key == Key(1, more[i]);
      }
    }
  }

  lemma HereIsPin(s: State, b: nat)
    requires b in s.pinned && b < |s.cache.bufs|
    ensures HasPin(s, s.cache.bufs[b].key)
  {
  }

  lemma BootEmpty(disk: map<Key, Block>)
    ensures var s := Boot(disk); s.uses == map[] && s.pinned == {} && s.disk == disk && |s.cache.bufs| == NBUF
  {
  }

  lemma BootCommits()
    ensures CanCommit(Boot(Blocks(64)), 1, Logged(0))
  {
    hide Inv;
    hide Blocks;
    hide Logged;
    hide L.CleanDisk;
    hide WellFormed;
    BootInv(Blocks(64));
    BootEmpty(Blocks(64));
  }

  /** Thirty log_write calls on different blocks, as three operations of MAXOPBLOCKS may make them, and
      the commit that follows halts: the first bread of write_log finds no buffer. */
  lemma FullCommitHalts() returns (s: State)
    ensures Reachable(Blocks(64), s) && CanCommit(s, 1, Logged(LOGBLOCKS)) && Ground(s, 1, Logged(LOGBLOCKS), 0)
    ensures Commit(s, 1, Logged(LOGBLOCKS)).Panic?
  {
    hide CanCommit;
    hide Reachable;
    hide Commit;
    hide Ground;
    hide Blocks;
    hide Logged;
    hide Boot;
    hide Bread;
    hide CanBread;
    hide Mirrors;
    s := Boot(Blocks(64));
    BootCommits();
    ReachBoot(Blocks(64));
    for k := 0 to LOGBLOCKS
      invariant Reachable(Blocks(64), s) && CanCommit(s, 1, Logged(k))
    {
      s := LogOneMore(s, k);
    }
    CommitIff(s, 1, Logged(LOGBLOCKS));
  }
}
