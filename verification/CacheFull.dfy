/** A run after which bget panics: NBUF processes hold NBUF blocks, and one more asks for another. */
module CacheFull {
  import opened Disk
  import opened BufferCache
  import opened CacheRuns
  import opened CacheRoom

  ghost function BlockKey(k: nat): Key { Key(1, k) }

  ghost function FullDisk(): (d: map<Key, Block>)
    ensures forall k :: 0 <= k <= 30 ==> BlockKey(k) in d
  {
    map k | k in Keys(31) :: Block([])
  }

  ghost function Keys(n: nat): (ks: set<Key>)
    ensures forall k :: 0 <= k < n ==> BlockKey(k) in ks
  {
    if n == 0 then {} else Keys(n - 1) + {BlockKey(n - 1)}
  }

  // The first k blocks are held, each by its own process.
  ghost predicate Holding(s: State, k: nat) {
    && Listed(s.cache) && |s.stamps| == NBUF && s.disk == FullDisk() && |InUse(s.cache)| == k
    && (forall b :: 0 <= b < NBUF && s.cache.bufs[b].refcnt > 0 ==> exists j :: 0 <= j < k && s.cache.bufs[b].key == BlockKey(j))
    && (forall b :: 0 <= b < NBUF && s.cache.bufs[b].refcnt == 0 ==> s.cache.bufs[b].key.dev == 0)
    && (forall u :: u in s.uses ==> u < k && s.uses[u].buf < NBUF && s.uses[u].key in s.disk)
  }

  lemma NewKey(s: State, k: nat)
    requires Holding(s, k) && k <= 30
    ensures forall b :: 0 <= b < NBUF ==> s.cache.bufs[b].key != BlockKey(k)
  {
  }

  lemma GetOne(s: State, k: nat)
    requires Holding(s, k) && k < 30
    ensures Enabled(s, Get(k, BlockKey(k))) && Holding(Do(s, Get(k, BlockKey(k))), k + 1)
  {
    hide Listed;
    hide Find;
    hide Victim;
    hide Bget;
    hide InUse;
    hide FullDisk;
    GetPicksFree(s, k);
    var g := Bget(s.cache, BlockKey(k));
    OneMore(s.cache, g.cache, g.b);
    GetKeys(s, k, g.cache, g.b);
  }

  // What bget does for the next block: it takes a buffer that is not in use.
  lemma GetPicksFree(s: State, k: nat)
    requires Holding(s, k) && k < 30
    ensures Bget(s.cache, BlockKey(k)).Got? && Listed(Bget(s.cache, BlockKey(k)).cache)
    ensures var g := Bget(s.cache, BlockKey(k));
            && g.b < NBUF && |s.cache.bufs| == NBUF && s.cache.bufs[g.b].refcnt == 0
            && g.cache.bufs == s.cache.bufs[g.b := Buf(BlockKey(k), false, 1, s.cache.bufs[g.b].data)]
  {
    hide Find;
    hide Victim;
    hide Bget;
    hide FullDisk;
    var b := SomeFree(s.cache);
    NewKey(s, k);
    BgetFails(s.cache, BlockKey(k));
    BgetPicks(s.cache, BlockKey(k));
    BgetListed(s.cache, BlockKey(k));
  }

  lemma OneMore(c: Cache, d: Cache, b: nat)
    requires b < |c.bufs| == |d.bufs| && c.bufs[b].refcnt == 0 && d.bufs[b].refcnt > 0 && d.bufs == c.bufs[b := d.bufs[b]]
    ensures |InUse(d)| == |InUse(c)| + 1
  {
    assert InUse(d) == InUse(c) + {b};
  }

  lemma GetKeys(s: State, k: nat, d: Cache, b: nat)
    requires Holding(s, k) && b < NBUF && |s.cache.bufs| == |d.bufs| == NBUF && d.bufs == s.cache.bufs[b := d.bufs[b]] && d.bufs[b].key == BlockKey(k)
    ensures forall c :: 0 <= c < NBUF && d.bufs[c].refcnt > 0 ==> exists j :: 0 <= j < k + 1 && d.bufs[c].key == BlockKey(j)
  {
    hide Listed;
    hide FullDisk;
    hide InUse;
    forall c | 0 <= c < NBUF && d.bufs[c].refcnt > 0 ensures exists j :: 0 <= j < k + 1 && d.bufs[c].key == BlockKey(j) {
      if c == b {
        assert d.bufs[c].key == BlockKey(k);
      } else {
        var j :| 0 <= j < k && s.cache.bufs[c].key == BlockKey(j);
        assert d.bufs[c].key == BlockKey(j);
      }
    }
  }

  lemma BgetListed(c: Cache, key: Key)
    requires Listed(c) && Bget(c, key).Got?
    ensures Listed(Bget(c, key).cache)
  {
  }

  ghost predicate Reached(run: seq<State>, steps: seq<Step>, s: State) {
    IsRun(FullDisk(), run, steps) && run[|steps|] == s
  }

  lemma Extend(run: seq<State>, steps: seq<Step>, s: State, step: Step)
    requires Reached(run, steps, s) && Enabled(s, step)
    ensures Reached(run + [Do(s, step)], steps + [step], Do(s, step))
  {
    hide Do;
    hide Enabled;
    var run', steps' := run + [Do(s, step)], steps + [step];
    forall i | 0 <= i < |steps'| ensures Enabled(run'[i], steps'[i]) && run'[i + 1] == Do(run'[i], steps'[i]) {
      if i < |steps| { assert run'[i] == run[i] && run'[i + 1] == run[i + 1] && steps'[i] == steps[i]; }
    }
  }

  lemma BootHolds()
    ensures Holding(Boot(FullDisk()), 0)
  {
    hide Inv;
    BootInv(FullDisk());
    BootListed(Boot(FullDisk()));
    assert InUse(Boot(FullDisk()).cache) == {};
  }

  lemma BootListed(s: State)
    requires Inv(s)
    ensures Listed(s.cache)
  {
  }

  /** bget can run out of buffers: after this run it panics. */
  lemma BgetRunsOut() returns (run: seq<State>, steps: seq<Step>)
    ensures IsRun(FullDisk(), run, steps) && |steps| == NBUF
    ensures Listed(run[NBUF].cache) && BlockKey(NBUF) in run[NBUF].disk && Bget(run[NBUF].cache, BlockKey(NBUF)).NoBuffers?
  {
    hide Do;
    hide Enabled;
    hide Bget;
    var s := Boot(FullDisk());
    run, steps := [s], [];
    BootHolds();
    for k := 0 to NBUF
      invariant Reached(run, steps, s) && |steps| == k && Holding(s, k)
    {
      GetOne(s, k);
      Extend(run, steps, s, Get(k, BlockKey(k)));
      s := Do(s, Get(k, BlockKey(k)));
      run, steps := run + [s], steps + [Get(k, BlockKey(k))];
    }
    NewKey(s, NBUF);
    AllInUse(s.cache);
    BgetFails(s.cache, BlockKey(NBUF));
  }
}
