/** bread, brelse, bwrite and bunpin of one process as whole calls, made of the steps of the cache. */
module CacheOps {
  import opened Disk
  import opened BufferCache
  import opened CacheRuns
  import opened CacheRoom

  datatype Outcome = Next(s: State) | Panic

  // Nobody holds the block, so bread does not have to wait for its sleep lock.
  ghost predicate CanBread(s: State, u: nat, key: Key) {
    && Inv(s) && u !in s.uses && key.dev >= 1 && key in s.disk
    && forall v :: v in s.uses ==> s.uses[v].key != key
  }

  ghost function Bread(s: State, u: nat, key: Key): Outcome
    requires CanBread(s, u, key)
  {
    if Bget(s.cache, key).NoBuffers? then Panic
    else
      BreadRuns(s, u, key);
      Next(Do(Do(Do(s, Get(u, key)), Acquire(u)), Load(u)))
  }

  lemma BreadRuns(s: State, u: nat, key: Key)
    requires CanBread(s, u, key) && Bget(s.cache, key).Got?
    ensures Enabled(s, Get(u, key))
    ensures var s1 := Do(s, Get(u, key));
            && Inv(s1) && Enabled(s1, Acquire(u))
            && (var s2 := Do(s1, Acquire(u)); Inv(s2) && Enabled(s2, Load(u)) && Inv(Do(s2, Load(u))))
  {
    hide IsPermutation;
    hide Bget;
    hide Counts;
    hide Contents;
    hide Guarded;
    CanGet(s, u, key);
    StepKeepsInv(s, Get(u, key));
    var s1 := Do(s, Get(u, key));
    forall v | v in s1.uses && s1.uses[v].buf == s1.uses[u].buf ensures !Active(s1.uses[v]) {
      assert UseOk(s1, v) && UseOk(s1, u);
    }
    UsesListed(s1);
    StepKeepsInv(s1, Acquire(u));
    var s2 := Do(s1, Acquire(u));
    UsesListed(s2);
    StepKeepsInv(s2, Load(u));
  }

  lemma UsesListed(s: State)
    requires Inv(s)
    ensures Listed(s.cache) && |s.stamps| == NBUF && forall u :: u in s.uses ==> s.uses[u].buf < NBUF && s.uses[u].key in s.disk
  {
    forall u | u in s.uses ensures s.uses[u].buf < NBUF && s.uses[u].key in s.disk { assert UseOk(s, u); }
  }

  lemma CanGet(s: State, u: nat, key: Key)
    requires CanBread(s, u, key) && Bget(s.cache, key).Got?
    ensures Enabled(s, Get(u, key))
  {
    hide Bget;
    UsesListed(s);
  }

  // The pinned buffers are the same, and still hold the same blocks.
  ghost predicate SamePins(s: State, t: State) {
    && t.pinned == s.pinned && |s.cache.bufs| == |t.cache.bufs| == NBUF
    && forall b :: b in s.pinned ==> b < NBUF && t.cache.bufs[b].key == s.cache.bufs[b].key
  }

  // Process u has been given the block, with its latest contents.
  ghost predicate Given(s: State, t: State, u: nat, key: Key) {
    && Inv(t) && SamePins(s, t) && t.disk == s.disk && t.latest == s.latest
    && u in t.uses && t.uses == s.uses[u := t.uses[u]] && t.uses[u].key == key && t.uses[u].stage == Using && !t.uses[u].dirty
    && t.uses[u].buf < NBUF && key in t.latest && Data(t, u) == t.latest[key] && t.cache.bufs[t.uses[u].buf].key == key
  }

  lemma BreadGives(s: State, u: nat, key: Key)
    requires CanBread(s, u, key)
    ensures Bread(s, u, key).Panic? <==> |s.pinned + Held(s)| == NBUF && !Cached(s, key)
    ensures Bread(s, u, key).Next? ==> Given(s, Bread(s, u, key).s, u, key)
  {
    hide Inv;
    hide Bget;
    hide Do;
    hide Enabled;
    UsesListed(s);
    BgetPanicsIff(s, key);
    if Bget(s.cache, key).Got? {
      BreadRuns(s, u, key);
      BreadChanges(s, u, key);
      UserSees(Bread(s, u, key).s, u);
    }
  }

  // What the three steps of bread do to everything but the invariant.
  lemma BreadChanges(s: State, u: nat, key: Key)
    requires CanBread(s, u, key) && Bget(s.cache, key).Got?
    ensures var t := Bread(s, u, key).s;
            && SamePins(s, t) && t.disk == s.disk && t.latest == s.latest
            && u in t.uses && t.uses == s.uses[u := t.uses[u]] && t.uses[u].key == key && t.uses[u].stage == Using && !t.uses[u].dirty
  {
    hide Inv;
    hide Bget;
    BreadRuns(s, u, key);
    GetKeepsPins(s, u, key);
  }

  // A process that is using a buffer sees the latest contents of its block.
  lemma UserSees(s: State, u: nat)
    requires Inv(s) && u in s.uses && s.uses[u].stage == Using
    ensures var k := s.uses[u].key;
            && k.dev >= 1 && k in s.disk && k in s.latest && s.uses[u].buf < NBUF == |s.cache.bufs|
            && s.cache.bufs[s.uses[u].buf].key == k && Data(s, u) == s.latest[k]
  {
    hide Recency;
    hide Counts;
    hide Guarded;
    assert UseOk(s, u);
  }

  lemma GetKeepsPins(s: State, u: nat, key: Key)
    requires CanBread(s, u, key) && Bget(s.cache, key).Got?
    ensures SamePins(s, GetStep(s, u, key))
  {
    hide IsPermutation;
    hide Counts;
    hide Guarded;
    hide UsesOk;
    BgetPicks(s.cache, key);
    var g := Bget(s.cache, key);
    hide Bget;
    if s.cache.bufs[g.b].key != key { RecycledIsClean(s, g.b); }
  }

  // The pinned buffers are buffers.
  lemma PinnedListed(s: State)
    requires Inv(s)
    ensures |s.cache.bufs| == NBUF && forall b :: b in s.pinned ==> b < NBUF
  {
  }

  // The process is between bread and brelse.
  ghost predicate Holds(s: State, u: nat) {
    Inv(s) && u in s.uses && s.uses[u].stage == Using && !s.uses[u].dirty
  }

  // brelse
  ghost function Release(s: State, u: nat): State
    requires Holds(s, u)
  {
    ReleaseRuns(s, u);
    Do(Do(s, Unlock(u)), Drop(u))
  }

  lemma ReleaseRuns(s: State, u: nat)
    requires Holds(s, u)
    ensures Enabled(s, Unlock(u))
    ensures var s1 := Do(s, Unlock(u)); Inv(s1) && Enabled(s1, Drop(u)) && Inv(Do(s1, Drop(u)))
  {
    hide Recency;
    hide UsesOk;
    hide Counts;
    hide Contents;
    hide Guarded;
    UsesListed(s);
    StepKeepsInv(s, Unlock(u));
    var s1 := Do(s, Unlock(u));
    UsesListed(s1);
    UsedBufHasRef(s1, u);
    StepKeepsInv(s1, Drop(u));
  }

  lemma ReleaseDrops(s: State, u: nat)
    requires Holds(s, u)
    ensures var t := Release(s, u);
            Inv(t) && SamePins(s, t) && t.disk == s.disk && t.latest == s.latest && t.uses == s.uses - {u}
  {
    hide Inv;
    hide Front;
    ReleaseRuns(s, u);
    PinnedListed(s);
    UsesListed(s);
    assert s.uses[u := s.uses[u].(stage := Leaving)] - {u} == s.uses - {u};
  }

  // The contents are set, and written with bwrite.
  ghost function Bwrite(s: State, u: nat, data: Block): State
    requires Holds(s, u)
  {
    BwriteRuns(s, u, data);
    Do(Do(s, Modify(u, data)), WriteBack(u))
  }

  lemma BwriteRuns(s: State, u: nat, data: Block)
    requires Holds(s, u)
    ensures Enabled(s, Modify(u, data))
    ensures var s1 := Do(s, Modify(u, data)); Inv(s1) && Enabled(s1, WriteBack(u)) && Inv(Do(s1, WriteBack(u)))
  {
    hide IsPermutation;
    hide Counts;
    hide Contents;
    hide Guarded;
    UsesListed(s);
    StepKeepsInv(s, Modify(u, data));
    var s1 := Do(s, Modify(u, data));
    UsesListed(s1);
    StepKeepsInv(s1, WriteBack(u));
  }

  lemma BwriteStores(s: State, u: nat, data: Block)
    requires Holds(s, u)
    ensures var t, k := Bwrite(s, u, data), s.uses[u].key;
            && Holds(t, u) && SamePins(s, t) && t.disk == s.disk[k := data] && t.latest == s.latest[k := data] && t.uses == s.uses
  {
    hide Inv;
    BwriteRuns(s, u, data);
    PinnedListed(s);
    UsesListed(s);
    assert s.uses[u := s.uses[u].(dirty := true)][u := s.uses[u]] == s.uses;
  }

  ghost function Bunpin(s: State, u: nat): State
    requires Holds(s, u) && s.uses[u].buf in s.pinned && s.uses[u].buf < |s.cache.bufs|
    requires s.uses[u].key in s.disk && s.disk[s.uses[u].key] == Data(s, u)
  {
    UsesListed(s);
    UsedBufHasRef(s, u);
    Do(s, Unpin(u))
  }

  lemma BunpinDrops(s: State, u: nat)
    requires Holds(s, u) && s.uses[u].buf in s.pinned && s.uses[u].buf < |s.cache.bufs|
    requires s.uses[u].key in s.disk && s.disk[s.uses[u].key] == Data(s, u)
    ensures var t, b := Bunpin(s, u), s.uses[u].buf;
            && Holds(t, u) && t.pinned == s.pinned - {b} && t.disk == s.disk && t.latest == s.latest && t.uses == s.uses
            && |s.cache.bufs| == |t.cache.bufs| == NBUF && forall c :: 0 <= c < NBUF ==> t.cache.bufs[c].key == s.cache.bufs[c].key
  {
    hide Recency;
    hide UsesOk;
    hide Contents;
    hide Guarded;
    UsesListed(s);
    UsedBufHasRef(s, u);
    StepKeepsInv(s, Unpin(u));
  }

  // The contents are set, and passed to log_write.
  ghost function LogCall(s: State, u: nat, data: Block): State
    requires Holds(s, u)
  {
    LogRuns(s, u, data);
    Do(Do(s, Modify(u, data)), Log(u))
  }

  lemma LogRuns(s: State, u: nat, data: Block)
    requires Holds(s, u)
    ensures Enabled(s, Modify(u, data))
    ensures var s1 := Do(s, Modify(u, data)); Inv(s1) && Enabled(s1, Log(u)) && Inv(Do(s1, Log(u)))
  {
    hide IsPermutation;
    hide Counts;
    hide Contents;
    hide Guarded;
    UsesListed(s);
    StepKeepsInv(s, Modify(u, data));
    var s1 := Do(s, Modify(u, data));
    UsesListed(s1);
    StepKeepsInv(s1, Log(u));
  }

  lemma LogPins(s: State, u: nat, data: Block)
    requires Holds(s, u)
    ensures var t, k, b := LogCall(s, u, data), s.uses[u].key, s.uses[u].buf;
            && Holds(t, u) && t.pinned == s.pinned + {b} && t.disk == s.disk && t.latest == s.latest[k := data] && t.uses == s.uses
            && |s.cache.bufs| == |t.cache.bufs| == NBUF && forall c :: 0 <= c < NBUF ==> t.cache.bufs[c].key == s.cache.bufs[c].key
  {
    hide Inv;
    LogRuns(s, u, data);
    PinnedListed(s);
    UsesListed(s);
    assert s.uses[u := s.uses[u].(dirty := true)][u := s.uses[u]] == s.uses;
  }

  // ---- runs --------------------------------------------------------------------------------

  ghost predicate Reachable(disk: map<Key, Block>, s: State) {
    exists run, steps :: IsRun(disk, run, steps) && run[|steps|] == s
  }

  lemma ReachBoot(disk: map<Key, Block>)
    ensures Reachable(disk, Boot(disk))
  {
    var run := [Boot(disk)];
    assert IsRun(disk, run, []) && run[0] == Boot(disk);
  }

  lemma ReachStep(disk: map<Key, Block>, s: State, step: Step)
    requires Reachable(disk, s) && Enabled(s, step)
    ensures Reachable(disk, Do(s, step))
  {
    hide Do;
    hide Enabled;
    var run, steps :| IsRun(disk, run, steps) && run[|steps|] == s;
    var run', steps' := run + [Do(s, step)], steps + [step];
    forall i | 0 <= i < |steps'| ensures Enabled(run'[i], steps'[i]) && run'[i + 1] == Do(run'[i], steps'[i]) {
      if i < |steps| { assert run'[i] == run[i] && run'[i + 1] == run[i + 1] && steps'[i] == steps[i]; }
    }
    assert IsRun(disk, run', steps') && run'[|steps'|] == Do(s, step);
  }

  // A process takes a block that bget finds a buffer for, logs new contents, and lets go of it.
  lemma ReachLogged(disk: map<Key, Block>, s: State, u: nat, key: Key, data: Block) returns (r: State, t: State)
    requires Reachable(disk, s) && CanBread(s, u, key) && Bread(s, u, key).Next?
    ensures r == Bread(s, u, key).s && Holds(r, u) && Holds(LogCall(r, u, data), u) && t == Release(LogCall(r, u, data), u)
    ensures Reachable(disk, t)
  {
    hide Inv;
    hide Do;
    hide Enabled;
    hide Reachable;
    hide Bget;
    UsesListed(s);
    BreadGives(s, u, key);
    r := Bread(s, u, key).s;
    BreadRuns(s, u, key);
    ReachStep(disk, s, Get(u, key));
    ReachStep(disk, Do(s, Get(u, key)), Acquire(u));
    ReachStep(disk, Do(Do(s, Get(u, key)), Acquire(u)), Load(u));
    LogRuns(r, u, data);
    LogPins(r, u, data);
    ReachStep(disk, r, Modify(u, data));
    ReachStep(disk, Do(r, Modify(u, data)), Log(u));
    var q := LogCall(r, u, data);
    ReleaseRuns(q, u);
    ReachStep(disk, q, Unlock(u));
    ReachStep(disk, Do(q, Unlock(u)), Drop(u));
    t := Release(q, u);
  }
}
