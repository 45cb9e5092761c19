/** How many buffers are in use, and when bget finds none. */
module CacheRoom {
  import opened BufferCache
  import opened CacheRuns

  ghost function InUse(c: Cache): set<nat> { set b | 0 <= b < |c.bufs| && c.bufs[b].refcnt > 0 }

  ghost function Numbers(n: nat): (ns: set<nat>)
    ensures |ns| == n && forall i :: i in ns <==> 0 <= i < n
  {
    if n == 0 then {} else Numbers(n - 1) + {n - 1}
  }

  lemma SubsetSize(a: set<nat>, b: set<nat>)
    requires a <= b
    ensures |a| <= |b| && (|a| == |b| ==> a == b)
  {
    assert b == a + (b - a);
  }

  // With fewer than NBUF buffers in use there is one that is not.
  lemma SomeFree(c: Cache) returns (b: nat)
    requires |c.bufs| == NBUF && |InUse(c)| < NBUF
    ensures b < NBUF && c.bufs[b].refcnt == 0
  {
    if Numbers(NBUF) <= InUse(c) { SubsetSize(Numbers(NBUF), InUse(c)); }
    b :| b in Numbers(NBUF) && b !in InUse(c);
  }

  lemma BgetFails(c: Cache, key: Key)
    requires Listed(c) && forall b :: 0 <= b < NBUF ==> c.bufs[b].key != key
    ensures Bget(c, key).NoBuffers? <==> forall b :: 0 <= b < NBUF ==> c.bufs[b].refcnt > 0
  {
    hide Find;
    hide Victim;
    var k, v := Find(c, key, 0), Victim(c, NBUF);
    forall b | 0 <= b < NBUF ensures v == 0 ==> c.bufs[b].refcnt > 0 {
      assert b in c.order;
      var i :| 0 <= i < |c.order| && c.order[i] == b;
    }
  }

  lemma AllInUse(c: Cache)
    requires |c.bufs| == NBUF && |InUse(c)| == NBUF
    ensures forall b :: 0 <= b < NBUF ==> c.bufs[b].refcnt > 0
  {
    SubsetSize(InUse(c), Numbers(NBUF));
    forall b | 0 <= b < NBUF ensures c.bufs[b].refcnt > 0 { assert b in InUse(c); }
  }

  // ---- who uses them -----------------------------------------------------------------------

  // The buffers that processes have between bread and brelse.
  ghost function Held(s: State): set<nat> { set u | u in s.uses :: s.uses[u].buf }

  ghost predicate Cached(s: State, key: Key) { exists b :: 0 <= b < |s.cache.bufs| && s.cache.bufs[b].key == key }

  lemma InUseIs(s: State)
    requires Inv(s)
    ensures InUse(s.cache) == s.pinned + Held(s)
  {
    hide Recency;
    hide Guarded;
    forall b | b in InUse(s.cache) ensures b in s.pinned + Held(s) {
      if b !in s.pinned {
        assert Refs(s.uses, b) != {};
        var u :| u in Refs(s.uses, b);
        assert s.uses[u].buf in Held(s);
      }
    }
    forall b | b in s.pinned + Held(s) ensures b in InUse(s.cache) {
      if b in Held(s) {
        var u :| u in s.uses && s.uses[u].buf == b;
        assert UseOk(s, u);
        UsedBufHasRef(s, u);
      }
    }
  }

  /** bget panics exactly when the pinned buffers and those that processes hold are all NBUF, and none
      of them holds the block. */
  lemma BgetPanicsIff(s: State, key: Key)
    requires Inv(s)
    ensures Bget(s.cache, key).NoBuffers? <==> |s.pinned + Held(s)| == NBUF && !Cached(s, key)
  {
    hide Bget;
    hide IsPermutation;
    hide UsesOk;
    hide Counts;
    hide Contents;
    hide Guarded;
    InUseIs(s);
    if Cached(s, key) {
      var b :| 0 <= b < |s.cache.bufs| && s.cache.bufs[b].key == key;
      HitIsGot(s.cache, key, b);
    } else {
      BgetFails(s.cache, key);
      if |InUse(s.cache)| == NBUF { AllInUse(s.cache); }
      if |InUse(s.cache)| < NBUF { var b := SomeFree(s.cache); }
      InUseSize(s.cache);
    }
  }

  lemma InUseSize(c: Cache)
    requires |c.bufs| == NBUF
    ensures |InUse(c)| <= NBUF
  {
    SubsetSize(InUse(c), Numbers(NBUF));
  }

  lemma HitIsGot(c: Cache, key: Key, b: nat)
    requires Listed(c) && b < NBUF && c.bufs[b].key == key
    ensures Bget(c, key).Got?
  {
    assert b in c.order;
    var i :| 0 <= i < |c.order| && c.order[i] == b;
  }
}
