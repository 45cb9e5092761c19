/** Every run of the buffer cache: any number of processes between bread and brelse, in any
    interleaving, and the log pinning and unpinning buffers.  A process follows the rule of
    bio.c and log.c: a buffer it has modified is passed to bwrite or log_write before brelse,
    and one is unpinned only when it has just been written. */
module CacheRuns {
  import opened Disk
  import opened BufferCache

  // Where a process is between calling bread and returning from brelse.
  datatype Stage =
    | Waiting       // bget has chosen the buffer; in acquiresleep
    | Locked        // holds the lock; about to test b->valid
    | Using         // bread has returned
    | Leaving       // has released the lock; about to decrement refcnt

  datatype Use = Use(buf: nat, key: Key, stage: Stage, dirty: bool)

  datatype State = State(
    cache: Cache,
    uses: map<nat, Use>,
    pinned: set<nat>,               // the buffers the log has pinned
    disk: map<Key, Block>,
    // history
    latest: map<Key, Block>,        // what was last stored in each block, on disk or not yet
    stamps: seq<nat>,               // when each buffer was last moved to the head of the list
    clock: nat)

  datatype Step =
    | Get(u: nat, key: Key)         // bget
    | Acquire(u: nat)               // acquiresleep returns
    | Load(u: nat)                  // the rest of bread
    | Modify(u: nat, data: Block)
    | WriteBack(u: nat)             // bwrite
    | Log(u: nat)                   // log_write: bpin, unless the log has the block already
    | Unpin(u: nat)                 // bunpin
    | Unlock(u: nat)                // brelse: releasesleep
    | Drop(u: nat)                  // brelse: the rest

  ghost predicate Active(x: Use) { x.stage == Locked || x.stage == Using }

  ghost function Data(s: State, u: nat): Block
    requires u in s.uses && s.uses[u].buf < |s.cache.bufs|
  {
    s.cache.bufs[s.uses[u].buf].data
  }

  ghost predicate Enabled(s: State, step: Step) {
    Listed(s.cache) && |s.stamps| == NBUF && (forall u :: u in s.uses ==> s.uses[u].buf < NBUF && s.uses[u].key in s.disk)
    && match step
       case Get(u, key) => u !in s.uses && key.dev >= 1 && key in s.disk && Bget(s.cache, key).Got?    // else bget panics
       case Acquire(u) =>
         u in s.uses && s.uses[u].stage == Waiting && forall v :: v in s.uses && s.uses[v].buf == s.uses[u].buf ==> !Active(s.uses[v])
       case Load(u) => u in s.uses && s.uses[u].stage == Locked
       case Modify(u, _) => u in s.uses && s.uses[u].stage == Using
       case WriteBack(u) => u in s.uses && s.uses[u].stage == Using
       case Log(u) => u in s.uses && s.uses[u].stage == Using
       case Unpin(u) =>
         u in s.uses && s.uses[u].stage == Using && s.uses[u].buf in s.pinned && !s.uses[u].dirty && s.disk[s.uses[u].key] == Data(s, u)
         && s.cache.bufs[s.uses[u].buf].refcnt > 0
       case Unlock(u) => u in s.uses && s.uses[u].stage == Using && !s.uses[u].dirty
       case Drop(u) => u in s.uses && s.uses[u].stage == Leaving && s.cache.bufs[s.uses[u].buf].refcnt > 0
  }

  ghost function SetBuf(c: Cache, b: nat, x: Buf): Cache
    requires b < |c.bufs|
  {
    c.(bufs := c.bufs[b := x])
  }

  ghost function LoadStep(s: State, u: nat): State
    requires u in s.uses && s.uses[u].buf < |s.cache.bufs| && s.uses[u].key in s.disk
  {
    var x, b := s.uses[u], s.cache.bufs[s.uses[u].buf];
    s.(cache := if b.valid then s.cache else SetBuf(s.cache, x.buf, b.(valid := true, data := s.disk[x.key])),
       uses := s.uses[u := x.(stage := Using)])
  }

  ghost function ModifyStep(s: State, u: nat, data: Block): State
    requires u in s.uses && s.uses[u].buf < |s.cache.bufs|
  {
    var x := s.uses[u];
    s.(cache := SetBuf(s.cache, x.buf, s.cache.bufs[x.buf].(data := data)),
       uses := s.uses[u := x.(dirty := true)],
       latest := s.latest[x.key := data])
  }

  ghost function LogStep(s: State, u: nat): State
    requires u in s.uses && s.uses[u].buf < |s.cache.bufs|
  {
    var x, b := s.uses[u], s.cache.bufs[s.uses[u].buf];
    s.(cache := if x.buf in s.pinned then s.cache else SetBuf(s.cache, x.buf, b.(refcnt := b.refcnt + 1)),
       pinned := s.pinned + {x.buf},
       uses := s.uses[u := x.(dirty := false)])
  }

  ghost function UnpinStep(s: State, u: nat): State
    requires u in s.uses && s.uses[u].buf < |s.cache.bufs| && s.cache.bufs[s.uses[u].buf].refcnt > 0
  {
    var x, b := s.uses[u], s.cache.bufs[s.uses[u].buf];
    s.(cache := SetBuf(s.cache, x.buf, b.(refcnt := b.refcnt - 1)), pinned := s.pinned - {x.buf})
  }

  ghost function DropStep(s: State, u: nat): State
    requires Listed(s.cache) && |s.stamps| == NBUF && u in s.uses && s.uses[u].buf < NBUF
    requires s.cache.bufs[s.uses[u].buf].refcnt > 0
  {
    var b := s.uses[u].buf;
    s.(cache := Brelse(s.cache, b), uses := s.uses - {u},
       stamps := if s.cache.bufs[b].refcnt == 1 then s.stamps[b := s.clock] else s.stamps,
       clock := s.clock + 1)
  }

  ghost function SetStage(s: State, u: nat, stage: Stage): State
    requires u in s.uses
  {
    s.(uses := s.uses[u := s.uses[u].(stage := stage)])
  }

  ghost function GetStep(s: State, u: nat, key: Key): State
    requires Listed(s.cache) && Bget(s.cache, key).Got?
  {
    var g := Bget(s.cache, key);
    s.(cache := g.cache, uses := s.uses[u := Use(g.b, key, Waiting, false)])
  }

  ghost function Do(s: State, step: Step): State
    requires Enabled(s, step)
  {
    match step
    case Get(u, key) => GetStep(s, u, key)
    case Acquire(u) => SetStage(s, u, Locked)
    case Load(u) => LoadStep(s, u)
    case Modify(u, data) => ModifyStep(s, u, data)
    case WriteBack(u) =>
      s.(disk := s.disk[s.uses[u].key := Data(s, u)], uses := s.uses[u := s.uses[u].(dirty := false)])
    case Log(u) => LogStep(s, u)
    case Unpin(u) => UnpinStep(s, u)
    case Unlock(u) => SetStage(s, u, Leaving)
    case Drop(u) => DropStep(s, u)
  }

  // ---- the invariant -----------------------------------------------------------------------

  // The list is sorted by the time of the last move to its head.
  ghost predicate Recency(s: State) {
    && Listed(s.cache) && |s.stamps| == NBUF
    && (forall b :: 0 <= b < NBUF ==> s.stamps[b] < s.clock)
    && (forall i, j :: 0 <= i < j < NBUF ==> s.stamps[s.cache.order[i]] > s.stamps[s.cache.order[j]])
  }

  ghost predicate UseOk(s: State, u: nat)
    requires u in s.uses && |s.cache.bufs| == NBUF
  {
    var x := s.uses[u];
    && x.buf < NBUF && x.key.dev >= 1 && x.key in s.disk && s.cache.bufs[x.buf].key == x.key
    && (x.dirty ==> x.stage == Using) && (x.stage == Using ==> s.cache.bufs[x.buf].valid)
  }

  // A buffer is used for one block at a time, and by at most one process.
  ghost predicate UsesOk(s: State) {
    && |s.cache.bufs| == NBUF
    && (forall u :: u in s.uses ==> UseOk(s, u))
    && (forall u, v :: u in s.uses && v in s.uses && u != v && s.uses[u].buf == s.uses[v].buf ==>
          !(Active(s.uses[u]) && Active(s.uses[v])))
  }

  ghost function Refs(uses: map<nat, Use>, b: nat): set<nat> { set u | u in uses && uses[u].buf == b }

  // refcnt counts the uses and the pin.
  ghost predicate Counts(s: State) {
    |s.cache.bufs| == NBUF
    && forall b :: 0 <= b < NBUF ==> s.cache.bufs[b].refcnt == |Refs(s.uses, b)| + if b in s.pinned then 1 else 0
  }

  // No block is in two buffers, and valid buffers hold the latest contents of theirs.
  ghost predicate Contents(s: State) {
    && |s.cache.bufs| == NBUF && s.latest.Keys == s.disk.Keys
    && (forall b, b' :: 0 <= b < b' < NBUF && s.cache.bufs[b].key == s.cache.bufs[b'].key ==> s.cache.bufs[b].key.dev == 0)
    && (forall b :: 0 <= b < NBUF && s.cache.bufs[b].key.dev >= 1 ==> s.cache.bufs[b].key in s.disk)
    && (forall b :: 0 <= b < NBUF && s.cache.bufs[b].key.dev >= 1 && s.cache.bufs[b].valid ==>
          s.cache.bufs[b].data == s.latest[s.cache.bufs[b].key])
    && (forall b :: b in s.pinned ==> b < NBUF && s.cache.bufs[b].key.dev >= 1 && s.cache.bufs[b].valid)
  }

  ghost predicate DirtyUse(s: State, b: nat) { exists u :: u in s.uses && s.uses[u].buf == b && s.uses[u].dirty }

  // Buffer b keeps the contents of the block from being lost.
  ghost predicate Guards(s: State, b: nat, k: Key) {
    b < |s.cache.bufs| && s.cache.bufs[b].key == k && s.cache.bufs[b].valid && (b in s.pinned || DirtyUse(s, b))
  }

  // What is not on the disk yet is in a buffer that cannot be recycled.
  ghost predicate Guarded(s: State) {
    && s.latest.Keys == s.disk.Keys
    && forall k :: k in s.disk && s.disk[k] != s.latest[k] ==> exists b :: Guards(s, b, k)
  }

  ghost predicate Inv(s: State) { Recency(s) && UsesOk(s) && Counts(s) && Contents(s) && Guarded(s) }

  // binit: the buffers are linked in one after the other, each at the head.
  ghost function Boot(disk: map<Key, Block>): State {
    State(Cache(seq(NBUF, b => Buf(Key(0, 0), false, 0, Block([]))), seq(NBUF, i => NBUF - 1 - i)),
          map[], {}, disk, disk, seq(NBUF, b => b), NBUF)
  }

  lemma BootInv(disk: map<Key, Block>)
    ensures Inv(Boot(disk))
  {
    var c := Boot(disk).cache;
    forall b | 0 <= b < NBUF ensures b in c.order {
      assert c.order[NBUF - 1 - b] == b;
    }
    assert forall b :: Refs(map[], b) == {};
  }

  // ---- counting ----------------------------------------------------------------------------

  lemma RefsAdd(uses: map<nat, Use>, u: nat, x: Use, b: nat)
    requires u !in uses
    ensures |Refs(uses[u := x], b)| == |Refs(uses, b)| + if x.buf == b then 1 else 0
  {
    if x.buf == b {
      assert Refs(uses[u := x], b) == Refs(uses, b) + {u};
    } else {
      assert Refs(uses[u := x], b) == Refs(uses, b);
    }
  }

  lemma RefsRemove(uses: map<nat, Use>, u: nat, b: nat)
    requires u in uses
    ensures |Refs(uses - {u}, b)| == |Refs(uses, b)| - if uses[u].buf == b then 1 else 0
  {
    if uses[u].buf == b {
      assert Refs(uses - {u}, b) == Refs(uses, b) - {u};
    } else {
      assert Refs(uses - {u}, b) == Refs(uses, b);
    }
  }

  lemma UsedBufHasRef(s: State, u: nat)
    requires UsesOk(s) && Counts(s) && u in s.uses
    ensures s.cache.bufs[s.uses[u].buf].refcnt > 0
  {
    assert UseOk(s, u) && u in Refs(s.uses, s.uses[u].buf);
  }

  // ---- bget --------------------------------------------------------------------------------

  /** A buffer is recycled only when no process has a use of it and the log has not pinned it,
      and then it holds nothing that the disk does not. */
  lemma RecycledIsClean(s: State, b: nat)
    requires Inv(s) && b < NBUF && s.cache.bufs[b].refcnt == 0
    ensures b !in s.pinned && forall u :: u in s.uses ==> s.uses[u].buf != b
    ensures var k := s.cache.bufs[b].key; k.dev >= 1 ==> k in s.disk && s.disk[k] == s.latest[k]
    ensures var x := s.cache.bufs[b]; x.key.dev >= 1 && x.valid ==> x.data == s.disk[x.key]
  {
    forall u | u in s.uses ensures s.uses[u].buf != b {
      if s.uses[u].buf == b { UsedBufHasRef(s, u); }
    }
    assert Refs(s.uses, b) == {};
    var k := s.cache.bufs[b].key;
    if k.dev >= 1 && s.disk[k] != s.latest[k] {
      var b' :| Guards(s, b', k);
      assert b' == b;
      assert DirtyUse(s, b);
    }
  }

  lemma GetKeepsUses(s: State, u: nat, key: Key)
    requires Inv(s) && Enabled(s, Get(u, key))
    ensures UsesOk(GetStep(s, u, key)) && Recency(GetStep(s, u, key))
  {
    hide IsPermutation;
    hide Guards;
    hide Counts;
    hide Contents;
    hide Guarded;
    BgetPicks(s.cache, key);
    var g, t := Bget(s.cache, key), GetStep(s, u, key);
    hide Bget;
    if s.cache.bufs[g.b].key != key { RecycledIsClean(s, g.b); }
    forall v | v in t.uses ensures UseOk(t, v) {
      if v != u { assert UseOk(s, v); }
    }
  }

  lemma GetKeepsCounts(s: State, u: nat, key: Key)
    requires Inv(s) && Enabled(s, Get(u, key))
    ensures Counts(GetStep(s, u, key))
  {
    BgetPicks(s.cache, key);
    var g, t := Bget(s.cache, key), GetStep(s, u, key);
    hide Bget;
    if s.cache.bufs[g.b].key != key { RecycledIsClean(s, g.b); }
    forall b | 0 <= b < NBUF ensures t.cache.bufs[b].refcnt == |Refs(t.uses, b)| + if b in t.pinned then 1 else 0 {
      RefsAdd(s.uses, u, t.uses[u], b);
    }
  }

  lemma GetKeepsContents(s: State, u: nat, key: Key)
    requires Inv(s) && Enabled(s, Get(u, key))
    ensures Contents(GetStep(s, u, key))
  {
    hide IsPermutation;
    hide UseOk;
    hide Guards;
    BgetPicks(s.cache, key);
    var g := Bget(s.cache, key);
    hide Bget;
    if s.cache.bufs[g.b].key != key { RecycledIsClean(s, g.b); }
  }

  lemma GetKeepsGuarded(s: State, u: nat, key: Key)
    requires Inv(s) && Enabled(s, Get(u, key))
    ensures Guarded(GetStep(s, u, key))
  {
    BgetPicks(s.cache, key);
    var g, t := Bget(s.cache, key), GetStep(s, u, key);
    hide Bget;
    if s.cache.bufs[g.b].key != key { RecycledIsClean(s, g.b); }
    forall k | k in t.disk && t.disk[k] != t.latest[k] ensures exists b :: Guards(t, b, k) {
      var b :| Guards(s, b, k);
      if b in s.pinned {
      } else {
        var v :| v in s.uses && s.uses[v].buf == b && s.uses[v].dirty;
        assert t.uses[v] == s.uses[v];
        assert DirtyUse(t, b);
      }
      assert Guards(t, b, k);
    }
  }

  // ---- steps of one use --------------------------------------------------------------------

  // The steps that change no buffer but that of use u, keep its block, and do not count.
  ghost predicate Touches(s: State, t: State, u: nat) {
    && u in s.uses && s.uses[u].buf < |s.cache.bufs| == |t.cache.bufs|
    && (var x, b := s.uses[u], s.uses[u].buf;
        && t.cache == SetBuf(s.cache, b, t.cache.bufs[b]) && t.cache.bufs[b].key == s.cache.bufs[b].key
        && (s.cache.bufs[b].valid ==> t.cache.bufs[b].valid)
        && t.uses.Keys == s.uses.Keys && (forall v :: v in s.uses && v != u ==> t.uses[v] == s.uses[v])
        && t.uses[u] == Use(x.buf, x.key, t.uses[u].stage, t.uses[u].dirty)
        && t.disk.Keys == s.disk.Keys && t.stamps == s.stamps && t.clock == s.clock)
  }

  lemma TouchKeepsUses(s: State, t: State, u: nat)
    requires Inv(s) && Touches(s, t, u) && UseOk(t, u)
    requires Active(t.uses[u]) ==> forall v :: v in s.uses && v != u && s.uses[v].buf == s.uses[u].buf ==> !Active(s.uses[v])
    ensures UsesOk(t) && Recency(t)
  {
    hide IsPermutation;
    hide Counts;
    hide Contents;
    hide Guarded;
    forall v | v in t.uses ensures UseOk(t, v) {
      assert UseOk(s, v);
    }
  }

  lemma TouchKeepsCounts(s: State, t: State, u: nat)
    requires Inv(s) && Touches(s, t, u)
    requires var b := s.uses[u].buf;
             && t.pinned - {b} == s.pinned - {b}
             && t.cache.bufs[b].refcnt == s.cache.bufs[b].refcnt + (if b in t.pinned then 1 else 0) - (if b in s.pinned then 1 else 0)
    ensures Counts(t)
  {
    hide Recency;
    hide UseOk;
    hide Contents;
    hide Guarded;
    var y := s.uses[u].buf;
    forall b | 0 <= b < NBUF ensures t.cache.bufs[b].refcnt == |Refs(t.uses, b)| + if b in t.pinned then 1 else 0 {
      assert Refs(t.uses, b) == Refs(s.uses, b);
      if b != y { assert b in t.pinned <==> b in t.pinned - {y}; }
    }
  }

  lemma TouchKeepsContents(s: State, t: State, u: nat)
    requires Inv(s) && Touches(s, t, u) && t.pinned <= s.pinned + {s.uses[u].buf}
    requires t.cache.bufs[s.uses[u].buf].valid
    requires t.latest == s.latest[s.uses[u].key := t.cache.bufs[s.uses[u].buf].data]
    ensures Contents(t)
  {
    hide Recency;
    hide Counts;
    hide Guarded;
    assert UseOk(s, u);
  }

  // As long as the buffer is protected or the block on the disk, nothing is lost.
  lemma TouchKeepsGuarded(s: State, t: State, u: nat)
    requires Inv(s) && Touches(s, t, u) && t.latest.Keys == t.disk.Keys && t.cache.bufs[s.uses[u].buf].valid
    requires var x := s.uses[u];
             && (t.disk[x.key] == t.latest[x.key] || x.buf in t.pinned || t.uses[u].dirty)
             && t.pinned - {x.buf} == s.pinned - {x.buf}
             && (forall k :: k in s.disk && k != x.key ==> t.disk[k] == s.disk[k] && t.latest[k] == s.latest[k])
    ensures Guarded(t)
  {
    hide IsPermutation;
    var x := s.uses[u];
    assert UseOk(s, u);
    forall k | k in t.disk && t.disk[k] != t.latest[k] ensures exists b :: Guards(t, b, k) {
      if k == x.key {
        assert t.uses[u].dirty ==> DirtyUse(t, x.buf);
        assert Guards(t, x.buf, k);
      } else {
        var b :| Guards(s, b, k);
        OtherGuards(s, t, u, b, k);
      }
    }
  }

  lemma OtherGuards(s: State, t: State, u: nat, b: nat, k: Key)
    requires UsesOk(s) && Touches(s, t, u) && t.pinned - {s.uses[u].buf} == s.pinned - {s.uses[u].buf}
    requires Guards(s, b, k) && k != s.uses[u].key
    ensures Guards(t, b, k)
  {
    assert UseOk(s, u);
    var y := s.uses[u].buf;
    assert b in t.pinned <==> b in t.pinned - {y};
    if b !in s.pinned {
      var v :| v in s.uses && s.uses[v].buf == b && s.uses[v].dirty;
      assert t.uses[v] == s.uses[v];
      assert DirtyUse(t, b);
    }
  }

  // Nobody else is between acquiresleep and releasesleep with this buffer.
  lemma OnlyActive(s: State, u: nat)
    requires Inv(s) && u in s.uses && Active(s.uses[u])
    ensures forall v :: v in s.uses && v != u && s.uses[v].buf == s.uses[u].buf ==> !Active(s.uses[v])
  {
  }

  // A block whose buffer is not valid yet is on the disk as it was last stored.
  lemma InvalidIsOnDisk(s: State, u: nat)
    requires Inv(s) && u in s.uses && !s.cache.bufs[s.uses[u].buf].valid
    ensures s.disk[s.uses[u].key] == s.latest[s.uses[u].key]
  {
    assert UseOk(s, u);
    var k := s.uses[u].key;
    forall b ensures !Guards(s, b, k) {
    }
  }

  lemma LoadKeepsInv(s: State, u: nat)
    requires Inv(s) && Enabled(s, Load(u))
    ensures Inv(LoadStep(s, u))
  {
    hide Recency;
    hide Counts;
    hide Guarded;
    var t := LoadStep(s, u);
    LoadTouches(s, u);
    OnlyActive(s, u);
    TouchKeepsUses(s, t, u);
    TouchKeepsCounts(s, t, u);
    TouchKeepsContents(s, t, u);
    LoadKeepsGuarded(s, u);
  }

  lemma LoadTouches(s: State, u: nat)
    requires Inv(s) && Enabled(s, Load(u))
    ensures var t := LoadStep(s, u);
            && Touches(s, t, u) && UseOk(t, u)
            && t.pinned == s.pinned && t.cache.bufs[s.uses[u].buf].refcnt == s.cache.bufs[s.uses[u].buf].refcnt
            && t.cache.bufs[s.uses[u].buf].valid
            && t.latest == s.latest[s.uses[u].key := t.cache.bufs[s.uses[u].buf].data]
  {
    hide IsPermutation;
    hide Counts;
    hide Guarded;
    assert UseOk(s, u);
    if !s.cache.bufs[s.uses[u].buf].valid { InvalidIsOnDisk(s, u); }
  }

  lemma LoadKeepsGuarded(s: State, u: nat)
    requires Inv(s) && Enabled(s, Load(u))
    ensures Guarded(LoadStep(s, u))
  {
    hide IsPermutation;
    var t := LoadStep(s, u);
    assert UseOk(s, u);
    forall k | k in t.disk && t.disk[k] != t.latest[k] ensures exists b :: Guards(t, b, k) {
      var b :| Guards(s, b, k);
      assert DirtyUse(s, b) ==> DirtyUse(t, b) by {
        if v :| v in s.uses && s.uses[v].buf == b && s.uses[v].dirty {
          assert UseOk(s, v);
          assert t.uses[v] == s.uses[v];
        }
      }
      assert Guards(t, b, k);
    }
  }

  lemma SetStageKeepsInv(s: State, u: nat, stage: Stage)
    requires Inv(s) && u in s.uses && !s.uses[u].dirty && stage != Using
    requires stage == Locked ==> forall v :: v in s.uses && s.uses[v].buf == s.uses[u].buf ==> !Active(s.uses[v])
    ensures Inv(SetStage(s, u, stage))
  {
    hide Recency;
    hide Counts;
    hide Contents;
    hide Guarded;
    var t := SetStage(s, u, stage);
    assert UseOk(s, u);
    assert SetBuf(s.cache, s.uses[u].buf, s.cache.bufs[s.uses[u].buf]) == s.cache;
    TouchKeepsUses(s, t, u);
    TouchKeepsCounts(s, t, u);
    StageKeepsContents(s, u, stage);
  }

  lemma StageKeepsContents(s: State, u: nat, stage: Stage)
    requires Inv(s) && u in s.uses && !s.uses[u].dirty
    ensures Contents(SetStage(s, u, stage)) && Guarded(SetStage(s, u, stage))
  {
    hide Recency;
    hide Counts;
    hide UsesOk;
    var t := SetStage(s, u, stage);
    forall k | k in t.disk && t.disk[k] != t.latest[k] ensures exists b :: Guards(t, b, k) {
      var b :| Guards(s, b, k);
      assert DirtyUse(s, b) ==> DirtyUse(t, b) by {
        if v :| v in s.uses && s.uses[v].buf == b && s.uses[v].dirty { assert t.uses[v] == s.uses[v]; }
      }
      assert Guards(t, b, k);
    }
  }

  // A step of the process that is using the buffer.
  ghost predicate UserStep(s: State, t: State, u: nat)
    requires u in s.uses
  {
    var x := s.uses[u];
    && Touches(s, t, u) && t.uses[u].stage == Using && t.cache.bufs[x.buf].valid
    && t.pinned - {x.buf} == s.pinned - {x.buf}
    && t.cache.bufs[x.buf].refcnt == s.cache.bufs[x.buf].refcnt + (if x.buf in t.pinned then 1 else 0) - (if x.buf in s.pinned then 1 else 0)
    && t.latest == s.latest[x.key := t.cache.bufs[x.buf].data]
    && x.key in t.disk && t.disk == s.disk[x.key := t.disk[x.key]]
    && (t.disk[x.key] == t.latest[x.key] || x.buf in t.pinned || t.uses[u].dirty)
  }

  lemma SetMinus(a: set<nat>, b: set<nat>, x: nat)
    requires b - {x} == a - {x}
    ensures b <= a + {x}
  {
    forall y | y in b ensures y in a + {x} {
      if y != x { assert y in b - {x}; }
    }
  }

  lemma UserStepKeepsInv(s: State, t: State, u: nat)
    requires Inv(s) && u in s.uses && s.uses[u].stage == Using && UserStep(s, t, u)
    ensures Inv(t)
  {
    hide Recency;
    hide Counts;
    hide Guarded;
    assert UseOk(s, u);
    OnlyActive(s, u);
    TouchKeepsUses(s, t, u);
    TouchKeepsCounts(s, t, u);
    SetMinus(s.pinned, t.pinned, s.uses[u].buf);
    TouchKeepsContents(s, t, u);
    TouchKeepsGuarded(s, t, u);
  }

  lemma ModifyKeepsInv(s: State, u: nat, data: Block)
    requires Inv(s) && Enabled(s, Modify(u, data))
    ensures Inv(ModifyStep(s, u, data))
  {
    hide Recency;
    hide Counts;
    hide Guarded;
    assert UseOk(s, u);
    UserStepKeepsInv(s, ModifyStep(s, u, data), u);
  }

  lemma WriteBackKeepsInv(s: State, u: nat)
    requires Inv(s) && Enabled(s, WriteBack(u))
    ensures Inv(Do(s, WriteBack(u)))
  {
    hide Recency;
    hide Counts;
    hide Guarded;
    assert UseOk(s, u);
    assert SetBuf(s.cache, s.uses[u].buf, s.cache.bufs[s.uses[u].buf]) == s.cache;
    UserStepKeepsInv(s, Do(s, WriteBack(u)), u);
  }

  lemma LogKeepsInv(s: State, u: nat)
    requires Inv(s) && Enabled(s, Log(u))
    ensures Inv(LogStep(s, u))
  {
    hide Recency;
    hide Counts;
    hide Guarded;
    assert UseOk(s, u);
    assert SetBuf(s.cache, s.uses[u].buf, s.cache.bufs[s.uses[u].buf]) == s.cache;
    UserStepKeepsInv(s, LogStep(s, u), u);
  }

  lemma UnpinKeepsInv(s: State, u: nat)
    requires Inv(s) && Enabled(s, Unpin(u))
    ensures Inv(UnpinStep(s, u))
  {
    hide Recency;
    hide Counts;
    hide Guarded;
    assert UseOk(s, u);
    UserStepKeepsInv(s, UnpinStep(s, u), u);
  }

  // ---- brelse ------------------------------------------------------------------------------

  lemma DropKeepsRecency(s: State, u: nat)
    requires Inv(s) && Enabled(s, Drop(u))
    ensures Recency(DropStep(s, u))
  {
    hide UsesOk;
    hide Counts;
    hide Contents;
    hide Guarded;
    var b, t := s.uses[u].buf, DropStep(s, u);
    BrelseListed(s.cache, b);
    if s.cache.bufs[b].refcnt == 1 {
      assert b in s.cache.order;
      var i :| 0 <= i < |s.cache.order| && s.cache.order[i] == b;
      FrontMoves(s.cache.order, b, i);
      FrontRecent(s, t, b, i);
    }
  }

  lemma FrontRecent(s: State, t: State, b: nat, i: nat)
    requires Recency(s) && i < NBUF && s.cache.order[i] == b && b < NBUF
    requires t.stamps == s.stamps[b := s.clock] && t.clock == s.clock + 1
    requires Listed(t.cache)
    requires forall j :: 0 <= j < NBUF ==>
               t.cache.order[j] == if j == 0 then b else if j <= i then s.cache.order[j - 1] else s.cache.order[j]
    ensures Recency(t)
  {
    forall j, k | 0 <= j < k < NBUF ensures t.stamps[t.cache.order[j]] > t.stamps[t.cache.order[k]] {
      assert t.cache.order[k] == if k <= i then s.cache.order[k - 1] else s.cache.order[k];
      assert t.cache.order[j] == if j == 0 then b else if j <= i then s.cache.order[j - 1] else s.cache.order[j];
      assert t.cache.order[k] != b && t.cache.order[k] < NBUF;
    }
  }

  lemma DropKeepsUses(s: State, u: nat)
    requires Inv(s) && Enabled(s, Drop(u))
    ensures UsesOk(DropStep(s, u)) && Contents(DropStep(s, u))
  {
    hide IsPermutation;
    hide Guarded;
    hide Counts;
    hide Front;
    var t := DropStep(s, u);
    assert UseOk(s, u);
    forall v | v in t.uses ensures UseOk(t, v) {
      assert UseOk(s, v);
    }
  }

  lemma DropKeepsCounts(s: State, u: nat)
    requires Inv(s) && Enabled(s, Drop(u))
    ensures Counts(DropStep(s, u))
  {
    hide IsPermutation;
    hide Guarded;
    hide Contents;
    hide Front;
    var t := DropStep(s, u);
    assert UseOk(s, u);
    forall b | 0 <= b < NBUF ensures t.cache.bufs[b].refcnt == |Refs(t.uses, b)| + if b in t.pinned then 1 else 0 {
      RefsRemove(s.uses, u, b);
    }
  }

  lemma DropKeepsGuarded(s: State, u: nat)
    requires Inv(s) && Enabled(s, Drop(u))
    ensures Guarded(DropStep(s, u))
  {
    hide IsPermutation;
    hide Counts;
    hide Front;
    var t := DropStep(s, u);
    assert UseOk(s, u);
    forall k | k in t.disk && t.disk[k] != t.latest[k] ensures exists b :: Guards(t, b, k) {
      var b :| Guards(s, b, k);
      assert DirtyUse(s, b) ==> DirtyUse(t, b) by {
        if v :| v in s.uses && s.uses[v].buf == b && s.uses[v].dirty { assert t.uses[v] == s.uses[v]; }
      }
      assert Guards(t, b, k);
    }
  }

  // ---- runs --------------------------------------------------------------------------------

  lemma StepKeepsInv(s: State, step: Step)
    requires Inv(s) && Enabled(s, step)
    ensures Inv(Do(s, step))
  {
    hide Recency;
    hide Counts;
    hide Contents;
    hide Guarded;
    match step
    case Get(u, key) =>
      GetKeepsUses(s, u, key);
      GetKeepsCounts(s, u, key);
      GetKeepsContents(s, u, key);
      GetKeepsGuarded(s, u, key);
    case Acquire(u) =>
      assert UseOk(s, u);
      SetStageKeepsInv(s, u, Locked);
    case Load(u) => LoadKeepsInv(s, u);
    case Modify(u, data) => ModifyKeepsInv(s, u, data);
    case WriteBack(u) => WriteBackKeepsInv(s, u);
    case Log(u) => LogKeepsInv(s, u);
    case Unpin(u) => UnpinKeepsInv(s, u);
    case Unlock(u) => SetStageKeepsInv(s, u, Leaving);
    case Drop(u) =>
      DropKeepsRecency(s, u);
      DropKeepsUses(s, u);
      DropKeepsCounts(s, u);
      DropKeepsGuarded(s, u);
  }

  ghost predicate IsRun(disk: map<Key, Block>, run: seq<State>, steps: seq<Step>) {
    && |run| == |steps| + 1 && run[0] == Boot(disk)
    && forall i :: 0 <= i < |steps| ==> Enabled(run[i], steps[i]) && run[i + 1] == Do(run[i], steps[i])
  }

  lemma {:induction false} RunsKeepInv(disk: map<Key, Block>, run: seq<State>, steps: seq<Step>, i: nat)
    requires IsRun(disk, run, steps) && i < |run|
    ensures Inv(run[i])
  {
    hide Inv;
    hide Do;
    hide Enabled;
    if i == 0 {
      BootInv(disk);
    } else {
      RunsKeepInv(disk, run, steps, i - 1);
      StepKeepsInv(run[i - 1], steps[i - 1]);
    }
  }

  /** In every state of every run a process that bread has given a buffer sees the latest contents
      of its block, and is alone with them; and no two buffers hold the same block. */
  lemma BreadReturnsLatest(disk: map<Key, Block>, run: seq<State>, steps: seq<Step>, i: nat)
    requires IsRun(disk, run, steps) && i < |run|
    ensures UsesOk(run[i]) && Contents(run[i])
    ensures forall u :: u in run[i].uses && run[i].uses[u].stage == Using ==>
              run[i].uses[u].key in run[i].latest && Data(run[i], u) == run[i].latest[run[i].uses[u].key]
    ensures forall u, v :: u in run[i].uses && v in run[i].uses && u != v
                           && run[i].uses[u].stage == Using && run[i].uses[v].stage == Using ==>
              run[i].uses[u].key != run[i].uses[v].key
  {
    hide IsRun;
    hide Recency;
    hide Counts;
    hide Guarded;
    RunsKeepInv(disk, run, steps, i);
    var s := run[i];
    forall u | u in s.uses && s.uses[u].stage == Using
      ensures s.uses[u].key in s.latest && Data(s, u) == s.latest[s.uses[u].key]
    {
      assert UseOk(s, u);
    }
    forall u, v | u in s.uses && v in s.uses && u != v && s.uses[u].stage == Using && s.uses[v].stage == Using
      ensures s.uses[u].key != s.uses[v].key
    {
      assert UseOk(s, u) && UseOk(s, v);
    }
  }

  // If bget recycles, then the buffer, of all those not in use, whose last brelse lies furthest back.
  ghost predicate OldestVictim(s: State, g: Got, key: Key) {
    g.Got? && g.b < |s.cache.bufs| == |s.stamps| && s.cache.bufs[g.b].key != key ==>
      && s.cache.bufs[g.b].refcnt == 0
      && forall b :: 0 <= b < |s.cache.bufs| && s.cache.bufs[b].refcnt == 0 ==> s.stamps[g.b] <= s.stamps[b]
  }

  // Every buffer is in use for some other block.
  ghost predicate Exhausted(c: Cache, key: Key) {
    forall b :: 0 <= b < |c.bufs| ==> c.bufs[b].key != key && c.bufs[b].refcnt > 0
  }

  /** bget recycles the least recently released buffer, in every state of every run; the victim is
      not pinned, nobody waits for it, and what it holds is on the disk.  bget panics exactly when
      every buffer is in use for some other block. */
  lemma VictimIsOldest(disk: map<Key, Block>, run: seq<State>, steps: seq<Step>, i: nat, key: Key)
    requires IsRun(disk, run, steps) && i < |run|
    ensures Inv(run[i]) && OldestVictim(run[i], Bget(run[i].cache, key), key)
    ensures Bget(run[i].cache, key).NoBuffers? <==> Exhausted(run[i].cache, key)
    ensures forall b :: 0 <= b < NBUF && run[i].cache.bufs[b].refcnt == 0 ==> b !in run[i].pinned && !DirtyUse(run[i], b)
  {
    hide IsRun;
    hide UseOk;
    hide Contents;
    hide Guarded;
    RunsKeepInv(disk, run, steps, i);
    var s := run[i];
    VictimOrder(s, key);
    forall b | 0 <= b < NBUF && s.cache.bufs[b].refcnt == 0 ensures b !in s.pinned && !DirtyUse(s, b) {
      RecycledIsClean(s, b);
    }
  }

  lemma VictimOrder(s: State, key: Key)
    requires Recency(s)
    ensures OldestVictim(s, Bget(s.cache, key), key)
    ensures Bget(s.cache, key).NoBuffers? <==> Exhausted(s.cache, key)
  {
    hide Find;
    hide Victim;
    var k, v := Find(s.cache, key, 0), Victim(s.cache, NBUF);
    forall b | 0 <= b < NBUF
      ensures k == NBUF ==> s.cache.bufs[b].key != key
      ensures k == NBUF && v == 0 ==> s.cache.bufs[b].refcnt > 0
      ensures k == NBUF && v > 0 && s.cache.bufs[b].refcnt == 0 ==> s.stamps[s.cache.order[v - 1]] <= s.stamps[b]
    {
      assert b in s.cache.order;
      var i :| 0 <= i < |s.cache.order| && s.cache.order[i] == b;
    }
  }
}
