/** commit() of log.c through the buffer cache of bio.c: what it leaves on the disk, and when it runs
    out of buffers.  NBUF is as large as the log, and a full log pins every buffer. */
module CommitBuffers {
  import opened Disk
  import opened RedoLog
  import opened BufferCache
  import opened CacheRuns
  import opened CacheRoom
  import opened CacheOps

  // Only the log has buffers, and only pinned ones.
  ghost predicate Alone(s: State) { Inv(s) && s.uses == map[] }

  ghost predicate HeldByOne(bufs: seq<Buf>, pinned: set<nat>, key: Key) {
    exists b :: b in pinned && b < |bufs| && bufs[b].key == key
  }

  // A pinned buffer holds the block.
  ghost predicate HasPin(s: State, key: Key) { HeldByOne(s.cache.bufs, s.pinned, key) }

  lemma PinStays(s: State, t: State, key: Key)
    requires HasPin(s, key) && SamePins(s, t)
    ensures HasPin(t, key) && Cached(t, key)
  {
    var b :| b in s.pinned && b < |s.cache.bufs| && s.cache.bufs[b].key == key;
    assert t.cache.bufs[b].key == key;
  }

  ghost predicate OnDisk(s: State, key: Key) { key.dev >= 1 && key in s.disk }

  // ---- two buffers at once -----------------------------------------------------------------

  // bread of one block, then of another.
  ghost function BreadBoth(s: State, a: Key, b: Key): Outcome
    requires Alone(s) && OnDisk(s, a) && OnDisk(s, b) && a != b
  {
    hide Inv;
    match Bread(s, 0, a)
    case Panic => Panic
    case Next(t) =>
      BreadGives(s, 0, a);
      Bread(t, 1, b)
  }

  ghost predicate GivenBoth(s: State, t: State, a: Key, b: Key) {
    && SamePins(s, t) && t.disk == s.disk && t.latest == s.latest
    && t.uses.Keys == {0, 1} && Holds(t, 0) && Holds(t, 1) && t.uses[0].key == a && t.uses[1].key == b
    && t.uses[0].buf < NBUF && t.uses[1].buf < NBUF && t.cache.bufs[t.uses[1].buf].key == b
    && a in t.latest && b in t.latest && Data(t, 0) == t.latest[a] && Data(t, 1) == t.latest[b]
  }

  lemma BothGiven(s: State, a: Key, b: Key)
    requires Alone(s) && OnDisk(s, a) && OnDisk(s, b) && a != b
    ensures HasPin(s, b) ==> (BreadBoth(s, a, b).Panic? <==> |s.pinned| == NBUF && !Cached(s, a))
    ensures BreadBoth(s, a, b).Next? ==> GivenBoth(s, BreadBoth(s, a, b).s, a, b)
  {
    hide Inv;
    hide Bread;
    hide HasPin;
    hide Cached;
    hide GivenBoth;
    hide SamePins;
    BreadGives(s, 0, a);
    assert s.pinned + Held(s) == s.pinned;
    if Bread(s, 0, a).Next? {
      var t := Bread(s, 0, a).s;
      if HasPin(s, b) { PinStays(s, t, b); }
      BreadGives(t, 1, b);
      if Bread(t, 1, b).Next? { TwoGiven(s, t, Bread(t, 1, b).s, a, b); }
    }
  }

  lemma TwoGiven(s: State, t: State, r: State, a: Key, b: Key)
    requires s.uses == map[] && Given(s, t, 0, a) && Given(t, r, 1, b)
    ensures GivenBoth(s, r, a, b)
  {
    hide Inv;
    assert r.uses[0] == t.uses[0];
    UserSees(r, 0);
  }

  // ---- one turn of write_log ---------------------------------------------------------------

  // memmove; bwrite(to); brelse(from); brelse(to)
  ghost function CopyAndRelease(s: State): State
    requires Holds(s, 0) && Holds(s, 1)
  {
    CopyRuns(s);
    Release(Release(Bwrite(s, 0, Data(s, 1)), 1), 0)
  }

  lemma CopyRuns(s: State)
    requires Holds(s, 0) && Holds(s, 1)
    ensures s.uses[1].buf < |s.cache.bufs|
    ensures var t := Bwrite(s, 0, Data(s, 1)); Holds(t, 1) && Holds(Release(t, 1), 0)
  {
    hide Inv;
    hide Bwrite;
    hide Release;
    UserSees(s, 1);
    BwriteStores(s, 0, Data(s, 1));
    ReleaseDrops(Bwrite(s, 0, Data(s, 1)), 1);
  }

  // to = bread(log block); from = bread(cache block); and the copying
  ghost function WriteTurn(s: State, to: Key, home: Key): Outcome
    requires Alone(s) && OnDisk(s, to) && OnDisk(s, home) && to != home
  {
    hide Inv;
    BothGiven(s, to, home);
    match BreadBoth(s, to, home)
    case Panic => Panic
    case Next(t) => Next(CopyAndRelease(t))
  }

  // The block now has the latest contents of another, on the disk too.
  ghost predicate Copied(s: State, t: State, to: Key, from: Key) {
    && Alone(t) && from in s.latest && t.disk == s.disk[to := s.latest[from]] && t.latest == s.latest[to := s.latest[from]]
  }

  lemma WriteTurnCopies(s: State, to: Key, home: Key)
    requires Alone(s) && OnDisk(s, to) && OnDisk(s, home) && to != home
    ensures HasPin(s, home) ==> (WriteTurn(s, to, home).Panic? <==> |s.pinned| == NBUF && !Cached(s, to))
    ensures WriteTurn(s, to, home).Next? ==> var t := WriteTurn(s, to, home).s; Copied(s, t, to, home) && SamePins(s, t)
  {
    hide Inv;
    hide BreadBoth;
    hide Bwrite;
    hide Release;
    hide HasPin;
    hide Cached;
    BothGiven(s, to, home);
    if BreadBoth(s, to, home).Next? {
      var s2 := BreadBoth(s, to, home).s;
      CopyRuns(s2);
      BwriteStores(s2, 0, Data(s2, 1));
      var s3 := Bwrite(s2, 0, Data(s2, 1));
      ReleaseDrops(s3, 1);
      ReleaseDrops(Release(s3, 1), 0);
    }
  }

  // ---- write_head --------------------------------------------------------------------------

  ghost function HeadTurn(s: State, key: Key, blocks: seq<nat>): Outcome
    requires Alone(s) && OnDisk(s, key) && key in s.latest && |s.latest[key].words| == WORDS && |blocks| <= LOGBLOCKS
  {
    match Bread(s, 0, key)
    case Panic => Panic
    case Next(s1) =>
      BreadGives(s, 0, key);
      BwriteStores(s1, 0, EncodeHeader(Data(s1, 0), blocks));
      Next(Release(Bwrite(s1, 0, EncodeHeader(Data(s1, 0), blocks)), 0))
  }

  lemma HeadTurnWrites(s: State, key: Key, blocks: seq<nat>)
    requires Alone(s) && OnDisk(s, key) && key in s.latest && |s.latest[key].words| == WORDS && |blocks| <= LOGBLOCKS
    ensures HeadTurn(s, key, blocks).Panic? <==> |s.pinned| == NBUF && !Cached(s, key)
    ensures HeadTurn(s, key, blocks).Next? ==>
              var t, head := HeadTurn(s, key, blocks).s, EncodeHeader(s.latest[key], blocks);
              Alone(t) && SamePins(s, t) && t.disk == s.disk[key := head] && t.latest == s.latest[key := head]
  {
    hide Inv;
    hide Bread;
    hide Bwrite;
    hide Release;
    hide Cached;
    hide EncodeHeader;
    BreadGives(s, 0, key);
    assert s.pinned + Held(s) == s.pinned;
    if Bread(s, 0, key).Next? {
      var s1 := Bread(s, 0, key).s;
      var head := EncodeHeader(Data(s1, 0), blocks);
      BwriteStores(s1, 0, head);
      ReleaseDrops(Bwrite(s1, 0, head), 0);
    }
  }

  // ---- one turn of install_trans -----------------------------------------------------------

  // The buffer of process 1 is pinned.
  ghost predicate HoldsPinned(s: State) {
    Holds(s, 0) && Holds(s, 1) && s.uses[1].buf in s.pinned
  }

  // memmove; bwrite(dbuf); bunpin(dbuf); brelse(lbuf); brelse(dbuf)
  ghost function InstallAndRelease(s: State): State
    requires HoldsPinned(s)
  {
    InstallRuns(s);
    Release(Release(Bunpin(Bwrite(s, 1, Data(s, 0)), 1), 0), 1)
  }

  lemma InstallRuns(s: State)
    requires HoldsPinned(s)
    ensures s.uses[0].buf < |s.cache.bufs|
    ensures var t := Bwrite(s, 1, Data(s, 0));
            && Holds(t, 1) && t.uses[1].buf in t.pinned && t.uses[1].buf < |t.cache.bufs|
            && t.uses[1].key in t.disk && t.disk[t.uses[1].key] == Data(t, 1)
            && (var u := Bunpin(t, 1); Holds(u, 0) && Holds(Release(u, 0), 1))
  {
    hide Inv;
    hide Bwrite;
    hide Release;
    hide Bunpin;
    UserSees(s, 0);
    BwriteStores(s, 1, Data(s, 0));
    var t := Bwrite(s, 1, Data(s, 0));
    UserSees(t, 1);
    BunpinDrops(t, 1);
    ReleaseDrops(Bunpin(t, 1), 0);
  }

  // lbuf = bread(log block); dbuf = bread(home); and the installing
  ghost function InstallTurn(s: State, log: Key, home: Key): Outcome
    requires Alone(s) && OnDisk(s, log) && OnDisk(s, home) && log != home && HasPin(s, home)
  {
    hide Inv;
    BothGiven(s, log, home);
    match BreadBoth(s, log, home)
    case Panic => Panic
    case Next(t) =>
      PinnedIsGiven(s, t, home);
      Next(InstallAndRelease(t))
  }

  // The buffer that bread gives for a pinned block is the pinned one.
  lemma PinnedIsGiven(s: State, t: State, home: Key)
    requires HasPin(s, home) && SamePins(s, t) && Holds(t, 1) && t.uses[1].key == home
    ensures t.uses[1].buf in t.pinned
  {
    hide Recency;
    hide Counts;
    hide Guarded;
    UserSees(t, 1);
    var b :| b in s.pinned && b < |s.cache.bufs| && s.cache.bufs[b].key == home;
    assert t.cache.bufs[b].key == home;
  }

  // The pin of this block is gone, the others are there.
  ghost predicate LosesPin(s: State, t: State, home: Key) {
    && |s.cache.bufs| == |t.cache.bufs| == NBUF
    && (forall c :: c in t.pinned ==> c < NBUF && t.cache.bufs[c].key == s.cache.bufs[c].key)
    && exists b :: b in s.pinned && t.pinned == s.pinned - {b} && b < NBUF && s.cache.bufs[b].key == home
  }

  lemma InstallTurnCopies(s: State, log: Key, home: Key)
    requires Alone(s) && OnDisk(s, log) && OnDisk(s, home) && log != home && HasPin(s, home)
    ensures InstallTurn(s, log, home).Panic? <==> |s.pinned| == NBUF && !Cached(s, log)
    ensures InstallTurn(s, log, home).Next? ==>
              var t := InstallTurn(s, log, home).s; Copied(s, t, home, log) && LosesPin(s, t, home)
  {
    hide Inv;
    hide BreadBoth;
    hide InstallAndRelease;
    hide HasPin;
    hide Cached;
    BothGiven(s, log, home);
    if BreadBoth(s, log, home).Next? {
      var t := BreadBoth(s, log, home).s;
      PinnedIsGiven(s, t, home);
      InstallEnds(s, t, log, home);
    }
  }

  lemma InstallEnds(s: State, s2: State, log: Key, home: Key)
    requires GivenBoth(s, s2, log, home) && HoldsPinned(s2)
    ensures var t, data := InstallAndRelease(s2), s2.latest[log];
            Alone(t) && t.disk == s2.disk[home := data] && t.latest == s2.latest[home := data] && LosesPin(s, t, home)
  {
    hide Inv;
    hide Bwrite;
    hide Release;
    hide Bunpin;
    InstallRuns(s2);
    BwriteStores(s2, 1, Data(s2, 0));
    var s3 := Bwrite(s2, 1, Data(s2, 0));
    UserSees(s3, 1);
    BunpinDrops(s3, 1);
    var s4 := Bunpin(s3, 1);
    ReleaseDrops(s4, 0);
    ReleaseDrops(Release(s4, 0), 1);
    var b := s2.uses[1].buf;
    assert b in s.pinned && s.cache.bufs[b].key == home;
    assert Release(Release(s4, 0), 1).pinned == s.pinned - {b};
    PinnedListed(s4);
    forall c | c in s4.pinned ensures Release(Release(s4, 0), 1).cache.bufs[c].key == s.cache.bufs[c].key {
      assert s4.cache.bufs[c].key == s3.cache.bufs[c].key;
    }
  }
}
