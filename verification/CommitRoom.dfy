/** When commit() gets through, with nobody but the log using buffers, and what it writes. */
module CommitRoom {
  import opened Disk
  import opened RedoLog
  import opened BufferCache
  import opened CacheRuns
  import opened CacheRoom
  import opened CacheOps
  import opened CommitBuffers

  // The blocks of one device are those of the image.
  ghost predicate Mirrors(s: State, dev: nat, d: Image) {
    forall b :: 0 <= b < |d| ==> Key(dev, b) in s.disk && s.disk[Key(dev, b)] == d[b]
  }

  // What is pinned are the blocks of the log from `from` on.
  ghost predicate PinsFrom(s: State, dev: nat, blocks: seq<nat>, from: nat) {
    && |s.cache.bufs| == NBUF
    && (forall i :: from <= i < |blocks| ==> HasPin(s, Key(dev, blocks[i])))
    && forall b :: b in s.pinned ==> b < NBUF && exists i :: from <= i < |blocks| && s.cache.bufs[b].key == Key(dev, blocks[i])
  }

  // The pinned buffers hold the data of the transaction.
  ghost predicate DataFrom(s: State, dev: nat, c: Transaction, from: nat) {
    |c.data| == |c.blocks| && forall i :: from <= i < |c.blocks| ==> Key(dev, c.blocks[i]) in s.latest && s.latest[Key(dev, c.blocks[i])] == c.data[i]
  }

  /** The log alone has buffers, those of its blocks from `from` on, and the disk is d. */
  ghost predicate Midway(s: State, dev: nat, c: Transaction, d: Image, from: nat) {
    && Alone(s) && dev >= 1 && c.Ready() && |d| == |c.disk| && from <= |c.blocks|
    && Mirrors(s, dev, d) && PinsFrom(s, dev, c.blocks, from) && DataFrom(s, dev, c, from)
  }

  // Where commit() starts: the transaction is in the pinned buffers.
  ghost predicate CanCommit(s: State, dev: nat, c: Transaction) { Midway(s, dev, c, c.disk, 0) }

  // ---- counting pins -----------------------------------------------------------------------

  // The buffer holds one of the blocks.
  ghost predicate HoldsOne(bufs: seq<Buf>, b: nat, dev: nat, blocks: seq<nat>) {
    b < |bufs| && exists i :: 0 <= i < |blocks| && bufs[b].key == Key(dev, blocks[i])
  }

  lemma {:induction false} PinsAreBlocks(bufs: seq<Buf>, pinned: set<nat>, dev: nat, blocks: seq<nat>)
    requires forall b :: b in pinned ==> HoldsOne(bufs, b, dev, blocks)
    requires forall i :: 0 <= i < |blocks| ==> HeldByOne(bufs, pinned, Key(dev, blocks[i]))
    requires forall i, j :: 0 <= i < j < |blocks| ==> blocks[i] != blocks[j]
    requires forall b, c :: b in pinned && c in pinned && b != c ==> b < |bufs| && c < |bufs| && bufs[b].key != bufs[c].key
    ensures |pinned| == |blocks|
    decreases |blocks|
  {
    if blocks == [] {
      assert forall b :: b in pinned ==> HoldsOne(bufs, b, dev, blocks);
      assert pinned == {};
    } else {
      var n := |blocks| - 1;
      assert HeldByOne(bufs, pinned, Key(dev, blocks[n]));
      var b :| b in pinned && b < |bufs| && bufs[b].key == Key(dev, blocks[n]);
      var rest := pinned - {b};
      forall c | c in rest ensures HoldsOne(bufs, c, dev, blocks[..n]) {
        assert HoldsOne(bufs, c, dev, blocks);
        var i :| 0 <= i < |blocks| && bufs[c].key == Key(dev, blocks[i]);
        assert i < n && blocks[..n][i] == blocks[i];
      }
      forall i | 0 <= i < n ensures HeldByOne(bufs, rest, Key(dev, blocks[..n][i])) {
        assert HeldByOne(bufs, pinned, Key(dev, blocks[i]));
        var c :| c in pinned && c < |bufs| && bufs[c].key == Key(dev, blocks[i]);
        assert c in rest;
      }
      PinsAreBlocks(bufs, rest, dev, blocks[..n]);
    }
  }

  lemma PinnedKeysDiffer(s: State)
    requires Inv(s)
    ensures |s.cache.bufs| == NBUF && forall b :: b in s.pinned ==> b < NBUF
    ensures forall b, c :: b in s.pinned && c in s.pinned && b != c ==> s.cache.bufs[b].key != s.cache.bufs[c].key
  {
    hide Recency;
    hide UsesOk;
    hide Counts;
    hide Guarded;
  }

  // There is one pinned buffer for each block that is left.
  lemma PinCount(s: State, dev: nat, c: Transaction, d: Image, from: nat)
    requires Midway(s, dev, c, d, from)
    ensures |s.pinned| == |c.blocks| - from
  {
    hide Inv;
    hide Mirrors;
    hide DataFrom;
    hide WellFormed;
    PinnedKeysDiffer(s);
    var rest := c.blocks[from..];
    forall b | b in s.pinned ensures HoldsOne(s.cache.bufs, b, dev, rest) {
      var i :| from <= i < |c.blocks| && s.cache.bufs[b].key == Key(dev, c.blocks[i]);
      assert rest[i - from] == c.blocks[i];
    }
    forall i | 0 <= i < |rest| ensures HeldByOne(s.cache.bufs, s.pinned, Key(dev, rest[i])) {
      assert HasPin(s, Key(dev, c.blocks[from + i]));
    }
    PinsAreBlocks(s.cache.bufs, s.pinned, dev, rest);
  }

  // ---- reading what is not pinned ----------------------------------------------------------

  // With no process using a buffer, only pinned blocks can differ from the disk.
  lemma LatestIsDisk(s: State, key: Key)
    requires Alone(s) && key in s.disk && !HasPin(s, key)
    ensures key in s.latest && s.latest[key] == s.disk[key]
  {
    hide Recency;
    hide UsesOk;
    hide Counts;
    hide Contents;
    forall b ensures !Guards(s, b, key) {
      assert !DirtyUse(s, b);
    }
  }

  lemma NoPin(s: State, dev: nat, blocks: seq<nat>, from: nat, b: nat)
    requires PinsFrom(s, dev, blocks, from) && forall i :: from <= i < |blocks| ==> blocks[i] != b
    ensures !HasPin(s, Key(dev, b))
  {
  }

  lemma LogBlock(s: State, dev: nat, c: Transaction, d: Image, from: nat, b: nat)
    requires Midway(s, dev, c, d, from) && !IsHome(c.start, b)
    ensures b < |d| && OnDisk(s, Key(dev, b)) && Key(dev, b) in s.latest && s.latest[Key(dev, b)] == d[b]
  {
    hide Inv;
    hide HasPin;
    NoPin(s, dev, c.blocks, from, b);
    LatestIsDisk(s, Key(dev, b));
  }

  // ---- one turn of each loop ---------------------------------------------------------------

  lemma SamePinsFrom(s: State, t: State, dev: nat, blocks: seq<nat>, from: nat)
    requires PinsFrom(s, dev, blocks, from) && SamePins(s, t)
    ensures PinsFrom(t, dev, blocks, from)
  {
    hide HasPin;
    forall i | from <= i < |blocks| ensures HasPin(t, Key(dev, blocks[i])) { PinStays(s, t, Key(dev, blocks[i])); }
    forall b | b in t.pinned ensures exists i :: from <= i < |blocks| && t.cache.bufs[b].key == Key(dev, blocks[i]) {
      var i :| from <= i < |blocks| && s.cache.bufs[b].key == Key(dev, blocks[i]);
      assert t.cache.bufs[b].key == Key(dev, blocks[i]);
    }
  }

  // A block that is not pinned is rewritten.
  lemma Rewritten(s: State, t: State, dev: nat, c: Transaction, d: Image, from: nat, b: nat, data: Block)
    requires Midway(s, dev, c, d, from) && !IsHome(c.start, b) && b < |d| && Alone(t) && SamePins(s, t)
    requires t.disk == s.disk[Key(dev, b) := data] && t.latest == s.latest[Key(dev, b) := data]
    ensures Midway(t, dev, c, d[b := data], from)
  {
    hide Inv;
    hide PinsFrom;
    hide WellFormed;
    SamePinsFrom(s, t, dev, c.blocks, from);
  }

  lemma WriteTurnGoes(s: State, dev: nat, c: Transaction, d: Image, tail: nat)
    requires Midway(s, dev, c, d, 0) && tail < |c.blocks| && |c.blocks| < NBUF
    ensures OnDisk(s, Key(dev, c.start + tail + 1)) && OnDisk(s, Key(dev, c.blocks[tail])) && c.start + tail + 1 != c.blocks[tail]
    ensures var r := WriteTurn(s, Key(dev, c.start + tail + 1), Key(dev, c.blocks[tail]));
            r.Next? && c.start + tail + 1 < |d| && Midway(r.s, dev, c, d[c.start + tail + 1 := c.data[tail]], 0)
  {
    hide Inv;
    hide WriteTurn;
    hide HasPin;
    hide WellFormed;
    LogBlock(s, dev, c, d, 0, c.start + tail + 1);
    PinCount(s, dev, c, d, 0);
    var to, home := Key(dev, c.start + tail + 1), Key(dev, c.blocks[tail]);
    assert HasPin(s, home);
    WriteTurnCopies(s, to, home);
    Rewritten(s, WriteTurn(s, to, home).s, dev, c, d, 0, c.start + tail + 1, c.data[tail]);
  }

  lemma HeadTurnGoes(s: State, dev: nat, c: Transaction, d: Image, from: nat, blocks: seq<nat>)
    requires Midway(s, dev, c, d, from) && |c.blocks| < NBUF && |blocks| <= LOGBLOCKS && c.start < |d| && |d[c.start].words| == WORDS
    ensures var k := Key(dev, c.start); OnDisk(s, k) && k in s.latest && |s.latest[k].words| == WORDS
    ensures var r := HeadTurn(s, Key(dev, c.start), blocks);
            r.Next? && Midway(r.s, dev, c, d[c.start := EncodeHeader(d[c.start], blocks)], from)
  {
    hide Inv;
    hide HeadTurn;
    hide HasPin;
    hide WellFormed;
    hide EncodeHeader;
    LogBlock(s, dev, c, d, from, c.start);
    PinCount(s, dev, c, d, from);
    HeadTurnWrites(s, Key(dev, c.start), blocks);
    Rewritten(s, HeadTurn(s, Key(dev, c.start), blocks).s, dev, c, d, from, c.start, EncodeHeader(d[c.start], blocks));
  }

  lemma InstallTurnGoes(s: State, dev: nat, c: Transaction, d: Image, tail: nat)
    requires Midway(s, dev, c, d, tail) && tail < |c.blocks| && |c.blocks| < NBUF
    requires c.start + tail + 1 < |d| && d[c.start + tail + 1] == c.data[tail]
    ensures var log, home := Key(dev, c.start + tail + 1), Key(dev, c.blocks[tail]);
            OnDisk(s, log) && OnDisk(s, home) && log != home && HasPin(s, home)
    ensures var r := InstallTurn(s, Key(dev, c.start + tail + 1), Key(dev, c.blocks[tail]));
            r.Next? && c.blocks[tail] < |d| && Midway(r.s, dev, c, d[c.blocks[tail] := c.data[tail]], tail + 1)
  {
    hide Inv;
    hide InstallTurn;
    hide HasPin;
    hide LosesPin;
    hide WellFormed;
    LogBlock(s, dev, c, d, tail, c.start + tail + 1);
    PinCount(s, dev, c, d, tail);
    var log, home := Key(dev, c.start + tail + 1), Key(dev, c.blocks[tail]);
    InstallTurnCopies(s, log, home);
    var t := InstallTurn(s, log, home).s;
    PinsLessOne(s, t, dev, c.blocks, tail);
  }

  lemma PinsLessOne(s: State, t: State, dev: nat, blocks: seq<nat>, from: nat)
    requires PinsFrom(s, dev, blocks, from) && from < |blocks| && LosesPin(s, t, Key(dev, blocks[from]))
    requires forall i, j :: 0 <= i < j < |blocks| ==> blocks[i] != blocks[j]
    requires Alone(s)
    ensures PinsFrom(t, dev, blocks, from + 1)
  {
    hide Recency;
    hide UsesOk;
    hide Counts;
    hide Guarded;
    var b :| b in s.pinned && t.pinned == s.pinned - {b} && b < NBUF && s.cache.bufs[b].key == Key(dev, blocks[from]);
    forall i | from + 1 <= i < |blocks| ensures HasPin(t, Key(dev, blocks[i])) {
      var p :| p in s.pinned && p < |s.cache.bufs| && s.cache.bufs[p].key == Key(dev, blocks[i]);
      assert p in t.pinned && t.cache.bufs[p].key == Key(dev, blocks[i]);
    }
    forall p | p in t.pinned ensures exists i :: from + 1 <= i < |blocks| && t.cache.bufs[p].key == Key(dev, blocks[i]) {
      var i :| from <= i < |blocks| && s.cache.bufs[p].key == Key(dev, blocks[i]);
      assert i != from && t.cache.bufs[p].key == Key(dev, blocks[i]);
    }
  }

  // ---- the whole of commit() ---------------------------------------------------------------

  // What commit() needs to go on: its blocks are on the disk, and those from `from` on pinned.
  ghost predicate Ground(s: State, dev: nat, c: Transaction, from: nat) {
    && Alone(s) && dev >= 1 && c.Ready() && from <= |c.blocks| && PinsFrom(s, dev, c.blocks, from)
    && (forall b :: 0 <= b < |c.disk| ==> Key(dev, b) in s.disk)
    && Key(dev, c.start) in s.latest && |s.latest[Key(dev, c.start)].words| == WORDS
  }

  lemma GroundWrite(s: State, dev: nat, c: Transaction, tail: nat)
    requires Ground(s, dev, c, 0) && tail < |c.blocks|
    ensures Alone(s) && OnDisk(s, Key(dev, c.start + tail + 1)) && OnDisk(s, Key(dev, c.blocks[tail])) && c.start + tail + 1 != c.blocks[tail]
    ensures var r := WriteTurn(s, Key(dev, c.start + tail + 1), Key(dev, c.blocks[tail])); r.Next? ==> Ground(r.s, dev, c, 0)
  {
    hide Inv;
    hide WriteTurn;
    hide PinsFrom;
    assert IsHome(c.start, c.blocks[tail]);
    var to, home := Key(dev, c.start + tail + 1), Key(dev, c.blocks[tail]);
    WriteTurnCopies(s, to, home);
    var r := WriteTurn(s, to, home);
    if r.Next? { SamePinsFrom(s, r.s, dev, c.blocks, 0); }
  }

  lemma GroundHead(s: State, dev: nat, c: Transaction, from: nat, blocks: seq<nat>)
    requires Ground(s, dev, c, from) && |blocks| <= LOGBLOCKS
    ensures var r := HeadTurn(s, Key(dev, c.start), blocks); r.Next? ==> Ground(r.s, dev, c, from)
  {
    hide Inv;
    hide HeadTurn;
    hide PinsFrom;
    HeadTurnWrites(s, Key(dev, c.start), blocks);
    var r := HeadTurn(s, Key(dev, c.start), blocks);
    if r.Next? { SamePinsFrom(s, r.s, dev, c.blocks, from); }
  }

  lemma GroundInstall(s: State, dev: nat, c: Transaction, tail: nat)
    requires Ground(s, dev, c, tail) && tail < |c.blocks|
    ensures var log, home := Key(dev, c.start + tail + 1), Key(dev, c.blocks[tail]);
            Alone(s) && OnDisk(s, log) && OnDisk(s, home) && log != home && HasPin(s, home)
    ensures var r := InstallTurn(s, Key(dev, c.start + tail + 1), Key(dev, c.blocks[tail])); r.Next? ==> Ground(r.s, dev, c, tail + 1)
  {
    hide Inv;
    hide InstallTurn;
    hide HasPin;
    hide LosesPin;
    assert IsHome(c.start, c.blocks[tail]);
    var log, home := Key(dev, c.start + tail + 1), Key(dev, c.blocks[tail]);
    InstallTurnCopies(s, log, home);
    var r := InstallTurn(s, log, home);
    if r.Next? { PinsLessOne(s, r.s, dev, c.blocks, tail); }
  }

  // write_log, from block `tail` on
  ghost function WriteLog(s: State, dev: nat, c: Transaction, tail: nat): (r: Outcome)
    requires Ground(s, dev, c, 0) && tail <= |c.blocks|
    ensures r.Next? ==> Ground(r.s, dev, c, 0)
    decreases |c.blocks| - tail
  {
    hide Ground;
    if tail == |c.blocks| then Next(s)
    else
      GroundWrite(s, dev, c, tail);
      match WriteTurn(s, Key(dev, c.start + tail + 1), Key(dev, c.blocks[tail]))
      case Panic => Panic
      case Next(t) => WriteLog(t, dev, c, tail + 1)
  }

  // install_trans(0), from block `tail` on
  ghost function InstallTrans(s: State, dev: nat, c: Transaction, tail: nat): (r: Outcome)
    requires Ground(s, dev, c, tail)
    ensures r.Next? ==> Ground(r.s, dev, c, |c.blocks|)
    decreases |c.blocks| - tail
  {
    if tail == |c.blocks| then Next(s)
    else
      GroundInstall(s, dev, c, tail);
      match InstallTurn(s, Key(dev, c.start + tail + 1), Key(dev, c.blocks[tail]))
      case Panic => Panic
      case Next(t) => InstallTrans(t, dev, c, tail + 1)
  }

  ghost function WriteHead(s: State, dev: nat, c: Transaction, from: nat, blocks: seq<nat>): (r: Outcome)
    requires Ground(s, dev, c, from) && |blocks| <= LOGBLOCKS
    ensures r.Next? ==> Ground(r.s, dev, c, from)
  {
    GroundHead(s, dev, c, from, blocks);
    HeadTurn(s, Key(dev, c.start), blocks)
  }

  // commit()
  ghost function Commit(s: State, dev: nat, c: Transaction): Outcome
    requires Ground(s, dev, c, 0)
  {
    if c.blocks == [] then Next(s)
    else
      match WriteLog(s, dev, c, 0)
      case Panic => Panic
      case Next(s1) =>
        match WriteHead(s1, dev, c, 0, c.blocks)
        case Panic => Panic
        case Next(s2) =>
          match InstallTrans(s2, dev, c, 0)
          case Panic => Panic
          case Next(s3) => WriteHead(s3, dev, c, |c.blocks|, [])
  }

  lemma MidwayIsGround(s: State, dev: nat, c: Transaction, d: Image, from: nat)
    requires Midway(s, dev, c, d, from) && c.start < |d| && |d[c.start].words| == WORDS
    ensures Ground(s, dev, c, from)
  {
    hide Inv;
    hide PinsFrom;
    LogBlock(s, dev, c, d, from, c.start);
  }

  lemma {:induction false} WriteLogGoes(s: State, dev: nat, c: Transaction, tail: nat)
    requires c.Ready() && tail <= |c.blocks| < NBUF && InRange(c.disk, LogWrites(c.start, c.data)[..tail])
    requires Midway(s, dev, c, Apply(c.disk, LogWrites(c.start, c.data)[..tail]), 0) && Ground(s, dev, c, 0)
    ensures InRange(c.disk, LogWrites(c.start, c.data))
    ensures var r := WriteLog(s, dev, c, tail); r.Next? && Midway(r.s, dev, c, Apply(c.disk, LogWrites(c.start, c.data)), 0)
    decreases |c.blocks| - tail
  {
    hide Midway;
    hide Ground;
    hide WriteTurn;
    hide Apply;
    hide WellFormed;
    var ws := LogWrites(c.start, c.data);
    var d := Apply(c.disk, ws[..tail]);
    if tail == |c.blocks| {
      assert ws[..tail] == ws;
    } else {
      WriteTurnGoes(s, dev, c, d, tail);
      GroundWrite(s, dev, c, tail);
      LogInRange(c);
      ApplyNext(c.disk, ws, tail);
      WriteLogGoes(WriteTurn(s, Key(dev, c.start + tail + 1), Key(dev, c.blocks[tail])).s, dev, c, tail + 1);
    }
  }

  lemma LogInRange(c: Transaction)
    requires c.Ready()
    ensures InRange(c.disk, LogWrites(c.start, c.data))
  {
  }

  // The disk with the first `tail` blocks installed.
  ghost function Installed(c: Transaction, e: Image, tail: nat): (d: Image)
    requires c.Ready() && |e| == |c.disk| && tail <= |c.blocks|
    ensures |d| == |e|
  {
    InstallPrefix(c.start, e, c.blocks, c.data, tail);
    Apply(e, InstallWrites(c.blocks, c.data)[..tail])
  }

  lemma InstalledNext(c: Transaction, e: Image, tail: nat)
    requires c.Ready() && |e| == |c.disk| && tail < |c.blocks| && LoggedData(c.start, e, |c.blocks|) == c.data
    ensures c.blocks[tail] < |e| && Installed(c, e, tail + 1) == Installed(c, e, tail)[c.blocks[tail] := c.data[tail]]
    ensures c.start + tail + 1 < |e| && Installed(c, e, tail)[c.start + tail + 1] == c.data[tail]
  {
    InstallPrefix(c.start, e, c.blocks, c.data, tail);
    InstallPrefix(c.start, e, c.blocks, c.data, |c.blocks|);
    ApplyNext(e, InstallWrites(c.blocks, c.data), tail);
    assert c.start + tail + 1 !in c.blocks[..tail];
    assert LoggedData(c.start, e, |c.blocks|)[tail] == e[c.start + tail + 1];
  }

  lemma {:induction false} InstallTransGoes(s: State, dev: nat, c: Transaction, e: Image, tail: nat)
    requires c.Ready() && tail <= |c.blocks| < NBUF && |e| == |c.disk| && LoggedData(c.start, e, |c.blocks|) == c.data
    requires Midway(s, dev, c, Installed(c, e, tail), tail) && Ground(s, dev, c, tail)
    ensures var r := InstallTrans(s, dev, c, tail); r.Next? && Midway(r.s, dev, c, Installed(c, e, |c.blocks|), |c.blocks|)
    decreases |c.blocks| - tail
  {
    hide Midway;
    hide Ground;
    hide InstallTurn;
    hide Installed;
    hide LoggedData;
    if tail < |c.blocks| {
      InstalledNext(c, e, tail);
      InstallTurnGoes(s, dev, c, Installed(c, e, tail), tail);
      GroundInstall(s, dev, c, tail);
      InstallTransGoes(InstallTurn(s, Key(dev, c.start + tail + 1), Key(dev, c.blocks[tail])).s, dev, c, e, tail + 1);
    }
  }

  // The writes of commit() up to the header.
  lemma UpToHeader(c: Transaction) returns (e: Image)
    requires c.Ready() && c.blocks != []
    ensures InRange(c.disk, LogWrites(c.start, c.data)) && c.start < |c.disk| == |e| && LoggedData(c.start, e, |c.blocks|) == c.data
    ensures var d := Apply(c.disk, LogWrites(c.start, c.data)); |d[c.start].words| == WORDS && e == d[c.start := EncodeHeader(d[c.start], c.blocks)]
    ensures e == Apply(c.disk, c.Logging()) && e[c.start] == c.Full()
  {
    AfterLogging(c);
    e := HeaderWritten(c);
  }

  // The writes behind it.
  lemma FromHeader(c: Transaction, e: Image)
    requires c.Ready() && c.blocks != [] && e == Apply(c.disk, c.Logging()) && e[c.start] == c.Full()
    ensures var f := Installed(c, e, |c.blocks|);
            |f[c.start].words| == WORDS && c.After(|c.Writes()|) == f[c.start := EncodeHeader(f[c.start], [])]
  {
    hide WellFormed;
    hide LogWrites;
    hide EncodeHeader;
    InstallPrefix(c.start, e, c.blocks, c.data, |c.blocks|);
    var ws, last := InstallWrites(c.blocks, c.data), [Write(c.start, EncodeHeader(c.Full(), []))];
    assert ws[..|c.blocks|] == ws && c.blocks[..|c.blocks|] == c.blocks;
    assert c.Writes()[..|c.Writes()|] == c.Logging() + c.Installing();
    ApplyConcat(c.disk, c.Logging(), c.Installing());
    ApplyConcat(e, ws, last);
    assert Installed(c, e, |c.blocks|)[c.start] == e[c.start];
    OneWrite(Installed(c, e, |c.blocks|), last[0]);
  }

  lemma OneWrite(d: Image, w: Write)
    requires w.blockno < |d|
    ensures Apply(d, [w]) == d[w.blockno := w.data]
  {
    assert [w][..0] == [];
  }

  lemma HeaderHasWords(c: Transaction)
    requires c.Ready()
    ensures c.start < |c.disk| && |c.disk[c.start].words| == WORDS
  {
  }

  // With fewer than NBUF blocks every bread of the commit finds a buffer.
  lemma CommitGoes(s: State, dev: nat, c: Transaction)
    requires CanCommit(s, dev, c) && 0 < |c.blocks| < NBUF && Ground(s, dev, c, 0)
    ensures var r := Commit(s, dev, c); r.Next? && Midway(r.s, dev, c, c.After(|c.Writes()|), |c.blocks|)
  {
    hide Midway;
    hide Ground;
    hide WriteLog;
    hide InstallTrans;
    hide HeadTurn;
    hide Apply;
    hide Installed;
    hide LogWrites;
    hide EncodeHeader;
    ReadyMidway(s, dev, c);
    var e := UpToHeader(c);
    FromHeader(c, e);
    WriteLogGoes(s, dev, c, 0);
    var s1 := WriteLog(s, dev, c, 0).s;
    HeadTurnGoes(s1, dev, c, Apply(c.disk, LogWrites(c.start, c.data)), 0, c.blocks);
    var s2 := WriteHead(s1, dev, c, 0, c.blocks).s;
    NoneInstalled(c, e);
    InstallTransGoes(s2, dev, c, e, 0);
    var s3 := InstallTrans(s2, dev, c, 0).s;
    HeadTurnGoes(s3, dev, c, Installed(c, e, |c.blocks|), |c.blocks|, []);
  }

  lemma ReadyMidway(s: State, dev: nat, c: Transaction)
    requires CanCommit(s, dev, c)
    ensures c.Ready() && InRange(c.disk, LogWrites(c.start, c.data)[..0])
    ensures Midway(s, dev, c, Apply(c.disk, LogWrites(c.start, c.data)[..0]), 0)
  {
    hide Inv;
    hide PinsFrom;
    hide WellFormed;
  }

  lemma NoneInstalled(c: Transaction, e: Image)
    requires c.Ready() && |e| == |c.disk|
    ensures Installed(c, e, 0) == e
  {
    assert InstallWrites(c.blocks, c.data)[..0] == [];
  }

  // With NBUF blocks every buffer is pinned, and the first log block is in none of them.
  lemma FirstReadFails(s: State, dev: nat, c: Transaction)
    requires CanCommit(s, dev, c) && |c.blocks| == NBUF
    ensures |s.pinned| == NBUF && !Cached(s, Key(dev, c.start + 1))
    ensures CanBread(s, 0, Key(dev, c.start + 1)) && Bread(s, 0, Key(dev, c.start + 1)).Panic?
  {
    hide Inv;
    hide HasPin;
    hide Bread;
    hide WellFormed;
    hide Mirrors;
    hide DataFrom;
    PinCount(s, dev, c, c.disk, 0);
    AllPinned(s);
    var log := Key(dev, c.start + 1);
    forall b | 0 <= b < |s.cache.bufs| ensures s.cache.bufs[b].key != log {
      var i :| 0 <= i < |c.blocks| && s.cache.bufs[b].key == Key(dev, c.blocks[i]);
      assert IsHome(c.start, c.blocks[i]);
    }
    LogBlock(s, dev, c, c.disk, 0, c.start + 1);
    BreadGives(s, 0, log);
    assert s.pinned + Held(s) == s.pinned;
  }

  lemma FullLogFails(s: State, dev: nat, c: Transaction)
    requires CanCommit(s, dev, c) && |c.blocks| == NBUF && Ground(s, dev, c, 0)
    ensures WriteLog(s, dev, c, 0).Panic?
  {
    hide Inv;
    hide HasPin;
    hide Cached;
    hide WriteTurn;
    hide WellFormed;
    FirstReadFails(s, dev, c);
    GroundWrite(s, dev, c, 0);
    assert HasPin(s, Key(dev, c.blocks[0]));
    WriteTurnCopies(s, Key(dev, c.start + 1), Key(dev, c.blocks[0]));
  }

  lemma AllPinned(s: State)
    requires Inv(s) && |s.pinned| == NBUF
    ensures |s.cache.bufs| == NBUF && forall b :: 0 <= b < NBUF ==> b in s.pinned
  {
    hide Inv;
    PinnedKeysDiffer(s);
    SubsetSize(s.pinned, Numbers(NBUF));
  }

  /** commit(), when only the log has buffers, runs out of them exactly when it has NBUF blocks to write;
      then it halts at its first bread, before anything is written.  Otherwise it performs the writes of
      the transaction, and unpins everything. */
  lemma CommitIff(s: State, dev: nat, c: Transaction)
    requires CanCommit(s, dev, c)
    ensures Ground(s, dev, c, 0)
    ensures Commit(s, dev, c).Panic? <==> |c.blocks| == NBUF
    ensures |c.blocks| == NBUF ==> CanBread(s, 0, Key(dev, c.start + 1)) && Bread(s, 0, Key(dev, c.start + 1)).Panic?
    ensures Commit(s, dev, c).Next? ==>
              var t := Commit(s, dev, c).s; Alone(t) && t.pinned == {} && Mirrors(t, dev, c.After(|c.Writes()|))
  {
    hide Inv;
    hide WriteLog;
    hide InstallTrans;
    hide HeadTurn;
    hide Bread;
    HeaderHasWords(c);
    MidwayIsGround(s, dev, c, c.disk, 0);
    PinCount(s, dev, c, c.disk, 0);
    if |c.blocks| == NBUF {
      FirstReadFails(s, dev, c);
      FullLogFails(s, dev, c);
    } else if c.blocks != [] {
      CommitGoes(s, dev, c);
      PinCount(Commit(s, dev, c).s, dev, c, c.After(|c.Writes()|), |c.blocks|);
    } else {
      assert c.After(0) == c.disk;
    }
  }
}
