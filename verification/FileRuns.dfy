/** Every sequence of file operations: no block is ever shared, leaked or freed twice, and no file
    has holes. */
module FileRuns {
  import opened FileBlocks
  import opened FileMap
  import opened FileIo
  import opened FileTrunc

  datatype Op =
    | Create(kind: nat)                           // ialloc
    | Link(inum: nat, nlink: nat)                 // nlink and iupdate, as link, unlink and create do
    | Write(inum: nat, off: nat, src: Bytes)      // writei
    | ReadFile(inum: nat, off: nat, cnt: nat)     // readi
    | Trunc(inum: nat)                            // itrunc
    | Put(inum: nat, ref: nat)                    // iput

  ghost predicate Enabled(f: Fs, op: Op) {
    match op
    case Create(kind) => kind != 0
    case Write(n, off, src) => Live(f, n) && off < 0x1_0000_0000 && |src| < 0x1_0000_0000
    case ReadFile(n, off, cnt) => Live(f, n) && off < 0x1_0000_0000 && cnt < 0x1_0000_0000
    case Link(n, _) => Live(f, n)
    case Trunc(n) => Live(f, n)
    case Put(n, _) => Live(f, n)
  }

  ghost predicate Inv(f: Fs) { Settled(f) && Synced(f) && forall n :: 0 <= n < |f.inodes| ==> NoHoles(f, n) }

  ghost function SetLinks(f: Fs, n: nat, nlink: nat): Fs
    requires n < |f.inodes| == |f.saved|
  {
    Iupdate(f.(inodes := f.inodes[n := f.inodes[n].(nlink := nlink)]), n)
  }

  ghost function Do(f: FileSys, op: Op): Freed
    requires Inv(f) && Enabled(f, op)
  {
    match op
    case Create(kind) => Freed(Ialloc(f, kind).fs)
    case Link(n, nlink) => Freed(SetLinks(f, n, nlink))
    case Write(n, off, src) => Freed(Writei(f, n, off, src).fs)
    case ReadFile(n, off, cnt) => Freed(Readi(f, n, off, cnt).fs)
    case Trunc(n) => Itrunc(f, n)
    case Put(n, ref) => Iput(f, n, ref)
  }

  // ---- write -------------------------------------------------------------------------------

  lemma ChunkSettled(f: FileSys, n: nat, off: nat, data: Bytes)
    requires Live(f, n) && off + |data| <= MAXBYTES && off % BSIZE + |data| <= BSIZE && data != [] && Bmap(f, n, off / BSIZE).addr != 0
    requires Settled(f)
    ensures Settled(WriteChunk(f, n, off, data))
  {
    hide Wf;
    hide Bmap;
    BmapSettled(f, n, off / BSIZE);
    BmapGrows(f, n, off / BSIZE);
    AddrHolds(Bmap(f, n, off / BSIZE).fs, n, off / BSIZE);
  }

  lemma {:induction false} LoopSettled(f: FileSys, n: nat, off: nat, src: Bytes)
    requires Live(f, n) && off + |src| <= MAXBYTES && Settled(f)
    ensures Settled(WriteLoop(f, n, off, src).fs)
    decreases |src|
  {
    hide Wf;
    hide Bmap;
    hide WriteChunk;
    hide Settled;
    if src != [] {
      BmapSettled(f, n, off / BSIZE);
      if Bmap(f, n, off / BSIZE).addr != 0 {
        var m := Min(|src|, BSIZE - off % BSIZE);
        ChunkSettled(f, n, off, src[..m]);
        LoopSettled(WriteChunk(f, n, off, src[..m]), n, off + m, src[m..]);
      }
    }
  }

  // The blocks of the other files are where they were.
  ghost predicate SameAddrs(f: Fs, g: Fs, m: nat) { forall k :: 0 <= k < MAXFILE ==> Addr(g, m, k) == Addr(f, m, k) }

  lemma {:induction false} LoopOthers(f: FileSys, n: nat, off: nat, src: Bytes, m: nat)
    requires Live(f, n) && off + |src| <= MAXBYTES && m < |f.inodes| && m != n
    ensures SameAddrs(f, WriteLoop(f, n, off, src).fs, m) && |WriteLoop(f, n, off, src).fs.inodes| == |f.inodes|
    decreases |src|
  {
    hide Wf;
    hide Bmap;
    hide Addr;
    hide SameBytes;
    if src != [] {
      var r := Bmap(f, n, off / BSIZE);
      BmapGrows(f, n, off / BSIZE);
      if r.addr != 0 {
        var l := Min(|src|, BSIZE - off % BSIZE);
        var g := WriteChunk(f, n, off, src[..l]);
        ChunkOthers(f, n, off, src[..l], m);
        LoopOthers(g, n, off + l, src[l..], m);
      }
    }
  }

  lemma ChunkOthers(f: FileSys, n: nat, off: nat, data: Bytes, m: nat)
    requires Live(f, n) && off + |data| <= MAXBYTES && off % BSIZE + |data| <= BSIZE && data != [] && Bmap(f, n, off / BSIZE).addr != 0
    requires m < |f.inodes| && m != n
    ensures SameAddrs(f, WriteChunk(f, n, off, data), m) && |WriteChunk(f, n, off, data).inodes| == |f.inodes|
  {
    hide Wf;
    hide Bmap;
    hide Addr;
    hide SameBytes;
    var r := Bmap(f, n, off / BSIZE);
    BmapGrows(f, n, off / BSIZE);
    AddrHolds(r.fs, n, off / BSIZE);
    forall k | 0 <= k < MAXFILE ensures Addr(WriteChunk(f, n, off, data), m, k) == Addr(f, m, k) {
      PatchAddr(r.fs, n, off / BSIZE, r.addr, off % BSIZE, data, m, k);
    }
  }

  lemma WriteKeepsInv(f: FileSys, n: nat, off: nat, src: Bytes)
    requires Inv(f) && Enabled(f, Write(n, off, src))
    ensures Inv(Writei(f, n, off, src).fs)
  {
    hide Wf;
    hide Addr;
    hide Content;
    hide WriteLoop;
    hide Overwritten;
    hide Backed;
    var r := WriteiReplaces(f, n, off, src);
    WriteiShape(f, n, off, src);
    if r.ret != -1 {
      var w := WriteLoop(f, n, off, src);
      LoopWrites(f, n, off, src);
      LoopSettled(f, n, off, src);
      FinishSaves(w.fs, n, off + w.tot);
      assert r.fs.saved == r.fs.inodes;
      forall m | 0 <= m < |r.fs.inodes| ensures NoHoles(r.fs, m) {
        if m != n {
          LoopOthers(f, n, off, src, m);
          FinishNoHoles(f, w.fs, n, off + w.tot, m);
        }
      }
    }
  }

  lemma FinishNoHoles(f: Fs, g: FileSys, n: nat, end: nat, m: nat)
    requires Live(g, n) && end <= MAXBYTES && m < |f.inodes| == |g.inodes| && m != n
    requires NoHoles(f, m) && SameAddrs(f, g, m) && g.inodes[m] == f.inodes[m]
    ensures NoHoles(Finish(g, n, end), m)
  {
    hide Wf;
    forall bn | 0 <= bn < MAXFILE && bn * BSIZE < f.inodes[m].size ensures Addr(Finish(g, n, end), m, bn) != 0 {
      FinishAddr(g, n, end, m, bn);
    }
  }

  // ---- the others --------------------------------------------------------------------------

  lemma TruncKeepsInv(f: FileSys, g: FileSys, n: nat)
    requires Inv(f) && Truncated(f, g, n)
    ensures Inv(g)
  {
    hide Wf;
    forall m | 0 <= m < |g.inodes| ensures NoHoles(g, m) {
      assert NoHoles(f, m);
      assert m != n ==> forall bn :: Addr(g, m, bn) == Addr(f, m, bn);
    }
  }

  lemma CreateKeepsInv(f: FileSys, kind: nat)
    requires Inv(f) && kind != 0
    ensures Wf(Ialloc(f, kind).fs) && Inv(Ialloc(f, kind).fs)
  {
    hide Wf;
    IallocTakes(f, kind);
    var g := Ialloc(f, kind).fs;
    forall m | 0 <= m < |g.inodes| ensures NoHoles(g, m) {
      assert NoHoles(f, m);
      assert g.inodes[m] == f.inodes[m] ==> forall bn :: Addr(g, m, bn) == Addr(f, m, bn);
    }
  }

  lemma LinkKeepsInv(f: FileSys, n: nat, nlink: nat)
    requires Inv(f) && Live(f, n)
    ensures Wf(SetLinks(f, n, nlink)) && Inv(SetLinks(f, n, nlink))
  {
    var g := SetLinks(f, n, nlink);
    forall c | 0 <= c < |g.owner| ensures BlockOk(g, c) { assert BlockOk(f, c); }
    forall m | 0 <= m < |g.inodes| ensures InodeOk(g, m) && NoHoles(g, m) {
      assert InodeOk(f, m) && NoHoles(f, m);
      forall j | 0 <= j < 256 ensures Names(g, Entry(g, g.inodes[m].addrs[12], j), Indirect(m, j)) {
        assert Names(f, Entry(f, f.inodes[m].addrs[12], j), Indirect(m, j));
      }
      assert forall bn :: Addr(g, m, bn) == Addr(f, m, bn);
    }
  }

  /** Every operation, on success and when the disk is full, keeps the file system in order, and
      none of them panics with "freeing free block". */
  lemma OpKeepsInv(f: FileSys, op: Op)
    requires Inv(f) && Enabled(f, op)
    ensures Do(f, op).Freed? && Wf(Do(f, op).fs) && Inv(Do(f, op).fs)
  {
    hide BlockOk;
    hide InodeOk;
    hide Itrunc;
    hide Iput;
    hide Ialloc;
    hide Writei;
    hide Readi;
    match op
    case Create(kind) => CreateKeepsInv(f, kind);
    case Link(n, nlink) => LinkKeepsInv(f, n, nlink);
    case Write(n, off, src) => WriteKeepsInv(f, n, off, src);
    case ReadFile(n, off, cnt) => ReadiReturns(f, n, off, cnt);
    case Trunc(n) =>
      ItruncFrees(f, n);
      TruncKeepsInv(f, Itrunc(f, n).fs, n);
    case Put(n, ref) =>
      IputFrees(f, n, ref);
      if ref == 1 && f.inodes[n].nlink == 0 { TruncKeepsInv(f, Iput(f, n, ref).fs, n); }
  }

  // The operation is possible in f, and leads to g unless it panics.
  ghost predicate Next(f: Fs, op: Op, g: Fs) {
    Wf(f) && Inv(f) ==> Enabled(f, op) && (Do(f, op).Freed? ==> g == Do(f, op).fs)
  }

  // A run: consecutive states, each one operation from the one before, from an orderly file system.
  ghost predicate IsRun(run: seq<Fs>, ops: seq<Op>) {
    && |run| == |ops| + 1 && Wf(run[0]) && Inv(run[0])
    && forall i :: 0 <= i < |ops| ==> Next(run[i], ops[i], run[i + 1])
  }

  /** After any sequence of operations a bit of the free map is set exactly when its block is
      metadata or is named by a slot of some inode or indirect block, no block is named by two
      slots, and no operation ever frees a free block. */
  lemma {:induction false} NoBlockLostOrShared(run: seq<Fs>, ops: seq<Op>, i: nat, b: nat)
    requires IsRun(run, ops) && i < |run|
    ensures Wf(run[i]) && Inv(run[i]) && (i < |ops| ==> Enabled(run[i], ops[i]) && Do(run[i], ops[i]).Freed?)
    ensures 0 < b < |run[i].used| ==> (run[i].used[b] <==> run[i].owner[b] == Meta || exists s :: NamedBy(run[i], b, s))
    ensures forall s, s' :: 0 < b < |run[i].used| && NamedBy(run[i], b, s) && NamedBy(run[i], b, s') ==> s == s'
  {
    hide BlockOk;
    hide InodeOk;
    hide NoHoles;
    hide Do;
    assert i < |ops| ==> Next(run[i], ops[i], run[i + 1]);
    if i > 0 {
      assert Next(run[i - 1], ops[i - 1], run[i]);
      NoBlockLostOrShared(run, ops, i - 1, b);
      OpKeepsInv(run[i - 1], ops[i - 1]);
    }
    if i < |ops| {
      OpKeepsInv(run[i], ops[i]);
    }
    if 0 < b < |run[i].used| {
      BitmapIsExact(run[i], b);
    }
  }
}
