/** A filewrite chunk that logs exactly MAXOPBLOCKS blocks: it starts in the middle of the last
    direct block, needs a new indirect block, and every block it allocates has its bit in a
    bitmap block of its own. */
module FileTight {
  import opened FileBlocks
  import opened FileSteps
  import opened FileMap
  import opened FileIo
  import opened FileRuns
  import opened FileLog
  import opened FileCover

  // The free blocks of a disk of 32768, one for each of its four bitmap blocks.
  const FREE: set<nat> := {8000, 16000, 24000, 32000}

  ghost function OwnerAt(b: int): Slot {
    if b < 0 then Meta else if b in FREE then Unused else if 300 <= b < 312 then Direct(0, b - 300) else Meta
  }

  ghost function Owners(): (s: seq<Slot>)
    ensures |s| == 32768 && forall b :: 0 <= b < 32768 ==> s[b] == OwnerAt(b)
  {
    seq(32768, b => OwnerAt(b))
  }

  ghost function Bits(): (s: seq<bool>)
    ensures |s| == 32768 && forall b :: 0 <= b < 32768 ==> s[b] == (b !in FREE)
  {
    seq(32768, b => b !in FREE)
  }

  ghost function Blocks(): (s: seq<Bytes>)
    ensures |s| == 32768 && forall b :: 0 <= b < 32768 ==> s[b] == ZeroBlock()
  {
    seq(32768, b => ZeroBlock())
  }

  // Twelve direct blocks, the last one half full.
  const File: Inode := Inode(1, 1, 11776, [300, 301, 302, 303, 304, 305, 306, 307, 308, 309, 310, 311, 0])

  ghost function Disk(): Fs {
    Fs(Super(100, 200), Bits(), Blocks(), [File], [File], {}, Owners())
  }

  lemma DiskBlock(b: nat)
    requires b < 32768
    ensures BlockOk(Disk(), b)
  {
    if 300 <= b < 312 { assert File.addrs[b - 300] == b; }
  }

  lemma DiskInode()
    ensures InodeOk(Disk(), 0) && NoHoles(Disk(), 0)
  {
  }

  lemma DiskWf()
    ensures Wf(Disk()) && Live(Disk(), 0) && NoHoles(Disk(), 0)
  {
    hide BlockOk;
    hide InodeOk;
    hide NoHoles;
    var f := Disk();
    forall b | 0 <= b < |f.owner| ensures BlockOk(f, b) { DiskBlock(b); }
    DiskInode();
  }

  // Three blocks of ones.
  ghost function Ones(): (s: Bytes)
    ensures |s| == 3072 && forall k :: 0 <= k < 3072 ==> s[k] == 1
  {
    seq(3072, k => 1)
  }

  // Whether or not the disk fills up, all four free blocks get used.
  lemma AllUsed(g: FileSys, w: Written, b: nat)
    requires Live(Disk(), 0) && Wf(Disk()) && g == w.fs && b in FREE
    requires Backed(Disk(), g, 0, 11776, w.tot) && SameOthers(Disk(), g, 0) && Settled(g)
    requires w.tot < 3072 ==> DiskFull(g)
    requires w.tot <= 3072 && Live(g, 0) && b < |g.used|
    ensures g.used[b]
  {
    hide Wf;
    hide Addr;
    hide Blocks;
    if w.tot == 3072 {
      FourNew(g);
      var s, x, y, z := g.inodes[0].addrs[12], Addr(g, 0, 12), Addr(g, 0, 13), Addr(g, 0, 14);
      FourOfFour(s, x, y, z);
    }
  }

  lemma FourOfFour(s: nat, x: nat, y: nat, z: nat)
    requires s in FREE && x in FREE && y in FREE && z in FREE
    requires s != x && s != y && s != z && x != y && x != z && y != z
    ensures FREE == {s, x, y, z}
  {
  }

  lemma FourNew(g: FileSys)
    requires Backed(Disk(), g, 0, 11776, 3072) && SameOthers(Disk(), g, 0) && Settled(g) && Live(g, 0)
    ensures var s, x, y, z := g.inodes[0].addrs[12], Addr(g, 0, 12), Addr(g, 0, 13), Addr(g, 0, 14);
            && s != x && s != y && s != z && x != y && x != z && y != z
            && s in FREE && x in FREE && y in FREE && z in FREE
            && s < |g.used| && x < |g.used| && y < |g.used| && z < |g.used|
            && g.used[s] && g.used[x] && g.used[y] && g.used[z]
  {
    assert Addr(g, 0, 12288 / BSIZE) != 0 && Addr(g, 0, 13312 / BSIZE) != 0 && Addr(g, 0, 14336 / BSIZE) != 0;
    AddrOwned(g, 0, 12);
    AddrOwned(g, 0, 13);
    AddrOwned(g, 0, 14);
    assert InodeOk(g, 0);
    assert BlockOk(g, g.inodes[0].addrs[12]);
    NewIsFree(g, g.inodes[0].addrs[12]);
    NewIsFree(g, Addr(g, 0, 12));
    NewIsFree(g, Addr(g, 0, 13));
    NewIsFree(g, Addr(g, 0, 14));
  }

  // A block that is an indirect block, or named by one, was free.
  lemma NewIsFree(g: Fs, b: nat)
    requires SameOthers(Disk(), g, 0) && b < |g.owner| && (g.owner[b].Single? || g.owner[b].Indirect?)
    ensures b in FREE
  {
    assert Owners()[b] == OwnerAt(b);
  }

  // The last direct block has been written to.
  lemma LastDirectChanged(g: FileSys, tot: nat)
    requires Wf(Disk()) && 512 <= tot <= 3072 && Overwritten(Disk(), g, 0, 11776, Ones()[..tot])
    requires Backed(Disk(), g, 0, 11776, tot) && |g.blocks| == 32768
    ensures g.blocks[311] != Disk().blocks[311]
  {
    hide Wf;
    var f := Disk();
    assert Addr(f, 0, 11) == 311;
    assert ByteAt(g, 0, 11776) == Ones()[0];
    assert ByteAt(g, 0, 11776) == 1;
    assert f.blocks[311] == ZeroBlock();
  }

  // The loop gets past the last direct block.
  lemma FirstPiece()
    requires Wf(Disk()) && Live(Disk(), 0)
    ensures WriteLoop(Disk(), 0, 11776, Ones()).tot >= 512
  {
    hide Wf;
    hide WriteChunk;
    hide Bmap;
    BmapGrows(Disk(), 0, 11);
    assert Addr(Disk(), 0, 11) == 311;
  }

  const TEN: set<nat> := {311, 8000, 16000, 24000, 32000, 200, 201, 202, 203, 100}

  lemma TenLogged(f: FileSys, g: FileSys, h: Fs)
    requires f == Disk() && Covered(f, g) && (forall b :: b in FREE ==> b < |g.used| && g.used[b])
    requires g.blocks[311] != f.blocks[311] && 0 < |h.inodes| == |g.saved| && h == Iupdate(g.(inodes := h.inodes), 0)
    ensures TEN <= h.logged
  {
    hide Wf;
    forall b | b in FREE ensures b in g.logged && BitmapBlock(f.sb, b) in g.logged {
      assert !f.used[b] && g.used[b];
    }
    assert 8000 in FREE && 16000 in FREE && 24000 in FREE && 32000 in FREE;
    assert BitmapBlock(f.sb, 8000) == 200 && BitmapBlock(f.sb, 16000) == 201;
    assert BitmapBlock(f.sb, 24000) == 202 && BitmapBlock(f.sb, 32000) == 203;
  }

  lemma DiskSettled()
    ensures Settled(Disk()) && Disk().logged == {} && Disk().inodes[0].size == 11776
  {
  }

  lemma FinishLogs(f: FileSys, g: FileSys, end: nat)
    requires f == Disk() && Covered(f, g) && (forall b :: b in FREE ==> b < |g.used| && g.used[b])
    requires g.blocks[311] != f.blocks[311] && Live(g, 0) && end <= MAXBYTES
    ensures TEN <= Finish(g, 0, end).logged
  {
    TenLogged(f, g, Finish(g, 0, end));
  }

  lemma ChunkLogsTen(f: FileSys, w: Written)
    requires f == Disk() && Live(f, 0) && w == WriteLoop(f, 0, 11776, Ones())
    ensures Live(w.fs, 0) && w.tot <= 3072 && TEN <= Finish(w.fs, 0, 11776 + w.tot).logged
  {
    hide Wf;
    hide WriteLoop;
    hide Addr;
    hide Blocks;
    hide Bits;
    hide Owners;
    FirstPiece();
    LoopWrites(f, 0, 11776, Ones());
    DiskSettled();
    LoopSettled(f, 0, 11776, Ones());
    LoopCovered(f, 0, 11776, Ones());
    forall b | b in FREE ensures b < |w.fs.used| && w.fs.used[b] {
      InFree(w.fs, b);
      AllUsed(w.fs, w, b);
    }
    LastDirectChanged(w.fs, w.tot);
    FinishLogs(f, w.fs, 11776 + w.tot);
  }

  lemma InFree(g: Fs, b: nat)
    requires SameOthers(Disk(), g, 0) && b in FREE
    ensures b < |g.used|
  {
  }

  lemma TenBlocks(logged: set<nat>)
    requires TEN <= logged && |logged| <= 10
    ensures |logged| == 10
  {
    assert |TEN| == 10;
    Within(TEN, logged);
  }

  /** The bound of ChunkFitsInLog is tight: this chunk logs ten blocks. */
  lemma ChunkFillsReservation()
    ensures Wf(Disk()) && Live(Disk(), 0) && NoHoles(Disk(), 0) && Disk().logged == {}
    ensures |Writei(Disk(), 0, 11776, Ones()).fs.logged| == 10
  {
    DiskWf();
    DiskSettled();
    var f: FileSys := Disk();
    hide Wf;
    hide WriteLoop;
    hide NoHoles;
    hide Disk;
    hide Finish;
    ChunkFitsInLog(f, 0, 11776, Ones());
    WriteiShape(f, 0, 11776, Ones());
    ChunkLogsTen(f, WriteLoop(f, 0, 11776, Ones()));
    TenBlocks(Writei(f, 0, 11776, Ones()).fs.logged);
  }
}
