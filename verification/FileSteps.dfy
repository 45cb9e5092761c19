/** The single changes fs.c makes to block ownership: balloc, naming the block, bfree. */
module FileSteps {
  import opened FileBlocks

  // BBLOCK(b, sb) and IBLOCK(i, sb)
  function BitmapBlock(sb: Super, b: nat): nat { b / BPB + sb.bmapstart }

  function InodeBlock(sb: Super, n: nat): nat { n / 16 + sb.inodestart }

  // ---- balloc ------------------------------------------------------------------------------

  // The first free block at or after b; the number of blocks if there is none.
  ghost function FirstFree(used: seq<bool>, b: nat): (r: nat)
    requires b <= |used|
    ensures b <= r <= |used| && (r < |used| ==> !used[r]) && forall i :: b <= i < r ==> used[i]
    decreases |used| - b
  {
    if b == |used| || !used[b] then b else FirstFree(used, b + 1)
  }

  ghost predicate DiskFull(f: Fs) { forall b :: 0 <= b < |f.used| ==> f.used[b] }

  // Mark the block in use, zero it, and log the bitmap block and the block itself.
  ghost function Allocate(f: Fs, b: nat): Fs
    requires b < |f.used| == |f.blocks| == |f.owner|
  {
    f.(used := f.used[b := true], blocks := f.blocks[b := ZeroBlock()], owner := f.owner[b := Loose],
       logged := f.logged + {BitmapBlock(f.sb, b), b})
  }

  lemma AllocateWf(f: FileSys, b: nat)
    requires b < |f.used| && !f.used[b]
    ensures Wf(Allocate(f, b))
  {
    var g := Allocate(f, b);
    assert BlockOk(f, b) && BlockOk(f, 0);
    forall c | 0 <= c < |g.owner| ensures BlockOk(g, c) {
      assert BlockOk(f, c);
      if c != b && f.owner[c].Indirect? { EntryKept(f, b, f.owner[c].inode, f.owner[c].j); }
    }
    forall n | 0 <= n < |g.inodes| ensures InodeOk(g, n) {
      assert InodeOk(f, n);
      forall j | 0 <= j < 256 ensures Names(g, Entry(g, g.inodes[n].addrs[12], j), Indirect(n, j)) {
        assert Names(f, Entry(f, f.inodes[n].addrs[12], j), Indirect(n, j));
        EntryKept(f, b, n, j);
      }
    }
  }

  // An unused block is nobody's indirect block.
  lemma EntryKept(f: FileSys, b: nat, n: nat, j: nat)
    requires b < |f.used| && !f.used[b] && n < |f.inodes|
    ensures |f.inodes[n].addrs| == 13
    ensures Entry(Allocate(f, b), f.inodes[n].addrs[12], j) == Entry(f, f.inodes[n].addrs[12], j)
  {
    assert InodeOk(f, n) && BlockOk(f, b);
  }

  // balloc; block 0 means that the disk is full.
  datatype Balloced = Balloced(fs: FileSys, b: nat)

  ghost function Balloc(f: FileSys): (r: Balloced)
    ensures r.b == 0 ==> r.fs == f && DiskFull(f)
    ensures r.b != 0 ==> r.b < |f.used| && !f.used[r.b] && f.owner[r.b] == Unused && r.fs == Allocate(f, r.b)
  {
    assert BlockOk(f, 0);
    var b := FirstFree(f.used, 0);
    if b == |f.used| then Balloced(f, 0)
    else
      AllocateWf(f, b);
      assert BlockOk(f, b);
      Balloced(Allocate(f, b), b)
  }

  // ---- naming a block ----------------------------------------------------------------------

  ghost function SetAddr(f: Fs, n: nat, i: nat, b: nat): Fs
    requires n < |f.inodes| && i < |f.inodes[n].addrs|
  {
    f.(inodes := f.inodes[n := f.inodes[n].(addrs := f.inodes[n].addrs[i := b])])
  }

  // A new block may be named by inode n.
  ghost predicate CanName(f: Fs, n: nat, b: nat) {
    n < |f.inodes| && |f.inodes[n].addrs| == 13 && f.inodes[n].kind != 0 && 0 < b < |f.owner| && f.owner[b] == Loose
  }

  // ip->addrs[bn] = addr
  ghost function NameDirect(f: Fs, n: nat, bn: nat, b: nat): Fs
    requires CanName(f, n, b) && bn < 12
  {
    SetAddr(f, n, bn, b).(owner := f.owner[b := Direct(n, bn)])
  }

  lemma NameDirectWf(f: FileSys, n: nat, bn: nat, b: nat)
    requires CanName(f, n, b) && bn < 12 && f.inodes[n].addrs[bn] == 0
    ensures Wf(NameDirect(f, n, bn, b))
  {
    var g := NameDirect(f, n, bn, b);
    assert BlockOk(f, b);
    forall c | 0 <= c < |g.owner| ensures BlockOk(g, c) { assert BlockOk(f, c); }
    forall m | 0 <= m < |g.inodes| ensures InodeOk(g, m) {
      assert InodeOk(f, m);
      forall j | 0 <= j < 256 ensures Names(g, Entry(g, g.inodes[m].addrs[12], j), Indirect(m, j)) {
        assert Names(f, Entry(f, f.inodes[m].addrs[12], j), Indirect(m, j));
      }
    }
  }

  // ip->addrs[NDIRECT] = addr
  ghost function NameSingle(f: Fs, n: nat, b: nat): Fs
    requires CanName(f, n, b)
  {
    SetAddr(f, n, 12, b).(owner := f.owner[b := Single(n)])
  }

  lemma ZeroEntries(f: Fs, b: nat, j: nat)
    requires b < |f.blocks| && f.blocks[b] == ZeroBlock() && j < 256
    ensures Entry(f, b, j) == 0
  {
  }

  lemma NameSingleWf(f: FileSys, n: nat, b: nat)
    requires CanName(f, n, b) && f.inodes[n].addrs[12] == 0 && f.blocks[b] == ZeroBlock()
    ensures Wf(NameSingle(f, n, b))
  {
    var g := NameSingle(f, n, b);
    assert BlockOk(f, b);
    forall c | 0 <= c < |g.owner| ensures BlockOk(g, c) { assert BlockOk(f, c); }
    forall m | 0 <= m < |g.inodes| ensures InodeOk(g, m) {
      assert InodeOk(f, m);
      forall j | 0 <= j < 256 ensures Names(g, Entry(g, g.inodes[m].addrs[12], j), Indirect(m, j)) {
        assert Names(f, Entry(f, f.inodes[m].addrs[12], j), Indirect(m, j));
        if m == n { ZeroEntries(g, b, j); }
      }
    }
  }

  // a[j] = addr in the indirect block, and log_write of it
  ghost function NameEntry(f: Fs, n: nat, j: nat, b: nat): Fs
    requires CanName(f, n, b) && j < 256 && b < 0x1_0000_0000
    requires 0 < f.inodes[n].addrs[12] < |f.blocks| && |f.blocks[f.inodes[n].addrs[12]]| == BSIZE
  {
    var s := f.inodes[n].addrs[12];
    f.(blocks := f.blocks[s := PutWord(f.blocks[s], j, b)], owner := f.owner[b := Indirect(n, j)], logged := f.logged + {s})
  }

  lemma NameEntryAt(f: FileSys, n: nat, j: nat, b: nat, m: nat, k: nat)
    requires CanName(f, n, b) && j < 256 && b < 0x1_0000_0000 && f.inodes[n].addrs[12] != 0 && m < |f.inodes| && k < 256
    ensures |f.inodes[m].addrs| == 13 && 0 < f.inodes[n].addrs[12] < |f.blocks| && |f.blocks[f.inodes[n].addrs[12]]| == BSIZE
    ensures Entry(NameEntry(f, n, j, b), f.inodes[m].addrs[12], k)
            == if m == n && k == j then b else Entry(f, f.inodes[m].addrs[12], k)
  {
    assert InodeOk(f, n) && InodeOk(f, m);
    var s := f.inodes[n].addrs[12];
    assert BlockOk(f, s);
    WordPut(f.blocks[s], j, b, k);
  }

  lemma NameEntryWf(f: FileSys, n: nat, j: nat, b: nat)
    requires CanName(f, n, b) && j < 256 && b < 0x1_0000_0000 && f.inodes[n].addrs[12] != 0
    requires Entry(f, f.inodes[n].addrs[12], j) == 0
    ensures 0 < f.inodes[n].addrs[12] < |f.blocks| && |f.blocks[f.inodes[n].addrs[12]]| == BSIZE
    ensures Wf(NameEntry(f, n, j, b))
  {
    assert InodeOk(f, n) && BlockOk(f, f.inodes[n].addrs[12]) && BlockOk(f, b);
    var g := NameEntry(f, n, j, b);
    forall c | 0 <= c < |g.owner| ensures BlockOk(g, c) {
      assert BlockOk(f, c);
      if g.owner[c].Indirect? { NameEntryAt(f, n, j, b, g.owner[c].inode, g.owner[c].j); }
    }
    forall m | 0 <= m < |g.inodes| ensures InodeOk(g, m) {
      assert InodeOk(f, m);
      forall k | 0 <= k < 256 ensures Names(g, Entry(g, g.inodes[m].addrs[12], k), Indirect(m, k)) {
        assert Names(f, Entry(f, f.inodes[m].addrs[12], k), Indirect(m, k));
        NameEntryAt(f, n, j, b, m, k);
      }
    }
  }
}
