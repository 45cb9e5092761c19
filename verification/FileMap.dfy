/** bmap: the block of a file, allocated when it is missing. */
module FileMap {
  import opened FileBlocks
  import opened FileSteps

  // A locked inode in use; ilock panics on any other.
  ghost predicate Live(f: Fs, n: nat) { n < |f.inodes| && f.inodes[n].kind != 0 && |f.inodes[n].addrs| == 13 }

  // ---- growth ------------------------------------------------------------------------------

  ghost predicate OwnedBy(s: Slot, n: nat) {
    s == Loose || (s.Direct? && s.inum == n) || s == Single(n) || (s.Indirect? && s.inode == n)
  }

  ghost predicate GrownShape(f: Fs, g: Fs, n: nat) {
    && g.sb == f.sb && |g.used| == |f.used| && |g.owner| == |f.owner| && |g.inodes| == |f.inodes| && g.saved == f.saved
    && n < |f.inodes| && g.inodes == f.inodes[n := f.inodes[n].(addrs := g.inodes[n].addrs)]
    && f.logged <= g.logged
    && forall b :: 0 <= b < |f.owner| ==> g.owner[b] == f.owner[b] || (f.owner[b] == Unused && OwnedBy(g.owner[b], n))
                                          || (f.owner[b] == Loose && OwnedBy(g.owner[b], n))
  }

  ghost predicate GrownAddrs(f: Fs, g: Fs, n: nat) {
    forall m, k :: 0 <= m < |f.inodes| && 0 <= k < MAXFILE && (m != n || Addr(f, m, k) != 0) ==> Addr(g, m, k) == Addr(f, m, k)
  }

  ghost predicate SameBytes(f: Fs, g: Fs) {
    forall m, k :: 0 <= m < |f.inodes| && 0 <= k < MAXBYTES ==> ByteAt(g, m, k) == ByteAt(f, m, k)
  }

  /** From f to g inode n may have got more blocks, all of them unused before; every file reads as
      before, and no other inode has changed. */
  ghost predicate Grown(f: Fs, g: Fs, n: nat) {
    GrownShape(f, g, n) && GrownAddrs(f, g, n) && SameBytes(f, g)
  }

  lemma GrownTrans(f: Fs, g: Fs, h: Fs, n: nat)
    requires Grown(f, g, n) && Grown(g, h, n)
    ensures Grown(f, h, n)
  {
    hide Addr;
    hide ByteAt;
  }

  lemma GrownSelf(f: Fs, n: nat)
    requires n < |f.inodes|
    ensures Grown(f, f, n)
  {
  }

  // A file's blocks are not unused ones.
  lemma AllocateKeepsFile(f: FileSys, b: nat, m: nat, k: nat)
    requires b < |f.used| && !f.used[b] && m < |f.inodes| && k < MAXBYTES
    ensures Addr(Allocate(f, b), m, k / BSIZE) == Addr(f, m, k / BSIZE)
    ensures ByteAt(Allocate(f, b), m, k) == ByteAt(f, m, k)
  {
    EntryKept(f, b, m, if k / BSIZE >= 12 then k / BSIZE - 12 else 0);
    if Addr(f, m, k / BSIZE) != 0 { AddrOwned(f, m, k / BSIZE); }
  }

  lemma AllocateGrows(f: FileSys, b: nat, n: nat)
    requires b < |f.used| && !f.used[b] && n < |f.inodes|
    ensures Grown(f, Allocate(f, b), n)
  {
    hide Addr;
    hide ByteAt;
    var g := Allocate(f, b);
    assert BlockOk(f, b);
    forall m, k | 0 <= m < |f.inodes| && 0 <= k < MAXFILE ensures Addr(g, m, k) == Addr(f, m, k) {
      AllocateKeepsFile(f, b, m, k * BSIZE);
    }
    forall m, k | 0 <= m < |f.inodes| && 0 <= k < MAXBYTES ensures ByteAt(g, m, k) == ByteAt(f, m, k) {
      AllocateKeepsFile(f, b, m, k);
    }
  }

  // From f to g file n got one more block at place bn, zero-filled, and no other block changed hands.
  ghost predicate AddsBlock(f: Fs, g: Fs, n: nat, bn: nat, b: nat) {
    && Addr(f, n, bn) == 0 && 0 < b < |f.blocks| == |g.blocks| && f.blocks[b] == ZeroBlock() && g.blocks[b] == f.blocks[b]
    && (forall m, k :: 0 <= m < |f.inodes| && 0 <= k < MAXFILE ==>
          Addr(g, m, k) == if m == n && k == bn then b else Addr(f, m, k))
    && (forall m, k :: 0 <= m < |f.inodes| && 0 <= k < MAXFILE && Addr(f, m, k) != 0 ==>
          Addr(f, m, k) < |f.blocks| && g.blocks[Addr(f, m, k)] == f.blocks[Addr(f, m, k)])
  }

  lemma AddsBlockGrows(f: FileSys, g: FileSys, n: nat, bn: nat, b: nat)
    requires GrownShape(f, g, n) && bn < MAXFILE && AddsBlock(f, g, n, bn, b)
    ensures Grown(f, g, n)
  {
    hide Addr;
    hide Wf;
    forall m, k | 0 <= m < |f.inodes| && 0 <= k < MAXBYTES ensures ByteAt(g, m, k) == ByteAt(f, m, k) {
      assert 0 <= k / BSIZE < MAXFILE;
      assert Addr(g, m, k / BSIZE) == if m == n && k / BSIZE == bn then b else Addr(f, m, k / BSIZE);
    }
  }

  lemma NameDirectGrows(f: FileSys, n: nat, bn: nat, b: nat)
    requires CanName(f, n, b) && bn < 12 && f.inodes[n].addrs[bn] == 0 && f.blocks[b] == ZeroBlock()
    ensures Wf(NameDirect(f, n, bn, b)) && Grown(f, NameDirect(f, n, bn, b), n)
    ensures Addr(NameDirect(f, n, bn, b), n, bn) == b
  {
    NameDirectWf(f, n, bn, b);
    var g := NameDirect(f, n, bn, b);
    forall m, k | 0 <= m < |f.inodes| && 0 <= k < MAXFILE && Addr(f, m, k) != 0 ensures Addr(f, m, k) < |f.blocks| {
      AddrOwned(f, m, k);
    }
    AddsBlockGrows(f, g, n, bn, b);
  }

  lemma NameSingleGrows(f: FileSys, n: nat, b: nat)
    requires CanName(f, n, b) && f.inodes[n].addrs[12] == 0 && f.blocks[b] == ZeroBlock()
    ensures Wf(NameSingle(f, n, b)) && Grown(f, NameSingle(f, n, b), n)
    ensures forall j :: 0 <= j < 256 ==> Entry(NameSingle(f, n, b), b, j) == 0
  {
    NameSingleWf(f, n, b);
    var g := NameSingle(f, n, b);
    forall m, k | 0 <= m < |f.inodes| && 0 <= k < MAXFILE ensures Addr(g, m, k) == Addr(f, m, k) {
      if m == n && k >= 12 { ZeroEntries(g, b, k - 12); }
    }
    hide Addr;
    hide Wf;
    assert g.blocks == f.blocks;
    forall m, k | 0 <= m < |f.inodes| && 0 <= k < MAXBYTES ensures ByteAt(g, m, k) == ByteAt(f, m, k) {
      assert Addr(g, m, k / BSIZE) == Addr(f, m, k / BSIZE);
    }
    forall j | 0 <= j < 256 ensures Entry(g, b, j) == 0 { ZeroEntries(g, b, j); }
  }

  lemma NameEntryGrows(f: FileSys, n: nat, j: nat, b: nat)
    requires CanName(f, n, b) && j < 256 && b < 0x1_0000_0000 && f.inodes[n].addrs[12] != 0
    requires Entry(f, f.inodes[n].addrs[12], j) == 0 && f.blocks[b] == ZeroBlock()
    ensures 0 < f.inodes[n].addrs[12] < |f.blocks| && |f.blocks[f.inodes[n].addrs[12]]| == BSIZE
    ensures Wf(NameEntry(f, n, j, b)) && Grown(f, NameEntry(f, n, j, b), n)
    ensures Addr(NameEntry(f, n, j, b), n, 12 + j) == b
  {
    NameEntryWf(f, n, j, b);
    var g := NameEntry(f, n, j, b);
    NameEntryAdds(f, n, j, b);
    AddsBlockGrows(f, g, n, 12 + j, b);
  }

  lemma NameEntryAdds(f: FileSys, n: nat, j: nat, b: nat)
    requires CanName(f, n, b) && j < 256 && b < 0x1_0000_0000 && f.inodes[n].addrs[12] != 0
    requires Entry(f, f.inodes[n].addrs[12], j) == 0 && f.blocks[b] == ZeroBlock()
    requires 0 < f.inodes[n].addrs[12] < |f.blocks| && |f.blocks[f.inodes[n].addrs[12]]| == BSIZE
    ensures AddsBlock(f, NameEntry(f, n, j, b), n, 12 + j, b)
  {
    var g := NameEntry(f, n, j, b);
    assert InodeOk(f, n);
    forall m, k | 0 <= m < |f.inodes| && 0 <= k < MAXFILE
      ensures Addr(g, m, k) == if m == n && k == 12 + j then b else Addr(f, m, k)
      ensures Addr(f, m, k) != 0 ==> Addr(f, m, k) < |f.blocks| && g.blocks[Addr(f, m, k)] == f.blocks[Addr(f, m, k)]
    {
      NameEntryAt(f, n, j, b, m, if k >= 12 then k - 12 else 0);
      if Addr(f, m, k) != 0 { AddrOwned(f, m, k); }
    }
  }

  // ---- bmap --------------------------------------------------------------------------------

  datatype Mapped = Mapped(fs: FileSys, addr: nat)

  lemma BallocNames(f: FileSys, n: nat)
    requires Live(f, n)
    ensures var r := Balloc(f); Grown(f, r.fs, n) && Live(r.fs, n) && (r.b != 0 ==> CanName(r.fs, n, r.b) && r.b < 0x1_0000_0000)
    ensures var r := Balloc(f); r.fs.inodes == f.inodes && (r.b != 0 ==> r.fs.blocks[r.b] == ZeroBlock())
    ensures var r := Balloc(f); forall j :: 0 <= j < 256 ==> Entry(r.fs, f.inodes[n].addrs[12], j) == Entry(f, f.inodes[n].addrs[12], j)
  {
    hide ByteAt;
    assert InodeOk(f, n);
    var r := Balloc(f);
    if r.b == 0 {
      GrownSelf(f, n);
    } else {
      AllocateGrows(f, r.b, n);
      forall j | 0 <= j < 256 ensures Entry(r.fs, f.inodes[n].addrs[12], j) == Entry(f, f.inodes[n].addrs[12], j) {
        EntryKept(f, r.b, n, j);
      }
    }
  }

  ghost function BmapDirect(f: FileSys, n: nat, bn: nat): Mapped
    requires Live(f, n) && bn < 12
  {
    BallocNames(f, n);
    var a := f.inodes[n].addrs[bn];
    if a != 0 then Mapped(f, a)
    else
      var r := Balloc(f);
      if r.b == 0 then Mapped(r.fs, 0)
      else
        NameDirectGrows(r.fs, n, bn, r.b);
        Mapped(NameDirect(r.fs, n, bn, r.b), r.b)
  }

  // Load the indirect block, allocating if necessary; no addrs[NDIRECT] afterwards if the disk is full.
  ghost function WithSingle(f: FileSys, n: nat): (g: FileSys)
    requires Live(f, n)
  {
    BallocNames(f, n);
    if f.inodes[n].addrs[12] != 0 then f
    else
      var r := Balloc(f);
      if r.b == 0 then r.fs
      else
        NameSingleGrows(r.fs, n, r.b);
        NameSingle(r.fs, n, r.b)
  }

  lemma WithSingleGrows(f: FileSys, n: nat)
    requires Live(f, n)
    ensures Grown(f, WithSingle(f, n), n) && Live(WithSingle(f, n), n)
    ensures f.inodes[n].addrs[12] == 0 && WithSingle(f, n).inodes[n].addrs[12] == 0 ==> DiskFull(f)
  {
    hide Wf;
    hide GrownAddrs;
    hide SameBytes;
    BallocNames(f, n);
    if f.inodes[n].addrs[12] == 0 {
      var r := Balloc(f);
      if r.b != 0 {
        NameSingleGrows(r.fs, n, r.b);
        GrownTrans(f, r.fs, NameSingle(r.fs, n, r.b), n);
      }
    } else {
      GrownSelf(f, n);
    }
  }

  ghost function BmapIndirect(f: FileSys, n: nat, j: nat): Mapped
    requires Live(f, n) && j < 256
  {
    WithSingleGrows(f, n);
    var g := WithSingle(f, n);
    var s := g.inodes[n].addrs[12];
    if s == 0 then Mapped(g, 0)
    else if Entry(g, s, j) != 0 then Mapped(g, Entry(g, s, j))
    else
      var r := Balloc(g);
      if r.b == 0 then Mapped(r.fs, 0)
      else
        BallocNames(g, n);
        NameEntryGrows(r.fs, n, j, r.b);
        Mapped(NameEntry(r.fs, n, j, r.b), r.b)
  }

  // bmap(ip, bn) for bn below MAXFILE; the source panics beyond.
  ghost function Bmap(f: FileSys, n: nat, bn: nat): Mapped
    requires Live(f, n) && bn < MAXFILE
  {
    if bn < 12 then BmapDirect(f, n, bn) else BmapIndirect(f, n, bn - 12)
  }

  lemma BmapDirectGrows(f: FileSys, n: nat, bn: nat)
    requires Live(f, n) && bn < 12
    ensures var r := BmapDirect(f, n, bn);
            Grown(f, r.fs, n) && Live(r.fs, n) && r.addr == Addr(r.fs, n, bn) && (r.addr == 0 ==> DiskFull(r.fs))
  {
    hide Wf;
    hide GrownAddrs;
    hide SameBytes;
    BallocNames(f, n);
    GrownSelf(f, n);
    if f.inodes[n].addrs[bn] == 0 {
      var r := Balloc(f);
      if r.b != 0 {
        NameDirectGrows(r.fs, n, bn, r.b);
        GrownTrans(f, r.fs, NameDirect(r.fs, n, bn, r.b), n);
      }
    }
  }

  lemma BmapIndirectGrows(f: FileSys, n: nat, j: nat)
    requires Live(f, n) && j < 256
    ensures var r := BmapIndirect(f, n, j);
            Grown(f, r.fs, n) && Live(r.fs, n) && r.addr == Addr(r.fs, n, 12 + j) && (r.addr == 0 ==> DiskFull(r.fs))
  {
    hide Wf;
    hide GrownAddrs;
    hide SameBytes;
    WithSingleGrows(f, n);
    var g := WithSingle(f, n);
    BallocNames(g, n);
    var s := g.inodes[n].addrs[12];
    if s == 0 {
      SingleFull(f, n, j);
    } else if Entry(g, s, j) == 0 {
      var r := Balloc(g);
      if r.b != 0 {
        NameEntryGrows(r.fs, n, j, r.b);
        GrownTrans(g, r.fs, NameEntry(r.fs, n, j, r.b), n);
        GrownTrans(f, g, NameEntry(r.fs, n, j, r.b), n);
      }
    }
  }

  // Without an indirect block there are no indirect addresses.
  lemma SingleFull(f: FileSys, n: nat, j: nat)
    requires Live(f, n) && Live(WithSingle(f, n), n) && WithSingle(f, n).inodes[n].addrs[12] == 0
    ensures DiskFull(WithSingle(f, n)) && Addr(WithSingle(f, n), n, 12 + j) == 0
  {
    BallocNames(f, n);
  }

  /** bmap finds the block of the file or gives it a new, zeroed one; no file reads differently
      afterwards, no block that was in use changes hands, and it fails only on a full disk. */
  lemma BmapGrows(f: FileSys, n: nat, bn: nat)
    requires Live(f, n) && bn < MAXFILE
    ensures var r := Bmap(f, n, bn);
            Grown(f, r.fs, n) && Live(r.fs, n) && r.addr == Addr(r.fs, n, bn) && (r.addr == 0 ==> DiskFull(r.fs))
    ensures Addr(f, n, bn) != 0 ==> Bmap(f, n, bn) == Mapped(f, Addr(f, n, bn))
  {
    hide Wf;
    hide GrownAddrs;
    hide SameBytes;
    hide ByteAt;
    BallocNames(f, n);
    if bn < 12 { BmapDirectGrows(f, n, bn); } else { BmapIndirectGrows(f, n, bn - 12); }
  }

  // Every allocated block has been named.
  ghost predicate Settled(f: Fs) { forall b :: 0 <= b < |f.owner| ==> f.owner[b] != Loose }

  lemma WithSingleSettled(f: FileSys, n: nat)
    requires Live(f, n) && Settled(f)
    ensures Settled(WithSingle(f, n))
  {
    BallocNames(f, n);
  }

  lemma BmapSettled(f: FileSys, n: nat, bn: nat)
    requires Live(f, n) && bn < MAXFILE && Settled(f)
    ensures Settled(Bmap(f, n, bn).fs)
  {
    BallocNames(f, n);
    if bn >= 12 {
      WithSingleSettled(f, n);
      WithSingleGrows(f, n);
      BallocNames(WithSingle(f, n), n);
    }
  }
}
