/** bfree, itrunc, iput and ialloc: giving blocks and inodes back, and taking inodes. */
module FileTrunc {
  import opened FileBlocks
  import opened FileSteps
  import opened FileMap
  import opened FileIo

  // Panic is "freeing free block".
  datatype Freed = Panic | Freed(fs: Fs)

  ghost function Bfree(f: Fs, b: nat): Freed
    requires b < |f.used| == |f.owner|
  {
    if !f.used[b] then Panic
    else Freed(f.(used := f.used[b := false], owner := f.owner[b := Unused], logged := f.logged + {BitmapBlock(f.sb, b)}))
  }

  // From f to g only blocks of inode n have been given back.
  ghost predicate Shrunk(f: Fs, g: Fs, n: nat) {
    && g.sb == f.sb && |g.used| == |f.used| && |g.owner| == |f.owner| && g.blocks == f.blocks && g.saved == f.saved
    && n < |f.inodes| && |g.inodes| == |f.inodes| && g.inodes == f.inodes[n := f.inodes[n].(addrs := g.inodes[n].addrs)]
    && (forall b :: 0 <= b < |f.owner| ==> g.owner[b] == f.owner[b] || (OwnedBy(f.owner[b], n) && g.owner[b] == Unused))
  }

  lemma ShrunkTrans(f: Fs, g: Fs, h: Fs, n: nat)
    requires Shrunk(f, g, n) && Shrunk(g, h, n)
    ensures Shrunk(f, h, n)
  {
  }

  // ---- direct blocks -----------------------------------------------------------------------

  // bfree(ip->addrs[i]); ip->addrs[i] = 0
  ghost function DropDirect(f: FileSys, n: nat, i: nat): (r: Freed)
    requires Live(f, n) && i < 12 && f.inodes[n].addrs[i] != 0
  {
    assert InodeOk(f, n) && Names(f, f.inodes[n].addrs[i], Direct(n, i));
    var r := Bfree(f, f.inodes[n].addrs[i]);
    if r.Panic? then Panic else Freed(SetAddr(r.fs, n, i, 0))
  }

  lemma DropDirectOk(f: FileSys, n: nat, i: nat)
    requires Live(f, n) && i < 12 && f.inodes[n].addrs[i] != 0
    ensures var r := DropDirect(f, n, i);
            r.Freed? && Wf(r.fs) && Shrunk(f, r.fs, n) && Live(r.fs, n) && r.fs.inodes[n].addrs == f.inodes[n].addrs[i := 0]
  {
    assert InodeOk(f, n) && Names(f, f.inodes[n].addrs[i], Direct(n, i));
    var b := f.inodes[n].addrs[i];
    assert BlockOk(f, b);
    var g := DropDirect(f, n, i).fs;
    forall c | 0 <= c < |g.owner| ensures BlockOk(g, c) { assert BlockOk(f, c); }
    forall m | 0 <= m < |g.inodes| ensures InodeOk(g, m) {
      assert InodeOk(f, m);
      forall j | 0 <= j < 256 ensures Names(g, Entry(g, g.inodes[m].addrs[12], j), Indirect(m, j)) {
        assert Names(f, Entry(f, f.inodes[m].addrs[12], j), Indirect(m, j));
      }
    }
  }

  // The first loop of itrunc, from i on.
  ghost function DropDirects(f: FileSys, n: nat, i: nat): (r: Freed)
    requires Live(f, n) && i <= 12
    decreases 12 - i
  {
    if i == 12 then Freed(f)
    else if f.inodes[n].addrs[i] == 0 then DropDirects(f, n, i + 1)
    else
      DropDirectOk(f, n, i);
      var r := DropDirect(f, n, i);
      if r.Panic? then Panic else DropDirects(r.fs, n, i + 1)
  }

  lemma {:induction false} DropDirectsOk(f: FileSys, n: nat, i: nat)
    requires Live(f, n) && i <= 12 && forall k :: 0 <= k < i ==> f.inodes[n].addrs[k] == 0
    ensures var r := DropDirects(f, n, i);
            && r.Freed? && Wf(r.fs) && Shrunk(f, r.fs, n) && Live(r.fs, n)
            && (forall k :: 0 <= k < 12 ==> r.fs.inodes[n].addrs[k] == 0) && r.fs.inodes[n].addrs[12] == f.inodes[n].addrs[12]
    decreases 12 - i
  {
    hide BlockOk;
    hide InodeOk;
    if i < 12 {
      if f.inodes[n].addrs[i] == 0 {
        DropDirectsOk(f, n, i + 1);
      } else {
        DropDirectOk(f, n, i);
        var g := DropDirect(f, n, i).fs;
        DropDirectsOk(g, n, i + 1);
        ShrunkTrans(f, g, DropDirects(g, n, i + 1).fs, n);
      }
    }
  }

  // ---- indirect blocks ---------------------------------------------------------------------

  // The second loop, over the entries of indirect block s, from j on; they stay as they are.
  ghost function FreeEntries(f: Fs, s: nat, j: nat): (r: Freed)
    requires |f.used| == |f.owner| && j <= 256
    decreases 256 - j
  {
    if j == 256 then Freed(f)
    else if Entry(f, s, j) == 0 then FreeEntries(f, s, j + 1)
    else if Entry(f, s, j) >= |f.used| then Panic
    else
      var r := Bfree(f, Entry(f, s, j));
      if r.Panic? then Panic else FreeEntries(r.fs, s, j + 1)
  }

  // The entries below j of inode n's indirect block have been freed.
  ghost predicate EntriesFreed(f: Fs, g: Fs, n: nat, j: nat) {
    && |g.used| == |f.used| && |g.owner| == |f.owner| && g == f.(used := g.used, owner := g.owner, logged := g.logged)
    && |f.used| == |f.owner| && |f.blocks| == |f.owner|
    && (forall b :: 0 <= b < |f.owner| ==>
          g.owner[b] == (if f.owner[b].Indirect? && f.owner[b].inode == n && f.owner[b].j < j then Unused else f.owner[b]))
    && (forall b :: 0 <= b < |f.owner| ==> g.used[b] == (g.owner[b] != Unused))
  }

  lemma {:induction false} FreeEntriesOk(f: FileSys, g: Fs, n: nat, j: nat)
    requires Live(f, n) && j <= 256 && EntriesFreed(f, g, n, j)
    ensures var r := FreeEntries(g, f.inodes[n].addrs[12], j); r.Freed? && EntriesFreed(f, r.fs, n, 256)
    decreases 256 - j
  {
    if j < 256 {
      var s := f.inodes[n].addrs[12];
      assert InodeOk(f, n) && Names(f, Entry(f, s, j), Indirect(n, j));
      OneEntry(f, g, n, j);
      if Entry(f, s, j) == 0 {
        FreeEntriesOk(f, g, n, j + 1);
      } else {
        FreeEntriesOk(f, Bfree(g, Entry(f, s, j)).fs, n, j + 1);
      }
    }
  }

  lemma OneEntry(f: FileSys, g: Fs, n: nat, j: nat)
    requires Live(f, n) && j < 256 && EntriesFreed(f, g, n, j)
    ensures var e := Entry(f, f.inodes[n].addrs[12], j);
            && Entry(g, f.inodes[n].addrs[12], j) == e
            && (e == 0 ==> EntriesFreed(f, g, n, j + 1))
            && (e != 0 ==> e < |g.used| && Bfree(g, e).Freed? && EntriesFreed(f, Bfree(g, e).fs, n, j + 1))
  {
    var e := Entry(f, f.inodes[n].addrs[12], j);
    assert InodeOk(f, n) && Names(f, e, Indirect(n, j));
    forall b | 0 <= b < |f.owner| ensures f.owner[b] == Indirect(n, j) ==> b == e && b != 0 {
      assert BlockOk(f, b);
    }
  }

  // bfree(ip->addrs[NDIRECT]); ip->addrs[NDIRECT] = 0, after the entries.
  ghost function DropIndirect(f: FileSys, n: nat): (r: Freed)
    requires Live(f, n)
  {
    var s := f.inodes[n].addrs[12];
    if s == 0 then Freed(f)
    else
      FreeEntriesSelf(f, n);
      var r := FreeEntries(f, s, 0);
      if r.Panic? || s >= |r.fs.used| then Panic
      else
        var r' := Bfree(r.fs, s);
        if r'.Panic? then Panic else Freed(SetAddr(r'.fs, n, 12, 0))
  }

  lemma FreeEntriesSelf(f: FileSys, n: nat)
    requires Live(f, n)
    ensures var r := FreeEntries(f, f.inodes[n].addrs[12], 0); r.Freed? && EntriesFreed(f, r.fs, n, 256)
  {
    forall b | 0 <= b < |f.owner| ensures f.used[b] == (f.owner[b] != Unused) { assert BlockOk(f, b); }
    FreeEntriesOk(f, f, n, 0);
  }

  lemma DropIndirectOk(f: FileSys, n: nat)
    requires Live(f, n)
    ensures var r := DropIndirect(f, n);
            r.Freed? && Wf(r.fs) && Shrunk(f, r.fs, n) && Live(r.fs, n) && r.fs.inodes[n].addrs == f.inodes[n].addrs[12 := 0]
  {
    var s := f.inodes[n].addrs[12];
    assert InodeOk(f, n);
    if s != 0 {
      FreeEntriesSelf(f, n);
      var e := FreeEntries(f, s, 0).fs;
      hide FreeEntries;
      var g := DropIndirect(f, n).fs;
      assert e.used[s];
      DroppedWf(f, e, g, n, s);
    }
  }

  lemma DroppedWf(f: FileSys, e: Fs, g: Fs, n: nat, s: nat)
    requires Live(f, n) && s == f.inodes[n].addrs[12] && 0 < s < |f.owner| && f.owner[s] == Single(n)
    requires EntriesFreed(f, e, n, 256)
    requires g == SetAddr(e.(used := e.used[s := false], owner := e.owner[s := Unused], logged := g.logged), n, 12, 0)
    ensures Wf(g)
  {
    forall c | 0 <= c < |g.owner| ensures BlockOk(g, c) { assert BlockOk(f, c); }
    forall m | 0 <= m < |g.inodes| ensures InodeOk(g, m) {
      assert InodeOk(f, m);
      forall j | 0 <= j < 256 ensures Names(g, Entry(g, g.inodes[m].addrs[12], j), Indirect(m, j)) {
        assert Names(f, Entry(f, f.inodes[m].addrs[12], j), Indirect(m, j));
      }
    }
  }

  // ---- itrunc ------------------------------------------------------------------------------

  // Change inode n, without its block numbers, and save it.
  ghost function SetInode(f: Fs, n: nat, kind: nat, size: nat): Fs
    requires n < |f.inodes| == |f.saved|
  {
    Iupdate(f.(inodes := f.inodes[n := f.inodes[n].(kind := kind, size := size)]), n)
  }

  ghost predicate Empty(f: Fs, n: nat) { n < |f.inodes| && f.inodes[n].addrs == NoAddrs }

  lemma SetInodeWf(f: FileSys, n: nat, kind: nat)
    requires n < |f.inodes| && (kind == 0 ==> Empty(f, n))
    ensures Wf(SetInode(f, n, kind, 0))
  {
    var g := SetInode(f, n, kind, 0);
    forall c | 0 <= c < |g.owner| ensures BlockOk(g, c) { assert BlockOk(f, c); }
    forall m | 0 <= m < |g.inodes| ensures InodeOk(g, m) {
      assert InodeOk(f, m);
      forall j | 0 <= j < 256 ensures Names(g, Entry(g, g.inodes[m].addrs[12], j), Indirect(m, j)) {
        assert Names(f, Entry(f, f.inodes[m].addrs[12], j), Indirect(m, j));
      }
    }
  }

  // itrunc(ip)
  ghost function Itrunc(f: FileSys, n: nat): Freed
    requires Live(f, n)
  {
    DropDirectsOk(f, n, 0);
    var d := DropDirects(f, n, 0);
    if d.Panic? then Panic
    else
      var e := DropIndirect(d.fs, n);
      DropIndirectOk(d.fs, n);
      if e.Panic? then Panic else Freed(SetInode(e.fs, n, e.fs.inodes[n].kind, 0))
  }

  // Every block of inode n is free, no other has changed hands, and nothing else has changed but
  // the inode itself.
  ghost predicate Truncated(f: Fs, g: Fs, n: nat) {
    && g.sb == f.sb && |g.used| == |f.used| && |g.owner| == |f.owner| && g.blocks == f.blocks
    && n < |f.inodes| && |g.inodes| == |f.inodes| && |g.saved| == |f.saved| == |f.inodes|
    && g.inodes == f.inodes[n := g.inodes[n]] && g.saved == f.saved[n := g.inodes[n]]
    && g.inodes[n].addrs == NoAddrs && g.inodes[n].size == 0
    && (forall b :: 0 <= b < |f.owner| ==>
          g.owner[b] == if f.owner[b] != Loose && OwnedBy(f.owner[b], n) then Unused else f.owner[b])
  }

  lemma AllGone(f: Fs, g: FileSys, n: nat, b: nat)
    requires Shrunk(f, g, n) && Empty(g, n) && b < |f.owner|
    ensures !OwnedBy(g.owner[b], n) || g.owner[b] == Loose
  {
    assert BlockOk(g, b);
  }

  /** itrunc never meets "freeing free block"; it frees exactly the blocks of its inode. */
  lemma ItruncFrees(f: FileSys, n: nat)
    requires Live(f, n) && Settled(f)
    ensures var r := Itrunc(f, n); r.Freed? && Wf(r.fs) && Truncated(f, r.fs, n) && r.fs.inodes[n].kind == f.inodes[n].kind
  {
    hide BlockOk;
    hide InodeOk;
    hide DropDirects;
    hide DropIndirect;
    DropDirectsOk(f, n, 0);
    var d := DropDirects(f, n, 0).fs;
    DropIndirectOk(d, n);
    var e := DropIndirect(d, n).fs;
    ShrunkTrans(f, d, e, n);
    assert e.inodes[n].addrs == NoAddrs;
    SetInodeWf(e, n, e.inodes[n].kind);
    forall b | 0 <= b < |f.owner| ensures e.owner[b] == if f.owner[b] != Loose && OwnedBy(f.owner[b], n) then Unused else f.owner[b] {
      AllGone(f, e, n, b);
    }
  }

  // ---- iput --------------------------------------------------------------------------------

  // iput when `ref` references are left; the last one to an unlinked inode frees it.
  ghost function Iput(f: FileSys, n: nat, ref: nat): Freed
    requires Live(f, n)
  {
    if ref == 1 && f.inodes[n].nlink == 0 then
      var t := Itrunc(f, n);
      if t.Panic? || n >= |t.fs.inodes| || n >= |t.fs.saved| || |t.fs.inodes| != |t.fs.saved| then Panic
      else Freed(SetInode(t.fs, n, 0, t.fs.inodes[n].size))
    else Freed(f)
  }

  lemma IputFrees(f: FileSys, n: nat, ref: nat)
    requires Live(f, n) && Settled(f)
    ensures var r := Iput(f, n, ref); r.Freed? && Wf(r.fs)
    ensures var r := Iput(f, n, ref);
            if ref == 1 && f.inodes[n].nlink == 0 then Truncated(f, r.fs, n) && r.fs.inodes[n].kind == 0 else r.fs == f
  {
    hide BlockOk;
    hide InodeOk;
    hide Itrunc;
    ItruncFrees(f, n);
    if ref == 1 && f.inodes[n].nlink == 0 {
      SetInodeWf(Itrunc(f, n).fs, n, 0);
    }
  }

  // ---- ialloc ------------------------------------------------------------------------------

  // The first inode from n on that is free on the disk.
  ghost function FirstInode(f: Fs, n: nat): (r: nat)
    requires n <= |f.saved|
    ensures n <= r <= |f.saved| && (r < |f.saved| ==> f.saved[r].kind == 0)
    ensures forall m :: n <= m < r ==> f.saved[m].kind != 0
    decreases |f.saved| - n
  {
    if n == |f.saved| || f.saved[n].kind == 0 then n else FirstInode(f, n + 1)
  }

  // What iupdate has not written yet: nothing, between operations.
  ghost predicate Synced(f: Fs) { f.saved == f.inodes }

  datatype Ialloced = Ialloced(fs: Fs, inum: nat)

  // ialloc(dev, kind); inode 0 means that there is none.
  ghost function Ialloc(f: FileSys, kind: nat): Ialloced
    requires Synced(f) && kind != 0
  {
    var n := if |f.saved| == 0 then 0 else FirstInode(f, 1);
    if n == |f.saved| then Ialloced(f, 0)
    else
      var g := f.(inodes := f.inodes[n := Inode(kind, 0, 0, NoAddrs)]);
      Ialloced(Iupdate(g, n), n)
  }

  // A free inode has no blocks, so clearing it loses none.
  lemma IallocTakes(f: FileSys, kind: nat)
    requires Synced(f) && kind != 0
    ensures var r := Ialloc(f, kind); Wf(r.fs) && Synced(r.fs) && r.fs.owner == f.owner
    ensures var r := Ialloc(f, kind);
            if r.inum == 0 then r.fs == f && forall m :: 1 <= m < |f.inodes| ==> f.inodes[m].kind != 0
            else r.inum < |f.inodes| && f.inodes[r.inum].kind == 0 && r.fs.inodes == f.inodes[r.inum := Inode(kind, 0, 0, NoAddrs)]
  {
    var r := Ialloc(f, kind);
    if r.inum != 0 {
      assert InodeOk(f, r.inum);
      forall c | 0 <= c < |r.fs.owner| ensures BlockOk(r.fs, c) { assert BlockOk(f, c); }
      forall m | 0 <= m < |r.fs.inodes| ensures InodeOk(r.fs, m) {
        assert InodeOk(f, m);
        forall j | 0 <= j < 256 ensures Names(r.fs, Entry(r.fs, r.fs.inodes[m].addrs[12], j), Indirect(m, j)) {
          assert Names(f, Entry(f, f.inodes[m].addrs[12], j), Indirect(m, j));
        }
      }
    }
  }
}
