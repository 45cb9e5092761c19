/** Everything a file operation changes on the disk goes through the log: the condition under which
    the log makes the operation atomic. */
module FileCover {
  import opened FileBlocks
  import opened FileSteps
  import opened FileMap
  import opened FileIo
  import opened FileTrunc
  import opened FileRuns

  /** From f to g every block whose contents, bitmap bit or saved inodes changed has been passed to
      log_write, and so has every block that was allocated. */
  ghost predicate Covered(f: Fs, g: Fs) {
    && g.sb == f.sb && |g.blocks| == |f.blocks| && |g.used| == |f.used| && |g.saved| == |f.saved| && f.logged <= g.logged
    && (forall b :: 0 <= b < |f.blocks| && g.blocks[b] != f.blocks[b] ==> b in g.logged)
    && (forall b :: 0 <= b < |f.used| && g.used[b] != f.used[b] ==> BitmapBlock(f.sb, b) in g.logged)
    && (forall b :: 0 <= b < |f.used| && g.used[b] && !f.used[b] ==> b in g.logged)
    && (forall n :: 0 <= n < |f.saved| && g.saved[n] != f.saved[n] ==> InodeBlock(f.sb, n) in g.logged)
  }

  lemma CoveredTrans(f: Fs, g: Fs, h: Fs)
    requires Covered(f, g) && Covered(g, h)
    ensures Covered(f, h)
  {
  }

  lemma CoveredSame(f: Fs, g: Fs)
    requires g == f.(inodes := g.inodes, owner := g.owner)
    ensures Covered(f, g)
  {
  }

  lemma BallocCovered(f: FileSys)
    ensures Covered(f, Balloc(f).fs)
  {
    hide BlockOk;
    hide InodeOk;
  }

  lemma BmapDirectCovered(f: FileSys, n: nat, bn: nat)
    requires Live(f, n) && bn < 12
    ensures Covered(f, BmapDirect(f, n, bn).fs)
  {
    hide BlockOk;
    hide InodeOk;
    hide Grown;
    BallocNames(f, n);
    BallocCovered(f);
    var r := Balloc(f);
    if f.inodes[n].addrs[bn] == 0 && r.b != 0 {
      NameDirectGrows(r.fs, n, bn, r.b);
      CoveredSame(r.fs, NameDirect(r.fs, n, bn, r.b));
      CoveredTrans(f, r.fs, NameDirect(r.fs, n, bn, r.b));
    }
  }

  lemma WithSingleCovered(f: FileSys, n: nat)
    requires Live(f, n)
    ensures Covered(f, WithSingle(f, n))
  {
    hide BlockOk;
    hide InodeOk;
    hide Grown;
    BallocNames(f, n);
    BallocCovered(f);
    var r := Balloc(f);
    if f.inodes[n].addrs[12] == 0 && r.b != 0 {
      NameSingleGrows(r.fs, n, r.b);
      CoveredSame(r.fs, NameSingle(r.fs, n, r.b));
      CoveredTrans(f, r.fs, NameSingle(r.fs, n, r.b));
    }
  }

  lemma BmapIndirectCovered(f: FileSys, n: nat, j: nat)
    requires Live(f, n) && j < 256
    ensures Covered(f, BmapIndirect(f, n, j).fs)
  {
    hide BlockOk;
    hide InodeOk;
    hide Grown;
    hide WithSingle;
    WithSingleGrows(f, n);
    WithSingleCovered(f, n);
    var g := WithSingle(f, n);
    BallocNames(g, n);
    BallocCovered(g);
    var r := Balloc(g);
    CoveredTrans(f, g, r.fs);
    var s := g.inodes[n].addrs[12];
    if s != 0 && Entry(g, s, j) == 0 && r.b != 0 {
      NameEntryGrows(r.fs, n, j, r.b);
      CoveredTrans(f, r.fs, NameEntry(r.fs, n, j, r.b));
    }
  }

  lemma BmapCovered(f: FileSys, n: nat, bn: nat)
    requires Live(f, n) && bn < MAXFILE
    ensures Covered(f, Bmap(f, n, bn).fs)
  {
    hide Wf;
    if bn < 12 { BmapDirectCovered(f, n, bn); } else { BmapIndirectCovered(f, n, bn - 12); }
  }

  lemma ChunkCovered(f: FileSys, n: nat, off: nat, data: Bytes)
    requires Live(f, n) && off + |data| <= MAXBYTES && off % BSIZE + |data| <= BSIZE && data != [] && Bmap(f, n, off / BSIZE).addr != 0
    ensures Covered(f, WriteChunk(f, n, off, data))
  {
    hide Wf;
    hide Bmap;
    var r := Bmap(f, n, off / BSIZE);
    BmapGrows(f, n, off / BSIZE);
    BmapCovered(f, n, off / BSIZE);
    AddrHolds(r.fs, n, off / BSIZE);
    CoveredTrans(f, r.fs, WriteChunk(f, n, off, data));
  }

  lemma {:induction false} LoopCovered(f: FileSys, n: nat, off: nat, src: Bytes)
    requires Live(f, n) && off + |src| <= MAXBYTES
    ensures Covered(f, WriteLoop(f, n, off, src).fs)
    decreases |src|
  {
    hide Wf;
    hide Bmap;
    hide WriteChunk;
    if src == [] {
      CoveredSame(f, f);
    } else {
      BmapCovered(f, n, off / BSIZE);
      if Bmap(f, n, off / BSIZE).addr != 0 {
        var m := Min(|src|, BSIZE - off % BSIZE);
        var g := WriteChunk(f, n, off, src[..m]);
        ChunkCovered(f, n, off, src[..m]);
        LoopCovered(g, n, off + m, src[m..]);
        CoveredTrans(f, g, WriteLoop(g, n, off + m, src[m..]).fs);
      }
    }
  }

  lemma FinishCovered(f: FileSys, n: nat, end: nat)
    requires Live(f, n) && end <= MAXBYTES
    ensures Covered(f, Finish(f, n, end))
  {
  }

  lemma WriteiCovered(f: FileSys, n: nat, off: nat, src: Bytes)
    requires Live(f, n) && off < 0x1_0000_0000 && |src| < 0x1_0000_0000
    ensures Covered(f, Writei(f, n, off, src).fs)
  {
    hide Wf;
    hide WriteLoop;
    WriteiShape(f, n, off, src);
    CoveredSame(f, f);
    if Writei(f, n, off, src).ret != -1 {
      var w := WriteLoop(f, n, off, src);
      LoopCovered(f, n, off, src);
      FinishCovered(w.fs, n, off + w.tot);
      CoveredTrans(f, w.fs, Finish(w.fs, n, off + w.tot));
    }
  }

  // ---- truncation --------------------------------------------------------------------------

  lemma DropDirectCovered(f: FileSys, n: nat, i: nat)
    requires Live(f, n) && i < 12 && f.inodes[n].addrs[i] != 0
    ensures DropDirect(f, n, i).Freed? ==> Covered(f, DropDirect(f, n, i).fs)
  {
    hide BlockOk;
    assert InodeOk(f, n);
  }

  lemma {:induction false} DropDirectsCovered(f: FileSys, n: nat, i: nat)
    requires Live(f, n) && i <= 12
    ensures DropDirects(f, n, i).Freed? ==> Covered(f, DropDirects(f, n, i).fs)
    decreases 12 - i
  {
    hide BlockOk;
    hide InodeOk;
    hide DropDirect;
    if i == 12 {
      CoveredSame(f, f);
    } else if f.inodes[n].addrs[i] == 0 {
      DropDirectsCovered(f, n, i + 1);
    } else {
      DropDirectOk(f, n, i);
      DropDirectCovered(f, n, i);
      var g := DropDirect(f, n, i).fs;
      DropDirectsCovered(g, n, i + 1);
      if DropDirects(g, n, i + 1).Freed? { CoveredTrans(f, g, DropDirects(g, n, i + 1).fs); }
    }
  }

  lemma {:induction false} FreeEntriesCovered(f: Fs, s: nat, j: nat)
    requires |f.used| == |f.owner| && j <= 256
    ensures FreeEntries(f, s, j).Freed? ==> Covered(f, FreeEntries(f, s, j).fs)
    decreases 256 - j
  {
    if j == 256 {
      CoveredSame(f, f);
    } else {
      var e := Entry(f, s, j);
      if e == 0 {
        FreeEntriesCovered(f, s, j + 1);
      } else if e < |f.used| && f.used[e] {
        var g := Bfree(f, e).fs;
        FreeEntriesCovered(g, s, j + 1);
        if FreeEntries(g, s, j + 1).Freed? { CoveredTrans(f, g, FreeEntries(g, s, j + 1).fs); }
      }
    }
  }

  lemma DropIndirectCovered(f: FileSys, n: nat)
    requires Live(f, n)
    ensures DropIndirect(f, n).Freed? ==> Covered(f, DropIndirect(f, n).fs)
  {
    hide BlockOk;
    hide InodeOk;
    hide FreeEntries;
    var s := f.inodes[n].addrs[12];
    CoveredSame(f, f);
    if s != 0 {
      FreeEntriesSelf(f, n);
      FreeEntriesCovered(f, s, 0);
      var e := FreeEntries(f, s, 0).fs;
      if DropIndirect(f, n).Freed? { CoveredTrans(f, e, DropIndirect(f, n).fs); }
    }
  }

  lemma ItruncCovered(f: FileSys, n: nat)
    requires Live(f, n) && Settled(f)
    ensures Itrunc(f, n).Freed? && Covered(f, Itrunc(f, n).fs)
  {
    hide BlockOk;
    hide InodeOk;
    hide DropDirects;
    hide DropIndirect;
    ItruncFrees(f, n);
    DropDirectsOk(f, n, 0);
    DropDirectsCovered(f, n, 0);
    var d := DropDirects(f, n, 0).fs;
    DropIndirectOk(d, n);
    DropIndirectCovered(d, n);
    var e := DropIndirect(d, n).fs;
    CoveredTrans(f, d, e);
    CoveredTrans(f, e, Itrunc(f, n).fs);
  }

  /** Every file operation logs all it changes. */
  lemma EveryChangeIsLogged(f: FileSys, op: Op)
    requires Inv(f) && Enabled(f, op)
    ensures Do(f, op).Freed? && Covered(f, Do(f, op).fs)
  {
    hide BlockOk;
    hide InodeOk;
    hide NoHoles;
    hide Itrunc;
    hide Writei;
    hide Readi;
    CoveredSame(f, f);
    match op
    case Create(kind) =>
    case Link(n, nlink) =>
    case Write(n, off, src) => WriteiCovered(f, n, off, src);
    case ReadFile(n, off, cnt) => ReadiReturns(f, n, off, cnt);
    case Trunc(n) => ItruncCovered(f, n);
    case Put(n, ref) =>
      IputFrees(f, n, ref);
      if ref == 1 && f.inodes[n].nlink == 0 {
        ItruncFrees(f, n);
        ItruncCovered(f, n);
        CoveredTrans(f, Itrunc(f, n).fs, Iput(f, n, ref).fs);
      }
  }
}
