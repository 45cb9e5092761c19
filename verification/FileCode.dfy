/** fs.c and filewrite in their own form: a bitmap, cached blocks and inodes changed in place. */
module FileCode {
  import opened FileBlocks
  import opened FileSteps
  import opened FileMap
  import opened FileIo
  import opened FileTrunc
  import opened FileWrite

  class Volume {
    const sb: Super
    var used: seq<bool>
    var blocks: seq<Bytes>
    var inodes: seq<Inode>
    var saved: seq<Inode>
    var logged: set<nat>
    ghost var fs: Fs                // the same, with the owner of every block

    ghost predicate Valid()
      reads this
    {
      fs == Fs(sb, used, blocks, inodes, saved, logged, fs.owner)
    }

    constructor (fs: FileSys)
      ensures Valid() && this.fs == fs
    {
      sb, used, blocks, inodes, saved, logged := fs.sb, fs.used, fs.blocks, fs.inodes, fs.saved, fs.logged;
      this.fs := fs;
    }

    method LogWrite(b: nat)
      modifies this`logged
      ensures logged == old(logged) + {b}
    {
      logged := logged + {b};
    }

    // balloc: the first free block, marked and zeroed; 0 if the disk is full.
    method BallocBlock() returns (r: nat)
      requires Valid() && Wf(fs)
      modifies this
      ensures Valid() && Wf(fs) && r == Balloc(old(fs)).b && fs == Balloc(old(fs)).fs
    {
      hide BlockOk;
      hide InodeOk;
      var b := 0;
      while b < |used|
        invariant Valid() && fs == old(fs) && b % BPB == 0
        invariant b < |used| + BPB && FirstFree(used, if b < |used| then b else |used|) == FirstFree(used, 0)
      {
        var bi := 0;
        while bi < BPB && b + bi < |used|
          invariant Valid() && fs == old(fs) && 0 <= bi <= BPB && b + bi <= |used|
          invariant FirstFree(used, b + bi) == FirstFree(used, 0)
        {
          if !used[b + bi] {
            used := used[b + bi := true];
            LogWrite(BitmapBlock(sb, b + bi));
            blocks := blocks[b + bi := ZeroBlock()];
            LogWrite(b + bi);
            fs := Balloc(fs).fs;
            SameLog(old(fs).logged, BitmapBlock(sb, b + bi), b + bi);
            return b + bi;
          }
          bi := bi + 1;
        }
        b := b + BPB;
      }
      return 0;
    }

    lemma SameLog(s: set<nat>, x: nat, y: nat)
      ensures s + {x} + {y} == s + {x, y}
    {
    }

    // bfree; not `ok` where the source panics.
    method BfreeBlock(b: nat) returns (ok: bool)
      requires Valid() && b < |used| == |fs.owner|
      modifies this
      ensures Valid() && ok == Bfree(old(fs), b).Freed?
      ensures fs == if ok then Bfree(old(fs), b).fs else old(fs)
    {
      if !used[b] {
        return false;
      }
      ghost var f := fs;
      used := used[b := false];
      LogWrite(BitmapBlock(sb, b));
      fs := Bfree(f, b).fs;
      ok := true;
    }

    method SetBlockNumber(n: nat, i: nat, b: nat)
      requires n < |inodes| && i < |inodes[n].addrs|
      modifies this`inodes
      ensures inodes == old(inodes)[n := old(inodes)[n].(addrs := old(inodes)[n].addrs[i := b])]
    {
      inodes := inodes[n := inodes[n].(addrs := inodes[n].addrs[i := b])];
    }

    // bmap, the direct blocks
    method BmapLow(n: nat, bn: nat) returns (addr: nat)
      requires Valid() && Wf(fs) && Live(fs, n) && bn < 12
      modifies this
      ensures Valid() && Wf(fs) && FileMap.Mapped(fs, addr) == BmapDirect(old(fs), n, bn)
    {
      hide BlockOk;
      hide InodeOk;
      hide Grown;
      ghost var f := fs;
      BallocNames(f, n);
      addr := inodes[n].addrs[bn];
      if addr == 0 {
        addr := BallocBlock();
        if addr != 0 {
          SetBlockNumber(n, bn, addr);
          fs := BmapDirect(f, n, bn).fs;
        }
      }
    }

    // bmap, loading the indirect block
    method LoadIndirect(n: nat)
      requires Valid() && Wf(fs) && Live(fs, n)
      modifies this
      ensures Valid() && Wf(fs) && fs == WithSingle(old(fs), n)
    {
      hide BlockOk;
      hide InodeOk;
      hide Grown;
      ghost var f := fs;
      BallocNames(f, n);
      if inodes[n].addrs[12] == 0 {
        var addr := BallocBlock();
        if addr != 0 {
          SetBlockNumber(n, 12, addr);
          fs := WithSingle(f, n);
        }
      }
    }

    // bmap, an entry of the indirect block
    method BmapHigh(n: nat, j: nat) returns (addr: nat)
      requires Valid() && Wf(fs) && Live(fs, n) && j < 256
      modifies this
      ensures Valid() && Wf(fs) && FileMap.Mapped(fs, addr) == BmapIndirect(old(fs), n, j)
    {
      hide BlockOk;
      hide InodeOk;
      hide Grown;
      hide WithSingle;
      ghost var f := fs;
      WithSingleGrows(f, n);
      LoadIndirect(n);
      ghost var g := fs;
      var s := inodes[n].addrs[12];
      if s == 0 {
        return 0;
      }
      SingleThere(g, n);
      addr := Word(blocks[s], j);
      if addr == 0 {
        BallocNames(g, n);
        addr := BallocBlock();
        if addr != 0 {
          blocks := blocks[s := PutWord(blocks[s], j, addr)];
          LogWrite(s);
          fs := BmapIndirect(f, n, j).fs;
        }
      }
    }

    lemma SingleThere(f: FileSys, n: nat)
      requires Live(f, n) && f.inodes[n].addrs[12] != 0
      ensures f.inodes[n].addrs[12] < |f.blocks| && |f.blocks[f.inodes[n].addrs[12]]| == BSIZE
    {
      assert InodeOk(f, n) && BlockOk(f, f.inodes[n].addrs[12]);
    }

    /** bmap for bn below MAXFILE; the source panics beyond. */
    method BmapBlock(n: nat, bn: nat) returns (addr: nat)
      requires Valid() && Wf(fs) && Live(fs, n) && bn < MAXFILE
      modifies this
      ensures Valid() && Wf(fs) && FileMap.Mapped(fs, addr) == Bmap(old(fs), n, bn)
    {
      if bn < NDIRECT {
        addr := BmapLow(n, bn);
      } else {
        addr := BmapHigh(n, bn - NDIRECT);
      }
    }

    method SaveInode(n: nat)
      requires Valid() && n < |inodes| == |saved|
      modifies this
      ensures Valid() && fs == Iupdate(old(fs), n)
    {
      ghost var f := fs;
      saved := saved[n := inodes[n]];
      LogWrite(InodeBlock(sb, n));
      fs := Iupdate(f, n);
    }

    // ---- itrunc ----------------------------------------------------------------------------

    method FreeDirect(n: nat, i: nat) returns (ok: bool)
      requires Valid() && Wf(fs) && Live(fs, n) && i < 12 && inodes[n].addrs[i] != 0
      modifies this
      ensures Valid() && ok == DropDirect(old(fs), n, i).Freed?
      ensures ok ==> fs == DropDirect(old(fs), n, i).fs
    {
      hide BlockOk;
      ghost var f := fs;
      assert InodeOk(f, n) && Names(f, f.inodes[n].addrs[i], Direct(n, i));
      ok := BfreeBlock(inodes[n].addrs[i]);
      if ok {
        SetBlockNumber(n, i, 0);
        fs := DropDirect(f, n, i).fs;
      }
    }

    // The first loop of itrunc.
    method FreeDirectBlocks(n: nat) returns (ok: bool)
      requires Valid() && Wf(fs) && Live(fs, n)
      modifies this
      ensures Valid() && ok == DropDirects(old(fs), n, 0).Freed?
      ensures ok ==> fs == DropDirects(old(fs), n, 0).fs
    {
      hide BlockOk;
      hide InodeOk;
      hide DropDirect;
      var i := 0;
      while i < 12
        invariant 0 <= i <= 12 && Valid() && Wf(fs) && Live(fs, n)
        invariant DropDirects(fs, n, i) == DropDirects(old(fs), n, 0)
      {
        if inodes[n].addrs[i] != 0 {
          DropDirectOk(fs, n, i);
          ok := FreeDirect(n, i);
          if !ok {
            return;
          }
        }
        i := i + 1;
      }
      ok := true;
    }

    // The second loop, over the entries of indirect block s.
    method FreeEntryBlocks(s: nat) returns (ok: bool)
      requires Valid() && |used| == |fs.owner| && 0 < s < |blocks| && |blocks[s]| == BSIZE
      modifies this
      ensures Valid() && ok == FreeEntries(old(fs), s, 0).Freed?
      ensures ok ==> fs == FreeEntries(old(fs), s, 0).fs
    {
      hide FreeEntries;
      hide Entry;
      ghost var f := fs;
      var j := 0;
      while j < NINDIRECT
        invariant 0 <= j <= 256 && Valid() && blocks == f.blocks && |used| == |fs.owner|
        invariant FreeEntries(fs, s, j) == FreeEntries(f, s, 0)
      {
        FreeEntriesTurn(fs, s, j);
        var a := Word(blocks[s], j);
        if a != 0 {
          if a >= |used| {
            return false;
          }
          ok := BfreeBlock(a);
          if !ok {
            return;
          }
        }
        j := j + 1;
      }
      FreeEntriesEnd(fs, s);
      ok := true;
    }

    lemma FreeEntriesTurn(f: Fs, s: nat, j: nat)
      requires |f.used| == |f.owner| && j < 256 && s < |f.blocks| && |f.blocks[s]| == BSIZE && s > 0
      ensures var a := Word(f.blocks[s], j);
              && (a == 0 ==> FreeEntries(f, s, j) == FreeEntries(f, s, j + 1))
              && (a != 0 && a >= |f.used| ==> FreeEntries(f, s, j).Panic?)
              && (a != 0 && a < |f.used| ==>
                    FreeEntries(f, s, j) == if Bfree(f, a).Panic? then Panic else FreeEntries(Bfree(f, a).fs, s, j + 1))
    {
    }

    lemma FreeEntriesEnd(f: Fs, s: nat)
      requires |f.used| == |f.owner|
      ensures FreeEntries(f, s, 256) == Freed(f)
    {
    }

    // The indirect part of itrunc.
    method FreeIndirectBlocks(n: nat) returns (ok: bool)
      requires Valid() && Wf(fs) && Live(fs, n)
      modifies this
      ensures Valid() && ok == DropIndirect(old(fs), n).Freed?
      ensures ok ==> fs == DropIndirect(old(fs), n).fs
    {
      hide BlockOk;
      hide InodeOk;
      hide FreeEntries;
      ghost var f := fs;
      var s := inodes[n].addrs[12];
      if s == 0 {
        return true;
      }
      SingleThere(f, n);
      FreeEntriesSelf(f, n);
      ok := FreeEntryBlocks(s);
      if ok {
        ok := BfreeBlock(s);
        if ok {
          SetBlockNumber(n, 12, 0);
          fs := DropIndirect(f, n).fs;
        }
      }
    }

    method SetKindAndSize(n: nat, kind: nat, size: nat)
      requires Valid() && n < |inodes| == |saved|
      modifies this
      ensures Valid() && fs == SetInode(old(fs), n, kind, size)
    {
      inodes := inodes[n := inodes[n].(kind := kind, size := size)];
      fs := fs.(inodes := inodes);
      SaveInode(n);
    }

    /** itrunc; `ok` is false where bfree panics. */
    method TruncateInode(n: nat) returns (ok: bool)
      requires Valid() && Wf(fs) && Live(fs, n)
      modifies this
      ensures Valid() && ok == Itrunc(old(fs), n).Freed?
      ensures ok ==> fs == Itrunc(old(fs), n).fs
    {
      hide BlockOk;
      hide InodeOk;
      hide DropDirects;
      hide DropIndirect;
      ghost var f := fs;
      DropDirectsOk(f, n, 0);
      ok := FreeDirectBlocks(n);
      if ok {
        DropIndirectOk(fs, n);
        ok := FreeIndirectBlocks(n);
        if ok {
          SetKindAndSize(n, inodes[n].kind, 0);
        }
      }
    }

    /** iput, when `ref` references are left. */
    method PutInode(n: nat, ref: nat) returns (ok: bool)
      requires Valid() && Wf(fs) && Settled(fs) && Live(fs, n)
      modifies this
      ensures Valid() && ok == Iput(old(fs), n, ref).Freed?
      ensures ok ==> fs == Iput(old(fs), n, ref).fs
    {
      hide BlockOk;
      hide InodeOk;
      hide Itrunc;
      ok := true;
      if ref == 1 && inodes[n].nlink == 0 {
        ItruncFrees(fs, n);
        ok := TruncateInode(n);
        if ok {
          SetKindAndSize(n, 0, inodes[n].size);
        }
      }
    }

    // ialloc; 0 if there is no free inode.
    method AllocInode(kind: nat) returns (inum: nat)
      requires Valid() && Wf(fs) && Synced(fs) && kind != 0
      modifies this
      ensures Valid() && Ialloced(fs, inum) == Ialloc(old(fs), kind)
    {
      hide BlockOk;
      hide InodeOk;
      inum := 1;
      while inum < |saved|
        invariant Valid() && fs == old(fs) && 1 <= inum && (|saved| > 0 ==> inum <= |saved|)
        invariant |saved| > 0 ==> FirstInode(fs, inum) == FirstInode(fs, 1)
      {
        if saved[inum].kind == 0 {
          inodes := inodes[inum := Inode(kind, 0, 0, NoAddrs)];
          fs := fs.(inodes := inodes);
          SaveInode(inum);
          return;
        }
        inum := inum + 1;
      }
      inum := 0;
    }

    // ---- readi and writei ------------------------------------------------------------------

    /** readi, when every copyout succeeds. */
    method ReadFile(n: nat, off: nat, cnt: nat) returns (data: Bytes)
      requires Valid() && Wf(fs) && Live(fs, n)
      modifies this
      ensures Valid() && Wf(fs) && Read(fs, data) == Readi(old(fs), n, off, cnt)
    {
      hide BlockOk;
      hide Bmap;
      hide Grown;
      hide ReadLoop;
      data := [];
      assert InodeOk(fs, n);
      if off > inodes[n].size || (off + cnt) % 0x1_0000_0000 < off {
        return;
      }
      var end := if off + cnt > inodes[n].size then inodes[n].size else off + cnt;
      data := ReadBytes(n, off, end - off);
    }

    // The loop of readi.
    method ReadBytes(n: nat, off: nat, cnt: nat) returns (data: Bytes)
      requires Valid() && Wf(fs) && Live(fs, n) && off + cnt <= MAXBYTES
      modifies this
      ensures Valid() && Wf(fs) && Read(fs, data) == ReadLoop(old(fs), n, off, cnt)
    {
      hide BlockOk;
      hide InodeOk;
      hide Bmap;
      hide Grown;
      hide ReadLoop;
      data := [];
      ghost var all := ReadLoop(fs, n, off, cnt);
      var o: nat, left: nat := off, cnt;
      while left > 0
        invariant 0 <= left && o + left <= MAXBYTES && Valid() && Wf(fs) && Live(fs, n)
        invariant all.fs == ReadLoop(fs, n, o, left).fs && all.data == data + ReadLoop(fs, n, o, left).data
      {
        BmapGrows(fs, n, o / BSIZE);
        ReadLoopTurn(fs, n, o, left);
        var addr := BmapBlock(n, o / BSIZE);
        if addr == 0 {
          return;
        }
        AddrHolds(fs, n, o / BSIZE);
        var m := Min(left, BSIZE - o % BSIZE);
        var piece := blocks[addr][o % BSIZE..o % BSIZE + m];
        Associative(data, piece, ReadLoop(fs, n, o + m, left - m).data);
        data, o, left := data + piece, o + m, left - m;
      }
      ReadLoopTurn(fs, n, o, 0);
    }

    lemma ReadLoopTurn(f: FileSys, n: nat, off: nat, cnt: nat)
      requires Live(f, n) && off + cnt <= MAXBYTES
      ensures cnt == 0 ==> ReadLoop(f, n, off, cnt) == Read(f, [])
      ensures cnt > 0 ==>
                var r, m := Bmap(f, n, off / BSIZE), Min(cnt, BSIZE - off % BSIZE);
                && Live(r.fs, n)
                && (r.addr == 0 ==> ReadLoop(f, n, off, cnt) == Read(r.fs, []))
                && (r.addr != 0 ==>
                      && r.addr < |r.fs.blocks| && |r.fs.blocks[r.addr]| == BSIZE
                      && (var rest := ReadLoop(r.fs, n, off + m, cnt - m);
                          ReadLoop(f, n, off, cnt) == Read(rest.fs, r.fs.blocks[r.addr][off % BSIZE..off % BSIZE + m] + rest.data)))
    {
      hide BlockOk;
      hide InodeOk;
      hide Bmap;
      if cnt > 0 {
        BmapGrows(f, n, off / BSIZE);
        if Bmap(f, n, off / BSIZE).addr != 0 { AddrHolds(Bmap(f, n, off / BSIZE).fs, n, off / BSIZE); }
      }
    }

    lemma Associative(a: Bytes, b: Bytes, c: Bytes)
      ensures a + b + c == a + (b + c)
    {
    }

    // One turn of writei's loop: bmap, copyin, log_write.
    method WritePiece(n: nat, off: nat, piece: Bytes) returns (ok: bool)
      requires Valid() && Wf(fs) && Live(fs, n) && off + |piece| <= MAXBYTES && off % BSIZE + |piece| <= BSIZE && piece != []
      modifies this
      ensures Valid() && ok == (Bmap(old(fs), n, off / BSIZE).addr != 0)
      ensures fs == if ok then WriteChunk(old(fs), n, off, piece) else Bmap(old(fs), n, off / BSIZE).fs
    {
      hide BlockOk;
      hide InodeOk;
      hide Bmap;
      hide Grown;
      ghost var f := fs;
      BmapGrows(fs, n, off / BSIZE);
      var addr := BmapBlock(n, off / BSIZE);
      ok := addr != 0;
      if ok {
        AddrHolds(fs, n, off / BSIZE);
        blocks := blocks[addr := Patch(blocks[addr], off % BSIZE, piece)];
        LogWrite(addr);
        fs := WriteChunk(f, n, off, piece);
      }
    }

    // The loop of writei.
    method WriteBytes(n: nat, off: nat, src: Bytes) returns (tot: nat)
      requires Valid() && Wf(fs) && Live(fs, n) && off + |src| <= MAXBYTES
      modifies this
      ensures Valid() && Wf(fs) && Written(fs, tot) == WriteLoop(old(fs), n, off, src)
    {
      hide BlockOk;
      hide InodeOk;
      hide Bmap;
      hide WriteChunk;
      hide Grown;
      hide WriteLoop;
      ghost var all := WriteLoop(fs, n, off, src);
      var o: nat, rest: Bytes := off, src;
      tot := 0;
      while rest != []
        invariant tot + |rest| == |src| && o + |rest| <= MAXBYTES && Valid() && Wf(fs) && Live(fs, n)
        invariant all.fs == WriteLoop(fs, n, o, rest).fs && all.tot == tot + WriteLoop(fs, n, o, rest).tot
        decreases |rest|
      {
        WriteLoopTurn(fs, n, o, rest);
        var m := Min(|rest|, BSIZE - o % BSIZE);
        var ok := WritePiece(n, o, rest[..m]);
        if !ok {
          return;
        }
        tot, o, rest := tot + m, o + m, rest[m..];
      }
      WriteLoopEnd(fs, n, o);
    }

    lemma WriteLoopTurn(f: FileSys, n: nat, off: nat, src: Bytes)
      requires Live(f, n) && off + |src| <= MAXBYTES && src != []
      ensures var m := Min(|src|, BSIZE - off % BSIZE);
              && Live(Bmap(f, n, off / BSIZE).fs, n)
              && (Bmap(f, n, off / BSIZE).addr == 0 ==> WriteLoop(f, n, off, src) == Written(Bmap(f, n, off / BSIZE).fs, 0))
              && (Bmap(f, n, off / BSIZE).addr != 0 ==>
                    && Live(WriteChunk(f, n, off, src[..m]), n)
                    && (var rest := WriteLoop(WriteChunk(f, n, off, src[..m]), n, off + m, src[m..]);
                        WriteLoop(f, n, off, src) == Written(rest.fs, m + rest.tot)))
    {
      hide BlockOk;
      hide InodeOk;
      hide Bmap;
      hide WriteChunk;
      hide Grown;
      BmapGrows(f, n, off / BSIZE);
    }

    lemma WriteLoopEnd(f: FileSys, n: nat, off: nat)
      requires Live(f, n) && off <= MAXBYTES
      ensures WriteLoop(f, n, off, []) == Written(f, 0)
    {
      hide BlockOk;
      hide InodeOk;
      hide Bmap;
      hide WriteChunk;
      hide Grown;
    }

    /** writei, when every copyin succeeds. */
    method WriteFile(n: nat, off: nat, src: Bytes) returns (r: int)
      requires Valid() && Wf(fs) && Live(fs, n)
      modifies this
      ensures Valid() && Wf(fs) && Wrote(fs, r) == Writei(old(fs), n, off, src)
    {
      hide BlockOk;
      hide InodeOk;
      hide WriteLoop;
      if off > inodes[n].size || (off + |src|) % 0x1_0000_0000 < off {
        return -1;
      }
      if off + |src| > MAXFILE * BSIZE {
        return -1;
      }
      var tot := WriteBytes(n, off, src);
      EndWrite(n, off + tot);
      return tot;
    }

    method EndWrite(n: nat, end: nat)
      requires Valid() && Wf(fs) && Live(fs, n) && end <= MAXBYTES
      modifies this
      ensures Valid() && fs == Finish(old(fs), n, end)
    {
      hide BlockOk;
      hide InodeOk;
      ghost var f := fs;
      if end > inodes[n].size {
        inodes := inodes[n := inodes[n].(size := end)];
      }
      fs := fs.(inodes := inodes);
      assert f.inodes[n := f.inodes[n].(size := f.inodes[n].size)] == f.inodes;
      SaveInode(n);
    }

    /** filewrite on an inode, from file offset `off`: true if all of src was written. */
    method WriteInChunks(n: nat, off: nat, src: Bytes) returns (ok: bool, moved: nat)
      requires Valid() && Wf(fs) && Live(fs, n)
      modifies this
      ensures Valid() && fs == Filewrite(old(fs), n, off, src).fs && moved == Filewrite(old(fs), n, off, src).done
      ensures ok == (Filewrite(old(fs), n, off, src).done == |src|)
    {
      hide BlockOk;
      hide InodeOk;
      hide Writei;
      ghost var all := Filewrite(fs, n, off, src);
      var o: nat, rest: Bytes := off, src;
      moved := 0;
      while rest != []
        invariant moved + |rest| == |src| && Valid() && Wf(fs) && Live(fs, n)
        invariant all.fs == Filewrite(fs, n, o, rest).fs && all.done == moved + Filewrite(fs, n, o, rest).done
        decreases |rest|
      {
        var n1 := Min(|rest|, MAXCHUNK);
        fs := BeginOp(fs);
        logged := {};
        WriteiLive(fs, n, o, rest[..n1]);
        var r := WriteFile(n, o, rest[..n1]);
        if 0 < r <= n1 {
          o, moved := o + r, moved + r;
        }
        if r != n1 {
          return false, moved;
        }
        rest := rest[n1..];
      }
      ok := true;
    }
  }
}
