/** readi and writei: a file as a sequence of bytes. */
module FileIo {
  import opened FileBlocks
  import opened FileSteps
  import opened FileMap

  // ---- one block ---------------------------------------------------------------------------

  function Patch(b: Bytes, o: nat, data: Bytes): (b': Bytes)
    requires o + |data| <= |b|
    ensures |b'| == |b|
    ensures forall k :: 0 <= k < |b| ==> b'[k] == if o <= k < o + |data| then data[k - o] else b[k]
  {
    b[..o] + data + b[o + |data|..]
  }

  // Copy into the cached block, and log_write.
  ghost function PatchBlock(f: Fs, b: nat, o: nat, data: Bytes): Fs
    requires b < |f.blocks| && o + |data| <= |f.blocks[b]|
  {
    f.(blocks := f.blocks[b := Patch(f.blocks[b], o, data)], logged := f.logged + {b})
  }

  // Block b holds block bn of file n.
  ghost predicate Holds(f: Fs, n: nat, bn: nat, b: nat) {
    n < |f.inodes| && bn < MAXFILE && 0 < b < |f.blocks| && |f.blocks[b]| == BSIZE && Addr(f, n, bn) == b
  }

  lemma PatchEntry(f: FileSys, n: nat, bn: nat, b: nat, o: nat, data: Bytes, m: nat, j: nat)
    requires Holds(f, n, bn, b) && o + |data| <= BSIZE && m < |f.inodes| && |f.inodes[m].addrs| == 13
    ensures Entry(PatchBlock(f, b, o, data), f.inodes[m].addrs[12], j) == Entry(f, f.inodes[m].addrs[12], j)
  {
    AddrOwned(f, n, bn);
    assert InodeOk(f, m);
  }

  lemma PatchBlockWf(f: FileSys, n: nat, bn: nat, b: nat, o: nat, data: Bytes)
    requires Holds(f, n, bn, b) && o + |data| <= BSIZE
    ensures Wf(PatchBlock(f, b, o, data))
  {
    var g := PatchBlock(f, b, o, data);
    forall c | 0 <= c < |g.owner| ensures BlockOk(g, c) {
      assert BlockOk(f, c);
      if g.owner[c].Indirect? {
        assert InodeOk(f, g.owner[c].inode);
        PatchEntry(f, n, bn, b, o, data, g.owner[c].inode, g.owner[c].j);
      }
    }
    forall m | 0 <= m < |g.inodes| ensures InodeOk(g, m) {
      assert InodeOk(f, m);
      forall j | 0 <= j < 256 ensures Names(g, Entry(g, g.inodes[m].addrs[12], j), Indirect(m, j)) {
        assert Names(f, Entry(f, f.inodes[m].addrs[12], j), Indirect(m, j));
        PatchEntry(f, n, bn, b, o, data, m, j);
      }
    }
  }

  lemma PatchAddr(f: FileSys, n: nat, bn: nat, b: nat, o: nat, data: Bytes, m: nat, k: nat)
    requires Holds(f, n, bn, b) && o + |data| <= BSIZE && m < |f.inodes| && k < MAXFILE
    ensures Addr(PatchBlock(f, b, o, data), m, k) == Addr(f, m, k)
    ensures Addr(f, m, k) == b ==> m == n && k == bn
  {
    assert InodeOk(f, m);
    if k >= 12 { PatchEntry(f, n, bn, b, o, data, m, k - 12); }
    AddrOwned(f, n, bn);
    if Addr(f, m, k) == b { AddrOwned(f, m, k); }
  }

  // Only file n sees the new bytes, and only at their place.
  lemma PatchByte(f: FileSys, n: nat, bn: nat, b: nat, o: nat, data: Bytes, m: nat, k: nat)
    requires Holds(f, n, bn, b) && o + |data| <= BSIZE && m < |f.inodes| && k < MAXBYTES
    ensures ByteAt(PatchBlock(f, b, o, data), m, k)
            == if m == n && bn * BSIZE + o <= k < bn * BSIZE + o + |data| then data[k - bn * BSIZE - o] else ByteAt(f, m, k)
  {
    hide Wf;
    PatchAddr(f, n, bn, b, o, data, m, k / BSIZE);
    hide Addr;
    assert k == k / BSIZE * BSIZE + k % BSIZE;
  }

  // ---- writei ------------------------------------------------------------------------------

  function Min(a: nat, b: nat): nat { if a < b then a else b }

  datatype Written = Written(fs: FileSys, tot: nat)

  lemma AddrHolds(f: FileSys, n: nat, bn: nat)
    requires n < |f.inodes| && bn < MAXFILE && Addr(f, n, bn) != 0
    ensures Holds(f, n, bn, Addr(f, n, bn))
  {
    AddrOwned(f, n, bn);
    assert BlockOk(f, Addr(f, n, bn));
  }

  // One turn of writei's loop that finds a block: bmap, copy, log_write.
  ghost function WriteChunk(f: FileSys, n: nat, off: nat, data: Bytes): (g: FileSys)
    requires Live(f, n) && off + |data| <= MAXBYTES && off % BSIZE + |data| <= BSIZE && data != [] && Bmap(f, n, off / BSIZE).addr != 0
    ensures Live(g, n)
  {
    var r := Bmap(f, n, off / BSIZE);
    BmapGrows(f, n, off / BSIZE);
    AddrHolds(r.fs, n, off / BSIZE);
    PatchBlockWf(r.fs, n, off / BSIZE, r.addr, off % BSIZE, data);
    PatchBlock(r.fs, r.addr, off % BSIZE, data)
  }

  // The loop of writei.
  ghost function WriteLoop(f: FileSys, n: nat, off: nat, src: Bytes): (w: Written)
    requires Live(f, n) && off + |src| <= MAXBYTES
    ensures Live(w.fs, n) && w.tot <= |src|
    decreases |src|
  {
    BmapGrows(f, n, if off < MAXBYTES then off / BSIZE else 0);
    if src == [] then Written(f, 0)
    else if Bmap(f, n, off / BSIZE).addr == 0 then Written(Bmap(f, n, off / BSIZE).fs, 0)
    else
      var m := Min(|src|, BSIZE - off % BSIZE);
      var rest := WriteLoop(WriteChunk(f, n, off, src[..m]), n, off + m, src[m..]);
      Written(rest.fs, m + rest.tot)
  }

  // Bytes off to off + |data| of file n are data; every other byte of every file is as before.
  ghost predicate Overwritten(f: Fs, g: Fs, n: nat, off: nat, data: Bytes) {
    forall m, k :: 0 <= m < |f.inodes| && 0 <= k < MAXBYTES ==>
      ByteAt(g, m, k) == if m == n && off <= k < off + |data| then data[k - off] else ByteAt(f, m, k)
  }

  // The blocks behind those bytes are there, and all that were are where they were.
  ghost predicate Backed(f: Fs, g: Fs, n: nat, off: nat, len: nat) {
    && (forall k :: off <= k < off + len ==> Addr(g, n, k / BSIZE) != 0)
    && (forall bn :: 0 <= bn < MAXFILE && Addr(f, n, bn) != 0 ==> Addr(g, n, bn) == Addr(f, n, bn))
  }

  // What writei leaves alone.
  ghost predicate SameOthers(f: Fs, g: Fs, n: nat) {
    && g.sb == f.sb && |g.used| == |f.used| && |g.owner| == |f.owner| && |g.inodes| == |f.inodes| && g.saved == f.saved
    && n < |f.inodes| && g.inodes == f.inodes[n := f.inodes[n].(addrs := g.inodes[n].addrs)] && f.logged <= g.logged
    && forall b :: 0 <= b < |f.owner| && f.owner[b] != Unused && f.owner[b] != Loose ==> g.owner[b] == f.owner[b]
  }

  lemma ChunkWrites(f: FileSys, n: nat, off: nat, data: Bytes)
    requires Live(f, n) && off + |data| <= MAXBYTES && off % BSIZE + |data| <= BSIZE && data != [] && Bmap(f, n, off / BSIZE).addr != 0
    ensures var g := WriteChunk(f, n, off, data);
            Overwritten(f, g, n, off, data) && Backed(f, g, n, off, |data|) && SameOthers(f, g, n)
  {
    hide Wf;
    hide Bmap;
    hide ByteAt;
    hide Addr;
    var bn, o := off / BSIZE, off % BSIZE;
    var r := Bmap(f, n, bn);
    BmapGrows(f, n, bn);
    AddrHolds(r.fs, n, bn);
    var g := WriteChunk(f, n, off, data);
    assert off == bn * BSIZE + o;
    forall m, k | 0 <= m < |f.inodes| && 0 <= k < MAXBYTES
      ensures ByteAt(g, m, k) == if m == n && off <= k < off + |data| then data[k - off] else ByteAt(f, m, k)
    {
      PatchByte(r.fs, n, bn, r.addr, o, data, m, k);
    }
    forall k | 0 <= k < MAXFILE ensures Addr(g, n, k) == Addr(r.fs, n, k) {
      PatchAddr(r.fs, n, bn, r.addr, o, data, n, k);
    }
    forall k | off <= k < off + |data| ensures k / BSIZE == bn {
    }
  }

  lemma OverwrittenThen(f: Fs, g: Fs, h: Fs, n: nat, off: nat, xs: Bytes, ys: Bytes)
    requires |g.inodes| == |f.inodes|
    requires Overwritten(f, g, n, off, xs) && Overwritten(g, h, n, off + |xs|, ys)
    ensures Overwritten(f, h, n, off, xs + ys)
  {
    hide ByteAt;
  }

  lemma NothingWritten(f: Fs, g: Fs, n: nat, off: nat)
    requires Grown(f, g, n) && n < |f.inodes|
    ensures Overwritten(f, g, n, off, []) && Backed(f, g, n, off, 0) && SameOthers(f, g, n)
  {
    hide ByteAt;
    hide Addr;
  }

  lemma ThenWritten(f: Fs, g: Fs, h: Fs, n: nat, off: nat, xs: Bytes, ys: Bytes)
    requires Overwritten(f, g, n, off, xs) && Backed(f, g, n, off, |xs|) && SameOthers(f, g, n)
    requires Overwritten(g, h, n, off + |xs|, ys) && Backed(g, h, n, off + |xs|, |ys|) && SameOthers(g, h, n)
    requires off + |xs| <= MAXBYTES
    ensures Overwritten(f, h, n, off, xs + ys) && Backed(f, h, n, off, |xs + ys|) && SameOthers(f, h, n)
  {
    hide ByteAt;
    hide Addr;
    OverwrittenThen(f, g, h, n, off, xs, ys);
    forall k | off <= k < off + |xs| ensures Addr(h, n, k / BSIZE) != 0 {
      assert Addr(g, n, k / BSIZE) != 0 && 0 <= k / BSIZE < MAXFILE;
    }
  }

  lemma {:induction false} LoopWrites(f: FileSys, n: nat, off: nat, src: Bytes)
    requires Live(f, n) && off + |src| <= MAXBYTES
    ensures var w := WriteLoop(f, n, off, src);
            && Overwritten(f, w.fs, n, off, src[..w.tot]) && Backed(f, w.fs, n, off, w.tot) && SameOthers(f, w.fs, n)
            && (w.tot < |src| ==> DiskFull(w.fs))
    decreases |src|
  {
    hide Wf;
    hide Bmap;
    hide WriteChunk;
    hide Overwritten;
    hide Backed;
    hide SameOthers;
    hide Grown;
    hide Addr;
    if src == [] {
      GrownSelf(f, n);
      NothingWritten(f, f, n, off);
    } else {
      BmapGrows(f, n, off / BSIZE);
      var r := Bmap(f, n, off / BSIZE);
      if r.addr == 0 {
        NothingWritten(f, r.fs, n, off);
      } else {
        var m := Min(|src|, BSIZE - off % BSIZE);
        var g := WriteChunk(f, n, off, src[..m]);
        ChunkWrites(f, n, off, src[..m]);
        LoopWrites(g, n, off + m, src[m..]);
        var rest := WriteLoop(g, n, off + m, src[m..]);
        ThenWritten(f, g, rest.fs, n, off, src[..m], src[m..][..rest.tot]);
        assert src[..m] + src[m..][..rest.tot] == src[..m + rest.tot];
      }
    }
  }

  // iupdate: the inode goes to its place in the inode blocks.
  ghost function Iupdate(f: Fs, n: nat): Fs
    requires n < |f.inodes| == |f.saved|
  {
    f.(saved := f.saved[n := f.inodes[n]], logged := f.logged + {InodeBlock(f.sb, n)})
  }

  // The end of writei: ip->size, if the file has grown, and iupdate.
  ghost function Finish(f: FileSys, n: nat, end: nat): (g: FileSys)
    requires Live(f, n) && end <= MAXBYTES
  {
    var size := if end > f.inodes[n].size then end else f.inodes[n].size;
    var h := f.(inodes := f.inodes[n := f.inodes[n].(size := size)]);
    assert InodeOk(f, n);
    FinishWf(f, Iupdate(h, n), n);
    Iupdate(h, n)
  }

  lemma FinishWf(f: FileSys, g: Fs, n: nat)
    requires Live(f, n) && |g.inodes| == |f.inodes| == |g.saved|
    requires g == f.(inodes := g.inodes, saved := g.saved, logged := g.logged)
    requires g.inodes == f.inodes[n := f.inodes[n].(size := g.inodes[n].size)] && g.inodes[n].size <= MAXBYTES
    ensures Wf(g)
  {
    forall c | 0 <= c < |g.owner| ensures BlockOk(g, c) { assert BlockOk(f, c); }
    forall m | 0 <= m < |g.inodes| ensures InodeOk(g, m) {
      assert InodeOk(f, m);
      forall j | 0 <= j < 256 ensures Names(g, Entry(g, g.inodes[m].addrs[12], j), Indirect(m, j)) {
        assert Names(f, Entry(f, f.inodes[m].addrs[12], j), Indirect(m, j));
      }
    }
  }

  lemma FinishSaves(f: FileSys, n: nat, end: nat)
    requires Live(f, n) && end <= MAXBYTES
    ensures var g := Finish(f, n, end); |g.saved| == |g.inodes| == |f.inodes| && g.saved[n] == g.inodes[n]
  {
  }

  lemma FinishAddr(f: FileSys, n: nat, end: nat, m: nat, bn: nat)
    requires Live(f, n) && end <= MAXBYTES
    ensures Addr(Finish(f, n, end), m, bn) == Addr(f, m, bn)
  {
  }

  lemma SizeBound(f: FileSys, n: nat)
    requires n < |f.inodes|
    ensures f.inodes[n].size <= MAXBYTES && |f.inodes[n].addrs| == 13
  {
    assert InodeOk(f, n);
  }

  datatype Wrote = Wrote(fs: FileSys, ret: int)

  // writei(ip, ..., off, n) when every copyin succeeds; off and n are 32-bit.
  ghost function Writei(f: FileSys, n: nat, off: nat, src: Bytes): Wrote
    requires Live(f, n)
  {
    if off > f.inodes[n].size || (off + |src|) % 0x1_0000_0000 < off then Wrote(f, -1)
    else if off + |src| > MAXBYTES then Wrote(f, -1)
    else
      var w := WriteLoop(f, n, off, src);
      Wrote(Finish(w.fs, n, off + w.tot), w.tot)
  }

  // The file with `data` written over it from off on.
  function Spliced(c: Bytes, off: nat, data: Bytes): Bytes
    requires off <= |c|
  {
    c[..off] + data + (if off + |data| < |c| then c[off + |data|..] else [])
  }

  // All blocks below the end of the file are there.
  ghost predicate NoHoles(f: Fs, n: nat) {
    n < |f.inodes| && forall bn :: 0 <= bn < MAXFILE && bn * BSIZE < f.inodes[n].size ==> Addr(f, n, bn) != 0
  }

  lemma WriteiShape(f: FileSys, n: nat, off: nat, src: Bytes)
    requires Live(f, n) && off < 0x1_0000_0000 && |src| < 0x1_0000_0000
    ensures Writei(f, n, off, src).ret == -1 <==> off > f.inodes[n].size || off + |src| > MAXBYTES
    ensures Writei(f, n, off, src).ret == -1 ==> Writei(f, n, off, src).fs == f
    ensures off <= f.inodes[n].size && off + |src| <= MAXBYTES ==>
              var w := WriteLoop(f, n, off, src); Writei(f, n, off, src) == Wrote(Finish(w.fs, n, off + w.tot), w.tot)
  {
    hide Wf;
    hide WriteLoop;
    hide Finish;
    SizeBound(f, n);
  }

  lemma WriteiContent(f: FileSys, w: Written, n: nat, off: nat, data: Bytes)
    requires Live(f, n) && Live(w.fs, n) && off <= f.inodes[n].size && off + |data| <= MAXBYTES && w.tot == |data|
    requires Overwritten(f, w.fs, n, off, data) && SameOthers(f, w.fs, n)
    ensures Content(Finish(w.fs, n, off + w.tot), n) == Spliced(Content(f, n), off, data)
  {
    hide Wf;
    hide Addr;
    var g := Finish(w.fs, n, off + w.tot);
    SizeBound(f, n);
    assert |Content(g, n)| == |Spliced(Content(f, n), off, data)|;
    forall k | 0 <= k < |Content(g, n)| ensures Content(g, n)[k] == Spliced(Content(f, n), off, data)[k] {
      FinishAddr(w.fs, n, off + w.tot, n, k / BSIZE);
      assert ByteAt(g, n, k) == ByteAt(w.fs, n, k);
    }
  }

  lemma WriteiOthers(f: FileSys, w: Written, n: nat, off: nat, data: Bytes, m: nat)
    requires Live(f, n) && Live(w.fs, n) && off <= f.inodes[n].size && off + |data| <= MAXBYTES && w.tot == |data|
    requires Overwritten(f, w.fs, n, off, data) && SameOthers(f, w.fs, n) && m < |f.inodes| && m != n
    ensures var g := Finish(w.fs, n, off + w.tot); m < |g.inodes| && Content(g, m) == Content(f, m)
  {
    hide Wf;
    hide Addr;
    var g := Finish(w.fs, n, off + w.tot);
    SizeBound(f, m);
    forall k | 0 <= k < f.inodes[m].size ensures ByteAt(g, m, k) == ByteAt(f, m, k) {
      FinishAddr(w.fs, n, off + w.tot, m, k / BSIZE);
    }
  }

  lemma WriteiNoHoles(f: FileSys, w: Written, n: nat, off: nat, len: nat)
    requires Live(f, n) && Live(w.fs, n) && off <= f.inodes[n].size && off + len <= MAXBYTES && w.tot == len
    requires Backed(f, w.fs, n, off, len) && SameOthers(f, w.fs, n) && NoHoles(f, n)
    ensures NoHoles(Finish(w.fs, n, off + len), n)
  {
    hide Wf;
    var g := Finish(w.fs, n, off + len);
    forall bn | 0 <= bn < MAXFILE && bn * BSIZE < g.inodes[n].size ensures Addr(g, n, bn) != 0 {
      FinishAddr(w.fs, n, off + len, n, bn);
      if bn * BSIZE >= f.inodes[n].size {
        assert off <= bn * BSIZE < off + len && bn * BSIZE / BSIZE == bn;
      }
    }
  }

  /** writei replaces exactly the bytes it reports, extending the file if needed, stops early only
      on a full disk, touches no other file, saves the inode, and leaves no hole. */
  lemma WriteiReplaces(f: FileSys, n: nat, off: nat, src: Bytes) returns (r: Wrote)
    requires Live(f, n) && off < 0x1_0000_0000 && |src| < 0x1_0000_0000
    ensures r == Writei(f, n, off, src)
    ensures r.ret == -1 <==> off > f.inodes[n].size || off + |src| > MAXBYTES
    ensures r.ret == -1 ==> r.fs == f
    ensures r.ret != -1 ==>
              && 0 <= r.ret <= |src| && (r.ret < |src| ==> DiskFull(r.fs))
              && |r.fs.inodes| == |f.inodes| && Content(r.fs, n) == Spliced(Content(f, n), off, src[..r.ret])
              && r.fs.saved[n] == r.fs.inodes[n] && (NoHoles(f, n) ==> NoHoles(r.fs, n))
              && forall m :: 0 <= m < |f.inodes| && m != n ==> Content(r.fs, m) == Content(f, m)
  {
    hide Wf;
    hide Addr;
    hide ByteAt;
    hide Content;
    hide WriteLoop;
    hide Overwritten;
    hide Backed;
    WriteiShape(f, n, off, src);
    r := Writei(f, n, off, src);
    if r.ret != -1 {
      var w := WriteLoop(f, n, off, src);
      LoopWrites(f, n, off, src);
      WriteiContent(f, w, n, off, src[..w.tot]);
      FinishSaves(w.fs, n, off + w.tot);
      if NoHoles(f, n) { WriteiNoHoles(f, w, n, off, w.tot); }
      forall m | 0 <= m < |f.inodes| && m != n ensures Content(r.fs, m) == Content(f, m) {
        WriteiOthers(f, w, n, off, src[..w.tot], m);
      }
    }
  }

  // ---- readi -------------------------------------------------------------------------------

  datatype Read = Read(fs: FileSys, data: Bytes)

  // The loop of readi.
  ghost function ReadLoop(f: FileSys, n: nat, off: nat, cnt: nat): Read
    requires Live(f, n) && off + cnt <= MAXBYTES
    decreases cnt
  {
    if cnt == 0 then Read(f, [])
    else
      var r := Bmap(f, n, off / BSIZE);
      BmapGrows(f, n, off / BSIZE);
      if r.addr == 0 then Read(r.fs, [])
      else
        AddrHolds(r.fs, n, off / BSIZE);
        var m := Min(cnt, BSIZE - off % BSIZE);
        var rest := ReadLoop(r.fs, n, off + m, cnt - m);
        Read(rest.fs, r.fs.blocks[r.addr][off % BSIZE..off % BSIZE + m] + rest.data)
  }

  // readi(ip, ..., off, n) when every copyout succeeds.
  ghost function Readi(f: FileSys, n: nat, off: nat, cnt: nat): Read
    requires Live(f, n)
  {
    assert InodeOk(f, n);
    if off > f.inodes[n].size || (off + cnt) % 0x1_0000_0000 < off then Read(f, [])
    else ReadLoop(f, n, off, if off + cnt > f.inodes[n].size then f.inodes[n].size - off else cnt)
  }

  lemma {:induction false} LoopReads(f: FileSys, n: nat, off: nat, cnt: nat)
    requires Live(f, n) && off + cnt <= MAXBYTES
    ensures var r := ReadLoop(f, n, off, cnt);
            && |r.data| <= cnt && (forall k :: 0 <= k < |r.data| ==> r.data[k] == ByteAt(f, n, off + k))
            && Grown(f, r.fs, n) && (|r.data| < cnt ==> DiskFull(r.fs))
    decreases cnt
  {
    hide Wf;
    hide Bmap;
    hide Addr;
    hide ByteAt;
    hide GrownShape;
    hide GrownAddrs;
    if cnt == 0 {
      GrownSelf(f, n);
    } else {
      BmapGrows(f, n, off / BSIZE);
      var r := Bmap(f, n, off / BSIZE);
      if r.addr != 0 {
        AddrHolds(r.fs, n, off / BSIZE);
        var m := Min(cnt, BSIZE - off % BSIZE);
        var head := r.fs.blocks[r.addr][off % BSIZE..off % BSIZE + m];
        LoopReads(r.fs, n, off + m, cnt - m);
        var rest := ReadLoop(r.fs, n, off + m, cnt - m);
        GrownTrans(f, r.fs, rest.fs, n);
        HeadAndRest(f, r.fs, n, off, m, head, rest.data);
      }
    }
  }

  lemma HeadAndRest(f: FileSys, g: FileSys, n: nat, off: nat, m: nat, head: Bytes, rest: Bytes)
    requires SameBytes(f, g) && n < |f.inodes| && off + m + |rest| <= MAXBYTES && |head| == m <= BSIZE - off % BSIZE
    requires Holds(g, n, off / BSIZE, Addr(g, n, off / BSIZE))
    requires head == g.blocks[Addr(g, n, off / BSIZE)][off % BSIZE..off % BSIZE + m]
    requires forall k :: 0 <= k < |rest| ==> rest[k] == ByteAt(g, n, off + m + k)
    ensures forall k :: 0 <= k < |head + rest| ==> (head + rest)[k] == ByteAt(f, n, off + k)
  {
    hide Wf;
    hide Addr;
    forall k | 0 <= k < |head + rest| ensures (head + rest)[k] == ByteAt(f, n, off + k) {
      assert ByteAt(g, n, off + k) == ByteAt(f, n, off + k);
      if k < m {
        SameBlock(off, k, m);
      } else {
        assert rest[k - m] == ByteAt(g, n, off + m + (k - m));
      }
    }
  }

  lemma SameBlock(off: nat, k: nat, m: nat)
    requires k < m <= BSIZE - off % BSIZE
    ensures (off + k) / BSIZE == off / BSIZE && (off + k) % BSIZE == off % BSIZE + k
  {
  }

  lemma {:induction false} LoopReadsOnly(f: FileSys, n: nat, off: nat, cnt: nat)
    requires Live(f, n) && off + cnt <= f.inodes[n].size <= MAXBYTES && NoHoles(f, n)
    ensures ReadLoop(f, n, off, cnt).fs == f && |ReadLoop(f, n, off, cnt).data| == cnt
    decreases cnt
  {
    hide Wf;
    hide Bmap;
    hide Addr;
    if cnt > 0 {
      BmapGrows(f, n, off / BSIZE);
      assert Addr(f, n, off / BSIZE) != 0;
      AddrHolds(f, n, off / BSIZE);
      var m := Min(cnt, BSIZE - off % BSIZE);
      LoopReadsOnly(f, n, off + m, cnt - m);
    }
  }

  // What a read of cnt bytes at off should give: the slice clipped to the size.
  ghost function Clipped(c: Bytes, off: nat, cnt: nat): Bytes {
    if off > |c| then [] else if off + cnt > |c| then c[off..] else c[off..off + cnt]
  }

  /** readi returns exactly the slice, clipped to the size, or nothing if the end of the range wraps
      around, and changes nothing: it never has to allocate a block. */
  lemma ReadiReturns(f: FileSys, n: nat, off: nat, cnt: nat)
    requires Live(f, n) && off < 0x1_0000_0000 && cnt < 0x1_0000_0000 && NoHoles(f, n)
    ensures Readi(f, n, off, cnt) == Read(f, if off + cnt < 0x1_0000_0000 then Clipped(Content(f, n), off, cnt) else [])
  {
    hide Wf;
    hide Addr;
    hide ByteAt;
    hide ReadLoop;
    SizeBound(f, n);
    if off <= f.inodes[n].size {
      var c := if off + cnt > f.inodes[n].size then f.inodes[n].size - off else cnt;
      LoopReads(f, n, off, c);
      LoopReadsOnly(f, n, off, c);
      assert ReadLoop(f, n, off, c).data == Clipped(Content(f, n), off, cnt);
    }
  }

  /** A read returns what was written. */
  lemma ReadAfterWrite(f: FileSys, n: nat, off: nat, src: Bytes) returns (w: Wrote, r: Read)
    requires Live(f, n) && off < 0x1_0000_0000 && |src| < 0x1_0000_0000 && NoHoles(f, n)
    requires off <= f.inodes[n].size && off + |src| <= MAXBYTES
    ensures w == Writei(f, n, off, src) && w.ret >= 0 && Live(w.fs, n)
    ensures r == Readi(w.fs, n, off, w.ret) && r == Read(w.fs, src[..w.ret])
  {
    hide Wf;
    hide Addr;
    hide Content;
    hide Writei;
    w := WriteiReplaces(f, n, off, src);
    WriteiLive(f, n, off, src);
    ReadiReturns(w.fs, n, off, w.ret);
    r := Readi(w.fs, n, off, w.ret);
  }

  lemma WriteiLive(f: FileSys, n: nat, off: nat, src: Bytes)
    requires Live(f, n)
    ensures Live(Writei(f, n, off, src).fs, n)
  {
    hide WriteLoop;
  }
}
