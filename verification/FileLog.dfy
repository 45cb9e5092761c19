/** How many blocks one filewrite chunk logs. */
module FileLog {
  import opened FileBlocks
  import opened FileSteps
  import opened FileMap
  import opened FileIo

  // The blocks that bytes off to off + len touch.
  function Touched(off: nat, len: nat): nat {
    if len == 0 then 0 else (off + len - 1) / BSIZE - off / BSIZE + 1
  }

  function One(b: bool): nat { if b then 1 else 0 }

  // Block 0 stands for no block.
  function Real(b: nat): set<nat> { if b == 0 then {} else {b} }

  lemma BallocLogs(f: FileSys) returns (bits: set<nat>)
    ensures Balloc(f).fs.logged <= f.logged + bits + Real(Balloc(f).b) && |bits| <= 1
    ensures Balloc(f).b == 0 ==> bits == {}
  {
    hide Wf;
    bits := if Balloc(f).b == 0 then {} else {BitmapBlock(f.sb, Balloc(f).b)};
  }

  // bmap logs the block and the indirect block, and a bitmap block for each block it allocates.
  lemma BmapLogs(f: FileSys, n: nat, bn: nat) returns (bits: set<nat>)
    requires Live(f, n) && bn < MAXFILE
    ensures var r := Bmap(f, n, bn);
            && Live(r.fs, n) && r.fs.logged <= f.logged + bits + Real(r.addr) + Real(r.fs.inodes[n].addrs[12])
            && |bits| <= One(Addr(f, n, bn) == 0) + One(r.fs.inodes[n].addrs[12] != f.inodes[n].addrs[12])
            && (f.inodes[n].addrs[12] != 0 ==> r.fs.inodes[n].addrs[12] == f.inodes[n].addrs[12])
  {
    hide Wf;
    hide GrownAddrs;
    hide GrownShape;
    hide SameBytes;
    BallocNames(f, n);
    BmapGrows(f, n, bn);
    if bn < 12 {
      if f.inodes[n].addrs[bn] == 0 { bits := BallocLogs(f); } else { bits := {}; }
    } else {
      bits := BmapIndirectLogs(f, n, bn - 12);
    }
  }

  lemma SingleLogs(f: FileSys, n: nat) returns (bits: set<nat>)
    requires Live(f, n)
    ensures var g := WithSingle(f, n);
            && Live(g, n) && g.logged <= f.logged + bits + Real(g.inodes[n].addrs[12])
            && |bits| <= One(g.inodes[n].addrs[12] != f.inodes[n].addrs[12])
            && (f.inodes[n].addrs[12] != 0 ==> g.inodes[n].addrs[12] == f.inodes[n].addrs[12])
            && (f.inodes[n].addrs[12] == 0 ==> forall j :: 0 <= j < 256 ==> Entry(g, g.inodes[n].addrs[12], j) == 0)
            && (f.inodes[n].addrs[12] != 0 ==> g == f)
  {
    hide Wf;
    hide GrownAddrs;
    hide GrownShape;
    hide SameBytes;
    BallocNames(f, n);
    bits := {};
    if f.inodes[n].addrs[12] == 0 {
      bits := BallocLogs(f);
      var r := Balloc(f);
      if r.b != 0 { NameSingleGrows(r.fs, n, r.b); }
    }
  }

  lemma BmapIndirectLogs(f: FileSys, n: nat, j: nat) returns (bits: set<nat>)
    requires Live(f, n) && j < 256
    ensures var r := BmapIndirect(f, n, j);
            && Live(r.fs, n) && r.fs.logged <= f.logged + bits + Real(r.addr) + Real(r.fs.inodes[n].addrs[12])
            && |bits| <= One(Addr(f, n, 12 + j) == 0) + One(r.fs.inodes[n].addrs[12] != f.inodes[n].addrs[12])
            && (f.inodes[n].addrs[12] != 0 ==> r.fs.inodes[n].addrs[12] == f.inodes[n].addrs[12])
  {
    hide Wf;
    hide GrownAddrs;
    hide GrownShape;
    hide SameBytes;
    hide WithSingle;
    bits := SingleLogs(f, n);
    var g := WithSingle(f, n);
    var s := g.inodes[n].addrs[12];
    if s != 0 && Entry(g, s, j) == 0 {
      BallocNames(g, n);
      var more := BallocLogs(g);
      SumBound(bits, more);
      bits := bits + more;
    }
  }

  lemma SumBound(a: set<nat>, b: set<nat>)
    ensures |a + b| <= |a| + |b|
  {
    assert a + b == a + (b - a);
    Within(b - a, b);
  }

  lemma {:induction false} Within(a: set<nat>, b: set<nat>)
    requires a <= b
    ensures |a| <= |b|
    decreases a
  {
    if a != {} {
      var x :| x in a;
      Within(a - {x}, b - {x});
    }
  }

  // What a stretch of writei's loop on `len` bytes logs: each block it touches, the indirect block,
  // and a bitmap block for each block it allocates.
  ghost predicate LogsFor(f: Fs, g: Fs, n: nat, off: nat, len: nat, bits: set<nat>, data: set<nat>) {
    && n < |f.inodes| && n < |g.inodes| && |f.inodes[n].addrs| == |g.inodes[n].addrs| == 13
    && g.logged <= f.logged + bits + data + Real(g.inodes[n].addrs[12])
    && |data| <= Touched(off, len)
    && |bits| <= Touched(off, len) - One(len != 0 && Addr(f, n, off / BSIZE) != 0)
                 + One(g.inodes[n].addrs[12] != f.inodes[n].addrs[12])
    && (f.inodes[n].addrs[12] != 0 ==> g.inodes[n].addrs[12] == f.inodes[n].addrs[12])
  }

  lemma LogsMore(f: Fs, g: Fs, h: Fs, n: nat, off: nat, len: nat, m: nat, bits: set<nat>, b: nat, bits': set<nat>, data': set<nat>)
    requires 0 < len && m == Min(len, BSIZE - off % BSIZE)
    requires n < |f.inodes| && n < |g.inodes| && |f.inodes[n].addrs| == |g.inodes[n].addrs| == 13
    requires g.logged <= f.logged + bits + Real(b) + Real(g.inodes[n].addrs[12])
    requires |bits| <= One(Addr(f, n, off / BSIZE) == 0) + One(g.inodes[n].addrs[12] != f.inodes[n].addrs[12])
    requires f.inodes[n].addrs[12] != 0 ==> g.inodes[n].addrs[12] == f.inodes[n].addrs[12]
    requires LogsFor(g, h, n, off + m, len - m, bits', data')
    ensures LogsFor(f, h, n, off, len, bits + bits', Real(b) + data')
  {
    hide Touched;
    hide Addr;
    TouchedStep(off, len, m);
    SumBound(bits, bits');
    SumBound(Real(b), data');
    Collect(f.logged, g.logged, h.logged, bits, Real(b), bits', data', Real(g.inodes[n].addrs[12]), Real(h.inodes[n].addrs[12]));
  }

  lemma LogsOnce(f: Fs, g: Fs, n: nat, off: nat, len: nat, bits: set<nat>)
    requires 0 < len && n < |f.inodes| && n < |g.inodes| && |f.inodes[n].addrs| == |g.inodes[n].addrs| == 13
    requires g.logged <= f.logged + bits + Real(g.inodes[n].addrs[12])
    requires |bits| <= One(Addr(f, n, off / BSIZE) == 0) + One(g.inodes[n].addrs[12] != f.inodes[n].addrs[12])
    requires f.inodes[n].addrs[12] != 0 ==> g.inodes[n].addrs[12] == f.inodes[n].addrs[12]
    ensures LogsFor(f, g, n, off, len, bits, {})
  {
    hide Addr;
    TouchedStep(off, len, Min(len, BSIZE - off % BSIZE));
  }

  lemma {:induction false} LoopLogs(f: FileSys, n: nat, off: nat, src: Bytes) returns (bits: set<nat>, data: set<nat>)
    requires Live(f, n) && off + |src| <= MAXBYTES
    ensures LogsFor(f, WriteLoop(f, n, off, src).fs, n, off, |src|, bits, data)
    decreases |src|
  {
    hide Wf;
    hide Bmap;
    hide WriteChunk;
    hide Addr;
    hide Touched;
    hide LogsFor;
    bits, data := {}, {};
    if src == [] {
      LogsNone(f, n, off);
    } else {
      var bn := off / BSIZE;
      bits := BmapLogs(f, n, bn);
      var r := Bmap(f, n, bn);
      if r.addr == 0 {
        LogsOnce(f, r.fs, n, off, |src|, bits);
      } else {
        var m := Min(|src|, BSIZE - off % BSIZE);
        var g := WriteChunk(f, n, off, src[..m]);
        ChunkLogs(f, n, off, src[..m]);
        var bits', data' := LoopLogs(g, n, off + m, src[m..]);
        LogsMore(f, g, WriteLoop(g, n, off + m, src[m..]).fs, n, off, |src|, m, bits, r.addr, bits', data');
        bits, data := bits + bits', Real(r.addr) + data';
      }
    }
  }

  lemma LogsNone(f: Fs, n: nat, off: nat)
    requires n < |f.inodes| && |f.inodes[n].addrs| == 13
    ensures LogsFor(f, f, n, off, 0, {}, {})
  {
  }

  lemma Collect(a: set<nat>, b: set<nat>, c: set<nat>, bits: set<nat>, data: set<nat>, bits': set<nat>, data': set<nat>,
                i: set<nat>, i': set<nat>)
    requires b <= a + bits + data + i && c <= b + data + bits' + data' + i' && i <= i'
    ensures c <= a + (bits + bits') + (data + data') + i'
  {
  }

  lemma ChunkLogs(f: FileSys, n: nat, off: nat, data: Bytes)
    requires Live(f, n) && off + |data| <= MAXBYTES && off % BSIZE + |data| <= BSIZE && data != [] && Bmap(f, n, off / BSIZE).addr != 0
    ensures var g, r := WriteChunk(f, n, off, data), Bmap(f, n, off / BSIZE);
            g.logged == r.fs.logged + {r.addr} && g.inodes == r.fs.inodes
  {
    hide Wf;
    hide Bmap;
    BmapGrows(f, n, off / BSIZE);
    AddrHolds(Bmap(f, n, off / BSIZE).fs, n, off / BSIZE);
  }

  lemma TouchedStep(off: nat, len: nat, m: nat)
    requires 0 < len && m == Min(len, BSIZE - off % BSIZE)
    ensures Touched(off, len) == 1 + Touched(off + m, len - m)
  {
    if m < len {
      assert (off + m) % BSIZE == 0 && (off + m) / BSIZE == off / BSIZE + 1;
    } else {
      assert (off + len - 1) / BSIZE == off / BSIZE;
    }
  }

  // A chunk touches at most four blocks, and if four then the first of them lies across its start.
  lemma TouchedFew(off: nat, len: nat)
    requires len <= 3072
    ensures Touched(off, len) <= 4 && (Touched(off, len) == 4 ==> off % BSIZE != 0)
  {
  }

  /** One chunk of filewrite - at most ((MAXOPBLOCKS-1-1-2)/2)*BSIZE bytes - logs at most
      MAXOPBLOCKS distinct blocks, whatever its alignment, when every block below the file size is
      there: four data blocks, three bitmap blocks for them, the indirect block and its bitmap
      block, and the inode block. */
  lemma ChunkFitsInLog(f: FileSys, n: nat, off: nat, src: Bytes)
    requires Live(f, n) && NoHoles(f, n) && |src| <= 3072 && f.logged == {}
    ensures |Writei(f, n, off, src).fs.logged| <= 10
  {
    hide Wf;
    hide WriteLoop;
    hide Addr;
    if off <= f.inodes[n].size && off + |src| <= MAXBYTES {
      var bits, data := LoopLogs(f, n, off, src);
      var w := WriteLoop(f, n, off, src);
      TouchedFew(off, |src|);
      if Touched(off, |src|) == 4 { assert off / BSIZE * BSIZE < f.inodes[n].size && Addr(f, n, off / BSIZE) != 0; }
      var i, b := Real(w.fs.inodes[n].addrs[12]), InodeBlock(w.fs.sb, n);
      SumBound(bits, data);
      SumBound(bits + data, i);
      SumBound(bits + data + i, {b});
      Within(Writei(f, n, off, src).fs.logged, bits + data + i + {b});
    }
  }
}
