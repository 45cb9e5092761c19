/** filewrite of file.c: a long write cut into transactions that fit in the log. */
module FileWrite {
  import opened FileBlocks
  import opened FileSteps
  import opened FileMap
  import opened FileIo
  import opened FileLog

  // ((MAXOPBLOCKS-1-1-2) / 2) * BSIZE
  const MAXCHUNK: nat := 3072

  // begin_op: the transaction starts with nothing logged.
  ghost function BeginOp(f: FileSys): (g: FileSys)
    ensures g == f.(logged := {})
  {
    BeginWf(f);
    f.(logged := {})
  }

  lemma BeginWf(f: FileSys)
    ensures Wf(f.(logged := {}))
  {
    var g := f.(logged := {});
    forall c | 0 <= c < |g.owner| ensures BlockOk(g, c) { assert BlockOk(f, c); }
    forall m | 0 <= m < |g.inodes| ensures InodeOk(g, m) {
      assert InodeOk(f, m);
      forall j | 0 <= j < 256 ensures Names(g, Entry(g, g.inodes[m].addrs[12], j), Indirect(m, j)) {
        assert Names(f, Entry(f, f.inodes[m].addrs[12], j), Indirect(m, j));
      }
    }
  }

  lemma BeginSame(f: FileSys, n: nat)
    ensures forall m, k :: Addr(BeginOp(f), m, k) == Addr(f, m, k)
    ensures n < |f.inodes| ==> Content(BeginOp(f), n) == Content(f, n) && (NoHoles(f, n) ==> NoHoles(BeginOp(f), n))
  {
    hide Wf;
    var g := BeginOp(f);
    assert forall m, k :: Addr(g, m, k) == Addr(f, m, k);
    assert forall k :: ByteAt(g, n, k) == ByteAt(f, n, k);
  }

  // `done` bytes are in the file, the file offset has moved by as many, and the logs of the
  // transactions, one after the other, are `logs`.
  datatype Filed = Filed(fs: FileSys, done: nat, logs: seq<set<nat>>)

  // The loop of filewrite for `src`, at file offset `off`.
  ghost function Filewrite(f: FileSys, n: nat, off: nat, src: Bytes): (r: Filed)
    requires Live(f, n)
    ensures r.done <= |src|
    decreases |src|
  {
    if src == [] then Filed(f, 0, [])
    else
      var n1 := Min(|src|, MAXCHUNK);
      var w := Writei(BeginOp(f), n, off, src[..n1]);
      if w.ret == n1 then
        WriteiLive(BeginOp(f), n, off, src[..n1]);
        var rest := Filewrite(w.fs, n, off + n1, src[n1..]);
        Filed(rest.fs, n1 + rest.done, [w.fs.logged] + rest.logs)
      else Filed(w.fs, if 0 < w.ret <= n1 then w.ret else 0, [w.fs.logged])
  }

  lemma SplicedTwice(c: Bytes, off: nat, xs: Bytes, ys: Bytes)
    requires off <= |c|
    ensures off + |xs| <= |Spliced(c, off, xs)|
    ensures Spliced(Spliced(c, off, xs), off + |xs|, ys) == Spliced(c, off, xs + ys)
  {
  }

  lemma SplicedNothing(c: Bytes, off: nat)
    requires off <= |c|
    ensures Spliced(c, off, []) == c
  {
  }

  // The first r.done bytes of src are in the file, and every transaction on the way fits in the log.
  ghost predicate Stored(f: Fs, r: Filed, n: nat, off: nat, src: Bytes)
    requires n < |f.inodes| && off <= |Content(f, n)| && r.done <= |src|
  {
    && Live(r.fs, n) && NoHoles(r.fs, n) && Content(r.fs, n) == Spliced(Content(f, n), off, src[..r.done])
    && (r.done < |src| ==> DiskFull(r.fs) || off + |src| > MAXBYTES)
    && (forall i :: 0 <= i < |r.logs| ==> |r.logs[i]| <= 10)
  }

  lemma ContentSize(f: FileSys, n: nat)
    requires n < |f.inodes|
    ensures |Content(f, n)| == f.inodes[n].size
  {
  }

  lemma StoredMore(f: FileSys, g: FileSys, r: Filed, n: nat, off: nat, src: Bytes, n1: nat)
    requires Live(f, n) && Live(g, n) && off <= |Content(f, n)| && n1 <= |src| && |g.logged| <= 10
    requires Content(g, n) == Spliced(Content(f, n), off, src[..n1]) && off + n1 <= |Content(g, n)|
    requires r.done <= |src| - n1 && Stored(g, r, n, off + n1, src[n1..])
    ensures Stored(f, Filed(r.fs, n1 + r.done, [g.logged] + r.logs), n, off, src)
  {
    hide Wf;
    hide Content;
    hide NoHoles;
    SplicedTwice(Content(f, n), off, src[..n1], src[n1..][..r.done]);
    assert src[..n1] + src[n1..][..r.done] == src[..n1 + r.done];
  }

  // The chunk that stops short, or that writei refuses.
  lemma StoredLast(f: FileSys, g: FileSys, n: nat, off: nat, src: Bytes, n1: nat, ret: int)
    requires Live(f, n) && Live(g, n) && NoHoles(g, n) && off <= |Content(f, n)| && n1 <= |src| && ret < n1 && |g.logged| <= 10
    requires if ret < 0 then Content(g, n) == Content(f, n) && off + n1 > MAXBYTES
             else Content(g, n) == Spliced(Content(f, n), off, src[..n1][..ret]) && DiskFull(g)
    ensures Stored(f, Filed(g, if ret > 0 then ret else 0, [g.logged]), n, off, src)
  {
    hide Wf;
    hide Content;
    hide NoHoles;
    SplicedNothing(Content(f, n), off);
    if ret >= 0 { assert src[..n1][..ret] == src[..ret]; } else { assert src[..0] == []; }
  }

  /** filewrite puts a prefix of the data into the file, at the offset it started from - all of it,
      unless the file would become too large or the disk is full - and every transaction on the
      way fits in the log. */
  lemma {:induction false} FilewriteWrites(f: FileSys, n: nat, off: nat, src: Bytes)
    requires Live(f, n) && NoHoles(f, n) && off <= |Content(f, n)| && off + |src| < 0x1_0000_0000
    ensures Stored(f, Filewrite(f, n, off, src), n, off, src)
    decreases |src|
  {
    hide Wf;
    hide Addr;
    hide Content;
    hide NoHoles;
    hide Writei;
    hide Spliced;
    hide Stored;
    if src == [] {
      StoredNothing(f, n, off);
    } else {
      var n1 := Min(|src|, MAXCHUNK);
      BeginSame(f, n);
      ContentSize(f, n);
      WriteiLive(BeginOp(f), n, off, src[..n1]);
      ChunkFitsInLog(BeginOp(f), n, off, src[..n1]);
      var w := WriteiReplaces(BeginOp(f), n, off, src[..n1]);
      ContentSize(w.fs, n);
      if w.ret == n1 {
        SplicedTwice(Content(f, n), off, src[..n1], []);
        assert src[..n1][..n1] == src[..n1];
        FilewriteWrites(w.fs, n, off + n1, src[n1..]);
        StoredMore(f, w.fs, Filewrite(w.fs, n, off + n1, src[n1..]), n, off, src, n1);
      } else {
        StoredLast(f, w.fs, n, off, src, n1, w.ret);
      }
    }
  }

  lemma StoredNothing(f: FileSys, n: nat, off: nat)
    requires Live(f, n) && NoHoles(f, n) && off <= |Content(f, n)|
    ensures Stored(f, Filed(f, 0, []), n, off, [])
  {
    hide Content;
    SplicedNothing(Content(f, n), off);
  }

  /** From an offset behind the end of the file - another process has truncated it - filewrite stores
      nothing and changes nothing. */
  lemma FilewriteBehindEnd(f: FileSys, n: nat, off: nat, src: Bytes)
    requires Live(f, n) && NoHoles(f, n) && off > |Content(f, n)| && off < 0x1_0000_0000 && src != []
    ensures Filewrite(f, n, off, src).done == 0 && Filewrite(f, n, off, src).fs == f.(logged := {})
  {
    hide Wf;
    hide Addr;
    hide Content;
    hide NoHoles;
    hide Writei;
    ContentSize(f, n);
    BeginSame(f, n);
    var w := WriteiReplaces(BeginOp(f), n, off, src[..Min(|src|, MAXCHUNK)]);
  }
}
