/** The blocks of the file system: the free bitmap, the block numbers in inodes and indirect
    blocks, and which of those slots owns which block. */
module FileBlocks {

  const BSIZE: nat := 1024
  const NDIRECT: nat := 12
  const NINDIRECT: nat := 256
  const MAXFILE: nat := 268
  const MAXBYTES: nat := 274432     // MAXFILE * BSIZE
  const BPB: nat := 8192          // bitmap bits per block

  type Byte = n: nat | n < 256 witness 0
  type Bytes = seq<Byte>

  // The uint at index j of an indirect block, little-endian.
  function Word(b: Bytes, j: nat): nat
    requires 4 * j + 3 < |b|
  {
    var b0: nat, b1: nat, b2: nat, b3: nat := b[4 * j], b[4 * j + 1], b[4 * j + 2], b[4 * j + 3];
    b0 + 256 * b1 + 65536 * b2 + 16777216 * b3
  }

  function PutWord(b: Bytes, j: nat, v: nat): (b': Bytes)
    requires 4 * j + 3 < |b| && v < 0x1_0000_0000
    ensures |b'| == |b|
  {
    b[4 * j := v % 256][4 * j + 1 := v / 256 % 256][4 * j + 2 := v / 65536 % 256][4 * j + 3 := v / 16777216]
  }

  lemma WordPut(b: Bytes, j: nat, v: nat, k: nat)
    requires 4 * j + 3 < |b| && 4 * k + 3 < |b| && v < 0x1_0000_0000
    ensures Word(PutWord(b, j, v), k) == if k == j then v else Word(b, k)
  {
    if k == j {
      assert v == v % 256 + 256 * (v / 256 % 256) + 65536 * (v / 65536 % 256) + 16777216 * (v / 16777216) by {
        var q := v / 256;
        var r := q / 256;
        assert v / 65536 == r && v / 16777216 == r / 256;
      }
    }
  }

  function ZeroBlock(): (b: Bytes)
    ensures |b| == BSIZE && forall i :: 0 <= i < BSIZE ==> b[i] == 0
  {
    seq(BSIZE, i => 0)
  }

  // The in-core inode; `addrs` are NDIRECT direct block numbers and the indirect block's.
  datatype Inode = Inode(kind: nat, nlink: nat, size: nat, addrs: seq<nat>)

  const NoAddrs: seq<nat> := [0, 0, 0, 0, 0, 0, 0, 0, 0, 0, 0, 0, 0]

  /** What a disk block is used for. */
  datatype Slot =
    | Unused
    | Meta                                // boot, super, log, inode and bitmap blocks
    | Loose                               // returned by balloc, not named anywhere yet
    | Direct(inum: nat, i: nat)           // named by addrs[i]
    | Single(of: nat)                     // the indirect block of an inode
    | Indirect(inode: nat, j: nat)        // named by entry j of the inode's indirect block

  datatype Super = Super(inodestart: nat, bmapstart: nat)

  datatype Fs = Fs(
    sb: Super,
    used: seq<bool>,              // the bitmap
    blocks: seq<Bytes>,           // contents of the blocks, as the buffer cache shows them
    inodes: seq<Inode>,           // in core
    saved: seq<Inode>,            // as last written by iupdate
    logged: set<nat>,             // blocks passed to log_write since begin_op
    owner: seq<Slot>)

  // An entry that names a block owns it.
  ghost predicate Names(f: Fs, b: nat, s: Slot) { b != 0 ==> b < |f.owner| && f.owner[b] == s }

  ghost predicate BlockOk(f: Fs, b: nat)
    requires b < |f.owner| == |f.used| == |f.blocks|
  {
    && |f.blocks[b]| == BSIZE
    && f.used[b] == (f.owner[b] != Unused)
    && match f.owner[b]
       case Direct(n, i) => n < |f.inodes| && i < 12 < |f.inodes[n].addrs| && f.inodes[n].addrs[i] == b
       case Single(n) => n < |f.inodes| && 12 < |f.inodes[n].addrs| && f.inodes[n].addrs[12] == b
       case Indirect(n, j) =>
         n < |f.inodes| && j < 256 && 12 < |f.inodes[n].addrs| && Entry(f, f.inodes[n].addrs[12], j) == b
       case _ => true
  }

  // Entry j of an indirect block; 0 when there is no such block.
  ghost function Entry(f: Fs, b: nat, j: nat): nat {
    if 0 < b < |f.blocks| && 4 * j + 3 < |f.blocks[b]| then Word(f.blocks[b], j) else 0
  }

  ghost predicate InodeOk(f: Fs, n: nat)
    requires n < |f.inodes|
  {
    var a := f.inodes[n].addrs;
    && |a| == 13 && f.inodes[n].size <= MAXBYTES
    && (forall i :: 0 <= i < 12 ==> Names(f, a[i], Direct(n, i)))
    && Names(f, a[12], Single(n))
    && (forall j :: 0 <= j < 256 ==> Names(f, Entry(f, a[12], j), Indirect(n, j)))
    && (f.inodes[n].kind == 0 ==> a == NoAddrs && f.inodes[n].size == 0)
  }

  /** Every used block is named in exactly one place, every named block is used by that place. */
  ghost predicate Wf(f: Fs) {
    && |f.owner| == |f.used| == |f.blocks| < 0x1_0000_0000 && |f.saved| == |f.inodes|
    && 0 < |f.owner| && f.owner[0] == Meta
    && (forall b :: 0 <= b < |f.owner| ==> BlockOk(f, b))
    && (forall n :: 0 <= n < |f.inodes| ==> InodeOk(f, n))
  }

  type FileSys = f: Fs | Wf(f) ghost witness Fs(Super(0, 0), [true], [ZeroBlock()], [], [], {}, [Meta])

  // ---- a file as bytes ---------------------------------------------------------------------

  // The block that holds block bn of the file; 0 if none.
  ghost function Addr(f: Fs, n: nat, bn: nat): nat {
    if n < |f.inodes| && |f.inodes[n].addrs| == 13 then
      if bn < 12 then f.inodes[n].addrs[bn] else Entry(f, f.inodes[n].addrs[12], bn - 12)
    else 0
  }

  // Byte k of the file, zero where no block has been allocated.
  ghost function ByteAt(f: Fs, n: nat, k: nat): Byte {
    var b := Addr(f, n, k / BSIZE);
    if 0 < b < |f.blocks| && |f.blocks[b]| == BSIZE then f.blocks[b][k % BSIZE] else 0
  }

  /** The file as readers see it: as many bytes as its size says. */
  ghost function Content(f: Fs, n: nat): (c: Bytes)
    requires n < |f.inodes|
    ensures |c| == f.inodes[n].size
  {
    seq(f.inodes[n].size, k requires 0 <= k < f.inodes[n].size => ByteAt(f, n, k))
  }

  // The slot that names block bn of file n.
  ghost function SlotOf(n: nat, bn: nat): Slot { if bn < 12 then Direct(n, bn) else Indirect(n, bn - 12) }

  lemma AddrOwned(f: FileSys, n: nat, bn: nat)
    requires n < |f.inodes| && bn < MAXFILE && Addr(f, n, bn) != 0
    ensures Addr(f, n, bn) < |f.owner| && f.owner[Addr(f, n, bn)] == SlotOf(n, bn) && f.used[Addr(f, n, bn)]
  {
    assert InodeOk(f, n);
    if bn >= 12 {
      assert Names(f, Entry(f, f.inodes[n].addrs[12], bn - 12), Indirect(n, bn - 12));
    }
    assert BlockOk(f, Addr(f, n, bn));
  }

  // ---- the bitmap --------------------------------------------------------------------------

  // The slot names the block.
  ghost predicate NamedBy(f: Fs, b: nat, s: Slot) {
    match s
    case Direct(n, i) => n < |f.inodes| && i < 12 < |f.inodes[n].addrs| && f.inodes[n].addrs[i] == b
    case Single(n) => n < |f.inodes| && 12 < |f.inodes[n].addrs| && f.inodes[n].addrs[12] == b
    case Indirect(n, j) => n < |f.inodes| && j < 256 && 12 < |f.inodes[n].addrs| && Entry(f, f.inodes[n].addrs[12], j) == b
    case _ => false
  }

  /** The bitmap says a block is in use exactly when it is metadata, has just been allocated, or is
      named by a slot of some inode or indirect block; and then by one slot only. */
  lemma BitmapIsExact(f: FileSys, b: nat)
    requires 0 < b < |f.used|
    ensures f.used[b] <==> f.owner[b] == Meta || f.owner[b] == Loose || exists s :: NamedBy(f, b, s)
    ensures forall s, s' :: NamedBy(f, b, s) && NamedBy(f, b, s') ==> s == s'
  {
    assert BlockOk(f, b);
    forall s | NamedBy(f, b, s) ensures f.owner[b] == s {
      match s
      case Direct(n, i) => assert InodeOk(f, n) && Names(f, f.inodes[n].addrs[i], s);
      case Single(n) => assert InodeOk(f, n);
      case Indirect(n, j) => assert InodeOk(f, n) && Names(f, Entry(f, f.inodes[n].addrs[12], j), s);
      case _ =>
    }
    if f.used[b] && f.owner[b] != Meta && f.owner[b] != Loose {
      assert NamedBy(f, b, f.owner[b]);
    }
  }
}
