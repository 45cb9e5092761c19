/** The block device under the log and the buffer cache: fixed-size blocks of 32-bit
    words, changed one whole block at a time. */
module Disk {

  // BSIZE is 1024 bytes, so a block holds 256 words.
  const WORDS: nat := 256

  datatype Block = Block(words: seq<nat>)
  type Image = seq<Block>

  // One bwrite: the unit that a crash cannot split.
  datatype Write = Write(blockno: nat, data: Block)

  ghost predicate InRange(d: Image, ws: seq<Write>) {
    forall i :: 0 <= i < |ws| ==> ws[i].blockno < |d|
  }

  // The disk after the writes `ws`, performed in order.
  ghost function Apply(d: Image, ws: seq<Write>): (r: Image)
    requires InRange(d, ws)
    ensures |r| == |d|
  {
    if ws == [] then d
    else Apply(d, ws[..|ws| - 1])[ws[|ws| - 1].blockno := ws[|ws| - 1].data]
  }

  lemma {:induction false} ApplyConcat(d: Image, xs: seq<Write>, ys: seq<Write>)
    requires InRange(d, xs + ys)
    ensures InRange(d, xs) && InRange(d, ys)
    ensures Apply(d, xs + ys) == Apply(Apply(d, xs), ys)
  {
    assert forall i :: 0 <= i < |xs| ==> xs[i] == (xs + ys)[i];
    assert forall i :: 0 <= i < |ys| ==> ys[i] == (xs + ys)[|xs| + i];
    if ys == [] {
      assert xs + ys == xs;
    } else {
      var front := ys[..|ys| - 1];
      assert (xs + ys)[..|xs + ys| - 1] == xs + front;
      ApplyConcat(d, xs, front);
    }
  }

  // A block that no write names keeps its contents.
  lemma {:induction false} ApplyUntouched(d: Image, ws: seq<Write>, b: nat)
    requires InRange(d, ws) && b < |d|
    requires forall i :: 0 <= i < |ws| ==> ws[i].blockno != b
    ensures Apply(d, ws)[b] == d[b]
  {
    if ws != [] {
      ApplyUntouched(d, ws[..|ws| - 1], b);
    }
  }

  // The last write to a block decides its contents.
  lemma {:induction false} ApplyLast(d: Image, ws: seq<Write>, k: nat)
    requires InRange(d, ws) && k < |ws|
    requires forall i :: k < i < |ws| ==> ws[i].blockno != ws[k].blockno
    ensures Apply(d, ws)[ws[k].blockno] == ws[k].data
  {
    if k < |ws| - 1 {
      ApplyLast(d, ws[..|ws| - 1], k);
    }
  }

  lemma ApplyNext(d: Image, ws: seq<Write>, k: nat)
    requires InRange(d, ws) && k < |ws|
    ensures InRange(d, ws[..k]) && InRange(d, ws[..k + 1])
    ensures Apply(d, ws[..k + 1]) == Apply(d, ws[..k])[ws[k].blockno := ws[k].data]
  {
    assert ws[..k + 1][..k] == ws[..k];
  }

  /** A disk together with every write it has performed: the places a crash can fall. */
  datatype Device = Device(image: Image, trace: seq<Write>)

  ghost function Perform(dev: Device, ws: seq<Write>): Device
    requires InRange(dev.image, ws)
  {
    Device(Apply(dev.image, ws), dev.trace + ws)
  }

  lemma PerformOne(dev: Device, w: Write)
    requires w.blockno < |dev.image|
    ensures Perform(dev, [w]) == Device(dev.image[w.blockno := w.data], dev.trace + [w])
  {
    assert [w][..0] == [] && Apply(dev.image, []) == dev.image;
  }

  lemma PerformConcat(dev: Device, xs: seq<Write>, ys: seq<Write>)
    requires InRange(dev.image, xs) && InRange(dev.image, ys)
    ensures InRange(dev.image, xs + ys)
    ensures Perform(Perform(dev, xs), ys) == Perform(dev, xs + ys)
  {
    ApplyConcat(dev.image, xs, ys);
    assert dev.trace + xs + ys == dev.trace + (xs + ys);
  }

  // One more write of a list.
  lemma PerformNext(dev: Device, ws: seq<Write>, k: nat)
    requires InRange(dev.image, ws) && k < |ws|
    ensures InRange(dev.image, ws[..k]) && InRange(dev.image, ws[..k + 1])
    ensures Perform(dev, ws[..k + 1]) == Perform(Perform(dev, ws[..k]), [ws[k]])
  {
    assert ws[..k + 1] == ws[..k] + [ws[k]];
    PerformConcat(dev, ws[..k], [ws[k]]);
  }
}
