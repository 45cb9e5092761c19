/** The request queue of virtio_disk.c: descriptors, the available and the used ring (section 2.6 of
    VIRTIO 1.1, split virtqueues) and three-descriptor block requests (section 5.2). */
module Virtio {
  import opened Options

  const NUM: nat := 8

  type Block = seq<nat>

  // What a descriptor points to: ops[i], the data of buffer b, or info[i].status.
  datatype Addr = Nowhere | Header(i: nat) | Data(b: nat) | Status(h: nat)

  datatype Desc = Desc(addr: Addr, len: nat, more: bool, write: bool, next: nat)

  const EmptyDesc: Desc := Desc(Nowhere, 0, false, false, 0)

  datatype Op = Op(write: bool, sector: nat)

  datatype Info = Info(b: Option<nat>, status: nat)

  // The driver's memory, shared with the device; the indices are 16-bit.
  datatype Queue = Queue(
    desc: seq<Desc>,
    free: seq<bool>,
    ops: seq<Op>,
    info: seq<Info>,
    avail: seq<nat>,
    availIdx: nat,
    used: seq<nat>,
    usedIdx: nat,
    seen: nat)                // disk.used_idx

  function Inc(idx: nat): nat { (idx + 1) % 65536 }

  ghost predicate Shaped(q: Queue) {
    && |q.desc| == 8 && |q.free| == 8 && |q.ops| == 8 && |q.info| == 8 && |q.avail| == 8 && |q.used| == 8
    && q.availIdx < 65536 && q.usedIdx < 65536 && q.seen < 65536
  }

  // ---- descriptors -------------------------------------------------------------------------

  // alloc_desc: the first free descriptor at or after i; 8 if there is none.
  ghost function FirstFree(free: seq<bool>, i: nat): (r: nat)
    requires i <= |free|
    ensures i <= r <= |free| && (r < |free| ==> free[r]) && forall k :: i <= k < r ==> !free[k]
    decreases |free| - i
  {
    if i == |free| || free[i] then i else FirstFree(free, i + 1)
  }

  datatype Chain = Chain(head: nat, mid: nat, tail: nat)

  // alloc3_desc; nothing is taken if there are not three.
  ghost function Alloc3(free: seq<bool>): (r: Option<Chain>)
    requires |free| == 8
    ensures r.Some? ==> var c := r.value;
              c.head < c.mid < c.tail < 8 && free[c.head] && free[c.mid] && free[c.tail]
    ensures r.None? ==> forall i, j, k :: 0 <= i < j < k < 8 ==> !(free[i] && free[j] && free[k])
  {
    var a := FirstFree(free, 0);
    if a == 8 then None
    else
      var b := FirstFree(free, a + 1);
      if b == 8 then None
      else
        var c := FirstFree(free, b + 1);
        if c == 8 then None else Some(Chain(a, b, c))
  }

  ghost function Taken(free: seq<bool>, c: Chain): seq<bool>
    requires |free| == 8 && c.head < 8 && c.mid < 8 && c.tail < 8
  {
    free[c.head := false][c.mid := false][c.tail := false]
  }

  // ---- submitting --------------------------------------------------------------------------

  // virtio_disk_rw from the allocation to the notification, for buffer b and block number n.
  ghost function Submit(q: Queue, c: Chain, b: nat, n: nat, write: bool): Queue
    requires Shaped(q) && c.head < 8 && c.mid < 8 && c.tail < 8
  {
    q.(free := Taken(q.free, c),
       ops := q.ops[c.head := Op(write, n * 2)],
       desc := q.desc[c.head := Desc(Header(c.head), 16, true, false, c.mid)]
                     [c.mid := Desc(Data(b), 1024, true, !write, c.tail)]
                     [c.tail := Desc(Status(c.head), 1, false, true, 0)],
       info := q.info[c.head := Info(Some(b), 255)],
       avail := q.avail[q.availIdx % 8 := c.head],
       availIdx := Inc(q.availIdx))
  }

  // The three descriptors are taken, and linked for this buffer.
  ghost predicate IsLinked(q: Queue, c: Chain, b: nat, write: bool) {
    && Shaped(q) && c.head < 8 && c.mid < 8 && c.tail < 8 && c.head != c.mid && c.head != c.tail && c.mid != c.tail
    && !q.free[c.head] && !q.free[c.mid] && !q.free[c.tail]
    && q.desc[c.head] == Desc(Header(c.head), 16, true, false, c.mid)
    && q.desc[c.mid] == Desc(Data(b), 1024, true, !write, c.tail)
    && q.desc[c.tail] == Desc(Status(c.head), 1, false, true, 0)
  }

  // The chain is set up for this request.
  ghost predicate IsChain(q: Queue, c: Chain, b: nat, n: nat, write: bool) {
    IsLinked(q, c, b, write) && q.ops[c.head] == Op(write, n * 2) && q.info[c.head].b == Some(b)
  }

  // ---- completion --------------------------------------------------------------------------

  // The device has carried out the request at head h: its status, and its entry in the used ring.
  ghost function Complete(q: Queue, h: nat): Queue
    requires Shaped(q) && h < 8
  {
    q.(info := q.info[h := q.info[h].(status := 0)], used := q.used[q.usedIdx % 8 := h], usedIdx := Inc(q.usedIdx))
  }

  // free_desc, without the wakeup; None where it panics.
  ghost function FreeDesc(q: Queue, i: nat): Option<Queue>
    requires Shaped(q)
  {
    if i >= 8 || q.free[i] then None
    else Some(q.(desc := q.desc[i := EmptyDesc], free := q.free[i := true]))
  }

  // free_chain from descriptor i, with at most `fuel` descriptors still taken.
  ghost function FreeChain(q: Queue, i: nat, fuel: nat): Option<Queue>
    requires Shaped(q)
    decreases fuel
  {
    if i >= 8 || fuel == 0 then None
    else
      var r := FreeDesc(q, i);
      if r.None? then None
      else if q.desc[i].more then FreeChain(r.value, q.desc[i].next, fuel - 1)
      else r
  }

  // The queue after the three descriptors have been given back.
  ghost function Released(q: Queue, c: Chain): Queue
    requires Shaped(q) && c.head < 8 && c.mid < 8 && c.tail < 8
  {
    q.(desc := q.desc[c.head := EmptyDesc][c.mid := EmptyDesc][c.tail := EmptyDesc],
       free := q.free[c.head := true][c.mid := true][c.tail := true])
  }

  /** free_chain gives back exactly the three descriptors, and does not panic. */
  lemma FreeChainFrees(q: Queue, c: Chain, b: nat, write: bool)
    requires IsLinked(q, c, b, write)
    ensures FreeChain(q, c.head, 8) == Some(Released(q, c))
  {
    var q1 := FreeDesc(q, c.head).value;
    var q2 := FreeDesc(q1, c.mid).value;
    assert FreeChain(q2, c.tail, 6) == FreeDesc(q2, c.tail);
    assert FreeChain(q1, c.mid, 7) == FreeChain(q2, c.tail, 6);
  }
}
