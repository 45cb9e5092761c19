/** alloc_desc, free_desc, free_chain, alloc3_desc, the body of virtio_disk_rw and the loop of
    virtio_disk_intr in their own form, over descriptor and ring arrays that change in place. */
module VirtioCode {
  import opened Options
  import opened Virtio
  import opened VirtioRuns

  class Disk {
    const desc: array<Desc>
    const free: array<bool>
    const ops: array<Op>
    const info: array<Info>
    const avail: array<nat>
    const used: array<nat>
    var availIdx: nat
    var usedIdx: nat
    var seen: nat
    var busy: set<nat>              // the buffers whose b->disk is 1

    ghost predicate Valid()
      reads this
    {
      && desc.Length == 8 && free.Length == 8 && ops.Length == 8 && info.Length == 8 && avail.Length == 8 && used.Length == 8
      && availIdx < 65536 && usedIdx < 65536 && seen < 65536 && avail != used
    }

    ghost function Abs(): (q: Queue)
      reads this, desc, free, ops, info, avail, used
    {
      Queue(desc[..], free[..], ops[..], info[..], avail[..], availIdx, used[..], usedIdx, seen)
    }

    constructor ()
      ensures Valid() && Abs() == Boot(map[]).q && busy == {}
    {
      desc := new Desc[8](_ => EmptyDesc);
      free := new bool[8](_ => true);
      ops := new Op[8](_ => Op(false, 0));
      info := new Info[8](_ => Info(None, 0));
      avail := new nat[8](_ => 0);
      used := new nat[8](_ => 0);
      availIdx, usedIdx, seen, busy := 0, 0, 0, {};
    }

    // alloc_desc; NUM where the source returns -1.
    method AllocDesc() returns (i: nat)
      requires Valid()
      modifies free
      ensures i == FirstFree(old(free[..]), 0)
      ensures free[..] == if i < 8 then old(free[..])[i := false] else old(free[..])
    {
      i := 0;
      while i < NUM
        invariant 0 <= i <= 8 && FirstFree(free[..], i) == FirstFree(free[..], 0) && free[..] == old(free[..])
      {
        if free[i] {
          free[i] := false;
          return;
        }
        i := i + 1;
      }
    }

    // free_desc; not `ok` where it panics.
    method FreeDesc(i: nat) returns (ok: bool)
      requires Valid()
      modifies desc, free
      ensures ok == Virtio.FreeDesc(old(Abs()), i).Some?
      ensures Abs() == if ok then Virtio.FreeDesc(old(Abs()), i).value else old(Abs())
    {
      ghost var q := Abs();
      if i >= NUM {
        return false;
      }
      if free[i] {
        return false;
      }
      desc[i] := EmptyDesc;
      free[i] := true;
      assert desc[..] == q.desc[i := EmptyDesc] && free[..] == q.free[i := true];
      ok := true;
    }

    /** free_chain of a request's chain: exactly its three descriptors are free again. */
    method FreeChain(c: Chain, ghost b: nat, ghost write: bool) returns (ok: bool)
      requires Valid() && IsLinked(Abs(), c, b, write)
      modifies desc, free
      ensures ok && Abs() == Released(old(Abs()), c)
    {
      hide IsLinked;
      FreeChainFrees(Abs(), c, b, write);
      ghost var q := Abs();
      var i := c.head;
      ghost var fuel: nat := 8;
      while true
        invariant Valid() && Virtio.FreeChain(Abs(), i, fuel) == Virtio.FreeChain(q, c.head, 8) && Virtio.FreeChain(Abs(), i, fuel).Some?
        decreases fuel
      {
        Unfold(Abs(), i, fuel);
        var more, next := desc[i].more, desc[i].next;
        ok := FreeDesc(i);
        if !more {
          return;
        }
        i := next;
        fuel := fuel - 1;
      }
    }

    lemma Unfold(q: Queue, i: nat, fuel: nat)
      requires Shaped(q) && Virtio.FreeChain(q, i, fuel).Some?
      ensures i < 8 && fuel > 0 && Virtio.FreeDesc(q, i).Some?
      ensures Virtio.FreeChain(q, i, fuel)
              == if q.desc[i].more then Virtio.FreeChain(Virtio.FreeDesc(q, i).value, q.desc[i].next, fuel - 1) else Virtio.FreeDesc(q, i)
    {
    }

    // free_desc of a descriptor that has not been set up yet.
    method GiveBack(i: nat)
      requires Valid() && i < 8 && !free[i] && desc[i] == EmptyDesc
      modifies desc, free
      ensures free[..] == old(free[..])[i := true] && desc[..] == old(desc[..])
    {
      ghost var d := desc[..];
      var ok := FreeDesc(i);
      assert d[i := EmptyDesc] == d;
    }

    /** alloc3_desc: three descriptors, or none: when it fails, the bits it took are given back. */
    method Alloc3Desc() returns (c: Option<Chain>)
      requires Valid()
      requires forall i :: 0 <= i < 8 && free[i] ==> desc[i] == EmptyDesc     // QueueIsSound's Partition
      modifies desc, free
      ensures c == Alloc3(old(free[..]))
      ensures free[..] == if c.Some? then Taken(old(free[..]), c.value) else old(free[..])
      ensures desc[..] == old(desc[..])
    {
      hide FirstFree;
      ghost var f := free[..];
      c := None;
      var a := AllocDesc();
      if a == NUM {
        return;
      }
      FirstFreeAfter(f, a);
      var b := AllocDesc();
      if b == NUM {
        GiveBack(a);
        TakeAndUndo(f, a);
        return;
      }
      FirstFreeAfter(f[a := false], b);
      FirstFreeSkips(f, a, b);
      var e := AllocDesc();
      if e == NUM {
        GiveBack(a);
        GiveBack(b);
        TakeTwoAndUndo(f, a, b);
        return;
      }
      c := Some(Chain(a, b, e));
    }

    lemma TakeAndUndo(f: seq<bool>, a: nat)
      requires a < |f| && f[a]
      ensures f[a := false][a := true] == f
    {
    }

    lemma TakeTwoAndUndo(f: seq<bool>, a: nat, b: nat)
      requires a < |f| && b < |f| && f[a] && f[b] && a != b
      ensures f[a := false][b := false][a := true][b := true] == f
    {
    }

    // Once the first free descriptor is taken, the next one is found behind it.
    lemma FirstFreeAfter(f: seq<bool>, a: nat)
      requires a < |f| && FirstFree(f, 0) == a
      ensures FirstFree(f[a := false], 0) == FirstFree(f, a + 1)
    {
      FirstFreeFrom(f[a := false], 0, a + 1);
      FirstFreeSame(f, f[a := false], a + 1);
    }

    lemma FirstFreeSkips(f: seq<bool>, a: nat, b: nat)
      requires a < b < |f|
      ensures FirstFree(f[a := false], b + 1) == FirstFree(f, b + 1)
    {
      FirstFreeSame(f, f[a := false], b + 1);
    }

    lemma {:induction false} FirstFreeFrom(f: seq<bool>, i: nat, j: nat)
      requires i <= j <= |f| && forall k :: i <= k < j ==> !f[k]
      ensures FirstFree(f, i) == FirstFree(f, j)
      decreases j - i
    {
      if i < j { FirstFreeFrom(f, i + 1, j); }
    }

    lemma {:induction false} FirstFreeSame(f: seq<bool>, g: seq<bool>, i: nat)
      requires i <= |f| == |g| && forall k :: i <= k < |f| ==> f[k] == g[k]
      ensures FirstFree(f, i) == FirstFree(g, i)
      decreases |f| - i
    {
      if i < |f| { FirstFreeSame(f, g, i + 1); }
    }

    /** virtio_disk_rw from the formatting of the descriptors to the notification. */
    method SubmitRequest(c: Chain, b: nat, n: nat, write: bool)
      requires Valid() && c.head < 8 && c.mid < 8 && c.tail < 8 && c.head != c.mid && c.head != c.tail && c.mid != c.tail
      requires !free[c.head] && !free[c.mid] && !free[c.tail]
      modifies this`availIdx, this`busy, desc, ops, info, avail
      ensures Valid() && Abs() == Submit(old(Abs()), c, b, n, write) && busy == old(busy) + {b}
    {
      ghost var q := Abs();
      ops[c.head] := Op(write, n * 2);
      desc[c.head] := Desc(Header(c.head), 16, true, false, c.mid);
      desc[c.mid] := Desc(Data(b), 1024, true, !write, c.tail);
      info[c.head] := info[c.head].(status := 255);
      desc[c.tail] := Desc(Status(c.head), 1, false, true, 0);
      busy := busy + {b};
      info[c.head] := info[c.head].(b := Some(b));
      avail[availIdx % NUM] := c.head;
      availIdx := (availIdx + 1) % 65536;
      SubmitIs(q, c, b, n, write);
      assert desc[..] == Submit(q, c, b, n, write).desc;
      assert info[..] == Submit(q, c, b, n, write).info;
    }

    lemma SubmitIs(q: Queue, c: Chain, b: nat, n: nat, write: bool)
      requires Shaped(q) && c.head < 8 && c.mid < 8 && c.tail < 8 && !q.free[c.head] && !q.free[c.mid] && !q.free[c.tail]
      ensures Submit(q, c, b, n, write).free == q.free
    {
    }

    /** One turn of virtio_disk_intr's loop, for a head that the device has put into the used ring;
        not `ok` where it panics. */
    method HandleUsed() returns (ok: bool)
      requires Valid() && seen != usedIdx && used[seen % 8] < 8
      modifies this`seen, this`busy
      ensures var e := old(info[used[seen % 8]]);
              && ok == (e.status == 0 && e.b.Some?)
              && (ok ==> seen == Inc(old(seen)) && busy == old(busy) - {e.b.value})
              && (!ok ==> seen == old(seen) && busy == old(busy))
    {
      var id := used[seen % NUM];
      if info[id].status != 0 {
        return false;
      }
      if info[id].b.None? {
        return false;
      }
      busy := busy - {info[id].b.value};
      seen := (seen + 1) % 65536;
      ok := true;
    }
  }
}
