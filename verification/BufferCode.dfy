/** bio.c in its own form: buffers linked through prev and next around a head. */
module BufferCode {
  import opened Disk
  import opened BufferCache

  // The place of the list head among the link fields.
  const HEAD: nat := 30

  // The i-th element of the circular list; the head before the first and after the last.
  ghost function Slot(order: seq<nat>, i: int): nat {
    if 0 <= i < |order| then order[i] else HEAD
  }

  /** The links run through the buffers of `order` and back to the head, both ways. */
  ghost predicate IsRing(next: seq<nat>, prev: seq<nat>, order: seq<nat>) {
    && |next| == |prev| == NBUF + 1
    && (forall i :: 0 <= i < |order| ==> order[i] < NBUF)
    && (forall i, j :: 0 <= i < j < |order| ==> order[i] != order[j])
    && (forall i :: -1 <= i < |order| ==> next[Slot(order, i)] == Slot(order, i + 1))
    && (forall i :: 0 <= i <= |order| ==> prev[Slot(order, i)] == Slot(order, i - 1))
  }

  ghost function Without(order: seq<nat>, i: nat): seq<nat>
    requires i < |order|
  {
    order[..i] + order[i + 1..]
  }

  lemma SlotsDiffer(order: seq<nat>, i: int, j: int)
    requires -1 <= i < j <= |order| && !(i == -1 && j == |order|)
    requires forall k :: 0 <= k < |order| ==> order[k] < NBUF
    requires forall k, l :: 0 <= k < l < |order| ==> order[k] != order[l]
    ensures Slot(order, i) != Slot(order, j)
  {
  }

  lemma SlotWithout(order: seq<nat>, i: nat, j: int)
    requires i < |order| && -1 <= j <= |order| - 1
    ensures Slot(Without(order, i), j) == if j < i then Slot(order, j) else Slot(order, j + 1)
  {
  }

  lemma UnlinkNext(next: seq<nat>, prev: seq<nat>, order: seq<nat>, i: nat, j: int)
    requires IsRing(next, prev, order) && i < |order| && -1 <= j < |order| - 1
    ensures Slot(order, i - 1) <= NBUF && Slot(Without(order, i), j) <= NBUF
    ensures next[Slot(order, i - 1) := Slot(order, i + 1)][Slot(Without(order, i), j)] == Slot(Without(order, i), j + 1)
  {
    var p := Slot(order, i - 1);
    SlotWithout(order, i, j);
    SlotWithout(order, i, j + 1);
    assert next[Slot(order, j)] == Slot(order, j + 1);
    assert next[Slot(order, j + 1)] == Slot(order, j + 2);
    if j < i - 1 { SlotsDiffer(order, j, i - 1); }
    if j >= i && !(i == 0 && j + 1 == |order|) { SlotsDiffer(order, i - 1, j + 1); }
  }

  lemma UnlinkPrev(next: seq<nat>, prev: seq<nat>, order: seq<nat>, i: nat, j: int)
    requires IsRing(next, prev, order) && i < |order| && 0 <= j <= |order| - 1
    ensures Slot(order, i + 1) <= NBUF && Slot(Without(order, i), j) <= NBUF
    ensures prev[Slot(order, i + 1) := Slot(order, i - 1)][Slot(Without(order, i), j)] == Slot(Without(order, i), j - 1)
  {
    SlotWithout(order, i, j);
    SlotWithout(order, i, j - 1);
    assert prev[Slot(order, j)] == Slot(order, j - 1);
    assert prev[Slot(order, j + 1)] == Slot(order, j);
    if j < i { SlotsDiffer(order, j, i + 1); }
    if j > i { SlotsDiffer(order, i + 1, j + 1); }
  }

  // b->next->prev = b->prev; b->prev->next = b->next
  lemma Unlink(next: seq<nat>, prev: seq<nat>, order: seq<nat>, i: nat)
    requires IsRing(next, prev, order) && i < |order|
    ensures prev[order[i]] <= NBUF && next[order[i]] <= NBUF
    ensures IsRing(next[prev[order[i]] := next[order[i]]], prev[next[order[i]] := prev[order[i]]], Without(order, i))
  {
    assert next[Slot(order, i)] == Slot(order, i + 1) && prev[Slot(order, i)] == Slot(order, i - 1);
    var o, n, p := Without(order, i), next[order[i]], prev[order[i]];
    forall j | -1 <= j < |o| ensures next[p := n][Slot(o, j)] == Slot(o, j + 1) {
      UnlinkNext(next, prev, order, i, j);
    }
    forall j | 0 <= j <= |o| ensures prev[n := p][Slot(o, j)] == Slot(o, j - 1) {
      UnlinkPrev(next, prev, order, i, j);
    }
  }

  // b->next = head.next; b->prev = &head; head.next->prev = b; head.next = b
  lemma LinkFront(next: seq<nat>, prev: seq<nat>, order: seq<nat>, b: nat)
    requires IsRing(next, prev, order) && b < NBUF && b !in order
    ensures next[HEAD] <= NBUF
    ensures IsRing(next[b := next[HEAD]][HEAD := b], prev[b := HEAD][next[HEAD] := b], [b] + order)
  {
    var o, f := [b] + order, next[HEAD];
    assert next[Slot(order, -1)] == Slot(order, 0);
    forall j | -1 <= j < |o| ensures next[b := f][HEAD := b][Slot(o, j)] == Slot(o, j + 1) {
      assert Slot(o, j + 1) == if j == -1 then b else Slot(order, j);
      if j > 0 { assert next[Slot(order, j - 1)] == Slot(order, j); }
    }
    forall j | 0 <= j <= |o| ensures prev[b := HEAD][f := b][Slot(o, j)] == Slot(o, j - 1) {
      assert Slot(o, j) == if j == 0 then b else Slot(order, j - 1);
      if j > 0 { assert prev[Slot(order, j - 1)] == Slot(order, j - 2); }
      if j > 1 { SlotsDiffer(order, 0, j - 1); }
    }
  }

  class Bcache {
    const buf: array<Buf>
    const next: array<nat>
    const prev: array<nat>
    ghost var order: seq<nat>

    ghost predicate Linked()
      reads this, next, prev
    {
      next != prev && IsRing(next[..], prev[..], order)
    }

    ghost predicate Valid()
      reads this, buf, next, prev
    {
      buf.Length == NBUF && Linked() && IsPermutation(order)
    }

    ghost function Abs(): Cache
      reads this, buf
    {
      Cache(buf[..], order)
    }

    // binit: the buffers are linked in one after the other, each at the head.
    constructor ()
      ensures Valid() && fresh(buf) && fresh(next) && fresh(prev)
      ensures order == seq(NBUF, i => NBUF - 1 - i)
      ensures forall b :: 0 <= b < NBUF ==> buf[b] == Buf(Key(0, 0), false, 0, Block([]))
    {
      buf := new Buf[NBUF](_ => Buf(Key(0, 0), false, 0, Block([])));
      next := new nat[NBUF + 1](_ => HEAD);
      prev := new nat[NBUF + 1](_ => HEAD);
      order := [];
      new;
      var b := 0;
      while b < NBUF
        invariant 0 <= b <= NBUF && Linked() && order == seq(b, i requires 0 <= i < b => b - 1 - i)
        invariant forall k :: 0 <= k < NBUF ==> buf[k] == Buf(Key(0, 0), false, 0, Block([]))
      {
        assert b !in order;
        PushFront(b);
        b := b + 1;
      }
      Descending(order);
    }

    lemma Descending(o: seq<nat>)
      requires o == seq(NBUF, i requires 0 <= i < NBUF => NBUF - 1 - i)
      ensures IsPermutation(o)
    {
      forall b | 0 <= b < NBUF ensures b in o {
        assert o[NBUF - 1 - b] == b;
      }
    }

    // Link buffer b in behind the head.
    method PushFront(b: nat)
      requires Linked() && b < NBUF && b !in order
      modifies this`order, next, prev
      ensures Linked() && order == [b] + old(order)
    {
      LinkFront(next[..], prev[..], order, b);
      ghost var n: seq<nat>, p: seq<nat>, f: nat := next[..], prev[..], next[HEAD];
      next[b] := next[HEAD];
      prev[b] := HEAD;
      prev[next[HEAD]] := b;
      next[HEAD] := b;
      assert next[..] == n[b := f][HEAD := b];
      assert prev[..] == p[b := HEAD][f := b];
      order := [b] + order;
    }

    // Take the buffer at place i out of the list.
    method TakeOut(b: nat, ghost i: nat)
      requires Linked() && i < |order| && order[i] == b
      modifies this`order, next, prev
      ensures Linked() && order == Without(old(order), i)
    {
      Unlink(next[..], prev[..], order, i);
      ghost var n: seq<nat>, p: seq<nat> := next[..], prev[..];
      prev[next[b]] := prev[b];
      next[prev[b]] := next[b];
      assert prev[..] == p[n[b] := p[b]];
      assert next[..] == n[p[b] := n[b]];
      order := Without(order, i);
    }

    /** bget under bcache.lock: a buffer that holds the block, or the least recently released one
        that is not in use; not `ok` where the source panics. */
    method Bget(key: Key) returns (ok: bool, b: nat)
      requires Valid()
      modifies buf
      ensures Valid() && order == old(order)
      ensures ok == BufferCache.Bget(old(Abs()), key).Got?
      ensures ok ==> Got(Abs(), b) == BufferCache.Bget(old(Abs()), key)
      ensures !ok ==> Abs() == old(Abs())
    {
      hide IsRing;
      hide Find;
      hide Victim;
      ghost var c := Abs();
      ok, b := Search(key);
      if ok {
        buf[b] := buf[b].(refcnt := buf[b].refcnt + 1);
        assert Abs() == c.(bufs := c.bufs[b := c.bufs[b].(refcnt := c.bufs[b].refcnt + 1)]);
        return;
      }
      ok, b := Oldest();
      if ok {
        buf[b] := Buf(key, false, 1, buf[b].data);
        assert Abs() == c.(bufs := c.bufs[b := Buf(key, false, 1, c.bufs[b].data)]);
      }
    }

    method Search(key: Key) returns (ok: bool, b: nat)
      requires Valid()
      ensures var k := Find(Abs(), key, 0); ok == (k < NBUF) && (ok ==> b == order[k] < NBUF)
    {
      ghost var i := 0;
      assert next[..][Slot(order, -1)] == Slot(order, 0);
      b := next[HEAD];
      while b != HEAD
        invariant 0 <= i <= NBUF && b == Slot(order, i)
        invariant Find(Abs(), key, i) == Find(Abs(), key, 0)
        decreases NBUF - i
      {
        if buf[b].key == key {
          return true, b;
        }
        assert next[..][Slot(order, i)] == Slot(order, i + 1);
        b := next[b];
        i := i + 1;
      }
      ok := false;
    }

    method Oldest() returns (ok: bool, b: nat)
      requires Valid()
      ensures var v := Victim(Abs(), NBUF); ok == (v > 0) && (ok ==> b == order[v - 1] < NBUF)
    {
      ghost var i: nat := NBUF;
      assert prev[..][Slot(order, NBUF)] == Slot(order, NBUF - 1);
      b := prev[HEAD];
      while b != HEAD
        invariant 0 <= i <= NBUF && b == Slot(order, i - 1)
        invariant Victim(Abs(), i) == Victim(Abs(), NBUF)
        decreases i
      {
        if buf[b].refcnt == 0 {
          return true, b;
        }
        assert prev[..][Slot(order, i - 1)] == Slot(order, i - 2);
        b := prev[b];
        i := i - 1;
      }
      ok := false;
    }

    /** brelse under bcache.lock: a buffer that is no longer in use moves to the head. */
    method Brelse(b: nat)
      requires Valid() && b < NBUF && buf[b].refcnt > 0
      modifies this`order, buf, next, prev
      ensures Valid() && Abs() == BufferCache.Brelse(old(Abs()), b)
    {
      hide IsRing;
      BrelseListed(Abs(), b);
      ghost var was := order;
      buf[b] := buf[b].(refcnt := buf[b].refcnt - 1);
      if buf[b].refcnt == 0 {
        assert b in order;
        ghost var i :| 0 <= i < |order| && order[i] == b;
        FrontAt(order, i);
        TakeOut(b, i);
        assert b !in order;
        PushFront(b);
        assert order == [b] + was[..i] + was[i + 1..];
      }
    }

    method Bpin(b: nat)
      requires Valid() && b < NBUF
      modifies buf
      ensures Valid() && order == old(order)
      ensures buf[..] == old(buf[..])[b := old(buf[b]).(refcnt := old(buf[b]).refcnt + 1)]
    {
      buf[b] := buf[b].(refcnt := buf[b].refcnt + 1);
    }

    method Bunpin(b: nat)
      requires Valid() && b < NBUF && buf[b].refcnt > 0
      modifies buf
      ensures Valid() && order == old(order)
      ensures buf[..] == old(buf[..])[b := old(buf[b]).(refcnt := old(buf[b]).refcnt - 1)]
    {
      buf[b] := buf[b].(refcnt := buf[b].refcnt - 1);
    }
  }
}
