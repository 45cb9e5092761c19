/** The free list of umalloc.c as a sequence of blocks in address order, the list head `base`
    first.  Addresses and sizes are in header units. */
module FreeList {

  datatype Block = Block(addr: nat, size: nat)

  ghost predicate Holds(b: Block, u: nat) { b.addr <= u < b.addr + b.size }

  ghost predicate Apart(a: Block, b: Block) { a.addr + a.size <= b.addr || b.addr + b.size <= a.addr }

  /** In address order, base first and empty, and no two blocks touch. */
  ghost predicate Ordered(l: seq<Block>) {
    && |l| > 0 && l[0].size == 0
    && (forall i :: 1 <= i < |l| ==> l[i].size > 0)
    && (forall i, j :: 0 <= i < j < |l| ==> l[i].addr + l[i].size < l[j].addr)
  }

  // The block lies above base and shares no unit with a free block.
  ghost predicate Clear(l: seq<Block>, b: Block) {
    && b.size > 0 && |l| > 0 && l[0].addr < b.addr
    && forall i :: 0 <= i < |l| ==> Apart(l[i], b)
  }

  // Some free block holds the unit.
  ghost predicate IsFree(l: seq<Block>, u: nat) { exists i :: 0 <= i < |l| && Holds(l[i], u) }

  // ---- free --------------------------------------------------------------------------------

  // The last block of the first i + 1 that starts below a.
  ghost function PlaceUpTo(l: seq<Block>, a: nat, i: nat): (p: nat)
    requires i < |l| && l[0].addr < a
    ensures p <= i && l[p].addr < a && forall j :: p < j <= i ==> l[j].addr >= a
  {
    if l[i].addr < a then i else PlaceUpTo(l, a, i - 1)
  }

  ghost function Place(l: seq<Block>, a: nat): (p: nat)
    requires |l| > 0 && l[0].addr < a
    ensures p < |l| && l[p].addr < a && forall j :: p < j < |l| ==> l[j].addr >= a
  {
    PlaceUpTo(l, a, |l| - 1)
  }

  // free's coalescing, behind block p of the list.
  ghost function Insert(l: seq<Block>, p: nat, b: Block): seq<Block>
    requires p < |l|
  {
    var up := p + 1 < |l| && b.addr + b.size == l[p + 1].addr;
    var b1 := if up then Block(b.addr, b.size + l[p + 1].size) else b;
    var rest := if up then l[p + 2..] else l[p + 1..];
    if l[p].addr + l[p].size == b.addr
    then l[..p] + [Block(l[p].addr, l[p].size + b1.size)] + rest
    else l[..p + 1] + [b1] + rest
  }

  // The cases of Insert, element by element.
  lemma InsertAt(l: seq<Block>, p: nat, b: Block, j: nat)
    requires p < |l| && j < |Insert(l, p, b)|
    ensures var up, down := p + 1 < |l| && b.addr + b.size == l[p + 1].addr, l[p].addr + l[p].size == b.addr;
            var b1 := if up then Block(b.addr, b.size + l[p + 1].size) else b;
            && |Insert(l, p, b)| == |l| + 1 - (if up then 1 else 0) - (if down then 1 else 0)
            && Insert(l, p, b)[j]
               == if down then
                    if j < p then l[j] else if j == p then Block(l[p].addr, l[p].size + b1.size)
                    else l[j + if up then 1 else 0]
                  else
                    if j <= p then l[j] else if j == p + 1 then b1 else l[j - 1 + if up then 1 else 0]
  {
  }

  lemma PlaceClear(l: seq<Block>, b: Block)
    requires Ordered(l) && Clear(l, b)
    ensures var p := Place(l, b.addr);
            && l[p].addr + l[p].size <= b.addr && (p == 0 ==> l[p].addr + l[p].size < b.addr)
            && (p + 1 < |l| ==> b.addr + b.size <= l[p + 1].addr)
  {
    var p := Place(l, b.addr);
    assert Apart(l[p], b);
    if p + 1 < |l| {
      assert Apart(l[p + 1], b);
      if p + 2 < |l| { assert l[p + 1].addr < l[p + 2].addr; }
    }
  }

  /** free keeps the list in order, with no two blocks touching. */
  lemma InsertOrdered(l: seq<Block>, b: Block)
    requires Ordered(l) && Clear(l, b)
    ensures Ordered(Insert(l, Place(l, b.addr), b))
    ensures Insert(l, Place(l, b.addr), b)[0].addr == l[0].addr && Place(l, b.addr) < |Insert(l, Place(l, b.addr), b)|
  {
    var p := Place(l, b.addr);
    PlaceClear(l, b);
    var m := Insert(l, p, b);
    forall i, j | 0 <= i < j < |m| ensures m[i].addr + m[i].size < m[j].addr {
      InsertAt(l, p, b, i);
      InsertAt(l, p, b, j);
    }
    forall i | 0 <= i < |m| ensures if i == 0 then m[i].size == 0 && m[i].addr == l[0].addr else m[i].size > 0 {
      InsertAt(l, p, b, i);
    }
  }

  /** The units that become free are exactly those of the block. */
  lemma InsertFrees(l: seq<Block>, b: Block, u: nat)
    requires Ordered(l) && Clear(l, b)
    ensures IsFree(Insert(l, Place(l, b.addr), b), u) <==> IsFree(l, u) || Holds(b, u)
  {
    var p := Place(l, b.addr);
    PlaceClear(l, b);
    var m := Insert(l, p, b);
    if IsFree(m, u) {
      var j :| 0 <= j < |m| && Holds(m[j], u);
      InsertAt(l, p, b, j);
      HeldBefore(l, p, b, j, u);
    }
    if IsFree(l, u) {
      var j :| 0 <= j < |l| && Holds(l[j], u);
      StillHeld(l, p, b, j, u);
    }
    if Holds(b, u) {
      NowHeld(l, p, b, u);
    }
  }

  lemma HeldBefore(l: seq<Block>, p: nat, b: Block, j: nat, u: nat)
    requires p < |l| && j < |Insert(l, p, b)| && Holds(Insert(l, p, b)[j], u)
    ensures IsFree(l, u) || Holds(b, u)
  {
    InsertAt(l, p, b, j);
    var up, down := p + 1 < |l| && b.addr + b.size == l[p + 1].addr, l[p].addr + l[p].size == b.addr;
    if j == (if down then p else p + 1) {
      if down && Holds(l[p], u) {
      } else if up && Holds(l[p + 1], u) {
      } else {
        assert Holds(b, u);
      }
    } else {
      var k := if down then if j < p then j else j + (if up then 1 else 0) else if j <= p then j else j - 1 + (if up then 1 else 0);
      assert Holds(l[k], u);
    }
  }

  lemma StillHeld(l: seq<Block>, p: nat, b: Block, j: nat, u: nat)
    requires p < |l| && j < |l| && Holds(l[j], u)
    ensures IsFree(Insert(l, p, b), u)
  {
    var m := Insert(l, p, b);
    var up, down := p + 1 < |l| && b.addr + b.size == l[p + 1].addr, l[p].addr + l[p].size == b.addr;
    var k := if down then
               if j <= p then j else if up then j - 1 else j
             else
               if j <= p then j else if up then j else j + 1;
    assert |m| > 0;
    InsertAt(l, p, b, 0);
    InsertAt(l, p, b, k);
    assert Holds(m[k], u);
  }

  lemma NowHeld(l: seq<Block>, p: nat, b: Block, u: nat)
    requires p < |l| && Holds(b, u)
    ensures IsFree(Insert(l, p, b), u)
  {
    var m := Insert(l, p, b);
    var k := if l[p].addr + l[p].size == b.addr then p else p + 1;
    InsertAt(l, p, b, 0);
    InsertAt(l, p, b, k);
    assert Holds(m[k], u);
  }

  // ---- malloc ------------------------------------------------------------------------------

  function After(i: nat, n: nat): nat
    requires i < n
  {
    if i + 1 == n then 0 else i + 1
  }

  function Before(i: nat, n: nat): nat
    requires i < n
  {
    if i == 0 then n - 1 else i - 1
  }

  // malloc's search: from block i on, `left` more blocks after it, for one of n units; |l| if none.
  ghost function Scan(l: seq<Block>, i: nat, left: nat, n: nat): (r: nat)
    requires i < |l|
    ensures r < |l| ==> l[r].size >= n
    ensures r <= |l|
    decreases left
  {
    if l[i].size >= n then i else if left == 0 then |l| else Scan(l, After(i, |l|), left - 1, n)
  }

  // Once round the list, starting behind freep.
  ghost function Search(l: seq<Block>, cur: nat, n: nat): (r: nat)
    requires cur < |l|
    ensures r <= |l| && (r < |l| ==> l[r].size >= n)
  {
    Scan(l, After(cur, |l|), |l| - 1, n)
  }

  // The block j places after i.
  function Ahead(i: nat, j: nat, n: nat): nat
    requires i < n && j < n
  {
    if i + j < n then i + j else i + j - n
  }

  lemma {:induction false} ScanMisses(l: seq<Block>, i: nat, left: nat, n: nat, j: nat)
    requires i < |l| && left < |l| && Scan(l, i, left, n) == |l| && j <= left
    ensures l[Ahead(i, j, |l|)].size < n
    decreases left
  {
    if j > 0 {
      ScanMisses(l, After(i, |l|), left - 1, n, j - 1);
    }
  }

  /** The search misses only if no block is large enough. */
  lemma SearchMisses(l: seq<Block>, cur: nat, n: nat, k: nat)
    requires cur < |l| && k < |l| && Search(l, cur, n) == |l|
    ensures l[k].size < n
  {
    var i := After(cur, |l|);
    ScanMisses(l, i, |l| - 1, n, if k >= i then k - i else k + |l| - i);
  }

  // The search stops at the first block that is large enough.
  lemma {:induction false} ScanFirst(l: seq<Block>, i: nat, left: nat, n: nat) returns (d: nat)
    requires i < |l| && left < |l| && Scan(l, i, left, n) < |l|
    ensures d <= left && Scan(l, i, left, n) == Ahead(i, d, |l|)
    ensures forall j :: 0 <= j < d ==> l[Ahead(i, j, |l|)].size < n
    decreases left
  {
    if l[i].size >= n {
      d := 0;
    } else {
      d := ScanFirst(l, After(i, |l|), left - 1, n);
      forall j | 0 <= j <= d ensures l[Ahead(i, j, |l|)].size < n {
        if j > 0 { assert Ahead(i, j, |l|) == Ahead(After(i, |l|), j - 1, |l|); }
      }
      d := d + 1;
    }
  }

  // Take n units off block i: all of it, or its tail.
  ghost function Take(l: seq<Block>, i: nat, n: nat): seq<Block>
    requires i < |l| && l[i].size >= n
  {
    if l[i].size == n then l[..i] + l[i + 1..] else l[i := Block(l[i].addr, l[i].size - n)]
  }

  ghost function TakenBlock(l: seq<Block>, i: nat, n: nat): Block
    requires i < |l| && l[i].size >= n
  {
    Block(l[i].addr + (l[i].size - n), n)
  }

  lemma TakeOrdered(l: seq<Block>, i: nat, n: nat)
    requires Ordered(l) && i < |l| && l[i].size >= n > 0
    ensures Ordered(Take(l, i, n)) && Take(l, i, n)[0] == l[0] && Clear(Take(l, i, n), TakenBlock(l, i, n))
  {
    var m := Take(l, i, n);
    if l[i].size == n {
      assert forall j :: 0 <= j < |m| ==> m[j] == if j < i then l[j] else l[j + 1];
    }
  }

  lemma LeftIsFree(l: seq<Block>, i: nat, n: nat, u: nat)
    requires Ordered(l) && i < |l| && l[i].size >= n > 0 && IsFree(Take(l, i, n), u)
    ensures IsFree(l, u) && !Holds(TakenBlock(l, i, n), u)
  {
    var m := Take(l, i, n);
    TakeOrdered(l, i, n);
    var j :| 0 <= j < |m| && Holds(m[j], u);
    hide Ordered;
    assert Apart(m[j], TakenBlock(l, i, n));
    assert Holds(l[if l[i].size == n && j >= i then j + 1 else j], u);
  }

  lemma FreeIsLeft(l: seq<Block>, i: nat, n: nat, u: nat)
    requires i < |l| && l[i].size >= n > 0 && IsFree(l, u) && !Holds(TakenBlock(l, i, n), u)
    ensures IsFree(Take(l, i, n), u)
  {
    var m := Take(l, i, n);
    var j :| 0 <= j < |l| && Holds(l[j], u);
    assert Holds(m[if l[i].size == n && j > i then j - 1 else j], u);
  }

  /** The units handed out are exactly those no longer free. */
  lemma TakeFrees(l: seq<Block>, i: nat, n: nat, u: nat)
    requires Ordered(l) && i < |l| && l[i].size >= n > 0
    ensures IsFree(l, u) <==> IsFree(Take(l, i, n), u) || Holds(TakenBlock(l, i, n), u)
    ensures !(IsFree(Take(l, i, n), u) && Holds(TakenBlock(l, i, n), u))
  {
    hide Ordered;
    if IsFree(Take(l, i, n), u) { LeftIsFree(l, i, n, u); }
    if IsFree(l, u) && !Holds(TakenBlock(l, i, n), u) { FreeIsLeft(l, i, n, u); }
    if Holds(TakenBlock(l, i, n), u) { assert Holds(l[i], u); }
  }
}
