/** umalloc.c in its own form: headers in memory, linked in a circle through `ptr`. */
module MallocCode {
  import opened Options
  import opened FreeList
  import opened MallocRuns

  ghost predicate LinkedAt(ptr: map<nat, nat>, size: map<nat, nat>, l: seq<Block>, i: nat)
    requires i < |l|
  {
    && l[i].addr in ptr && l[i].addr in size
    && size[l[i].addr] == l[i].size && ptr[l[i].addr] == l[After(i, |l|)].addr
  }

  // The headers of the list, linked in a circle.
  ghost predicate Linked(ptr: map<nat, nat>, size: map<nat, nat>, l: seq<Block>) {
    forall i :: 0 <= i < |l| ==> LinkedAt(ptr, size, l, i)
  }

  // The links after free has put bp behind p.
  function FreedPtr(ptr: map<nat, nat>, size: map<nat, nat>, p: nat, bp: nat): map<nat, nat>
    requires p in ptr && p in size && bp in size && ptr[p] in ptr
  {
    var next := ptr[p];
    var ptr1 := ptr[bp := if bp + size[bp] == next then ptr[next] else next];
    if p + size[p] == bp then ptr1[p := ptr1[bp]] else ptr1[p := bp]
  }

  function FreedSize(ptr: map<nat, nat>, size: map<nat, nat>, p: nat, bp: nat): map<nat, nat>
    requires p in ptr && p in size && bp in size && ptr[p] in size
  {
    var next := ptr[p];
    var size1 := if bp + size[bp] == next then size[bp := size[bp] + size[next]] else size;
    if p + size[p] == bp then size1[p := size1[p] + size1[bp]] else size1
  }

  // The same, one header at a time.
  lemma FreedAt(ptr: map<nat, nat>, size: map<nat, nat>, p: nat, bp: nat, x: nat)
    requires p in ptr && p in size && bp in size && p != bp && ptr[p] in ptr && ptr[p] in size && x in ptr && x in size
    ensures var next := ptr[p];
            var up, down := bp + size[bp] == next, p + size[p] == bp;
            var ptr', size' := FreedPtr(ptr, size, p, bp), FreedSize(ptr, size, p, bp);
            && bp in ptr' && bp in size' && p in ptr' && p in size' && x in ptr' && x in size'
            && ptr'[bp] == (if up then ptr[next] else next) && size'[bp] == (if up then size[bp] + size[next] else size[bp])
            && ptr'[p] == (if down then ptr'[bp] else bp) && size'[p] == (if down then size[p] + size'[bp] else size[p])
            && (x != p && x != bp ==> ptr'[x] == ptr[x] && size'[x] == size[x])
  {
  }

  lemma Distinct(l: seq<Block>, i: nat, j: nat)
    requires Ordered(l) && i < |l| && j < |l| && l[i].addr == l[j].addr
    ensures i == j
  {
  }

  lemma NextIsAfter(l: seq<Block>, b: Block)
    requires Ordered(l) && Clear(l, b)
    ensures var p := Place(l, b.addr);
            (b.addr + b.size == l[After(p, |l|)].addr) <==> (p + 1 < |l| && b.addr + b.size == l[p + 1].addr)
    ensures forall i :: 0 <= i < |l| ==> l[i].addr != b.addr
  {
    forall i | 0 <= i < |l| ensures l[i].addr != b.addr {
      assert Apart(l[i], b);
    }
  }

  // The block of l that element j of the new list comes from.
  ghost function Origin(l: seq<Block>, p: nat, b: Block, j: nat): (k: nat)
    requires p < |l| && j < |Insert(l, p, b)|
    ensures k < |l|
  {
    InsertAt(l, p, b, j);
    var up, down := p + 1 < |l| && b.addr + b.size == l[p + 1].addr, l[p].addr + l[p].size == b.addr;
    if j <= p then j
    else if down then j + (if up then 1 else 0)
    else if j == p + 1 then p else j - 1 + (if up then 1 else 0)
  }

  // The block joins its predecessor.
  lemma FreeLinkMerged(ptr: map<nat, nat>, size: map<nat, nat>, l: seq<Block>, p: nat, b: Block, j: nat)
    requires Ordered(l) && p < |l| && j < |Insert(l, p, b)| && b.addr in size && size[b.addr] == b.size
    requires (b.addr + b.size == l[After(p, |l|)].addr) <==> (p + 1 < |l| && b.addr + b.size == l[p + 1].addr)
    requires forall i :: 0 <= i < |l| ==> l[i].addr != b.addr
    requires LinkedAt(ptr, size, l, p) && LinkedAt(ptr, size, l, After(p, |l|)) && LinkedAt(ptr, size, l, Origin(l, p, b, j))
    requires l[p].addr + l[p].size == b.addr
    ensures LinkedAt(FreedPtr(ptr, size, l[p].addr, b.addr), FreedSize(ptr, size, l[p].addr, b.addr), Insert(l, p, b), j)
  {
    hide Ordered;
    hide Insert;
    hide FreedPtr;
    hide FreedSize;
    var m, k := Insert(l, p, b), Origin(l, p, b, j);
    InsertAt(l, p, b, j);
    InsertAt(l, p, b, After(j, |m|));
    FreedAt(ptr, size, l[p].addr, b.addr, l[k].addr);
    if l[k].addr == l[p].addr { Distinct(l, k, p); }
  }

  // The block stays a block of its own, or joins its successor.
  lemma FreeLinkNew(ptr: map<nat, nat>, size: map<nat, nat>, l: seq<Block>, p: nat, b: Block, j: nat)
    requires Ordered(l) && p < |l| && j < |Insert(l, p, b)| && b.addr in size && size[b.addr] == b.size
    requires (b.addr + b.size == l[After(p, |l|)].addr) <==> (p + 1 < |l| && b.addr + b.size == l[p + 1].addr)
    requires forall i :: 0 <= i < |l| ==> l[i].addr != b.addr
    requires LinkedAt(ptr, size, l, p) && LinkedAt(ptr, size, l, After(p, |l|)) && LinkedAt(ptr, size, l, Origin(l, p, b, j))
    requires l[p].addr + l[p].size != b.addr
    ensures LinkedAt(FreedPtr(ptr, size, l[p].addr, b.addr), FreedSize(ptr, size, l[p].addr, b.addr), Insert(l, p, b), j)
  {
    hide Ordered;
    hide Insert;
    hide FreedPtr;
    hide FreedSize;
    var m, k := Insert(l, p, b), Origin(l, p, b, j);
    InsertAt(l, p, b, j);
    InsertAt(l, p, b, After(j, |m|));
    FreedAt(ptr, size, l[p].addr, b.addr, l[k].addr);
    if l[k].addr == l[p].addr { Distinct(l, k, p); }
  }

  /** Relinking in place is insertion into the list. */
  lemma FreeLinks(ptr: map<nat, nat>, size: map<nat, nat>, l: seq<Block>, b: Block)
    requires Ordered(l) && Clear(l, b) && Linked(ptr, size, l) && b.addr in size && size[b.addr] == b.size
    ensures var p := Place(l, b.addr);
            && l[p].addr in ptr && l[p].addr in size && ptr[l[p].addr] in ptr && ptr[l[p].addr] in size
            && Linked(FreedPtr(ptr, size, l[p].addr, b.addr), FreedSize(ptr, size, l[p].addr, b.addr), Insert(l, p, b))
  {
    hide Insert;
    hide FreedPtr;
    hide FreedSize;
    var p := Place(l, b.addr);
    NextIsAfter(l, b);
    assert LinkedAt(ptr, size, l, p) && LinkedAt(ptr, size, l, After(p, |l|));
    forall j | 0 <= j < |Insert(l, p, b)|
      ensures LinkedAt(FreedPtr(ptr, size, l[p].addr, b.addr), FreedSize(ptr, size, l[p].addr, b.addr), Insert(l, p, b), j)
    {
      assert LinkedAt(ptr, size, l, Origin(l, p, b, j));
      if l[p].addr + l[p].size == b.addr {
        FreeLinkMerged(ptr, size, l, p, b, j);
      } else {
        FreeLinkNew(ptr, size, l, p, b, j);
      }
    }
  }

  // The links after malloc has taken n units off block i, behind prev.
  lemma TakeLinks(ptr: map<nat, nat>, size: map<nat, nat>, l: seq<Block>, i: nat, n: nat)
    requires Ordered(l) && Linked(ptr, size, l) && 0 < i < |l| && l[i].size >= n > 0
    ensures l[i - 1].addr in ptr && l[i].addr in ptr && l[i].addr in size
    ensures l[i].size == n ==> Linked(ptr[l[i - 1].addr := ptr[l[i].addr]], size, Take(l, i, n))
    ensures l[i].size > n ==> Linked(ptr, size[l[i].addr := l[i].size - n][TakenBlock(l, i, n).addr := n], Take(l, i, n))
  {
    assert LinkedAt(ptr, size, l, i) && LinkedAt(ptr, size, l, i - 1);
    var m := Take(l, i, n);
    if l[i].size == n {
      var ptr' := ptr[l[i - 1].addr := ptr[l[i].addr]];
      forall j | 0 <= j < |m| ensures LinkedAt(ptr', size, m, j) {
        RemoveLinkAt(ptr, size, l, i, n, j);
      }
    } else {
      var size' := size[l[i].addr := l[i].size - n][TakenBlock(l, i, n).addr := n];
      forall j | 0 <= j < |m| ensures LinkedAt(ptr, size', m, j) {
        ShrinkLinkAt(ptr, size, l, i, n, j);
      }
    }
  }

  lemma RemoveLinkAt(ptr: map<nat, nat>, size: map<nat, nat>, l: seq<Block>, i: nat, n: nat, j: nat)
    requires Ordered(l) && Linked(ptr, size, l) && 0 < i < |l| && l[i].size == n > 0 && j < |Take(l, i, n)|
    requires l[i - 1].addr in ptr && l[i].addr in ptr
    ensures LinkedAt(ptr[l[i - 1].addr := ptr[l[i].addr]], size, Take(l, i, n), j)
  {
    hide Ordered;
    var m, k := Take(l, i, n), if j < i then j else j + 1;
    assert LinkedAt(ptr, size, l, k) && LinkedAt(ptr, size, l, i);
    assert m[j] == l[k] && m[After(j, |m|)] == l[if k == i - 1 then After(i, |l|) else After(k, |l|)];
    if l[k].addr == l[i - 1].addr { Distinct(l, k, i - 1); }
  }

  lemma ShrinkLinkAt(ptr: map<nat, nat>, size: map<nat, nat>, l: seq<Block>, i: nat, n: nat, j: nat)
    requires Ordered(l) && Linked(ptr, size, l) && 0 < i < |l| && l[i].size > n > 0 && j < |l| && l[i].addr in size
    ensures LinkedAt(ptr, size[l[i].addr := l[i].size - n][TakenBlock(l, i, n).addr := n], Take(l, i, n), j)
  {
    assert LinkedAt(ptr, size, l, j);
    assert l[j].addr != TakenBlock(l, i, n).addr by {
      if j > i { assert l[i].addr + l[i].size < l[j].addr; }
      if j < i { assert l[j].addr + l[j].size < l[i].addr; }
    }
    if l[j].addr == l[i].addr { Distinct(l, i, j); }
  }

  // Steps from block k round to block p.
  ghost function Distance(k: nat, p: nat, n: nat): (d: nat)
    requires k < n && p < n
    ensures d < n
  {
    if k <= p then p - k else n - k + p
  }

  lemma DistanceStep(i: nat, p: nat, n: nat)
    requires i < n && p < n
    ensures Before(After(i, n), n) == i && Distance(After(p, n), p, n) == n - 1
    ensures i != p ==> Distance(i, p, n) == Distance(After(i, n), p, n) + 1
    ensures i == p <==> Distance(i, p, n) == 0
  {
  }

  class Heap {
    const base: nat
    var ptr: map<nat, nat>
    var size: map<nat, nat>
    var freep: nat
    ghost var list: seq<Block>
    ghost var cur: nat

    ghost predicate Valid()
      reads this
    {
      && Ordered(list) && Linked(ptr, size, list) && list[0].addr == base
      && cur < |list| && freep == list[cur].addr
    }

    // The state malloc's first call sets up.
    constructor (base: nat)
      ensures Valid() && this.base == base && list == [Block(base, 0)] && cur == 0
    {
      this.base := base;
      this.ptr := map[base := base];
      this.size := map[base := 0];
      this.freep := base;
      this.list := [Block(base, 0)];
      this.cur := 0;
    }

    /** free: put the block whose header is at bp back, behind the free block it follows.  The search
        for that block always ends. */
    method Free(bp: nat)
      requires Valid() && bp in size && Clear(list, Block(bp, size[bp]))
      modifies this`ptr, this`size, this`freep, this`list, this`cur
      ensures Valid()
      ensures var b := Block(bp, old(size)[bp]);
              cur == Place(old(list), bp) && list == Insert(old(list), cur, b)
    {
      ghost var b, k: nat, place: nat := Block(bp, size[bp]), cur, Place(list, bp);
      PlaceClear(list, b);
      var p := freep;
      assert LinkedAt(ptr, size, list, k);
      while !(bp > p && bp < ptr[p])
        invariant Valid() && list == old(list) && ptr == old(ptr) && size == old(size)
        invariant k < |list| && p == list[k].addr && LinkedAt(ptr, size, list, k)
        decreases Distance(k, place, |list|)
      {
        Stops(bp, k, place);
        if p >= ptr[p] && (bp > p || bp < ptr[p]) {
          break;
        }
        p := ptr[p];
        k := After(k, |list|);
        assert LinkedAt(ptr, size, list, k);
      }
      Stops(bp, k, place);
      Relink(p, bp, place);
    }

    // The test of free's loop tells the right place from all others.
    lemma Stops(bp: nat, k: nat, place: nat)
      requires Valid() && bp in size && k < |list| && Clear(list, Block(bp, size[bp])) && LinkedAt(ptr, size, list, k)
      requires list[0].addr < bp && place == Place(list, bp)
      ensures var p := list[k].addr;
              (bp > p && bp < ptr[p]) || (p >= ptr[p] && (bp > p || bp < ptr[p])) <==> k == place
    {
      assert Apart(list[k], Block(bp, size[bp]));
      if k + 1 < |list| {
        assert Apart(list[k + 1], Block(bp, size[bp]));
        assert list[k].addr + list[k].size < list[k + 1].addr;
      }
      if k < place { assert list[k].addr + list[k].size < list[place].addr; }
    }

    // The second half of free: join bp to the upper and the lower neighbour, or link it in.
    method Relink(p: nat, bp: nat, ghost place: nat)
      requires Valid() && bp in size && Clear(list, Block(bp, size[bp])) && list[0].addr < bp && place == Place(list, bp)
      requires p == list[place].addr
      modifies this`ptr, this`size, this`freep, this`list, this`cur
      ensures Valid() && cur == place && list == Insert(old(list), place, Block(bp, old(size)[bp]))
    {
      ghost var b := Block(bp, size[bp]);
      FreeLinks(ptr, size, list, b);
      InsertOrdered(list, b);
      InsertAt(list, place, b, place);
      ghost var ptr', size' := FreedPtr(ptr, size, p, bp), FreedSize(ptr, size, p, bp);
      assert list[place].addr != bp by { NextIsAfter(list, b); }
      hide Insert;
      var next := ptr[p];
      if bp + size[bp] == next {
        size := size[bp := size[bp] + size[next]];
        ptr := ptr[bp := ptr[next]];
      } else {
        ptr := ptr[bp := next];
      }
      if p + size[p] == bp {
        size := size[p := size[p] + size[bp]];
        ptr := ptr[p := ptr[bp]];
      } else {
        ptr := ptr[p := bp];
      }
      freep := p;
      assert ptr == ptr' && size == size';
      list, cur := Insert(list, place, b), place;
    }

    // morecore when sbrk answers `core` to the argument `arg`; not `ok` when it fails.
    method MoreCore(nu: nat, core: Option<nat>) returns (ok: bool, arg: int)
      requires nu <= 0x1000_0001
      requires Valid() && (core.Some? ==> Clear(list, Core(core.value, nu)))
      modifies this`ptr, this`size, this`freep, this`list, this`cur
      ensures Valid() && ok == core.Some? && arg == SbrkArg(Max(nu, 4096))
      ensures !ok ==> list == old(list) && cur == old(cur)
      ensures ok ==> var b := Core(core.value, nu);
                     cur == Place(old(list), b.addr) && list == Insert(old(list), cur, b)
    {
      var n := if nu < 4096 then 4096 else nu;
      arg := 16 * n % 0x1_0000_0000;
      if arg >= 0x8000_0000 {
        arg := arg - 0x1_0000_0000;
      }
      if core.None? {
        return false, arg;
      }
      var hp := core.value;
      SizeOfNew(list, ptr, size, hp, n);
      size := size[hp := n];
      Free(hp);
      ok := true;
    }

    lemma SizeOfNew(l: seq<Block>, ptr: map<nat, nat>, size: map<nat, nat>, hp: nat, n: nat)
      requires Linked(ptr, size, l) && Clear(l, Block(hp, n)) && Ordered(l)
      ensures Linked(ptr, size[hp := n], l)
    {
      NextIsAfter(l, Block(hp, n));
      var size' := size[hp := n];
      forall i | 0 <= i < |l| ensures LinkedAt(ptr, size', l, i) {
        assert LinkedAt(ptr, size, l, i);
      }
    }

    // The way out of malloc's loop: p is block i, prevp the one before it.
    method TakeFrom(prevp: nat, p: nat, nunits: nat, ghost i: nat) returns (got: nat)
      requires Valid() && 0 < i < |list| && list[i].size >= nunits > 0 && p == list[i].addr && prevp == list[i - 1].addr
      modifies this`ptr, this`size, this`freep, this`list, this`cur
      ensures Valid() && Malloced(list, cur, Some(Block(got, nunits))) == Found(old(list), i, nunits)
      ensures got in size && size[got] == nunits
    {
      hide Ordered;
      TakeLinks(ptr, size, list, i, nunits);
      TakeOrdered(list, i, nunits);
      assert LinkedAt(ptr, size, list, i);
      got := p;
      if size[p] == nunits {
        ptr := ptr[prevp := ptr[p]];
      } else {
        size := size[p := size[p] - nunits];
        got := p + size[p];
        size := size[got := nunits];
      }
      freep := prevp;
      list, cur := Take(list, i, nunits), i - 1;
    }

    /** malloc, when sbrk, if asked, answers `core`; 0 for failure, else the address of the header.
        `asked` are the arguments that morecore passes to sbrk, one by one. */
    method Malloc(nbytes: nat, core: Option<nat>) returns (got: nat, asked: seq<int>)
      requires nbytes < 0x1_0000_0000
      requires Valid() && (core.Some? ==> Clear(list, Core(core.value, Units(nbytes))))
      modifies this`ptr, this`size, this`freep, this`list, this`cur
      ensures Valid()
      ensures asked == if Search(old(list), old(cur), Units(nbytes)) < |old(list)| then [] else [SbrkArg(Max(Units(nbytes), 4096))]
      ensures var r := MallocRuns.Malloc(old(list), old(cur), Units(nbytes), core);
              && list == r.list && cur == r.cur && (r.got.None? ==> got == 0)
              && (r.got.Some? ==> r.got.value == Block(got, Units(nbytes)) && got in size && size[got] == Units(nbytes))
    {
      var nunits := Units(nbytes);
      asked := [];
      var found, prevp, p;
      ghost var i;
      found, prevp, p, i := Look(nunits);
      if !found {
        MoreCoreFirst(core, nunits);
        var ok, arg := MoreCore(nunits, core);
        asked := [arg];
        if !ok {
          return 0, asked;
        }
        found, prevp, p, i := Look(nunits);
      }
      got := TakeFrom(prevp, p, nunits, i);
    }

    lemma MoreCoreFirst(core: Option<nat>, n: nat)
      requires Valid() && (core.Some? ==> Clear(list, Core(core.value, n)))
      ensures core.Some? ==> var b := Core(core.value, n); var p := Place(list, b.addr);
                             p < |Insert(list, p, b)| && Search(Insert(list, p, b), p, n) < |Insert(list, p, b)|
    {
      if core.Some? { MoreCoreSuffices(list, Core(core.value, n), n); }
    }

    // What malloc's loop knows at block i.
    ghost predicate At(prevp: nat, p: nat, i: nat, left: nat, nunits: nat)
      reads this
    {
      && i < |list| && cur < |list| && p == list[i].addr && prevp == list[Before(i, |list|)].addr && LinkedAt(ptr, size, list, i)
      && left == Distance(i, cur, |list|) && Scan(list, i, left, nunits) == Search(list, cur, nunits)
    }

    lemma AtNext(prevp: nat, p: nat, i: nat, left: nat, nunits: nat)
      requires Valid() && At(prevp, p, i, left, nunits) && list[i].size < nunits
      ensures p == freep <==> left == 0
      ensures left > 0 ==> At(p, ptr[p], After(i, |list|), left - 1, nunits)
      ensures left == 0 ==> Search(list, cur, nunits) == |list|
    {
      DistanceStep(i, cur, |list|);
      if p == freep { Distinct(list, i, cur); }
      assert LinkedAt(ptr, size, list, After(i, |list|));
    }

    lemma AtFirst(nunits: nat)
      requires Valid()
      ensures freep in ptr && At(freep, ptr[freep], After(cur, |list|), |list| - 1, nunits)
    {
      DistanceStep(cur, cur, |list|);
      assert LinkedAt(ptr, size, list, cur) && LinkedAt(ptr, size, list, After(cur, |list|));
    }

    // The loop of malloc as far as morecore: once round the list from freep, for a block of nunits.
    method Look(nunits: nat) returns (found: bool, prevp: nat, p: nat, ghost i: nat)
      requires Valid() && nunits > 0
      ensures i == Search(list, cur, nunits) && found == (i < |list|)
      ensures found ==> 0 < i && p == list[i].addr && prevp == list[i - 1].addr
    {
      AtFirst(nunits);
      prevp := freep;
      p := ptr[prevp];
      i := After(cur, |list|);
      ghost var left: nat := |list| - 1;
      while true
        invariant At(prevp, p, i, left, nunits)
        decreases left
      {
        if size[p] >= nunits {
          return true, prevp, p, i;
        }
        AtNext(prevp, p, i, left, nunits);
        if p == freep {
          return false, prevp, p, |list|;
        }
        prevp, p := p, ptr[p];
        i, left := After(i, |list|), left - 1;
      }
    }
  }
}
