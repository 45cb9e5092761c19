/** kalloc.c and vm.c in their own form: methods that change physical memory word by word, each
    equal to its function in VmSpec, UserMemory, UserCopy and VmFree.  Addresses are page
    numbers; the sizes that vm.c rounds to pages are in bytes. */
module Vm {
  import opened PageTable
  import opened PageTableSteps
  import opened VmSpec
  import opened UserMemory
  import opened UserCopy
  import opened VmFree

  // The free pages in list order, linked from `head` through the first word of each page.
  ghost predicate Links(head: nat, next: map<nat, nat>, free: seq<nat>)
    decreases |free|
  {
    if free == [] then head == 0
    else head == free[0] && head != 0 && head in next && Links(next[head], next, free[1..])
  }

  lemma {:induction false} LinksFrame(head: nat, next: map<nat, nat>, free: seq<nat>, p: nat, q: nat)
    requires Links(head, next, free) && p !in free
    ensures Links(head, next[p := q], free)
    decreases |free|
  {
    if free != [] {
      LinksFrame(next[head], next, free[1..], p, q);
    }
  }

  lemma Push(head: nat, next: map<nat, nat>, free: seq<nat>, p: nat)
    requires Links(head, next, free) && p !in free && p != 0
    ensures Links(p, next[p := head], [p] + free)
  {
    LinksFrame(head, next, free, p, head);
    assert ([p] + free)[1..] == free;
  }

  // The pages of the range are to be freed exactly if they are user pages.
  ghost predicate FreesUsers(s: Ram, root: nat, vpn: nat, n: nat, doFree: bool) {
    forall v :: vpn <= v < vpn + n && Translate(s.mem, root, v).v ==>
      (Translate(s.mem, root, v).ppn in s.owner && s.owner[Translate(s.mem, root, v).ppn].Node?) == doFree
  }

  class Machine {
    var mem: map<nat, Page>
    var head: nat                   // kmem.freelist
    var next: map<nat, nat>         // the first word of each free page
    ghost var w: World              // the same memory, with the owner of every page

    ghost predicate Valid()
      reads this
    {
      w.tree.mem == mem && Links(head, next, w.free)
    }

    // kfree: push a page whose last use is over.
    method Kfree(p: nat, ghost free: seq<nat>)
      requires Links(head, next, free) && p !in free && p != 0
      modifies this`mem, this`head, this`next
      ensures Links(head, next, [p] + free) && mem == old(mem)[p := Fill(Junk1)]
    {
      Push(head, next, free, p);
      mem := mem[p := Fill(Junk1)];
      next := next[p := head];
      head := p;
    }

    // kalloc: pop a page, or 0 when there is none.
    method Kalloc() returns (p: nat)
      requires Valid()
      modifies this`mem, this`head, this`w
      ensures Valid()
      ensures p == 0 <==> old(w).free == []
      ensures p == 0 ==> w == old(w)
      ensures p != 0 ==> p == old(w).free[0] && w == Take(old(w))
    {
      p := head;
      if p != 0 {
        head := next[p];
        mem := mem[p := Fill(Junk5)];
        w := Take(w);
      }
    }

    // The allocating branch of walk: kalloc, memset, *pte = PA2PTE(pagetable) | PTE_V.
    method GrowTable(t: nat, i: nat) returns (c: nat)
      requires Valid() && (w.free != [] ==> NeedsTable(w, t, i))
      modifies this`mem, this`head, this`w
      ensures Valid()
      ensures c == 0 <==> old(w).free == []
      ensures c == 0 ==> w == old(w)
      ensures c != 0 ==> c == old(w).free[0] && w == WithTable(old(w), t, i)
    {
      hide NodeOk;
      hide EntryOk;
      hide Below;
      ghost var w0 := w;
      c := Kalloc();
      if c != 0 {
        assert c in Elements(w0.free) && c != t;
        mem := mem[c := Fill(Zero)];
        mem := mem[t := mem[t][i := TableEntry(c)]];
        w := WithTable(w0, t, i);
        PutThenFill(w0.tree.mem[c := Fill(Junk5)], t, i, TableEntry(c), c);
      }
    }

    lemma PutThenFill(m: map<nat, Page>, t: nat, i: nat, e: Pte, c: nat)
      requires t in m && i < |m[t]| && c != t
      ensures m[c := Fill(Zero)][t := m[t][i := e]] == PutEntry(m, t, i, e)[c := Fill(Zero)]
    {
    }

    // What walk knows when it has to allocate.
    lemma NextTable(w: World, t: nat, root: nat, level: int, vpn: nat)
      requires OnPath(w.tree, t, root, level, vpn) && vpn < MAXVPN && level > 0 && !At(w.tree.mem, t, Px(level, vpn)).v
      ensures w.free != [] ==>
                && NeedsTable(w, t, Px(level, vpn))
                && OnPath(WithTable(w, t, Px(level, vpn)).tree, w.free[0], root, level - 1, vpn)
    {
      if w.free != [] { NewTableOnPath(w, t, root, level, vpn); }
    }

    /** walk: find the level-0 table that serves the page, adding interior tables if `alloc`.
        `t` and PX(0, va) locate the entry whose address the source returns. */
    method Walk(root: nat, vpn: nat, alloc: bool) returns (ok: bool, t: nat)
      requires Valid() && IsRoot(w.tree, root) && vpn < MAXVPN
      modifies this`mem, this`head, this`w
      ensures Valid() && Walked(w, ok, t) == WalkFrom(old(w), root, vpn, alloc)
    {
      hide NodeOk;
      hide EntryOk;
      t := root;
      var level := 2;
      while level > 0
        invariant 0 <= level <= 2 && Valid() && OnPath(w.tree, t, root, level, vpn)
        invariant VmSpec.Walk(w, t, root, level, vpn, alloc) == WalkFrom(old(w), root, vpn, alloc)
      {
        PrefixStep(level, vpn);
        var pte := mem[t][Px(level, vpn)];
        if pte.v {
          StepDown(w.tree, t, root, level, vpn);
          t := pte.ppn;
        } else {
          if !alloc {
            return false, t;
          }
          NextTable(w, t, root, level, vpn);
          var c := GrowTable(t, Px(level, vpn));
          if c == 0 {
            return false, t;
          }
          t := c;
        }
        level := level - 1;
      }
      ok := true;
    }

    // One turn of mappages' loop.
    method MapOne(root: nat, vpn: nat, n: nat, ppn: nat, flags: Flags) returns (ok: bool)
      requires Valid() && n > 0 && Ready(w.tree, root, vpn, n, ppn, flags)
      modifies this`mem, this`head, this`w
      ensures Valid() && ok == WalkFrom(old(w), root, vpn, true).ok
      ensures w == if ok then MapFirst(old(w), root, vpn, n, ppn, flags) else WalkFrom(old(w), root, vpn, true).w
    {
      hide NodeOk;
      hide EntryOk;
      hide Below;
      ghost var w0 := w;
      var t;
      FirstReady(w, root, vpn, n, ppn, flags);
      ok, t := Walk(root, vpn, true);
      if ok {
        MapPageReady(w.tree, t, Px(0, vpn), Pte(ppn, true, flags), root, vpn, n);
        mem := mem[t := mem[t][Px(0, vpn) := Pte(ppn, true, flags)]];
        w := MapFirst(w0, root, vpn, n, ppn, flags);
      }
    }

    // mappages for n pages; the source panics where Ready fails or n is zero.
    method Mappages(root: nat, vpn: nat, n: nat, ppn: nat, flags: Flags) returns (ok: bool)
      requires Valid() && n > 0 && Ready(w.tree, root, vpn, n, ppn, flags)
      modifies this`mem, this`head, this`w
      ensures Valid() && w == VmSpec.Mappages(old(w), root, vpn, n, ppn, flags).w
      ensures ok == (VmSpec.Mappages(old(w), root, vpn, n, ppn, flags).done == n)
    {
      hide Wf;
      hide Below;
      hide VmSpec.Walk;
      hide VmSpec.Mappages;
      hide MapFirst;
      ghost var all := VmSpec.Mappages(w, root, vpn, n, ppn, flags);
      var k := 0;
      while true
        invariant 0 <= k < n && Valid() && Ready(w.tree, root, vpn + k, n - k, ppn + k, flags)
        invariant all.w == VmSpec.Mappages(w, root, vpn + k, n - k, ppn + k, flags).w
        invariant all.done == VmSpec.Mappages(w, root, vpn + k, n - k, ppn + k, flags).done + k
        decreases n - k
      {
        MappagesTurn(w, root, vpn + k, n - k, ppn + k, flags);
        ok := MapOne(root, vpn + k, n - k, ppn + k, flags);
        if !ok {
          return;
        }
        if k == n - 1 {
          return;
        }
        k := k + 1;
      }
    }

    // kalloc, and memset or memmove to the contents wanted.
    method TakeFilled(page: Page) returns (c: nat)
      requires Valid() && |page| == 512
      modifies this`mem, this`head, this`w
      ensures Valid()
      ensures c == 0 <==> old(w).free == []
      ensures c == 0 ==> w == old(w)
      ensures c != 0 ==> c == old(w).free[0] && IsHeld(Take(old(w)), c) && w == Fresh(Take(old(w)), c, page)
    {
      hide Wf;
      c := Kalloc();
      if c != 0 {
        assert IsHeld(w, c);
        mem := mem[c := page];
        w := Fresh(w, c, page);
      }
    }

    // A page goes back unused.
    method GiveBack(c: nat)
      requires Valid() && IsHeld(w, c)
      modifies this`mem, this`head, this`next, this`w
      ensures Valid() && w == Release(old(w), c)
    {
      hide NodeOk;
      hide EntryOk;
      assert c !in Elements(w.free);
      Kfree(c, w.free);
      w := Release(w, c);
    }

    lemma StillHeld(w: World, root: nat, vpn: nat, c: nat, flags: Flags)
      requires Ready(w.tree, root, vpn, 1, c, flags) && IsHeld(w, c)
      ensures var m := VmSpec.Mappages(w, root, vpn, 1, c, flags); m.done != 1 ==> IsHeld(m.w, c)
    {
      MappagesMaps(w, root, vpn, 1, c, flags);
    }

    // kalloc, fill, mappages of one page, and kfree when mappages fails: the body of the loops of
    // uvmalloc and uvmcopy, and of vmfault.
    method MapFresh(root: nat, vpn: nat, page: Page, flags: Flags) returns (ok: bool)
      requires Valid() && Vacant(w.tree, root, vpn, 1) && |page| == 512 && IsLeaf(flags)
      modifies this`mem, this`head, this`next, this`w
      ensures Valid() && Grown(w, ok) == MapNew(old(w), root, vpn, page, flags)
    {
      hide Wf;
      hide Below;
      hide Ready;
      hide VmSpec.Mappages;
      if w.free != [] { NewReady(w, root, vpn, page, flags); }
      var c := TakeFilled(page);
      if c == 0 {
        return false;
      }
      StillHeld(w, root, vpn, c, flags);
      ok := Mappages(root, vpn, 1, c, flags);
      if !ok {
        GiveBack(c);
      }
    }

    // One turn of uvmunmap's loop.
    method UnmapOne(root: nat, vpn: nat, doFree: bool)
      requires Valid() && IsRoot(w.tree, root) && vpn < MAXVPN && FreesUsers(w.tree, root, vpn, 1, doFree)
      modifies this`mem, this`head, this`next, this`w
      ensures Valid() && w == UnmapFirst(old(w), root, vpn)
    {
      hide NodeOk;
      hide EntryOk;
      hide Below;
      ghost var w0 := w;
      WalkGrows(w, root, root, 2, vpn, false);
      WalkFinds(w, root, root, 2, vpn, false);
      var ok, t := Walk(root, vpn, false);
      if ok && mem[t][Px(0, vpn)].v {
        ClearLeaf(t, Px(0, vpn), doFree);
      }
    }

    // kfree of the page if it is to be freed, and *pte = 0.
    method ClearLeaf(t: nat, i: nat, doFree: bool)
      requires Valid() && CanUnmap(w.tree, t, i) && MapsUserPage(w.tree, t, i) == doFree
      modifies this`mem, this`head, this`next, this`w
      ensures Valid() && w == Unmapped(old(w), t, i)
    {
      hide NodeOk;
      ghost var w0, p := w, mem[t][i].ppn;
      assert EntryOk(w.tree, t, i);
      if doFree {
        assert p != 0 && p != t && p !in Elements(w.free);
        Kfree(mem[t][i].ppn, w.free);
      }
      mem := mem[t := mem[t][i := Zero]];
      w := Unmapped(w0, t, i);
    }

    lemma LaterFrees(s: Tree, s1: Tree, root: nat, vpn: nat, n: nat, doFree: bool)
      requires IsRoot(s, root) && FreesUsers(s, root, vpn, n, doFree) && n > 0 && vpn + n <= MAXVPN
      requires UnmapsRange(s, s1, root, vpn, 1)
      ensures FreesUsers(s1, root, vpn + 1, n - 1, doFree)
    {
      hide Wf;
      hide Below;
      forall v | vpn + 1 <= v < vpn + n && Translate(s1.mem, root, v).v
        ensures (Translate(s1.mem, root, v).ppn in s1.owner && s1.owner[Translate(s1.mem, root, v).ppn].Node?) == doFree
      {
        TranslateLeaf(s, root, v);
      }
    }

    // uvmunmap of n pages from vpn on.
    method Uvmunmap(root: nat, vpn: nat, n: nat, doFree: bool)
      requires Valid() && IsRoot(w.tree, root) && vpn + n <= MAXVPN && FreesUsers(w.tree, root, vpn, n, doFree)
      modifies this`mem, this`head, this`next, this`w
      ensures Valid() && w == VmSpec.Uvmunmap(old(w), root, vpn, n)
    {
      hide Wf;
      hide Below;
      hide UnmapFirst;
      hide UnmapsRange;
      var a := vpn;
      while a < vpn + n
        invariant vpn <= a <= vpn + n && Valid() && IsRoot(w.tree, root)
        invariant FreesUsers(w.tree, root, a, vpn + n - a, doFree)
        invariant VmSpec.Uvmunmap(w, root, a, vpn + n - a) == VmSpec.Uvmunmap(old(w), root, vpn, n)
      {
        UnmapFirstUnmaps(w, root, a);
        LaterFrees(w.tree, UnmapFirst(w, root, a).tree, root, a, vpn + n - a, doFree);
        UnmapOne(root, a, doFree);
        a := a + 1;
      }
    }

    method Uvmdealloc(root: nat, oldsz: nat, newsz: nat) returns (sz: nat)
      requires Valid() && IsRoot(w.tree, root) && PgUp(oldsz) <= MAXVPN
      requires newsz < oldsz ==> FreesUsers(w.tree, root, PgUp(newsz), PgUp(oldsz) - PgUp(newsz), true)
      modifies this`mem, this`head, this`next, this`w
      ensures Valid() && (w, sz) == UserMemory.Uvmdealloc(old(w), root, oldsz, newsz)
    {
      hide Wf;
      hide VmSpec.Uvmunmap;
      if newsz >= oldsz {
        return oldsz;
      }
      if PgUp(newsz) < PgUp(oldsz) {
        var npages := PgUp(oldsz) - PgUp(newsz);
        Uvmunmap(root, PgUp(newsz), npages, true);
      }
      return newsz;
    }

    // New pages are user pages, and so can be freed again.
    lemma GrowthFrees(s: Tree, s1: Tree, root: nat, lo: nat, n: nat, want: map<nat, Leaf>)
      requires IsRoot(s, root) && FreesUsers(s, root, lo, n, true) && lo + n <= MAXVPN && Gains(s, s1, root, want)
      requires lo + n in want
      ensures FreesUsers(s1, root, lo, n + 1, true)
    {
      hide Wf;
      hide Below;
    }

    lemma GrewFrees(s: Tree, s1: Tree, root: nat, lo: nat, n: nat)
      requires IsRoot(s, root) && FreesUsers(s, root, lo, n, true) && lo + n <= MAXVPN && Grew(s, s1, root)
      ensures FreesUsers(s1, root, lo, n, true)
    {
      hide Wf;
      hide Below;
      assert SameTranslation(s, s1, root);
    }

    // uvmalloc; `flags` are PTE_R | PTE_U | xperm.
    method Uvmalloc(root: nat, oldsz: nat, newsz: nat, flags: Flags) returns (sz: nat)
      requires Valid() && CanAlloc(w, root, oldsz, newsz, flags) && IsRoot(w.tree, root)
      modifies this`mem, this`head, this`next, this`w
      ensures Valid() && (w, sz) == UserMemory.Uvmalloc(old(w), root, oldsz, newsz, flags)
    {
      hide Wf;
      hide Below;
      hide MapNew;
      hide Gains;
      hide Grew;
      if newsz < oldsz {
        return oldsz;
      }
      var lo, hi := PgUp(oldsz), PgUp(newsz);
      var a := lo;
      while a < hi
        invariant lo <= a <= hi && Valid() && Vacant(w.tree, root, a, hi - a)
        invariant FreesUsers(w.tree, root, lo, a - lo, true)
        invariant AllocFrom(w, root, lo, a, hi, flags) == AllocFrom(old(w), root, lo, lo, hi, flags)
      {
        ghost var s := w.tree;
        ghost var r := MapNewKeeps(w, root, a, hi - a, Fill(Zero), flags);
        var ok := MapFresh(root, a, Fill(Zero), flags);
        if !ok {
          GrewFrees(s, w.tree, root, lo, a - lo);
          var size := Uvmdealloc(root, a * 4096, lo * 4096);
          assert PgUp(a * 4096) == a && PgUp(lo * 4096) == lo;
          return 0;
        }
        GrowthFrees(s, w.tree, root, lo, a - lo, map[a := Leaf(flags, Fill(Zero))]);
        a := a + 1;
      }
      return newsz;
    }

    method Uvmcopy(parent: nat, child: nat, sz: nat) returns (ok: bool)
      requires Valid() && CanCopy(w, parent, child, 0, PgUp(sz))
      modifies this`mem, this`head, this`next, this`w
      ensures Valid() && Grown(w, ok) == UserCopy.Uvmcopy(old(w), parent, child, sz)
    {
      hide Wf;
      hide Below;
      hide MapNew;
      hide Gains;
      hide Grew;
      var i, n := 0, PgUp(sz);
      while i < n
        invariant 0 <= i <= n && Valid() && CanCopy(w, parent, child, i, n)
        invariant FreesUsers(w.tree, child, 0, i, true)
        invariant CopyFrom(w, parent, child, i, n) == CopyFrom(old(w), parent, child, 0, n)
      {
        var present, e := Lookup(parent, i);
        if present {
          ghost var s := w.tree;
          ghost var r := CopyNext(w, parent, child, i, n);
          var mapped := MapFresh(child, i, mem[e.ppn], e.flags);
          if !mapped {
            GrewFrees(s, w.tree, child, 0, i);
            Uvmunmap(child, 0, i, true);
            return false;
          }
          GrowthFrees(s, w.tree, child, 0, i, map[i := Leaf(e.flags, s.mem[e.ppn])]);
        }
        i := i + 1;
      }
      return true;
    }

    // walk without allocation and the PTE_V test: is the page mapped, and how?
    method Lookup(root: nat, vpn: nat) returns (present: bool, e: Pte)
      requires Valid() && IsRoot(w.tree, root) && vpn < MAXVPN
      modifies this`mem, this`head, this`w
      ensures Valid() && w == old(w) && mem == old(mem)
      ensures present == Translate(w.tree.mem, root, vpn).v
      ensures present ==> e == Translate(w.tree.mem, root, vpn)
    {
      hide NodeOk;
      hide EntryOk;
      hide Below;
      PrefixStep(0, vpn);
      WalkGrows(w, root, root, 2, vpn, false);
      WalkFinds(w, root, root, 2, vpn, false);
      var ok, t := Walk(root, vpn, false);
      e := Zero;
      if ok {
        e := mem[t][Px(0, vpn)];
      }
      present := e.v;
    }

    // vmfault for the page-aligned address; 0 in the source where `ok` is false.
    method Vmfault(root: nat, sz: nat, vpn: nat) returns (ok: bool)
      requires Valid() && CanFault(w, root, sz)
      modifies this`mem, this`head, this`next, this`w
      ensures Valid() && Grown(w, ok) == UserMemory.Vmfault(old(w), root, sz, vpn)
    {
      hide Wf;
      hide Below;
      hide MapNew;
      if vpn * 4096 >= sz {
        return false;
      }
      var present, e := Lookup(root, vpn);
      if present {
        return false;
      }
      ok := MapFresh(root, vpn, Fill(Zero), UserRwx);
    }

    // The loop of freewalk; not `ok` where it panics.  The recursive call and the kfree at its end
    // are side by side here.
    method ClearEntries(t: nat) returns (ok: bool)
      requires Valid() && IsTable(w.tree, t)
      modifies this`mem, this`head, this`next, this`w
      ensures ok == ClearTable(old(w), t, 0).Done?
      ensures ok ==> Valid() && w == ClearTable(old(w), t, 0).w
      decreases w.tree.owner[t].level
    {
      hide NodeOk;
      hide Under;
      hide PrunedOwners;
      hide PrunedContents;
      var i := 0;
      while i < 512
        invariant 0 <= i <= 512 && Valid() && IsTable(w.tree, t) && w.tree.owner[t] == old(w).tree.owner[t]
        invariant ClearTable(w, t, i) == ClearTable(old(w), t, 0)
      {
        ghost var w0 := w;
        var pte := mem[t][i];
        assert EntryOk(w.tree, t, i);
        if pte.v && !IsLeaf(pte.flags) {
          ok := ClearEntries(pte.ppn);
          if !ok {
            return;
          }
          ChildPruned(w0.tree, w.tree, t, i, pte.ppn);
          ChildDropped(w0.tree, w.tree, Dropped(w, t, i, pte.ppn).tree, t, i, pte.ppn);
          FreeChild(t, i, pte.ppn);
        } else if pte.v {
          return false;
        }
        i := i + 1;
      }
      ok := true;
    }

    // kfree of the child, and pagetable[i] = 0.
    method FreeChild(t: nat, i: nat, c: nat)
      requires Valid() && CanDrop(w.tree, t, i, c)
      modifies this`mem, this`head, this`next, this`w
      ensures Valid() && w == Dropped(old(w), t, i, c)
    {
      hide NodeOk;
      ghost var w0 := w;
      assert EntryOk(w.tree, t, i);
      assert c != 0 && c != t && c !in Elements(w.free);
      Kfree(c, w.free);
      mem := mem[t := mem[t][i := Zero]];
      w := Dropped(w0, t, i, c);
    }

    method Freewalk(root: nat) returns (ok: bool)
      requires Valid() && IsRoot(w.tree, root)
      modifies this`mem, this`head, this`next, this`w
      ensures ok == VmFree.Freewalk(old(w), root).Done?
      ensures ok ==> Valid() && w == VmFree.Freewalk(old(w), root).w
    {
      hide NodeOk;
      hide EntryOk;
      hide Below;
      hide ClearTable;
      ok := ClearEntries(root);
      if ok {
        assert root != 0 && root !in Elements(w.free);
        Kfree(root, w.free);
        w := FreeRoot(w, root);
      }
    }

    method Uvmfree(root: nat, sz: nat) returns (ok: bool)
      requires Valid() && IsRoot(w.tree, root) && PgUp(sz) <= MAXVPN && FreesUsers(w.tree, root, 0, PgUp(sz), true)
      modifies this`mem, this`head, this`next, this`w
      ensures ok == VmFree.Uvmfree(old(w), root, sz).Done?
      ensures ok ==> Valid() && w == VmFree.Uvmfree(old(w), root, sz).w
    {
      hide Wf;
      hide Below;
      hide VmFree.Freewalk;
      hide VmSpec.Uvmunmap;
      UvmunmapUnmaps(w, root, 0, PgUp(sz));
      if sz > 0 {
        Uvmunmap(root, 0, PgUp(sz), true);
      }
      ok := Freewalk(root);
    }
  }

  ghost predicate IsHeld(w: World, c: nat) { c in w.tree.owner && w.tree.owner[c] == Held }
}
