/** uvmalloc, uvmdealloc, uvmcopy and vmfault: growing, shrinking and copying a user address
    space, and what is left of it when memory runs out half way. */
module UserMemory {
  import opened PageTable
  import opened PageTableSteps
  import opened VmSpec
  import opened PageNeeds

  datatype Leaf = Leaf(flags: Flags, page: Page)

  ghost predicate Vacant(s: Ram, root: nat, vpn: nat, n: nat) {
    IsRoot(s, root) && vpn + n <= MAXVPN && forall v :: vpn <= v < vpn + n ==> !Translate(s.mem, root, v).v
  }

  // The virtual page has a page of its own, free before, with these flags and contents.
  ghost predicate Backed(s: Ram, s': Ram, root: nat, vpn: nat, leaf: Leaf) {
    var e := Translate(s'.mem, root, vpn);
    && e.v && e.flags == leaf.flags && e.ppn in s.owner && s.owner[e.ppn] == Free
    && IsUserPage(s', e.ppn, root, vpn) && e.ppn in s'.mem && s'.mem[e.ppn] == leaf.page
  }

  ghost predicate GainsTrans(s: Ram, s': Ram, root: nat, want: map<nat, Leaf>) {
    && (forall v :: v in want ==> Backed(s, s', root, v, want[v]))
    && (forall r, v :: IsRoot(s, r) && 0 <= v < MAXVPN && !(r == root && v in want) ==>
          Translate(s'.mem, r, v) == Translate(s.mem, r, v))
  }

  ghost predicate GainedPage(s: Ram, p: nat, root: nat, want: map<nat, Leaf>) {
    p in s.owner && s.owner[p].Node? && s.owner[p].level == -1 && s.owner[p].root == root && s.owner[p].prefix in want
  }

  ghost predicate GainsOwners(s: Ram, s': Ram, root: nat, want: map<nat, Leaf>) {
    && s'.owner.Keys == s.owner.Keys
    && forall p :: p in s.owner ==>
         s'.owner[p] == s.owner[p] || (s.owner[p] == Free && (Interior(s', p, root) || GainedPage(s', p, root, want)))
  }

  /** From s to s', root's address space has gained exactly the virtual pages of `want`, each on
      a page of its own; free pages may have become interior tables of root; nothing else
      changed, in this page table or any other. */
  ghost predicate Gains(s: Ram, s': Ram, root: nat, want: map<nat, Leaf>) {
    GainsTrans(s, s', root, want) && GainsOwners(s, s', root, want) && GrewContents(s, s', root)
  }

  lemma GainsNothing(s: Tree, root: nat)
    ensures Gains(s, s, root, map[])
  {
  }

  // ---- one more page -----------------------------------------------------------------------

  datatype Grown = Grown(w: World, ok: bool)

  // A page just handed out and filled can be mapped at a vacant place.
  lemma NewReady(w: World, root: nat, vpn: nat, page: Page, flags: Flags)
    requires Vacant(w.tree, root, vpn, 1) && w.free != [] && |page| == 512 && IsLeaf(flags)
    ensures w.free[0] in w.tree.owner && w.tree.owner[w.free[0]] == Free
    ensures var c, w1 := w.free[0], Fresh(Take(w), w.free[0], page);
            && w1.tree == Ram(w.tree.mem[c := page], w.tree.owner[c := Held])
            && SameMaps(w.tree, w1.tree) && Ready(w1.tree, root, vpn, 1, c, flags)
  {
    hide NodeOk;
    hide EntryOk;
    hide Below;
    var c, w1 := w.free[0], Fresh(Take(w), w.free[0], page);
    assert c in Elements(w.free);
    assert w.tree.mem[c := Fill(Junk5)][c := page] == w.tree.mem[c := page];
    forall r | IsRoot(w.tree, r) ensures SameTranslation(w.tree, w1.tree, r) {
      TranslateFrame(w.tree, w1.tree, r);
    }
    assert SameTranslation(w.tree, w1.tree, root);
  }

  // kalloc, fill, mappages of one page, and kfree when mappages fails.
  ghost function MapNew(w: World, root: nat, vpn: nat, page: Page, flags: Flags): (r: Grown)
    requires Vacant(w.tree, root, vpn, 1) && |page| == 512 && IsLeaf(flags)
  {
    if w.free == [] then Grown(w, false)
    else
      NewReady(w, root, vpn, page, flags);
      var c := w.free[0];
      var w1 := Fresh(Take(w), c, page);
      var m := Mappages(w1, root, vpn, 1, c, flags);
      if m.done == 1 then Grown(m.w, true)
      else
        MappagesMaps(w1, root, vpn, 1, c, flags);
        Grown(Release(m.w, c), false)
  }

  lemma NewGains(s: Tree, s1: Ram, s2: Tree, c: nat, root: nat, vpn: nat, page: Page, flags: Flags)
    requires c in s.owner && s.owner[c] == Free && c in s.mem && vpn < MAXVPN && IsRoot(s, root)
    requires s1 == Ram(s.mem[c := page], s.owner[c := Held]) && SameMaps(s, s1)
    requires MapsRange(s1, s2, root, vpn, 1, c, flags)
    ensures Gains(s, s2, root, map[vpn := Leaf(flags, page)])
  {
    hide Wf;
    hide Below;
    var want := map[vpn := Leaf(flags, page)];
    assert IsRoot(s1, root);
    forall r, v | IsRoot(s, r) && 0 <= v < MAXVPN && !(r == root && v in want)
      ensures Translate(s2.mem, r, v) == Translate(s.mem, r, v)
    {
      assert IsRoot(s1, r) && SameTranslation(s, s1, r);
    }
    assert GrewContents(s1, s2, root);
    assert MapOwners(s1, s2, root, vpn, 1, c);
  }

  // Handing the page back undoes all but the growth of the tree.
  lemma GivenBack(s: Tree, s1: Ram, s2: Tree, s3: Tree, c: nat, root: nat, vpn: nat, flags: Flags)
    requires c in s.owner && s.owner[c] == Free && c in s.mem
    requires s1.mem.Keys == s.mem.Keys && s1.mem == s.mem[c := s1.mem[c]] && s1.owner == s.owner[c := Held] && SameMaps(s, s1)
    requires MapsRange(s1, s2, root, vpn, 0, c, flags)
    requires c in s2.owner && c in s2.mem && c in s3.mem && s2.owner[c] == Held
    requires s3.mem == s2.mem[c := s3.mem[c]] && s3.owner == s2.owner[c := Free]
    ensures Grew(s, s3, root)
  {
    hide Wf;
    hide Below;
    hide MapsRange;
    hide GrewOwners;
    hide GrewContents;
    hide SameMaps;
    GivenBackMaps(s, s1, s2, s3, c, root, vpn, flags);
    GivenBackPages(s, s1, s2, s3, c, root, vpn, flags);
  }

  lemma GivenBackPages(s: Ram, s1: Ram, s2: Ram, s3: Ram, c: nat, root: nat, vpn: nat, flags: Flags)
    requires c in s.owner && s.owner[c] == Free && c in s.mem
    requires s1.mem.Keys == s.mem.Keys && s1.mem == s.mem[c := s1.mem[c]] && s1.owner == s.owner[c := Held]
    requires MapsRange(s1, s2, root, vpn, 0, c, flags)
    requires c in s2.owner && c in s2.mem && c in s3.mem && s2.owner[c] == Held
    requires s3.mem == s2.mem[c := s3.mem[c]] && s3.owner == s2.owner[c := Free]
    ensures GrewOwners(s, s3, root) && GrewContents(s, s3, root)
  {
    hide MapTrans;
    hide Interior;
    hide TableOf;
    forall p | p in s.owner ensures s3.owner[p] == s.owner[p] || (s.owner[p] == Free && Interior(s3, p, root)) {
      if p != c && s3.owner[p] != s.owner[p] { InteriorStays(s2, s3, p, c, root); }
    }
    forall p | p in s.owner && p in s.mem && s.owner[p] != Free && !TableOf(s, p, root) ensures p in s3.mem && s3.mem[p] == s.mem[p] {
      NoTableBefore(s, s1, p, c, root);
      assert p in s2.mem && s2.mem[p] == s1.mem[p];
    }
  }

  lemma InteriorStays(s2: Ram, s3: Ram, p: nat, c: nat, root: nat)
    requires Interior(s2, p, root) && p != c && c in s3.mem && c in s2.owner
    requires s3.mem == s2.mem[c := s3.mem[c]] && s3.owner == s2.owner[c := Free]
    ensures Interior(s3, p, root)
  {
  }

  lemma NoTableBefore(s: Ram, s1: Ram, p: nat, c: nat, root: nat)
    requires p in s.owner && p in s.mem && p != c && c in s.owner && c in s1.mem && !TableOf(s, p, root)
    requires s1.mem == s.mem[c := s1.mem[c]] && s1.owner == s.owner[c := Held]
    ensures p in s1.owner && p in s1.mem && !TableOf(s1, p, root)
  {
  }

  lemma GivenBackMaps(s: Tree, s1: Ram, s2: Tree, s3: Tree, c: nat, root: nat, vpn: nat, flags: Flags)
    requires c in s.owner && s.owner[c] == Free && c in s.mem && s1.owner == s.owner[c := Held] && SameMaps(s, s1)
    requires MapsRange(s1, s2, root, vpn, 0, c, flags)
    requires c in s2.owner && c in s2.mem && c in s3.mem && s2.owner[c] == Held && s3.mem == s2.mem[c := s3.mem[c]]
    ensures SameMaps(s, s3)
  {
    hide Wf;
    hide Below;
    forall r | IsRoot(s, r) ensures SameTranslation(s, s3, r) {
      assert IsRoot(s1, r) && SameTranslation(s, s1, r);
      assert IsRoot(s2, r);
      TranslateFrame(s2, s3, r);
    }
  }

  lemma MapNewMaps(w: World, root: nat, vpn: nat, page: Page, flags: Flags) returns (r: Grown)
    requires Vacant(w.tree, root, vpn, 1) && |page| == 512 && IsLeaf(flags)
    ensures r == MapNew(w, root, vpn, page, flags)
    ensures r.ok ==> Gains(w.tree, r.w.tree, root, map[vpn := Leaf(flags, page)])
    ensures !r.ok ==> Grew(w.tree, r.w.tree, root)
  {
    r := MapNew(w, root, vpn, page, flags);
    if w.free != [] {
      NewReady(w, root, vpn, page, flags);
      var c := w.free[0];
      var w1 := Fresh(Take(w), c, page);
      var m := Mappages(w1, root, vpn, 1, c, flags);
      MappagesMaps(w1, root, vpn, 1, c, flags);
      if m.done == 1 {
        NewGains(w.tree, w1.tree, m.w.tree, c, root, vpn, page, flags);
      } else {
        GivenBack(w.tree, w1.tree, m.w.tree, r.w.tree, c, root, vpn, flags);
      }
    }
  }

  /** One page more takes a free page for itself and one for each table missing on its way; it is mapped
      exactly when there are as many. */
  lemma MapNewNeeds(w: World, root: nat, vpn: nat, page: Page, flags: Flags)
    requires Vacant(w.tree, root, vpn, 1) && |page| == 512 && IsLeaf(flags)
    ensures var r, n := MapNew(w, root, vpn, page, flags), 1 + Missing(w.tree.mem, root, 2, vpn);
            (r.ok <==> |w.free| >= n) && (r.ok ==> |r.w.free| == |w.free| - n)
  {
    hide Wf;
    hide Below;
    hide WalkFrom;
    hide MapFirst;
    if w.free != [] {
      NewReady(w, root, vpn, page, flags);
      var c := w.free[0];
      var w1 := Fresh(Take(w), c, page);
      HeldIsNoTable(w, c, page, root, vpn);
      WalkFromNeeds(w1, root, vpn);
      MappagesTurn(w1, root, vpn, 1, c, flags);
      if WalkFrom(w1, root, vpn, true).ok { MapFirstFree(w1, root, vpn, c, flags); }
    }
  }

  lemma HeldIsNoTable(w: World, c: nat, page: Page, root: nat, vpn: nat)
    requires IsRoot(w.tree, root) && vpn < MAXVPN && w.free != [] && c == w.free[0] && |page| == 512
    requires c in w.tree.owner && w.tree.owner[c] == Free
    ensures Missing(w.tree.mem[c := page], root, 2, vpn) == Missing(w.tree.mem, root, 2, vpn)
  {
    MissingFrame(w.tree, w.tree.mem[c := page], root, root, 2, vpn);
  }

  lemma MapFirstFree(w: World, root: nat, vpn: nat, ppn: nat, flags: Flags)
    requires Ready(w.tree, root, vpn, 1, ppn, flags) && WalkFrom(w, root, vpn, true).ok
    ensures MapFirst(w, root, vpn, 1, ppn, flags).free == WalkFrom(w, root, vpn, true).w.free
  {
    hide Wf;
    hide Below;
    hide Walk;
  }

  // Afterwards the tables on its way are there.
  lemma MapNewAdds(w: World, root: nat, vpn: nat, page: Page, flags: Flags)
    requires Vacant(w.tree, root, vpn, 1) && |page| == 512 && IsLeaf(flags) && MapNew(w, root, vpn, page, flags).ok
    ensures WayAdded(w.tree, MapNew(w, root, vpn, page, flags).w.tree, root, 2, vpn)
  {
    hide Wf;
    hide Below;
    hide WalkFrom;
    hide MapFirst;
    hide Tables;
    NewReady(w, root, vpn, page, flags);
    var c := w.free[0];
    var w1 := Fresh(Take(w), c, page);
    MappagesTurn(w1, root, vpn, 1, c, flags);
    forall l | 0 <= l <= 1 { TablesSame(w.tree.owner, w1.tree.owner, root, l); }
    MapFirstAdds(w1, root, vpn, c, flags);
  }

  lemma MapFirstAdds(w: World, root: nat, vpn: nat, ppn: nat, flags: Flags)
    requires Ready(w.tree, root, vpn, 1, ppn, flags) && WalkFrom(w, root, vpn, true).ok
    ensures WayAdded(w.tree, MapFirst(w, root, vpn, 1, ppn, flags).tree, root, 2, vpn)
  {
    hide Wf;
    hide Below;
    hide Walk;
    hide Tables;
    WalkFromAdds(w, root, vpn);
    var s, t := WalkFrom(w, root, vpn, true).w.tree, MapFirst(w, root, vpn, 1, ppn, flags).tree;
    forall l | 0 <= l <= 1 { TablesSame(s.owner, t.owner, root, l); }
  }

  // With a page less to map, so much less is needed.
  lemma MapNewCounts(w: World, root: nat, vpn: nat, page: Page, flags: Flags, pages: set<nat>)
    requires Vacant(w.tree, root, vpn, 1) && |page| == 512 && IsLeaf(flags) && vpn in pages
    ensures var r, n := MapNew(w, root, vpn, page, flags), PagesNeeded(w.tree.owner, root, pages);
            && (!r.ok ==> |w.free| < n)
            && (r.ok ==> |w.free| - n == |r.w.free| - PagesNeeded(r.w.tree.owner, root, pages - {vpn}))
  {
    hide Wf;
    hide Below;
    hide MapNew;
    hide Tables;
    hide PagesNeeded;
    MapNewNeeds(w, root, vpn, page, flags);
    MissingIs(w.tree, root, vpn);
    NeededAtLeast(w.tree.owner, root, pages, vpn);
    var r := MapNew(w, root, vpn, page, flags);
    if r.ok {
      MapNewAdds(w, root, vpn, page, flags);
      NeededOneLess(w.tree.owner, r.w.tree.owner, root, pages, vpn);
    }
  }

  // ---- several pages -----------------------------------------------------------------------

  lemma GrowthKeepsVacant(s: Tree, s': Tree, root: nat, want: map<nat, Leaf>, vpn: nat, n: nat)
    requires Vacant(s, root, vpn, n) && Gains(s, s', root, want)
    requires forall v :: vpn <= v < vpn + n ==> v !in want
    ensures Vacant(s', root, vpn, n)
  {
    hide Wf;
    hide Below;
  }

  lemma GainsThenTrans(s: Tree, s1: Tree, s2: Tree, root: nat, want: map<nat, Leaf>, more: map<nat, Leaf>)
    requires Gains(s, s1, root, want) && Gains(s1, s2, root, more) && IsRoot(s, root) && IsRoot(s1, root)
    requires want.Keys !! more.Keys && forall v :: v in want + more ==> v < MAXVPN
    ensures GainsTrans(s, s2, root, want + more)
  {
    hide Wf;
    hide Below;
    forall v | v in want + more ensures Backed(s, s2, root, v, (want + more)[v]) {
      if v in more {
        BackedEarlier(s, s1, s2, root, v, want, more[v]);
      } else {
        BackedLater(s, s1, s2, root, v, want[v], more);
      }
    }
    forall r, v | IsRoot(s, r) && 0 <= v < MAXVPN && !(r == root && v in want + more)
      ensures Translate(s2.mem, r, v) == Translate(s.mem, r, v)
    {
      assert IsRoot(s1, r);
    }
  }

  // A page that was free after some growth was free before it.
  lemma BackedEarlier(s: Tree, s1: Tree, s2: Tree, root: nat, v: nat, want: map<nat, Leaf>, leaf: Leaf)
    requires GainsOwners(s, s1, root, want) && Backed(s1, s2, root, v, leaf)
    ensures Backed(s, s2, root, v, leaf)
  {
    hide Wf;
    hide Below;
  }

  // Later growth leaves it alone.
  lemma BackedLater(s: Tree, s1: Tree, s2: Tree, root: nat, v: nat, leaf: Leaf, more: map<nat, Leaf>)
    requires Backed(s, s1, root, v, leaf) && Gains(s1, s2, root, more) && v !in more && v < MAXVPN && IsRoot(s1, root)
    ensures Backed(s, s2, root, v, leaf)
  {
    hide Wf;
    hide Below;
    var e := Translate(s1.mem, root, v);
    assert s2.owner[e.ppn] == s1.owner[e.ppn];
    assert !TableOf(s1, e.ppn, root);
  }

  lemma GainsThenOwners(s: Tree, s1: Tree, s2: Tree, root: nat, want: map<nat, Leaf>, more: map<nat, Leaf>)
    requires Gains(s, s1, root, want) && Gains(s1, s2, root, more)
    ensures GainsOwners(s, s2, root, want + more) && GrewContents(s, s2, root)
  {
    hide NodeOk;
    hide EntryOk;
    hide Below;
  }

  lemma GainsThen(s: Tree, s1: Tree, s2: Tree, root: nat, want: map<nat, Leaf>, more: map<nat, Leaf>)
    requires Gains(s, s1, root, want) && Gains(s1, s2, root, more) && IsRoot(s, root) && IsRoot(s1, root)
    requires want.Keys !! more.Keys && forall v :: v in want + more ==> v < MAXVPN
    ensures Gains(s, s2, root, want + more)
  {
    hide Wf;
    hide Below;
    GainsThenTrans(s, s1, s2, root, want, more);
    GainsThenOwners(s, s1, s2, root, want, more);
  }

  // ---- taking it back ----------------------------------------------------------------------

  // What was gained in a vacant range, and unmapped again, leaves only interior tables.
  lemma UndoTrans(s: Tree, s1: Tree, s2: Tree, s3: Tree, root: nat, want: map<nat, Leaf>, vpn: nat, n: nat)
    requires Vacant(s, root, vpn, n) && forall v :: v in want ==> vpn <= v < vpn + n
    requires Gains(s, s1, root, want) && Grew(s1, s2, root) && UnmapsRange(s2, s3, root, vpn, n)
    ensures SameMaps(s, s3)
  {
    hide Wf;
    hide Below;
    forall r, v | IsRoot(s, r) && 0 <= v < MAXVPN
      ensures Translate(s3.mem, r, v) == Translate(s.mem, r, v)
    {
      assert IsRoot(s1, r) && SameTranslation(s1, s2, r);
      assert IsRoot(s2, r);
      if r == root && vpn <= v < vpn + n {
        TranslateZero(s, root, v);
        TranslateZero(s3, root, v);
      }
    }
  }

  lemma VacantNoUser(s: Tree, root: nat, vpn: nat, n: nat, p: nat)
    requires Vacant(s, root, vpn, n)
    ensures !UserPageIn(s, p, root, vpn, n)
  {
    if UserPageIn(s, p, root, vpn, n) {
      UserPageMapped(s, p, root, s.owner[p].prefix);
    }
  }

  lemma UndoOwners(s: Tree, s1: Tree, s2: Tree, s3: Tree, root: nat, want: map<nat, Leaf>, vpn: nat, n: nat)
    requires Vacant(s, root, vpn, n) && forall v :: v in want ==> vpn <= v < vpn + n
    requires Gains(s, s1, root, want) && Grew(s1, s2, root) && UnmapsRange(s2, s3, root, vpn, n)
    ensures GrewOwners(s, s3, root)
  {
    hide NodeOk;
    hide EntryOk;
    hide Below;
    hide UnmapTrans;
    hide GainsTrans;
    forall p | p in s.owner ensures !UserPageIn(s, p, root, vpn, n) {
      VacantNoUser(s, root, vpn, n, p);
    }
  }

  lemma UndoContents(s: Tree, s1: Tree, s2: Tree, s3: Tree, root: nat, want: map<nat, Leaf>, vpn: nat, n: nat)
    requires Vacant(s, root, vpn, n) && forall v :: v in want ==> vpn <= v < vpn + n
    requires Gains(s, s1, root, want) && Grew(s1, s2, root) && UnmapsRange(s2, s3, root, vpn, n)
    ensures GrewContents(s, s3, root)
  {
    hide NodeOk;
    hide EntryOk;
    hide Below;
    hide UnmapTrans;
    hide GainsTrans;
    forall p | p in s.owner ensures !UserPageIn(s, p, root, vpn, n) {
      VacantNoUser(s, root, vpn, n, p);
    }
  }

  lemma Undo(s: Tree, s1: Tree, s2: Tree, s3: Tree, root: nat, want: map<nat, Leaf>, vpn: nat, n: nat)
    requires Vacant(s, root, vpn, n) && forall v :: v in want ==> vpn <= v < vpn + n
    requires Gains(s, s1, root, want) && Grew(s1, s2, root) && UnmapsRange(s2, s3, root, vpn, n)
    ensures Grew(s, s3, root)
  {
    UndoTrans(s, s1, s2, s3, root, want, vpn, n);
    UndoOwners(s, s1, s2, s3, root, want, vpn, n);
    UndoContents(s, s1, s2, s3, root, want, vpn, n);
  }

  // ---- uvmalloc ----------------------------------------------------------------------------

  // PGROUNDUP(sz) / PGSIZE
  function PgUp(sz: nat): nat { (sz + 4095) / 4096 }

  // What uvmalloc and uvmcopy do with the pages they mapped when memory runs out.
  ghost function GiveUp(w: World, root: nat, vpn: nat, n: nat): Grown
    requires IsRoot(w.tree, root) && vpn + n <= MAXVPN
  {
    Grown(Uvmunmap(w, root, vpn, n), false)
  }

  lemma MapNewKeeps(w: World, root: nat, vpn: nat, n: nat, page: Page, flags: Flags) returns (r: Grown)
    requires n > 0 && Vacant(w.tree, root, vpn, n) && |page| == 512 && IsLeaf(flags)
    ensures Vacant(w.tree, root, vpn, 1) && r == MapNew(w, root, vpn, page, flags)
    ensures if r.ok then Gains(w.tree, r.w.tree, root, map[vpn := Leaf(flags, page)]) else Grew(w.tree, r.w.tree, root)
    ensures IsRoot(r.w.tree, root)
    ensures r.ok ==> Vacant(r.w.tree, root, vpn + 1, n - 1)
  {
    hide Wf;
    hide Below;
    r := MapNewMaps(w, root, vpn, page, flags);
    if r.ok {
      GrowthKeepsVacant(w.tree, r.w.tree, root, map[vpn := Leaf(flags, page)], vpn + 1, n - 1);
    }
  }

  // uvmalloc from page a on, when the pages from lo to a are there.
  ghost function AllocFrom(w: World, root: nat, lo: nat, a: nat, hi: nat, flags: Flags): (r: Grown)
    requires lo <= a <= hi && Vacant(w.tree, root, a, hi - a) && IsLeaf(flags)
    decreases hi - a
  {
    if a == hi then Grown(w, true)
    else
      var r := MapNew(w, root, a, Fill(Zero), flags);
      assert IsRoot(r.w.tree, root) && (r.ok ==> Vacant(r.w.tree, root, a + 1, hi - (a + 1))) by {
        var r' := MapNewKeeps(w, root, a, hi - a, Fill(Zero), flags);
      }
      if r.ok then AllocFrom(r.w, root, lo, a + 1, hi, flags) else GiveUp(r.w, root, lo, a - lo)
  }

  // The zero-filled pages uvmalloc is asked for.
  ghost function ZeroPages(lo: nat, hi: nat, flags: Flags): (m: map<nat, Leaf>)
    ensures forall v :: v in m <==> lo <= v < hi
    ensures forall v :: v in m ==> m[v] == Leaf(flags, Fill(Zero))
  {
    if hi <= lo then map[] else ZeroPages(lo, hi - 1, flags)[hi - 1 := Leaf(flags, Fill(Zero))]
  }

  lemma AllocMore(s: Tree, w: World, w1: World, root: nat, lo: nat, a: nat, hi: nat, flags: Flags)
    requires lo <= a < hi <= MAXVPN && IsRoot(s, root) && IsRoot(w.tree, root)
    requires Gains(s, w.tree, root, ZeroPages(lo, a, flags))
    requires Gains(w.tree, w1.tree, root, map[a := Leaf(flags, Fill(Zero))])
    ensures Gains(s, w1.tree, root, ZeroPages(lo, a + 1, flags))
  {
    hide Wf;
    hide Below;
    hide Gains;
    GainsThen(s, w.tree, w1.tree, root, ZeroPages(lo, a, flags), map[a := Leaf(flags, Fill(Zero))]);
    assert ZeroPages(lo, a, flags) + map[a := Leaf(flags, Fill(Zero))] == ZeroPages(lo, a + 1, flags);
  }

  lemma GiveUpUndoes(s: Tree, w: World, w1: World, root: nat, lo: nat, a: nat, want: map<nat, Leaf>) returns (r: Grown)
    requires lo <= a && Vacant(s, root, lo, a - lo) && forall v :: v in want ==> lo <= v < a
    requires Gains(s, w.tree, root, want) && Grew(w.tree, w1.tree, root) && IsRoot(w1.tree, root)
    ensures r == GiveUp(w1, root, lo, a - lo)
    ensures Grew(s, r.w.tree, root)
  {
    hide Wf;
    hide Below;
    hide Gains;
    r := GiveUp(w1, root, lo, a - lo);
    UvmunmapUnmaps(w1, root, lo, a - lo);
    Undo(s, w.tree, w1.tree, r.w.tree, root, want, lo, a - lo);
  }

  lemma {:induction false} AllocFromGains(s: Tree, w: World, root: nat, lo: nat, a: nat, hi: nat, flags: Flags) returns (r: Grown)
    requires lo <= a <= hi && Vacant(w.tree, root, a, hi - a) && IsLeaf(flags)
    requires Vacant(s, root, lo, hi - lo) && Gains(s, w.tree, root, ZeroPages(lo, a, flags))
    ensures r == AllocFrom(w, root, lo, a, hi, flags)
    ensures if r.ok then Gains(s, r.w.tree, root, ZeroPages(lo, hi, flags)) else Grew(s, r.w.tree, root)
    decreases hi - a
  {
    hide Wf;
    hide Below;
    hide Gains;
    hide MapNew;
    if a == hi {
      r := Grown(w, true);
    } else {
      var m := MapNewKeeps(w, root, a, hi - a, Fill(Zero), flags);
      if m.ok {
        AllocMore(s, w, m.w, root, lo, a, hi, flags);
        r := AllocFromGains(s, m.w, root, lo, a + 1, hi, flags);
      } else {
        r := GiveUpUndoes(s, w, m.w, root, lo, a, ZeroPages(lo, a, flags));
      }
    }
  }

  ghost function Range(lo: nat, hi: nat): (pages: set<nat>)
    ensures forall v :: v in pages <==> lo <= v < hi
  {
    if hi <= lo then {} else Range(lo, hi - 1) + {hi - 1}
  }

  // All pages are mapped exactly when there are free pages for them and for the tables they lack.
  lemma {:induction false} AllocNeeds(w: World, root: nat, lo: nat, a: nat, hi: nat, flags: Flags)
    requires lo <= a <= hi && Vacant(w.tree, root, a, hi - a) && IsLeaf(flags)
    ensures AllocFrom(w, root, lo, a, hi, flags).ok <==> |w.free| >= PagesNeeded(w.tree.owner, root, Range(a, hi))
    decreases hi - a
  {
    hide Wf;
    hide Below;
    hide MapNew;
    hide Gains;
    hide Grew;
    hide Uvmunmap;
    hide Tables;
    hide PagesNeeded;
    if a == hi {
      assert Range(a, hi) == {};
      NeededBounds(w.tree.owner, root, {});
    } else {
      var m := MapNewKeeps(w, root, a, hi - a, Fill(Zero), flags);
      assert Range(a, hi) - {a} == Range(a + 1, hi);
      MapNewCounts(w, root, a, Fill(Zero), flags, Range(a, hi));
      if m.ok { AllocNeeds(m.w, root, lo, a + 1, hi, flags); }
    }
  }

  // uvmalloc(pagetable, oldsz, newsz, xperm); `flags` are PTE_R | PTE_U | xperm.
  ghost predicate CanAlloc(w: World, root: nat, oldsz: nat, newsz: nat, flags: Flags) {
    IsLeaf(flags) && (oldsz <= newsz ==> Vacant(w.tree, root, PgUp(oldsz), PgUp(newsz) - PgUp(oldsz)))
  }

  ghost function Uvmalloc(w: World, root: nat, oldsz: nat, newsz: nat, flags: Flags): (World, nat)
    requires CanAlloc(w, root, oldsz, newsz, flags)
  {
    if newsz < oldsz then (w, oldsz)
    else
      var r := AllocFrom(w, root, PgUp(oldsz), PgUp(oldsz), PgUp(newsz), flags);
      (r.w, if r.ok then newsz else 0)
  }

  /** uvmalloc either adds exactly the pages between the two sizes, zero-filled, each on its own
      page that was free before; or it leaves every address space as it was, with nothing lost: all
      pages it took are free again or have become interior tables.  It succeeds exactly when there are
      free pages for the new ones and for the tables that they lack.  Asked to shrink it does nothing. */
  lemma UvmallocGains(w: World, root: nat, oldsz: nat, newsz: nat, flags: Flags) returns (r: (World, nat))
    requires CanAlloc(w, root, oldsz, newsz, flags)
    ensures r == Uvmalloc(w, root, oldsz, newsz, flags)
    ensures newsz < oldsz ==> r == (w, oldsz)
    ensures oldsz <= newsz ==>
              && (r.1 == newsz || r.1 == 0)
              && (r.1 == newsz > 0 ==> Gains(w.tree, r.0.tree, root, ZeroPages(PgUp(oldsz), PgUp(newsz), flags)))
              && (r.1 == 0 < newsz ==> Grew(w.tree, r.0.tree, root))
              && (r.1 == newsz <==> |w.free| >= PagesNeeded(w.tree.owner, root, Range(PgUp(oldsz), PgUp(newsz))))
  {
    hide Wf;
    hide Below;
    hide Gains;
    hide Grew;
    hide AllocFrom;
    hide PagesNeeded;
    r := Uvmalloc(w, root, oldsz, newsz, flags);
    if oldsz <= newsz {
      var lo := PgUp(oldsz);
      GainsNothing(w.tree, root);
      assert ZeroPages(lo, lo, flags) == map[];
      var g := AllocFromGains(w.tree, w, root, lo, lo, PgUp(newsz), flags);
      AllocNeeds(w, root, lo, lo, PgUp(newsz), flags);
      if newsz == 0 {
        assert Range(lo, PgUp(newsz)) == {};
        NeededBounds(w.tree.owner, root, {});
      }
    }
  }

  // ---- uvmdealloc and vmfault --------------------------------------------------------------

  ghost function Uvmdealloc(w: World, root: nat, oldsz: nat, newsz: nat): (World, nat)
    requires IsRoot(w.tree, root) && PgUp(oldsz) <= MAXVPN
  {
    if newsz >= oldsz then (w, oldsz)
    else if PgUp(newsz) < PgUp(oldsz) then (Uvmunmap(w, root, PgUp(newsz), PgUp(oldsz) - PgUp(newsz)), newsz)
    else (w, newsz)
  }

  /** Shrinking right after growing gives back the old address space, page for page. */
  lemma DeallocUndoesAlloc(w: World, root: nat, oldsz: nat, newsz: nat, flags: Flags) returns (g: (World, nat), r: (World, nat))
    requires CanAlloc(w, root, oldsz, newsz, flags) && oldsz < newsz && IsRoot(w.tree, root)
    ensures g == Uvmalloc(w, root, oldsz, newsz, flags)
    ensures g.1 == newsz ==> IsRoot(g.0.tree, root) && r == Uvmdealloc(g.0, root, newsz, oldsz)
                             && r.1 == oldsz && Grew(w.tree, r.0.tree, root)
  {
    hide Wf;
    hide Below;
    hide Gains;
    hide Grew;
    hide UnmapsRange;
    hide Uvmunmap;
    hide Uvmalloc;
    g := UvmallocGains(w, root, oldsz, newsz, flags);
    r := (w, 0);
    if g.1 == newsz {
      var lo, hi := PgUp(oldsz), PgUp(newsz);
      GainsKeepsRoot(w.tree, g.0.tree, root, ZeroPages(lo, hi, flags));
      SameGrew(g.0.tree, root);
      r := Uvmdealloc(g.0, root, newsz, oldsz);
      if lo < hi {
        UvmunmapUnmaps(g.0, root, lo, hi - lo);
        Undo(w.tree, g.0.tree, g.0.tree, r.0.tree, root, ZeroPages(lo, hi, flags), lo, hi - lo);
      } else {
        GainsNoPages(w.tree, g.0.tree, root, ZeroPages(lo, hi, flags));
      }
    }
  }

  lemma SameGrew(s: Tree, root: nat)
    ensures Grew(s, s, root)
  {
  }

  lemma GainsKeepsRoot(s: Tree, s': Tree, root: nat, want: map<nat, Leaf>)
    requires Gains(s, s', root, want) && IsRoot(s, root)
    ensures IsRoot(s', root)
  {
  }

  lemma GainsNoPages(s: Tree, s': Tree, root: nat, want: map<nat, Leaf>)
    requires Gains(s, s', root, want) && want == map[]
    ensures Grew(s, s', root)
  {
    hide Wf;
    hide Below;
  }

  /** uvmdealloc takes away exactly the pages that the smaller size no longer needs, page `newsz` rounded
      up to page `oldsz` rounded up, and returns their user pages; asked to grow it does nothing. */
  lemma DeallocShrinks(w: World, root: nat, oldsz: nat, newsz: nat)
    requires IsRoot(w.tree, root) && PgUp(oldsz) <= MAXVPN
    ensures var r := Uvmdealloc(w, root, oldsz, newsz);
            && (newsz >= oldsz ==> r == (w, oldsz))
            && (newsz < oldsz ==>
                  && r.1 == newsz && (newsz + 4095) / 4096 <= (oldsz + 4095) / 4096
                  && UnmapsRange(w.tree, r.0.tree, root, (newsz + 4095) / 4096, (oldsz + 4095) / 4096 - (newsz + 4095) / 4096))
  {
    hide UnmapsRange;
    hide Wf;
    hide Below;
    hide Uvmunmap;
    if newsz < oldsz {
      if PgUp(newsz) < PgUp(oldsz) {
        UvmunmapUnmaps(w, root, PgUp(newsz), PgUp(oldsz) - PgUp(newsz));
      } else {
        UnmapsNone(w.tree, root, PgUp(newsz));
      }
    }
  }

  // vmfault, for a page-aligned address; the source reads the size from the current process.
  ghost predicate CanFault(w: World, root: nat, sz: nat) {
    IsRoot(w.tree, root) && PgUp(sz) <= MAXVPN
  }

  const UserRwx: Flags := Flags(true, true, false, true, 0)     // PTE_W|PTE_U|PTE_R

  ghost function Vmfault(w: World, root: nat, sz: nat, vpn: nat): Grown
    requires CanFault(w, root, sz)
  {
    if vpn * 4096 >= sz || Translate(w.tree.mem, root, vpn).v then Grown(w, false)
    else MapNew(w, root, vpn, Fill(Zero), UserRwx)
  }

  /** A fault inside the process on an unmapped page adds that page, zero-filled, readable and writable
      by the user and not executable, and nothing else, exactly when there are free pages for it and for the tables missing on its way; any other
      fault changes nothing. */
  lemma VmfaultGains(w: World, root: nat, sz: nat, vpn: nat) returns (r: Grown)
    requires CanFault(w, root, sz)
    ensures r == Vmfault(w, root, sz, vpn)
    ensures r.ok ==> vpn < PgUp(sz) && !Translate(w.tree.mem, root, vpn).v
                     && Gains(w.tree, r.w.tree, root, map[vpn := Leaf(Flags(true, true, false, true, 0), Fill(Zero))])
    ensures !r.ok ==> Grew(w.tree, r.w.tree, root)
    ensures r.ok <==> && vpn * 4096 < sz && !Translate(w.tree.mem, root, vpn).v
                      && |w.free| >= 1 + Missing(w.tree.mem, root, 2, vpn)
    ensures vpn * 4096 >= sz || Translate(w.tree.mem, root, vpn).v ==> r == Grown(w, false)
  {
    hide Wf;
    hide Below;
    hide Gains;
    hide MapNew;
    SameGrew(w.tree, root);
    r := Vmfault(w, root, sz, vpn);
    if vpn * 4096 < sz && !Translate(w.tree.mem, root, vpn).v {
      var r' := MapNewMaps(w, root, vpn, Fill(Zero), UserRwx);
      MapNewNeeds(w, root, vpn, Fill(Zero), UserRwx);
    }
  }
}
