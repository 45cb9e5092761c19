/** The operations of kalloc.c and vm.c as functions on the whole physical memory - contents,
    owners and free list - and what they do to the flat maps. */
module VmSpec {
  import opened PageTable
  import opened PageTableSteps

  // The word memset leaves behind when kfree fills a page with 1 and kalloc with 5.
  const Junk1: Pte := Pte(0x4040_4040_4040, true, Flags(false, false, false, false, 8))
  const Junk5: Pte := Pte(0x1_4141_4141_4141, true, Flags(false, true, false, false, 8))

  datatype RawWorld = RawWorld(tree: Tree, free: seq<nat>)

  ghost predicate NoDuplicates(free: seq<nat>) {
    forall j, k :: 0 <= j < k < |free| ==> free[j] != free[k]
  }

  ghost function Elements(free: seq<nat>): set<nat> { set p | p in free }

  ghost function Unowned(owner: map<nat, Owner>): set<nat> { set p | p in owner && owner[p] == Free }

  /** Conservation: every page is on the free list once, or has exactly one owner. */
  type World = w: RawWorld | NoDuplicates(w.free) && Elements(w.free) == Unowned(w.tree.owner)
    ghost witness RawWorld(Ram(map[], map[]), [])

  // ---- taking and returning a page ---------------------------------------------------------

  lemma Changed(s: Tree, s': Ram, c: nat)
    requires c in s.owner && !s.owner[c].Node? && s.owner[c] != Kernel
    requires c in s'.mem && c in s'.owner && |s'.mem[c]| == 512 && !s'.owner[c].Node? && s'.owner[c] != Kernel
    requires s'.mem == s.mem[c := s'.mem[c]] && s'.owner == s.owner[c := s'.owner[c]]
    ensures Wf(s')
  {
    KeepsTreesWf(s, s');
  }

  lemma FirstIsFree(w: World)
    requires w.free != []
    ensures var c := w.free[0];
            && c in w.tree.owner && w.tree.owner[c] == Free && NoDuplicates(w.free[1..])
            && Elements(w.free[1..]) == Unowned(w.tree.owner[c := Held])
  {
    hide Wf;
    var c := w.free[0];
    assert w.free == [c] + w.free[1..] && c in Elements(w.free);
    assert Unowned(w.tree.owner[c := Held]) == Unowned(w.tree.owner) - {c};
  }

  // kalloc: the first free page, filled with 5.
  ghost function Take(w: World): (w': World)
    requires w.free != []
  {
    var c := w.free[0];
    FirstIsFree(w);
    var s := Ram(w.tree.mem[c := Fill(Junk5)], w.tree.owner[c := Held]);
    Changed(w.tree, s, c);
    RawWorld(s, w.free[1..])
  }

  lemma HeldIsNotFree(w: World, c: nat)
    requires c in w.tree.owner && w.tree.owner[c] == Held
    ensures NoDuplicates([c] + w.free) && Elements([c] + w.free) == Unowned(w.tree.owner[c := Free])
  {
    hide Wf;
    assert c !in Elements(w.free) && Unowned(w.tree.owner[c := Free]) == Unowned(w.tree.owner) + {c};
  }

  // kfree of a page that is mapped nowhere.
  ghost function Release(w: World, c: nat): (w': World)
    requires c in w.tree.owner && w.tree.owner[c] == Held
  {
    var s := Ram(w.tree.mem[c := Fill(Junk1)], w.tree.owner[c := Free]);
    Changed(w.tree, s, c);
    HeldIsNotFree(w, c);
    RawWorld(s, [c] + w.free)
  }

  // A held page may be written at will.
  ghost function Fresh(w: World, c: nat, page: Page): (w': World)
    requires c in w.tree.owner && w.tree.owner[c] == Held && |page| == 512
  {
    var s := Ram(w.tree.mem[c := page], w.tree.owner);
    Changed(w.tree, s, c);
    RawWorld(s, w.free)
  }

  // ---- walk --------------------------------------------------------------------------------

  ghost predicate NeedsTable(w: World, t: nat, i: nat) {
    && IsTable(w.tree, t) && w.tree.owner[t].level > 0 && i < 512 && (w.tree.owner[t].level == 2 ==> i < 256)
    && !At(w.tree.mem, t, i).v && w.free != []
  }

  // The allocating branch of walk.
  ghost function WithTable(w: World, t: nat, i: nat): (w': World)
    requires NeedsTable(w, t, i)
  {
    var c := w.free[0];
    var s := Take(w).tree;
    assert c in Elements(w.free);
    AddTableWf(s, t, i, c);
    var s' := AddTable(s, t, i, c);
    assert Unowned(s'.owner) == Unowned(s.owner);
    RawWorld(s', Take(w).free)
  }

  lemma WithTableOwner(w: World, t: nat, i: nat)
    requires NeedsTable(w, t, i)
    ensures w.free[0] in w.tree.owner && w.tree.owner[w.free[0]] == Free
    ensures var o, o', c := w.tree.owner, WithTable(w, t, i).tree.owner, w.free[0];
            && o'.Keys == o.Keys && (forall p :: p in o && p != c ==> o'[p] == o[p])
            && o'[c] == Node(o[t].root, o[t].level - 1, o[t].prefix * 512 + i, t, i)
  {
    hide NodeOk;
    hide EntryOk;
    assert w.free[0] in Elements(w.free);
    assert Take(w).tree.owner[t] == w.tree.owner[t];
  }

  datatype Walked = Walked(w: World, ok: bool, t: nat)

  lemma NewTableOnPath(w: World, t: nat, root: nat, level: int, vpn: nat)
    requires OnPath(w.tree, t, root, level, vpn) && vpn < MAXVPN && level > 0
    requires !At(w.tree.mem, t, Px(level, vpn)).v && w.free != []
    ensures NeedsTable(w, t, Px(level, vpn))
    ensures OnPath(WithTable(w, t, Px(level, vpn)).tree, w.free[0], root, level - 1, vpn)
  {
    PrefixStep(level, vpn);
    WithTableOwner(w, t, Px(level, vpn));
  }

  ghost function Walk(w: World, t: nat, root: nat, level: int, vpn: nat, alloc: bool): (r: Walked)
    requires OnPath(w.tree, t, root, level, vpn) && vpn < MAXVPN
    ensures r.ok ==> OnPath(r.w.tree, r.t, root, 0, vpn)
    decreases level
  {
    var e := At(w.tree.mem, t, Px(level, vpn));
    if level == 0 then Walked(w, true, t)
    else if e.v then
      StepDown(w.tree, t, root, level, vpn);
      Walk(w, e.ppn, root, level - 1, vpn, alloc)
    else if !alloc || w.free == [] then Walked(w, false, t)
    else
      NewTableOnPath(w, t, root, level, vpn);
      Walk(WithTable(w, t, Px(level, vpn)), w.free[0], root, level - 1, vpn, alloc)
  }

  ghost function WalkFrom(w: World, root: nat, vpn: nat, alloc: bool): Walked
    requires IsRoot(w.tree, root) && vpn < MAXVPN
  {
    Walk(w, root, root, 2, vpn, alloc)
  }

  // How many tables there are to be added on the way from table t down to the page.
  ghost function Missing(mem: map<nat, Page>, t: nat, level: int, vpn: nat): (n: nat)
    requires 0 <= level <= 2
    ensures n <= level
    decreases level
  {
    if level == 0 then 0
    else
      var e := At(mem, t, Px(level, vpn));
      if e.v then Missing(mem, e.ppn, level - 1, vpn) else level
  }

  lemma NewTableIsEmpty(w: World, t: nat, root: nat, level: int, vpn: nat)
    requires OnPath(w.tree, t, root, level, vpn) && vpn < MAXVPN && level > 0 && !At(w.tree.mem, t, Px(level, vpn)).v && w.free != []
    ensures NeedsTable(w, t, Px(level, vpn))
    ensures var w' := WithTable(w, t, Px(level, vpn));
            |w'.free| == |w.free| - 1 && Missing(w'.tree.mem, w.free[0], level - 1, vpn) == level - 1
  {
    NewTableOnPath(w, t, root, level, vpn);
  }

  /** walk, told to allocate, succeeds exactly when there are as many free pages as tables missing on
      the way, and takes that many. */
  lemma {:induction false} WalkNeeds(w: World, t: nat, root: nat, level: int, vpn: nat)
    requires OnPath(w.tree, t, root, level, vpn) && vpn < MAXVPN
    ensures var r, n := Walk(w, t, root, level, vpn, true), Missing(w.tree.mem, t, level, vpn);
            (r.ok <==> |w.free| >= n) && (if r.ok then |r.w.free| == |w.free| - n else r.w.free == [])
    decreases level
  {
    hide Wf;
    hide Below;
    hide WithTable;
    if level > 0 {
      var e := At(w.tree.mem, t, Px(level, vpn));
      if e.v {
        StepDown(w.tree, t, root, level, vpn);
        WalkNeeds(w, e.ppn, root, level - 1, vpn);
      } else if w.free != [] {
        NewTableOnPath(w, t, root, level, vpn);
        NewTableIsEmpty(w, t, root, level, vpn);
        WalkNeeds(WithTable(w, t, Px(level, vpn)), w.free[0], root, level - 1, vpn);
      }
    }
  }

  lemma WalkFromNeeds(w: World, root: nat, vpn: nat)
    requires IsRoot(w.tree, root) && vpn < MAXVPN
    ensures var r, n := WalkFrom(w, root, vpn, true), Missing(w.tree.mem, root, 2, vpn);
            (r.ok <==> |w.free| >= n) && (if r.ok then |r.w.free| == |w.free| - n else r.w.free == [])
  {
    WalkNeeds(w, root, root, 2, vpn);
  }

  // Pages that are in no tree do not matter.
  lemma {:induction false} MissingFrame(s: Tree, mem': map<nat, Page>, t: nat, root: nat, level: int, vpn: nat)
    requires OnPath(s, t, root, level, vpn) && vpn < MAXVPN
    requires forall p :: IsTable(s, p) ==> p in mem' && mem'[p] == s.mem[p]
    ensures Missing(mem', t, level, vpn) == Missing(s.mem, t, level, vpn)
    decreases level
  {
    hide Wf;
    if level > 0 && At(s.mem, t, Px(level, vpn)).v {
      StepDown(s, t, root, level, vpn);
      MissingFrame(s, mem', At(s.mem, t, Px(level, vpn)).ppn, root, level - 1, vpn);
    }
  }

  // ---- growth ------------------------------------------------------------------------------

  // An interior table of root, not the root itself.
  ghost predicate Interior(s: Ram, p: nat, root: nat) {
    IsTable(s, p) && s.owner[p].root == root && s.owner[p].level < 2
  }

  ghost predicate TableOf(s: Ram, p: nat, root: nat) {
    IsTable(s, p) && s.owner[p].root == root
  }

  ghost predicate GrewOwners(s: Ram, s': Ram, root: nat) {
    && s'.owner.Keys == s.owner.Keys
    && forall p :: p in s.owner ==> s'.owner[p] == s.owner[p] || (s.owner[p] == Free && Interior(s', p, root))
  }

  ghost predicate GrewContents(s: Ram, s': Ram, root: nat) {
    forall p :: p in s.owner && p in s.mem && s.owner[p] != Free && !TableOf(s, p, root) ==>
                  p in s'.mem && s'.mem[p] == s.mem[p]
  }

  ghost predicate SameMaps(s: Ram, s': Ram) {
    forall r :: IsRoot(s, r) ==> SameTranslation(s, s', r)
  }

  /** From s to s', free pages may have become interior tables of `root`; nothing else happened:
      no translation changed, nor the owner of any other page, nor the contents of any page
      that is neither free nor one of root's tables. */
  ghost predicate Grew(s: Ram, s': Ram, root: nat) {
    GrewOwners(s, s', root) && GrewContents(s, s', root) && SameMaps(s, s')
  }

  lemma SameMapsTrans(s: Ram, s': Ram, s'': Ram, root: nat)
    requires GrewOwners(s, s', root) && SameMaps(s, s') && SameMaps(s', s'')
    ensures SameMaps(s, s'')
  {
    forall r | IsRoot(s, r) ensures SameTranslation(s, s'', r) {
      assert IsRoot(s', r);
    }
  }

  lemma GrewTrans(s: Tree, s': Tree, s'': Tree, root: nat)
    requires Grew(s, s', root) && Grew(s', s'', root)
    ensures Grew(s, s'', root)
  {
    SameMapsTrans(s, s', s'', root);
  }

  lemma TakeGrew(w: World, r: nat)
    requires w.free != [] && IsRoot(w.tree, r)
    ensures SameTranslation(w.tree, Take(w).tree, r)
  {
    assert w.free[0] in Elements(w.free);
    TranslateFrame(w.tree, Take(w).tree, r);
  }

  lemma WithTableSameMaps(w: World, t: nat, i: nat)
    requires NeedsTable(w, t, i)
    ensures SameMaps(w.tree, WithTable(w, t, i).tree)
  {
    assert w.free[0] in Elements(w.free);
    forall r | IsRoot(w.tree, r) ensures SameTranslation(w.tree, WithTable(w, t, i).tree, r) {
      TakeGrew(w, r);
      AddTableTranslates(Take(w).tree, t, i, w.free[0], r);
    }
  }

  lemma WithTableGrew(w: World, t: nat, i: nat)
    requires NeedsTable(w, t, i)
    ensures Grew(w.tree, WithTable(w, t, i).tree, w.tree.owner[t].root)
  {
    WithTableSameMaps(w, t, i);
    WithTableOwner(w, t, i);
    assert NodeOk(w.tree, t);
  }

  /** walk only grows the tree. */
  lemma {:induction false} WalkGrows(w: World, t: nat, root: nat, level: int, vpn: nat, alloc: bool)
    requires OnPath(w.tree, t, root, level, vpn) && vpn < MAXVPN
    ensures Grew(w.tree, Walk(w, t, root, level, vpn, alloc).w.tree, root)
    ensures !alloc ==> Walk(w, t, root, level, vpn, alloc).w == w
    decreases level
  {
    if level > 0 {
      var e := At(w.tree.mem, t, Px(level, vpn));
      if e.v {
        StepDown(w.tree, t, root, level, vpn);
        WalkGrows(w, e.ppn, root, level - 1, vpn, alloc);
      } else if alloc && w.free != [] {
        NewTableOnPath(w, t, root, level, vpn);
        var w' := WithTable(w, t, Px(level, vpn));
        WithTableGrew(w, t, Px(level, vpn));
        WalkGrows(w', w.free[0], root, level - 1, vpn, alloc);
        GrewTrans(w.tree, w'.tree, Walk(w, t, root, level, vpn, alloc).w.tree, root);
      }
    }
  }

  /** walk finds the entry of the flat map, or there is none: and if it was to allocate, then
      memory has run out. */
  lemma {:induction false} WalkFinds(w: World, t: nat, root: nat, level: int, vpn: nat, alloc: bool)
    requires OnPath(w.tree, t, root, level, vpn) && vpn < MAXVPN
    ensures var r := Walk(w, t, root, level, vpn, alloc);
            && (r.ok ==> At(r.w.tree.mem, r.t, Px(0, vpn)) == Translate(r.w.tree.mem, root, vpn))
            && (!r.ok ==> Translate(r.w.tree.mem, root, vpn) == Zero && (alloc ==> r.w.free == []))
    decreases level
  {
    WalkReaches(w.tree, t, root, level, vpn);
    if level > 0 {
      var e := At(w.tree.mem, t, Px(level, vpn));
      if e.v {
        StepDown(w.tree, t, root, level, vpn);
        WalkFinds(w, e.ppn, root, level - 1, vpn, alloc);
      } else if alloc && w.free != [] {
        NewTableOnPath(w, t, root, level, vpn);
        WalkFinds(WithTable(w, t, Px(level, vpn)), w.free[0], root, level - 1, vpn, alloc);
      }
    }
  }

  // ---- mappages ----------------------------------------------------------------------------

  ghost function MappedPage(w: World, t: nat, i: nat, e: Pte): (w': World)
    requires CanMap(w.tree, t, i, e)
  {
    MapPageWf(w.tree, t, i, e);
    var s := MapPage(w.tree, t, i, e);
    assert Unowned(s.owner) == Unowned(w.tree.owner);
    RawWorld(s, w.free)
  }

  // The pages to be mapped are held or not handed out by kalloc, the places still empty.
  ghost predicate Ready(s: Ram, root: nat, vpn: nat, n: nat, ppn: nat, flags: Flags) {
    && IsRoot(s, root) && vpn + n <= MAXVPN && IsLeaf(flags)
    && (forall v :: vpn <= v < vpn + n ==> !Translate(s.mem, root, v).v)
    && (forall p :: ppn <= p < ppn + n && p in s.owner ==> s.owner[p] == Held || s.owner[p] == Kernel)
  }

  lemma GrewReady(s: Tree, s': Tree, root: nat, vpn: nat, n: nat, ppn: nat, flags: Flags)
    requires Ready(s, root, vpn, n, ppn, flags) && Grew(s, s', root)
    ensures Ready(s', root, vpn, n, ppn, flags)
  {
    assert IsRoot(s', root) && SameTranslation(s, s', root);
  }

  lemma MapPageReady(s: Tree, t: nat, i: nat, e: Pte, root: nat, vpn: nat, n: nat)
    requires n > 0 && Ready(s, root, vpn, n, e.ppn, e.flags) && e.v && OnPath(s, t, root, 0, vpn) && i == Px(0, vpn)
    ensures CanMap(s, t, i, e)
    ensures Ready(MapPage(s, t, i, e), root, vpn + 1, n - 1, e.ppn + 1, e.flags)
  {
    PrefixStep(0, vpn);
    WalkReaches(s, t, root, 0, vpn);
    var s' := MapPage(s, t, i, e);
    forall v | vpn + 1 <= v < vpn + n ensures !Translate(s'.mem, root, v).v {
      PutLeafTranslates(s, s'.mem, t, i, e, root, v);
    }
  }

  datatype Mapped = Mapped(w: World, done: nat)

  // After the walk for the first page of a range.
  lemma FirstReady(w: World, root: nat, vpn: nat, n: nat, ppn: nat, flags: Flags)
    requires n > 0 && Ready(w.tree, root, vpn, n, ppn, flags)
    ensures Ready(WalkFrom(w, root, vpn, true).w.tree, root, vpn, n, ppn, flags)
  {
    WalkGrows(w, root, root, 2, vpn, true);
    GrewReady(w.tree, WalkFrom(w, root, vpn, true).w.tree, root, vpn, n, ppn, flags);
  }

  // The flat maps: n pages from vpn on now lead to ppn and up, everything else is as before.
  ghost predicate MapTrans(s: Ram, s': Ram, root: nat, vpn: nat, n: nat, ppn: nat, flags: Flags) {
    forall r, v :: IsRoot(s, r) && 0 <= v < MAXVPN ==>
      Translate(s'.mem, r, v)
      == if r == root && vpn <= v < vpn + n then Pte(ppn + (v - vpn), true, flags) else Translate(s.mem, r, v)
  }

  ghost predicate IsUserPage(s: Ram, p: nat, root: nat, vpn: nat) {
    p in s.owner && s.owner[p].Node? && s.owner[p].root == root && s.owner[p].level == -1 && s.owner[p].prefix == vpn
  }

  // The owners: held pages of the range are user pages now; free pages may be interior tables.
  ghost predicate MapOwners(s: Ram, s': Ram, root: nat, vpn: nat, n: nat, ppn: nat) {
    && s'.owner.Keys == s.owner.Keys
    && forall p :: p in s.owner ==>
         if ppn <= p < ppn + n && s.owner[p] == Held then IsUserPage(s', p, root, vpn + (p - ppn))
         else s'.owner[p] == s.owner[p] || (s.owner[p] == Free && Interior(s', p, root))
  }

  lemma GrewMapTrans(s: Tree, s1: Tree, t: nat, i: nat, e: Pte, root: nat, vpn: nat)
    requires Grew(s, s1, root) && CanMap(s1, t, i, e) && OnPath(s1, t, root, 0, vpn) && vpn < MAXVPN && i == Px(0, vpn)
    ensures MapTrans(s, MapPage(s1, t, i, e), root, vpn, 1, e.ppn, e.flags)
  {
    PrefixStep(0, vpn);
    forall r, v | IsRoot(s, r) && 0 <= v < MAXVPN
      ensures Translate(MapPage(s1, t, i, e).mem, r, v)
              == if r == root && v == vpn then e else Translate(s.mem, r, v)
    {
      assert IsRoot(s1, r) && SameTranslation(s, s1, r);
      PutLeafTranslates(s1, MapPage(s1, t, i, e).mem, t, i, e, r, v);
    }
  }

  lemma GrewMapOwners(s: Tree, s1: Tree, t: nat, i: nat, e: Pte, root: nat, vpn: nat)
    requires Grew(s, s1, root) && CanMap(s1, t, i, e) && OnPath(s1, t, root, 0, vpn) && vpn < MAXVPN && i == Px(0, vpn)
    ensures MapOwners(s, MapPage(s1, t, i, e), root, vpn, 1, e.ppn)
    ensures GrewContents(s, MapPage(s1, t, i, e), root)
  {
    PrefixStep(0, vpn);
  }

  lemma MapTransTrans(s: Ram, s1: Ram, s2: Ram, root: nat, vpn: nat, n: nat, ppn: nat, flags: Flags)
    requires MapTrans(s, s1, root, vpn, 1, ppn, flags) && MapTrans(s1, s2, root, vpn + 1, n, ppn + 1, flags)
    requires forall r :: IsRoot(s, r) ==> IsRoot(s1, r)
    ensures MapTrans(s, s2, root, vpn, n + 1, ppn, flags)
  {
    forall r, v | IsRoot(s, r) && 0 <= v < MAXVPN
      ensures Translate(s2.mem, r, v)
              == if r == root && vpn <= v < vpn + n + 1 then Pte(ppn + (v - vpn), true, flags) else Translate(s.mem, r, v)
    {
      assert IsRoot(s1, r);
    }
  }

  lemma MapOwnersTrans(s: Tree, s1: Tree, s2: Tree, root: nat, vpn: nat, n: nat, ppn: nat)
    requires MapOwners(s, s1, root, vpn, 1, ppn) && MapOwners(s1, s2, root, vpn + 1, n, ppn + 1)
    requires GrewContents(s, s1, root) && GrewContents(s1, s2, root)
    ensures MapOwners(s, s2, root, vpn, n + 1, ppn) && GrewContents(s, s2, root)
  {
    hide NodeOk;
    hide EntryOk;
  }

  ghost predicate MapsRange(s: Ram, s': Ram, root: nat, vpn: nat, n: nat, ppn: nat, flags: Flags) {
    MapTrans(s, s', root, vpn, n, ppn, flags) && MapOwners(s, s', root, vpn, n, ppn) && GrewContents(s, s', root)
  }

  lemma MapsRangeTrans(s: Tree, s1: Tree, s2: Tree, root: nat, vpn: nat, n: nat, ppn: nat, flags: Flags)
    requires MapsRange(s, s1, root, vpn, 1, ppn, flags) && MapsRange(s1, s2, root, vpn + 1, n, ppn + 1, flags)
    ensures MapsRange(s, s2, root, vpn, n + 1, ppn, flags)
  {
    MapTransTrans(s, s1, s2, root, vpn, n, ppn, flags);
    MapOwnersTrans(s, s1, s2, root, vpn, n, ppn);
  }

  lemma GrewMapsNone(s: Tree, s': Tree, root: nat, vpn: nat, ppn: nat, flags: Flags)
    requires Grew(s, s', root)
    ensures MapsRange(s, s', root, vpn, 0, ppn, flags)
  {
    forall r, v | IsRoot(s, r) && 0 <= v < MAXVPN ensures Translate(s'.mem, r, v) == Translate(s.mem, r, v) {
      assert SameTranslation(s, s', r);
    }
  }

  // The first page of the range, mapped.
  ghost function MapFirst(w: World, root: nat, vpn: nat, n: nat, ppn: nat, flags: Flags): (w': World)
    requires n > 0 && Ready(w.tree, root, vpn, n, ppn, flags) && WalkFrom(w, root, vpn, true).ok
    ensures Ready(w'.tree, root, vpn + 1, n - 1, ppn + 1, flags)
  {
    var r := WalkFrom(w, root, vpn, true);
    FirstReady(w, root, vpn, n, ppn, flags);
    MapPageReady(r.w.tree, r.t, Px(0, vpn), Pte(ppn, true, flags), root, vpn, n);
    MappedPage(r.w, r.t, Px(0, vpn), Pte(ppn, true, flags))
  }

  lemma MapFirstMaps(w: World, root: nat, vpn: nat, n: nat, ppn: nat, flags: Flags)
    requires n > 0 && Ready(w.tree, root, vpn, n, ppn, flags) && WalkFrom(w, root, vpn, true).ok
    ensures MapsRange(w.tree, MapFirst(w, root, vpn, n, ppn, flags).tree, root, vpn, 1, ppn, flags)
  {
    var r, e := WalkFrom(w, root, vpn, true), Pte(ppn, true, flags);
    WalkGrows(w, root, root, 2, vpn, true);
    FirstReady(w, root, vpn, n, ppn, flags);
    MapPageReady(r.w.tree, r.t, Px(0, vpn), e, root, vpn, n);
    GrewMapTrans(w.tree, r.w.tree, r.t, Px(0, vpn), e, root, vpn);
    GrewMapOwners(w.tree, r.w.tree, r.t, Px(0, vpn), e, root, vpn);
  }

  // mappages: `done` pages of n are mapped, all of them unless memory ran out.
  ghost function Mappages(w: World, root: nat, vpn: nat, n: nat, ppn: nat, flags: Flags): (m: Mapped)
    requires Ready(w.tree, root, vpn, n, ppn, flags)
    ensures m.done <= n
    decreases n
  {
    if n == 0 then Mapped(w, 0)
    else if !WalkFrom(w, root, vpn, true).ok then Mapped(WalkFrom(w, root, vpn, true).w, 0)
    else
      var rest := Mappages(MapFirst(w, root, vpn, n, ppn, flags), root, vpn + 1, n - 1, ppn + 1, flags);
      Mapped(rest.w, rest.done + 1)
  }

  // One turn of the loop.
  lemma MappagesTurn(w: World, root: nat, vpn: nat, n: nat, ppn: nat, flags: Flags)
    requires n > 0 && Ready(w.tree, root, vpn, n, ppn, flags)
    ensures !WalkFrom(w, root, vpn, true).ok ==>
              Mappages(w, root, vpn, n, ppn, flags) == Mapped(WalkFrom(w, root, vpn, true).w, 0)
    ensures WalkFrom(w, root, vpn, true).ok ==>
              && Ready(MapFirst(w, root, vpn, n, ppn, flags).tree, root, vpn + 1, n - 1, ppn + 1, flags)
              && (var rest := Mappages(MapFirst(w, root, vpn, n, ppn, flags), root, vpn + 1, n - 1, ppn + 1, flags);
                  && Mappages(w, root, vpn, n, ppn, flags) == Mapped(rest.w, rest.done + 1)
                  && (n == 1 ==> rest == Mapped(MapFirst(w, root, vpn, n, ppn, flags), 0)))
  {
    hide Wf;
    hide Below;
    hide Walk;
  }

  /** mappages changes exactly the translations it is given, up to the page for which memory
      ran out, takes the held pages of the range into use, and disturbs nothing else. */
  lemma {:induction false} MappagesMaps(w: World, root: nat, vpn: nat, n: nat, ppn: nat, flags: Flags)
    requires Ready(w.tree, root, vpn, n, ppn, flags)
    ensures var m := Mappages(w, root, vpn, n, ppn, flags);
            MapsRange(w.tree, m.w.tree, root, vpn, m.done, ppn, flags) && (m.done < n ==> m.w.free == [])
    decreases n
  {
    hide MapTrans;
    hide MapOwners;
    hide GrewContents;
    hide MapFirst;
    hide Walk;
    hide Wf;
    if n == 0 {
      GrewMapsNone(w.tree, w.tree, root, vpn, ppn, flags);
    } else if WalkFrom(w, root, vpn, true).ok {
      var w1 := MapFirst(w, root, vpn, n, ppn, flags);
      MappagesMaps(w1, root, vpn + 1, n - 1, ppn + 1, flags);
      MapFirstMaps(w, root, vpn, n, ppn, flags);
      var rest := Mappages(w1, root, vpn + 1, n - 1, ppn + 1, flags);
      assert Mappages(w, root, vpn, n, ppn, flags) == Mapped(rest.w, rest.done + 1);
      MapsRangeTrans(w.tree, w1.tree, rest.w.tree, root, vpn, rest.done, ppn, flags);
    } else {
      MapRunsOut(w, root, vpn, n, ppn, flags);
    }
  }

  lemma MapRunsOut(w: World, root: nat, vpn: nat, n: nat, ppn: nat, flags: Flags)
    requires n > 0 && Ready(w.tree, root, vpn, n, ppn, flags) && !WalkFrom(w, root, vpn, true).ok
    ensures MapsRange(w.tree, WalkFrom(w, root, vpn, true).w.tree, root, vpn, 0, ppn, flags)
    ensures WalkFrom(w, root, vpn, true).w.free == []
  {
    WalkGrows(w, root, root, 2, vpn, true);
    WalkFinds(w, root, root, 2, vpn, true);
    GrewMapsNone(w.tree, WalkFrom(w, root, vpn, true).w.tree, root, vpn, ppn, flags);
  }

  // ---- uvmunmap ----------------------------------------------------------------------------

  // kfree of the page and *pte = 0, or only the latter when the page is not a user page.
  ghost function Unmapped(w: World, t: nat, i: nat): (w': World)
    requires CanUnmap(w.tree, t, i)
  {
    UnmapPageWf(w.tree, t, i, Fill(Junk1));
    UnmappedFree(w, t, i);
    RawWorld(UnmapPage(w.tree, t, i, Fill(Junk1)),
             if MapsUserPage(w.tree, t, i) then [w.tree.mem[t][i].ppn] + w.free else w.free)
  }

  lemma UnmappedFree(w: World, t: nat, i: nat)
    requires CanUnmap(w.tree, t, i)
    ensures var free' := if MapsUserPage(w.tree, t, i) then [w.tree.mem[t][i].ppn] + w.free else w.free;
            NoDuplicates(free') && Elements(free') == Unowned(UnmapPage(w.tree, t, i, Fill(Junk1)).owner)
  {
    var p := w.tree.mem[t][i].ppn;
    if MapsUserPage(w.tree, t, i) {
      assert p !in Elements(w.free);
      assert Unowned(w.tree.owner[p := Free]) == Unowned(w.tree.owner) + {p};
    }
  }

  // One turn of uvmunmap's loop.
  ghost function UnmapFirst(w: World, root: nat, vpn: nat): (w': World)
    requires IsRoot(w.tree, root) && vpn < MAXVPN
  {
    var r := WalkFrom(w, root, vpn, false);
    PrefixStep(0, vpn);
    if r.ok && At(r.w.tree.mem, r.t, Px(0, vpn)).v then Unmapped(r.w, r.t, Px(0, vpn)) else r.w
  }

  // The flat maps: the page is gone from root's.
  ghost predicate UnmapTrans(s: Ram, s': Ram, root: nat, vpn: nat, n: nat) {
    forall r, v :: IsRoot(s, r) && 0 <= v < MAXVPN ==>
      Translate(s'.mem, r, v)
      == if r == root && vpn <= v < vpn + n && Translate(s.mem, r, v).v then Zero else Translate(s.mem, r, v)
  }

  ghost predicate UserPageIn(s: Ram, p: nat, root: nat, vpn: nat, n: nat) {
    p in s.owner && s.owner[p].Node? && s.owner[p].root == root && s.owner[p].level == -1 && vpn <= s.owner[p].prefix < vpn + n
  }

  // The owners: the user pages of the range are free again, and only they changed hands.
  ghost predicate UnmapOwners(s: Ram, s': Ram, root: nat, vpn: nat, n: nat) {
    && s'.owner.Keys == s.owner.Keys
    && forall p :: p in s.owner ==> s'.owner[p] == if UserPageIn(s, p, root, vpn, n) then Free else s.owner[p]
  }

  ghost predicate UnmapContents(s: Ram, s': Ram, root: nat, vpn: nat, n: nat) {
    forall p :: p in s.owner && p in s.mem && !TableOf(s, p, root) && !UserPageIn(s, p, root, vpn, n) ==>
                  p in s'.mem && s'.mem[p] == s.mem[p]
  }

  ghost predicate UnmapsRange(s: Ram, s': Ram, root: nat, vpn: nat, n: nat) {
    UnmapTrans(s, s', root, vpn, n) && UnmapOwners(s, s', root, vpn, n) && UnmapContents(s, s', root, vpn, n)
  }

  // A user page is mapped where its owner says.
  lemma UserPageMapped(s: Tree, p: nat, root: nat, vpn: nat)
    requires IsUserPage(s, p, root, vpn) && vpn < MAXVPN
    ensures OnPath(s, s.owner[p].parent, root, 0, vpn) && s.owner[p].idx == Px(0, vpn)
    ensures Translate(s.mem, root, vpn) == At(s.mem, s.owner[p].parent, Px(0, vpn))
    ensures Translate(s.mem, root, vpn).v && Translate(s.mem, root, vpn).ppn == p
  {
    assert NodeOk(s, p);
    PrefixStep(0, vpn);
    WalkReaches(s, s.owner[p].parent, root, 0, vpn);
  }

  lemma UnmapOneTrans(s: Tree, t: nat, root: nat, vpn: nat)
    requires OnPath(s, t, root, 0, vpn) && vpn < MAXVPN && CanUnmap(s, t, Px(0, vpn))
    ensures UnmapTrans(s, UnmapPage(s, t, Px(0, vpn), Fill(Junk1)), root, vpn, 1)
  {
    PrefixStep(0, vpn);
    var s' := UnmapPage(s, t, Px(0, vpn), Fill(Junk1));
    assert EntryOk(s, t, Px(0, vpn));
    forall r, v | IsRoot(s, r) && 0 <= v < MAXVPN
      ensures Translate(s'.mem, r, v) == if r == root && v == vpn then Zero else Translate(s.mem, r, v)
      ensures r == root && v == vpn ==> Translate(s.mem, r, v).v
    {
      if r == root && v == vpn { WalkReaches(s, t, root, 0, vpn); }
      PutLeafTranslates(s, s'.mem, t, Px(0, vpn), Zero, r, v);
    }
  }

  lemma UnmapOneOwners(s: Tree, t: nat, root: nat, vpn: nat)
    requires OnPath(s, t, root, 0, vpn) && vpn < MAXVPN && CanUnmap(s, t, Px(0, vpn))
    ensures UnmapOwners(s, UnmapPage(s, t, Px(0, vpn), Fill(Junk1)), root, vpn, 1)
    ensures UnmapContents(s, UnmapPage(s, t, Px(0, vpn), Fill(Junk1)), root, vpn, 1)
  {
    PrefixStep(0, vpn);
    var s' := UnmapPage(s, t, Px(0, vpn), Fill(Junk1));
    assert EntryOk(s, t, Px(0, vpn));
    WalkReaches(s, t, root, 0, vpn);
    forall p | p in s.owner && UserPageIn(s, p, root, vpn, 1) ensures p == s.mem[t][Px(0, vpn)].ppn {
      UserPageMapped(s, p, root, vpn);
    }
  }

  // Nothing is mapped at the page, so there is nothing to take away.
  lemma UnmapNothing(s: Tree, root: nat, vpn: nat)
    requires vpn < MAXVPN && !Translate(s.mem, root, vpn).v
    ensures UnmapsRange(s, s, root, vpn, 1)
  {
    forall p | UserPageIn(s, p, root, vpn, 1) ensures false {
      UserPageMapped(s, p, root, vpn);
    }
  }

  lemma UnmapFirstUnmaps(w: World, root: nat, vpn: nat)
    requires IsRoot(w.tree, root) && vpn < MAXVPN
    ensures UnmapsRange(w.tree, UnmapFirst(w, root, vpn).tree, root, vpn, 1)
    ensures IsRoot(UnmapFirst(w, root, vpn).tree, root)
  {
    var r := WalkFrom(w, root, vpn, false);
    PrefixStep(0, vpn);
    WalkGrows(w, root, root, 2, vpn, false);
    WalkFinds(w, root, root, 2, vpn, false);
    if r.ok && At(r.w.tree.mem, r.t, Px(0, vpn)).v {
      UnmapOneTrans(w.tree, r.t, root, vpn);
      UnmapOneOwners(w.tree, r.t, root, vpn);
    } else {
      UnmapNothing(w.tree, root, vpn);
    }
  }

  // uvmunmap(pagetable, va, npages, ...)
  ghost function Uvmunmap(w: World, root: nat, vpn: nat, n: nat): (w': World)
    requires IsRoot(w.tree, root) && vpn + n <= MAXVPN
    decreases n
  {
    if n == 0 then w
    else
      UnmapFirstUnmaps(w, root, vpn);
      Uvmunmap(UnmapFirst(w, root, vpn), root, vpn + 1, n - 1)
  }

  lemma UnmapsTransTrans(s: Ram, s1: Ram, s2: Ram, root: nat, vpn: nat, n: nat)
    requires UnmapTrans(s, s1, root, vpn, 1) && UnmapTrans(s1, s2, root, vpn + 1, n)
    requires forall r :: IsRoot(s, r) ==> IsRoot(s1, r)
    ensures UnmapTrans(s, s2, root, vpn, n + 1)
  {
    forall r, v | IsRoot(s, r) && 0 <= v < MAXVPN
      ensures Translate(s2.mem, r, v)
              == if r == root && vpn <= v < vpn + n + 1 && Translate(s.mem, r, v).v then Zero else Translate(s.mem, r, v)
    {
      assert IsRoot(s1, r);
    }
  }

  lemma UnmapsOwnersTrans(s: Tree, s1: Tree, s2: Tree, root: nat, vpn: nat, n: nat)
    requires UnmapOwners(s, s1, root, vpn, 1) && UnmapOwners(s1, s2, root, vpn + 1, n)
    requires UnmapContents(s, s1, root, vpn, 1) && UnmapContents(s1, s2, root, vpn + 1, n)
    ensures UnmapOwners(s, s2, root, vpn, n + 1) && UnmapContents(s, s2, root, vpn, n + 1)
  {
  }

  lemma UnmapsRangeTrans(s: Tree, s1: Tree, s2: Tree, root: nat, vpn: nat, n: nat)
    requires UnmapsRange(s, s1, root, vpn, 1) && UnmapsRange(s1, s2, root, vpn + 1, n)
    ensures UnmapsRange(s, s2, root, vpn, n + 1)
  {
    UnmapsTransTrans(s, s1, s2, root, vpn, n);
    UnmapsOwnersTrans(s, s1, s2, root, vpn, n);
  }

  lemma UnmapsNone(s: Tree, root: nat, vpn: nat)
    ensures UnmapsRange(s, s, root, vpn, 0)
  {
  }

  /** uvmunmap removes exactly its range, frees exactly the user pages mapped there, and
      disturbs no other page and no other page table. */
  lemma {:induction false} UvmunmapUnmaps(w: World, root: nat, vpn: nat, n: nat)
    requires IsRoot(w.tree, root) && vpn + n <= MAXVPN
    ensures UnmapsRange(w.tree, Uvmunmap(w, root, vpn, n).tree, root, vpn, n)
    decreases n
  {
    hide UnmapTrans;
    hide UnmapOwners;
    hide UnmapContents;
    hide UnmapFirst;
    hide Wf;
    if n == 0 {
      UnmapsNone(w.tree, root, vpn);
    } else {
      UnmapFirstUnmaps(w, root, vpn);
      var w1 := UnmapFirst(w, root, vpn);
      UvmunmapUnmaps(w1, root, vpn + 1, n - 1);
      var w2 := Uvmunmap(w1, root, vpn + 1, n - 1);
      assert Uvmunmap(w, root, vpn, n) == w2;
      UnmapsRangeTrans(w.tree, w1.tree, w2.tree, root, vpn, n - 1);
    }
  }
}
