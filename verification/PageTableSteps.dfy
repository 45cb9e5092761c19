/** The single changes vm.c makes to page tables and page ownership, and what each does to the
    tree and to the flat map. */
module PageTableSteps {
  import opened PageTable

  // ---- changes that touch no table ---------------------------------------------------------

  // Only pages outside the trees change contents, and only free and held pages change hands.
  ghost predicate KeepsTrees(s: Ram, s': Ram) {
    && s'.mem.Keys == s.mem.Keys && s'.owner.Keys == s.owner.Keys
    && (forall p :: p in s'.mem ==> |s'.mem[p]| == 512)
    && (forall p :: p in s.owner ==>
          s'.owner[p] == s.owner[p] || (!s.owner[p].Node? && !s'.owner[p].Node? && s.owner[p] != Kernel && s'.owner[p] != Kernel))
    && (forall p :: IsTable(s, p) ==> s'.mem[p] == s.mem[p])
  }

  lemma TableKept(s: Ram, s': Ram, p: nat)
    requires KeepsTrees(s, s') && IsTable(s', p)
    ensures IsTable(s, p) && s'.mem[p] == s.mem[p] && s'.owner[p] == s.owner[p]
  {
  }

  lemma KeepsEntry(s: Tree, s': Ram, p: nat, i: nat)
    requires KeepsTrees(s, s') && IsTable(s', p) && i < 512
    ensures EntryOk(s', p, i)
  {
    hide NodeOk;
    TableKept(s, s', p);
    assert EntryOk(s, p, i);
  }

  lemma KeepsNode(s: Tree, s': Ram, c: nat)
    requires KeepsTrees(s, s') && c in s'.owner && s'.owner[c].Node?
    ensures NodeOk(s', c)
  {
    assert NodeOk(s, c);
  }

  lemma KeepsTreesWf(s: Tree, s': Ram)
    requires KeepsTrees(s, s')
    ensures Wf(s')
  {
    forall c | c in s'.owner && s'.owner[c].Node? ensures NodeOk(s', c) { KeepsNode(s, s', c); }
    forall p, i | IsTable(s', p) && 0 <= i < 512 ensures EntryOk(s', p, i) { KeepsEntry(s, s', p, i); }
  }

  lemma {:induction false} BelowFrame(s: Tree, mem': map<nat, Page>, t: nat, root: nat, level: int, vpn: nat)
    requires OnPath(s, t, root, level, vpn) && vpn < MAXVPN
    requires forall p :: IsTable(s, p) && s.owner[p].root == root ==> p in mem' && mem'[p] == s.mem[p]
    ensures Below(mem', t, level, vpn) == Below(s.mem, t, level, vpn)
    decreases level
  {
    if level > 0 && At(s.mem, t, Px(level, vpn)).v {
      StepDown(s, t, root, level, vpn);
      BelowFrame(s, mem', At(s.mem, t, Px(level, vpn)).ppn, root, level - 1, vpn);
    }
  }

  /** A page table translates as before when none of its own tables changed. */
  lemma TranslateFrame(s: Tree, s': Ram, root: nat)
    requires IsRoot(s, root)
    requires forall p :: IsTable(s, p) && s.owner[p].root == root ==> p in s'.mem && s'.mem[p] == s.mem[p]
    ensures SameTranslation(s, s', root)
  {
    forall vpn | 0 <= vpn < MAXVPN ensures Translate(s'.mem, root, vpn) == Translate(s.mem, root, vpn) {
      BelowFrame(s, s'.mem, root, root, 2, vpn);
    }
  }

  // ---- one leaf entry ----------------------------------------------------------------------

  ghost function PutEntry(mem: map<nat, Page>, t: nat, i: nat, e: Pte): map<nat, Page>
    requires t in mem && i < |mem[t]|
  {
    mem[t := mem[t][i := e]]
  }

  // mem' holds the tables of s but for entry i of table t, which is e.
  ghost predicate DiffersAt(s: Ram, mem': map<nat, Page>, t: nat, i: nat, e: Pte) {
    forall p :: IsTable(s, p) ==> p in mem' && mem'[p] == if p == t && i < |s.mem[p]| then s.mem[p][i := e] else s.mem[p]
  }

  lemma {:induction false} BelowPutLeaf(s: Tree, mem': map<nat, Page>, t: nat, i: nat, e: Pte, u: nat, root: nat, level: int, vpn: nat)
    requires DiffersAt(s, mem', t, i, e) && IsTable(s, t) && s.owner[t].level == 0 && i < 512
    requires OnPath(s, u, root, level, vpn) && vpn < MAXVPN
    ensures Below(mem', u, level, vpn)
            == if root == s.owner[t].root && vpn == s.owner[t].prefix * 512 + i then e else Below(s.mem, u, level, vpn)
    decreases level
  {
    var hit := root == s.owner[t].root && vpn == s.owner[t].prefix * 512 + i;
    if level == 0 {
      PrefixStep(0, vpn);
      if hit { OneTable(s, t, u, root, vpn); }
    } else {
      assert u != t;
      if At(s.mem, u, Px(level, vpn)).v {
        StepDown(s, u, root, level, vpn);
        BelowPutLeaf(s, mem', t, i, e, At(s.mem, u, Px(level, vpn)).ppn, root, level - 1, vpn);
      } else if hit {
        OnPathValid(s, t, u, root, level, vpn);
      }
    }
  }

  // Two tables of one level on the way to the same page are the same table.
  lemma OneTable(s: Tree, t: nat, u: nat, root: nat, vpn: nat)
    requires vpn < MAXVPN
    requires OnPath(s, t, root, 0, vpn) && OnPath(s, u, root, 0, vpn)
    ensures t == u
  {
    SamePlace(s, t, u);
  }

  // The place in the tree decides the page.
  lemma {:induction false} SamePlace(s: Tree, t: nat, u: nat)
    requires t in s.owner && u in s.owner && s.owner[t].Node? && s.owner[u].Node?
    requires s.owner[t].root == s.owner[u].root && s.owner[t].level == s.owner[u].level && s.owner[t].prefix == s.owner[u].prefix
    ensures t == u
    decreases 2 - s.owner[t].level
  {
    assert NodeOk(s, t) && NodeOk(s, u);
    if s.owner[t].level < 2 {
      SamePlace(s, s.owner[t].parent, s.owner[u].parent);
    }
  }

  // Above an existing level-0 table every entry on the way to it is valid.
  lemma {:induction false} OnPathValid(s: Tree, t: nat, u: nat, root: nat, level: int, vpn: nat)
    requires vpn < MAXVPN && level > 0
    requires OnPath(s, t, root, 0, vpn) && OnPath(s, u, root, level, vpn)
    ensures At(s.mem, u, Px(level, vpn)).v
  {
    assert NodeOk(s, t);
    var p := s.owner[t].parent;
    PrefixStep(1, vpn);
    if level == 1 {
      SamePlace(s, p, u);
    } else {
      assert NodeOk(s, p);
      PrefixStep(2, vpn);
      SamePlace(s, s.owner[p].parent, u);
    }
  }

  /** Writing entry i of a level-0 table changes the translation of the one page it serves. */
  lemma PutLeafTranslates(s: Tree, mem': map<nat, Page>, t: nat, i: nat, e: Pte, root: nat, vpn: nat)
    requires DiffersAt(s, mem', t, i, e) && IsTable(s, t) && s.owner[t].level == 0 && i < 512
    requires IsRoot(s, root) && vpn < MAXVPN
    ensures Translate(mem', root, vpn)
            == if root == s.owner[t].root && vpn == s.owner[t].prefix * 512 + i then e else Translate(s.mem, root, vpn)
  {
    BelowPutLeaf(s, mem', t, i, e, root, root, 2, vpn);
  }

  // ---- mapping one page --------------------------------------------------------------------

  ghost predicate CanMap(s: Ram, t: nat, i: nat, e: Pte) {
    && IsTable(s, t) && s.owner[t].level == 0 && i < 512 == |s.mem[t]| && !s.mem[t][i].v
    && e.v && IsLeaf(e.flags) && (e.ppn in s.owner ==> s.owner[e.ppn] == Held || s.owner[e.ppn] == Kernel)
  }

  // A held page becomes the user page of this place; a kernel or device page keeps its use.
  ghost function MapPage(s: Ram, t: nat, i: nat, e: Pte): Ram
    requires CanMap(s, t, i, e)
  {
    Ram(PutEntry(s.mem, t, i, e),
        if e.ppn in s.owner && s.owner[e.ppn] == Held
        then s.owner[e.ppn := Node(s.owner[t].root, -1, s.owner[t].prefix * 512 + i, t, i)]
        else s.owner)
  }

  lemma MapPageEntry(s: Tree, t: nat, i: nat, e: Pte, p: nat, j: nat)
    requires CanMap(s, t, i, e) && IsTable(s, p) && j < 512
    ensures EntryOk(MapPage(s, t, i, e), p, j)
  {
    assert EntryOk(s, p, j);
  }

  lemma MapPageNode(s: Tree, t: nat, i: nat, e: Pte, c: nat)
    requires CanMap(s, t, i, e) && c in s.owner && MapPage(s, t, i, e).owner[c].Node?
    ensures NodeOk(MapPage(s, t, i, e), c)
  {
    if s.owner[c].Node? { assert NodeOk(s, c); }
  }

  lemma MapPageWf(s: Tree, t: nat, i: nat, e: Pte)
    requires CanMap(s, t, i, e)
    ensures Wf(MapPage(s, t, i, e))
  {
    var s' := MapPage(s, t, i, e);
    forall c | c in s'.owner && s'.owner[c].Node? ensures NodeOk(s', c) { MapPageNode(s, t, i, e, c); }
    forall p, j | IsTable(s', p) && 0 <= j < 512 ensures EntryOk(s', p, j) { MapPageEntry(s, t, i, e, p, j); }
  }

  // ---- unmapping one page ------------------------------------------------------------------

  ghost predicate CanUnmap(s: Ram, t: nat, i: nat) {
    IsTable(s, t) && s.owner[t].level == 0 && i < 512 == |s.mem[t]| && s.mem[t][i].v
  }

  ghost predicate MapsUserPage(s: Ram, t: nat, i: nat)
    requires CanUnmap(s, t, i)
  {
    s.mem[t][i].ppn in s.owner && s.owner[s.mem[t][i].ppn].Node?
  }

  // The entry is cleared; a user page goes back to the free list, filled with `junk`.
  ghost function UnmapPage(s: Ram, t: nat, i: nat, junk: Page): Ram
    requires CanUnmap(s, t, i)
  {
    var e := s.mem[t][i];
    if MapsUserPage(s, t, i)
    then Ram(PutEntry(s.mem, t, i, Zero)[e.ppn := junk], s.owner[e.ppn := Free])
    else Ram(PutEntry(s.mem, t, i, Zero), s.owner)
  }

  lemma UnmapPageEntry(s: Tree, t: nat, i: nat, junk: Page, p: nat, j: nat)
    requires CanUnmap(s, t, i) && |junk| == 512 && IsTable(UnmapPage(s, t, i, junk), p) && j < 512
    ensures EntryOk(UnmapPage(s, t, i, junk), p, j)
  {
    assert EntryOk(s, t, i);
    assert IsTable(s, p) && EntryOk(s, p, j);
    if MapsUserPage(s, t, i) && s.mem[p][j].v && s.mem[p][j].ppn == s.mem[t][i].ppn {
      assert p == t && j == i;
    }
  }

  lemma UnmapPageNode(s: Tree, t: nat, i: nat, junk: Page, c: nat)
    requires CanUnmap(s, t, i) && |junk| == 512 && c in s.owner && UnmapPage(s, t, i, junk).owner[c].Node?
    ensures NodeOk(UnmapPage(s, t, i, junk), c)
  {
    assert EntryOk(s, t, i);
    assert NodeOk(s, c);
  }

  lemma UnmapPageWf(s: Tree, t: nat, i: nat, junk: Page)
    requires CanUnmap(s, t, i) && |junk| == 512
    ensures Wf(UnmapPage(s, t, i, junk))
  {
    var s' := UnmapPage(s, t, i, junk);
    forall c | c in s'.owner && s'.owner[c].Node? ensures NodeOk(s', c) { UnmapPageNode(s, t, i, junk, c); }
    forall p, j | IsTable(s', p) && 0 <= j < 512 ensures EntryOk(s', p, j) { UnmapPageEntry(s, t, i, junk, p, j); }
    assert EntryOk(s, t, i);
  }

  // ---- adding an interior table ------------------------------------------------------------

  ghost predicate CanAdd(s: Ram, p: nat, i: nat, c: nat) {
    && IsTable(s, p) && s.owner[p].level > 0 && i < 512 == |s.mem[p]| && !s.mem[p][i].v
    && (s.owner[p].level == 2 ==> i < 256)
    && c in s.owner && s.owner[c] == Held
  }

  ghost function AddTable(s: Ram, p: nat, i: nat, c: nat): Ram
    requires CanAdd(s, p, i, c)
  {
    Ram(PutEntry(s.mem, p, i, TableEntry(c))[c := Fill(Zero)],
        s.owner[c := Node(s.owner[p].root, s.owner[p].level - 1, s.owner[p].prefix * 512 + i, p, i)])
  }

  lemma AddTableEntry(s: Tree, p: nat, i: nat, c: nat, q: nat, j: nat)
    requires CanAdd(s, p, i, c) && IsTable(AddTable(s, p, i, c), q) && j < 512
    ensures EntryOk(AddTable(s, p, i, c), q, j)
  {
    if q != c {
      assert IsTable(s, q) && EntryOk(s, q, j);
    }
  }

  lemma AddTableNode(s: Tree, p: nat, i: nat, c: nat, d: nat)
    requires CanAdd(s, p, i, c) && d in s.owner && AddTable(s, p, i, c).owner[d].Node?
    ensures NodeOk(AddTable(s, p, i, c), d)
  {
    assert NodeOk(s, p);
    if d != c { assert NodeOk(s, d); }
  }

  lemma AddTableWf(s: Tree, p: nat, i: nat, c: nat)
    requires CanAdd(s, p, i, c)
    ensures Wf(AddTable(s, p, i, c))
  {
    var s' := AddTable(s, p, i, c);
    forall d | d in s'.owner && s'.owner[d].Node? ensures NodeOk(s', d) { AddTableNode(s, p, i, c, d); }
    forall q, j | IsTable(s', q) && 0 <= j < 512 ensures EntryOk(s', q, j) { AddTableEntry(s, p, i, c, q, j); }
  }

  lemma {:induction false} BelowAddTable(s: Tree, p: nat, i: nat, c: nat, u: nat, root: nat, level: int, vpn: nat)
    requires CanAdd(s, p, i, c) && OnPath(s, u, root, level, vpn) && vpn < MAXVPN
    ensures Below(AddTable(s, p, i, c).mem, u, level, vpn) == Below(s.mem, u, level, vpn)
    decreases level
  {
    PrefixStep(level, vpn);
    if level > 0 {
      if At(s.mem, u, Px(level, vpn)).v {
        StepDown(s, u, root, level, vpn);
        BelowAddTable(s, p, i, c, At(s.mem, u, Px(level, vpn)).ppn, root, level - 1, vpn);
      } else if u == p && Px(level, vpn) == i {
        EmptyTable(AddTable(s, p, i, c).mem, c, level - 1, vpn);
      }
    }
  }

  lemma EmptyTable(mem: map<nat, Page>, t: nat, level: int, vpn: nat)
    requires t in mem && mem[t] == Fill(Zero) && 0 <= level <= 2 && vpn < MAXVPN
    ensures Below(mem, t, level, vpn) == Zero
  {
    PrefixStep(level, vpn);
  }

  /** A new interior table changes no translation, of this page table or any other. */
  lemma AddTableTranslates(s: Tree, p: nat, i: nat, c: nat, root: nat)
    requires CanAdd(s, p, i, c) && IsRoot(s, root)
    ensures SameTranslation(s, AddTable(s, p, i, c), root)
  {
    forall vpn | 0 <= vpn < MAXVPN ensures Translate(AddTable(s, p, i, c).mem, root, vpn) == Translate(s.mem, root, vpn) {
      BelowAddTable(s, p, i, c, root, root, 2, vpn);
    }
  }
}
