/** How many free pages it takes to map a set of virtual pages: one for each of them, and one for each
    page table that has to be added for them, however many of them it serves. */
module PageNeeds {
  import opened PageTable
  import opened PageTableSteps
  import opened VmSpec

  ghost predicate IsTableAt(owner: map<nat, Owner>, c: nat, root: nat, level: int) {
    c in owner && owner[c].Node? && owner[c].root == root && owner[c].level == level
  }

  // The places of root's tables of this level: what the tables above have consumed of page numbers.
  ghost function Tables(owner: map<nat, Owner>, root: nat, level: int): set<nat> {
    set c | c in owner && IsTableAt(owner, c, root, level) :: owner[c].prefix
  }

  // The places where these pages need tables of this level.
  ghost function Places(pages: set<nat>, level: int): set<nat>
    requires 0 <= level <= 1
  {
    set v | v in pages :: Prefix(level, v)
  }

  /** The pages, the level-0 tables and the level-1 tables that are missing for them. */
  ghost function PagesNeeded(owner: map<nat, Owner>, root: nat, pages: set<nat>): nat {
    |pages| + |Places(pages, 0) - Tables(owner, root, 0)| + |Places(pages, 1) - Tables(owner, root, 1)|
  }

  // ---- one page ----------------------------------------------------------------------------

  ghost function Lacks(owner: map<nat, Owner>, root: nat, vpn: nat, level: int): nat
    requires 0 <= level <= 1
  {
    if Prefix(level, vpn) in Tables(owner, root, level) then 0 else 1
  }

  lemma TableIsThere(s: Tree, t: nat, root: nat, level: int, vpn: nat)
    requires OnPath(s, t, root, level, vpn)
    ensures Prefix(level, vpn) in Tables(s.owner, root, level)
  {
    hide Wf;
    assert IsTableAt(s.owner, t, root, level);
  }

  lemma ThereIsTable(s: Tree, root: nat, level: int, vpn: nat) returns (t: nat)
    requires 0 <= level <= 1 && Prefix(level, vpn) in Tables(s.owner, root, level)
    ensures OnPath(s, t, root, level, vpn)
  {
    hide NodeOk;
    hide EntryOk;
    t :| t in s.owner && IsTableAt(s.owner, t, root, level) && s.owner[t].prefix == Prefix(level, vpn);
  }

  // The entry that leads to a level-1 table is valid.
  lemma RootEntryValid(s: Tree, t: nat, root: nat, vpn: nat)
    requires OnPath(s, t, root, 1, vpn) && vpn < MAXVPN
    ensures At(s.mem, root, Px(2, vpn)).v
  {
    hide EntryOk;
    PrefixStep(2, vpn);
    assert NodeOk(s, t);
    assert NodeOk(s, s.owner[t].parent);
  }

  // Missing counts the tables of either level that are not there.
  lemma MissingIs(s: Tree, root: nat, vpn: nat)
    requires IsRoot(s, root) && vpn < MAXVPN
    ensures Missing(s.mem, root, 2, vpn) == Lacks(s.owner, root, vpn, 0) + Lacks(s.owner, root, vpn, 1)
  {
    hide NodeOk;
    hide EntryOk;
    var e := At(s.mem, root, Px(2, vpn));
    if Prefix(1, vpn) in Tables(s.owner, root, 1) {
      var t := ThereIsTable(s, root, 1, vpn);
      RootEntryValid(s, t, root, vpn);
    }
    if Prefix(0, vpn) in Tables(s.owner, root, 0) {
      var t := ThereIsTable(s, root, 0, vpn);
      OnPathValid(s, t, root, root, 2, vpn);
    }
    if e.v {
      StepDown(s, root, root, 2, vpn);
      TableIsThere(s, e.ppn, root, 1, vpn);
      MissingBelow(s, e.ppn, root, vpn);
    }
  }

  lemma MissingBelow(s: Tree, u: nat, root: nat, vpn: nat)
    requires OnPath(s, u, root, 1, vpn) && vpn < MAXVPN
    ensures Missing(s.mem, u, 1, vpn) == Lacks(s.owner, root, vpn, 0)
  {
    hide NodeOk;
    hide EntryOk;
    var e := At(s.mem, u, Px(1, vpn));
    if Prefix(0, vpn) in Tables(s.owner, root, 0) {
      var t := ThereIsTable(s, root, 0, vpn);
      OnPathValid(s, t, u, root, 1, vpn);
    }
    if e.v {
      StepDown(s, u, root, 1, vpn);
      TableIsThere(s, e.ppn, root, 0, vpn);
    }
  }

  // ---- what walk adds ----------------------------------------------------------------------

  // A free page that becomes a table adds its place.
  lemma TablesAdd(owner: map<nat, Owner>, owner': map<nat, Owner>, c: nat, root: nat, l: int, q: nat, level: int)
    requires c in owner && !owner[c].Node? && owner'.Keys == owner.Keys && forall p :: p in owner && p != c ==> owner'[p] == owner[p]
    requires IsTableAt(owner', c, root, l) && owner'[c].prefix == q
    ensures Tables(owner', root, level) == if level == l then Tables(owner, root, level) + {q} else Tables(owner, root, level)
  {
    var a, b := Tables(owner, root, level), Tables(owner', root, level);
    forall x | x in a ensures x in b {
      var d :| d in owner && IsTableAt(owner, d, root, level) && owner[d].prefix == x;
      assert IsTableAt(owner', d, root, level);
    }
    forall x | x in b ensures x in a || (level == l && x == q) {
      var d :| d in owner' && IsTableAt(owner', d, root, level) && owner'[d].prefix == x;
      if d != c { assert IsTableAt(owner, d, root, level); }
    }
    if level == l { assert q in b; }
  }

  // Pages that are in no tree before or after do not matter.
  lemma TablesSame(owner: map<nat, Owner>, owner': map<nat, Owner>, root: nat, level: int)
    requires level >= 0 && owner'.Keys == owner.Keys
    requires forall p :: p in owner ==> owner'[p] == owner[p] || ((owner[p].Node? ==> owner[p].level < 0) && (owner'[p].Node? ==> owner'[p].level < 0))
    ensures Tables(owner', root, level) == Tables(owner, root, level)
  {
    var a, b := Tables(owner, root, level), Tables(owner', root, level);
    forall x | x in a ensures x in b {
      var d :| d in owner && IsTableAt(owner, d, root, level) && owner[d].prefix == x;
      assert IsTableAt(owner', d, root, level);
    }
    forall x | x in b ensures x in a {
      var d :| d in owner' && IsTableAt(owner', d, root, level) && owner'[d].prefix == x;
      assert IsTableAt(owner, d, root, level);
    }
  }

  // The tables of root after `alloc`ating walks below this level: those on the way are there.
  ghost predicate WayAdded(s: Ram, s': Ram, root: nat, level: int, vpn: nat) {
    forall l :: 0 <= l <= 1 ==>
      Tables(s'.owner, root, l) == if l < level then Tables(s.owner, root, l) + {Prefix(l, vpn)} else Tables(s.owner, root, l)
  }

  lemma {:induction false} WalkAdds(w: World, t: nat, root: nat, level: int, vpn: nat)
    requires OnPath(w.tree, t, root, level, vpn) && vpn < MAXVPN
    ensures var r := Walk(w, t, root, level, vpn, true); r.ok ==> WayAdded(w.tree, r.w.tree, root, level, vpn)
    decreases level
  {
    hide Wf;
    hide WithTable;
    hide Tables;
    if level > 0 {
      var e := At(w.tree.mem, t, Px(level, vpn));
      if e.v {
        StepDown(w.tree, t, root, level, vpn);
        WalkAdds(w, e.ppn, root, level - 1, vpn);
        TableIsThere(w.tree, e.ppn, root, level - 1, vpn);
      } else if w.free != [] {
        NewTableOnPath(w, t, root, level, vpn);
        var c, w' := w.free[0], WithTable(w, t, Px(level, vpn));
        WithTableOwner(w, t, Px(level, vpn));
        PrefixStep(level, vpn);
        forall l | 0 <= l <= 1 { TablesAdd(w.tree.owner, w'.tree.owner, c, root, level - 1, Prefix(level - 1, vpn), l); }
        WalkAdds(w', c, root, level - 1, vpn);
      }
    }
  }

  lemma WalkFromAdds(w: World, root: nat, vpn: nat)
    requires IsRoot(w.tree, root) && vpn < MAXVPN
    ensures WalkFrom(w, root, vpn, true).ok ==> WayAdded(w.tree, WalkFrom(w, root, vpn, true).w.tree, root, 2, vpn)
  {
    hide Tables;
    WalkAdds(w, root, root, 2, vpn);
  }

  // ---- counting ----------------------------------------------------------------------------

  lemma PlacesOneLess(pages: set<nat>, vpn: nat, level: int)
    requires vpn in pages && 0 <= level <= 1
    ensures Places(pages, level) == Places(pages - {vpn}, level) + {Prefix(level, vpn)}
  {
    assert pages == (pages - {vpn}) + {vpn};
  }

  lemma OneLess(a: set<nat>, b: set<nat>, t: set<nat>, q: nat)
    requires a == b + {q}
    ensures |a - t| == |b - (t + {q})| + if q in t then 0 else 1
  {
    if q in t {
      assert a - t == b - (t + {q});
    } else {
      assert a - t == (b - (t + {q})) + {q};
    }
  }

  // Mapping one of the pages takes what it needs from what they all need.
  lemma NeededOneLess(owner: map<nat, Owner>, owner': map<nat, Owner>, root: nat, pages: set<nat>, vpn: nat)
    requires vpn in pages
    requires forall l :: 0 <= l <= 1 ==> Tables(owner', root, l) == Tables(owner, root, l) + {Prefix(l, vpn)}
    ensures PagesNeeded(owner, root, pages)
            == 1 + Lacks(owner, root, vpn, 0) + Lacks(owner, root, vpn, 1) + PagesNeeded(owner', root, pages - {vpn})
  {
    hide Tables;
    hide Places;
    hide Prefix;
    forall l | 0 <= l <= 1 ensures |Places(pages, l) - Tables(owner, root, l)|
                                   == |Places(pages - {vpn}, l) - Tables(owner', root, l)| + Lacks(owner, root, vpn, l) {
      PlacesOneLess(pages, vpn, l);
      OneLess(Places(pages, l), Places(pages - {vpn}, l), Tables(owner, root, l), Prefix(l, vpn));
    }
    assert |pages| == |pages - {vpn}| + 1;
  }

  // A page needs no more than all of them together.
  lemma NeededAtLeast(owner: map<nat, Owner>, root: nat, pages: set<nat>, vpn: nat)
    requires vpn in pages
    ensures PagesNeeded(owner, root, pages) >= 1 + Lacks(owner, root, vpn, 0) + Lacks(owner, root, vpn, 1)
  {
    hide Tables;
    hide Places;
    hide Prefix;
    forall l | 0 <= l <= 1 ensures |Places(pages, l) - Tables(owner, root, l)| >= Lacks(owner, root, vpn, l) {
      PlacesOneLess(pages, vpn, l);
      if Lacks(owner, root, vpn, l) == 1 { assert Prefix(l, vpn) in Places(pages, l) - Tables(owner, root, l); }
    }
    assert |pages| == |pages - {vpn}| + 1;
  }

  lemma {:induction false} PlacesFew(pages: set<nat>, level: int)
    requires 0 <= level <= 1
    ensures |Places(pages, level)| <= |pages|
    decreases pages
  {
    if pages == {} {
      assert Places(pages, level) == {};
    } else {
      var v :| v in pages;
      PlacesOneLess(pages, v, level);
      PlacesFew(pages - {v}, level);
      assert |pages| == |pages - {v}| + 1;
    }
  }

  lemma MinusFew(a: set<nat>, b: set<nat>)
    ensures |a - b| <= |a|
  {
    assert a == (a - b) + (a * b);
  }

  /** Each page needs itself and at most two tables. */
  lemma NeededBounds(owner: map<nat, Owner>, root: nat, pages: set<nat>)
    ensures |pages| <= PagesNeeded(owner, root, pages) <= 3 * |pages|
  {
    hide Tables;
    hide Places;
    forall l | 0 <= l <= 1 ensures |Places(pages, l) - Tables(owner, root, l)| <= |pages| {
      PlacesFew(pages, l);
      MinusFew(Places(pages, l), Tables(owner, root, l));
    }
  }
}
