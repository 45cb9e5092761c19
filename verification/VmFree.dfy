/** freewalk and uvmfree: taking a whole page table apart.  Every page of the tree goes back to
    the free list once, and freewalk meets a leaf exactly when a page is still mapped. */
module VmFree {
  import opened PageTable
  import opened PageTableSteps
  import opened VmSpec
  import opened UserMemory

  // ---- the part of the tree behind an entry ------------------------------------------------

  // The prefix of the place at level `up` that the node hangs below.
  function PrefixAt(n: Owner, up: int): nat
    requires n.Node?
  {
    if up <= n.level then n.prefix else if up == n.level + 1 then n.prefix / 512 else n.prefix / 262144
  }

  // Node n hangs below t, from an entry i or later.
  ghost predicate Under(n: Owner, t: Owner, i: nat) {
    && n.Node? && t.Node? && n.root == t.root && n.level < t.level
    && t.prefix * 512 + i <= PrefixAt(n, t.level - 1) < t.prefix * 512 + 512
  }

  lemma PrefixAtParent(s: Tree, c: nat, up: int)
    requires c in s.owner && s.owner[c].Node? && s.owner[c].level < up <= 1
    ensures var n := s.owner[c];
            && n.parent in s.owner && s.owner[n.parent].Node?
            && s.owner[n.parent].root == n.root && s.owner[n.parent].level == n.level + 1
            && PrefixAt(s.owner[n.parent], up) == PrefixAt(n, up)
  {
    assert NodeOk(s, c);
  }

  // What hangs below entry i of t starts with the node in entry i.
  lemma {:induction false} EntryAbove(s: Tree, t: nat, i: nat, d: nat)
    requires IsTable(s, t) && i < 512 && d in s.owner && Under(s.owner[d], s.owner[t], i) && !Under(s.owner[d], s.owner[t], i + 1)
    ensures s.mem[t][i].v && (s.owner[d].level == s.owner[t].level - 1 ==> d == s.mem[t][i].ppn)
    decreases s.owner[t].level - s.owner[d].level
  {
    var n := s.owner[d];
    assert NodeOk(s, d) && NodeOk(s, t);
    if n.level == s.owner[t].level - 1 {
      SamePlace(s, n.parent, t);
    } else {
      PrefixAtParent(s, d, s.owner[t].level - 1);
      EntryAbove(s, t, i, n.parent);
    }
  }

  lemma NothingBehind(s: Tree, t: nat, i: nat, d: nat)
    requires IsTable(s, t) && i < 512 && !s.mem[t][i].v && d in s.owner
    ensures Under(s.owner[d], s.owner[t], i) == Under(s.owner[d], s.owner[t], i + 1)
  {
    if Under(s.owner[d], s.owner[t], i) && !Under(s.owner[d], s.owner[t], i + 1) {
      EntryAbove(s, t, i, d);
    }
  }

  // Behind a valid entry: its table and what hangs below that.
  lemma Behind(s: Tree, t: nat, i: nat, c: nat, d: nat)
    requires IsTable(s, t) && s.owner[t].level > 0 && i < 512 && s.mem[t][i].v && c == s.mem[t][i].ppn && d in s.owner
    ensures Under(s.owner[d], s.owner[t], i)
            <==> Under(s.owner[d], s.owner[t], i + 1) || d == c || (c in s.owner && Under(s.owner[d], s.owner[c], 0))
    ensures c in s.owner ==> !Under(s.owner[c], s.owner[t], i + 1)
    ensures c in s.owner && Under(s.owner[d], s.owner[c], 0) ==> !Under(s.owner[d], s.owner[t], i + 1)
  {
    assert EntryOk(s, t, i);
    if s.owner[d].Node? {
      assert NodeOk(s, d) && NodeOk(s, t);
      if Under(s.owner[d], s.owner[t], i) && !Under(s.owner[d], s.owner[t], i + 1) {
        EntryAbove(s, t, i, d);
      }
    }
  }

  // ---- dropping one table ------------------------------------------------------------------

  ghost predicate CanDrop(s: Ram, t: nat, i: nat, c: nat) {
    && IsTable(s, t) && s.owner[t].level > 0 && i < 512 == |s.mem[t]| && s.mem[t][i].v && c == s.mem[t][i].ppn
    && c in s.mem && s.mem[c] == Fill(Zero)
  }

  // kfree(child), then pagetable[i] = 0.
  ghost function DropTable(s: Ram, t: nat, i: nat, c: nat): Ram
    requires CanDrop(s, t, i, c)
  {
    Ram(PutEntry(s.mem, t, i, Zero)[c := Fill(Junk1)], s.owner[c := Free])
  }

  lemma DropTableNode(s: Tree, t: nat, i: nat, c: nat, d: nat)
    requires CanDrop(s, t, i, c) && d in s.owner && DropTable(s, t, i, c).owner[d].Node?
    ensures NodeOk(DropTable(s, t, i, c), d)
  {
    assert EntryOk(s, t, i);
    assert NodeOk(s, d) && NodeOk(s, c);
  }

  lemma DropTableEntry(s: Tree, t: nat, i: nat, c: nat, q: nat, j: nat)
    requires CanDrop(s, t, i, c) && IsTable(DropTable(s, t, i, c), q) && j < 512
    ensures EntryOk(DropTable(s, t, i, c), q, j)
  {
    assert EntryOk(s, t, i);
    assert IsTable(s, q) && EntryOk(s, q, j);
  }

  lemma DropTableWf(s: Tree, t: nat, i: nat, c: nat)
    requires CanDrop(s, t, i, c)
    ensures Wf(DropTable(s, t, i, c))
  {
    var s' := DropTable(s, t, i, c);
    assert EntryOk(s, t, i);
    forall d | d in s'.owner && s'.owner[d].Node? ensures NodeOk(s', d) { DropTableNode(s, t, i, c, d); }
    forall q, j | IsTable(s', q) && 0 <= j < 512 ensures EntryOk(s', q, j) { DropTableEntry(s, t, i, c, q, j); }
  }

  ghost function Dropped(w: World, t: nat, i: nat, c: nat): (w': World)
    requires CanDrop(w.tree, t, i, c)
  {
    DropTableWf(w.tree, t, i, c);
    assert EntryOk(w.tree, t, i);
    assert c !in Elements(w.free);
    var s := DropTable(w.tree, t, i, c);
    assert Unowned(s.owner) == Unowned(w.tree.owner) + {c};
    RawWorld(s, [c] + w.free)
  }

  // ---- freewalk ----------------------------------------------------------------------------

  datatype Cleared = Panic | Done(w: World)

  // Table t has lost its entries from i on, and every page behind them is free.
  ghost predicate PrunedOwners(s: Ram, s': Ram, t: nat, i: nat)
    requires t in s.owner
  {
    && s'.owner.Keys == s.owner.Keys
    && forall p :: p in s.owner ==> s'.owner[p] == if Under(s.owner[p], s.owner[t], i) then Free else s.owner[p]
  }

  ghost predicate PrunedContents(s: Ram, s': Ram, t: nat, i: nat)
    requires t in s.owner
  {
    && (forall p :: p in s.owner && p in s.mem && p != t && !Under(s.owner[p], s.owner[t], i) ==>
          p in s'.mem && s'.mem[p] == s.mem[p])
    && (t in s.mem ==> t in s'.mem && |s'.mem[t]| == |s.mem[t]|)
    && (t in s.mem ==> forall j :: 0 <= j < |s.mem[t]| ==> s'.mem[t][j] == if j >= i then Zero else s.mem[t][j])
  }

  ghost predicate Pruned(s: Ram, s': Ram, t: nat, i: nat)
    requires t in s.owner
  {
    PrunedOwners(s, s', t, i) && PrunedContents(s, s', t, i)
  }

  lemma PrunedAll(s: Tree, t: nat)
    requires IsTable(s, t)
    ensures Pruned(s, s, t, 512)
  {
  }

  lemma PrunedSkip(s: Tree, s': Tree, t: nat, i: nat)
    requires IsTable(s, t) && i < 512 && !s.mem[t][i].v && Pruned(s, s', t, i + 1)
    ensures Pruned(s, s', t, i)
  {
    hide NodeOk;
    forall d | d in s.owner ensures Under(s.owner[d], s.owner[t], i) == Under(s.owner[d], s.owner[t], i + 1) {
      NothingBehind(s, t, i, d);
    }
    assert EntryOk(s, t, i);
  }

  lemma ChildPruned(s: Tree, s1: Tree, t: nat, i: nat, c: nat)
    requires IsTable(s, t) && i < 512 && s.mem[t][i].v && s.owner[t].level > 0 && c == s.mem[t][i].ppn
    requires c in s.owner && Pruned(s, s1, c, 0)
    ensures CanDrop(s1, t, i, c) && IsTable(s1, t) && s1.owner[t] == s.owner[t]
  {
    assert EntryOk(s, t, i);
    Behind(s, t, i, c, t);
    assert IsTable(s, c);
    assert s1.mem[c] == Fill(Zero);
  }

  lemma ChildDropped(s: Tree, s1: Tree, s2: Tree, t: nat, i: nat, c: nat)
    requires IsTable(s, t) && i < 512 && s.mem[t][i].v && s.owner[t].level > 0 && c == s.mem[t][i].ppn
    requires c in s.owner && Pruned(s, s1, c, 0) && CanDrop(s1, t, i, c) && s2 == DropTable(s1, t, i, c)
    ensures IsTable(s2, t) && s2.owner[t] == s.owner[t]
  {
    assert EntryOk(s1, t, i) && EntryOk(s, t, i);
    Behind(s, t, i, c, t);
  }

  lemma PrunedNextOwners(s: Tree, s1: Tree, s2: Tree, s3: Tree, t: nat, i: nat, c: nat)
    requires IsTable(s, t) && i < 512 && s.mem[t][i].v && s.owner[t].level > 0 && c == s.mem[t][i].ppn
    requires c in s.owner && Pruned(s, s1, c, 0) && CanDrop(s1, t, i, c) && s2 == DropTable(s1, t, i, c)
    requires t in s2.owner && s2.owner[t] == s.owner[t] && Pruned(s2, s3, t, i + 1)
    ensures PrunedOwners(s, s3, t, i)
  {
    hide Wf;
    hide Under;
    hide PrunedContents;
    Behind(s, t, i, c, c);
    forall d | d in s.owner ensures s3.owner[d] == if Under(s.owner[d], s.owner[t], i) then Free else s.owner[d] {
      Behind(s, t, i, c, d);
    }
  }

  lemma PrunedNextContents(s: Tree, s1: Tree, s2: Tree, s3: Tree, t: nat, i: nat, c: nat)
    requires IsTable(s, t) && i < 512 && s.mem[t][i].v && s.owner[t].level > 0 && c == s.mem[t][i].ppn
    requires c in s.owner && Pruned(s, s1, c, 0) && CanDrop(s1, t, i, c) && s2 == DropTable(s1, t, i, c)
    requires t in s2.owner && s2.owner[t] == s.owner[t] && Pruned(s2, s3, t, i + 1)
    ensures PrunedContents(s, s3, t, i)
  {
    hide NodeOk;
    hide EntryOk;
    Behind(s, t, i, c, t);
    forall d | d in s.owner && d in s.mem && d != t && !Under(s.owner[d], s.owner[t], i)
      ensures d in s3.mem && s3.mem[d] == s.mem[d]
    {
      Behind(s, t, i, c, d);
    }
  }

  // The loop of freewalk from entry i of table t on, the recursive calls included.
  ghost function ClearTable(w: World, t: nat, i: nat): (r: Cleared)
    requires IsTable(w.tree, t) && i <= 512
    ensures r.Done? ==> Pruned(w.tree, r.w.tree, t, i)
    decreases w.tree.owner[t].level, 512 - i
  {
    if i == 512 then
      PrunedAll(w.tree, t);
      Done(w)
    else
      var e := w.tree.mem[t][i];
      assert EntryOk(w.tree, t, i);
      if !e.v then
        var r := ClearTable(w, t, i + 1);
        assert r.Done? ==> Pruned(w.tree, r.w.tree, t, i) by { if r.Done? { PrunedSkip(w.tree, r.w.tree, t, i); } }
        r
      else if IsLeaf(e.flags) then Panic
      else
        var r := ClearTable(w, e.ppn, 0);
        if r.Panic? then Panic
        else
          ChildPruned(w.tree, r.w.tree, t, i, e.ppn);
          var w2 := Dropped(r.w, t, i, e.ppn);
          ChildDropped(w.tree, r.w.tree, w2.tree, t, i, e.ppn);
          var r' := ClearTable(w2, t, i + 1);
          assert r'.Done? ==> Pruned(w.tree, r'.w.tree, t, i) by {
            if r'.Done? {
              PrunedNextOwners(w.tree, r.w.tree, w2.tree, r'.w.tree, t, i, e.ppn);
              PrunedNextContents(w.tree, r.w.tree, w2.tree, r'.w.tree, t, i, e.ppn);
            }
          }
          r'
  }

  // ---- when freewalk panics ----------------------------------------------------------------

  // Entry j of table p maps a page, and table p is t, or hangs below it, from entry i on.
  ghost predicate LeafAt(s: Ram, t: nat, i: nat, p: nat, j: nat)
    requires t in s.owner
  {
    && IsTable(s, p) && s.owner[p].level == 0 && j < 512 == |s.mem[p]| && s.mem[p][j].v
    && ((p == t && j >= i) || Under(s.owner[p], s.owner[t], i))
  }

  // Leaves that freewalk has not reached yet are untouched by what it has done so far.
  lemma LeafStays(s: Tree, s1: Tree, s2: Tree, t: nat, i: nat, c: nat, p: nat, j: nat)
    requires IsTable(s, t) && i < 512 && s.mem[t][i].v && s.owner[t].level > 0 && c == s.mem[t][i].ppn
    requires c in s.owner && Pruned(s, s1, c, 0) && CanDrop(s1, t, i, c) && s2 == DropTable(s1, t, i, c)
    requires t in s2.owner && s2.owner[t] == s.owner[t]
    ensures LeafAt(s2, t, i + 1, p, j) <==> LeafAt(s, t, i + 1, p, j)
  {
    hide NodeOk;
    hide EntryOk;
    hide Under;
    Behind(s, t, i, c, c);
    if p in s.owner {
      Behind(s, t, i, c, p);
    }
  }

  lemma LeafEarlier(s: Tree, t: nat, i: nat, p: nat, j: nat)
    requires IsTable(s, t) && LeafAt(s, t, i + 1, p, j)
    ensures LeafAt(s, t, i, p, j)
  {
  }

  lemma LeafBehind(s: Tree, t: nat, i: nat, c: nat, p: nat, j: nat)
    requires IsTable(s, t) && s.owner[t].level > 0 && i < 512 && s.mem[t][i].v && c == s.mem[t][i].ppn
    requires c in s.owner && LeafAt(s, c, 0, p, j)
    ensures LeafAt(s, t, i, p, j)
  {
    hide NodeOk;
    hide EntryOk;
    Behind(s, t, i, c, p);
  }

  // Meeting a leaf means there is one.
  lemma {:induction false} PanicFindsLeaf(w: World, t: nat, i: nat) returns (p: nat, j: nat)
    requires IsTable(w.tree, t) && i <= 512 && ClearTable(w, t, i).Panic?
    ensures LeafAt(w.tree, t, i, p, j)
    decreases w.tree.owner[t].level, 512 - i
  {
    hide NodeOk;
    hide Under;
    hide PrunedOwners;
    hide PrunedContents;
    var e := w.tree.mem[t][i];
    assert EntryOk(w.tree, t, i);
    if !e.v {
      p, j := PanicFindsLeaf(w, t, i + 1);
      LeafEarlier(w.tree, t, i, p, j);
    } else if IsLeaf(e.flags) {
      p, j := t, i;
    } else {
      var r := ClearTable(w, e.ppn, 0);
      if r.Panic? {
        p, j := PanicFindsLeaf(w, e.ppn, 0);
        LeafBehind(w.tree, t, i, e.ppn, p, j);
      } else {
        ChildPruned(w.tree, r.w.tree, t, i, e.ppn);
        var w2 := Dropped(r.w, t, i, e.ppn);
        ChildDropped(w.tree, r.w.tree, w2.tree, t, i, e.ppn);
        p, j := PanicFindsLeaf(w2, t, i + 1);
        LeafStays(w.tree, r.w.tree, w2.tree, t, i, e.ppn, p, j);
        LeafEarlier(w.tree, t, i, p, j);
      }
    }
  }

  // If there is a leaf, freewalk meets one.
  lemma {:induction false} LeafPanics(w: World, t: nat, i: nat, p: nat, j: nat)
    requires IsTable(w.tree, t) && i <= 512 && LeafAt(w.tree, t, i, p, j)
    ensures ClearTable(w, t, i).Panic?
    decreases w.tree.owner[t].level, 512 - i, 0
  {
    hide NodeOk;
    hide Under;
    if i < 512 {
      var e := w.tree.mem[t][i];
      assert EntryOk(w.tree, t, i);
      if !e.v {
        NothingBehind(w.tree, t, i, p);
        LeafPanics(w, t, i + 1, p, j);
      } else if !IsLeaf(e.flags) {
        Behind(w.tree, t, i, e.ppn, p);
        if p == e.ppn || Under(w.tree.owner[p], w.tree.owner[e.ppn], 0) {
          LeafPanics(w, e.ppn, 0, p, j);
        } else {
          LaterLeafPanics(w, t, i, p, j);
        }
      }
    } else {
      NoneBeyond(w.tree, t, p, j);
    }
  }

  lemma NoneBeyond(s: Tree, t: nat, p: nat, j: nat)
    requires IsTable(s, t)
    ensures !LeafAt(s, t, 512, p, j)
  {
  }

  lemma {:induction false} LaterLeafPanics(w: World, t: nat, i: nat, p: nat, j: nat)
    requires IsTable(w.tree, t) && i < 512 && LeafAt(w.tree, t, i + 1, p, j)
    requires var e := w.tree.mem[t][i]; e.v && !IsLeaf(e.flags)
    ensures ClearTable(w, t, i).Panic?
    decreases w.tree.owner[t].level, 512 - (i + 1), 1
  {
    hide NodeOk;
    hide Under;
    hide LeafAt;
    hide PrunedOwners;
    hide PrunedContents;
    var e := w.tree.mem[t][i];
    assert EntryOk(w.tree, t, i);
    var r := ClearTable(w, e.ppn, 0);
    if r.Done? {
      ChildPruned(w.tree, r.w.tree, t, i, e.ppn);
      var w2 := Dropped(r.w, t, i, e.ppn);
      ChildDropped(w.tree, r.w.tree, w2.tree, t, i, e.ppn);
      LeafStays(w.tree, r.w.tree, w2.tree, t, i, e.ppn, p, j);
      LeafPanics(w2, t, i + 1, p, j);
    }
  }

  // ---- leaves and mapped pages -------------------------------------------------------------

  // Prefixes have nine bits per level, eight at the top.
  lemma {:induction false} PrefixBound(s: Tree, p: nat)
    requires p in s.owner && s.owner[p].Node?
    ensures var n := s.owner[p];
            && (n.level == 2 ==> n.prefix == 0 && p == n.root) && (n.level == 1 ==> n.prefix < 256)
            && (n.level == 0 ==> n.prefix < 131072) && (n.level == -1 ==> n.prefix < MAXVPN)
            && -1 <= n.level <= 2
    decreases 2 - s.owner[p].level
  {
    assert NodeOk(s, p);
    if s.owner[p].level < 2 {
      PrefixBound(s, s.owner[p].parent);
    }
  }

  // Every page of root's tree but the root hangs below it.
  lemma AllUnderRoot(s: Tree, root: nat, p: nat)
    requires IsRoot(s, root) && p in s.owner && s.owner[p].Node? && s.owner[p].root == root && p != root
    ensures Under(s.owner[p], s.owner[root], 0)
  {
    PrefixBound(s, p);
    assert NodeOk(s, p);
  }

  lemma LeafIsMapped(s: Tree, root: nat, p: nat, j: nat) returns (vpn: nat)
    requires IsRoot(s, root) && LeafAt(s, root, 0, p, j)
    ensures vpn < MAXVPN && Translate(s.mem, root, vpn).v
  {
    PrefixBound(s, p);
    vpn := s.owner[p].prefix * 512 + j;
    WalkReaches(s, p, root, 0, vpn);
  }

  lemma MappedIsLeaf(w: World, root: nat, vpn: nat) returns (p: nat, j: nat)
    requires IsRoot(w.tree, root) && vpn < MAXVPN && Translate(w.tree.mem, root, vpn).v
    ensures LeafAt(w.tree, root, 0, p, j)
  {
    var r := WalkFrom(w, root, vpn, false);
    WalkFinds(w, root, root, 2, vpn, false);
    WalkGrows(w, root, root, 2, vpn, false);
    p, j := r.t, Px(0, vpn);
    AllUnderRoot(w.tree, root, p);
  }

  // ---- uvmfree -----------------------------------------------------------------------------

  // The last step of freewalk, for the root.
  ghost function FreeRoot(w: World, root: nat): (w': World)
    requires IsRoot(w.tree, root) && root in w.tree.mem && w.tree.mem[root] == Fill(Zero)
  {
    var s := Ram(w.tree.mem[root := Fill(Junk1)], w.tree.owner[root := Free]);
    FreeRootWf(w.tree, s, root);
    assert root !in Elements(w.free);
    assert Unowned(s.owner) == Unowned(w.tree.owner) + {root};
    RawWorld(s, [root] + w.free)
  }

  lemma FreeRootWf(s: Tree, s': Ram, root: nat)
    requires IsRoot(s, root) && root in s.mem && s.mem[root] == Fill(Zero)
    requires s' == Ram(s.mem[root := Fill(Junk1)], s.owner[root := Free])
    ensures Wf(s')
  {
    forall d | d in s'.owner && s'.owner[d].Node? ensures NodeOk(s', d) {
      assert NodeOk(s, d);
    }
    forall q, j | IsTable(s', q) && 0 <= j < 512 ensures EntryOk(s', q, j) {
      assert IsTable(s, q) && EntryOk(s, q, j) && NodeOk(s, q);
    }
  }

  ghost function Freewalk(w: World, root: nat): Cleared
    requires IsRoot(w.tree, root)
  {
    var r := ClearTable(w, root, 0);
    if r.Panic? then Panic
    else
      assert r.w.tree.mem[root] == Fill(Zero);
      Done(FreeRoot(r.w, root))
  }

  ghost function Uvmfree(w: World, root: nat, sz: nat): Cleared
    requires IsRoot(w.tree, root) && PgUp(sz) <= MAXVPN
  {
    UvmunmapUnmaps(w, root, 0, PgUp(sz));
    if sz > 0 then Freewalk(Uvmunmap(w, root, 0, PgUp(sz)), root) else Freewalk(w, root)
  }

  /** freewalk panics exactly when some page is still mapped. */
  lemma FreewalkPanics(w: World, root: nat)
    requires IsRoot(w.tree, root)
    ensures Freewalk(w, root).Panic? <==> exists v :: 0 <= v < MAXVPN && Translate(w.tree.mem, root, v).v
  {
    if ClearTable(w, root, 0).Panic? {
      var p, j := PanicFindsLeaf(w, root, 0);
      var v := LeafIsMapped(w.tree, root, p, j);
    }
    if v :| 0 <= v < MAXVPN && Translate(w.tree.mem, root, v).v {
      var p, j := MappedIsLeaf(w, root, v);
      LeafPanics(w, root, 0, p, j);
    }
  }

  // From s to s' the address space of root is gone, all its pages are free, and no other page
  // changed hands or contents.
  ghost predicate Gone(s: Ram, s': Ram, root: nat) {
    && s'.owner.Keys == s.owner.Keys
    && (forall p :: p in s.owner ==>
          s'.owner[p] == if s.owner[p].Node? && s.owner[p].root == root then Free else s.owner[p])
    && (forall p :: p in s.owner && p in s.mem && !(s.owner[p].Node? && s.owner[p].root == root) ==>
          p in s'.mem && s'.mem[p] == s.mem[p])
    && (forall r :: IsRoot(s, r) && r != root ==> SameTranslation(s, s', r))
  }

  lemma GoneMaps(s: Tree, s': Ram, root: nat)
    requires forall p :: p in s.owner && p in s.mem && !(s.owner[p].Node? && s.owner[p].root == root) ==>
               p in s'.mem && s'.mem[p] == s.mem[p]
    ensures forall r :: IsRoot(s, r) && r != root ==> SameTranslation(s, s', r)
  {
    hide Below;
    forall r | IsRoot(s, r) && r != root ensures SameTranslation(s, s', r) {
      TranslateFrame(s, s', r);
    }
  }

  lemma FreewalkFrees(w: World, root: nat)
    requires IsRoot(w.tree, root) && Freewalk(w, root).Done?
    ensures Gone(w.tree, Freewalk(w, root).w.tree, root)
  {
    hide NodeOk;
    hide EntryOk;
    hide Below;
    var s, s' := w.tree, Freewalk(w, root).w.tree;
    forall p | p in s.owner && s.owner[p].Node? && p != root
      ensures Under(s.owner[p], s.owner[root], 0) <==> s.owner[p].root == root
    {
      if s.owner[p].root == root { AllUnderRoot(s, root, p); }
    }
    GoneMaps(s, s', root);
  }

  /** uvmfree panics exactly when a page is mapped at or above PGROUNDUP(sz).  Otherwise every page
      of the address space - user pages, interior tables and the root - is free afterwards, each
      on the free list once, and nothing else has changed. */
  lemma UvmfreeFrees(w: World, root: nat, sz: nat)
    requires IsRoot(w.tree, root) && PgUp(sz) <= MAXVPN
    ensures Uvmfree(w, root, sz).Panic? <==> exists v :: PgUp(sz) <= v < MAXVPN && Translate(w.tree.mem, root, v).v
    ensures Uvmfree(w, root, sz).Done? ==> Gone(w.tree, Uvmfree(w, root, sz).w.tree, root)
  {
    hide Wf;
    hide Below;
    hide Freewalk;
    hide Gone;
    var w1 := if sz > 0 then Uvmunmap(w, root, 0, PgUp(sz)) else w;
    UnmapsNone(w.tree, root, 0);
    UvmunmapUnmaps(w, root, 0, PgUp(sz));
    UnmappedBelow(w.tree, w1.tree, root, PgUp(sz));
    FreewalkPanics(w1, root);
    if Uvmfree(w, root, sz).Done? {
      FreewalkFrees(w1, root);
      UnmapThenGone(w.tree, w1.tree, Freewalk(w1, root).w.tree, root, PgUp(sz));
    }
  }

  lemma UnmappedBelow(s: Tree, s1: Tree, root: nat, n: nat)
    requires IsRoot(s, root) && UnmapsRange(s, s1, root, 0, n)
    ensures IsRoot(s1, root)
    ensures (exists v :: 0 <= v < MAXVPN && Translate(s1.mem, root, v).v)
            <==> (exists v :: n <= v < MAXVPN && Translate(s.mem, root, v).v)
  {
    hide Wf;
    hide Below;
    if v :| 0 <= v < MAXVPN && Translate(s1.mem, root, v).v {
      assert Translate(s.mem, root, v).v;
    }
    if v :| n <= v < MAXVPN && Translate(s.mem, root, v).v {
      assert Translate(s1.mem, root, v).v;
    }
  }

  lemma UnmapThenGone(s: Tree, s1: Tree, s2: Tree, root: nat, n: nat)
    requires IsRoot(s, root) && UnmapsRange(s, s1, root, 0, n) && Gone(s1, s2, root)
    ensures Gone(s, s2, root)
  {
    hide NodeOk;
    hide EntryOk;
    hide Below;
    GoneMaps(s, s2, root);
  }
}
