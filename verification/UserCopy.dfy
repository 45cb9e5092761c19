/** uvmcopy: the child's address space a page-for-page copy of the parent's. */
module UserCopy {
  import opened PageTable
  import opened VmSpec
  import opened UserMemory
  import opened PageNeeds

  lemma {:induction false} BelowLeaf(s: Tree, t: nat, root: nat, level: int, vpn: nat)
    requires OnPath(s, t, root, level, vpn) && vpn < MAXVPN && Below(s.mem, t, level, vpn).v
    ensures var e := Below(s.mem, t, level, vpn);
            IsLeaf(e.flags) && (e.ppn in s.owner ==> IsUserPage(s, e.ppn, root, vpn) || s.owner[e.ppn] == Kernel)
    decreases level
  {
    PrefixStep(level, vpn);
    assert EntryOk(s, t, Px(level, vpn));
    if level > 0 {
      StepDown(s, t, root, level, vpn);
      BelowLeaf(s, At(s.mem, t, Px(level, vpn)).ppn, root, level - 1, vpn);
    }
  }

  // A mapped page is a leaf, on a page of its own or a page of the kernel.
  lemma TranslateLeaf(s: Tree, root: nat, vpn: nat)
    requires IsRoot(s, root) && vpn < MAXVPN && Translate(s.mem, root, vpn).v
    ensures var e := Translate(s.mem, root, vpn);
            IsLeaf(e.flags) && (e.ppn in s.owner ==> IsUserPage(s, e.ppn, root, vpn) || s.owner[e.ppn] == Kernel)
  {
    BelowLeaf(s, root, root, 2, vpn);
  }

  // The first n pages of an address space are user pages, as far as they are mapped.
  ghost predicate UserBelow(s: Ram, root: nat, n: nat) {
    IsRoot(s, root) && n <= MAXVPN
    && forall v :: 0 <= v < n ==> var e := Translate(s.mem, root, v); e.v ==> IsUserPage(s, e.ppn, root, v)
  }

  // What the child is to get: the parent's flags and contents, page by page.
  ghost function CopyPages(s: Ram, parent: nat, n: nat): (m: map<nat, Leaf>)
    ensures forall v :: v in m <==> 0 <= v < n && Translate(s.mem, parent, v).v && Translate(s.mem, parent, v).ppn in s.mem
    ensures forall v :: v in m ==> m[v] == Leaf(Translate(s.mem, parent, v).flags, s.mem[Translate(s.mem, parent, v).ppn])
  {
    if n == 0 then map[]
    else
      var e := Translate(s.mem, parent, n - 1);
      if e.v && e.ppn in s.mem then CopyPages(s, parent, n - 1)[n - 1 := Leaf(e.flags, s.mem[e.ppn])]
      else CopyPages(s, parent, n - 1)
  }

  // The parent is as before.
  ghost predicate ParentKept(s: Ram, s': Ram, parent: nat, n: nat) {
    forall v :: 0 <= v < n ==>
      var e := Translate(s.mem, parent, v);
      && Translate(s'.mem, parent, v) == e
      && (e.v ==> e.ppn in s.mem && e.ppn in s'.mem && s'.mem[e.ppn] == s.mem[e.ppn])
  }

  lemma GainsKeepParent(s: Tree, s': Tree, parent: nat, child: nat, n: nat, want: map<nat, Leaf>)
    requires Gains(s, s', child, want) && UserBelow(s, parent, n) && parent != child
    ensures UserBelow(s', parent, n) && ParentKept(s, s', parent, n)
  {
    hide NodeOk;
    hide EntryOk;
    hide Below;
    forall v | 0 <= v < n && Translate(s.mem, parent, v).v
      ensures var e := Translate(s.mem, parent, v); IsUserPage(s', e.ppn, parent, v) && s'.mem[e.ppn] == s.mem[e.ppn]
    {
      assert IsUserPage(s, Translate(s.mem, parent, v).ppn, parent, v);
    }
  }

  ghost predicate CanCopy(w: World, parent: nat, child: nat, i: nat, n: nat) {
    parent != child && i <= n && UserBelow(w.tree, parent, n) && Vacant(w.tree, child, i, n - i)
  }

  lemma CopyNext(w: World, parent: nat, child: nat, i: nat, n: nat) returns (r: Grown)
    requires CanCopy(w, parent, child, i, n) && i < n && Translate(w.tree.mem, parent, i).v
    ensures var e := Translate(w.tree.mem, parent, i);
            && e.ppn in w.tree.mem && |w.tree.mem[e.ppn]| == 512 && IsLeaf(e.flags)
            && Vacant(w.tree, child, i, 1) && r == MapNew(w, child, i, w.tree.mem[e.ppn], e.flags)
            && (if r.ok then Gains(w.tree, r.w.tree, child, map[i := Leaf(e.flags, w.tree.mem[e.ppn])])
                else Grew(w.tree, r.w.tree, child))
    ensures IsRoot(r.w.tree, child) && (r.ok ==> CanCopy(r.w, parent, child, i + 1, n))
  {
    hide NodeOk;
    hide EntryOk;
    hide Below;
    hide Gains;
    hide MapNew;
    var e := Translate(w.tree.mem, parent, i);
    TranslateLeaf(w.tree, parent, i);
    r := MapNewKeeps(w, child, i, n - i, w.tree.mem[e.ppn], e.flags);
    if r.ok {
      GainsKeepParent(w.tree, r.w.tree, parent, child, n, map[i := Leaf(e.flags, w.tree.mem[e.ppn])]);
    }
  }

  // uvmcopy from page i on.
  ghost function CopyFrom(w: World, parent: nat, child: nat, i: nat, n: nat): (r: Grown)
    requires CanCopy(w, parent, child, i, n)
    decreases n - i
  {
    if i == n then Grown(w, true)
    else
      var e := Translate(w.tree.mem, parent, i);
      if !e.v then CopyFrom(w, parent, child, i + 1, n)
      else
        assert e.ppn in w.tree.mem && |w.tree.mem[e.ppn]| == 512 && IsLeaf(e.flags) && Vacant(w.tree, child, i, 1)
               && (var r := MapNew(w, child, i, w.tree.mem[e.ppn], e.flags);
                   IsRoot(r.w.tree, child) && (r.ok ==> CanCopy(r.w, parent, child, i + 1, n))) by {
          var r' := CopyNext(w, parent, child, i, n);
        }
        var r := MapNew(w, child, i, w.tree.mem[e.ppn], e.flags);
        if r.ok then CopyFrom(r.w, parent, child, i + 1, n) else GiveUp(r.w, child, 0, i)
  }

  // uvmcopy(parent, new, sz)
  ghost function Uvmcopy(w: World, parent: nat, child: nat, sz: nat): Grown
    requires CanCopy(w, parent, child, 0, PgUp(sz))
  {
    CopyFrom(w, parent, child, 0, PgUp(sz))
  }

  lemma CopyMore(s: Tree, w: World, w1: World, parent: nat, child: nat, i: nat, leaf: Leaf)
    requires i < MAXVPN && IsRoot(s, child) && IsRoot(w.tree, child)
    requires Gains(s, w.tree, child, CopyPages(s, parent, i)) && Gains(w.tree, w1.tree, child, map[i := leaf])
    requires var e := Translate(s.mem, parent, i); e.v && e.ppn in s.mem && leaf == Leaf(e.flags, s.mem[e.ppn])
    ensures Gains(s, w1.tree, child, CopyPages(s, parent, i + 1))
  {
    hide Wf;
    hide Below;
    hide Gains;
    GainsThen(s, w.tree, w1.tree, child, CopyPages(s, parent, i), map[i := leaf]);
    assert CopyPages(s, parent, i) + map[i := leaf] == CopyPages(s, parent, i + 1);
  }

  // One turn of the loop, for an empty page and for a mapped one.
  lemma CopySkips(w: World, parent: nat, child: nat, i: nat, n: nat)
    requires CanCopy(w, parent, child, i, n) && i < n && !Translate(w.tree.mem, parent, i).v
    ensures CanCopy(w, parent, child, i + 1, n) && CopyFrom(w, parent, child, i, n) == CopyFrom(w, parent, child, i + 1, n)
  {
    hide Wf;
    hide Below;
    hide MapNew;
  }

  lemma CopyTurn(w: World, parent: nat, child: nat, i: nat, n: nat) returns (m: Grown)
    requires CanCopy(w, parent, child, i, n) && i < n && Translate(w.tree.mem, parent, i).v
    ensures var e := Translate(w.tree.mem, parent, i);
            && e.ppn in w.tree.mem && |w.tree.mem[e.ppn]| == 512 && IsLeaf(e.flags)
            && Vacant(w.tree, child, i, 1) && m == MapNew(w, child, i, w.tree.mem[e.ppn], e.flags)
            && (if m.ok then Gains(w.tree, m.w.tree, child, map[i := Leaf(e.flags, w.tree.mem[e.ppn])])
                else Grew(w.tree, m.w.tree, child))
    ensures IsRoot(m.w.tree, child)
    ensures m.ok ==> CanCopy(m.w, parent, child, i + 1, n) && CopyFrom(w, parent, child, i, n) == CopyFrom(m.w, parent, child, i + 1, n)
    ensures !m.ok ==> CopyFrom(w, parent, child, i, n) == GiveUp(m.w, child, 0, i)
  {
    hide Wf;
    hide Below;
    hide MapNew;
    hide GiveUp;
    hide Gains;
    hide Grew;
    m := CopyNext(w, parent, child, i, n);
  }

  lemma CopyTurnGains(s: Tree, w: World, parent: nat, child: nat, i: nat, n: nat) returns (m: Grown)
    requires CanCopy(w, parent, child, i, n) && i < n && Translate(w.tree.mem, parent, i).v
    requires Vacant(s, child, 0, n) && UserBelow(s, parent, n)
    requires Gains(s, w.tree, child, CopyPages(s, parent, i))
    ensures m.ok ==> CanCopy(m.w, parent, child, i + 1, n) && Gains(s, m.w.tree, child, CopyPages(s, parent, i + 1))
    ensures m.ok ==> CopyFrom(w, parent, child, i, n) == CopyFrom(m.w, parent, child, i + 1, n)
    ensures !m.ok ==> Grew(s, CopyFrom(w, parent, child, i, n).w.tree, child) && !CopyFrom(w, parent, child, i, n).ok
  {
    hide Wf;
    hide Below;
    hide Gains;
    hide MapNew;
    hide Grew;
    hide CopyFrom;
    hide Uvmunmap;
    hide Translate;
    GainsKeepParent(s, w.tree, parent, child, n, CopyPages(s, parent, i));
    m := CopyTurn(w, parent, child, i, n);
    if m.ok {
      var e := Translate(w.tree.mem, parent, i);
      CopyMore(s, w, m.w, parent, child, i, Leaf(e.flags, w.tree.mem[e.ppn]));
    } else {
      var r := GiveUpUndoes(s, w, m.w, child, 0, i, CopyPages(s, parent, i));
    }
  }

  lemma CopySkipGains(s: Tree, w: World, parent: nat, child: nat, i: nat, n: nat)
    requires CanCopy(w, parent, child, i, n) && i < n && !Translate(w.tree.mem, parent, i).v
    requires UserBelow(s, parent, n) && Gains(s, w.tree, child, CopyPages(s, parent, i))
    ensures CanCopy(w, parent, child, i + 1, n) && CopyFrom(w, parent, child, i, n) == CopyFrom(w, parent, child, i + 1, n)
    ensures CopyPages(s, parent, i + 1) == CopyPages(s, parent, i)
  {
    hide Wf;
    hide Gains;
    hide CopyFrom;
    hide Translate;
    GainsKeepParent(s, w.tree, parent, child, n, CopyPages(s, parent, i));
    CopySkips(w, parent, child, i, n);
  }

  lemma {:induction false} CopyFromGains(s: Tree, w: World, parent: nat, child: nat, i: nat, n: nat) returns (r: Grown)
    requires CanCopy(w, parent, child, i, n)
    requires Vacant(s, child, 0, n) && UserBelow(s, parent, n)
    requires Gains(s, w.tree, child, CopyPages(s, parent, i))
    ensures r == CopyFrom(w, parent, child, i, n)
    ensures if r.ok then Gains(s, r.w.tree, child, CopyPages(s, parent, n)) else Grew(s, r.w.tree, child)
    decreases n - i
  {
    hide Wf;
    hide Below;
    hide Gains;
    hide MapNew;
    hide Grew;
    hide CopyFrom;
    hide CopyPages;
    hide UserBelow;
    hide Vacant;
    hide Uvmunmap;
    hide Translate;
    if i == n {
      r := CopyEnds(w, parent, child, n);
    } else if !Translate(w.tree.mem, parent, i).v {
      CopySkipGains(s, w, parent, child, i, n);
      r := CopyFromGains(s, w, parent, child, i + 1, n);
    } else {
      var m := CopyTurnGains(s, w, parent, child, i, n);
      if m.ok {
        r := CopyFromGains(s, m.w, parent, child, i + 1, n);
      } else {
        r := CopyFrom(w, parent, child, i, n);
      }
    }
  }

  // The pages from i to n that the process has.
  ghost function Mapped(s: Ram, root: nat, i: nat, n: nat): set<nat> { set v: nat | i <= v < n && Translate(s.mem, root, v).v }

  // Everything is copied exactly when there are free pages for the copies and for the tables they lack.
  lemma {:induction false} CopyNeeds(w: World, parent: nat, child: nat, i: nat, n: nat)
    requires CanCopy(w, parent, child, i, n)
    ensures CopyFrom(w, parent, child, i, n).ok <==> |w.free| >= PagesNeeded(w.tree.owner, child, Mapped(w.tree, parent, i, n))
    decreases n - i
  {
    hide Wf;
    hide Translate;
    hide CopyFrom;
    hide MapNew;
    hide Gains;
    hide Grew;
    hide Uvmunmap;
    hide PagesNeeded;
    if i == n {
      var r := CopyEnds(w, parent, child, n);
      assert Mapped(w.tree, parent, i, n) == {};
      NeededBounds(w.tree.owner, child, {});
    } else if !Translate(w.tree.mem, parent, i).v {
      CopySkips(w, parent, child, i, n);
      assert Mapped(w.tree, parent, i, n) == Mapped(w.tree, parent, i + 1, n);
      CopyNeeds(w, parent, child, i + 1, n);
    } else {
      var e := Translate(w.tree.mem, parent, i);
      var m := CopyTurn(w, parent, child, i, n);
      MapNewCounts(w, child, i, w.tree.mem[e.ppn], e.flags, Mapped(w.tree, parent, i, n));
      if m.ok {
        CopyNeeds(m.w, parent, child, i + 1, n);
        GainsKeepParent(w.tree, m.w.tree, parent, child, n, map[i := Leaf(e.flags, w.tree.mem[e.ppn])]);
        assert Mapped(w.tree, parent, i, n) - {i} == Mapped(m.w.tree, parent, i + 1, n);
      }
    }
  }

  lemma CopyEnds(w: World, parent: nat, child: nat, n: nat) returns (r: Grown)
    requires CanCopy(w, parent, child, n, n)
    ensures r == CopyFrom(w, parent, child, n, n) == Grown(w, true)
  {
    r := Grown(w, true);
  }

  /** uvmcopy either gives the child exactly the parent's pages - same flags, same contents, on
      pages that were free before - or leaves the child with none of them; either way no other address
      space is disturbed.  It succeeds exactly when there are free pages for the copies and for the
      tables that the child lacks for them. */
  lemma UvmcopyCopies(w: World, parent: nat, child: nat, sz: nat) returns (r: Grown)
    requires CanCopy(w, parent, child, 0, PgUp(sz))
    ensures r == Uvmcopy(w, parent, child, sz)
    ensures r.ok ==> Gains(w.tree, r.w.tree, child, CopyPages(w.tree, parent, PgUp(sz)))
    ensures !r.ok ==> Grew(w.tree, r.w.tree, child)
    ensures r.ok <==> |w.free| >= PagesNeeded(w.tree.owner, child, Mapped(w.tree, parent, 0, PgUp(sz)))
  {
    hide Wf;
    hide PagesNeeded;
    hide Below;
    hide Gains;
    CopyNeeds(w, parent, child, 0, PgUp(sz));
    GainsNothing(w.tree, child);
    assert CopyPages(w.tree, parent, 0) == map[];
    r := CopyFromGains(w.tree, w, parent, child, 0, PgUp(sz));
  }

  /** After a fork no page is shared: two virtual pages of parent or child that lead to the same
      physical page are the same virtual page of the same process. */
  lemma NothingShared(s: Tree, r1: nat, v1: nat, r2: nat, v2: nat)
    requires IsRoot(s, r1) && IsRoot(s, r2) && v1 < MAXVPN && v2 < MAXVPN
    requires Translate(s.mem, r1, v1).v && Translate(s.mem, r2, v2).v
    requires var p := Translate(s.mem, r1, v1).ppn; p in s.owner && s.owner[p] != Kernel
    requires Translate(s.mem, r1, v1).ppn == Translate(s.mem, r2, v2).ppn
    ensures r1 == r2 && v1 == v2
  {
    TranslateLeaf(s, r1, v1);
    TranslateLeaf(s, r2, v2);
  }
}
