/** A user page left above the size makes uvmfree panic. */
module VmPanic {
  import opened PageTable
  import opened VmSpec
  import opened UserMemory
  import opened VmFree

  // Page 1 is an empty root table; pages 2, 3 and 4 are free.
  ghost function SmallRam(): Ram {
    Ram(map[1 := Fill(Zero), 2 := Fill(Junk1), 3 := Fill(Junk1), 4 := Fill(Junk1)],
        map[1 := Node(1, 2, 0, 1, 0), 2 := Free, 3 := Free, 4 := Free])
  }

  lemma SmallWf()
    ensures Wf(SmallRam()) && IsRoot(SmallRam(), 1)
  {
    var s := SmallRam();
    forall p, i | IsTable(s, p) && 0 <= i < 512 ensures EntryOk(s, p, i) {
      assert p == 1 && s.mem[1][i] == Zero;
    }
  }

  lemma SmallFree()
    ensures NoDuplicates([2, 3, 4]) && Elements([2, 3, 4]) == Unowned(SmallRam().owner)
  {
    assert Elements([2, 3, 4]) == {2, 3, 4} == Unowned(SmallRam().owner);
  }

  ghost function Small(): (w: World)
    ensures IsRoot(w.tree, 1)
  {
    SmallWf();
    SmallFree();
    RawWorld(SmallRam(), [2, 3, 4])
  }

  lemma NothingMapped(vpn: nat)
    requires vpn < MAXVPN
    ensures Translate(Small().tree.mem, 1, vpn) == Zero && Missing(Small().tree.mem, 1, 2, vpn) == 2
  {
    PxSmall(vpn);
    assert At(Small().tree.mem, 1, Px(2, vpn)) == Zero;
  }

  lemma PxSmall(vpn: nat)
    ensures Px(2, vpn) < 512
  {
  }

  /** uvmfree(pagetable, 5 * PGSIZE) panics when page 5 is still mapped. */
  lemma LeftPagePanics() returns (w: World)
    ensures IsRoot(w.tree, 1) && Uvmfree(w, 1, 5 * 4096).Panic?
  {
    hide Wf;
    hide Below;
    hide MapNew;
    hide Gains;
    hide Uvmfree;
    NothingMapped(5);
    var r := MapNewKeeps(Small(), 1, 5, 1, Fill(Zero), UserRwx);
    MapNewNeeds(Small(), 1, 5, Fill(Zero), UserRwx);
    w := r.w;
    IsMapped(Small().tree, w.tree, 1, 5, Leaf(UserRwx, Fill(Zero)));
    UvmfreeFrees(w, 1, 5 * 4096);
  }

  lemma IsMapped(s: Tree, s': Tree, root: nat, vpn: nat, leaf: Leaf)
    requires Gains(s, s', root, map[vpn := leaf]) && IsRoot(s, root) && vpn < MAXVPN
    ensures Translate(s'.mem, root, vpn).v
  {
  }
}
