/** Sv39 page tables as trees of physical pages (section 4.4 of the RISC-V Privileged
    Architecture specification), and who owns each physical page. */
module PageTable {

  // The permission bits of an entry; `other` stands for bits 5 to 9 (G, A, D and software).
  datatype Flags = Flags(r: bool, w: bool, x: bool, u: bool, other: nat)

  // A 64-bit page-table entry, decoded.  PteCodec relates it to the word in memory.
  datatype Pte = Pte(ppn: nat, v: bool, flags: Flags)

  const NoFlags: Flags := Flags(false, false, false, false, 0)
  const Zero: Pte := Pte(0, false, NoFlags)

  type Page = seq<Pte>      // 512 words

  // A page all of whose words are the same, as memset leaves it.
  function Fill(e: Pte): (p: Page)
    ensures |p| == 512 && forall i :: 0 <= i < 512 ==> p[i] == e
  {
    seq(512, i => e)
  }

  predicate IsLeaf(f: Flags) { f.r || f.w || f.x }

  function TableEntry(p: nat): Pte { Pte(p, true, NoFlags) }

  /** What a physical page is used for.  A Node of level 2 is a root table, of level 1 or 0 an
      interior table, of level -1 a user page; `prefix` is the part of the virtual page number
      that leads to it, `parent` and `idx` the entry that points to it. */
  datatype Owner =
    | Free
    | Held                  // allocated, not mapped anywhere
    | Kernel                // other kernel use; may be mapped, but not as a user page
    | Node(root: nat, level: int, prefix: nat, parent: nat, idx: nat)

  datatype Ram = Ram(mem: map<nat, Page>, owner: map<nat, Owner>)

  ghost predicate IsRoot(s: Ram, r: nat) {
    r in s.owner && s.owner[r] == Node(r, 2, 0, r, 0)
  }

  ghost predicate IsTable(s: Ram, p: nat) {
    p in s.owner && p in s.mem && s.owner[p].Node? && s.owner[p].level >= 0
  }

  // Entry i of table p is zero or points where the tree says it should.
  ghost predicate EntryOk(s: Ram, p: nat, i: nat)
    requires IsTable(s, p) && i < 512 == |s.mem[p]|
  {
    var n, e := s.owner[p], s.mem[p][i];
    if !e.v then e == Zero
    else if n.level > 0 then
      !IsLeaf(e.flags) && e.ppn in s.owner && s.owner[e.ppn] == Node(n.root, n.level - 1, n.prefix * 512 + i, p, i)
    else
      && IsLeaf(e.flags)
      && (e.ppn in s.owner ==> s.owner[e.ppn] == Node(n.root, -1, n.prefix * 512 + i, p, i) || s.owner[e.ppn] == Kernel)
  }

  // A node other than a root hangs off the entry it names.
  ghost predicate NodeOk(s: Ram, c: nat)
    requires c in s.owner && s.owner[c].Node?
  {
    var n := s.owner[c];
    && -1 <= n.level <= 2 && n.idx < 512
    && (n.level == 2 ==> n == Node(c, 2, 0, c, 0))
    && (n.level == 1 ==> n.idx < 256)       // MAXVA leaves the upper half of a root unused
    && (n.level < 2 ==>
          && IsTable(s, n.parent)
          && (var q := s.owner[n.parent];
              q.root == n.root && q.level == n.level + 1 && n.prefix == q.prefix * 512 + n.idx)
          && |s.mem[n.parent]| == 512 && s.mem[n.parent][n.idx].v && s.mem[n.parent][n.idx].ppn == c)
  }

  /** Every page-table page is part of exactly one tree, at one place; every user page is mapped
      at exactly one place. */
  ghost predicate Wf(s: Ram) {
    && s.mem.Keys == s.owner.Keys && 0 !in s.owner
    && (forall p :: p in s.mem ==> |s.mem[p]| == 512)
    && (forall c :: c in s.owner && s.owner[c].Node? ==> NodeOk(s, c))
    && (forall p, i :: IsTable(s, p) && 0 <= i < 512 ==> EntryOk(s, p, i))
  }

  type Tree = s: Ram | Wf(s) ghost witness Ram(map[], map[])

  // ---- virtual page numbers ----------------------------------------------------------------

  const MAXVPN: nat := 0x400_0000     // MAXVA is 1 << 38

  // PX(level, va)
  function Px(level: int, vpn: nat): nat
    requires 0 <= level <= 2
  {
    if level == 0 then vpn % 512 else if level == 1 then vpn / 512 % 512 else vpn / 262144 % 512
  }

  // The part of a virtual page number that the tables above `level` have consumed.
  function Prefix(level: int, vpn: nat): nat
    requires -1 <= level <= 2
  {
    if level == -1 then vpn else if level == 0 then vpn / 512 else if level == 1 then vpn / 262144 else 0
  }

  lemma PrefixStep(level: int, vpn: nat)
    requires 0 <= level <= 2 && vpn < MAXVPN
    ensures Px(level, vpn) < 512
    ensures Prefix(level - 1, vpn) == Prefix(level, vpn) * 512 + Px(level, vpn)
  {
  }

  // ---- translation -------------------------------------------------------------------------

  ghost function At(mem: map<nat, Page>, p: nat, i: nat): Pte {
    if p in mem && i < |mem[p]| then mem[p][i] else Zero
  }

  // The entry for a page, given the table of some level that covers it.
  ghost function Below(mem: map<nat, Page>, t: nat, level: int, vpn: nat): Pte
    requires 0 <= level <= 2
    decreases level
  {
    var e := At(mem, t, Px(level, vpn));
    if level == 0 then e
    else if e.v then Below(mem, e.ppn, level - 1, vpn)
    else Zero
  }

  /** The flat map the tree stands for: the leaf entry of each virtual page, Zero if none. */
  ghost function Translate(mem: map<nat, Page>, root: nat, vpn: nat): Pte {
    Below(mem, root, 2, vpn)
  }

  ghost predicate SameTranslation(s: Ram, s': Ram, root: nat) {
    forall vpn :: 0 <= vpn < MAXVPN ==> Translate(s'.mem, root, vpn) == Translate(s.mem, root, vpn)
  }

  // Table t of this level lies on the way from its root to the page.
  ghost predicate OnPath(s: Ram, t: nat, root: nat, level: int, vpn: nat) {
    IsTable(s, t) && s.owner[t].root == root && s.owner[t].level == level && 0 <= level <= 2
    && s.owner[t].prefix == Prefix(level, vpn)
  }

  lemma StepDown(s: Tree, t: nat, root: nat, level: int, vpn: nat)
    requires OnPath(s, t, root, level, vpn) && level > 0 && vpn < MAXVPN
    requires At(s.mem, t, Px(level, vpn)).v
    ensures OnPath(s, At(s.mem, t, Px(level, vpn)).ppn, root, level - 1, vpn)
  {
    PrefixStep(level, vpn);
    assert EntryOk(s, t, Px(level, vpn));
  }

  lemma {:induction false} BelowZero(s: Tree, t: nat, root: nat, level: int, vpn: nat)
    requires OnPath(s, t, root, level, vpn) && vpn < MAXVPN
    ensures Below(s.mem, t, level, vpn).v || Below(s.mem, t, level, vpn) == Zero
    decreases level
  {
    PrefixStep(level, vpn);
    assert EntryOk(s, t, Px(level, vpn));
    if level > 0 && At(s.mem, t, Px(level, vpn)).v {
      StepDown(s, t, root, level, vpn);
      BelowZero(s, At(s.mem, t, Px(level, vpn)).ppn, root, level - 1, vpn);
    }
  }

  // The flat map holds Zero where nothing is mapped.
  lemma TranslateZero(s: Tree, root: nat, vpn: nat)
    requires IsRoot(s, root) && vpn < MAXVPN
    ensures Translate(s.mem, root, vpn).v || Translate(s.mem, root, vpn) == Zero
  {
    BelowZero(s, root, root, 2, vpn);
  }

  // A table on the path is the one the walk from the root arrives at.
  lemma {:induction false} WalkReaches(s: Tree, t: nat, root: nat, level: int, vpn: nat)
    requires OnPath(s, t, root, level, vpn) && vpn < MAXVPN
    ensures Translate(s.mem, root, vpn) == Below(s.mem, t, level, vpn)
    decreases 2 - level
  {
    assert NodeOk(s, t);
    if level < 2 {
      var n := s.owner[t];
      PrefixStep(level + 1, vpn);
      assert n.idx == Px(level + 1, vpn);
      WalkReaches(s, n.parent, root, level + 1, vpn);
    }
  }
}
