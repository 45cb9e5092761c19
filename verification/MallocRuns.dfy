/** Every sequence of malloc and free in umalloc.c. */
module MallocRuns {
  import opened Options
  import opened FreeList

  datatype Arena = Arena(
    list: seq<Block>,
    cur: nat,                   // freep, as a place in the list
    // history
    busy: set<Block>,           // allocated and not yet freed
    areas: seq<Block>,          // what sbrk has returned so far
    top: nat)                   // where the last of it ends

  // (nbytes + sizeof(Header) - 1)/sizeof(Header) + 1
  function Units(nbytes: nat): nat { (nbytes + 15) / 16 + 1 }

  function Max(a: nat, b: nat): nat { if a < b then b else a }

  // morecore's argument of sbrk for nu units: the 64-bit product becomes a 32-bit int.
  function SbrkArg(nu: nat): int {
    var a := 16 * nu % 0x1_0000_0000;
    if a >= 0x8000_0000 then a - 0x1_0000_0000 else a
  }

  // The whole units that sbrk adds when it succeeds; none for an argument that is not positive.
  function Granted(nu: nat): nat { if SbrkArg(nu) > 0 then SbrkArg(nu) / 16 else 0 }

  /** sbrk is asked for exactly the bytes that morecore wants if and only if the request is of at most
      2147483616 bytes; otherwise it grants fewer units. */
  lemma SbrkAsksIff(nbytes: nat)
    requires nbytes < 0x1_0000_0000
    ensures var nu := Max(Units(nbytes), 4096);
            && (SbrkArg(nu) == 16 * nu <==> nbytes <= 2147483616)
            && (nbytes <= 2147483616 ==> Granted(nu) == nu)
            && (nbytes > 2147483616 ==> nu == Units(nbytes) && Granted(nu) < nu)
  {
  }

  datatype Malloced = Malloced(list: seq<Block>, cur: nat, got: Option<Block>)

  // The way out of malloc's loop at block i.
  ghost function Found(l: seq<Block>, i: nat, n: nat): Malloced
    requires i < |l| && l[i].size >= n
  {
    Malloced(Take(l, i, n), Before(i, |l|), Some(TakenBlock(l, i, n)))
  }

  // What morecore hands to free: from sbrk's answer on, at least 4096 units, whatever was granted.
  function Core(p: nat, n: nat): Block { Block(p, Max(n, 4096)) }

  // malloc for n units, when sbrk, if asked, answers `core`.
  ghost function Malloc(l: seq<Block>, cur: nat, n: nat, core: Option<nat>): Malloced
    requires Ordered(l) && cur < |l| && n > 0
    requires core.Some? ==> Clear(l, Core(core.value, n))
  {
    var i := Search(l, cur, n);
    if i < |l| then Found(l, i, n)
    else if core.None? then Malloced(l, cur, None)
    else
      var b := Core(core.value, n);
      var p := Place(l, b.addr);
      InsertOrdered(l, b);
      var m := Insert(l, p, b);
      MoreCoreSuffices(l, b, n);
      Found(m, Search(m, p, n), n)
  }

  /** After one morecore the search succeeds: malloc asks for core at most once. */
  lemma MoreCoreSuffices(l: seq<Block>, b: Block, n: nat)
    requires Ordered(l) && Clear(l, b) && b.size >= n
    ensures var p := Place(l, b.addr); p < |Insert(l, p, b)| && Search(Insert(l, p, b), p, n) < |Insert(l, p, b)|
  {
    InsertOrdered(l, b);
    var p := Place(l, b.addr);
    var m := Insert(l, p, b);
    var k := if l[p].addr + l[p].size == b.addr then p else p + 1;
    InsertAt(l, p, b, 0);
    InsertAt(l, p, b, k);
    if Search(m, p, n) == |m| { SearchMisses(m, p, n, k); }
  }

  datatype Step =
    | DoMalloc(nbytes: nat, core: Option<nat>)
    | DoFree(b: Block)

  ghost predicate Enabled(s: Arena, step: Step) {
    && Ordered(s.list) && s.cur < |s.list|
    && match step
       case DoMalloc(nbytes, core) =>
         // sbrk hands out memory above all it has handed out before; that makes it clear of the list,
         // as NewCoreClear shows
         nbytes < 0x1_0000_0000 && (core.Some? ==> core.value >= s.top && Clear(s.list, Core(core.value, Units(nbytes))))
       case DoFree(b) => b in s.busy && Clear(s.list, b)      // Inv has the second from the first
  }

  ghost function NeedsCore(s: Arena, n: nat): bool
    requires s.cur < |s.list|
  {
    Search(s.list, s.cur, n) == |s.list|
  }

  // The step does not grow the heap, or sbrk gets the argument that morecore means.
  ghost predicate Asks(s: Arena, step: Step) {
    step.DoMalloc? && step.core.Some? && s.cur < |s.list| && NeedsCore(s, Units(step.nbytes)) ==> step.nbytes <= 2147483616
  }

  ghost function Do(s: Arena, step: Step): Arena
    requires Enabled(s, step)
  {
    match step
    case DoMalloc(nbytes, core) =>
      var n := Units(nbytes);
      var r := Malloc(s.list, s.cur, n, core);
      var t := s.(list := r.list, cur := r.cur, busy := if r.got.Some? then s.busy + {r.got.value} else s.busy);
      if NeedsCore(s, n) && core.Some?
      then t.(areas := s.areas + [Block(core.value, Granted(Max(n, 4096)))], top := core.value + Granted(Max(n, 4096)))
      else t
    case DoFree(b) =>
      s.(list := Insert(s.list, Place(s.list, b.addr), b), cur := Place(s.list, b.addr), busy := s.busy - {b})
  }

  // ---- the invariant -----------------------------------------------------------------------

  ghost predicate IsBusy(busy: set<Block>, u: nat) { exists b :: b in busy && Holds(b, u) }

  ghost predicate InAreas(areas: seq<Block>, u: nat) { exists i :: 0 <= i < |areas| && Holds(areas[i], u) }

  ghost predicate AllApart(l: seq<Block>, busy: set<Block>) {
    && (forall b :: b in busy ==> Clear(l, b))
    && (forall b, c :: b in busy && c in busy && b != c ==> Apart(b, c))
  }

  // Every unit obtained from sbrk is free or allocated, and no other unit is.
  ghost predicate Conserved(l: seq<Block>, busy: set<Block>, areas: seq<Block>) {
    forall u: nat :: IsFree(l, u) || IsBusy(busy, u) <==> InAreas(areas, u)
  }

  ghost predicate Inv(s: Arena) {
    && Ordered(s.list) && s.cur < |s.list| && s.list[0].addr < s.top
    && AllApart(s.list, s.busy) && Conserved(s.list, s.busy, s.areas)
    && (forall u: nat :: InAreas(s.areas, u) ==> u < s.top)
  }

  ghost function Boot(base: nat): Arena { Arena([Block(base, 0)], 0, {}, [], base + 1) }

  lemma BootInv(base: nat)
    ensures Inv(Boot(base))
  {
  }

  // ---- clearness is about units ------------------------------------------------------------

  ghost predicate Disjoint(l: seq<Block>, b: Block) { forall u :: Holds(b, u) ==> !IsFree(l, u) }

  lemma ApartByUnits(a: Block, b: Block)
    requires a.size > 0 && b.size > 0 && forall u :: Holds(b, u) ==> !Holds(a, u)
    ensures Apart(a, b)
  {
    var u := Max(a.addr, b.addr);
    assert Holds(b, u) ==> !Holds(a, u);
  }

  lemma ClearByUnits(l: seq<Block>, b: Block)
    requires Ordered(l) && b.size > 0 && l[0].addr < b.addr && Disjoint(l, b)
    ensures Clear(l, b)
  {
    forall i | 1 <= i < |l| ensures Apart(l[i], b) {
      forall u | Holds(b, u) ensures !Holds(l[i], u) { assert !IsFree(l, u); }
      ApartByUnits(l[i], b);
    }
  }

  lemma ClearDisjoint(l: seq<Block>, b: Block, u: nat)
    requires Clear(l, b) && Holds(b, u)
    ensures !IsFree(l, u)
  {
  }

  // Memory above everything so far is clear of it.
  lemma NewCoreClear(s: Arena, b: Block)
    requires Inv(s) && b.size > 0 && b.addr >= s.top
    ensures Clear(s.list, b) && forall c :: c in s.busy ==> Apart(c, b)
  {
    forall u | Holds(b, u) ensures !IsFree(s.list, u) {
      assert IsFree(s.list, u) ==> InAreas(s.areas, u);
    }
    ClearByUnits(s.list, b);
    forall c | c in s.busy ensures Apart(c, b) {
      var u := c.addr + c.size - 1;
      assert Clear(s.list, c);
      assert Holds(c, u) && IsBusy(s.busy, u) && InAreas(s.areas, u);
    }
  }

  // ---- free --------------------------------------------------------------------------------

  // A block that is apart from everything else joins the free list.
  lemma JoinKeepsClear(l: seq<Block>, b: Block, c: Block)
    requires Ordered(l) && Clear(l, b) && Clear(l, c) && Apart(b, c)
    ensures Clear(Insert(l, Place(l, b.addr), b), c)
  {
    var m := Insert(l, Place(l, b.addr), b);
    InsertOrdered(l, b);
    forall u | Holds(c, u) ensures !IsFree(m, u) {
      InsertFrees(l, b, u);
      ClearDisjoint(l, c, u);
    }
    ClearByUnits(m, c);
  }

  lemma FreeKeepsInv(s: Arena, b: Block)
    requires Inv(s) && Enabled(s, DoFree(b))
    ensures Inv(Do(s, DoFree(b)))
  {
    var t := Do(s, DoFree(b));
    hide Insert;
    hide Ordered;
    InsertOrdered(s.list, b);
    forall c | c in t.busy ensures Clear(t.list, c) {
      JoinKeepsClear(s.list, b, c);
    }
    forall u: nat ensures IsFree(t.list, u) || IsBusy(t.busy, u) <==> InAreas(t.areas, u) {
      InsertFrees(s.list, b, u);
      BusyMinus(s.busy, b, u);
    }
  }

  lemma BusyMinus(busy: set<Block>, b: Block, u: nat)
    requires b in busy
    ensures IsBusy(busy, u) <==> IsBusy(busy - {b}, u) || Holds(b, u)
  {
    if IsBusy(busy, u) && !Holds(b, u) {
      var c :| c in busy && Holds(c, u);
      assert c in busy - {b};
    }
  }

  lemma BusyPlus(busy: set<Block>, b: Block, u: nat)
    ensures IsBusy(busy + {b}, u) <==> IsBusy(busy, u) || Holds(b, u)
  {
    if IsBusy(busy, u) {
      var c :| c in busy && Holds(c, u);
      assert c in busy + {b};
    }
    if Holds(b, u) { assert b in busy + {b}; }
  }

  // ---- malloc ------------------------------------------------------------------------------

  lemma TakeKeepsClear(l: seq<Block>, i: nat, n: nat, c: Block)
    requires Ordered(l) && i < |l| && l[i].size >= n > 0 && Clear(l, c)
    ensures Clear(Take(l, i, n), c) && Apart(TakenBlock(l, i, n), c)
  {
    var m, g := Take(l, i, n), TakenBlock(l, i, n);
    hide Take;
    TakeOrdered(l, i, n);
    forall u | Holds(c, u) ensures !IsFree(m, u) {
      TakeFrees(l, i, n, u);
      ClearDisjoint(l, c, u);
    }
    ClearByUnits(m, c);
    assert Apart(l[i], c);
  }

  lemma TakeKeepsInv(s: Arena, i: nat, n: nat)
    requires Inv(s) && i < |s.list| && s.list[i].size >= n > 0
    ensures Inv(s.(list := Take(s.list, i, n), cur := Before(i, |s.list|), busy := s.busy + {TakenBlock(s.list, i, n)}))
  {
    var g := TakenBlock(s.list, i, n);
    var t := s.(list := Take(s.list, i, n), cur := Before(i, |s.list|), busy := s.busy + {g});
    TakeOrdered(s.list, i, n);
    TakeBusy(s, i, n);
    forall u: nat ensures IsFree(t.list, u) || IsBusy(t.busy, u) <==> InAreas(t.areas, u) {
      TakeFrees(s.list, i, n, u);
      BusyPlus(s.busy, g, u);
    }
  }

  lemma TakeBusy(s: Arena, i: nat, n: nat)
    requires Inv(s) && i < |s.list| && s.list[i].size >= n > 0
    ensures AllApart(Take(s.list, i, n), s.busy + {TakenBlock(s.list, i, n)})
  {
    hide Take;
    hide Conserved;
    hide Clear;
    TakeOrdered(s.list, i, n);
    var g := TakenBlock(s.list, i, n);
    forall c | c in s.busy + {g} ensures Clear(Take(s.list, i, n), c) && (c != g ==> Apart(g, c) && Apart(c, g)) {
      if c != g { TakeKeepsClear(s.list, i, n, c); }
    }
  }

  // The list after morecore.
  ghost function WithCore(s: Arena, b: Block): Arena
    requires Ordered(s.list) && Clear(s.list, b)
  {
    s.(list := Insert(s.list, Place(s.list, b.addr), b), cur := Place(s.list, b.addr),
       areas := s.areas + [b], top := b.addr + b.size)
  }

  lemma CoreKeepsInv(s: Arena, b: Block)
    requires Inv(s) && b.addr >= s.top && Clear(s.list, b)
    ensures Inv(WithCore(s, b))
  {
    var t := WithCore(s, b);
    hide Insert;
    InsertOrdered(s.list, b);
    NewCoreClear(s, b);
    forall c | c in t.busy ensures Clear(t.list, c) {
      JoinKeepsClear(s.list, b, c);
    }
    forall u: nat ensures IsFree(t.list, u) || IsBusy(t.busy, u) <==> InAreas(t.areas, u) {
      InsertFrees(s.list, b, u);
      AreasPlus(s.areas, b, u);
    }
    forall u: nat | InAreas(t.areas, u) ensures u < t.top {
      AreasPlus(s.areas, b, u);
    }
  }

  lemma AreasPlus(areas: seq<Block>, b: Block, u: nat)
    ensures InAreas(areas + [b], u) <==> InAreas(areas, u) || Holds(b, u)
  {
    if InAreas(areas, u) {
      var i :| 0 <= i < |areas| && Holds(areas[i], u);
      assert Holds((areas + [b])[i], u);
    }
    if Holds(b, u) { assert Holds((areas + [b])[|areas|], u); }
  }

  lemma MallocKeepsInv(s: Arena, nbytes: nat, core: Option<nat>)
    requires Inv(s) && Enabled(s, DoMalloc(nbytes, core)) && Asks(s, DoMalloc(nbytes, core))
    ensures Inv(Do(s, DoMalloc(nbytes, core)))
  {
    hide Insert;
    SbrkAsksIff(nbytes);
    hide Take;
    hide AllApart;
    hide Conserved;
    var n := Units(nbytes);
    var i := Search(s.list, s.cur, n);
    if i < |s.list| {
      TakeKeepsInv(s, i, n);
    } else if core.Some? {
      var b := Core(core.value, n);
      CoreKeepsInv(s, b);
      InsertOrdered(s.list, b);
      MoreCoreSuffices(s.list, b, n);
      var t := WithCore(s, b);
      TakeKeepsInv(t, Search(t.list, t.cur, n), n);
    }
  }

  // Units that sbrk was not asked for are handed out all the same.
  lemma ShortCoreBreaks(s: Arena, nbytes: nat, core: Option<nat>)
    requires Inv(s) && Enabled(s, DoMalloc(nbytes, core)) && !Asks(s, DoMalloc(nbytes, core))
    ensures !Conserved(Do(s, DoMalloc(nbytes, core)).list, Do(s, DoMalloc(nbytes, core)).busy, Do(s, DoMalloc(nbytes, core)).areas)
  {
    hide Insert;
    hide Take;
    hide Ordered;
    SbrkAsksIff(nbytes);
    var n, t := Units(nbytes), Do(s, DoMalloc(nbytes, core));
    var b := Core(core.value, n);
    var p := Place(s.list, b.addr);
    var m := Insert(s.list, p, b);
    InsertOrdered(s.list, b);
    MoreCoreSuffices(s.list, b, n);
    var i, u := Search(m, p, n), b.addr + b.size - 1;
    InsertFrees(s.list, b, u);
    TakeFrees(m, i, n, u);
    BusyPlus(s.busy, TakenBlock(m, i, n), u);
    AreasPlus(s.areas, Block(core.value, Granted(n)), u);
    assert IsFree(t.list, u) || IsBusy(t.busy, u);
    assert InAreas(s.areas, u) ==> u < s.top;
  }

  /** A step keeps the arena in order, every unit from sbrk free or allocated and no other, if and only
      if it is not a malloc that grows the heap by more than an int can ask for. */
  lemma StepKeepsInv(s: Arena, step: Step)
    requires Inv(s) && Enabled(s, step)
    ensures Inv(Do(s, step)) <==> Asks(s, step)
  {
    hide Conserved;
    hide AllApart;
    hide Ordered;
    match step
    case DoMalloc(nbytes, core) =>
      if Asks(s, step) { MallocKeepsInv(s, nbytes, core); } else { ShortCoreBreaks(s, nbytes, core); }
    case DoFree(b) => FreeKeepsInv(s, b);
  }

  ghost predicate IsRun(base: nat, run: seq<Arena>, steps: seq<Step>) {
    && |run| == |steps| + 1 && run[0] == Boot(base)
    && forall i :: 0 <= i < |steps| ==> Enabled(run[i], steps[i]) && run[i + 1] == Do(run[i], steps[i])
  }

  lemma {:induction false} RunsKeepInv(base: nat, run: seq<Arena>, steps: seq<Step>, i: nat)
    requires IsRun(base, run, steps) && i < |run| && forall j :: 0 <= j < i ==> Asks(run[j], steps[j])
    ensures Inv(run[i])
  {
    hide Inv;
    hide Do;
    hide Asks;
    if i == 0 {
      BootInv(base);
    } else {
      RunsKeepInv(base, run, steps, i - 1);
      StepKeepsInv(run[i - 1], steps[i - 1]);
    }
  }

  /** All states of a run are in order if and only if no malloc in it grows the heap for a request of
      more than 2147483616 bytes. */
  lemma RunsInOrderIff(base: nat, run: seq<Arena>, steps: seq<Step>)
    requires IsRun(base, run, steps)
    ensures (forall i :: 0 <= i < |run| ==> Inv(run[i])) <==> forall i :: 0 <= i < |steps| ==> Asks(run[i], steps[i])
  {
    hide Inv;
    hide Do;
    hide Asks;
    if forall i :: 0 <= i < |run| ==> Inv(run[i]) {
      forall i | 0 <= i < |steps| ensures Asks(run[i], steps[i]) {
        assert Inv(run[i]) && Inv(run[i + 1]);
        StepKeepsInv(run[i], steps[i]);
      }
    }
    if forall i :: 0 <= i < |steps| ==> Asks(run[i], steps[i]) {
      forall i | 0 <= i < |run| ensures Inv(run[i]) { RunsKeepInv(base, run, steps, i); }
    }
  }

  /** After any sequence of malloc and free in which no malloc grows the heap for a request of more
      than 2147483616 bytes, every unit that sbrk has returned is in a free block or in exactly one
      allocated block, not both; the free list is in address order and no two of its blocks touch. */
  lemma NothingLostOrShared(base: nat, run: seq<Arena>, steps: seq<Step>, i: nat, u: nat)
    requires IsRun(base, run, steps) && i < |run| && forall j :: 0 <= j < i ==> Asks(run[j], steps[j])
    ensures Ordered(run[i].list)
    ensures InAreas(run[i].areas, u) <==> IsFree(run[i].list, u) || IsBusy(run[i].busy, u)
    ensures !(IsFree(run[i].list, u) && IsBusy(run[i].busy, u))
    ensures forall b, c :: b in run[i].busy && c in run[i].busy && Holds(b, u) && Holds(c, u) ==> b == c
  {
    hide IsRun;
    RunsKeepInv(base, run, steps, i);
    var s := run[i];
    if IsBusy(s.busy, u) {
      var b :| b in s.busy && Holds(b, u);
      ClearDisjoint(s.list, b, u);
    }
    forall b, c | b in s.busy && c in s.busy && Holds(b, u) && Holds(c, u) ensures b == c {
      assert Apart(b, b) ==> b.size == 0;
    }
  }

  /** malloc fails only when sbrk does, and then no free block was large enough; what it returns is new,
      and its header says that it has room for the bytes asked for. */
  lemma MallocAnswers(s: Arena, nbytes: nat, core: Option<nat>)
    requires Inv(s) && Enabled(s, DoMalloc(nbytes, core))
    ensures var n, r := Units(nbytes), Malloc(s.list, s.cur, Units(nbytes), core);
            && (r.got.None? ==> core.None? && r.list == s.list && forall k :: 0 <= k < |s.list| ==> s.list[k].size < n)
            && (r.got.Some? ==> r.got.value.size == n && nbytes <= 16 * (n - 1) < nbytes + 16 && r.got.value !in s.busy)
  {
    hide Conserved;
    var n, r := Units(nbytes), Malloc(s.list, s.cur, Units(nbytes), core);
    if r.got.None? {
      forall k | 0 <= k < |s.list| ensures s.list[k].size < n { SearchMisses(s.list, s.cur, n, k); }
    } else {
      GotIsNew(s, nbytes, core);
    }
  }

  // Counting on round a list of n blocks.
  function Around(i: nat, n: nat): (r: nat)
    requires i < 2 * n
    ensures r < n
  {
    if i < n then i else i - n
  }

  // The j-th block that the search from behind block `cur` looks at is too small.
  ghost predicate PassesBy(l: seq<Block>, cur: nat, n: nat, j: nat)
    requires cur < |l| && j < |l|
  {
    l[Around(cur + 1 + j, |l|)].size < n
  }

  lemma SearchIsFirst(l: seq<Block>, cur: nat, n: nat, k: nat) returns (i: nat, d: nat)
    requires cur < |l| && k < |l| && l[k].size >= n
    ensures i == Search(l, cur, n) < |l| && d < |l| && i == Around(cur + 1 + d, |l|)
    ensures forall j :: 0 <= j < d ==> PassesBy(l, cur, n, j)
  {
    hide Scan;
    if Search(l, cur, n) == |l| { SearchMisses(l, cur, n, k); }
    i := Search(l, cur, n);
    d := ScanFirst(l, After(cur, |l|), |l| - 1, n);
    forall j | 0 <= j < d ensures PassesBy(l, cur, n, j) {
      assert Around(cur + 1 + j, |l|) == Ahead(After(cur, |l|), j, |l|);
    }
  }

  /** malloc is next fit, from the tail. When some block is large enough, the one taken is the first such
      block round the list from behind freep, d blocks on; what is returned is the last n units of it,
      the rest of it stays where it was, and freep is the block before it. */
  lemma MallocTakes(l: seq<Block>, cur: nat, n: nat, core: Option<nat>, k: nat) returns (i: nat, d: nat)
    requires Ordered(l) && cur < |l| && n > 0 && (core.Some? ==> Clear(l, Core(core.value, n)))
    requires k < |l| && l[k].size >= n
    ensures 0 < i < |l| && d < |l| && i == Around(cur + 1 + d, |l|) && l[i].size >= n
    ensures forall j :: 0 <= j < d ==> PassesBy(l, cur, n, j)
    ensures var r := Malloc(l, cur, n, core);
            && r.got == Some(Block(l[i].addr + l[i].size - n, n)) && r.cur == i - 1
            && (l[i].size == n ==> r.list == l[..i] + l[i + 1..])
            && (l[i].size > n ==> r.list == l[i := Block(l[i].addr, l[i].size - n)])
  {
    hide Clear;
    hide Search;
    hide PassesBy;
    hide Around;
    i, d := SearchIsFirst(l, cur, n, k);
    assert l[0].size == 0;
  }

  /** free leaves freep at the last block that starts below the one freed. */
  lemma FreeLeavesFreep(l: seq<Block>, b: Block)
    requires Ordered(l) && Clear(l, b)
    ensures var m, p := Insert(l, Place(l, b.addr), b), Place(l, b.addr);
            p < |m| && m[p].addr < b.addr && forall j :: p < j < |m| ==> m[j].addr >= b.addr
  {
    var m, p := Insert(l, Place(l, b.addr), b), Place(l, b.addr);
    InsertOrdered(l, b);
    PlaceClear(l, b);
    forall j | p <= j < |m| ensures if j == p then m[j].addr < b.addr else m[j].addr >= b.addr { InsertAt(l, p, b, j); }
  }

  /** The block that malloc returns is memory that sbrk has granted, all of it, if and only if malloc did
      not grow the heap for a request of more than 2147483616 bytes. */
  lemma RoomIsRealIff(s: Arena, nbytes: nat, core: Option<nat>)
    requires Inv(s) && Enabled(s, DoMalloc(nbytes, core)) && Malloc(s.list, s.cur, Units(nbytes), core).got.Some?
    ensures var got, t := Malloc(s.list, s.cur, Units(nbytes), core).got.value, Do(s, DoMalloc(nbytes, core));
            (forall u: nat :: Holds(got, u) ==> InAreas(t.areas, u)) <==> Asks(s, DoMalloc(nbytes, core))
  {
    hide Insert;
    hide Take;
    hide Ordered;
    hide AllApart;
    var step := DoMalloc(nbytes, core);
    var n, got, t := Units(nbytes), Malloc(s.list, s.cur, Units(nbytes), core).got.value, Do(s, DoMalloc(nbytes, core));
    if Asks(s, step) {
      MallocKeepsInv(s, nbytes, core);
      assert got in t.busy;
      forall u: nat | Holds(got, u) ensures InAreas(t.areas, u) { assert IsBusy(t.busy, u); }
    } else {
      SbrkAsksIff(nbytes);
      var b, u := Core(core.value, n), core.value + n - 1;
      GotIsCore(s, b, n);
      AreasPlus(s.areas, Block(core.value, Granted(n)), u);
      assert InAreas(s.areas, u) ==> u < s.top;
      assert Holds(got, u) && !InAreas(t.areas, u);
    }
  }

  // New core goes to the end of the list.
  lemma CoreIsLast(s: Arena, b: Block)
    requires Inv(s) && b.size > 0 && b.addr >= s.top
    ensures Clear(s.list, b) && Place(s.list, b.addr) == |s.list| - 1
  {
    NewCoreClear(s, b);
    if |s.list| > 1 { ListBelowTop(s, |s.list| - 1); }
  }

  lemma ListBelowTop(s: Arena, j: nat)
    requires Inv(s) && 1 <= j < |s.list|
    ensures s.list[j].addr < s.top
  {
    var u := s.list[j].addr;
    assert Holds(s.list[j], u);
    assert IsFree(s.list, u);
  }

  // If no block was large enough before, the one that malloc takes is the end of the new core.
  lemma GotIsCore(s: Arena, b: Block, n: nat)
    requires Inv(s) && b.size == n >= 4096 && b.addr >= s.top && Clear(s.list, b) && NeedsCore(s, n)
    ensures var p := Place(s.list, b.addr);
            var m := Insert(s.list, p, b);
            p < |m| && Search(m, p, n) < |m| && m[Search(m, p, n)].size >= n && TakenBlock(m, Search(m, p, n), n) == b
  {
    CoreIsLast(s, b);
    MoreCoreSuffices(s.list, b, n);
    var p := Place(s.list, b.addr);
    var m := Insert(s.list, p, b);
    var i := Search(m, p, n);
    InsertAt(s.list, p, b, i);
    forall k | 0 <= k < |s.list| ensures s.list[k].size < n { SearchMisses(s.list, s.cur, n, k); }
  }

  lemma GotIsNew(s: Arena, nbytes: nat, core: Option<nat>)
    requires Inv(s) && Enabled(s, DoMalloc(nbytes, core)) && Malloc(s.list, s.cur, Units(nbytes), core).got.Some?
    ensures Malloc(s.list, s.cur, Units(nbytes), core).got.value !in s.busy
  {
    hide Insert;
    hide Take;
    hide Conserved;
    var n := Units(nbytes);
    var i := Search(s.list, s.cur, n);
    if i < |s.list| {
      FromTheList(s.list, s.busy, i, n);
    } else {
      var b := Core(core.value, n);
      CoreKeepsInv(s, b);
      InsertOrdered(s.list, b);
      MoreCoreSuffices(s.list, b, n);
      var t := WithCore(s, b);
      FromTheList(t.list, t.busy, Search(t.list, t.cur, n), n);
    }
  }

  lemma FromTheList(l: seq<Block>, busy: set<Block>, i: nat, n: nat)
    requires Ordered(l) && AllApart(l, busy) && i < |l| && l[i].size >= n > 0
    ensures TakenBlock(l, i, n) !in busy
  {
    var g := TakenBlock(l, i, n);
    assert !Apart(l[i], g);
  }

  // ---- a request that is too large ---------------------------------------------------------

  lemma OnlyCore(base: nat, b: Block, n: nat)
    requires base < b.addr && b.size >= n > 0
    ensures var l, m := [Block(base, 0)], [Block(base, 0), b];
            && Ordered(l) && Clear(l, b) && Search(l, 0, n) == 1
            && Place(l, b.addr) == 0 && Insert(l, 0, b) == m && Search(m, 0, n) == 1
  {
    var l, m := [Block(base, 0)], [Block(base, 0), b];
    assert Place(l, b.addr) == 0;
    assert Insert(l, 0, b) == m;
    assert Search(m, 0, n) == 1;
  }

  // The only free block is new core, and a part of it is taken.
  lemma FirstCore(base: nat, c: nat, n: nat)
    requires base < c && n > 0
    ensures Ordered([Block(base, 0)]) && Clear([Block(base, 0)], Core(c, n)) && Search([Block(base, 0)], 0, n) == 1
    ensures var k := Max(n, 4096);
            Malloc([Block(base, 0)], 0, n, Some(c))
            == Malloced(if k == n then [Block(base, 0)] else [Block(base, 0), Block(c, k - n)], 0, Some(Block(c + k - n, n)))
  {
    hide Ordered;
    hide Clear;
    hide Search;
    hide Place;
    hide Insert;
    var l, b := [Block(base, 0)], Core(c, n);
    OnlyCore(base, b, n);
    var m := [Block(base, 0), b];
    if b.size == n { assert Take(m, 1, n) == l; } else { assert Take(m, 1, n) == [Block(base, 0), Block(c, b.size - n)]; }
  }

  // What the two requests leave behind.
  ghost function OneHuge(base: nat, c: nat): Arena {
    Arena([Block(base, 0)], 0, {Block(c, 0x1000_0001)}, [Block(c, 1)], c + 1)
  }

  lemma HugeStep(base: nat, c: nat)
    requires base < c
    ensures var step := DoMalloc(0xFFFF_FFFF, Some(c)); Enabled(Boot(base), step) && Do(Boot(base), step) == OneHuge(base, c)
  {
    hide Ordered;
    hide Clear;
    hide Malloc;
    FirstCore(base, c, 0x1000_0001);
    assert Units(0xFFFF_FFFF) == 0x1000_0001 && Granted(0x1000_0001) == 1;
  }

  lemma SmallStep(base: nat, c: nat)
    requires base < c
    ensures var step := DoMalloc(1, Some(c + 1));
            Enabled(OneHuge(base, c), step) && {Block(c, 0x1000_0001), Block(c + 4095, 2)} <= Do(OneHuge(base, c), step).busy
  {
    hide Ordered;
    hide Clear;
    hide Malloc;
    FirstCore(base, c + 1, 2);
    assert Units(1) == 2;
  }

  /** malloc(0xFFFFFFFF) asks sbrk for 16 bytes and returns a block of 4 GiB; the next malloc(1) gets a
      block inside it. */
  lemma HugeRequestShares(base: nat, c: nat)
    requires base < c
    ensures SbrkArg(Units(0xFFFF_FFFF)) == 16
    ensures exists run: seq<Arena>, steps: seq<Step> ::
              && IsRun(base, run, steps) && steps == [DoMalloc(0xFFFF_FFFF, Some(c)), DoMalloc(1, Some(c + 1))]
              && Block(c, 0x1000_0001) in run[2].busy && Block(c + 4095, 2) in run[2].busy
  {
    hide Enabled;
    hide Do;
    HugeStep(base, c);
    SmallStep(base, c);
    var steps := [DoMalloc(0xFFFF_FFFF, Some(c)), DoMalloc(1, Some(c + 1))];
    var run := [Boot(base), OneHuge(base, c), Do(OneHuge(base, c), steps[1])];
    assert IsRun(base, run, steps);
  }
}
