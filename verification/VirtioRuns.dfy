/** Every run of the block device driver against a device that fetches requests in ring order and
    completes them in any order. */
module VirtioRuns {
  import opened Options
  import opened Virtio

  // How far a request has come.
  datatype Stage = Offered | Fetched | Used | Seen

  datatype Req = Req(chain: Chain, n: nat, write: bool, stage: Stage, since: nat)

  // One transfer the device has carried out.
  datatype Transfer = Transfer(b: nat, n: nat, write: bool, data: Block)

  datatype System = System(
    q: Queue,
    busy: set<nat>,               // the buffers whose b->disk is 1
    bufs: map<nat, Block>,        // b->data
    image: map<nat, Block>,       // the disk
    fetchIdx: nat,                // the device's place in the available ring, 16-bit
    // history
    requests: map<nat, Req>,      // calls of virtio_disk_rw that have not returned, by buffer
    offered: seq<nat>,            // heads in the available ring that the device has not fetched
    fetched: set<nat>,            // heads the device is working on
    usedQ: seq<nat>,              // heads in the used ring that the driver has not seen
    nAvail: nat, nUsed: nat,      // entries ever made in either ring
    transfers: seq<Transfer>)

  datatype Step =
    | Start(b: nat, n: nat, write: bool, data: Block)     // virtio_disk_rw, up to the wait
    | Fetch                                               // the device takes the next request
    | DeviceDone(h: nat)                                  // the device completes one it has taken
    | Interrupt                                           // one turn of virtio_disk_intr's loop
    | Return(b: nat)                                      // the rest of virtio_disk_rw

  // A chain the device can serve: a header it reads, 1024 bytes that it reads for a write and writes
  // for a read, and a byte for the status that it writes (section 5.2.6 of VIRTIO 1.1).
  ghost predicate Served(q: Queue, h: nat)
    requires Shaped(q) && h < 8
  {
    var d := q.desc[h];
    && d.addr.Header? && d.addr.i < 8 && d.len == 16 && !d.write && d.more && d.next < 8
    && q.desc[d.next].addr.Data? && q.desc[d.next].len == 1024 && q.desc[d.next].write != q.ops[d.addr.i].write
    && q.desc[d.next].more && q.desc[d.next].next < 8
    && q.desc[q.desc[d.next].next] == Desc(Status(h), 1, false, true, 0)
    && q.ops[d.addr.i].sector % 2 == 0
  }

  // The transfer that the descriptors from h on ask for.
  ghost function Asked(s: System, h: nat): Option<Transfer>
    requires Shaped(s.q) && h < 8
  {
    var d := s.q.desc[h];
    if Served(s.q, h) then
      var op, b := s.q.ops[d.addr.i], s.q.desc[d.next].addr.b;
      var n := op.sector / 2;
      if n in s.image && b in s.bufs then Some(Transfer(b, n, op.write, if op.write then s.bufs[b] else s.image[n])) else None
    else None
  }

  ghost predicate Enabled(s: System, step: Step) {
    Shaped(s.q) && s.fetchIdx < 65536
    && match step
       case Start(b, n, _, _) => b !in s.requests && n in s.image && Alloc3(s.q.free).Some?     // else it sleeps
       case Fetch => s.fetchIdx != s.q.availIdx
       case DeviceDone(h) => h in s.fetched && h < 8 && Asked(s, h).Some?
       case Interrupt => s.q.seen != s.q.usedIdx && s.q.used[s.q.seen % 8] < 8
       case Return(b) => b in s.requests && b !in s.busy && s.requests[b].chain.head < 8
  }

  ghost function StartStep(s: System, b: nat, n: nat, write: bool, data: Block): System
    requires Enabled(s, Start(b, n, write, data))
  {
    var c := Alloc3(s.q.free).value;
    s.(q := Submit(s.q, c, b, n, write), busy := s.busy + {b}, bufs := s.bufs[b := data],
       requests := s.requests[b := Req(c, n, write, Offered, |s.transfers|)], offered := s.offered + [c.head], nAvail := s.nAvail + 1)
  }

  // The stage of the request whose head is h, if there is one.
  ghost function SetStage(s: System, h: nat, stage: Stage): map<nat, Req>
    requires Shaped(s.q) && h < 8
  {
    if s.q.info[h].b.Some? && s.q.info[h].b.value in s.requests
    then s.requests[s.q.info[h].b.value := s.requests[s.q.info[h].b.value].(stage := stage)]
    else s.requests
  }

  ghost function FetchStep(s: System): System
    requires Shaped(s.q)
  {
    var h := s.q.avail[s.fetchIdx % 8];
    s.(fetchIdx := Inc(s.fetchIdx), fetched := s.fetched + {h},
       requests := if h < 8 then SetStage(s, h, Fetched) else s.requests,
       offered := if s.offered == [] then [] else s.offered[1..])
  }

  ghost function DoneStep(s: System, h: nat): System
    requires Enabled(s, DeviceDone(h))
  {
    var x := Asked(s, h).value;
    s.(q := Complete(s.q, h), fetched := s.fetched - {h},
       bufs := if x.write then s.bufs else s.bufs[x.b := x.data],
       image := if x.write then s.image[x.n := x.data] else s.image,
       requests := SetStage(s, h, Used), usedQ := s.usedQ + [h], nUsed := s.nUsed + 1, transfers := s.transfers + [x])
  }

  datatype Outcome = Next(s: System) | Panic

  ghost function InterruptStep(s: System): Outcome
    requires Enabled(s, Interrupt)
  {
    var id := s.q.used[s.q.seen % 8];
    if s.q.info[id].status != 0 || s.q.info[id].b.None? then Panic      // or a null buffer
    else
      Next(s.(q := s.q.(seen := Inc(s.q.seen)), busy := s.busy - {s.q.info[id].b.value},
              requests := SetStage(s, id, Seen), usedQ := if s.usedQ == [] then [] else s.usedQ[1..]))
  }

  ghost function ReturnStep(s: System, b: nat): Outcome
    requires Enabled(s, Return(b))
  {
    var h := s.requests[b].chain.head;
    var q := s.q.(info := s.q.info[h := s.q.info[h].(b := None)]);
    var r := FreeChain(q, h, 8);
    if r.None? then Panic else Next(s.(q := r.value, requests := s.requests - {b}))
  }

  ghost function Do(s: System, step: Step): Outcome
    requires Enabled(s, step)
  {
    match step
    case Start(b, n, write, data) => Next(StartStep(s, b, n, write, data))
    case Fetch => Next(FetchStep(s))
    case DeviceDone(h) => Next(DoneStep(s, h))
    case Interrupt => InterruptStep(s)
    case Return(b) => ReturnStep(s, b)
  }

  // ---- the invariant -----------------------------------------------------------------------

  ghost predicate InChain(i: nat, c: Chain) { i == c.head || i == c.mid || i == c.tail }

  ghost predicate ReqOk(s: System, b: nat)
    requires b in s.requests
  {
    var r := s.requests[b];
    && IsChain(s.q, r.chain, b, r.n, r.write) && b in s.bufs && r.n in s.image
    && (b in s.busy <==> r.stage != Seen)
    && (r.stage == Offered || r.stage == Fetched ==> s.q.info[r.chain.head].status == 255)
    && (r.stage == Used ==> s.q.info[r.chain.head].status == 0)
    && r.since <= |s.transfers|
    && (r.stage == Used || r.stage == Seen ==> Performed(s, b))
  }

  // The device has carried out the request, after it was made: what was written is what the buffer
  // holds, or what was read is.
  ghost predicate Performed(s: System, b: nat)
    requires b in s.requests && b in s.bufs
  {
    var r := s.requests[b];
    exists k :: r.since <= k < |s.transfers| && s.transfers[k] == Transfer(b, r.n, r.write, s.bufs[b])
  }

  // Chains of different requests share no descriptor, every taken descriptor is in one, and free
  // ones are blank.
  ghost predicate Partition(s: System) {
    && Shaped(s.q) && (forall i :: 0 <= i < 8 && s.q.free[i] ==> s.q.desc[i] == EmptyDesc)
    && (forall b, b', i :: b in s.requests && b' in s.requests && InChain(i, s.requests[b].chain) && InChain(i, s.requests[b'].chain) ==> b == b')
    && (forall i :: 0 <= i < 8 && !s.q.free[i] ==> exists b :: b in s.requests && InChain(i, s.requests[b].chain))
  }

  // h is the head of a request at this stage.
  ghost predicate HeadAt(s: System, h: nat, stage: Stage) {
    h < 8 == |s.q.info| && s.q.info[h].b.Some? && s.q.info[h].b.value in s.requests
    && s.requests[s.q.info[h].b.value].chain.head == h && s.requests[s.q.info[h].b.value].stage == stage
  }

  // The entries of a ring between two 16-bit indices, lo and hi, are q; n have ever been made.
  ghost predicate Ring(ring: seq<nat>, q: seq<nat>, n: nat, lo: nat, hi: nat) {
    && |ring| == 8 && |q| <= n && hi == n % 65536 && lo == (n - |q|) % 65536
    && forall i :: 0 <= i < |q| ==> ring[(n - |q| + i) % 8] == q[i]
  }

  // The rings hold what has been offered and used, where the indices say.
  ghost predicate Rings(s: System) {
    Shaped(s.q) && Ring(s.q.avail, s.offered, s.nAvail, s.fetchIdx, s.q.availIdx) && Ring(s.q.used, s.usedQ, s.nUsed, s.q.seen, s.q.usedIdx)
  }

  ghost predicate Distinct(l: seq<nat>) { forall i, j :: 0 <= i < j < |l| ==> l[i] != l[j] }

  ghost predicate Stages(s: System) {
    && Distinct(s.offered) && Distinct(s.usedQ)
    && (forall h :: h in s.offered ==> HeadAt(s, h, Offered)) && (forall h :: h in s.fetched ==> HeadAt(s, h, Fetched))
    && (forall h :: h in s.usedQ ==> HeadAt(s, h, Used))
    && (forall b :: b in s.requests ==>
          match s.requests[b].stage
          case Offered => s.requests[b].chain.head in s.offered
          case Fetched => s.requests[b].chain.head in s.fetched
          case Used => s.requests[b].chain.head in s.usedQ
          case Seen => true)
  }

  ghost predicate AllReqs(s: System) { Shaped(s.q) && s.fetchIdx < 65536 && forall b :: b in s.requests ==> ReqOk(s, b) }

  ghost predicate Inv(s: System) { AllReqs(s) && Partition(s) && Rings(s) && Stages(s) }

  // ---- distinct descriptor numbers are few -------------------------------------------------

  ghost function Upto(n: nat): set<nat> { if n == 0 then {} else Upto(n - 1) + {n - 1} }

  lemma {:induction false} UptoSize(n: nat)
    ensures |Upto(n)| == n && forall i :: i in Upto(n) <==> 0 <= i < n
  {
    if n > 0 { UptoSize(n - 1); }
  }

  ghost function Elements(l: seq<nat>): set<nat> { set x | x in l }

  lemma {:induction false} DistinctSize(l: seq<nat>)
    requires Distinct(l)
    ensures |Elements(l)| == |l|
  {
    if l != [] {
      var m := l[..|l| - 1];
      DistinctSize(m);
      assert l == m + [l[|l| - 1]];
      assert Elements(l) == Elements(m) + {l[|l| - 1]};
      assert l[|l| - 1] !in m;
    }
  }

  lemma {:induction false} SubsetSize(a: set<nat>, b: set<nat>)
    requires a <= b
    ensures |a| <= |b|
    decreases a
  {
    if a != {} {
      var x :| x in a;
      SubsetSize(a - {x}, b - {x});
    }
  }

  lemma DistinctPush(l: seq<nat>, h: nat)
    requires Distinct(l) && h !in l
    ensures Distinct(l + [h])
  {
    forall i, j | 0 <= i < j < |l| + 1 ensures (l + [h])[i] != (l + [h])[j] {
      assert (l + [h])[i] == l[i] && l[i] in l;
    }
  }

  lemma AtMostEight(l: seq<nat>)
    requires Distinct(l) && forall x :: x in l ==> x < 8
    ensures |l| <= 8
  {
    DistinctSize(l);
    UptoSize(8);
    SubsetSize(Elements(l), Upto(8));
  }

  // ---- starting a request ------------------------------------------------------------------

  // A descriptor that is free is in no chain.
  lemma FreeIsOut(s: System, i: nat, b: nat)
    requires AllReqs(s) && b in s.requests && i < 8 && s.q.free[i]
    ensures !InChain(i, s.requests[b].chain)
  {
    assert ReqOk(s, b);
  }

  lemma ChainKept(s: System, c: Chain, b: nat, n: nat, write: bool, b': nat)
    requires AllReqs(s) && b' in s.requests && c.head < 8 && c.mid < 8 && c.tail < 8
    requires s.q.free[c.head] && s.q.free[c.mid] && s.q.free[c.tail]
    ensures var r := s.requests[b'];
            && IsChain(Submit(s.q, c, b, n, write), r.chain, b', r.n, r.write)
            && Submit(s.q, c, b, n, write).info[r.chain.head] == s.q.info[r.chain.head]
  {
    assert ReqOk(s, b');
  }

  lemma StartKeepsReqs(s: System, b: nat, n: nat, write: bool, data: Block)
    requires Inv(s) && Enabled(s, Start(b, n, write, data))
    ensures AllReqs(StartStep(s, b, n, write, data))
  {
    hide Rings;
    hide Stages;
    hide IsChain;
    hide Performed;
    var t := StartStep(s, b, n, write, data);
    var c := Alloc3(s.q.free).value;
    NewChain(s.q, c, b, n, write);
    forall b' | b' in t.requests ensures ReqOk(t, b') {
      if b' != b {
        assert ReqOk(s, b');
        ChainKept(s, c, b, n, write, b');
        KeepsPerformed(s, t, b');
      }
    }
  }

  lemma StartKeepsPartition(s: System, b: nat, n: nat, write: bool, data: Block)
    requires Inv(s) && Enabled(s, Start(b, n, write, data))
    ensures Partition(StartStep(s, b, n, write, data))
  {
    hide Rings;
    hide Stages;
    hide AllReqs;
    var t := StartStep(s, b, n, write, data);
    var c := Alloc3(s.q.free).value;
    forall b', i | b' in s.requests && InChain(i, s.requests[b'].chain) ensures !InChain(i, c) {
      if InChain(i, c) { FreeIsOut(s, i, b'); }
    }
    forall i | 0 <= i < 8 && !t.q.free[i] ensures exists b' :: b' in t.requests && InChain(i, t.requests[b'].chain) {
      StartCovers(s, b, n, write, data, i);
    }
  }

  // Every descriptor that is taken after a submission belongs to a request.
  lemma StartCovers(s: System, b: nat, n: nat, write: bool, data: Block, i: nat)
    requires Partition(s) && Enabled(s, Start(b, n, write, data)) && i < 8
    requires var t := StartStep(s, b, n, write, data); |t.q.free| == 8 && !t.q.free[i]
    ensures var t := StartStep(s, b, n, write, data); exists b' :: b' in t.requests && InChain(i, t.requests[b'].chain)
  {
    var t := StartStep(s, b, n, write, data);
    var c := Alloc3(s.q.free).value;
    if InChain(i, c) {
      assert b in t.requests && InChain(i, t.requests[b].chain);
    } else {
      var b' :| b' in s.requests && InChain(i, s.requests[b'].chain);
      assert b' in t.requests && InChain(i, t.requests[b'].chain);
    }
  }

  lemma NewChain(q: Queue, c: Chain, b: nat, n: nat, write: bool)
    requires Shaped(q) && c.head < c.mid < c.tail < 8
    ensures IsChain(Submit(q, c, b, n, write), c, b, n, write)
  {
  }

  // A head that is waiting belongs to a request, so its descriptor is taken.
  lemma HeadTaken(s: System, h: nat, stage: Stage)
    requires AllReqs(s) && HeadAt(s, h, stage)
    ensures h < 8 && !s.q.free[h]
  {
    assert ReqOk(s, s.q.info[h].b.value);
  }

  lemma StartKeepsHeads(s: System, b: nat, n: nat, write: bool, data: Block, h: nat, stage: Stage)
    requires Inv(s) && Enabled(s, Start(b, n, write, data)) && HeadAt(s, h, stage)
    ensures HeadAt(StartStep(s, b, n, write, data), h, stage) && h != Alloc3(s.q.free).value.head
  {
    hide Rings;
    hide Stages;
    HeadTaken(s, h, stage);
  }

  lemma StartKeepsStages(s: System, b: nat, n: nat, write: bool, data: Block)
    requires Inv(s) && Enabled(s, Start(b, n, write, data))
    ensures Stages(StartStep(s, b, n, write, data))
  {
    hide Rings;
    hide Partition;
    hide ReqOk;
    var t := StartStep(s, b, n, write, data);
    forall h | h in s.offered ensures HeadAt(t, h, Offered) && h != Alloc3(s.q.free).value.head {
      StartKeepsHeads(s, b, n, write, data, h, Offered);
    }
    DistinctPush(s.offered, Alloc3(s.q.free).value.head);
    forall h | h in s.fetched ensures HeadAt(t, h, Fetched) { StartKeepsHeads(s, b, n, write, data, h, Fetched); }
    forall h | h in s.usedQ ensures HeadAt(t, h, Used) { StartKeepsHeads(s, b, n, write, data, h, Used); }
  }

  /** The available ring has room for the new head. */
  lemma RoomToOffer(s: System, b: nat, n: nat, write: bool, data: Block)
    requires Inv(s) && Enabled(s, Start(b, n, write, data))
    ensures |s.offered| < 8
  {
    hide Rings;
    var h := Alloc3(s.q.free).value.head;
    forall x | x in s.offered ensures x < 8 && x != h { HeadTaken(s, x, Offered); }
    DistinctPush(s.offered, h);
    AtMostEight(s.offered + [h]);
  }

  lemma StartKeepsRings(s: System, b: nat, n: nat, write: bool, data: Block)
    requires Inv(s) && Enabled(s, Start(b, n, write, data))
    ensures Rings(StartStep(s, b, n, write, data))
  {
    hide Ring;
    hide Partition;
    hide Stages;
    hide AllReqs;
    RoomToOffer(s, b, n, write, data);
    RingPush(s.q.avail, s.offered, s.nAvail, s.fetchIdx, s.q.availIdx, Alloc3(s.q.free).value.head);
  }

  // Index arithmetic of a ring of eight with 16-bit indices.
  lemma SlotOf(n: nat)
    ensures n % 65536 % 8 == n % 8 && Inc(n % 65536) == (n + 1) % 65536
  {
    var k, r := n / 65536, n % 65536;
    assert n == 8 * (8192 * k) + r;
    Eights(8192 * k, r);
    if r == 65535 { assert n + 1 == 65536 * (k + 1); } else { assert n + 1 == 65536 * k + (r + 1); }
  }

  lemma Eights(m: nat, r: nat)
    ensures (8 * m + r) % 8 == r % 8
  {
  }

  // A new entry at the upper index.
  lemma RingPush(ring: seq<nat>, q: seq<nat>, n: nat, lo: nat, hi: nat, h: nat)
    requires Ring(ring, q, n, lo, hi) && |q| < 8
    ensures Ring(ring[hi % 8 := h], q + [h], n + 1, lo, Inc(hi))
  {
    SlotOf(n);
    var q' := q + [h];
    forall i | 0 <= i < |q'| ensures ring[n % 8 := h][(n + 1 - |q'| + i) % 8] == q'[i] {
      assert n + 1 - |q'| + i == n - |q| + i;
      if i < |q| { OtherSlot(n, |q| - i); }
    }
  }

  lemma OtherSlot(n: nat, d: nat)
    requires 0 < d < 8 && d <= n
    ensures (n - d) % 8 != n % 8
  {
  }

  // ---- the device --------------------------------------------------------------------------

  // The entry at the lower index.
  lemma RingPop(ring: seq<nat>, q: seq<nat>, n: nat, lo: nat, hi: nat)
    requires Ring(ring, q, n, lo, hi) && q != []
    ensures ring[lo % 8] == q[0] && Ring(ring, q[1..], n, Inc(lo), hi)
  {
    SlotOf(n - |q|);
    assert ring[(n - |q| + 0) % 8] == q[0];
    forall i | 0 <= i < |q[1..]| ensures ring[(n - |q[1..]| + i) % 8] == q[1..][i] {
      assert ring[(n - |q| + (i + 1)) % 8] == q[i + 1];
    }
  }

  // The indices tell an empty ring.
  lemma RingEmpty(ring: seq<nat>, q: seq<nat>, n: nat, lo: nat, hi: nat)
    requires Ring(ring, q, n, lo, hi) && |q| <= 8
    ensures lo == hi <==> q == []
  {
    IndicesDiffer(n, |q|);
  }

  // The 16-bit indices differ exactly when there is something in between.
  lemma IndicesDiffer(n: nat, d: nat)
    requires d <= 8 && d <= n
    ensures n % 65536 == (n - d) % 65536 <==> d == 0
  {
    var k, r := n / 65536, n % 65536;
    assert n == 65536 * k + r;
    if d > r {
      assert n - d == 65536 * (k - 1) + (65536 + r - d);
    } else {
      assert n - d == 65536 * k + (r - d);
    }
  }

  lemma OfferedFew(s: System)
    requires Inv(s)
    ensures |s.offered| <= 8 && |s.usedQ| <= 8
  {
    hide Rings;
    forall x | x in s.offered ensures x < 8 { HeadTaken(s, x, Offered); }
    forall x | x in s.usedQ ensures x < 8 { HeadTaken(s, x, Used); }
    AtMostEight(s.offered);
    AtMostEight(s.usedQ);
  }

  // The device finds what was offered first.
  lemma FetchFinds(s: System)
    requires Inv(s) && Enabled(s, Fetch)
    ensures s.offered != [] && s.q.avail[s.fetchIdx % 8] == s.offered[0] && s.fetchIdx != s.q.availIdx
    ensures HeadAt(s, s.offered[0], Offered)
  {
    hide Ring;
    hide Partition;
    hide AllReqs;
    OfferedFew(s);
    RingEmpty(s.q.avail, s.offered, s.nAvail, s.fetchIdx, s.q.availIdx);
    RingPop(s.q.avail, s.offered, s.nAvail, s.fetchIdx, s.q.availIdx);
    assert s.offered[0] in s.offered;
  }

  lemma FetchKeepsReqs(s: System)
    requires Inv(s) && Enabled(s, Fetch)
    ensures AllReqs(FetchStep(s)) && Partition(FetchStep(s))
  {
    hide Rings;
    hide Stages;
    hide IsChain;
    FetchFinds(s);
    var t := FetchStep(s);
    StageOnly(s, t);
    forall b | b in t.requests ensures ReqOk(t, b) {
      assert ReqOk(s, b);
      assert Performed(s, b) ==> Performed(t, b);
    }
  }

  // Only the stage of a request has changed.
  lemma StageOnly(s: System, t: System)
    requires Partition(s) && t.q.free == s.q.free && t.q.desc == s.q.desc && Shaped(t.q) && t.requests.Keys == s.requests.Keys
    requires forall b :: b in s.requests ==> t.requests[b].chain == s.requests[b].chain
    ensures Partition(t)
  {
    forall i | 0 <= i < 8 && !t.q.free[i] ensures exists b :: b in t.requests && InChain(i, t.requests[b].chain) {
      var b :| b in s.requests && InChain(i, s.requests[b].chain);
      assert b in t.requests && InChain(i, t.requests[b].chain);
    }
  }

  // Heads other than h are where they were.
  lemma OtherHead(s: System, t: System, h: nat, was: Stage, x: nat, stage: Stage)
    requires Shaped(s.q) && Shaped(t.q) && h < 8 && HeadAt(s, h, was) && HeadAt(s, x, stage) && x != h
    requires forall i :: 0 <= i < 8 ==> t.q.info[i].b == s.q.info[i].b
    requires t.requests == SetStage(s, h, Fetched) || t.requests == SetStage(s, h, Used) || t.requests == SetStage(s, h, Seen)
    ensures HeadAt(t, x, stage)
  {
  }

  lemma FetchKeepsRings(s: System)
    requires Inv(s) && Enabled(s, Fetch)
    ensures Rings(FetchStep(s))
  {
    hide Ring;
    hide AllReqs;
    hide Partition;
    hide Stages;
    FetchFinds(s);
    RingPop(s.q.avail, s.offered, s.nAvail, s.fetchIdx, s.q.availIdx);
  }

  lemma FetchKeepsStages(s: System)
    requires Inv(s) && Enabled(s, Fetch)
    ensures Stages(FetchStep(s))
  {
    hide AllReqs;
    hide Partition;
    hide Rings;
    FetchFinds(s);
    var t, h := FetchStep(s), s.offered[0];
    forall x | x in t.offered ensures HeadAt(t, x, Offered) {
      TailDiffers(s.offered, x);
      OtherHead(s, t, h, Offered, x, Offered);
    }
    forall x | x in s.fetched ensures HeadAt(t, x, Fetched) { OtherHead(s, t, h, Offered, x, Fetched); }
    forall x | x in s.usedQ ensures HeadAt(t, x, Used) { OtherHead(s, t, h, Offered, x, Used); }
    forall b | b in t.requests && t.requests[b].stage == Offered ensures t.requests[b].chain.head in t.offered {
      OwnHead(s, b);
      NotFirst(s.offered, t.requests[b].chain.head);
    }
  }

  lemma OwnHead(s: System, b: nat)
    requires AllReqs(s) && b in s.requests
    ensures s.requests[b].chain.head < 8 && s.q.info[s.requests[b].chain.head].b == Some(b)
  {
    assert ReqOk(s, b);
  }

  lemma NotFirst(l: seq<nat>, x: nat)
    requires x in l && x != l[0]
    ensures x in l[1..]
  {
  }

  lemma TailDiffers(l: seq<nat>, x: nat)
    requires Distinct(l) && l != [] && x in l[1..]
    ensures x in l && x != l[0]
  {
  }

  // The chain is still there when only a status, a ring or an index has changed.
  lemma ChainFrame(q: Queue, q': Queue, c: Chain, b: nat, n: nat, write: bool)
    requires IsChain(q, c, b, n, write) && Shaped(q') && q'.desc == q.desc && q'.free == q.free && q'.ops == q.ops
    requires forall i :: 0 <= i < 8 ==> q'.info[i].b == q.info[i].b
    ensures IsChain(q', c, b, n, write) && c.head < 8
  {
  }

  // What the descriptors ask for is the request.
  lemma AskedIsRequest(s: System, b: nat)
    requires AllReqs(s) && b in s.requests
    ensures var r := s.requests[b];
            && r.chain.head < 8 && r.n in s.image && b in s.bufs
            && Asked(s, r.chain.head) == Some(Transfer(b, r.n, r.write, if r.write then s.bufs[b] else s.image[r.n]))
  {
    assert ReqOk(s, b);
  }

  lemma DoneKeepsReqs(s: System, h: nat)
    requires Inv(s) && Enabled(s, DeviceDone(h))
    ensures AllReqs(DoneStep(s, h)) && Partition(DoneStep(s, h))
  {
    hide Rings;
    hide Partition;
    hide IsChain;
    hide Asked;
    hide Performed;
    var t := DoneStep(s, h);
    assert HeadAt(s, h, Fetched);
    var b0 := s.q.info[h].b.value;
    AskedIsRequest(s, b0);
    StageOnly(s, t);
    forall b | b in t.requests ensures ReqOk(t, b) {
      assert ReqOk(s, b);
      ChainFrame(s.q, t.q, s.requests[b].chain, b, s.requests[b].n, s.requests[b].write);
      if b == b0 { NowPerformed(t, b, |s.transfers|); } else { KeepsPerformed(s, t, b); }
    }
  }

  lemma NowPerformed(t: System, b: nat, k: nat)
    requires b in t.requests && b in t.bufs && t.requests[b].since <= k < |t.transfers|
    requires t.transfers[k] == Transfer(b, t.requests[b].n, t.requests[b].write, t.bufs[b])
    ensures Performed(t, b)
  {
  }

  lemma KeepsPerformed(s: System, t: System, b: nat)
    requires b in s.requests && b in s.bufs && b in t.requests && b in t.bufs && t.bufs[b] == s.bufs[b]
    requires t.requests[b].since == s.requests[b].since && t.requests[b].n == s.requests[b].n
    requires t.requests[b].write == s.requests[b].write && s.transfers <= t.transfers
    ensures Performed(s, b) ==> Performed(t, b)
  {
    if Performed(s, b) {
      var r := s.requests[b];
      var k :| r.since <= k < |s.transfers| && s.transfers[k] == Transfer(b, r.n, r.write, s.bufs[b]);
      assert t.transfers[k] == s.transfers[k];
    }
  }

  lemma DoneKeepsStages(s: System, h: nat)
    requires Inv(s) && Enabled(s, DeviceDone(h))
    ensures Stages(DoneStep(s, h))
  {
    hide Partition;
    hide Rings;
    hide ReqOk;
    hide Asked;
    var t := DoneStep(s, h);
    assert HeadAt(s, h, Fetched);
    forall x | x in s.offered ensures HeadAt(t, x, Offered) { OtherHead(s, t, h, Fetched, x, Offered); }
    forall x | x in t.fetched ensures HeadAt(t, x, Fetched) { OtherHead(s, t, h, Fetched, x, Fetched); }
    forall x | x in s.usedQ ensures HeadAt(t, x, Used) && x != h { OtherHead(s, t, h, Fetched, x, Used); }
    DistinctPush(s.usedQ, h);
    forall b | b in t.requests && t.requests[b].stage == Fetched ensures t.requests[b].chain.head in t.fetched { OwnHead(s, b); }
  }

  lemma DoneKeepsRings(s: System, h: nat)
    requires Inv(s) && Enabled(s, DeviceDone(h))
    ensures Rings(DoneStep(s, h))
  {
    hide Ring;
    hide Partition;
    hide AllReqs;
    hide Asked;
    RoomToUse(s, h);
    RingPush(s.q.used, s.usedQ, s.nUsed, s.q.seen, s.q.usedIdx, h);
  }

  /** The used ring has room for the head that is done. */
  lemma RoomToUse(s: System, h: nat)
    requires Inv(s) && Enabled(s, DeviceDone(h))
    ensures |s.usedQ| < 8
  {
    hide Rings;
    hide Asked;
    assert HeadAt(s, h, Fetched);
    forall x | x in s.usedQ ensures x < 8 && x != h { assert HeadAt(s, x, Used); }
    DistinctPush(s.usedQ, h);
    AtMostEight(s.usedQ + [h]);
  }

  // ---- the interrupt -----------------------------------------------------------------------

  lemma InterruptFinds(s: System)
    requires Inv(s) && Enabled(s, Interrupt)
    ensures s.usedQ != [] && s.q.used[s.q.seen % 8] == s.usedQ[0] && HeadAt(s, s.usedQ[0], Used)
    ensures s.q.info[s.usedQ[0]].status == 0
  {
    hide Ring;
    hide Partition;
    OfferedFew(s);
    RingEmpty(s.q.used, s.usedQ, s.nUsed, s.q.seen, s.q.usedIdx);
    RingPop(s.q.used, s.usedQ, s.nUsed, s.q.seen, s.q.usedIdx);
    assert s.usedQ[0] in s.usedQ;
    assert ReqOk(s, s.q.info[s.usedQ[0]].b.value);
  }

  lemma InterruptKeepsReqs(s: System)
    requires Inv(s) && Enabled(s, Interrupt)
    ensures InterruptStep(s).Next? && AllReqs(InterruptStep(s).s) && Partition(InterruptStep(s).s)
  {
    hide Rings;
    hide Stages;
    hide Partition;
    hide IsChain;
    hide Performed;
    InterruptFinds(s);
    var t := InterruptStep(s).s;
    StageOnly(s, t);
    forall b | b in t.requests ensures ReqOk(t, b) {
      assert ReqOk(s, b);
      ChainFrame(s.q, t.q, s.requests[b].chain, b, s.requests[b].n, s.requests[b].write);
      KeepsPerformed(s, t, b);
    }
  }

  lemma InterruptKeepsStages(s: System)
    requires Inv(s) && Enabled(s, Interrupt)
    ensures InterruptStep(s).Next? && Stages(InterruptStep(s).s)
  {
    hide Partition;
    hide Rings;
    hide ReqOk;
    InterruptFinds(s);
    var t, h := InterruptStep(s).s, s.usedQ[0];
    forall x | x in s.offered ensures HeadAt(t, x, Offered) { OtherHead(s, t, h, Used, x, Offered); }
    forall x | x in s.fetched ensures HeadAt(t, x, Fetched) { OtherHead(s, t, h, Used, x, Fetched); }
    forall x | x in t.usedQ ensures HeadAt(t, x, Used) {
      TailDiffers(s.usedQ, x);
      OtherHead(s, t, h, Used, x, Used);
    }
    forall b | b in t.requests && t.requests[b].stage == Used ensures t.requests[b].chain.head in t.usedQ {
      OwnHead(s, b);
      NotFirst(s.usedQ, t.requests[b].chain.head);
    }
  }

  lemma InterruptKeepsRings(s: System)
    requires Inv(s) && Enabled(s, Interrupt)
    ensures InterruptStep(s).Next? && Rings(InterruptStep(s).s)
  {
    hide Ring;
    hide Partition;
    hide AllReqs;
    hide Stages;
    InterruptFinds(s);
    RingPop(s.q.used, s.usedQ, s.nUsed, s.q.seen, s.q.usedIdx);
  }

  // ---- returning ---------------------------------------------------------------------------

  // The queue after the rest of virtio_disk_rw, for a request whose chain is c.
  ghost function AfterReturn(q: Queue, c: Chain): Queue
    requires Shaped(q) && c.head < 8 && c.mid < 8 && c.tail < 8
  {
    Released(q.(info := q.info[c.head := q.info[c.head].(b := None)]), c)
  }

  lemma ReturnFrees(s: System, b: nat)
    requires AllReqs(s) && Enabled(s, Return(b))
    ensures var c := s.requests[b].chain;
            && c.head < 8 && c.mid < 8 && c.tail < 8
            && ReturnStep(s, b) == Next(s.(q := AfterReturn(s.q, c), requests := s.requests - {b}))
  {
    assert ReqOk(s, b);
    var r := s.requests[b];
    var q := s.q.(info := s.q.info[r.chain.head := s.q.info[r.chain.head].(b := None)]);
    FreeChainFrees(q, r.chain, b, r.write);
  }

  lemma ChainUntouched(q: Queue, c: Chain, d: Chain, b: nat, n: nat, write: bool)
    requires IsChain(q, d, b, n, write) && c.head < 8 && c.mid < 8 && c.tail < 8
    requires forall i :: InChain(i, c) ==> !InChain(i, d)
    ensures IsChain(AfterReturn(q, c), d, b, n, write) && AfterReturn(q, c).info[d.head] == q.info[d.head]
  {
    assert InChain(d.head, d) && InChain(d.mid, d) && InChain(d.tail, d);
    assert InChain(c.head, c) && InChain(c.mid, c) && InChain(c.tail, c);
  }

  lemma ReturnKeepsReqs(s: System, b: nat)
    requires Inv(s) && Enabled(s, Return(b))
    ensures ReturnStep(s, b).Next? && AllReqs(ReturnStep(s, b).s) && Partition(ReturnStep(s, b).s)
  {
    hide Rings;
    hide Stages;
    hide IsChain;
    hide ReturnStep;
    hide Performed;
    ReturnFrees(s, b);
    var t, c := ReturnStep(s, b).s, s.requests[b].chain;
    forall b' | b' in t.requests ensures ReqOk(t, b') {
      assert ReqOk(s, b');
      var r := s.requests[b'];
      ChainUntouched(s.q, c, r.chain, b', r.n, r.write);
      KeepsPerformed(s, t, b');
    }
    forall i | 0 <= i < 8 && !t.q.free[i] ensures exists b' :: b' in t.requests && InChain(i, t.requests[b'].chain) {
      var b' :| b' in s.requests && InChain(i, s.requests[b'].chain);
      assert b' in t.requests && InChain(i, t.requests[b'].chain);
    }
  }

  lemma ReturnKeepsStages(s: System, b: nat)
    requires Inv(s) && Enabled(s, Return(b))
    ensures ReturnStep(s, b).Next? && Stages(ReturnStep(s, b).s) && Rings(ReturnStep(s, b).s)
  {
    hide Ring;
    hide Partition;
    hide IsChain;
    hide ReturnStep;
    hide Performed;
    ReturnFrees(s, b);
    assert ReqOk(s, b);
    OwnHead(s, b);
    var t := ReturnStep(s, b).s;
    forall h, stage | HeadAt(s, h, stage) && stage != Seen ensures HeadAt(t, h, stage) {
    }
  }

  // ---- runs --------------------------------------------------------------------------------

  lemma StepKeepsInv(s: System, step: Step)
    requires Inv(s) && Enabled(s, step)
    ensures Do(s, step).Next? && Inv(Do(s, step).s)
  {
    hide AllReqs;
    hide Partition;
    hide Rings;
    hide Stages;
    match step
    case Start(b, n, write, data) =>
      StartKeepsReqs(s, b, n, write, data);
      StartKeepsPartition(s, b, n, write, data);
      StartKeepsStages(s, b, n, write, data);
      StartKeepsRings(s, b, n, write, data);
    case Fetch =>
      FetchKeepsReqs(s);
      FetchKeepsStages(s);
      FetchKeepsRings(s);
    case DeviceDone(h) =>
      DoneKeepsReqs(s, h);
      DoneKeepsStages(s, h);
      DoneKeepsRings(s, h);
    case Interrupt =>
      InterruptKeepsReqs(s);
      InterruptKeepsStages(s);
      InterruptKeepsRings(s);
    case Return(b) =>
      ReturnKeepsReqs(s, b);
      ReturnKeepsStages(s, b);
  }

  // virtio_disk_init: everything is free and both rings are empty.
  ghost function Boot(image: map<nat, Block>): System {
    System(Queue(seq(8, i => EmptyDesc), seq(8, i => true), seq(8, i => Op(false, 0)), seq(8, i => Info(None, 0)),
                 seq(8, i => 0), 0, seq(8, i => 0), 0, 0),
           {}, map[], image, 0, map[], [], {}, [], 0, 0, [])
  }

  lemma BootInv(image: map<nat, Block>)
    ensures Inv(Boot(image))
  {
  }

  ghost predicate IsRun(image: map<nat, Block>, run: seq<System>, steps: seq<Step>) {
    && |run| == |steps| + 1 && run[0] == Boot(image)
    && forall i :: 0 <= i < |steps| ==> Leads(run[i], steps[i], run[i + 1])
  }

  ghost predicate Leads(s: System, step: Step, t: System) {
    Enabled(s, step) && (Do(s, step).Next? ==> t == Do(s, step).s)
  }

  lemma {:induction false} RunsKeepInv(image: map<nat, Block>, run: seq<System>, steps: seq<Step>, i: nat)
    requires IsRun(image, run, steps) && i < |run|
    ensures Inv(run[i])
  {
    hide Inv;
    hide Do;
    if i == 0 {
      BootInv(image);
    } else {
      RunsKeepInv(image, run, steps, i - 1);
      assert Leads(run[i - 1], steps[i - 1], run[i]);
      StepKeepsInv(run[i - 1], steps[i - 1]);
    }
  }

  /** In every state of every run, whatever the order in which the device completes requests: each
      descriptor is free or in the chain of exactly one request; neither ring holds more than NUM
      entries, however often its 16-bit index has wrapped; and no step panics. */
  lemma QueueIsSound(image: map<nat, Block>, run: seq<System>, steps: seq<Step>, i: nat, d: nat)
    requires IsRun(image, run, steps) && i < |run| && d < NUM
    ensures |run[i].q.free| == NUM
    ensures !run[i].q.free[d] <==> exists b :: b in run[i].requests && InChain(d, run[i].requests[b].chain)
    ensures forall b, c :: b in run[i].requests && c in run[i].requests ==>
              InChain(d, run[i].requests[b].chain) && InChain(d, run[i].requests[c].chain) ==> b == c
    ensures |run[i].offered| <= NUM && |run[i].usedQ| <= NUM
    ensures i < |steps| ==> Enabled(run[i], steps[i]) && Do(run[i], steps[i]).Next?
  {
    hide IsRun;
    hide Rings;
    hide Stages;
    hide AllReqs;
    hide Do;
    hide Enabled;
    RunsKeepInv(image, run, steps, i);
    OfferedFew(run[i]);
    if b :| b in run[i].requests && InChain(d, run[i].requests[b].chain) { ChainIsTaken(run[i], b, d); }
    RunStep(image, run, steps, i);
  }

  lemma ChainIsTaken(s: System, b: nat, d: nat)
    requires AllReqs(s) && b in s.requests && InChain(d, s.requests[b].chain)
    ensures d < 8 && !s.q.free[d]
  {
    hide Performed;
    assert ReqOk(s, b);
  }

  lemma RunStep(image: map<nat, Block>, run: seq<System>, steps: seq<Step>, i: nat)
    requires IsRun(image, run, steps) && i < |run|
    ensures i < |steps| ==> Enabled(run[i], steps[i]) && Do(run[i], steps[i]).Next?
  {
    hide Inv;
    hide Do;
    RunsKeepInv(image, run, steps, i);
    if i < |steps| {
      assert Leads(run[i], steps[i], run[i + 1]);
      StepKeepsInv(run[i], steps[i]);
    }
  }

  /** virtio_disk_rw returns only after the device has carried out this very request, after it was
      made: for the right block, in the right direction, and with the data that the buffer now
      holds. */
  lemma ReturnsWhenDone(image: map<nat, Block>, run: seq<System>, steps: seq<Step>, i: nat)
    requires IsRun(image, run, steps) && i < |steps| && steps[i].Return?
    ensures steps[i].b in run[i].requests && steps[i].b in run[i].bufs && Performed(run[i], steps[i].b)
  {
    hide Do;
    RunsKeepInv(image, run, steps, i);
    assert Leads(run[i], steps[i], run[i + 1]);
    assert ReqOk(run[i], steps[i].b);
  }

  // ---- the disk ----------------------------------------------------------------------------

  // The disk after these transfers.
  ghost function Replayed(image: map<nat, Block>, transfers: seq<Transfer>): map<nat, Block> {
    if transfers == [] then image
    else
      var x, m := transfers[|transfers| - 1], Replayed(image, transfers[..|transfers| - 1]);
      if x.write then m[x.n := x.data] else m
  }

  // The transfer delivers what the disk holds after the ones before it.
  ghost predicate Delivers(image: map<nat, Block>, transfers: seq<Transfer>, k: nat)
    requires k < |transfers|
  {
    var x, m := transfers[k], Replayed(image, transfers[..k]);
    !x.write ==> x.n in m && x.data == m[x.n]
  }

  ghost predicate DiskIs(image: map<nat, Block>, s: System) {
    && s.image == Replayed(image, s.transfers)
    && forall k :: 0 <= k < |s.transfers| ==> Delivers(image, s.transfers, k)
  }

  lemma TransferDone(image: map<nat, Block>, s: System, h: nat)
    requires Enabled(s, DeviceDone(h)) && DiskIs(image, s)
    ensures DiskIs(image, DoneStep(s, h))
  {
    var t := DoneStep(s, h);
    assert t.transfers[..|s.transfers|] == s.transfers;
    forall k | 0 <= k < |t.transfers| ensures Delivers(image, t.transfers, k) {
      if k < |s.transfers| {
        assert Delivers(image, s.transfers, k);
        assert t.transfers[..k] == s.transfers[..k];
      }
    }
  }

  lemma OthersKeepDisk(s: System, step: Step)
    requires Enabled(s, step) && !step.DeviceDone? && Do(s, step).Next?
    ensures Do(s, step).s.image == s.image && Do(s, step).s.transfers == s.transfers
  {
    hide Alloc3;
    hide FreeChain;
  }

  /** Reads see writes: in every state of every run the disk is what it was at first with the data of
      every write the device has carried out, in that order, and every read has delivered what the
      disk held after the transfers before it. */
  lemma {:induction false} ReadsSeeWrites(image: map<nat, Block>, run: seq<System>, steps: seq<Step>, i: nat)
    requires IsRun(image, run, steps) && i < |run|
    ensures DiskIs(image, run[i])
  {
    hide Do;
    hide DiskIs;
    if i == 0 {
      BootDisk(image);
    } else {
      ReadsSeeWrites(image, run, steps, i - 1);
      RunStep(image, run, steps, i - 1);
      assert Leads(run[i - 1], steps[i - 1], run[i]);
      if steps[i - 1].DeviceDone? {
        TransferDone(image, run[i - 1], steps[i - 1].h);
        DoneIs(run[i - 1], steps[i - 1].h);
      } else {
        OthersKeepDisk(run[i - 1], steps[i - 1]);
        SameDisk(image, run[i - 1], run[i]);
      }
    }
  }

  lemma BootDisk(image: map<nat, Block>)
    ensures DiskIs(image, Boot(image))
  {
  }

  lemma DoneIs(s: System, h: nat)
    requires Enabled(s, DeviceDone(h))
    ensures Do(s, DeviceDone(h)) == Next(DoneStep(s, h))
  {
  }

  lemma SameDisk(image: map<nat, Block>, s: System, t: System)
    requires DiskIs(image, s) && t.image == s.image && t.transfers == s.transfers
    ensures DiskIs(image, t)
  {
  }
}
