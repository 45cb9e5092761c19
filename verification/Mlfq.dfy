/** mlfq_scheduler.c: four queues with time slices of 1, 4, 8 and 16 ticks, and a boost every 48. */
module Mlfq {

  const NPROC: nat := 64
  const QUEUE_COUNT: nat := 4
  const BOOST_INTERVAL: nat := 48

  // queue_time_slices.
  function Limit(queue: nat): (n: nat)
    ensures n > 0
  {
    if queue == 0 then 1 else if queue == 1 then 4 else if queue == 2 then 8 else 16
  }

  // A slot of the process table; `ready` when its state is RUNNABLE.
  datatype Slot = Slot(ready: bool, queue: nat, slice: int)

  // ticks is 32-bit, and last_boost 64-bit.
  datatype Sched = Sched(slots: seq<Slot>, ticks: nat, lastBoost: nat)

  ghost predicate Shaped(s: Sched) { |s.slots| == 64 && s.ticks < 0x1_0000_0000 && s.lastBoost < 0x1_0000_0000 }

  function Advance(ticks: nat, n: nat): nat { (ticks + n) % 0x1_0000_0000 }

  // ticks - last_boost >= BOOST_INTERVAL, in 64-bit arithmetic.
  predicate BoostDue(ticks: nat, lastBoost: nat) { (ticks - lastBoost) % 0x1_0000_0000_0000_0000 >= 48 }

  // A slot after a boost.
  function Raised(p: Slot): Slot { if p.ready then Slot(true, 0, 1) else p }

  ghost function Boosted(s: Sched): (t: Sched)
    requires Shaped(s)
    ensures Shaped(t)
  {
    if BoostDue(s.ticks, s.lastBoost) then Sched(seq(64, i requires 0 <= i < 64 => Raised(s.slots[i])), s.ticks, s.ticks) else s
  }

  // The first ready slot of queue q from i on; 64 if there is none.
  ghost function FirstIn(slots: seq<Slot>, q: nat, i: nat): (r: nat)
    requires i <= |slots|
    ensures i <= r <= |slots| && (r < |slots| ==> slots[r].ready && slots[r].queue == q)
    ensures forall k :: i <= k < r ==> !(slots[k].ready && slots[k].queue == q)
    decreases |slots| - i
  {
    if i == |slots| || (slots[i].ready && slots[i].queue == q) then i else FirstIn(slots, q, i + 1)
  }

  // The slot that is selected, from queue q on; 64 if there is none.
  ghost function Select(slots: seq<Slot>, q: nat): (r: nat)
    requires |slots| == 64 && q <= 4
    ensures r <= 64 && (r < 64 ==> slots[r].ready && q <= slots[r].queue < 4)
    decreases 4 - q
  {
    if q == 4 then 64
    else if FirstIn(slots, q, 0) < 64 then FirstIn(slots, q, 0)
    else Select(slots, q + 1)
  }

  /** The selected slot is the first of its queue, and no ready slot is in a higher queue; nothing is
      selected exactly when no queue holds a ready slot. */
  lemma {:induction false} SelectIsBest(slots: seq<Slot>, q: nat)
    requires |slots| == 64 && q <= 4
    ensures var r := Select(slots, q);
            forall k :: 0 <= k < 64 && slots[k].ready && q <= slots[k].queue < 4 ==>
              r < 64 && (slots[r].queue < slots[k].queue || (slots[r].queue == slots[k].queue && r <= k))
    decreases 4 - q
  {
    if q < 4 { SelectIsBest(slots, q + 1); }
  }

  // time_slice -= elapsed: the 64-bit difference becomes a 32-bit int again.
  function Less(slice: int, elapsed: nat): int {
    var d := (slice - elapsed) % 0x1_0000_0000;
    if d >= 0x8000_0000 then d - 0x1_0000_0000 else d
  }

  // After a turn of `elapsed` ticks.
  function Charged(p: Slot, elapsed: nat): Slot {
    if Less(p.slice, elapsed) <= 0 then
      var q := if p.queue < 3 then p.queue + 1 else p.queue;
      Slot(p.ready, q, Limit(q))
    else p.(slice := Less(p.slice, elapsed))
  }

  // One round of the scheduler's loop, where the selected process runs for `elapsed` ticks.
  ghost function Round(s: Sched, elapsed: nat): (t: Sched)
    requires Shaped(s)
    ensures Shaped(t)
  {
    var b := Boosted(s);
    var r := Select(b.slots, 0);
    if r == 64 then b
    else b.(slots := b.slots[r := Charged(b.slots[r], elapsed)], ticks := Advance(b.ticks, elapsed))
  }

  ghost function Chosen(s: Sched): nat
    requires Shaped(s)
  {
    Select(Boosted(s).slots, 0)
  }

  // ---- slices ------------------------------------------------------------------------------

  ghost predicate SlotOk(p: Slot) { p.queue < 4 && 1 <= p.slice <= Limit(p.queue) }

  ghost predicate AllOk(s: Sched) { Shaped(s) && forall i :: 0 <= i < 64 ==> SlotOk(s.slots[i]) }

  // What happens around the scheduler: other changes of state, new processes, and the clock.
  datatype Event = Turn(elapsed: nat) | Change(i: nat, ready: bool) | Fresh(i: nat) | Clock(n: nat)

  // A turn is shorter than 2^31 ticks; ChargedOkIff says what becomes of longer ones.
  ghost predicate Possible(s: Sched, e: Event) {
    Shaped(s) && (e.Change? || e.Fresh? ==> e.i < 64) && (e.Turn? ==> e.elapsed < 0x8000_0000)
  }

  ghost function After(s: Sched, e: Event): Sched
    requires Possible(s, e)
  {
    match e
    case Turn(elapsed) => Round(s, elapsed)
    case Change(i, ready) => s.(slots := s.slots[i := s.slots[i].(ready := ready)])
    case Fresh(i) => s.(slots := s.slots[i := Slot(false, 0, 1)])
    case Clock(n) => s.(ticks := Advance(s.ticks, n))
  }

  /** A turn leaves a valid slice exactly when it is not so long that the difference wraps to a positive
      number beyond the limit. */
  lemma ChargedOkIff(p: Slot, elapsed: nat)
    requires SlotOk(p) && elapsed < 0x1_0000_0000
    ensures SlotOk(Charged(p, elapsed)) <==>
            elapsed <= p.slice + 0x8000_0000 || elapsed >= 0x1_0000_0000 + p.slice - Limit(p.queue)
  {
    if elapsed <= p.slice + 0x8000_0000 {
      assert -0x8000_0000 <= p.slice - elapsed < 0x8000_0000;
      assert Less(p.slice, elapsed) == p.slice - elapsed;
    } else {
      assert Less(p.slice, elapsed) == p.slice - elapsed + 0x1_0000_0000;
    }
  }

  lemma RoundKeepsOk(s: Sched, elapsed: nat)
    requires AllOk(s) && elapsed < 0x8000_0000
    ensures AllOk(Boosted(s)) && AllOk(Round(s, elapsed))
  {
    hide Select;
    var b := Boosted(s);
    forall i | 0 <= i < 64 ensures SlotOk(b.slots[i]) { assert SlotOk(s.slots[i]); }
    var r := Select(b.slots, 0);
    if r < 64 {
      assert SlotOk(b.slots[r]);
      ChargedOkIff(b.slots[r], elapsed);
    }
  }

  ghost predicate IsHistory(run: seq<Sched>, events: seq<Event>) {
    && |run| == |events| + 1 && AllOk(run[0])
    && forall i :: 0 <= i < |events| ==> Leads(run[i], events[i], run[i + 1])
  }

  ghost predicate Leads(s: Sched, e: Event, t: Sched) { Possible(s, e) && t == After(s, e) }

  lemma {:induction false} HistoryKeepsOk(run: seq<Sched>, events: seq<Event>, i: nat)
    requires IsHistory(run, events) && i < |run|
    ensures AllOk(run[i])
  {
    if i > 0 {
      hide Round;
      HistoryKeepsOk(run, events, i - 1);
      assert Leads(run[i - 1], events[i - 1], run[i]);
      EventKeepsOk(run[i - 1], events[i - 1]);
    }
  }

  lemma EventKeepsOk(s: Sched, e: Event)
    requires AllOk(s) && Possible(s, e)
    ensures AllOk(After(s, e))
  {
    hide Round;
    if e.Turn? { RoundKeepsOk(s, e.elapsed); }
  }

  /** Whatever processes come, go, sleep and wake, and for turns of any length below 2^31 ticks, every
      decision sees a valid queue and a time slice between 1 and that queue's limit. */
  lemma DecisionsAreValid(run: seq<Sched>, events: seq<Event>, i: nat)
    requires IsHistory(run, events) && i < |events| && events[i].Turn?
    ensures Shaped(run[i]) && (Chosen(run[i]) < 64 ==>
              var p := Boosted(run[i]).slots[Chosen(run[i])];
              p.ready && p.queue < QUEUE_COUNT && 1 <= p.slice <= Limit(p.queue))
  {
    hide Round;
    hide After;
    hide Select;
    HistoryKeepsOk(run, events, i);
    RoundKeepsOk(run[i], 0);
    if Chosen(run[i]) < 64 { assert SlotOk(Boosted(run[i]).slots[Chosen(run[i])]); }
  }

  // ---- a fixed set of processes, one tick a turn -------------------------------------------

  // live lists the slots that are always ready, in table order.
  ghost predicate Lists(live: seq<nat>, slots: seq<Slot>) {
    && |slots| == 64 && (forall r :: 0 <= r < |live| ==> live[r] < 64)
    && (forall r, r' :: 0 <= r < r' < |live| ==> live[r] < live[r'])
    && (forall i :: 0 <= i < 64 ==> (slots[i].ready <==> i in live))
  }

  // k turns after a boost at tick b: the first k processes have run and left queue 0, the others are
  // still there with a full slice.
  ghost predicate Turned(s: Sched, live: seq<nat>, b: nat, k: nat) {
    && AllOk(s) && Lists(live, s.slots) && s.lastBoost == b && s.ticks == b + k
    && (forall r :: 0 <= r < |live| && r < k ==> s.slots[live[r]].queue > 0)
    && (forall r :: k <= r < |live| ==> s.slots[live[r]].queue == 0 && s.slots[live[r]].slice == 1)
  }

  ghost predicate IsTurns(run: seq<Sched>) {
    |run| > 0 && forall i :: 0 <= i < |run| - 1 ==> Turns(run[i], run[i + 1])
  }

  ghost predicate Turns(s: Sched, t: Sched) { Shaped(s) && t == Round(s, 1) }

  // The turns from a boost at tick b to the next: 48, or fewer when ticks wraps before.
  function Period(b: nat): (n: nat)
    ensures n <= 48 && (b < 0x1_0000_0000 ==> 0 < n && b + n <= 0x1_0000_0000)
  {
    if b + 48 <= 0x1_0000_0000 then 48 else if b < 0x1_0000_0000 then 0x1_0000_0000 - b else 0
  }

  // When the next boost is due.
  lemma DueAfterPeriod(b: nat, k: nat)
    requires b < 0x1_0000_0000 && k <= Period(b)
    ensures BoostDue(Advance(b, k), b) <==> k == Period(b)
    ensures k < Period(b) ==> Advance(b, k) == b + k
  {
  }

  lemma BoostListed(s: Sched, live: seq<nat>)
    requires AllOk(s) && Lists(live, s.slots) && BoostDue(s.ticks, s.lastBoost)
    ensures Turned(Boosted(s), live, s.ticks, 0)
  {
    RoundKeepsOk(s, 0);
    forall r | 0 <= r < |live| ensures Boosted(s).slots[live[r]] == Slot(true, 0, 1) { assert live[r] in live; }
  }

  lemma PicksNext(s: Sched, live: seq<nat>, b: nat, k: nat)
    requires Turned(s, live, b, k) && k < |live|
    ensures Select(s.slots, 0) == live[k]
  {
    assert live[k] in live;
    forall i | 0 <= i < live[k] ensures !(s.slots[i].ready && s.slots[i].queue == 0) {
      if i in live {
        var r :| 0 <= r < |live| && live[r] == i;
        assert r < k;
      }
    }
  }

  lemma PicksSome(s: Sched, live: seq<nat>)
    requires AllOk(s) && Lists(live, s.slots) && live != []
    ensures Select(s.slots, 0) < 64
  {
    hide Select;
    SelectIsBest(s.slots, 0);
    assert live[0] in live && SlotOk(s.slots[live[0]]);
  }

  lemma StillFirst(s: Sched, live: seq<nat>, b: nat, k: nat, r: nat)
    requires Turned(s, live, b, k) && k < r < |live|
    ensures live[r] != Select(s.slots, 0)
  {
    hide Select;
    PicksNext(s, live, b, k);
  }

  // What one turn in a period does: the next process runs, if there is one that has not yet.
  lemma TurnInPeriod(s: Sched, live: seq<nat>, b: nat, k: nat)
    requires Turned(s, live, b, k) && k < Period(b) && live != []
    ensures k < |live| ==> Chosen(s) == live[k]
    ensures k + 1 < Period(b) ==> Turned(Round(s, 1), live, b, k + 1)
    ensures k + 1 == Period(b) ==> BoostDue(Round(s, 1).ticks, b) && Round(s, 1).lastBoost == b
    ensures AllOk(Round(s, 1)) && Lists(live, Round(s, 1).slots)
  {
    hide Select;
    hide BoostDue;
    DueAfterPeriod(b, k);
    DueAfterPeriod(b, k + 1);
    assert Boosted(s) == s;
    RoundKeepsOk(s, 1);
    PicksSome(s, live);
    if k < |live| { PicksNext(s, live, b, k); }
    var t := Round(s, 1);
    forall r | k + 1 <= r < |live| ensures t.slots[live[r]] == s.slots[live[r]] { StillFirst(s, live, b, k, r); }
  }

  // A round that begins with a boost is the round after that boost.
  lemma BoostFirst(s: Sched)
    requires Shaped(s) && BoostDue(s.ticks, s.lastBoost)
    ensures Round(Boosted(s), 1) == Round(s, 1) && Chosen(Boosted(s)) == Chosen(s)
  {
    hide Select;
    DueAfterPeriod(s.ticks, 0);
    assert Boosted(Boosted(s)) == Boosted(s);
  }

  // The state k turns into the period: for the first turn, after its boost.
  ghost function InPeriod(run: seq<Sched>, i: nat, k: nat): Sched
    requires i + k < |run| && Shaped(run[i])
  {
    if k == 0 then Boosted(run[i]) else run[i + k]
  }

  lemma {:induction false} PeriodGoesOn(run: seq<Sched>, live: seq<nat>, i: nat, k: nat)
    requires IsTurns(run) && live != [] && i + k < |run| && AllOk(run[i]) && Lists(live, run[i].slots)
    requires BoostDue(run[i].ticks, run[i].lastBoost) && k < Period(run[i].ticks)
    ensures Turned(InPeriod(run, i, k), live, run[i].ticks, k)
  {
    hide Turned;
    hide Round;
    hide BoostDue;
    if k == 0 {
      BoostListed(run[i], live);
    } else {
      PeriodGoesOn(run, live, i, k - 1);
      TurnInPeriod(InPeriod(run, i, k - 1), live, run[i].ticks, k - 1);
      assert Turns(run[i + k - 1], run[i + k]);
      if k == 1 { BoostFirst(run[i]); }
    }
  }

  // The k-th turn of a period runs the k-th process.
  lemma ChosenInPeriod(run: seq<Sched>, live: seq<nat>, i: nat, k: nat)
    requires IsTurns(run) && i + k < |run| && AllOk(run[i]) && Lists(live, run[i].slots)
    requires BoostDue(run[i].ticks, run[i].lastBoost) && k < Period(run[i].ticks) && k < |live|
    ensures AllOk(run[i + k]) && Chosen(run[i + k]) == live[k]
    ensures k > 0 ==> !BoostDue(run[i + k].ticks, run[i + k].lastBoost)
  {
    hide Round;
    hide Chosen;
    PeriodGoesOn(run, live, i, k);
    TurnInPeriod(InPeriod(run, i, k), live, run[i].ticks, k);
    DueAfterPeriod(run[i].ticks, k);
    if k == 0 { BoostFirst(run[i]); }
  }

  ghost predicate Runs(run: seq<Sched>, i: nat, k: nat, p: nat) { i + k < |run| && Shaped(run[i + k]) && Chosen(run[i + k]) == p }

  ghost predicate RunsWithin(run: seq<Sched>, i: nat, n: nat, p: nat) { exists k :: 0 <= k < n && Runs(run, i, k, p) }

  ghost predicate Due(run: seq<Sched>, i: nat, k: nat) { i + k < |run| && BoostDue(run[i + k].ticks, run[i + k].lastBoost) }

  /** From a boost to the next: it is due again after exactly Period turns and not before, and in
      between every one of the always-ready processes runs at least once if and only if there are no
      more of them than turns, 48 unless ticks wraps around. */
  lemma AllRunBetweenBoosts(run: seq<Sched>, live: seq<nat>, i: nat)
    requires IsTurns(run) && i < |run| && live != [] && AllOk(run[i]) && Lists(live, run[i].slots)
    requires i + Period(run[i].ticks) < |run| && BoostDue(run[i].ticks, run[i].lastBoost)
    ensures forall k :: 0 < k <= Period(run[i].ticks) ==> (Due(run, i, k) <==> k == Period(run[i].ticks))
    ensures (forall r :: 0 <= r < |live| ==> RunsWithin(run, i, Period(run[i].ticks), live[r]))
            <==> |live| <= Period(run[i].ticks)
  {
    hide Round;
    hide Chosen;
    hide Turned;
    hide BoostDue;
    hide Lists;
    var n := Period(run[i].ticks);
    forall k | 0 < k <= n ensures Due(run, i, k) <==> k == n { DueIn(run, live, i, k); }
    if |live| <= n {
      forall r | 0 <= r < |live| ensures RunsWithin(run, i, n, live[r]) {
        ChosenInPeriod(run, live, i, r);
        assert Runs(run, i, r, live[r]);
      }
    } else {
      forall k | 0 <= k < n ensures !Runs(run, i, k, live[n]) {
        ChosenInPeriod(run, live, i, k);
        Different(live, run[i].slots, k, n);
      }
      assert !RunsWithin(run, i, n, live[n]);
    }
  }

  lemma Different(live: seq<nat>, slots: seq<Slot>, r: nat, r': nat)
    requires Lists(live, slots) && r < r' < |live|
    ensures live[r] != live[r']
  {
  }

  lemma DueIn(run: seq<Sched>, live: seq<nat>, i: nat, k: nat)
    requires IsTurns(run) && i < |run| && live != [] && AllOk(run[i]) && Lists(live, run[i].slots)
    requires i + k < |run| && BoostDue(run[i].ticks, run[i].lastBoost) && 0 < k <= Period(run[i].ticks)
    ensures Due(run, i, k) <==> k == Period(run[i].ticks)
  {
    hide Round;
    hide Lists;
    hide BoostDue;
    PeriodGoesOn(run, live, i, k - 1);
    TurnInPeriod(InPeriod(run, i, k - 1), live, run[i].ticks, k - 1);
    assert Turns(run[i + k - 1], run[i + k]);
    if k == 1 { BoostFirst(run[i]); }
    if k < Period(run[i].ticks) { DueAfterPeriod(run[i].ticks, k); }
  }

  // ---- starvation --------------------------------------------------------------------------

  // A boost is due, or the last one was fewer turns ago than its period.
  ghost predicate Going(s: Sched, live: seq<nat>) {
    && AllOk(s) && Lists(live, s.slots)
    && (BoostDue(s.ticks, s.lastBoost) || (s.lastBoost <= s.ticks && s.ticks - s.lastBoost < Period(s.lastBoost)
                                          && Turned(s, live, s.lastBoost, s.ticks - s.lastBoost)))
  }

  lemma GoesOn(s: Sched, live: seq<nat>, r: nat)
    requires Going(s, live) && 48 <= r < |live|
    ensures Going(Round(s, 1), live) && Chosen(s) != live[r]
  {
    hide Select;
    hide BoostDue;
    var u := if BoostDue(s.ticks, s.lastBoost) then Boosted(s) else s;
    if BoostDue(s.ticks, s.lastBoost) {
      BoostListed(s, live);
      BoostFirst(s);
    }
    var k := u.ticks - u.lastBoost;
    TurnInPeriod(u, live, u.lastBoost, k);
    Different(live, s.slots, k, r);
  }

  /** With more than 48 always-ready processes, those behind the first 48 in the table never run once
      there has been a boost. */
  lemma {:induction false} LateOnesStarve(run: seq<Sched>, live: seq<nat>, i: nat, j: nat, r: nat)
    requires IsTurns(run) && i <= j < |run| && AllOk(run[i]) && Lists(live, run[i].slots)
    requires BoostDue(run[i].ticks, run[i].lastBoost) && 48 <= r < |live|
    ensures Going(run[j], live) && Chosen(run[j]) != live[r]
    decreases j
  {
    hide Turned;
    hide Round;
    hide Chosen;
    if j > i {
      LateOnesStarve(run, live, i, j - 1, r);
      assert Turns(run[j - 1], run[j]);
      GoesOn(run[j - 1], live, r);
    }
    GoesOn(run[j], live, r);
  }

  // ---- what one round does -----------------------------------------------------------------

  // A slot that does not run: a ready one starts anew when the boost is due.
  ghost predicate Waits(p: Slot, due: bool, p': Slot) {
    p' == if due && p.ready then Slot(true, 0, 1) else p
  }

  // The slot that runs for `elapsed` ticks with a slice of n ticks in queue q: one queue down with that
  // queue's slice when the slice is used up, and otherwise that much of the slice less.
  ghost predicate Ran(q: nat, n: int, elapsed: nat, p': Slot) {
    && p'.ready
    && (elapsed >= n ==>
          && p'.queue == (if q == 3 then 3 else q + 1)
          && p'.slice == (if q == 0 then 4 else if q == 1 then 8 else 16))
    && (elapsed < n ==> p'.queue == q && p'.slice == n - elapsed)
  }

  lemma ChargedRan(p: Slot, elapsed: nat)
    requires SlotOk(p) && p.ready && elapsed < 0x8000_0000
    ensures Ran(p.queue, p.slice, elapsed, Charged(p, elapsed))
  {
    assert -0x8000_0000 <= p.slice - elapsed < 0x8000_0000;
    assert Less(p.slice, elapsed) == p.slice - elapsed;
  }

  // The slot that is picked: the first ready one of the highest queue, all counting as queue 0 when the
  // boost is due; 64 when nobody is ready.
  ghost predicate Picks(slots: seq<Slot>, due: bool, r: nat)
    requires |slots| == 64
  {
    && (r == 64 ==> forall k :: 0 <= k < 64 ==> !slots[k].ready)
    && (r != 64 ==> r < 64 && slots[r].ready && forall k :: 0 <= k < 64 && slots[k].ready ==> NotBehind(slots, due, r, k))
  }

  ghost predicate NotBehind(slots: seq<Slot>, due: bool, r: nat, k: nat)
    requires r < |slots| && k < |slots|
  {
    if due then r <= k else slots[r].queue < slots[k].queue || (slots[r].queue == slots[k].queue && r <= k)
  }

  lemma ChosenPicks(s: Sched)
    requires AllOk(s)
    ensures Picks(s.slots, BoostDue(s.ticks, s.lastBoost), Chosen(s))
  {
    hide Select;
    hide BoostDue;
    var b := Boosted(s);
    SelectIsBest(b.slots, 0);
    forall k | 0 <= k < 64 && s.slots[k].ready ensures b.slots[k].ready && b.slots[k].queue < 4 { assert SlotOk(s.slots[k]); }
  }

  /** One round, in numbers: a boost when 48 ticks have passed since the last one puts every ready
      process into queue 0 with a slice of one tick. The process picked is the first ready one of the
      highest queue. When it has used up its slice, it moves exactly one queue down, or stays in the
      last one, with a slice of 4, 8 or 16 ticks; before that it stays in its queue with that much less
      of its slice. No other process changes, and the clock advances by the turn. */
  lemma RoundMoves(s: Sched, elapsed: nat)
    requires AllOk(s) && elapsed < 0x8000_0000
    ensures var t, r := Round(s, elapsed), Chosen(s);
            var due := (s.ticks - s.lastBoost) % 0x1_0000_0000_0000_0000 >= 48;
            && Picks(s.slots, due, r)
            && (forall i :: 0 <= i < 64 && i != r ==> Waits(s.slots[i], due, t.slots[i]))
            && (r < 64 ==> Ran(if due then 0 else s.slots[r].queue, if due then 1 else s.slots[r].slice, elapsed, t.slots[r]))
            && t.lastBoost == (if due then s.ticks else s.lastBoost)
            && t.ticks == if r == 64 then s.ticks else (s.ticks + elapsed) % 0x1_0000_0000
  {
    hide Select;
    hide Charged;
    ChosenPicks(s);
    var b, r := Boosted(s), Chosen(s);
    RoundKeepsOk(s, elapsed);
    if r < 64 {
      assert SlotOk(b.slots[r]);
      ChargedRan(b.slots[r], elapsed);
    }
  }

  // Queue and slice of an only process k ticks after a boost: one tick in queue 0, four in queue 1,
  // eight in queue 2, and then sixteen at a time in queue 3.
  ghost predicate SinksTo(p: Slot, k: nat) {
    && (k == 0 ==> p.queue == 0 && p.slice == 1)
    && (1 <= k < 5 ==> p.queue == 1 && p.slice == 5 - k)
    && (5 <= k < 13 ==> p.queue == 2 && p.slice == 13 - k)
    && (13 <= k ==> p.queue == 3 && p.slice == 16 - (k - 13) % 16)
  }

  lemma OnlyOneRuns(s: Sched, x: nat, k: nat)
    requires AllOk(s) && x < 64 && Lists([x], s.slots) && !BoostDue(s.ticks, s.lastBoost) && SinksTo(s.slots[x], k)
    ensures SinksTo(Round(s, 1).slots[x], k + 1)
  {
    hide Select;
    hide Charged;
    hide Round;
    RoundMoves(s, 1);
    assert s.slots[x].ready by { assert x in [x]; }
    assert Chosen(s) in [x];
    if k >= 13 { NextTick(k - 13); }
  }

  lemma NextTick(j: nat)
    ensures (j + 1) % 16 == if j % 16 == 15 then 0 else j % 16 + 1
  {
  }

  /** A process that is always ready and alone is, k ticks after a boost, in queue 1 from the first tick
      on, in queue 2 from the fifth and in queue 3 from the thirteenth, until the next boost. */
  lemma {:induction false} OnlyOneSinks(run: seq<Sched>, x: nat, i: nat, k: nat)
    requires IsTurns(run) && i + k < |run| && AllOk(run[i]) && x < 64 && Lists([x], run[i].slots)
    requires BoostDue(run[i].ticks, run[i].lastBoost) && k <= Period(run[i].ticks)
    ensures 0 < k ==> |run[i + k].slots| == 64 && SinksTo(run[i + k].slots[x], k)
  {
    hide Round;
    hide BoostDue;
    hide SinksTo;
    if k > 0 {
      PeriodGoesOn(run, [x], i, k - 1);
      assert Turns(run[i + k - 1], run[i + k]);
      var u := InPeriod(run, i, k - 1);
      if k == 1 {
        BoostFirst(run[i]);
        assert x in [x] && [x][0] == x;
        FreshSinks(u.slots[x]);
      } else {
        OnlyOneSinks(run, x, i, k - 1);
      }
      DueAfterPeriod(run[i].ticks, k - 1);
      OnlyOneRuns(u, x, k - 1);
    }
  }

  lemma FreshSinks(p: Slot)
    requires p.queue == 0 && p.slice == 1
    ensures SinksTo(p, 0)
  {
  }
}
