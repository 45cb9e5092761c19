/** One round of the scheduler's loop over the process table's own fields. */
module MlfqCode {
  import opened Mlfq

  class Scheduler {
    const ready: array<bool>          // state == RUNNABLE
    const queue: array<nat>
    const slice: array<int>
    var ticks: nat
    var lastBoost: nat

    ghost predicate Valid()
      reads this
    {
      && ready.Length == 64 && queue.Length == 64 && slice.Length == 64
      && ticks < 0x1_0000_0000 && lastBoost < 0x1_0000_0000
    }

    ghost function Abs(): (s: Sched)
      requires Valid()
      reads this, ready, queue, slice
      ensures Shaped(s)
    {
      Sched(seq(64, i requires 0 <= i < 64 reads this, ready, queue, slice => Slot(ready[i], queue[i], slice[i])), ticks, lastBoost)
    }

    // The boost: every RUNNABLE process goes to queue 0 with a new slice.
    method Boost()
      requires Valid()
      modifies this`lastBoost, queue, slice
      ensures Valid() && Abs() == Boosted(old(Abs())) && ready[..] == old(ready[..])
    {
      ghost var was := Abs();
      if (ticks - lastBoost) % 0x1_0000_0000_0000_0000 >= BOOST_INTERVAL {
        var i := 0;
        while i < NPROC
          invariant 0 <= i <= 64 && ready[..] == old(ready[..])
          invariant forall k :: 0 <= k < 64 ==> Slot(ready[k], queue[k], slice[k]) == if k < i then Raised(was.slots[k]) else was.slots[k]
        {
          if ready[i] {
            queue[i] := 0;
            slice[i] := Limit(0);
          }
          i := i + 1;
        }
        lastBoost := ticks;
      }
    }

    // The scan for the first RUNNABLE process in the highest queue that has one; NPROC if none has.
    method Pick() returns (selected: nat)
      requires Valid()
      ensures selected == Select(Abs().slots, 0)
    {
      selected := NPROC;
      var q := 0;
      while q < QUEUE_COUNT
        invariant 0 <= q <= 4 && selected == 64 && Select(Abs().slots, q) == Select(Abs().slots, 0)
      {
        var i := 0;
        while i < NPROC
          invariant 0 <= i <= 64 && selected == 64 && FirstIn(Abs().slots, q, i) == FirstIn(Abs().slots, q, 0)
        {
          if ready[i] && queue[i] == q {
            selected := i;
            return;
          }
          i := i + 1;
        }
        q := q + 1;
      }
    }

    /** One round: boost if it is due, pick, let the process run for `elapsed` ticks, charge it. */
    method RunOnce(elapsed: nat) returns (selected: nat)
      requires Valid()
      modifies this, queue, slice
      ensures Valid() && Abs() == Round(old(Abs()), elapsed) && selected == Chosen(old(Abs()))
    {
      hide Select;
      Boost();
      ghost var b := Abs();
      selected := Pick();
      if selected < NPROC {
        ticks := Advance(ticks, elapsed);
        slice[selected] := Less(slice[selected], elapsed);
        if slice[selected] <= 0 {
          if queue[selected] < QUEUE_COUNT - 1 {
            queue[selected] := queue[selected] + 1;
          }
          slice[selected] := Limit(queue[selected]);
        }
        assert Abs().slots == b.slots[selected := Charged(b.slots[selected], elapsed)];
      }
    }
  }
}
