/** What one turn of send_file's loop sends, which window slots it sends again, and how it ends. */
module ShamTurn {
  import opened Options
  import opened Sham
  import opened ShamCode

  // ---- new packets -------------------------------------------------------------------------

  // The k-th new packet of a turn: the file's next bytes, 1024 of them unless the file ends before.
  ghost function NthNew(c: Client, k: nat): Packet
    requires c.pos + k * 1024 <= |c.file|
  {
    Packet(c.next + k * 1024, 0, false, false, false, c.file[c.pos + k * 1024..Min(|c.file|, c.pos + (k + 1) * 1024)])
  }

  ghost predicate IsNew(c: Client, k: nat, p: Packet) { c.pos + k * 1024 < |c.file| && p == NthNew(c, k) }

  // The window slot that the k-th new packet goes to.
  ghost function SlotOfNth(c: Client, k: nat): nat
    requires c.base <= c.next
  {
    ((c.next - c.base) / 1024 + k) % 10
  }

  // The new packets are the file's next ones, each in its slot with no retry counted.
  ghost predicate NewSent(c: Client, d: Client, out: seq<Packet>)
    requires c.base <= c.next && |c.window| == 10
  {
    && (forall k :: 0 <= k < |out| ==> IsNew(c, k, out[k])) && |out| <= 10
    && d.pos == Min(|c.file|, c.pos + |out| * 1024) && d.next == c.next + (d.pos - c.pos)
    && d == c.(pos := d.pos, next := d.next, done := d.done, window := d.window)
    && Placed(c, d.window, out)
  }

  ghost predicate Placed(c: Client, window: seq<Slot>, out: seq<Packet>)
    requires c.base <= c.next && |c.window| == 10
  {
    && |window| == 10
    && (forall k :: 0 <= k < |out| ==> window[SlotOfNth(c, k)] == Slot(true, out[k], 0))
    && (forall i :: 0 <= i < 10 && (forall k :: 0 <= k < |out| ==> SlotOfNth(c, k) != i) ==> window[i] == c.window[i])
  }

  // They stop only where the file has been read to its end or ten packets' worth is in flight.
  ghost predicate Stopped(c: Client, d: Client) {
    && (d.done <==> c.done || (d.pos == |c.file| && d.next < c.base + 10240))
    && (c.done ==> d == c) && (d.done || d.next >= c.base + 10240)
  }

  lemma SlotsApart(c: Client, j: nat, k: nat)
    requires c.base <= c.next && j < k < 10
    ensures SlotOfNth(c, j) != SlotOfNth(c, k)
  {
  }

  lemma PlacedNext(c: Client, window: seq<Slot>, out: seq<Packet>, p: Packet)
    requires c.base <= c.next && |c.window| == 10 && |out| < 10 && Placed(c, window, out)
    ensures Placed(c, window[SlotOfNth(c, |out|) := Slot(true, p, 0)], out + [p])
  {
    var n, more := |out|, out + [p];
    var next := window[SlotOfNth(c, n) := Slot(true, p, 0)];
    forall k | 0 <= k < |more| ensures next[SlotOfNth(c, k)] == Slot(true, more[k], 0) {
      if k < n { SlotsApart(c, k, n); }
    }
    forall i | 0 <= i < 10 && (forall k :: 0 <= k < |more| ==> SlotOfNth(c, k) != i) ensures next[i] == c.window[i] {
      assert SlotOfNth(c, n) != i;
      assert forall k :: 0 <= k < |out| ==> SlotOfNth(c, k) != i;
    }
  }

  lemma SendsNth(c: Client, d: Client, out: seq<Packet>)
    requires c.base <= c.next && |c.window| == 10 && c.pos <= |c.file|
    requires NewSent(c, d, out) && MaySend(d) && Chunk(d) != []
    ensures NewSent(c, SendNew(d), out + [DataPacket(d)]) && SendNew(d).done == d.done
  {
    var k := |out|;
    assert d.pos == c.pos + k * 1024 && k < 10;
    assert SlotIndex(d) == SlotOfNth(c, k);
    PlacedNext(c, d.window, out, DataPacket(d));
    assert IsNew(c, k, DataPacket(d));
  }

  lemma {:induction false} SendsRest(c: Client, d: Client, out: seq<Packet>)
    requires c.base <= c.next && |c.window| == 10 && c.pos <= |c.file| && c.phase == Sending && !c.done
    requires NewSent(c, d, out) && !d.done && |d.window| == 10
    ensures var r := SendAll(d, out); NewSent(c, r.0, r.1) && Stopped(c, r.0)
    decreases |d.file| - d.pos
  {
    hide Placed;
    if MaySend(d) {
      if Chunk(d) == [] {
        assert SendNew(d) == d.(done := true);
      } else {
        SendsNth(c, d, out);
        SendsRest(c, SendNew(d), out + [DataPacket(d)]);
      }
    }
  }

  /** The loop that sends new packets. */
  lemma SendAllIs(c: Client)
    requires c.base <= c.next && |c.window| == 10 && c.pos <= |c.file| && c.phase == Sending
    ensures var r := SendAll(c, []); NewSent(c, r.0, r.1) && Stopped(c, r.0)
  {
    assert NewSent(c, c, []);
    if !c.done { SendsRest(c, c, []); }
  }

  // ---- the answer --------------------------------------------------------------------------

  // A cumulative acknowledgment moves the base forward, and never back.
  ghost predicate Acknowledged(d: Client, e: Client, answer: Option<Packet>) {
    && e == d.(base := e.base)
    && e.base == if answer.Some? && answer.value.ack && answer.value.ackno > d.base then answer.value.ackno else d.base
  }

  // ---- packets sent again ------------------------------------------------------------------

  // Slot i is in use, counted from the base, and its timer has run out.
  ghost predicate IsLate(e: Client, late: seq<bool>, i: nat)
    requires |late| == 10
  {
    i < 10 && e.base + i * 1024 < e.next && late[i]
  }

  // It has been sent again ten times already.
  ghost predicate IsSpent(e: Client, late: seq<bool>, i: nat)
    requires |late| == 10 == |e.window|
  {
    IsLate(e, late, i) && e.window[i].retries >= 10
  }

  // Nothing up to slot i is spent.
  ghost predicate NoneSpentTo(e: Client, late: seq<bool>, i: nat)
    requires |late| == 10 == |e.window|
  {
    forall j: nat :: j <= i ==> !IsSpent(e, late, j)
  }

  ghost predicate Rising(ks: seq<nat>) { forall a, b :: 0 <= a < b < |ks| ==> ks[a] < ks[b] }

  // The late slots ks, up to the first one that is spent, are sent again in order and count one retry
  // more; nothing else changes.
  ghost predicate Resent(e: Client, late: seq<bool>, ks: seq<nat>, f: Client, out: seq<Packet>)
    requires |late| == 10 == |e.window|
  {
    && Rising(ks)
    && (forall i: nat :: i in ks <==> IsLate(e, late, i) && NoneSpentTo(e, late, i))
    && |out| == |ks| && (forall k :: 0 <= k < |ks| ==> ks[k] < 10 && out[k] == e.window[ks[k]].packet)
    && f == e.(phase := f.phase, window := f.window) && |f.window| == 10
    && (forall i :: 0 <= i < 10 ==>
          f.window[i] == if i in ks then e.window[i].(retries := e.window[i].retries + 1) else e.window[i])
  }

  ghost predicate AnySpent(e: Client, late: seq<bool>)
    requires |late| == 10 == |e.window|
  {
    exists j: nat :: IsSpent(e, late, j)
  }

  // The scan before slot i: the late slots so far, none of them spent.
  ghost predicate Scanned(e: Client, late: seq<bool>, i: nat, ks: seq<nat>, f: Client, out: seq<Packet>)
    requires |late| == 10 == |e.window|
  {
    && Rising(ks) && (forall j: nat :: j in ks <==> j < i && IsLate(e, late, j))
    && (forall j: nat :: j < i ==> !IsSpent(e, late, j))
    && |out| == |ks| && (forall k :: 0 <= k < |ks| ==> ks[k] < 10 && out[k] == e.window[ks[k]].packet)
    && f == e.(window := f.window) && |f.window| == 10
    && (forall j :: 0 <= j < 10 ==>
          f.window[j] == if j in ks then e.window[j].(retries := e.window[j].retries + 1) else e.window[j])
  }

  // A late slot that is not spent.
  lemma ScansOne(e: Client, late: seq<bool>, i: nat, ks: seq<nat>, f: Client, out: seq<Packet>)
    requires |late| == 10 == |e.window| && e.phase == Sending && Scanned(e, late, i, ks, f, out)
    requires IsLate(e, late, i) && !IsSpent(e, late, i)
    ensures InWindow(f, i) && f.window[i] == e.window[i]
    ensures Scanned(e, late, i + 1, ks + [i], Retransmit(f, i), out + [f.window[i].packet])
  {
    var more := ks + [i];
    forall a, b | 0 <= a < b < |more| ensures more[a] < more[b] {
      assert more[a] in ks && (b < |ks| ==> more[b] in ks);
    }
    forall j: nat ensures j in more <==> j in ks || j == i {
      if j in ks {
        var k :| 0 <= k < |ks| && ks[k] == j;
        assert more[k] == j;
      }
      if j == i { assert more[|ks|] == i; }
    }
  }

  lemma SkipsOne(e: Client, late: seq<bool>, i: nat, ks: seq<nat>, f: Client, out: seq<Packet>)
    requires |late| == 10 == |e.window| && Scanned(e, late, i, ks, f, out) && !IsLate(e, late, i)
    ensures Scanned(e, late, i + 1, ks, f, out)
  {
  }

  // The end of the slots in use.
  lemma ScanEnds(e: Client, late: seq<bool>, i: nat, ks: seq<nat>, f: Client, out: seq<Packet>)
    requires |late| == 10 == |e.window| && e.phase == Sending && Scanned(e, late, i, ks, f, out)
    requires i >= 10 || e.base + i * 1024 >= e.next
    ensures Resent(e, late, ks, f, out) && !AnySpent(e, late)
  {
    forall j: nat ensures !IsSpent(e, late, j) && (IsLate(e, late, j) ==> j < i) {
    }
    forall j: nat ensures NoneSpentTo(e, late, j) {
    }
  }

  lemma ScanStops(e: Client, late: seq<bool>, i: nat, ks: seq<nat>, f: Client, out: seq<Packet>)
    requires |late| == 10 == |e.window| && e.phase == Sending && Scanned(e, late, i, ks, f, out) && IsSpent(e, late, i)
    ensures f.window[i] == e.window[i] && InWindow(f, i)
    ensures Resent(e, late, ks, f.(phase := Failed), out) && AnySpent(e, late)
  {
    forall j: nat ensures NoneSpentTo(e, late, j) <==> j < i {
      if j >= i { assert IsSpent(e, late, i); }
    }
  }

  lemma {:induction false} ScanRest(e: Client, late: seq<bool>, i: nat, ks: seq<nat>, f: Client, sent: seq<Packet>, out: seq<Packet>)
      returns (all: seq<nat>, outs: seq<Packet>)
    requires |late| == 10 == |e.window| && e.phase == Sending && i <= 10 && Scanned(e, late, i, ks, f, out)
    ensures var t := ScanFrom(f, i, late, sent + out);
            && t.out == sent + outs && Resent(e, late, all, t.client, outs)
            && t.status == (if AnySpent(e, late) then GaveUp else Running)
            && t.client.phase == if AnySpent(e, late) then Failed else Sending
    decreases 10 - i
  {
    hide Scanned;
    hide Resent;
    hide AnySpent;
    ScanShape(e, late, i, ks, f, out);
    if i == 10 || e.base + i * 1024 >= e.next {
      all, outs := ks, out;
      ScanEnds(e, late, i, ks, f, out);
    } else if !late[i] {
      SkipsOne(e, late, i, ks, f, out);
      all, outs := ScanRest(e, late, i + 1, ks, f, sent, out);
    } else if IsSpent(e, late, i) {
      all, outs := ks, out;
      ScanStops(e, late, i, ks, f, out);
    } else {
      ScansOne(e, late, i, ks, f, out);
      assert sent + out + [f.window[i].packet] == sent + (out + [f.window[i].packet]);
      all, outs := ScanRest(e, late, i + 1, ks + [i], Retransmit(f, i), sent, out + [f.window[i].packet]);
    }
  }

  lemma ScanShape(e: Client, late: seq<bool>, i: nat, ks: seq<nat>, f: Client, out: seq<Packet>)
    requires |late| == 10 == |e.window| && Scanned(e, late, i, ks, f, out)
    ensures f == e.(window := f.window) && |f.window| == 10
  {
  }

  /** The retransmission loop: of the slots in use whose timers have run out, those up to the first that
      has been sent again ten times already are sent again, in order, after what was sent before, and
      count one retry more. The client gives up if and only if there is such a spent slot. */
  lemma ScanIs(e: Client, late: seq<bool>, sent: seq<Packet>) returns (ks: seq<nat>, out: seq<Packet>)
    requires |late| == 10 == |e.window| && e.phase == Sending
    ensures var t := ScanFrom(e, 0, late, sent);
            && t.out == sent + out && Resent(e, late, ks, t.client, out)
            && t.status == (if AnySpent(e, late) then GaveUp else Running)
            && t.client.phase == if AnySpent(e, late) then Failed else Sending
  {
    hide Resent;
    hide AnySpent;
    assert Scanned(e, late, 0, [], e, []);
    assert sent + [] == sent;
    ks, out := ScanRest(e, late, 0, [], e, sent, []);
  }

  /** A whole turn of send_file's loop, from any state with the base not beyond what was sent: new
      packets d, then the answer e, then the packets ks sent again, and success exactly when nobody
      gave up, the file has been read and all of it is acknowledged. */
  lemma TurnIs(c: Client, ev: Event) returns (d: Client, e: Client, news: seq<Packet>, ks: seq<nat>, again: seq<Packet>)
    requires c.base <= c.next && |c.window| == 10 == |ev.late| && c.pos <= |c.file| && c.phase == Sending
    ensures NewSent(c, d, news) && Stopped(c, d) && Acknowledged(d, e, ev.answer) && |e.window| == 10
    ensures var t := TurnOf(c, ev);
            && t.out == news + again && Resent(e, ev.late, ks, t.client, again)
            && t.client.phase == (if AnySpent(e, ev.late) then Failed else Sending)
            && t.status == if AnySpent(e, ev.late) then GaveUp else if e.done && e.base >= e.next then Success else Running
  {
    hide NewSent;
    hide Stopped;
    hide AnySpent;
    hide SendAll;
    hide ScanFrom;
    SendAllIs(c);
    d, news := SendAll(c, []).0, SendAll(c, []).1;
    e := if ev.answer.Some? then OnAck(d, ev.answer.value) else d;
    ks, again := ScanIs(e, ev.late, news);
  }
}
