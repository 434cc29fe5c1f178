/** Even spacing of Bot API requests (services/broadcasts/runner.py, class Pacer). Times are real
    numbers; a slot is the moment a request may start, and it occupies `cost` message intervals. */
module Pacing {

  datatype Slot = Slot(start: real, cost: nat)

  function Later(a: real, b: real): real {
    if a > b then a else b
  }

  /** The earliest moment after `slots` at which a new slot may start. */
  function FreeAt(interval: real, slots: seq<Slot>): real {
    if slots == [] then 0.0 else
      var last := slots[|slots| - 1];
      last.start + interval * last.cost as real
  }

  /** No slot starts before its own clock reading or before the previous slot has been used up. */
  ghost predicate Spaced(interval: real, readings: seq<real>, slots: seq<Slot>) {
    |readings| == |slots| &&
    (slots != [] ==>
      var n := |slots| - 1;
      && Spaced(interval, readings[..n], slots[..n])
      && slots[n].start >= readings[n]
      && slots[n].start >= FreeAt(interval, slots[..n]))
  }

  /** Slot k starts neither before its clock reading nor before the interval of every message of slot k - 1 is over;
      the first one may start at once. */
  ghost predicate StartsInTime(interval: real, readings: seq<real>, slots: seq<Slot>, k: nat)
    requires k < |slots| == |readings|
  {
    && slots[k].start >= readings[k]
    && slots[k].start >= if k == 0 then 0.0 else slots[k - 1].start + interval * slots[k - 1].cost as real
  }

  lemma {:induction false} SpacedIff(interval: real, readings: seq<real>, slots: seq<Slot>)
    requires |readings| == |slots|
    ensures Spaced(interval, readings, slots) <==> forall k | 0 <= k < |slots| :: StartsInTime(interval, readings, slots, k)
  {
    if slots != [] {
      var n := |slots| - 1;
      SpacedIff(interval, readings[..n], slots[..n]);
      forall k | 0 <= k < n
        ensures StartsInTime(interval, readings[..n], slots[..n], k) <==> StartsInTime(interval, readings, slots, k)
      {
      }
      assert FreeAt(interval, slots[..n])
          == if n == 0 then 0.0 else slots[n - 1].start + interval * slots[n - 1].cost as real;
      assert Spaced(interval, readings, slots) <==>
               Spaced(interval, readings[..n], slots[..n]) && StartsInTime(interval, readings, slots, n);
    }
  }

  /** Messages started from slot `i` on and before slot `j`. */
  function CostBetween(slots: seq<Slot>, i: nat, j: nat): nat
    requires i <= j <= |slots|
    decreases j
  {
    if i == j then 0 else CostBetween(slots, i, j - 1) + slots[j - 1].cost
  }

  lemma {:induction false} SpacedAt(interval: real, readings: seq<real>, slots: seq<Slot>, j: nat)
    requires Spaced(interval, readings, slots) && 0 < j < |slots|
    ensures slots[j].start >= slots[j - 1].start + interval * slots[j - 1].cost as real
  {
    if j < |slots| - 1 {
      SpacedAt(interval, readings[..|slots| - 1], slots[..|slots| - 1], j);
    }
  }

  /** Between any two slots no more messages start than the elapsed time allows, idle periods included. */
  lemma {:induction false} RateRespected(interval: real, readings: seq<real>, slots: seq<Slot>, i: nat, j: nat)
    requires Spaced(interval, readings, slots) && i <= j < |slots|
    ensures interval * CostBetween(slots, i, j) as real <= slots[j].start - slots[i].start
    decreases j
  {
    if i < j {
      RateRespected(interval, readings, slots, i, j - 1);
      SpacedAt(interval, readings, slots, j);
      assert CostBetween(slots, i, j) as real
          == CostBetween(slots, i, j - 1) as real + slots[j - 1].cost as real;
    }
  }

  /** The same bound in messages: at most `rate` per second. */
  lemma MessagesWithinRate(rate: real, readings: seq<real>, slots: seq<Slot>, i: nat, j: nat)
    requires rate > 0.0 && Spaced(1.0 / rate, readings, slots) && i <= j < |slots|
    ensures CostBetween(slots, i, j) as real <= (slots[j].start - slots[i].start) * rate
  {
    RateRespected(1.0 / rate, readings, slots, i, j);
    var cost := CostBetween(slots, i, j) as real;
    var elapsed := slots[j].start - slots[i].start;
    assert 1.0 / rate * cost == cost / rate;
    assert cost == cost / rate * rate;
    assert cost / rate * rate <= elapsed * rate;
  }

  /** The slots that `Pacer.wait` hands out. */
  ghost predicate Greedy(interval: real, readings: seq<real>, slots: seq<Slot>) {
    |readings| == |slots| &&
    (slots != [] ==>
      var n := |slots| - 1;
      && Greedy(interval, readings[..n], slots[..n])
      && slots[n].start == Later(readings[n], FreeAt(interval, slots[..n])))
  }

  /** Its slots are spaced, and no spaced schedule of the same requests starts any of them earlier. */
  lemma {:induction false} GreedyIsEarliest(interval: real, readings: seq<real>, slots: seq<Slot>, other: seq<Slot>)
    requires Greedy(interval, readings, slots)
    requires Spaced(interval, readings, other)
    requires forall k | 0 <= k < |slots| :: other[k].cost == slots[k].cost
    ensures Spaced(interval, readings, slots)
    ensures forall k | 0 <= k < |slots| :: slots[k].start <= other[k].start
  {
    GreedyIsSpaced(interval, readings, slots);
    if slots != [] {
      var n := |slots| - 1;
      GreedyIsEarliest(interval, readings[..n], slots[..n], other[..n]);
      assert forall k | 0 <= k < n :: slots[..n][k] == slots[k] && other[..n][k] == other[k];
      if n > 0 {
        assert slots[n - 1].start <= other[n - 1].start;
        assert FreeAt(interval, slots[..n]) <= FreeAt(interval, other[..n]);
      }
    }
  }

  lemma {:induction false} GreedyIsSpaced(interval: real, readings: seq<real>, slots: seq<Slot>)
    requires Greedy(interval, readings, slots)
    ensures Spaced(interval, readings, slots)
  {
    if slots != [] {
      GreedyIsSpaced(interval, readings[..|slots| - 1], slots[..|slots| - 1]);
    }
  }

  lemma GreedySnoc(interval: real, readings: seq<real>, slots: seq<Slot>, reading: real, slot: Slot)
    requires Greedy(interval, readings, slots) && slot.start == Later(reading, FreeAt(interval, slots))
    ensures Greedy(interval, readings + [reading], slots + [slot])
    ensures FreeAt(interval, slots + [slot]) == slot.start + interval * slot.cost as real
  {
    assert (readings + [reading])[..|readings|] == readings && (slots + [slot])[..|slots|] == slots;
  }

  class Pacer {
    const interval: real
    /** The value of the k-th clock reading. */
    const clock: nat -> real
    var next: real
    var ticks: nat
    ghost var readings: seq<real>
    ghost var slots: seq<Slot>

    ghost predicate Valid()
      reads this
    {
      Greedy(interval, readings, slots) && next == FreeAt(interval, slots)
    }

    constructor (rate: real, clock: nat -> real)
      ensures Valid() && slots == [] && this.clock == clock
      ensures interval == if rate > 0.0 then 1.0 / rate else 0.0
    {
      interval := if rate > 0.0 then 1.0 / rate else 0.0;
      this.clock := clock;
      next, ticks := 0.0, 0;
      readings, slots := [], [];
    }

    /** Waits for a slot of `cost` messages; the caller continues at the start of that slot. */
    method Wait(cost: nat)
      requires Valid()
      modifies this
      ensures Valid() && ticks == old(ticks) + 1
      ensures readings == old(readings) + [clock(old(ticks))]
      ensures exists start :: slots == old(slots) + [Slot(start, cost)]
    {
      var now := clock(ticks);
      ticks := ticks + 1;
      ghost var reading := now;
      if next > now {
        now := next;
      }
      next := now + interval * cost as real;
      GreedySnoc(interval, readings, slots, reading, Slot(now, cost));
      readings, slots := readings + [reading], slots + [Slot(now, cost)];
    }
  }
}
