/** Converging the inbound set of one panel client (client.py, XUISession.set_inbounds) against a panel where
    attach is union and detach is difference and where any call may fail, or lie. */
module PanelInbounds {
  import opened Prelude

  /** A target as given: something `int()` accepts, or not. */
  datatype RawId = Number(value: int) | Unusable

  /** What a mutating call does: work, raise without effect, take effect and raise all the same, or be
      accepted without effect. */
  datatype Outcome = Works | Raises | WorksAndRaises | Ignored

  /** The fate of every call of one run. A client is read before and, on demand, after the changes. */
  datatype Fate = Fate(readable: bool, attach: int -> Outcome, detach: int -> Outcome, rereadable: bool)

  predicate TakesEffect(o: Outcome) {
    o.Works? || o.WorksAndRaises?
  }

  predicate Fails(o: Outcome) {
    o.Raises? || o.WorksAndRaises?
  }

  // ---------------------------------------------------------------- the lists of a run

  /** The usable targets, each once, in order of first appearance. */
  function Targets(raw: seq<RawId>): seq<int> {
    if raw == [] then [] else
      var earlier, last := Targets(raw[..|raw| - 1]), raw[|raw| - 1];
      if last.Number? && last.value !in earlier then earlier + [last.value] else earlier
  }

  lemma {:induction false} TargetsMean(raw: seq<RawId>)
    ensures Distinct(Targets(raw))
    ensures forall i :: i in Targets(raw) <==> Number(i) in raw
  {
    if raw != [] {
      TargetsMean(raw[..|raw| - 1]);
      assert raw == raw[..|raw| - 1] + [raw[|raw| - 1]];
    }
  }

  /** The elements of `ids` outside `other`, in order. */
  function Minus(ids: seq<int>, other: seq<int>): seq<int> {
    if ids == [] then [] else (if ids[0] in other then [] else [ids[0]]) + Minus(ids[1..], other)
  }

  lemma {:induction false} MinusMeans(ids: seq<int>, other: seq<int>)
    ensures forall i :: i in Minus(ids, other) <==> i in ids && i !in other
  {
    if ids != [] {
      MinusMeans(ids[1..], other);
      assert ids == [ids[0]] + ids[1..];
    }
  }

  // ---------------------------------------------------------------- where a run leaves the panel

  function Difference(a: set<int>, b: set<int>): set<int> {
    (a - b) + (b - a)
  }

  /** Attaches and detaches that took effect, and nothing else. */
  function Converged(current: set<int>, target: set<int>, fate: Fate): set<int> {
    current + (set i | i in target - current && TakesEffect(fate.attach(i)))
      - (set i | i in current - target && TakesEffect(fate.detach(i)))
  }

  predicate NeededCallsWork(current: set<int>, target: set<int>, fate: Fate) {
    && (forall i | i in target - current :: TakesEffect(fate.attach(i)))
    && (forall i | i in current - target :: TakesEffect(fate.detach(i)))
  }

  predicate NothingRaised(current: set<int>, target: set<int>, fate: Fate) {
    && (forall i | i in target - current :: !Fails(fate.attach(i)))
    && (forall i | i in current - target :: !Fails(fate.detach(i)))
  }

  /** What is still wrong after a run was wrong before and is exactly what no call took care of. */
  lemma WhatStaysWrong(current: set<int>, target: set<int>, fate: Fate)
    ensures Difference(Converged(current, target, fate), target) <= Difference(current, target)
    ensures Converged(current, target, fate) == target <==> NeededCallsWork(current, target, fate)
  {
    var after := Converged(current, target, fate);
    if after == target {
      forall i | i in target - current ensures TakesEffect(fate.attach(i)) {
        assert i in after;
      }
      forall i | i in current - target ensures TakesEffect(fate.detach(i)) {
        assert i !in after;
      }
    }
    if NeededCallsWork(current, target, fate) {
      assert forall i :: i in after <==> i in target;
    }
  }

  /** Without the check at the end, a run that reports success left the panel right if and only if no
      needed call was accepted and ignored. */
  lemma UnverifiedSuccess(current: set<int>, target: set<int>, fate: Fate)
    requires NothingRaised(current, target, fate)
    ensures Converged(current, target, fate) == target <==>
              && (forall i | i in target - current :: !fate.attach(i).Ignored?)
              && (forall i | i in current - target :: !fate.detach(i).Ignored?)
  {
    WhatStaysWrong(current, target, fate);
  }

  /** The call that would put inbound `i` right takes effect. */
  predicate PutsRight(fate: Fate, target: set<int>, i: int) {
    fate.readable && TakesEffect(if i in target then fate.attach(i) else fate.detach(i))
  }

  function AfterRun(current: set<int>, target: set<int>, fate: Fate): set<int> {
    if fate.readable then Converged(current, target, fate) else current
  }

  function AfterRuns(current: set<int>, target: set<int>, fates: seq<Fate>): set<int> {
    if fates == [] then current
    else AfterRun(AfterRuns(current, target, fates[..|fates| - 1]), target, fates[|fates| - 1])
  }

  lemma WrongAfterRun(current: set<int>, target: set<int>, fate: Fate, i: int)
    ensures i in Difference(AfterRun(current, target, fate), target) <==>
              i in Difference(current, target) && !PutsRight(fate, target, i)
  {
  }

  /** However often a reconciliation is repeated and whichever calls fail, an inbound is still wrong in the
      end exactly when it was wrong at first and no run got its call through. */
  lemma {:induction false} RunsConverge(current: set<int>, target: set<int>, fates: seq<Fate>, i: int)
    ensures i in Difference(AfterRuns(current, target, fates), target) <==>
              i in Difference(current, target) && forall k | 0 <= k < |fates| :: !PutsRight(fates[k], target, i)
  {
    if fates != [] {
      var n := |fates| - 1;
      RunsConverge(current, target, fates[..n], i);
      WrongAfterRun(AfterRuns(current, target, fates[..n]), target, fates[n], i);
      assert forall k | 0 <= k < n :: fates[..n][k] == fates[k];
    }
  }

  /** After a run without failures a second run finds nothing to do. */
  lemma SecondRunIsIdle(current: set<int>, raw: seq<RawId>, fate: Fate)
    requires NeededCallsWork(current, Elements(Targets(raw)), fate)
    ensures var listed := InOrder(Converged(current, Elements(Targets(raw)), fate));
            Minus(Targets(raw), listed) == [] && Minus(listed, Targets(raw)) == []
  {
    var target := Elements(Targets(raw));
    var after := Converged(current, target, fate);
    WhatStaysWrong(current, target, fate);
    InOrderElements(after);
    SameElements(Targets(raw), InOrder(after));
    NothingLeft(Targets(raw), InOrder(after));
    NothingLeft(InOrder(after), Targets(raw));
  }

  lemma SameElements(a: seq<int>, b: seq<int>)
    requires Elements(a) == Elements(b)
    ensures forall i | 0 <= i < |a| :: a[i] in b
    ensures forall i | 0 <= i < |b| :: b[i] in a
  {
    forall i | 0 <= i < |a| ensures a[i] in b {
      assert a[i] in Elements(a);
    }
    forall i | 0 <= i < |b| ensures b[i] in a {
      assert b[i] in Elements(b);
    }
  }

  lemma {:induction false} NothingLeft(ids: seq<int>, other: seq<int>)
    requires forall k | 0 <= k < |ids| :: ids[k] in other
    ensures Minus(ids, other) == []
  {
    if ids != [] {
      NothingLeft(ids[1..], other);
    }
  }

  lemma {:induction false} DistinctSize(s: seq<int>)
    requires Distinct(s)
    ensures |Elements(s)| == |s|
  {
    if s != [] {
      DistinctSize(s[1..]);
      assert s == [s[0]] + s[1..] && s[0] !in s[1..];
      ElementsOfCons(s[0], s[1..]);
    }
  }

  lemma {:induction false} MinusDistinct(ids: seq<int>, other: seq<int>)
    requires Distinct(ids)
    ensures Distinct(Minus(ids, other))
  {
    if ids != [] {
      MinusDistinct(ids[1..], other);
      MinusMeans(ids[1..], other);
      assert ids == [ids[0]] + ids[1..] && ids[0] !in ids[1..];
    }
  }

  lemma MinusSet(ids: seq<int>, other: seq<int>)
    requires Distinct(ids)
    ensures Elements(Minus(ids, other)) == Elements(ids) - Elements(other)
    ensures |Minus(ids, other)| == |Elements(ids) - Elements(other)|
  {
    MinusMeans(ids, other);
    MinusDistinct(ids, other);
    DistinctSize(Minus(ids, other));
    assert Elements(Minus(ids, other)) == Elements(ids) - Elements(other);
  }

  /** The two lists of calls are exactly the missing and the extra inbounds, each once. */
  lemma CallLists(current: set<int>, raw: seq<RawId>)
    ensures var listed, target := InOrder(current), Targets(raw);
            && Elements(Minus(target, listed)) == Elements(target) - current
            && Elements(Minus(listed, target)) == current - Elements(target)
            && |Minus(target, listed)| + |Minus(listed, target)| == |Difference(current, Elements(target))|
  {
    var listed, target := InOrder(current), Targets(raw);
    InOrderSorts(current);
    InOrderElements(current);
    TargetsMean(raw);
    AscendingDistinct(listed);
    MinusSet(target, listed);
    MinusSet(listed, target);
    DifferenceSize(current, Elements(target));
  }

  lemma AscendingDistinct(s: seq<int>)
    requires Ascending(s)
    ensures Distinct(s)
  {
  }

  lemma DifferenceSize(a: set<int>, b: set<int>)
    ensures |Difference(a, b)| == |a - b| + |b - a|
  {
    assert (a - b) * (b - a) == {};
  }

  lemma NothingToCall(current: set<int>, target: set<int>, fate: Fate)
    requires |Difference(current, target)| == 0
    ensures current == target == Converged(current, target, fate) && NothingRaised(current, target, fate)
  {
    assert Difference(current, target) == {};
    assert forall i :: i in current <==> i in target;
  }

  lemma SomethingToCall(current: set<int>, target: set<int>)
    requires |Difference(current, target)| > 0
    ensures current != target
  {
    assert current == target ==> Difference(current, target) == {};
  }

  lemma CallsConverge(current: set<int>, target: set<int>, fate: Fate, toAttach: seq<int>, toDetach: seq<int>)
    requires Elements(toAttach) == target - current && Elements(toDetach) == current - target
    ensures current + (set i | i in toAttach && TakesEffect(fate.attach(i)))
              - (set i | i in toDetach && TakesEffect(fate.detach(i))) == Converged(current, target, fate)
    ensures NothingRaised(current, target, fate) <==>
              && (forall i | i in toAttach :: !Fails(fate.attach(i)))
              && (forall i | i in toDetach :: !Fails(fate.detach(i)))
  {
    assert forall i :: i in toAttach <==> i in target - current by { Listed(toAttach, target - current); }
    assert forall i :: i in toDetach <==> i in current - target by { Listed(toDetach, current - target); }
  }

  lemma Listed(s: seq<int>, all: set<int>)
    requires Elements(s) == all
    ensures forall i :: i in s <==> i in all
  {
    assert forall i :: i in s <==> i in Elements(s);
  }

  // ---------------------------------------------------------------- the panel and the session

  class Panel {
    var inbounds: set<int>
    /** Attach and detach calls received. */
    var calls: nat
    /** Every state the inbound set went through. */
    ghost var states: seq<set<int>>

    constructor (inbounds: set<int>)
      ensures this.inbounds == inbounds && calls == 0 && states == [inbounds]
    {
      this.inbounds, calls, states := inbounds, 0, [inbounds];
    }

    method Attach(id: int, outcome: Outcome) returns (raised: bool)
      modifies this
      ensures inbounds == if TakesEffect(outcome) then old(inbounds) + {id} else old(inbounds)
      ensures raised == Fails(outcome)
      ensures calls == old(calls) + 1 && states == old(states) + [inbounds]
    {
      if TakesEffect(outcome) {
        inbounds := inbounds + {id};
      }
      calls := calls + 1;
      states := states + [inbounds];
      raised := Fails(outcome);
    }

    method Detach(id: int, outcome: Outcome) returns (raised: bool)
      modifies this
      ensures inbounds == if TakesEffect(outcome) then old(inbounds) - {id} else old(inbounds)
      ensures raised == Fails(outcome)
      ensures calls == old(calls) + 1 && states == old(states) + [inbounds]
    {
      if TakesEffect(outcome) {
        inbounds := inbounds - {id};
      }
      calls := calls + 1;
      states := states + [inbounds];
      raised := Fails(outcome);
    }
  }

  /** No state is further from the target than the one before it. */
  ghost predicate NeverFurther(states: seq<set<int>>, target: set<int>) {
    forall i | 0 < i < |states| :: Difference(states[i], target) <= Difference(states[i - 1], target)
  }

  method ParseTargets(raw: seq<RawId>) returns (target: seq<int>)
    ensures target == Targets(raw)
  {
    target := [];
    var i := 0;
    while i < |raw|
      invariant 0 <= i <= |raw| && target == Targets(raw[..i])
    {
      assert raw[..i + 1][..i] == raw[..i];
      if raw[i].Number? && raw[i].value !in target {
        target := target + [raw[i].value];
      }
      i := i + 1;
    }
    assert raw[..i] == raw;
  }

  method AttachAll(panel: Panel, ids: seq<int>, fate: Fate, ghost target: set<int>) returns (ok: bool)
    requires Elements(ids) <= target && panel.states != [] && panel.states[|panel.states| - 1] == panel.inbounds
    requires NeverFurther(panel.states, target)
    modifies panel
    ensures panel.inbounds == old(panel.inbounds) + (set i | i in ids && TakesEffect(fate.attach(i)))
    ensures ok <==> forall i | i in ids :: !Fails(fate.attach(i))
    ensures panel.calls == old(panel.calls) + |ids|
    ensures NeverFurther(panel.states, target)
    ensures panel.states != [] && panel.states[|panel.states| - 1] == panel.inbounds
  {
    ok := true;
    var k := 0;
    while k < |ids|
      invariant 0 <= k <= |ids| && panel.calls == old(panel.calls) + k
      invariant panel.inbounds == old(panel.inbounds) + (set i | i in ids[..k] && TakesEffect(fate.attach(i)))
      invariant ok <==> forall i | i in ids[..k] :: !Fails(fate.attach(i))
      invariant panel.states != [] && panel.states[|panel.states| - 1] == panel.inbounds
      invariant NeverFurther(panel.states, target)
    {
      assert ids[k] in Elements(ids) && ids[..k + 1] == ids[..k] + [ids[k]];
      var raised := panel.Attach(ids[k], fate.attach(ids[k]));
      ok := ok && !raised;
      k := k + 1;
    }
    assert ids[..k] == ids;
  }

  method DetachAll(panel: Panel, ids: seq<int>, fate: Fate, ghost target: set<int>) returns (ok: bool)
    requires Elements(ids) !! target && panel.states != [] && panel.states[|panel.states| - 1] == panel.inbounds
    requires NeverFurther(panel.states, target)
    modifies panel
    ensures panel.inbounds == old(panel.inbounds) - (set i | i in ids && TakesEffect(fate.detach(i)))
    ensures ok <==> forall i | i in ids :: !Fails(fate.detach(i))
    ensures panel.calls == old(panel.calls) + |ids|
    ensures NeverFurther(panel.states, target)
    ensures panel.states != [] && panel.states[|panel.states| - 1] == panel.inbounds
  {
    ok := true;
    var k := 0;
    while k < |ids|
      invariant 0 <= k <= |ids| && panel.calls == old(panel.calls) + k
      invariant panel.inbounds == old(panel.inbounds) - (set i | i in ids[..k] && TakesEffect(fate.detach(i)))
      invariant ok <==> forall i | i in ids[..k] :: !Fails(fate.detach(i))
      invariant panel.states != [] && panel.states[|panel.states| - 1] == panel.inbounds
      invariant NeverFurther(panel.states, target)
    {
      assert ids[k] in Elements(ids) && ids[..k + 1] == ids[..k] + [ids[k]];
      var raised := panel.Detach(ids[k], fate.detach(ids[k]));
      ok := ok && !raised;
      k := k + 1;
    }
    assert ids[..k] == ids;
  }

  /** All attaches, then all detaches; a failure does not stop the rest. */
  method CallPanel(panel: Panel, toAttach: seq<int>, toDetach: seq<int>, fate: Fate, ghost target: set<int>)
    returns (ok: bool)
    requires panel.states == [panel.inbounds]
    requires Elements(toAttach) == target - panel.inbounds && Elements(toDetach) == panel.inbounds - target
    modifies panel
    ensures panel.inbounds == Converged(old(panel.inbounds), target, fate)
    ensures ok <==> NothingRaised(old(panel.inbounds), target, fate)
    ensures panel.calls == old(panel.calls) + |toAttach| + |toDetach|
    ensures NeverFurther(panel.states, target)
  {
    CallsConverge(panel.inbounds, target, fate, toAttach, toDetach);
    var attached := AttachAll(panel, toAttach, fate, target);
    var detached := DetachAll(panel, toDetach, fate, target);
    ok := attached && detached;
  }

  /** The panel lists the inbounds of a client in ascending order. */
  method SetInbounds(panel: Panel, raw: seq<RawId>, verify: bool, fate: Fate) returns (ok: bool)
    modifies panel
    requires panel.states == [panel.inbounds]
    ensures var current, target := old(panel.inbounds), Elements(Targets(raw));
            if !fate.readable then
              !ok && panel.inbounds == current && panel.calls == old(panel.calls)
            else
              && panel.inbounds == Converged(current, target, fate)
              && panel.calls == old(panel.calls) + |Difference(current, target)|
              && (ok <==> NothingRaised(current, target, fate)
                          && (verify && current != target ==> fate.rereadable && panel.inbounds == target))
    ensures fate.readable && verify && ok ==> panel.inbounds == Elements(Targets(raw))
    ensures NeverFurther(panel.states, Elements(Targets(raw)))
  {
    if !fate.readable {
      return false;
    }
    ghost var before := panel.inbounds;
    var listed := InOrder(panel.inbounds);
    var target := ParseTargets(raw);
    var toAttach, toDetach := Minus(target, listed), Minus(listed, target);
    CallLists(before, raw);
    if toAttach == [] && toDetach == [] {
      NothingToCall(before, Elements(target), fate);
      return true;
    }
    SomethingToCall(before, Elements(target));
    ok := CallPanel(panel, toAttach, toDetach, fate, Elements(target));
    if verify {
      if !fate.rereadable || panel.inbounds != Elements(target) {
        ok := false;
      }
    }
  }
}
