/** The registry of runner tasks in this process (services/broadcasts/runner.py, class BroadcastJobs).
    A task that ends stays registered until its done-callback runs, one turn of the event loop later. */
module BroadcastJobs {
  import opened Prelude
  import opened BroadcastRepository

  /** `live` and `ended` map tasks to broadcasts: running tasks, and ended ones awaiting their callback. */
  datatype Registry = Registry(tasks: map<int, nat>, live: map<nat, int>, ended: map<nat, int>, nextTask: nat)

  datatype Event = Start(id: int) | End(task: nat) | Callback(task: nat)

  predicate IsRunning(r: Registry, id: int) {
    id in r.tasks && r.tasks[id] in r.live
  }

  function Step(r: Registry, e: Event): Registry {
    match e
    case Start(id) =>
      if IsRunning(r, id) then r
      else Registry(r.tasks[id := r.nextTask], r.live[r.nextTask := id], r.ended, r.nextTask + 1)
    case End(task) =>
      if task !in r.live then r
      else Registry(r.tasks, r.live - {task}, r.ended[task := r.live[task]], r.nextTask)
    case Callback(task) =>
      if task !in r.ended then r
      else Registry(r.tasks - {r.ended[task]}, r.live, r.ended - {task}, r.nextTask)
  }

  function StepAll(r: Registry, es: seq<Event>): Registry {
    if es == [] then r else Step(StepAll(r, es[..|es| - 1]), es[|es| - 1])
  }

  const EMPTY := Registry(map[], map[], map[], 0)

  /** Holds after every history: a registered task that runs is a task of that broadcast. */
  ghost predicate WellFormed(r: Registry) {
    && (forall t | t in r.live :: t < r.nextTask)
    && (forall t | t in r.ended :: t < r.nextTask && t !in r.live)
    && (forall id | id in r.tasks :: r.tasks[id] < r.nextTask && (IsRunning(r, id) ==> r.live[r.tasks[id]] == id))
  }

  /** Every running task is the registered one of its broadcast. */
  ghost predicate Accurate(r: Registry) {
    forall t | t in r.live :: r.live[t] in r.tasks && r.tasks[r.live[t]] == t
  }

  ghost predicate OneTaskPerBroadcast(r: Registry) {
    forall t, u | t in r.live && u in r.live && r.live[t] == r.live[u] :: t == u
  }

  /** Whichever broadcast is started next, each has at most one task. */
  ghost predicate StartsSafe(r: Registry) {
    forall id: int :: OneTaskPerBroadcast(Step(r, Start(id)))
  }

  lemma {:induction false} AlwaysWellFormed(es: seq<Event>)
    ensures WellFormed(StepAll(EMPTY, es))
  {
    if es != [] {
      AlwaysWellFormed(es[..|es| - 1]);
    }
  }

  /** The callback of a task keeps the registry accurate if and only if no newer task of the same
      broadcast is running; starts and ends always keep it. */
  lemma StepAccurate(r: Registry, e: Event)
    requires WellFormed(r) && Accurate(r)
    ensures Accurate(Step(r, e)) <==> (e.Callback? && e.task in r.ended ==> !IsRunning(r, r.ended[e.task]))
  {
    if e.Callback? && e.task in r.ended && IsRunning(r, r.ended[e.task]) {
      var newer := r.tasks[r.ended[e.task]];
      assert newer in Step(r, e).live;
    }
  }

  /** An accurate registry is exactly one under which every start leaves one task per broadcast. */
  lemma AccurateIffStartsSafe(r: Registry)
    requires WellFormed(r)
    ensures Accurate(r) <==> StartsSafe(r)
  {
    if Accurate(r) {
      forall id: int ensures OneTaskPerBroadcast(Step(r, Start(id))) {
        StepAccurate(r, Start(id));
      }
    } else {
      var t :| t in r.live && !(r.live[t] in r.tasks && r.tasks[r.live[t]] == t);
      var after := Step(r, Start(r.live[t]));
      var other := after.tasks[r.live[t]];
      assert t in after.live && other in after.live && after.live[other] == after.live[t] && other != t;
      assert !OneTaskPerBroadcast(after);
    }
  }

  /** The callback of an ended task while a newer task of its broadcast is running. */
  predicate LateCallback(r: Registry, e: Event) {
    e.Callback? && e.task in r.ended && IsRunning(r, r.ended[e.task])
  }

  /** No callback of the history is late. */
  ghost predicate NoLateCallback(es: seq<Event>) {
    es != [] ==>
      var prefix := es[..|es| - 1];
      NoLateCallback(prefix) && !LateCallback(StepAll(EMPTY, prefix), es[|es| - 1])
  }

  /** At every moment of the history, starting any broadcast leaves at most one task for each. */
  ghost predicate AlwaysStartsSafe(es: seq<Event>) {
    StartsSafe(StepAll(EMPTY, es)) && (es != [] ==> AlwaysStartsSafe(es[..|es| - 1]))
  }

  /** Over a whole history each broadcast has at most one task, whatever is started when, if and only if no
      callback comes while a newer task of its broadcast is running. */
  lemma {:induction false} OneRunnerPerBroadcast(es: seq<Event>)
    ensures AlwaysStartsSafe(es) <==> NoLateCallback(es)
  {
    AlwaysWellFormed(es);
    AccurateIffStartsSafe(StepAll(EMPTY, es));
    if es != [] {
      var prefix := es[..|es| - 1];
      OneRunnerPerBroadcast(prefix);
      AlwaysWellFormed(prefix);
      AccurateIffStartsSafe(StepAll(EMPTY, prefix));
      if AlwaysStartsSafe(prefix) {
        assert StartsSafe(StepAll(EMPTY, prefix));
        StepAccurate(StepAll(EMPTY, prefix), es[|es| - 1]);
      }
    }
  }

  ghost predicate WasStarted(es: seq<Event>, id: int) {
    exists k | 0 <= k < |es| :: es[k] == Start(id)
  }

  /** Every broadcast is started at most once, as a fresh identifier by the admin or by `resume`. */
  ghost predicate StartedOnce(es: seq<Event>) {
    es != [] ==>
      var prefix, e := es[..|es| - 1], es[|es| - 1];
      StartedOnce(prefix) && (e.Start? ==> !WasStarted(prefix, e.id))
  }

  lemma StartedEarlier(es: seq<Event>, id: int)
    requires es != [] && WasStarted(es[..|es| - 1], id)
    ensures WasStarted(es, id)
  {
    var k :| 0 <= k < |es| - 1 && es[..|es| - 1][k] == Start(id);
    assert es[k] == Start(id);
  }

  /** A process that starts every broadcast at most once never has a late callback. */
  lemma {:induction false} OneStartIsEnough(es: seq<Event>)
    requires StartedOnce(es)
    ensures NoLateCallback(es) && Accurate(StepAll(EMPTY, es)) && NoneShadowed(es, StepAll(EMPTY, es))
  {
    if es != [] {
      var prefix, e := es[..|es| - 1], es[|es| - 1];
      var before := StepAll(EMPTY, prefix);
      OneStartIsEnough(prefix);
      AlwaysWellFormed(prefix);
      StepAccurate(before, e);
      StartsStay(es, before);
      if e.Start? {
        assert es[|es| - 1] == Start(e.id);
      }
    }
  }

  /** Every task is of a started broadcast, and no ended one awaits its callback beside a running one. */
  ghost predicate NoneShadowed(es: seq<Event>, r: Registry) {
    && (forall t | t in r.live :: WasStarted(es, r.live[t]))
    && (forall t | t in r.ended :: WasStarted(es, r.ended[t]) && !IsRunning(r, r.ended[t]))
  }

  lemma StartsStay(es: seq<Event>, r: Registry)
    requires es != [] && NoneShadowed(es[..|es| - 1], r)
    ensures NoneShadowed(es, r)
  {
    forall t | t in r.live ensures WasStarted(es, r.live[t]) {
      StartedEarlier(es, r.live[t]);
    }
    forall t | t in r.ended ensures WasStarted(es, r.ended[t]) {
      StartedEarlier(es, r.ended[t]);
    }
  }

  /** Otherwise a broadcast can be run by two tasks at once: the late callback forgets the newer task. */
  lemma LateCallbackForgetsNewTask()
    ensures var r := StepAll(EMPTY, [Start(5)] + [End(0)] + [Start(5)] + [Callback(0)] + [Start(5)]);
            1 in r.live && 2 in r.live && r.live[1] == 5 == r.live[2]
  {
    assert [] + [Start(5)] == [Start(5)];
    Snoc([], Start(5));
    Snoc([Start(5)], End(0));
    Snoc([Start(5)] + [End(0)], Start(5));
    Snoc([Start(5)] + [End(0)] + [Start(5)], Callback(0));
    Snoc([Start(5)] + [End(0)] + [Start(5)] + [Callback(0)], Start(5));
  }

  lemma Snoc(es: seq<Event>, e: Event)
    ensures StepAll(EMPTY, es + [e]) == Step(StepAll(EMPTY, es), e)
  {
    assert (es + [e])[..|es|] == es;
  }

  /** Running tasks stay registered, and only the broadcasts in `ids` are new. */
  ghost predicate Extends(before: Registry, after: Registry, ids: seq<int>) {
    && WellFormed(after) && Accurate(after)
    && (forall id | IsRunning(before, id) :: IsRunning(after, id) && after.tasks[id] == before.tasks[id])
    && (forall id | IsRunning(after, id) :: IsRunning(before, id) || id in ids)
    && (forall id | id in ids :: IsRunning(after, id))
  }

  lemma StartExtends(before: Registry, r: Registry, ids: seq<int>, id: int)
    requires Extends(before, r, ids)
    ensures Extends(before, Step(r, Start(id)), ids + [id])
  {
    StepAccurate(r, Start(id));
  }

  class BroadcastJobs {
    var registry: Registry

    constructor ()
      ensures registry == EMPTY
    {
      registry := EMPTY;
    }

    method StartRunner(id: int)
      modifies this
      ensures registry == Step(old(registry), Start(id))
    {
      if IsRunning(registry, id) {
        return;
      }
      var task := registry.nextTask;
      registry := Registry(registry.tasks[id := task], registry.live[task := id], registry.ended, task + 1);
    }

    /** After a restart of the process: every active broadcast of the store gets exactly one runner. */
    method Resume(repo: Repository) returns (ids: seq<int>)
      requires WellFormed(registry) && Accurate(registry)
      modifies this
      ensures ids == InOrder(ActiveIds(repo.View()))
      ensures Extends(old(registry), registry, ids)
    {
      ids := repo.ListActive();
      for i := 0 to |ids|
        invariant Extends(old(registry), registry, ids[..i])
      {
        StartExtends(old(registry), registry, ids[..i], ids[i]);
        assert ids[..i + 1] == ids[..i] + [ids[i]];
        StartRunner(ids[i]);
      }
      assert ids[..|ids|] == ids;
    }
  }
}
