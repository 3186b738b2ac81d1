/** The limiter of `acquireBatch` (src/cdp/connection-pool.ts): all tasks of a batch arrive at once,
    then they run, end and wake each other in any order. */
module BatchLimiter {
  import opened Scheduler

  const CONCURRENCY: nat := 10

  /** `active` is the source's counter. A woken task has been taken from the queue and has not gone on
      yet. The order of starts is history. */
  datatype Batch = Batch(active: int, queue: seq<nat>, woken: set<nat>, running: set<nat>, done: set<nat>,
    starts: seq<nat>)

  datatype Step = GoOn(task: nat) | End(task: nat)

  predicate CanStep(b: Batch, e: Step) {
    match e
    case GoOn(t) => t in b.woken
    case End(t) => t in b.running
  }

  function StartTask(b: Batch, t: nat): Batch {
    b.(active := b.active + 1, running := b.running + {t}, starts := b.starts + [t])
  }

  /** Whether a task succeeds or fails makes no difference. */
  function After(b: Batch, e: Step): Batch {
    match e
    case GoOn(t) => StartTask(b.(woken := b.woken - {t}), t)
    case End(t) =>
      var c := b.(active := b.active - 1, running := b.running - {t}, done := b.done + {t});
      if b.queue == [] then c else c.(queue := b.queue[1..], woken := b.woken + {b.queue[0]})
  }

  predicate Once(starts: seq<nat>) {
    forall i, j | 0 <= i < j < |starts| :: starts[i] != starts[j]
  }

  /** Each of the n tasks is in one place; it has started, once, when it runs or is done. */
  ghost predicate TasksInv(n: nat, b: Batch) {
    && Increasing(b.queue)
    && (forall t <- b.queue :: t !in b.woken && t !in b.running && t !in b.done)
    && (forall t <- b.queue, u: nat | u in b.woken || u in b.running || u in b.done :: u < t)
    && b.woken !! b.running && b.woken !! b.done && b.running !! b.done
    && (forall t: nat :: t < n <==> t in b.queue || t in b.woken || t in b.running || t in b.done)
    && Once(b.starts)
    && (forall t: nat :: t in b.starts <==> t in b.running || t in b.done)
  }

  /** Running and woken tasks fill at most the ten places, and all ten while a task waits. */
  predicate PlacesInv(b: Batch) {
    && b.active == |b.running|
    && |b.running| + |b.woken| <= CONCURRENCY
    && (b.queue != [] ==> |b.running| + |b.woken| == CONCURRENCY)
  }

  ghost predicate BatchInv(n: nat, b: Batch) { TasksInv(n, b) && PlacesInv(b) }

  lemma StartedOnce(starts: seq<nat>, t: nat)
    requires Once(starts) && t !in starts
    ensures Once(starts + [t])
    ensures forall x: nat :: x in starts + [t] <==> x in starts || x == t
  {
    assert forall i | 0 <= i < |starts| :: starts[i] in starts;
    assert (starts + [t])[|starts|] == t;
  }

  lemma GoOnKeepsInv(n: nat, b: Batch, t: nat)
    requires BatchInv(n, b) && t in b.woken
    ensures BatchInv(n, After(b, GoOn(t)))
  {
    StartedOnce(b.starts, t);
  }

  lemma EndKeepsInv(n: nat, b: Batch, t: nat)
    requires BatchInv(n, b) && t in b.running
    ensures BatchInv(n, After(b, End(t)))
  {
    if b.queue != [] {
      assert b.queue[0] in b.queue;
      Split(b.queue);
    }
  }

  ghost predicate BatchRun(n: nat, bs: seq<Batch>, es: seq<Step>) {
    && |bs| == |es| + 1 && BatchInv(n, bs[0])
    && forall i | 0 <= i < |es| :: CanStep(bs[i], es[i]) && bs[i + 1] == After(bs[i], es[i])
  }

  lemma {:induction false} RunKeepsBatch(n: nat, bs: seq<Batch>, es: seq<Step>, k: nat)
    requires BatchRun(n, bs, es) && k < |bs|
    ensures BatchInv(n, bs[k])
  {
    if k > 0 {
      RunKeepsBatch(n, bs, es, k - 1);
      match es[k - 1]
      case GoOn(t) => GoOnKeepsInv(n, bs[k - 1], t);
      case End(t) => EndKeepsInv(n, bs[k - 1], t);
    }
  }

  /** At most ten tasks run or are about to, exactly ten while one waits; those that wait came after all others;
      and when nothing runs or is about to, every task of the batch has started exactly once and ended, whichever
      of them failed. */
  lemma EveryTaskStartsOnce(n: nat, bs: seq<Batch>, es: seq<Step>, k: nat)
    requires BatchRun(n, bs, es) && k < |bs|
    ensures |bs[k].running| + |bs[k].woken| <= 10 && (bs[k].queue != [] ==> |bs[k].running| + |bs[k].woken| == 10)
    ensures forall t <- bs[k].queue, u: nat | u in bs[k].woken || u in bs[k].running || u in bs[k].done :: u < t
    ensures Once(bs[k].starts)
    ensures bs[k].running == {} && bs[k].woken == {} ==>
              bs[k].queue == [] && forall t: nat :: t < n <==> t in bs[k].starts && t in bs[k].done
  {
    RunKeepsBatch(n, bs, es, k);
  }

  // ---- Every batch ends ----------------------------------------------------------------------------------

  /** The steps that are left: a queued task is woken when another ends, goes on and ends itself. */
  function Remaining(b: Batch): nat { 2 * |b.queue| + 2 * |b.woken| + |b.running| }

  lemma OneStepLess(n: nat, b: Batch, e: Step)
    requires BatchInv(n, b) && CanStep(b, e)
    ensures Remaining(After(b, e)) == Remaining(b) - 1
  {
    if e.End? && b.queue != [] {
      assert b.queue[0] in b.queue;
    }
  }

  /** A batch that is not done can go on. */
  lemma CanGoOn(n: nat, b: Batch, t: nat) returns (e: Step)
    requires BatchInv(n, b) && t < n && t !in b.done
    ensures CanStep(b, e)
  {
    if b.running != {} {
      var r :| r in b.running;
      e := End(r);
    } else {
      assert b.woken != {} by {
        assert t in b.queue || t in b.woken;
      }
      var w :| w in b.woken;
      e := GoOn(w);
    }
  }

  function Below(n: nat): (tasks: set<nat>)
    ensures |tasks| == n && forall t: nat :: t in tasks <==> t < n
  {
    if n == 0 then {} else Below(n - 1) + {n - 1}
  }

  lemma TasksCount(n: nat, b: Batch)
    requires TasksInv(n, b)
    ensures |b.queue| + |b.woken| + |b.running| + |b.done| == n
  {
    var queued := Elements(b.queue);
    Distinct(b.queue);
    assert Below(n) == ((queued + b.woken) + b.running) + b.done;
    assert queued !! b.woken && queued + b.woken !! b.running && (queued + b.woken) + b.running !! b.done;
  }

  lemma {:induction false} StepsTaken(n: nat, bs: seq<Batch>, es: seq<Step>, k: nat)
    requires BatchRun(n, bs, es) && k < |bs|
    ensures k + Remaining(bs[k]) == Remaining(bs[0])
  {
    if k > 0 {
      StepsTaken(n, bs, es, k - 1);
      RunKeepsBatch(n, bs, es, k - 1);
      OneStepLess(n, bs[k - 1], es[k - 1]);
    }
  }

  /** No run is longer than two steps a task, and a run stops only when every task is done: whatever the
      order, the batch ends after the same number of steps. */
  lemma BatchEnds(n: nat, bs: seq<Batch>, es: seq<Step>, k: nat)
    requires BatchRun(n, bs, es) && k < |bs|
    ensures k + Remaining(bs[k]) == Remaining(bs[0]) <= 2 * n
    ensures (exists e :: CanStep(bs[k], e)) <==> exists t: nat :: t < n && t !in bs[k].done
    ensures Remaining(bs[k]) == 0 <==> forall t: nat | t < n :: t in bs[k].done
  {
    StepsTaken(n, bs, es, k);
    RunKeepsBatch(n, bs, es, k);
    TasksCount(n, bs[0]);
    var b := bs[k];
    if t: nat :| t < n && t !in b.done {
      var e := CanGoOn(n, b, t);
      OneStepLess(n, b, e);
      assert CanStep(b, e);
    } else {
      TasksCount(n, b);
      AllDone(n, b);
    }
  }

  lemma AllDone(n: nat, b: Batch)
    requires BatchInv(n, b) && forall t: nat | t < n :: t in b.done
    ensures Remaining(b) == 0 && forall e :: !CanStep(b, e)
  {
    assert forall i | 0 <= i < |b.queue| :: b.queue[i] in b.queue;
    forall t ensures t !in b.woken && t !in b.running {}
    assert b.woken == {} && b.running == {};
  }

  class Limiter {
    var active: int
    var queue: seq<nat>
    ghost var woken: set<nat>
    ghost var running: set<nat>
    ghost var done: set<nat>
    ghost var starts: seq<nat>

    ghost function Abstract(): Batch
      reads this
    {
      Batch(active, queue, woken, running, done, starts)
    }

    /** All tasks of the batch enter the limiter before any of them goes on. */
    constructor (n: nat)
      ensures BatchInv(n, Abstract())
      ensures |running| == if n < 10 then n else 10
    {
      active, queue, woken, running, done, starts := 0, [], {}, {}, {}, [];
      new;
      for t := 0 to n
        invariant BatchInv(t, Abstract()) && woken == {} && done == {}
        invariant |running| == if t < CONCURRENCY then t else CONCURRENCY
      {
        Enter(t);
      }
    }

    method Enter(t: nat)
      requires BatchInv(t, Abstract()) && woken == {} && done == {}
      modifies this
      ensures BatchInv(t + 1, Abstract()) && woken == {} && done == {}
      ensures running == if old(active) >= CONCURRENCY then old(running) else old(running) + {t}
      ensures |running| == if old(active) >= CONCURRENCY then |old(running)| else |old(running)| + 1
    {
      if active >= CONCURRENCY {
        Appended(queue, t);
        queue := queue + [t];
      } else {
        StartedOnce(starts, t);
        active, running, starts := active + 1, running + {t}, starts + [t];
      }
    }

    method Resumed(ghost n: nat, t: nat)
      requires BatchInv(n, Abstract()) && t in woken
      modifies this
      ensures Abstract() == After(old(Abstract()), GoOn(t)) && BatchInv(n, Abstract())
      ensures woken == old(woken) - {t} && running == old(running) + {t} && starts == old(starts) + [t]
      ensures queue == old(queue) && done == old(done)
    {
      GoOnKeepsInv(n, Abstract(), t);
      woken := woken - {t};
      active, running, starts := active + 1, running + {t}, starts + [t];
    }

    /** The `finally` of a task. */
    method Ended(ghost n: nat, t: nat)
      requires BatchInv(n, Abstract()) && t in running
      modifies this
      ensures Abstract() == After(old(Abstract()), End(t)) && BatchInv(n, Abstract())
      ensures running == old(running) - {t} && done == old(done) + {t} && starts == old(starts)
    {
      EndKeepsInv(n, Abstract(), t);
      active := active - 1;
      running, done := running - {t}, done + {t};
      if queue != [] {
        woken := woken + {queue[0]};
        queue := queue[1..];
      }
    }
  }
}
