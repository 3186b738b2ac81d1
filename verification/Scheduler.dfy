/** `ScreenshotScheduler` (src/cdp/screenshot-scheduler.ts): a slot counter and a queue of waiters,
    changed by arrivals, timers and finished captures in any order. */
module Scheduler {
  import Json
  import opened Wrappers

  datatype Limits = Limits(concurrency: nat, maxPending: nat)

  predicate Valid(l: Limits) { l.concurrency >= 1 && l.maxPending >= 1 }

  const MAX_SAFE_INTEGER: int := 0x1F_FFFF_FFFF_FFFF

  /** `Number.isSafeInteger`. */
  predicate SafeInteger(n: Json.Number) {
    && Json.IsFinite(n) && Json.Real(n).Floor as real == Json.Real(n)
    && -MAX_SAFE_INTEGER <= Json.Real(n).Floor <= MAX_SAFE_INTEGER
  }

  /** An integer from 1 to the largest safe one. */
  predicate Whole(n: Json.Number, i: int) {
    Json.Real(n) == i as real && Json.IsFinite(n) && 1 <= i <= 9007199254740991
  }

  datatype Status = Refused | Waiting | TimedOut | Running | Completed | Failed

  /** Requests are numbered as they arrive. The order of starts is history. */
  datatype World = World(active: int, queue: seq<nat>, settled: set<nat>, completed: int,
                         status: seq<Status>, started: seq<nat>)

  datatype Event = Arrive | Timeout(r: nat) | Finish(r: nat, ok: bool)

  predicate Has(w: World, r: nat, s: Status) { r < |w.status| && w.status[r] == s }

  predicate Enabled(w: World, e: Event) {
    match e
    case Arrive => true
    case Timeout(r) => Has(w, r, Waiting)
    case Finish(r, _) => Has(w, r, Running)
  }

  function Start(w: World, r: nat): World
    requires r < |w.status|
  {
    w.(active := w.active + 1, status := w.status[r := Running], started := w.started + [r])
  }

  /** The freed slot goes to the head of the queue, past waiters that have settled already. */
  function HandOn(w: World): World
    requires forall r <- w.queue :: r < |w.status|
    decreases |w.queue|
  {
    if w.queue == [] then w
    else
      var next, rest := w.queue[0], w.queue[1..];
      assert next in w.queue && forall r <- rest :: r in w.queue;
      if next in w.settled then HandOn(w.(queue := rest))
      else Start(w.(queue := rest, settled := w.settled + {next}), next)
  }

  function Without(q: seq<nat>, r: nat): (p: seq<nat>)
    ensures forall x <- p :: x in q && x != r
    ensures forall x <- q :: x != r ==> x in p
    ensures |p| <= |q|
    ensures Increasing(q) ==> Increasing(p) && (q == [] || p == [] || p[0] >= q[0])
  {
    if q == [] then []
    else if q[0] == r then
      assert q == [q[0]] + q[1..];
      assert Increasing(q) ==> r !in q[1..];
      Without(q[1..], r)
    else
      assert q == [q[0]] + q[1..];
      [q[0]] + Without(q[1..], r)
  }

  predicate Increasing(q: seq<nat>) {
    forall i, j | 0 <= i < j < |q| :: q[i] < q[j]
  }

  function Next(l: Limits, w: World, e: Event): World
    requires Enabled(w, e) && forall r <- w.queue :: r < |w.status|
  {
    match e
    case Arrive =>
      var r := |w.status|;
      if w.active >= l.concurrency then
        if |w.queue| >= l.maxPending then w.(status := w.status + [Refused])
        else w.(status := w.status + [Waiting], queue := w.queue + [r])
      else Start(w.(status := w.status + [Waiting]), r)
    case Timeout(r) =>
      w.(settled := w.settled + {r}, status := w.status[r := TimedOut], queue := Without(w.queue, r))
    case Finish(r, ok) =>
      HandOn(Finished(w, r, ok))
  }

  // ---- What every step keeps -----------------------------------------------------------------------

  function With(st: seq<Status>, s: Status): set<nat> { set r: nat | r < |st| && st[r] == s }

  /** The counter is the number of running captures; slots are free only when nobody waits. */
  predicate SlotsInv(l: Limits, w: World) {
    && w.active == |With(w.status, Running)| <= l.concurrency
    && |w.queue| <= l.maxPending
    && (w.queue != [] ==> w.active == l.concurrency)
    && w.completed == |With(w.status, Completed)|
  }

  /** The queue is exactly the waiting requests, in order of arrival, none of them settled. */
  predicate QueueInv(w: World) {
    && Increasing(w.queue)
    && (forall r <- w.queue :: Has(w, r, Waiting) && r !in w.settled)
    && (forall r: nat | r < |w.status| && w.status[r] == Waiting :: r in w.queue)
    && (forall r <- w.settled :: r < |w.status|)
  }

  /** Starts happen in order of arrival, and every waiter arrived after all that have started. */
  predicate OrderInv(w: World) {
    && Increasing(w.started)
    && (forall r: nat | r < |w.status| :: HasStarted(w.status[r]) <==> r in w.started)
    && (forall r <- w.started :: r < |w.status|)
    && (forall r <- w.started, q <- w.queue :: r < q)
  }

  predicate HasStarted(s: Status) { s.Running? || s.Completed? || s.Failed? }

  predicate Inv(l: Limits, w: World) { SlotsInv(l, w) && QueueInv(w) && OrderInv(w) }

  lemma CountUpdate(st: seq<Status>, r: nat, t: Status, s: Status)
    requires r < |st|
    ensures |With(st[r := t], s)| == |With(st, s)| + (if t == s then 1 else 0) - (if st[r] == s then 1 else 0)
  {
    if t == s {
      assert With(st[r := t], s) == With(st, s) + {r};
    } else {
      assert With(st[r := t], s) == With(st, s) - {r};
    }
  }

  lemma CountAppend(st: seq<Status>, t: Status, s: Status)
    ensures |With(st + [t], s)| == |With(st, s)| + (if t == s then 1 else 0)
  {
    if t == s {
      assert With(st + [t], s) == With(st, s) + {|st|};
    } else {
      assert With(st + [t], s) == With(st, s);
    }
  }

  lemma Appended(q: seq<nat>, r: nat)
    requires Increasing(q) && forall x <- q :: x < r
    ensures Increasing(q + [r]) && r in q + [r]
    ensures forall x <- q + [r] :: x in q || x == r
    ensures forall x <- q :: x in q + [r]
  {
    forall i | 0 <= i < |q| ensures q[i] < r {
      assert q[i] in q;
    }
    assert (q + [r])[|q|] == r;
  }

  lemma Split(q: seq<nat>)
    requires Increasing(q) && q != []
    ensures Increasing(q[1..])
    ensures forall x <- q[1..] :: x in q && q[0] < x
    ensures forall x <- q :: x == q[0] || x in q[1..]
  {}

  lemma ArriveKeepsInv(l: Limits, w: World)
    requires Valid(l) && Inv(l, w)
    ensures Inv(l, Next(l, w, Arrive))
  {
    var r, st := |w.status|, w.status;
    if w.active >= l.concurrency {
      CountAppend(st, Refused, Running);
      CountAppend(st, Refused, Completed);
      CountAppend(st, Waiting, Running);
      CountAppend(st, Waiting, Completed);
      Appended(w.queue, r);
    } else {
      StartKeepsInv(l, w);
    }
  }

  lemma StartKeepsInv(l: Limits, w: World)
    requires Valid(l) && Inv(l, w) && w.active < l.concurrency
    ensures Inv(l, Next(l, w, Arrive))
  {
    var r, st := |w.status|, w.status;
    assert (st + [Waiting])[r := Running] == st + [Running];
    CountAppend(st, Running, Running);
    CountAppend(st, Running, Completed);
    Appended(w.started, r);
  }

  lemma TimeoutKeepsInv(l: Limits, w: World, r: nat)
    requires Valid(l) && Inv(l, w) && Has(w, r, Waiting)
    ensures Inv(l, Next(l, w, Timeout(r)))
  {
    CountUpdate(w.status, r, TimedOut, Running);
    CountUpdate(w.status, r, TimedOut, Completed);
  }

  /** After a capture has finished and before the slot is handed on. */
  function Finished(w: World, r: nat, ok: bool): World
    requires r < |w.status|
  {
    w.(active := w.active - 1, completed := w.completed + (if ok then 1 else 0),
       status := w.status[r := if ok then Completed else Failed])
  }

  lemma FinishedKeeps(l: Limits, w: World, r: nat, ok: bool)
    requires Inv(l, w) && Has(w, r, Running)
    ensures var v := Finished(w, r, ok);
            && QueueInv(v) && OrderInv(v)
            && v.active == |With(v.status, Running)| < l.concurrency
            && v.completed == |With(v.status, Completed)|
            && (v.queue != [] ==> v.active == l.concurrency - 1)
  {
    CountUpdate(w.status, r, if ok then Completed else Failed, Running);
    CountUpdate(w.status, r, if ok then Completed else Failed, Completed);
  }

  /** The slot goes to the request at the head of the queue: the branch for settled waiters is never taken. */
  lemma HandOnToHead(w: World)
    requires QueueInv(w) && OrderInv(w) && w.queue != []
    ensures HandOn(w) == Start(w.(queue := w.queue[1..], settled := w.settled + {w.queue[0]}), w.queue[0])
    ensures QueueInv(HandOn(w)) && OrderInv(HandOn(w))
  {
    var r := w.queue[0];
    assert r in w.queue;
    Split(w.queue);
    Appended(w.started, r);
  }

  lemma FinishKeepsInv(l: Limits, w: World, r: nat, ok: bool)
    requires Valid(l) && Inv(l, w) && Has(w, r, Running)
    ensures Inv(l, Next(l, w, Finish(r, ok)))
  {
    var v := Finished(w, r, ok);
    FinishedKeeps(l, w, r, ok);
    if v.queue != [] {
      HandOnToHead(v);
      CountUpdate(v.status, v.queue[0], Running, Running);
      CountUpdate(v.status, v.queue[0], Running, Completed);
    }
  }

  lemma StepKeepsInv(l: Limits, w: World, e: Event)
    requires Valid(l) && Inv(l, w) && Enabled(w, e)
    ensures Inv(l, Next(l, w, e))
  {
    match e
    case Arrive => ArriveKeepsInv(l, w);
    case Timeout(r) => TimeoutKeepsInv(l, w, r);
    case Finish(r, ok) => FinishKeepsInv(l, w, r, ok);
  }

  // ---- Whole runs ------------------------------------------------------------------------------------

  function Idle(): World { World(0, [], {}, 0, [], []) }

  ghost predicate Run(l: Limits, ws: seq<World>, es: seq<Event>) {
    && |ws| == |es| + 1 && ws[0] == Idle()
    && forall i | 0 <= i < |es| ::
         && Enabled(ws[i], es[i]) && (forall r <- ws[i].queue :: r < |ws[i].status|)
         && ws[i + 1] == Next(l, ws[i], es[i])
  }

  lemma {:induction false} RunKeepsInv(l: Limits, ws: seq<World>, es: seq<Event>, n: nat)
    requires Valid(l) && Run(l, ws, es) && n < |ws|
    ensures Inv(l, ws[n])
  {
    if n > 0 {
      RunKeepsInv(l, ws, es, n - 1);
      StepKeepsInv(l, ws[n - 1], es[n - 1]);
    }
  }

  /** At most `concurrency` captures run, at most `maxPending` requests wait, and while one waits every
      slot is in use: no slot is lost by timeouts or failures. */
  lemma NoSlotLost(l: Limits, ws: seq<World>, es: seq<Event>, n: nat)
    requires Valid(l) && Run(l, ws, es) && n < |ws|
    ensures |With(ws[n].status, Running)| <= l.concurrency && |With(ws[n].status, Waiting)| <= l.maxPending
    ensures With(ws[n].status, Waiting) != {} ==> |With(ws[n].status, Running)| == l.concurrency
  {
    RunKeepsInv(l, ws, es, n);
    WaitingCount(ws[n]);
  }

  lemma WaitingCount(w: World)
    requires QueueInv(w)
    ensures |With(w.status, Waiting)| == |w.queue|
  {
    Distinct(w.queue);
    assert With(w.status, Waiting) == Elements(w.queue);
  }

  function Elements(q: seq<nat>): set<nat> { set r <- q :: r }

  lemma {:induction false} Distinct(q: seq<nat>)
    requires Increasing(q)
    ensures |Elements(q)| == |q|
  {
    if q != [] {
      Distinct(q[1..]);
      Split(q);
      assert q[0] in q;
      assert Elements(q) == {q[0]} + Elements(q[1..]);
    }
  }

  /** No barging: when a request has started, every earlier one that was admitted has started or timed out,
      and the order of the starts is the order of arrival. */
  lemma NoBarging(l: Limits, ws: seq<World>, es: seq<Event>, n: nat, a: nat, b: nat)
    requires Valid(l) && Run(l, ws, es) && n < |ws|
    requires a < b < |ws[n].status| && HasStarted(ws[n].status[b])
    ensures ws[n].status[a] != Waiting
    ensures Increasing(ws[n].started)
  {
    RunKeepsInv(l, ws, es, n);
    assert b in ws[n].started;
  }

  /** What becomes of a new request: it runs while a slot is free, waits while there is room, and is refused
      exactly when all slots run and all places are taken. */
  function Admitted(l: Limits, status: seq<Status>): Status {
    if |With(status, Running)| < l.concurrency then Running
    else if |With(status, Waiting)| < l.maxPending then Waiting
    else Refused
  }

  /** The status of every request after each step: of a new one, of one that gives up, and of one whose capture
      ends, with the start of the one that has waited longest. Nothing else changes. */
  ghost predicate StatusAfter(l: Limits, before: seq<Status>, e: Event, after: seq<Status>) {
    match e
    case Arrive => after == before + [Admitted(l, before)]
    case Timeout(r) => r < |before| && after == before[r := TimedOut]
    case Finish(r, ok) =>
      && r < |before|
      && var ended := before[r := if ok then Completed else Failed];
         if With(before, Waiting) == {} then after == ended
         else exists head: nat :: Longest(before, head) && after == ended[head := Running]
  }

  /** It waits, and no earlier one does. */
  predicate Longest(status: seq<Status>, head: nat) {
    head < |status| && status[head] == Waiting && forall r: nat | r < head :: status[r] != Waiting
  }

  lemma StepStatus(l: Limits, w: World, e: Event)
    requires Valid(l) && Inv(l, w) && Enabled(w, e)
    ensures StatusAfter(l, w.status, e, Next(l, w, e).status)
  {
    WaitingCount(w);
    match e
    case Arrive => assert (w.status + [Waiting])[|w.status| := Running] == w.status + [Running];
    case Timeout(r) =>
    case Finish(r, ok) => FinishStatus(l, w, r, ok);
  }

  lemma FinishStatus(l: Limits, w: World, r: nat, ok: bool)
    requires Valid(l) && Inv(l, w) && Has(w, r, Running)
    ensures StatusAfter(l, w.status, Finish(r, ok), Next(l, w, Finish(r, ok)).status)
  {
    FinishedKeeps(l, w, r, ok);
    if w.queue != [] {
      HandOnToHead(Finished(w, r, ok));
      HeadIsLongest(w);
      assert w.queue[0] in With(w.status, Waiting);
    } else {
      assert With(w.status, Waiting) == {};
    }
  }

  lemma FinishEnds(l: Limits, w: World, r: nat, ok: bool)
    requires Valid(l) && Inv(l, w) && Has(w, r, Running)
    ensures Inv(l, HandOn(Finished(w, r, ok))) && StatusAfter(l, w.status, Finish(r, ok), HandOn(Finished(w, r, ok)).status)
    ensures HandOn(Finished(w, r, ok)).completed == w.completed + (if ok then 1 else 0)
  {
    FinishKeepsInv(l, w, r, ok);
    FinishStatus(l, w, r, ok);
    FinishedKeeps(l, w, r, ok);
    if w.queue != [] {
      HandOnToHead(Finished(w, r, ok));
    }
  }

  lemma HeadIsLongest(w: World)
    requires QueueInv(w) && w.queue != []
    ensures Longest(w.status, w.queue[0])
  {
    Split(w.queue);
    assert w.queue[0] in w.queue;
  }

  /** In every run. */
  lemma StatusesInRuns(l: Limits, ws: seq<World>, es: seq<Event>, n: nat)
    requires Valid(l) && Run(l, ws, es) && n < |es|
    ensures StatusAfter(l, ws[n].status, es[n], ws[n + 1].status)
  {
    RunKeepsInv(l, ws, es, n);
    StepStatus(l, ws[n], es[n]);
  }

  /** A request moves only forward: refused, timed out, completed and failed are final. */
  predicate Follows(s: Status, t: Status) {
    s == t || (s.Waiting? && (t.Running? || t.TimedOut?)) || (s.Running? && (t.Completed? || t.Failed?))
  }

  lemma StatusMovesForward(l: Limits, ws: seq<World>, es: seq<Event>, n: nat, r: nat)
    requires Valid(l) && Run(l, ws, es) && n < |es| && r < |ws[n].status|
    ensures r < |ws[n + 1].status| && Follows(ws[n].status[r], ws[n + 1].status[r])
  {
    RunKeepsInv(l, ws, es, n);
    var w, e := ws[n], es[n];
    if e.Finish? {
      var v := Finished(w, e.r, e.ok);
      FinishedKeeps(l, w, e.r, e.ok);
      if v.queue != [] {
        HandOnToHead(v);
        assert Has(w, v.queue[0], Waiting);
      }
    }
  }

  // ---- The scheduler itself ----------------------------------------------------------------------------

  class ScreenshotScheduler {
    const concurrency: nat
    const maxPending: nat
    var active: int
    var queue: seq<nat>
    var settled: set<nat>
    var completed: int
    ghost var status: seq<Status>
    ghost var started: seq<nat>

    /** The test of the constructor: `None` stands for its exception. */
    static method Create(concurrency: Json.Number, queueTimeoutMs: Json.Number, maxPending: Json.Number)
      returns (s: Option<ScreenshotScheduler>)
      ensures s.Some? <==>
              && (exists i :: Whole(concurrency, i)) && (exists j :: Whole(maxPending, j))
              && Json.IsFinite(queueTimeoutMs) && Json.Real(queueTimeoutMs) > 0.0
      ensures s.Some? ==>
              && fresh(s.value) && s.value.Abstract() == Idle() && s.value.Ok()
              && Whole(concurrency, s.value.concurrency) && Whole(maxPending, s.value.maxPending)
    {
      var one, zero := Json.Finite(1.0), Json.Finite(0.0);
      if !SafeInteger(concurrency) || Json.Less(concurrency, one) || !Json.IsFinite(queueTimeoutMs)
         || !Json.Less(zero, queueTimeoutMs) || !SafeInteger(maxPending) || Json.Less(maxPending, one) {
        return None;
      }
      var i, j := Json.Real(concurrency).Floor, Json.Real(maxPending).Floor;
      assert Whole(concurrency, i) && Whole(maxPending, j);
      var scheduler := new ScreenshotScheduler(i, j);
      return Some(scheduler);
    }

    constructor (concurrency: nat, maxPending: nat)
      requires concurrency >= 1 && maxPending >= 1
      ensures Abstract() == Idle() && Limit() == Limits(concurrency, maxPending) && Ok()
    {
      this.concurrency, this.maxPending := concurrency, maxPending;
      active, queue, settled, completed, status, started := 0, [], {}, 0, [], [];
      new;
      assert With([], Running) == {} && With([], Completed) == {};
    }

    ghost function Abstract(): World
      reads this
    {
      World(active, queue, settled, completed, status, started)
    }

    ghost function Limit(): Limits { Limits(concurrency, maxPending) }

    ghost predicate Ok()
      reads this
    {
      Valid(Limit()) && Inv(Limit(), Abstract())
    }

    /** `capture` up to its first await, for request r. */
    method Arrive(r: nat) returns (refused: bool)
      requires Ok() && r == |status|
      modifies this
      ensures Ok() && Abstract() == Next(Limit(), old(Abstract()), Event.Arrive)
      ensures refused <==> status[r] == Refused
      ensures StatusAfter(Limit(), old(status), Event.Arrive, status)
      ensures queue == old(queue) + (if status[r] == Waiting then [r] else [])
      ensures started == old(started) + (if status[r] == Running then [r] else []) && completed == old(completed)
    {
      StepStatus(Limit(), Abstract(), Event.Arrive);
      StepKeepsInv(Limit(), Abstract(), Event.Arrive);
      if active >= concurrency {
        if |queue| >= maxPending {
          status := status + [Refused];
          return true;
        }
        status := status + [Waiting];
        queue := queue + [r];
      } else {
        active := active + 1;
        status := (status + [Waiting])[r := Running];
        started := started + [r];
      }
      return false;
    }

    method TimedOut(r: nat)
      requires Ok() && Has(Abstract(), r, Waiting)
      modifies this
      ensures Ok() && Abstract() == Next(Limit(), old(Abstract()), Timeout(r))
      ensures StatusAfter(Limit(), old(status), Timeout(r), status)
      ensures started == old(started) && completed == old(completed)
    {
      StepKeepsInv(Limit(), Abstract(), Timeout(r));
      settled := settled + {r};
      queue := Without(queue, r);
      status := status[r := Status.TimedOut];
    }

    /** The end of a capture, with its `finally`. */
    method Finish(r: nat, ok: bool)
      requires Ok() && Has(Abstract(), r, Running)
      modifies this
      ensures Ok() && Abstract() == Next(Limit(), old(Abstract()), Event.Finish(r, ok))
      ensures StatusAfter(Limit(), old(status), Event.Finish(r, ok), status)
      ensures completed == old(completed) + (if ok then 1 else 0)
    {
      FinishEnds(Limit(), Abstract(), r, ok);
      status := status[r := if ok then Completed else Failed];
      if ok {
        completed := completed + 1;
      }
      active := active - 1;
      assert Abstract() == Finished(old(Abstract()), r, ok);
      WakeNext();
    }

    /** The wake-up functions of the queue, each of which passes the slot on when its waiter has settled. */
    method WakeNext()
      requires forall r <- queue :: r < |status|
      modifies this
      ensures Abstract() == HandOn(old(Abstract()))
      decreases |queue|
    {
      if queue == [] {
        return;
      }
      var next := queue[0];
      assert next in queue && forall r <- queue[1..] :: r in queue;
      queue := queue[1..];
      if next in settled {
        WakeNext();
        return;
      }
      settled := settled + {next};
      active := active + 1;
      status := status[next := Running];
      started := started + [next];
    }
  }
}
