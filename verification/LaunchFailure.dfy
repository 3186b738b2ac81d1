/** `notifyInitialAutoLaunchFailure` of `CDPClient` (src/cdp/client.ts): failed managed connects in any
    number and order report to one asynchronous handler. */
module LaunchFailure {
  import opened Wrappers

  datatype Disposition = Retryable | Consumed | Threw

  /** Calls of the handler are numbered; `ended` holds those whose `finally` has not run yet. */
  datatype World = World(succeeded: bool, notified: bool, notification: Option<nat>, running: set<nat>,
    ended: set<nat>, calls: nat)

  datatype Event = Succeed | Fail | Answer(call: nat, disposition: Disposition) | Finally(call: nat)

  predicate Enabled(w: World, e: Event) {
    match e
    case Answer(call, _) => call in w.running
    case Finally(call) => call in w.ended
    case _ => true
  }

  /** A failure calls the handler; otherwise it returns, or waits for the call under way. */
  predicate Calls(w: World, e: Event) { e.Fail? && !w.succeeded && !w.notified && w.notification.None? }

  function Next(w: World, e: Event): World {
    match e
    case Succeed => w.(succeeded := true)
    case Fail =>
      if Calls(w, e) then w.(notification := Some(w.calls), running := w.running + {w.calls}, calls := w.calls + 1) else w
    case Answer(call, disposition) =>
      w.(running := w.running - {call}, ended := w.ended + {call}, notified := w.notified || disposition.Consumed?)
    case Finally(call) =>
      w.(ended := w.ended - {call}, notification := if w.notification == Some(call) then None else w.notification)
  }

  predicate Inv(w: World) {
    && (forall c <- w.running :: w.notification == Some(c) && c !in w.ended)
    && (forall c <- w.ended :: w.notification == Some(c))
    && (w.notification.Some? ==> w.notification.value < w.calls)
    && (w.notification.Some? ==> w.notification.value in w.running || w.notification.value in w.ended)
  }

  ghost predicate Run(ws: seq<World>, es: seq<Event>) {
    && |ws| == |es| + 1 && ws[0] == World(false, false, None, {}, {}, 0)
    && forall i | 0 <= i < |es| :: Enabled(ws[i], es[i]) && ws[i + 1] == Next(ws[i], es[i])
  }

  lemma {:induction false} RunKeepsInv(ws: seq<World>, es: seq<Event>, n: nat)
    requires Run(ws, es) && n < |ws|
    ensures Inv(ws[n])
  {
    if n > 0 {
      RunKeepsInv(ws, es, n - 1);
      assert Enabled(ws[n - 1], es[n - 1]);
    }
  }

  predicate Ends(e: Event) { e.Succeed? || (e.Answer? && e.disposition == Consumed) }

  /** The two flags say exactly whether a success or a consumed failure has happened. */
  lemma {:induction false} FlagsTell(ws: seq<World>, es: seq<Event>, n: nat)
    requires Run(ws, es) && n < |ws|
    ensures ws[n].succeeded || ws[n].notified <==> exists i | 0 <= i < n :: Ends(es[i])
  {
    if n > 0 {
      FlagsTell(ws, es, n - 1);
      var w, e := ws[n - 1], es[n - 1];
      assert ws[n] == Next(w, e);
      assert (ws[n].succeeded || ws[n].notified) <==> (w.succeeded || w.notified || Ends(e));
    }
  }

  /** The handler is called only while no call runs, before any success, and before any consumed failure. */
  lemma CalledAloneAndInTime(ws: seq<World>, es: seq<Event>, n: nat)
    requires Run(ws, es) && n < |es| && Calls(ws[n], es[n])
    ensures ws[n].running == {} && ws[n + 1].running == {ws[n].calls}
    ensures forall i | 0 <= i < n :: !Ends(es[i])
  {
    RunKeepsInv(ws, es, n);
    FlagsTell(ws, es, n);
    assert ws[n].running == {};
  }

  /** Exactly when a failure calls the handler: nothing has succeeded, no failure was consumed, and no call is
      under way, be it in the handler or just before its `finally`. Other steps call nothing. */
  lemma HandlerCalledIff(ws: seq<World>, es: seq<Event>, n: nat)
    requires Run(ws, es) && n < |es|
    ensures ws[n + 1].calls == ws[n].calls + 1
            <==> es[n].Fail? && (forall i | 0 <= i < n :: !Ends(es[i])) && ws[n].running == {} && ws[n].ended == {}
    ensures ws[n + 1].calls == ws[n].calls + 1 ==> ws[n + 1].running == {ws[n].calls}
    ensures ws[n + 1].calls == ws[n].calls + 1 || ws[n + 1].calls == ws[n].calls
  {
    RunKeepsInv(ws, es, n);
    FlagsTell(ws, es, n);
    CallsIff(ws[n], es[n]);
  }

  lemma CallsIff(w: World, e: Event)
    requires Inv(w)
    ensures Calls(w, e) <==> e.Fail? && !(w.succeeded || w.notified) && w.running == {} && w.ended == {}
  {
    if w.notification.Some? {
      assert w.running != {} || w.ended != {};
    } else {
      assert w.running == {} && w.ended == {};
    }
  }

  /** A call that is answered ends with its `finally`, and the next failure that comes then may call again. */
  lemma CallEnds(w: World, call: nat, disposition: Disposition)
    requires Inv(w) && call in w.running
    ensures var v := Next(Next(w, Answer(call, disposition)), Finally(call));
            && Enabled(Next(w, Answer(call, disposition)), Finally(call))
            && v.running == {} && v.ended == {} && v.notification == None
            && v.notified == (w.notified || disposition == Consumed) && v.succeeded == w.succeeded && v.calls == w.calls
  {
    assert w.running == {call} && w.ended == {};
  }

  /** Connects succeed and fail at any time, and a call under way can answer and then end. */
  lemma AnyTime(w: World, call: nat, disposition: Disposition)
    ensures Enabled(w, Succeed) && Enabled(w, Fail)
    ensures call in w.running <==> Enabled(w, Answer(call, disposition))
    ensures call in w.ended <==> Enabled(w, Finally(call))
    ensures Next(w, Succeed) == w.(succeeded := true)
  {}

  /** At no time do two calls run. */
  lemma NeverTwoCalls(ws: seq<World>, es: seq<Event>, n: nat, a: nat, b: nat)
    requires Run(ws, es) && n < |ws| && a in ws[n].running && b in ws[n].running
    ensures a == b
  {
    RunKeepsInv(ws, es, n);
  }

  class FailureNotice {
    var succeeded: bool
    var notified: bool
    var notification: Option<nat>
    ghost var running: set<nat>
    ghost var ended: set<nat>
    ghost var calls: nat

    constructor ()
      ensures Abstract() == World(false, false, None, {}, {}, 0)
    {
      succeeded, notified, notification := false, false, None;
      running, ended, calls := {}, {}, 0;
    }

    ghost function Abstract(): World
      reads this
    {
      World(succeeded, notified, notification, running, ended, calls)
    }

    /** The code up to the first await; `call` numbers the notification. */
    method Notify(call: nat) returns (started: bool)
      requires call == calls
      modifies this`notification, this`running, this`calls
      ensures Abstract() == Next(old(Abstract()), Fail)
      ensures started <==> !succeeded && !notified && old(notification).None?
      ensures started ==> notification == Some(call) && running == old(running) + {call} && calls == old(calls) + 1
      ensures !started ==> unchanged(this)
    {
      if succeeded || notified || notification.Some? {
        return false;
      }
      notification := Some(call);
      running := running + {call};
      calls := calls + 1;
      return true;
    }

    method HandlerAnswered(call: nat, disposition: Disposition)
      requires call in running
      modifies this`notified, this`running, this`ended
      ensures Abstract() == Next(old(Abstract()), Answer(call, disposition))
      ensures notified == (old(notified) || disposition == Consumed)
      ensures running == old(running) - {call} && ended == old(ended) + {call}
    {
      if disposition == Consumed {
        notified := true;
      }
      running := running - {call};
      ended := ended + {call};
    }

    method Settle(call: nat)
      requires call in ended
      modifies this`notification, this`ended
      ensures Abstract() == Next(old(Abstract()), Finally(call))
      ensures notification == if old(notification) == Some(call) then None else old(notification)
      ensures ended == old(ended) - {call}
    {
      if notification == Some(call) {
        notification := None;
      }
      ended := ended - {call};
    }
  }
}
