/** `DefaultNamedContextRegistry` (src/chrome/contexts.ts): browser contexts by browser and name, with
    creations, closes and counters in any interleaving of the code between awaits. */
module NamedContexts {
  import opened Wrappers

  /** The composite key: a browser's minted id and a name. */
  datatype Key = Key(browser: nat, name: string)

  datatype Entry = Entry(context: nat, tabCount: nat, resumeRefs: nat)

  /** A creation waits for the browser, or has settled and waits for its `finally`. */
  datatype Creation = Creation(key: Key, settled: bool)

  /** Creations and the contexts they create are numbered. The contexts closed by the registry, and the
      tabs really open in each context, are history. */
  datatype World = World(
    entries: map<Key, Entry>,
    inflight: map<Key, nat>,
    creations: map<nat, Creation>,
    created: nat,
    closed: seq<nat>,
    tabs: map<nat, nat>)

  datatype Event =
    | GetOrCreate(key: Key, live: bool)       // `live`: the browser still knows the tracked context
    | Created(id: nat)
    | NotCreated(id: nat)
    | Finally(id: nat)
    | CloseContext(key: Key, force: bool)
    | TabOpened(key: Key)
    | TabClosed(key: Key, context: nat)       // a tab of this context, charged to the key
    | AddRef(key: Key)
    | ReleaseRef(key: Key)

  predicate Waiting(w: World, id: nat) { id in w.creations && !w.creations[id].settled }

  predicate Enabled(w: World, e: Event) {
    match e
    case Created(id) => Waiting(w, id)
    case NotCreated(id) => Waiting(w, id)
    case Finally(id) => id in w.creations && w.creations[id].settled
    case _ => true
  }

  function Tabs(w: World, context: nat): nat { if context in w.tabs then w.tabs[context] else 0 }

  function Destroy(w: World, key: Key): World
    requires key in w.entries
  {
    w.(entries := w.entries - {key}, closed := w.closed + [w.entries[key].context])
  }

  /** `maybeDestroy` of an entry with new counters. */
  function Recount(w: World, key: Key, entry: Entry): World {
    var v := w.(entries := w.entries[key := entry]);
    if entry.tabCount > 0 || entry.resumeRefs > 0 then v else Destroy(v, key)
  }

  function Less(n: nat): nat { if n > 0 then n - 1 else 0 }

  function OneLess(tabs: map<nat, nat>, context: nat): map<nat, nat> {
    if context in tabs then tabs[context := Less(tabs[context])] else tabs
  }

  function Next(w: World, e: Event): World
    requires Enabled(w, e)
  {
    match e
    case GetOrCreate(key, live) =>
      if key in w.entries && live then w
      else
        var v := w.(entries := w.entries - {key});
        if key in w.inflight then v
        else
          v.(inflight := w.inflight[key := w.created], creations := w.creations[w.created := Creation(key, false)],
             created := w.created + 1)
    case Created(id) =>
      w.(entries := w.entries[w.creations[id].key := Entry(id, 0, 0)],
         creations := w.creations[id := w.creations[id].(settled := true)])
    case NotCreated(id) => w.(creations := w.creations[id := w.creations[id].(settled := true)])
    case Finally(id) => w.(inflight := w.inflight - {w.creations[id].key}, creations := w.creations - {id})
    case CloseContext(key, force) =>
      if key !in w.entries || (w.entries[key].tabCount > 0 && !force) then w else Destroy(w, key)
    case TabOpened(key) =>
      if key !in w.entries then w
      else
        var entry := w.entries[key];
        w.(entries := w.entries[key := entry.(tabCount := entry.tabCount + 1)],
           tabs := w.tabs[entry.context := Tabs(w, entry.context) + 1])
    case TabClosed(key, context) =>
      var v := w.(tabs := OneLess(w.tabs, context));
      if key !in w.entries then v
      else Recount(v, key, w.entries[key].(tabCount := Less(w.entries[key].tabCount)))
    case AddRef(key) =>
      if key !in w.entries then w
      else w.(entries := w.entries[key := w.entries[key].(resumeRefs := w.entries[key].resumeRefs + 1)])
    case ReleaseRef(key) =>
      if key !in w.entries then w
      else Recount(w, key, w.entries[key].(resumeRefs := Less(w.entries[key].resumeRefs)))
  }

  // ---- What every step keeps -----------------------------------------------------------------------

  predicate Distinct(s: seq<nat>) {
    forall i, j | 0 <= i < j < |s| :: s[i] != s[j]
  }

  /** Each creation is the one in flight for its key, and waits only while its key is not tracked. */
  predicate CreationsInv(w: World) {
    && (forall id | id in w.creations ::
          && id < w.created
          && w.creations[id].key in w.inflight && w.inflight[w.creations[id].key] == id)
    && (forall id | id in w.creations :: !w.creations[id].settled ==> w.creations[id].key !in w.entries)
  }

  /** Tracked contexts are finished, different for different keys, and not closed; none is closed twice. */
  predicate ContextsInv(w: World) {
    && (forall key | key in w.entries :: w.entries[key].context < w.created && !Waiting(w, w.entries[key].context))
    && (forall key | key in w.entries :: w.entries[key].context !in w.closed)
    && (forall a, b | a in w.entries && b in w.entries :: w.entries[a].context == w.entries[b].context ==> a == b)
    && (forall c <- w.closed :: c < w.created && !Waiting(w, c))
    && Distinct(w.closed)
  }

  predicate Inv(w: World) { CreationsInv(w) && ContextsInv(w) }

  lemma DestroyKeepsInv(w: World, key: Key)
    requires Inv(w) && key in w.entries
    ensures Inv(Destroy(w, key))
  {
    var v := Destroy(w, key);
    assert forall c <- v.closed :: c in w.closed || c == w.entries[key].context;
    forall i | 0 <= i < |w.closed| ensures w.closed[i] != w.entries[key].context {
      assert w.closed[i] in w.closed;
    }
  }

  lemma RecountKeepsInv(w: World, key: Key, entry: Entry)
    requires Inv(w) && key in w.entries && entry.context == w.entries[key].context
    ensures Inv(Recount(w, key, entry))
  {
    var v := w.(entries := w.entries[key := entry]);
    UpdateKeepsInv(w, key, entry);
    DestroyKeepsInv(v, key);
  }

  lemma CreatedKeepsInv(w: World, id: nat)
    requires Inv(w) && Waiting(w, id)
    ensures Inv(Next(w, Created(id)))
  {
    var v, key := Next(w, Created(id)), w.creations[id].key;
    forall k | k in w.entries ensures w.entries[k].context != id {
      assert !Waiting(w, w.entries[k].context);
    }
    assert id !in w.closed;
  }

  lemma GetOrCreateKeepsInv(w: World, key: Key, live: bool)
    requires Inv(w)
    ensures Inv(Next(w, GetOrCreate(key, live)))
  {
    if !(key in w.entries && live) {
      UntrackKeepsInv(w, key);
      if key !in w.inflight {
        NewCreationKeepsInv(w.(entries := w.entries - {key}), key);
      }
    }
  }

  lemma UntrackKeepsInv(w: World, key: Key)
    requires Inv(w)
    ensures Inv(w.(entries := w.entries - {key}))
  {}

  lemma NewCreationKeepsInv(w: World, key: Key)
    requires Inv(w) && key !in w.entries && key !in w.inflight
    ensures Inv(w.(inflight := w.inflight[key := w.created], creations := w.creations[w.created := Creation(key, false)],
                   created := w.created + 1))
  {
    assert w.created !in w.creations;
  }

  lemma FinallyKeepsInv(w: World, id: nat)
    requires Inv(w) && Enabled(w, Finally(id))
    ensures Inv(Next(w, Finally(id)))
  {}

  lemma CountersKeepInv(w: World, e: Event)
    requires Inv(w) && Enabled(w, e) && (e.TabOpened? || e.AddRef? || e.NotCreated?)
    ensures Inv(Next(w, e))
  {
    if !e.NotCreated? && e.key in w.entries {
      var entry := Next(w, e).entries[e.key];
      UpdateKeepsInv(w, e.key, entry);
    }
  }

  lemma UpdateKeepsInv(w: World, key: Key, entry: Entry)
    requires Inv(w) && key in w.entries && entry.context == w.entries[key].context
    ensures Inv(w.(entries := w.entries[key := entry]))
  {}

  lemma StepKeepsInv(w: World, e: Event)
    requires Inv(w) && Enabled(w, e)
    ensures Inv(Next(w, e))
  {
    match e
    case GetOrCreate(key, live) => GetOrCreateKeepsInv(w, key, live);
    case Created(id) => CreatedKeepsInv(w, id);
    case Finally(id) => FinallyKeepsInv(w, id);
    case CloseContext(key, force) =>
      if key in w.entries {
        DestroyKeepsInv(w, key);
      }
    case TabClosed(key, context) =>
      if key in w.entries {
        RecountKeepsInv(w.(tabs := OneLess(w.tabs, context)), key,
                        w.entries[key].(tabCount := Less(w.entries[key].tabCount)));
      }
    case ReleaseRef(key) =>
      if key in w.entries {
        RecountKeepsInv(w, key, w.entries[key].(resumeRefs := Less(w.entries[key].resumeRefs)));
      }
    case _ => CountersKeepInv(w, e);
  }

  // ---- Whole runs ------------------------------------------------------------------------------------

  function Start(): World { World(map[], map[], map[], 0, [], map[]) }

  ghost predicate Run(ws: seq<World>, es: seq<Event>) {
    && |ws| == |es| + 1 && ws[0] == Start()
    && forall i | 0 <= i < |es| :: Enabled(ws[i], es[i]) && ws[i + 1] == Next(ws[i], es[i])
  }

  lemma {:induction false} RunKeepsInv(ws: seq<World>, es: seq<Event>, n: nat)
    requires Run(ws, es) && n < |ws|
    ensures Inv(ws[n])
  {
    if n > 0 {
      RunKeepsInv(ws, es, n - 1);
      StepKeepsInv(ws[n - 1], es[n - 1]);
    }
  }

  /** At most one creation is under way for a key, and its context never takes the place of a tracked one. */
  lemma OneCreation(ws: seq<World>, es: seq<Event>, n: nat, a: nat, b: nat)
    requires Run(ws, es) && n < |ws| && Waiting(ws[n], a)
    ensures ws[n].creations[a].key !in ws[n].entries
    ensures Waiting(ws[n], b) && ws[n].creations[a].key == ws[n].creations[b].key ==> a == b
  {
    RunKeepsInv(ws, es, n);
  }

  /** No context is closed twice, and none that is still tracked. */
  lemma ClosedOnce(ws: seq<World>, es: seq<Event>, n: nat)
    requires Run(ws, es) && n < |ws|
    ensures Distinct(ws[n].closed)
    ensures forall key | key in ws[n].entries :: ws[n].entries[key].context !in ws[n].closed
  {
    RunKeepsInv(ws, es, n);
  }

  /** What a step closes is the context of its key; a dropped tab or reference closes it exactly when
      both counters have come to zero, a request exactly when no tab is counted or it is forced. */
  lemma ClosesOnlyWhen(w: World, e: Event, key: Key)
    requires Enabled(w, e) && key in w.entries
    ensures Next(w, e).closed != w.closed ==> e.CloseContext? || e.TabClosed? || e.ReleaseRef?
    ensures var entry, closes := w.entries[key], Next(w, e).closed == w.closed + [w.entries[key].context];
            && (forall context :: e == TabClosed(key, context) ==> (closes <==> entry.tabCount <= 1 && entry.resumeRefs == 0))
            && (e == ReleaseRef(key) ==> (closes <==> entry.tabCount == 0 && entry.resumeRefs <= 1))
            && (e == CloseContext(key, false) ==> (closes <==> entry.tabCount == 0))
            && (e == CloseContext(key, true) ==> closes)
            && (closes || Next(w, e).closed == w.closed || e.key != key)
  {
    assert w.closed != w.closed + [w.entries[key].context];
  }

  // ---- References ----------------------------------------------------------------------------------------

  /** What may take a tracked context away although a reference is held. */
  predicate LetsGo(e: Event, key: Key) {
    e == ReleaseRef(key) || (e.CloseContext? && e.key == key) || e == GetOrCreate(key, false)
  }

  /** References added to the key in the steps from m up to n. */
  function RefsAdded(es: seq<Event>, key: Key, m: nat, n: nat): nat
    requires n <= |es|
  {
    if n <= m then 0 else RefsAdded(es, key, m, n - 1) + (if es[n - 1] == AddRef(key) then 1 else 0)
  }

  lemma StepKeepsTracked(w: World, e: Event, key: Key)
    requires Inv(w) && Enabled(w, e) && key in w.entries && !LetsGo(e, key)
    requires w.entries[key].resumeRefs > 0 || e == AddRef(key)
    ensures key in Next(w, e).entries && Next(w, e).entries[key].context == w.entries[key].context
  {}

  lemma StepCountsRefs(w: World, e: Event, key: Key)
    requires Inv(w) && Enabled(w, e) && key in w.entries && key in Next(w, e).entries && !LetsGo(e, key)
    ensures Next(w, e).entries[key].resumeRefs == w.entries[key].resumeRefs + (if e == AddRef(key) then 1 else 0)
  {}

  /** The context is tracked still, with all references added since. */
  predicate Held(w: World, context: nat, refs: nat, key: Key) {
    key in w.entries && w.entries[key].context == context && w.entries[key].resumeRefs == refs
  }

  lemma StepHolds(w: World, e: Event, context: nat, refs: nat, key: Key)
    requires Inv(w) && Enabled(w, e) && Held(w, context, refs, key) && !LetsGo(e, key) && (refs > 0 || e == AddRef(key))
    ensures Held(Next(w, e), context, refs + (if e == AddRef(key) then 1 else 0), key)
  {
    StepKeepsTracked(w, e, key);
    StepCountsRefs(w, e, key);
  }

  lemma RunStepHolds(ws: seq<World>, es: seq<Event>, n: nat, context: nat, refs: nat, key: Key)
    requires Run(ws, es) && n < |es| && Held(ws[n], context, refs, key) && !LetsGo(es[n], key)
    requires refs > 0 || es[n] == AddRef(key)
    ensures Held(ws[n + 1], context, refs + (if es[n] == AddRef(key) then 1 else 0), key)
  {
    RunKeepsInv(ws, es, n);
    StepHolds(ws[n], es[n], context, refs, key);
  }

  lemma {:induction false} RefsHeld(ws: seq<World>, es: seq<Event>, m: nat, n: nat, context: nat, refs: nat, key: Key)
    requires Run(ws, es) && m < n < |ws| && Held(ws[m], context, refs, key) && es[m] == AddRef(key)
    requires forall i | m <= i < n :: !LetsGo(es[i], key)
    ensures RefsAdded(es, key, m, n) > 0 && Held(ws[n], context, refs + RefsAdded(es, key, m, n), key)
  {
    if m < n - 1 {
      RefsHeld(ws, es, m, n - 1, context, refs, key);
    }
    RunStepHolds(ws, es, n - 1, context, refs + RefsAdded(es, key, m, n - 1), key);
  }

  /** A reference keeps the context open, whatever tabs come and go, until one is released or the context is closed
      on request or found dead; each reference added is counted. */
  lemma ReferenceHolds(ws: seq<World>, es: seq<Event>, m: nat, n: nat, key: Key)
    requires Run(ws, es) && m < n < |ws| && key in ws[m].entries && es[m] == AddRef(key)
    requires forall i | m <= i < n :: !LetsGo(es[i], key)
    ensures RefsAdded(es, key, m, n) > 0
    ensures Held(ws[n], ws[m].entries[key].context, ws[m].entries[key].resumeRefs + RefsAdded(es, key, m, n), key)
    ensures ws[m].entries[key].context !in ws[n].closed
  {
    RefsHeld(ws, es, m, n, ws[m].entries[key].context, ws[m].entries[key].resumeRefs, key);
    RunKeepsInv(ws, es, n);
    NotClosed(ws[n], key);
  }

  lemma NotClosed(w: World, key: Key)
    requires Inv(w) && key in w.entries
    ensures w.entries[key].context !in w.closed
  {}

  /** After a creation that failed the next request for the key begins a new one. */
  lemma FailedCreationRetried(w: World, id: nat, live: bool)
    requires Inv(w) && Waiting(w, id)
    ensures var key := w.creations[id].key;
            var w1 := Next(w, NotCreated(id));
            && Enabled(w1, Finally(id))
            && var w2 := Next(w1, Finally(id));
               var v := Next(w2, GetOrCreate(key, live));
               && key !in w2.inflight && id !in w2.creations && w2.entries == w.entries
               && v.inflight == w2.inflight[key := w.created] && v.creations == w2.creations[w.created := Creation(key, false)]
               && v.created == w.created + 1
  {
    var key := w.creations[id].key;
    assert w.entries - {key} == w.entries;
  }

  // ---- Counted and real tabs ---------------------------------------------------------------------------

  predicate CountsRight(w: World) {
    && (forall key | key in w.entries :: w.entries[key].tabCount == Tabs(w, w.entries[key].context))
    && (forall c | c in w.tabs :: c < w.created && !Waiting(w, c))
  }

  /** A context that a dropped tab or reference closes has no tab open. */
  predicate ClosesEmpty(w: World, e: Event)
    requires Enabled(w, e)
  {
    (e.TabClosed? || e.ReleaseRef?) && e.key in w.entries && Next(w, e).closed != w.closed ==>
      Tabs(Next(w, e), w.entries[e.key].context) == 0
  }

  /** The context is tracked for no key. */
  predicate Untracked(w: World, context: nat) {
    forall key | key in w.entries :: w.entries[key].context != context
  }

  /** The tab is charged to its own context; or its context has no count to keep, and the one tracked for
      the key, if any, has no tab to lose. */
  predicate OwnTab(w: World, e: Event) {
    e.TabClosed? ==>
      || (e.key in w.entries && w.entries[e.key].context == e.context)
      || ((Untracked(w, e.context) || Tabs(w, e.context) == 0)
          && (e.key in w.entries ==> Tabs(w, w.entries[e.key].context) == 0))
  }

  lemma OwnTabKeepsCounts(w: World, key: Key, context: nat)
    requires Inv(w) && CountsRight(w) && OwnTab(w, TabClosed(key, context))
    ensures CountsRight(Next(w, TabClosed(key, context))) && ClosesEmpty(w, TabClosed(key, context))
  {}

  lemma OtherTabBreaksCounts(w: World, key: Key, context: nat)
    requires Inv(w) && CountsRight(w) && !OwnTab(w, TabClosed(key, context))
    ensures !(CountsRight(Next(w, TabClosed(key, context))) && ClosesEmpty(w, TabClosed(key, context)))
  {
    var v := Next(w, TabClosed(key, context));
    if key in w.entries && Tabs(w, w.entries[key].context) > 0 {
      assert w.entries[key].context != context;
      assert Tabs(v, w.entries[key].context) == Tabs(w, w.entries[key].context);
      assert v.closed != w.closed || v.entries[key].tabCount < Tabs(v, w.entries[key].context);
    } else {
      var k :| k in w.entries && w.entries[k].context == context;
      assert k != key && k in v.entries && v.entries[k] == w.entries[k];
      assert Tabs(v, context) < w.entries[k].tabCount;
    }
  }

  lemma OtherStepsKeepCounts(w: World, e: Event)
    requires Inv(w) && CountsRight(w) && Enabled(w, e) && !e.TabClosed?
    ensures CountsRight(Next(w, e)) && ClosesEmpty(w, e)
  {
    if e.Created? {
      assert e.id !in w.tabs;
    }
  }

  /** One step keeps the counts right, and closes only what is empty, exactly when a tab that closes is
      charged as it should be. */
  lemma StepKeepsCountsIff(w: World, e: Event)
    requires Inv(w) && CountsRight(w) && Enabled(w, e)
    ensures CountsRight(Next(w, e)) && ClosesEmpty(w, e) <==> OwnTab(w, e)
  {
    if !e.TabClosed? {
      OtherStepsKeepCounts(w, e);
    } else if OwnTab(w, e) {
      OwnTabKeepsCounts(w, e.key, e.context);
    } else {
      OtherTabBreaksCounts(w, e.key, e.context);
    }
  }

  /** So far every count was right and every context that lost its last tab or reference was empty. */
  ghost predicate RightSoFar(ws: seq<World>, es: seq<Event>, n: nat)
    requires Run(ws, es) && n < |ws|
  {
    && (forall i | 0 <= i <= n :: CountsRight(ws[i]))
    && (forall i | 0 <= i < n :: ClosesEmpty(ws[i], es[i]))
  }

  /** Over whole runs: the counts stay right and only empty contexts are closed by a dropped tab or
      reference if and only if every tab that closes is charged as it should be. */
  lemma {:induction false} RunKeepsCountsIff(ws: seq<World>, es: seq<Event>, n: nat)
    requires Run(ws, es) && n < |ws|
    ensures RightSoFar(ws, es, n) <==> forall i | 0 <= i < n :: OwnTab(ws[i], es[i])
  {
    if n > 0 {
      RunKeepsCountsIff(ws, es, n - 1);
      RunKeepsInv(ws, es, n - 1);
      assert ws[n] == Next(ws[n - 1], es[n - 1]);
      assert RightSoFar(ws, es, n) <==>
             RightSoFar(ws, es, n - 1) && CountsRight(ws[n]) && ClosesEmpty(ws[n - 1], es[n - 1]);
      if CountsRight(ws[n - 1]) {
        StepKeepsCountsIff(ws[n - 1], es[n - 1]);
      }
    }
  }

  /** If each tab that closes is charged as it should be, a dropped tab or reference closes a context only
      when no tab is really open in it. */
  lemma ClosesEmptyContext(ws: seq<World>, es: seq<Event>, n: nat, key: Key)
    requires Run(ws, es) && n < |es| && forall i | 0 <= i <= n :: OwnTab(ws[i], es[i])
    requires key in ws[n].entries && (es[n].ReleaseRef? || es[n].TabClosed?) && es[n].key == key
    requires ws[n + 1].closed != ws[n].closed
    ensures Tabs(ws[n + 1], ws[n].entries[key].context) == 0
  {
    RunKeepsCountsIff(ws, es, n + 1);
    assert ClosesEmpty(ws[n], es[n]);
  }

  /** A forced close with a tab open, and that tab's close after it: the late close is charged to nothing. */
  lemma ForcedCloseIsRight(key: Key) returns (ws: seq<World>, es: seq<Event>)
    ensures Run(ws, es) && |es| > 0 && es[|es| - 1] == TabClosed(key, 0) && key !in ws[|es| - 1].entries
    ensures Tabs(ws[|es| - 1], 0) == 1 && RightSoFar(ws, es, |es|)
  {
    ws, es := OneTab(key);
    var w1 := World(map[], map[], map[], 1, [0], map[0 := 1]);
    ws, es := Extend(ws, es, CloseContext(key, true), w1);
    var w2 := World(map[], map[], map[], 1, [0], map[0 := 0]);
    ws, es := Extend(ws, es, TabClosed(key, 0), w2);
    forall i | 0 <= i < |es| ensures OwnTab(ws[i], es[i]) {
      assert i == |es| - 1 || !es[i].TabClosed?;
    }
    RunKeepsCountsIff(ws, es, |es|);
  }

  /** Otherwise it can close a context that has a tab: the late close of a tab of a context that was
      dropped is charged to the context made after it under the same key. */
  lemma LateTabClosesNewContext(key: Key) returns (ws: seq<World>, es: seq<Event>)
    ensures Run(ws, es) && |es| > 0 && es[|es| - 1] == TabClosed(key, 0) && !OwnTab(ws[|es| - 1], es[|es| - 1])
    ensures ws[|es|].closed == [1] && Tabs(ws[|es|], 1) == 1
  {
    ws, es := OneTab(key);
    var w5 := World(map[], map[key := 1], map[1 := Creation(key, false)], 2, [], map[0 := 1]);
    var w6 := World(map[key := Entry(1, 0, 0)], map[key := 1], map[1 := Creation(key, true)], 2, [], map[0 := 1]);
    var w7 := World(map[key := Entry(1, 0, 0)], map[], map[], 2, [], map[0 := 1]);
    var w8 := World(map[key := Entry(1, 1, 0)], map[], map[], 2, [], map[0 := 1, 1 := 1]);
    var w9 := World(map[], map[], map[], 2, [1], map[0 := 0, 1 := 1]);
    ws, es := Extend(ws, es, GetOrCreate(key, false), w5);
    ws, es := Extend(ws, es, Created(1), w6);
    ws, es := Extend(ws, es, Finally(1), w7);
    ws, es := Extend(ws, es, TabOpened(key), w8);
    LateTab(w8, w9, key);
    ws, es := Extend(ws, es, TabClosed(key, 0), w9);
  }

  lemma LateTab(w: World, v: World, key: Key)
    requires w == World(map[key := Entry(1, 1, 0)], map[], map[], 2, [], map[0 := 1, 1 := 1])
    requires v == World(map[], map[], map[], 2, [1], map[0 := 0, 1 := 1])
    ensures v == Next(w, TabClosed(key, 0))
  {
    assert Next(w, TabClosed(key, 0)).entries == map[];
  }

  lemma OneTab(key: Key) returns (ws: seq<World>, es: seq<Event>)
    ensures Run(ws, es) && ws[|es|] == World(map[key := Entry(0, 1, 0)], map[], map[], 1, [], map[0 := 1])
    ensures forall e <- es :: !e.TabClosed?
  {
    var w1 := World(map[], map[key := 0], map[0 := Creation(key, false)], 1, [], map[]);
    var w2 := World(map[key := Entry(0, 0, 0)], map[key := 0], map[0 := Creation(key, true)], 1, [], map[]);
    var w3 := World(map[key := Entry(0, 0, 0)], map[], map[], 1, [], map[]);
    var w4 := World(map[key := Entry(0, 1, 0)], map[], map[], 1, [], map[0 := 1]);
    ws, es := Extend([Start()], [], GetOrCreate(key, false), w1);
    ws, es := Extend(ws, es, Created(0), w2);
    ws, es := Extend(ws, es, Finally(0), w3);
    ws, es := Extend(ws, es, TabOpened(key), w4);
  }

  lemma Extend(ws: seq<World>, es: seq<Event>, e: Event, v: World) returns (ws1: seq<World>, es1: seq<Event>)
    requires Run(ws, es) && Enabled(ws[|es|], e) && v == Next(ws[|es|], e)
    ensures Run(ws1, es1) && es1 == es + [e] && |es1| == |es| + 1 && ws1[|es|] == ws[|es|] && ws1[|es1|] == v
  {
    ws1, es1 := ws + [v], es + [e];
  }

  // ---- The registry itself -----------------------------------------------------------------------------

  class Registry {
    var entries: map<Key, Entry>
    var inflight: map<Key, nat>
    var created: nat
    ghost var creations: map<nat, Creation>
    ghost var closed: seq<nat>
    ghost var tabs: map<nat, nat>

    constructor ()
      ensures Abstract() == Start()
    {
      entries, inflight, created := map[], map[], 0;
      creations, closed, tabs := map[], [], map[];
    }

    ghost function Abstract(): World
      reads this
    {
      World(entries, inflight, creations, created, closed, tabs)
    }

    /** The tracked context, or the creation to wait for. */
    method GetOrCreate(key: Key, live: bool) returns (context: Option<nat>, wait: Option<nat>)
      modifies this`entries, this`inflight, this`creations, this`created
      ensures Abstract() == Next(old(Abstract()), Event.GetOrCreate(key, live))
      ensures entries == if context.Some? then old(entries) else old(entries) - {key}
      ensures if context.Some? || key in old(inflight) then unchanged(`inflight, `creations, `created)
              else
                && inflight == old(inflight)[key := old(created)] && created == old(created) + 1
                && creations == old(creations)[old(created) := Creation(key, false)]
      ensures context.Some? <==> key in old(entries) && live
      ensures context.Some? ==> context.value == entries[key].context
      ensures context.None? ==> key in inflight && wait == Some(inflight[key])
    {
      context, wait := None, None;
      if key in entries {
        if live {
          context := Some(entries[key].context);
          return;
        }
      }
      entries := entries - {key};
      if key !in inflight {
        inflight := inflight[key := created];
        creations := creations[created := Creation(key, false)];
        created := created + 1;
      }
      wait := Some(inflight[key]);
    }

    method CreationDone(id: nat, key: Key)
      requires Waiting(Abstract(), id) && creations[id].key == key
      modifies this`entries, this`creations
      ensures Abstract() == Next(old(Abstract()), Created(id))
      ensures entries == old(entries)[key := Entry(id, 0, 0)] && creations == old(creations)[id := Creation(key, true)]
    {
      entries := entries[key := Entry(id, 0, 0)];
      creations := creations[id := creations[id].(settled := true)];
    }

    /** `createBrowserContext` threw. */
    method CreationFailed(id: nat, key: Key)
      requires Waiting(Abstract(), id) && creations[id].key == key
      modifies this`creations
      ensures Abstract() == Next(old(Abstract()), NotCreated(id))
      ensures creations == old(creations)[id := Creation(key, true)]
    {
      creations := creations[id := creations[id].(settled := true)];
    }

    method CreationFinally(id: nat, key: Key)
      requires id in creations && creations[id] == Creation(key, true)
      modifies this`inflight, this`creations
      ensures Abstract() == Next(old(Abstract()), Finally(id))
      ensures inflight == old(inflight) - {key} && creations == old(creations) - {id}
    {
      inflight := inflight - {key};
      creations := creations - {id};
    }

    /** The context to close, or whether open tabs forbid it. */
    method Close(key: Key, force: bool) returns (context: Option<nat>, refused: bool)
      modifies this`entries, this`closed
      ensures Abstract() == Next(old(Abstract()), CloseContext(key, force))
      ensures context == if key !in old(entries) || refused then None else Some(old(entries)[key].context)
      ensures entries == if refused then old(entries) else old(entries) - {key}
      ensures refused <==> key in old(entries) && old(entries)[key].tabCount > 0 && !force
      ensures closed == old(closed) + (if context.Some? then [context.value] else [])
    {
      if key !in entries {
        return None, false;
      }
      if entries[key].tabCount > 0 && !force {
        return None, true;
      }
      context, refused := Some(entries[key].context), false;
      closed := closed + [entries[key].context];
      entries := entries - {key};
    }

    method IncrementTabCount(key: Key)
      modifies this`entries, this`tabs
      ensures Abstract() == Next(old(Abstract()), TabOpened(key))
      ensures entries == if key !in old(entries) then old(entries)
                         else old(entries)[key := old(entries)[key].(tabCount := old(entries)[key].tabCount + 1)]
    {
      if key in entries {
        var entry := entries[key];
        tabs := tabs[entry.context := Tabs(Abstract(), entry.context) + 1];
        entries := entries[key := entry.(tabCount := entry.tabCount + 1)];
      }
    }

    method DecrementTabCount(key: Key, ghost tab: nat) returns (destroyed: bool)
      modifies this`entries, this`tabs, this`closed
      ensures Abstract() == Next(old(Abstract()), TabClosed(key, tab))
      ensures destroyed <==> key in old(entries) && old(entries)[key].tabCount <= 1 && old(entries)[key].resumeRefs == 0
      ensures closed == old(closed) + (if destroyed then [old(entries)[key].context] else [])
      ensures entries == if key !in old(entries) then old(entries) else if destroyed then old(entries) - {key}
                         else old(entries)[key := old(entries)[key].(tabCount := Less(old(entries)[key].tabCount))]
    {
      tabs := OneLess(tabs, tab);
      if key !in entries {
        return false;
      }
      entries := entries[key := entries[key].(tabCount := Less(entries[key].tabCount))];
      destroyed := MaybeDestroy(key);
    }

    method AddResumeRef(key: Key)
      modifies this`entries
      ensures Abstract() == Next(old(Abstract()), AddRef(key))
      ensures entries == if key !in old(entries) then old(entries)
                         else old(entries)[key := old(entries)[key].(resumeRefs := old(entries)[key].resumeRefs + 1)]
    {
      if key in entries {
        entries := entries[key := entries[key].(resumeRefs := entries[key].resumeRefs + 1)];
      }
    }

    method ReleaseResumeRef(key: Key) returns (destroyed: bool)
      modifies this`entries, this`closed
      ensures Abstract() == Next(old(Abstract()), ReleaseRef(key))
      ensures destroyed <==> key in old(entries) && old(entries)[key].tabCount == 0 && old(entries)[key].resumeRefs <= 1
      ensures closed == old(closed) + (if destroyed then [old(entries)[key].context] else [])
      ensures entries == if key !in old(entries) then old(entries) else if destroyed then old(entries) - {key}
                         else old(entries)[key := old(entries)[key].(resumeRefs := Less(old(entries)[key].resumeRefs))]
    {
      if key !in entries {
        return false;
      }
      entries := entries[key := entries[key].(resumeRefs := Less(entries[key].resumeRefs))];
      destroyed := MaybeDestroy(key);
    }

    method MaybeDestroy(key: Key) returns (destroyed: bool)
      requires key in entries
      modifies this`entries, this`closed
      ensures destroyed <==> old(entries)[key].tabCount == 0 && old(entries)[key].resumeRefs == 0
      ensures Abstract() == if destroyed then Destroy(old(Abstract()), key) else old(Abstract())
      ensures entries == if destroyed then old(entries) - {key} else old(entries)
      ensures closed == old(closed) + (if destroyed then [old(entries)[key].context] else [])
    {
      if entries[key].tabCount > 0 || entries[key].resumeRefs > 0 {
        return false;
      }
      closed := closed + [entries[key].context];
      entries := entries - {key};
      return true;
    }
  }
}
