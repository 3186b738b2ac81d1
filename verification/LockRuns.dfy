/** The controller lock (src/chrome/controller-lock.ts) with each "read the metadata, decide, unlink"
    and each heartbeat rewrite as one step of one process, in any interleaving. */
module LockRuns {
  import opened Wrappers

  /** Process ids are those of one host, and are used again after a process has ended. */
  datatype Process = Process(host: string, pid: int)

  datatype Metadata = Metadata(pid: int, host: string, startedAt: int, heartbeatAt: int)

  /** The linked lock file; the serial number tells one creation from another. */
  datatype LockFile = LockFile(serial: nat, metadata: Metadata)

  /** A contender found this owner, of its own host and stale, and has probed it in vain so often. */
  datatype Suspicion = Suspicion(owner: Metadata, failed: nat)

  datatype World = World(
    now: int,
    lock: Option<LockFile>,
    alive: set<Process>,
    handles: map<nat, Process>,      // not released, of live processes
    evicted: set<nat>,               // taken over by a health check
    suspicions: map<Process, Suspicion>,
    created: nat)

  datatype Settings = Settings(graceMs: int, probeAttempts: int)

  /** `Math.max(1, attempts)`. */
  function Probes(c: Settings): nat { if c.probeAttempts < 1 then 1 else c.probeAttempts }

  datatype Event =
    | Tick(ms: nat)
    | StartProcess(p: Process)
    | Crash(p: Process)
    | Acquire(p: Process)              // one turn of the loop of `acquireControllerLock`
    | Suspect(p: Process)              // the duplicate error of a stale owner, caught by the health check
    | Probe(p: Process, reachable: bool)
    | TakeOver(p: Process)             // `unlinkStaleLock`
    | Heartbeat(p: Process)
    | Release(serial: nat)
    | ReleaseAgain(p: Process)         // of a handle released before: it compares the process id only

  predicate Enabled(c: Settings, w: World, e: Event) {
    match e
    case Tick(_) => true
    case StartProcess(p) => p !in w.alive
    case Crash(p) => p in w.alive
    case Acquire(p) => p in w.alive && p !in w.suspicions
    case Suspect(p) =>
      && p in w.alive && p !in w.suspicions && w.lock.Some?
      && SeenAlive(w, p, w.lock.value.metadata)
      && w.lock.value.metadata.host == p.host
      && w.now - w.lock.value.metadata.heartbeatAt >= c.graceMs
    case Probe(p, _) => p in w.suspicions && w.suspicions[p].failed < Probes(c)
    case TakeOver(p) => p in w.suspicions && w.suspicions[p].failed == Probes(c)
    case Heartbeat(p) => p in w.alive
    case Release(serial) => serial in w.handles
    case ReleaseAgain(p) => p in w.alive
  }

  /** `isPidAlive`: it looks at the caller's own host. */
  predicate SeenAlive(w: World, p: Process, m: Metadata) { Process(p.host, m.pid) in w.alive }

  function Next(w: World, e: Event): World {
    match e
    case Tick(ms) => w.(now := w.now + ms)
    case StartProcess(p) => w.(alive := w.alive + {p})
    case Crash(p) =>
      w.(alive := w.alive - {p}, suspicions := w.suspicions - {p},
         handles := map s | s in w.handles && w.handles[s] != p :: w.handles[s])
    case Acquire(p) =>
      if w.lock.None? then
        w.(lock := Some(LockFile(w.created, Metadata(p.pid, p.host, w.now, w.now))),
           handles := w.handles[w.created := p], created := w.created + 1)
      else if SeenAlive(w, p, w.lock.value.metadata) then w
      else w.(lock := None)
    case Suspect(p) =>
      if w.lock.None? then w
      else w.(suspicions := w.suspicions[p := Suspicion(w.lock.value.metadata, 0)])
    case Probe(p, reachable) =>
      if p !in w.suspicions then w
      else if reachable then w.(suspicions := w.suspicions - {p})
      else w.(suspicions := w.suspicions[p := w.suspicions[p].(failed := w.suspicions[p].failed + 1)])
    case TakeOver(p) =>
      if !Removes(w, p) then w.(suspicions := w.suspicions - {p})
      else w.(suspicions := w.suspicions - {p}, lock := None, evicted := w.evicted + {w.lock.value.serial})
    case Heartbeat(p) =>
      if w.lock.None? || w.lock.value.metadata.pid != p.pid then w
      else w.(lock := Some(w.lock.value.(metadata := w.lock.value.metadata.(heartbeatAt := w.now))))
    case Release(serial) =>
      if serial !in w.handles then w
      else
        w.(handles := w.handles - {serial},
           lock := if w.lock.Some? && w.lock.value.metadata.pid != w.handles[serial].pid then w.lock else None)
    case ReleaseAgain(p) => w.(lock := if w.lock.Some? && w.lock.value.metadata.pid != p.pid then w.lock else None)
  }

  /** The compare of `unlinkStaleLock` succeeds. */
  predicate Removes(w: World, p: Process) {
    && p in w.suspicions && w.lock.Some?
    && w.lock.value.metadata.pid == w.suspicions[p].owner.pid
    && w.lock.value.metadata.startedAt == w.suspicions[p].owner.startedAt
  }

  // ---- Exclusion -----------------------------------------------------------------------------------

  /** The handle is neither released nor taken over, and its process lives. */
  predicate Holds(w: World, serial: nat) { serial in w.handles && serial !in w.evicted }

  ghost predicate Exclusive(w: World) {
    forall s, t | Holds(w, s) && Holds(w, t) :: s == t
  }

  /** Every holder's handle is the linked lock file. */
  ghost predicate HoldersLinked(w: World) {
    forall s | Holds(w, s) :: w.lock.Some? && w.lock.value.serial == s
  }

  /** An acquirer finds no process of its own host with the id of a holder, or the release of one handle,
      or of one released before, finds the process id of a holder of another: the guards of the
      unlinking branches. */
  predicate Breaks(w: World, e: Event) {
    && w.lock.Some? && Holds(w, w.lock.value.serial)
    && match e
       case Acquire(p) => !SeenAlive(w, p, w.lock.value.metadata)
       case Release(serial) =>
         serial in w.handles && serial != w.lock.value.serial && w.handles[serial].pid == w.lock.value.metadata.pid
       case ReleaseAgain(p) => w.lock.value.metadata.pid == p.pid
       case _ => false
  }

  /** What holds in every run, of whatever hosts and handles. */
  ghost predicate Inv(w: World) {
    && (forall s | s in w.handles :: s < w.created && w.handles[s] in w.alive)
    && (forall p | p in w.suspicions :: p in w.alive)
    && (forall s <- w.evicted :: s < w.created)
    && (w.lock.Some? ==> w.lock.value.serial < w.created)
    && (w.lock.Some? && w.lock.value.serial in w.handles ==>
          var p, m := w.handles[w.lock.value.serial], w.lock.value.metadata; p == Process(m.host, m.pid))
  }

  lemma StepKeepsInv(c: Settings, w: World, e: Event)
    requires Inv(w) && Enabled(c, w, e)
    ensures Inv(Next(w, e))
  {
    assert forall s | s in Next(w, e).handles :: s in w.handles || (e.Acquire? && s == w.created);
  }

  /** A step keeps the holders linked exactly when it does not meet one of these guards. */
  lemma StepKeepsHoldersIff(c: Settings, w: World, e: Event)
    requires Inv(w) && HoldersLinked(w) && Enabled(c, w, e)
    ensures HoldersLinked(Next(w, e)) <==> !Breaks(w, e)
  {
    var v := Next(w, e);
    if Breaks(w, e) {
      assert Holds(v, w.lock.value.serial) && v.lock.None?;
    } else {
      forall s | Holds(v, s) ensures v.lock.Some? && v.lock.value.serial == s {
        assert Holds(w, s) || (e.Acquire? && s == w.created);
      }
    }
  }

  ghost predicate Run(c: Settings, ws: seq<World>, es: seq<Event>) {
    && |ws| == |es| + 1
    && forall i | 0 <= i < |es| :: Enabled(c, ws[i], es[i]) && ws[i + 1] == Next(ws[i], es[i])
  }

  predicate Initial(w: World) {
    w.lock.None? && w.alive == {} && w.handles == map[] && w.evicted == {} && w.suspicions == map[] && w.created == 0
  }

  lemma {:induction false} RunKeepsInv(c: Settings, ws: seq<World>, es: seq<Event>, n: nat)
    requires Run(c, ws, es) && Initial(ws[0]) && n < |ws|
    ensures Inv(ws[n])
  {
    if n > 0 {
      RunKeepsInv(c, ws, es, n - 1);
      StepKeepsInv(c, ws[n - 1], es[n - 1]);
    }
  }

  /** Exactly when exclusion holds, over any hosts and any handles: the holders stay linked up to a world
      if and only if no step before it meets one of these guards. */
  lemma {:induction false} ExclusionIff(c: Settings, ws: seq<World>, es: seq<Event>, n: nat)
    requires Run(c, ws, es) && Initial(ws[0]) && n < |ws|
    ensures (forall i | 0 <= i <= n :: HoldersLinked(ws[i])) <==> (forall i | 0 <= i < n :: !Breaks(ws[i], es[i]))
  {
    if n > 0 {
      ExclusionIff(c, ws, es, n - 1);
      RunKeepsInv(c, ws, es, n - 1);
      if HoldersLinked(ws[n - 1]) {
        StepKeepsHoldersIff(c, ws[n - 1], es[n - 1]);
        assert ws[n] == Next(ws[n - 1], es[n - 1]);
      }
    } else {
      assert ws[0].handles == map[];
    }
  }

  // ---- One host, one handle a process -----------------------------------------------------------------

  /** The process that takes the step. */
  predicate ByHost(w: World, e: Event, host: string) {
    match e
    case Tick(_) => true
    case Release(serial) => serial in w.handles ==> w.handles[serial].host == host
    case _ => e.p.host == host
  }

  /** Nobody acquires, or releases an old handle once more, while it has an unreleased handle. */
  predicate Tidy(w: World, e: Event) {
    e.Acquire? || e.ReleaseAgain? ==> forall s | s in w.handles :: w.handles[s] != e.p
  }

  /** All processes are of one host and keep at most one handle. */
  ghost predicate Local(ws: seq<World>, es: seq<Event>, host: string)
    requires |ws| == |es| + 1
  {
    forall i | 0 <= i < |es| :: ByHost(ws[i], es[i], host) && Tidy(ws[i], es[i])
  }

  ghost predicate LocalInv(w: World, host: string) {
    && (forall p <- w.alive :: p.host == host)
    && (forall s, t | s in w.handles && t in w.handles && w.handles[s] == w.handles[t] :: s == t)
  }

  lemma {:induction false} RunKeepsLocal(c: Settings, ws: seq<World>, es: seq<Event>, host: string, n: nat)
    requires Run(c, ws, es) && Initial(ws[0]) && Local(ws, es, host) && n < |ws|
    ensures LocalInv(ws[n], host)
  {
    if n > 0 {
      RunKeepsLocal(c, ws, es, host, n - 1);
      assert ByHost(ws[n - 1], es[n - 1], host) && Tidy(ws[n - 1], es[n - 1]);
    }
  }

  lemma LocalNeverBreaks(w: World, e: Event, host: string)
    requires Inv(w) && LocalInv(w, host) && ByHost(w, e, host) && Tidy(w, e)
    ensures !Breaks(w, e)
  {
    if w.lock.Some? && Holds(w, w.lock.value.serial) {
      var holder := w.handles[w.lock.value.serial];
      assert holder == Process(holder.host, holder.pid) && holder.host == host;
      if e.Release? && e.serial in w.handles {
        var p := w.handles[e.serial];
        assert p == Process(p.host, p.pid) && p.host == host;
      }
      if e.ReleaseAgain? {
        assert e.p == Process(e.p.host, e.p.pid);
      }
    }
  }

  /** On one host at most one live process has a handle that it did not release and that was not
      taken over, and that handle is the linked lock file. */
  lemma MutualExclusion(c: Settings, ws: seq<World>, es: seq<Event>, host: string, n: nat)
    requires Run(c, ws, es) && Initial(ws[0]) && Local(ws, es, host) && n < |ws|
    ensures Exclusive(ws[n]) && HoldersLinked(ws[n])
  {
    forall i | 0 <= i < n ensures !Breaks(ws[i], es[i]) {
      RunKeepsInv(c, ws, es, i);
      RunKeepsLocal(c, ws, es, host, i);
      LocalNeverBreaks(ws[i], es[i], host);
    }
    ExclusionIff(c, ws, es, n);
  }

  /** The lock of a process that has ended is free for any other of its host: one turn of the loop unlinks
      the file, and the next one creates a file and holds it. */
  lemma DeadOwnerReplaced(c: Settings, w: World, p: Process, q: Process)
    requires Inv(w) && Enabled(c, w, Crash(p)) && w.lock.Some?
    requires p == Process(w.lock.value.metadata.host, w.lock.value.metadata.pid)
    requires q != p && q.host == p.host && q in w.alive && q !in w.suspicions
    ensures var w1 := Next(w, Crash(p));
            var w2 := Next(w1, Acquire(q));
            var w3 := Next(w2, Acquire(q));
            && Enabled(c, w1, Acquire(q)) && Enabled(c, w2, Acquire(q)) && w2.lock == None
            && w3.lock == Some(LockFile(w.created, Metadata(q.pid, q.host, w.now, w.now)))
            && Holds(w3, w.created) && w3.handles[w.created] == q
            && forall s :: !(s in w3.handles && w3.handles[s] == p)
  {
    assert w.created !in w.evicted;
  }

  /** Acquiring unlinks the file of a live holder exactly when no process of the caller's own host has
      the holder's process id: the metadata names the holder's host, but this path does not compare it. */
  lemma AcquireUnlinksHolderIff(w: World, p: Process, serial: nat)
    requires Holds(w, serial) && w.lock.Some? && w.lock.value.serial == serial
    requires w.lock.value.metadata.pid == w.handles[serial].pid && w.handles[serial] in w.alive
    ensures Next(w, Acquire(p)).lock.None? <==> Process(p.host, w.handles[serial].pid) !in w.alive
    ensures p.host == w.handles[serial].host ==> Next(w, Acquire(p)) == w
  {
    assert w.handles[serial] == Process(w.handles[serial].host, w.handles[serial].pid);
  }

  /** Releasing one handle unlinks the file of another holder exactly when both have one process id. */
  lemma ReleaseUnlinksHolderIff(w: World, serial: nat, other: nat)
    requires serial in w.handles && Holds(w, other) && serial != other
    requires w.lock.Some? && w.lock.value.serial == other && w.lock.value.metadata.pid == w.handles[other].pid
    ensures Next(w, Release(serial)).lock.None? <==> w.handles[serial].pid == w.handles[other].pid
    ensures Holds(Next(w, Release(serial)), other)
  {}

  /** A process that acquires again before it releases a handle that was taken over loses its new lock. */
  lemma UntidyReleaseUnlocks(c: Settings) returns (ws: seq<World>, es: seq<Event>)
    ensures Run(c, ws, es) && Initial(ws[0]) && !Exclusive(ws[|es|])
    ensures forall i | 0 <= i < |es| :: ByHost(ws[i], es[i], "a")
  {
    var p, q := Process("a", 1), Process("a", 2);
    ws, es := ProbedRun(c, Probes(c));
    var w := Probed(c, Probes(c));
    var v := w.(suspicions := map[], lock := None, evicted := {0});
    var m := Metadata(1, "a", w.now, w.now);
    var v1 := v.(lock := Some(LockFile(1, m)), handles := map[0 := p, 1 := p], created := 2);
    var v2 := v1.(lock := None, handles := map[1 := p]);
    var v3 := v2.(lock := Some(LockFile(2, Metadata(2, "a", w.now, w.now))), handles := map[1 := p, 2 := q], created := 3);
    ws, es := Extend(c, ws, es, TakeOver(q), v);
    ws, es := Extend(c, ws, es, Acquire(p), v1);
    assert v1.handles - {0} == map[1 := p];
    ws, es := Extend(c, ws, es, Release(0), v2);
    ws, es := Extend(c, ws, es, Acquire(q), v3);
    assert Holds(v3, 1) && Holds(v3, 2);
  }

  /** A process that acquires again and then releases its first handle once more loses its new lock. */
  lemma SecondReleaseUnlocks(c: Settings) returns (ws: seq<World>, es: seq<Event>)
    ensures Run(c, ws, es) && Initial(ws[0]) && !Exclusive(ws[|es|])
    ensures forall i | 0 <= i < |es| :: ByHost(ws[i], es[i], "a")
  {
    var p, q := Process("a", 1), Process("a", 2);
    var m := Metadata(1, "a", 0, 0);
    var w0 := World(0, None, {}, map[], {}, map[], 0);
    var w2 := w0.(alive := {p, q});
    var w3 := w2.(lock := Some(LockFile(0, m)), handles := map[0 := p], created := 1);
    var w4 := w2.(created := 1);
    var w5 := w2.(lock := Some(LockFile(1, m)), handles := map[1 := p], created := 2);
    var w6 := w5.(lock := None);
    var w7 := w6.(lock := Some(LockFile(2, Metadata(2, "a", 0, 0))), handles := map[1 := p, 2 := q], created := 3);
    ws, es := Extend(c, [w0], [], StartProcess(p), w0.(alive := {p}));
    ws, es := Extend(c, ws, es, StartProcess(q), w2);
    ws, es := Extend(c, ws, es, Acquire(p), w3);
    assert w3.handles - {0} == map[];
    ws, es := Extend(c, ws, es, Release(0), w4);
    ws, es := Extend(c, ws, es, Acquire(p), w5);
    ws, es := Extend(c, ws, es, ReleaseAgain(p), w6);
    ws, es := Extend(c, ws, es, Acquire(q), w7);
    assert Holds(w7, 1) && Holds(w7, 2);
  }

  /** Process 2 has suspected process 1 and probed it in vain k times. */
  function Probed(c: Settings, k: nat): World {
    var p, q := Process("a", 1), Process("a", 2);
    var m := Metadata(1, "a", 0, 0);
    World(if c.graceMs > 0 then c.graceMs else 0, Some(LockFile(0, m)), {p, q}, map[0 := p], {}, map[q := Suspicion(m, k)], 1)
  }

  lemma {:induction false} ProbedRun(c: Settings, k: nat) returns (ws: seq<World>, es: seq<Event>)
    requires k <= Probes(c)
    ensures Run(c, ws, es) && Initial(ws[0]) && Local(ws, es, "a") && ws[|es|] == Probed(c, k)
    decreases k
  {
    var p, q := Process("a", 1), Process("a", 2);
    if k > 0 {
      ws, es := ProbedRun(c, k - 1);
      ws, es := Extend(c, ws, es, Probe(q, false), Probed(c, k));
    } else {
      var w := Probed(c, 0);
      var m := Metadata(1, "a", 0, 0);
      var w0 := World(0, None, {}, map[], {}, map[], 0);
      var w3 := w.(now := 0, suspicions := map[]);
      ws, es := Extend(c, [w0], [], StartProcess(p), w0.(alive := {p}));
      ws, es := Extend(c, ws, es, StartProcess(q), w0.(alive := {p, q}));
      ws, es := Extend(c, ws, es, Acquire(p), w3);
      ws, es := Extend(c, ws, es, Tick(w.now), w.(suspicions := map[]));
      ws, es := Extend(c, ws, es, Suspect(q), w);
    }
  }

  lemma Extend(c: Settings, ws: seq<World>, es: seq<Event>, e: Event, v: World) returns (ws1: seq<World>, es1: seq<Event>)
    requires Run(c, ws, es) && Enabled(c, ws[|es|], e) && v == Next(ws[|es|], e)
    ensures Run(c, ws1, es1) && ws1[0] == ws[0] && ws1[|es1|] == v && es1 == es + [e] && ws1 == ws + [v]
    ensures Local(ws, es, "a") && ByHost(ws[|es|], e, "a") && Tidy(ws[|es|], e) ==> Local(ws1, es1, "a")
    ensures (forall i | 0 <= i < |es| :: ByHost(ws[i], es[i], "a")) && ByHost(ws[|es|], e, "a") ==>
              forall i | 0 <= i < |es1| :: ByHost(ws1[i], es1[i], "a")
  {
    ws1, es1 := ws + [v], es + [e];
  }

  /** Two hosts that share the lock directory both hold the lock. */
  lemma SharedDirectoryUnlocks(c: Settings) returns (ws: seq<World>, es: seq<Event>)
    ensures Run(c, ws, es) && Initial(ws[0]) && !Exclusive(ws[|es|])
    ensures forall i | 0 <= i < |es| :: Tidy(ws[i], es[i])
  {
    var p, q := Process("a", 1), Process("b", 2);
    es := [StartProcess(p), StartProcess(q), Acquire(p), Acquire(q), Acquire(q)];
    var w0 := World(0, None, {}, map[], {}, map[], 0);
    var w1 := Next(w0, es[0]);
    var w2 := Next(w1, es[1]);
    var w3 := Next(w2, es[2]);
    var w4 := Next(w3, es[3]);
    var w5 := Next(w4, es[4]);
    ws := [w0, w1, w2, w3, w4, w5];
    assert Process("b", 1) !in w3.alive;
    assert w4.lock == None;
    assert Holds(w5, 0) && Holds(w5, 1);
  }

  // ---- Takeovers -----------------------------------------------------------------------------------

  /** At world j the contender saw this owner: of its own host, alive, its heartbeat graceMs old. */
  ghost predicate Saw(c: Settings, w: World, p: Process, owner: Metadata) {
    && w.lock.Some? && w.lock.value.metadata == owner && owner.host == p.host
    && SeenAlive(w, p, owner)
    && w.now - owner.heartbeatAt >= c.graceMs
  }

  function FailedProbes(es: seq<Event>, p: Process): nat {
    if es == [] then 0
    else FailedProbes(es[..|es| - 1], p) + (if es[|es| - 1] == Probe(p, false) then 1 else 0)
  }

  /** Since then all its probes failed: as many as the suspicion counts, and none was answered. */
  ghost predicate Grounded(c: Settings, ws: seq<World>, es: seq<Event>, p: Process, n: nat, j: nat)
    requires n < |ws| == |es| + 1
  {
    && p in ws[n].suspicions && j < n
    && Saw(c, ws[j], p, ws[n].suspicions[p].owner)
    && FailedProbes(es[j..n], p) == ws[n].suspicions[p].failed
    && Probe(p, true) !in es[j..n]
  }

  lemma {:induction false} SuspicionGrounded(c: Settings, ws: seq<World>, es: seq<Event>, p: Process, n: nat)
    returns (j: nat)
    requires Run(c, ws, es) && Initial(ws[0]) && n < |ws| && p in ws[n].suspicions
    ensures Grounded(c, ws, es, p, n, j)
  {
    if es[n - 1] == Suspect(p) {
      j := n - 1;
      OneMore(es, j, j);
      assert FailedProbes([Suspect(p)], p) == FailedProbes([], p);
    } else {
      SuspicionKept(ws[n - 1], es[n - 1], p);
      j := SuspicionGrounded(c, ws, es, p, n - 1);
      OneMore(es, j, n - 1);
    }
  }

  /** A suspicion that was there before counts the failed probes, and an answered one ends it. */
  lemma SuspicionKept(w: World, e: Event, p: Process)
    requires p in Next(w, e).suspicions && e != Suspect(p)
    ensures p in w.suspicions && Next(w, e).suspicions[p].owner == w.suspicions[p].owner
    ensures e != Probe(p, true)
    ensures Next(w, e).suspicions[p].failed == w.suspicions[p].failed + (if e == Probe(p, false) then 1 else 0)
  {}

  lemma OneMore(es: seq<Event>, j: nat, n: nat)
    requires j <= n < |es|
    ensures es[j..n + 1] == es[j..n] + [es[n]] && es[j..n + 1][..n - j] == es[j..n]
  {}

  /** A takeover that removes the lock removes the (pid, startedAt) of an owner that the taker saw
      earlier: on its own host, with a heartbeat at least graceMs old, and with every probe since failing:
      `probeAttempts` of them, and one where that is less than one. */
  lemma TakeOverGrounded(c: Settings, ws: seq<World>, es: seq<Event>, p: Process, n: nat)
    returns (j: nat)
    requires Run(c, ws, es) && Initial(ws[0]) && n < |es| && es[n] == TakeOver(p) && Removes(ws[n], p)
    ensures Grounded(c, ws, es, p, n, j)
    ensures FailedProbes(es[j..n], p) == if c.probeAttempts < 1 then 1 else c.probeAttempts
    ensures ws[n].lock.value.metadata.pid == ws[j].lock.value.metadata.pid
    ensures ws[n].lock.value.metadata.startedAt == ws[j].lock.value.metadata.startedAt
    ensures forall s | Holds(ws[n], s) && !Holds(ws[n + 1], s) :: s == ws[n].lock.value.serial
  {
    j := SuspicionGrounded(c, ws, es, p, n);
    assert Enabled(c, ws[n], es[n]);
  }

  /** The exact condition of an eviction, whatever the heartbeat says by then: a contender whose probes
      have all failed finds the file linked with the process id and the start that it suspected. */
  lemma EvictedIff(c: Settings, w: World, e: Event, s: nat)
    requires Enabled(c, w, e) && s !in w.evicted
    ensures s in Next(w, e).evicted <==>
            && e.TakeOver? && w.suspicions[e.p].failed >= 1 && w.suspicions[e.p].failed >= c.probeAttempts
            && w.lock.Some? && w.lock.value.serial == s
            && w.lock.value.metadata.pid == w.suspicions[e.p].owner.pid
            && w.lock.value.metadata.startedAt == w.suspicions[e.p].owner.startedAt
  {}

  /** The heartbeat of a linked lock with this process id and start is never graceMs old. */
  predicate Refreshed(c: Settings, w: World, pid: int, startedAt: int) {
    w.lock.Some? && w.lock.value.metadata.pid == pid && w.lock.value.metadata.startedAt == startedAt ==>
      w.now - w.lock.value.metadata.heartbeatAt < c.graceMs
  }

  /** An owner whose refreshes are always less than graceMs apart is never taken over. */
  lemma RefreshedNeverEvicted(c: Settings, ws: seq<World>, es: seq<Event>, pid: int, startedAt: int, n: nat)
    requires Run(c, ws, es) && Initial(ws[0]) && n < |es|
    requires forall i | 0 <= i <= n :: Refreshed(c, ws[i], pid, startedAt)
    requires ws[n].lock.Some? && ws[n].lock.value.metadata.pid == pid
             && ws[n].lock.value.metadata.startedAt == startedAt
    ensures ws[n + 1].evicted == ws[n].evicted
  {
    if es[n].TakeOver? && Removes(ws[n], es[n].p) {
      var j := TakeOverGrounded(c, ws, es, es[n].p, n);
    }
  }

  /** A heartbeat during the probes does not save an owner that was stale before: the compare looks at
      the process id and the start only. */
  lemma LateHeartbeatEvicted(c: Settings) returns (ws: seq<World>, es: seq<Event>)
    ensures Run(c, ws, es) && Initial(ws[0]) && |es| > 0 && Local(ws, es, "a")
    ensures es[|es| - 1].TakeOver? && Removes(ws[|es| - 1], es[|es| - 1].p)
    ensures ws[|es| - 1].lock.value.metadata.heartbeatAt == ws[|es| - 1].now
  {
    var p, q := Process("a", 1), Process("a", 2);
    ws, es := ProbedRun(c, Probes(c));
    var w := Probed(c, Probes(c));
    var v := w.(lock := Some(LockFile(0, Metadata(1, "a", 0, w.now))));
    ws, es := Extend(c, ws, es, Heartbeat(p), v);
    ws, es := Extend(c, ws, es, TakeOver(q), Next(v, TakeOver(q)));
  }
}
