/** The connection generations of `CDPClient` (src/cdp/client.ts): each step is the code between two
    awaits of one `connect`, `forceReconnect`, `handleDisconnect` or `disconnect`, in any interleaving. */
module ClientRuns {
  import opened Wrappers

  /** Where an attempt waits: for the old browser to close, for `ensureChrome`, for the handshake, or
      before it tries again. */
  datatype Phase = Closing | Launching | Handshaking | Pausing | Over

  /** `previous` is the browser that the attempt disconnects before it launches, if any. */
  datatype Attempt = Attempt(autoLaunch: bool, phase: Phase, previous: Option<nat>)

  datatype Install = Install(generation: nat, browser: nat)

  /** Handshakes are numbered in the order in which they complete. The last five parts are history. */
  datatype World = World(
    generation: nat,
    browser: Option<nat>,
    pending: Option<nat>,
    pendingAutoLaunch: Option<bool>,
    attempts: map<nat, Attempt>,
    installs: seq<Install>,
    stale: set<nat>,               // disconnected on completion: the attempt was no longer current
    closed: set<nat>,              // disconnected while installed
    handshakes: nat,
    callers: set<(bool, nat)>)     // the effective autoLaunch of a caller and the attempt it waits for

  datatype Event =
    | Connect(autoLaunch: bool)
    | ForceReconnect(autoLaunch: bool)
    | HandleDisconnect
    | Closed(g: nat, stop: bool)
    | Launched(g: nat)
    | NotLaunched(g: nat, retry: bool)
    | Connected(g: nat)
    | NotConnected(g: nat, retry: bool)
    | Resume(g: nat)
    | Settled(g: nat)
    | Disconnect
    | Disconnected

  predicate In(w: World, g: nat, phase: Phase) { g in w.attempts && w.attempts[g].phase == phase }

  predicate Enabled(w: World, e: Event) {
    match e
    case Closed(g, _) => In(w, g, Closing)
    case Launched(g) => In(w, g, Launching)
    case NotLaunched(g, _) => In(w, g, Launching)
    case Connected(g) => In(w, g, Handshaking)
    case NotConnected(g, _) => In(w, g, Handshaking)
    case Resume(g) => In(w, g, Pausing)
    case Settled(g) => In(w, g, Over)
    case _ => true
  }

  function Goto(w: World, g: nat, phase: Phase): World
    requires g in w.attempts
  {
    w.(attempts := w.attempts[g := w.attempts[g].(phase := phase)])
  }

  function Close(w: World): World {
    if w.browser.Some? then w.(closed := w.closed + {w.browser.value}) else w
  }

  function Begin(w: World, attempt: Attempt): World {
    w.(generation := w.generation + 1, attempts := w.attempts[w.generation + 1 := attempt])
  }

  function Next(w: World, e: Event): World
    requires Enabled(w, e)
  {
    match e
    case Connect(autoLaunch) =>
      if w.pending.Some? then
        if Some(autoLaunch) == w.pendingAutoLaunch then w.(callers := w.callers + {(autoLaunch, w.pending.value)}) else w
      else
        var g := w.generation + 1;
        Begin(w, Attempt(autoLaunch, Launching, None)).(pending := Some(g), pendingAutoLaunch := Some(autoLaunch),
                                                        callers := w.callers + {(autoLaunch, g)})
    case ForceReconnect(autoLaunch) =>
      var phase := if w.browser.Some? then Closing else Launching;
      Close(Begin(w, Attempt(autoLaunch, phase, w.browser)).(pending := None))
    case HandleDisconnect => Close(Begin(w, Attempt(false, Launching, None))).(browser := None)
    case Closed(g, stop) => Goto(w, g, if stop then Over else Launching).(browser := None)
    case Launched(g) => Goto(w, g, if g == w.generation then Handshaking else Over)
    case NotLaunched(g, retry) => Goto(w, g, if retry then Pausing else Over)
    case Connected(g) =>
      var v := Goto(w, g, Over).(handshakes := w.handshakes + 1);
      if g != w.generation then v.(stale := w.stale + {w.handshakes})
      else v.(browser := Some(w.handshakes), installs := w.installs + [Install(g, w.handshakes)])
    case NotConnected(g, retry) =>
      if g != w.generation then Goto(w, g, Over)
      else Close(Goto(w, g, if retry then Pausing else Over)).(browser := None)
    case Resume(g) => Goto(w, g, Launching)
    case Settled(g) => if w.pending == Some(g) then w.(pending := None, pendingAutoLaunch := None) else w
    case Disconnect => Close(w)
    case Disconnected => w.(browser := None)
  }

  // ---- What every step keeps ---------------------------------------------------------------------

  /** Attempts install in the order of their generations, each at most once, when it is over. */
  predicate InstallsInv(w: World) {
    && (forall g | g in w.attempts :: 0 < g <= w.generation)
    && (forall x <- w.installs :: In(w, x.generation, Over))
    && (forall i, j | 0 <= i < j < |w.installs| :: w.installs[i].generation < w.installs[j].generation)
    && (w.browser.Some? ==> w.installs != [] && w.installs[|w.installs| - 1].browser == w.browser.value)
  }

  function Browsers(installs: seq<Install>): set<nat> { set x <- installs :: x.browser }

  function Installed(w: World): set<nat> { Browsers(w.installs) }

  /** Every handshake that completed was installed or disconnected at once, and never both. */
  predicate HandshakesInv(w: World) {
    && (forall b <- Installed(w) :: b < w.handshakes)
    && (forall b <- w.stale :: b < w.handshakes)
    && (forall b | 0 <= b < w.handshakes :: b in Installed(w) <==> b !in w.stale)
    && (forall b <- w.closed :: b < w.handshakes)
    && (w.browser.Some? ==> w.browser.value < w.handshakes)
  }

  /** Callers wait only for an attempt with their own autoLaunch. */
  predicate CallersInv(w: World) {
    && (forall c <- w.callers :: c.1 in w.attempts && w.attempts[c.1].autoLaunch == c.0)
    && (w.pending.Some? ==> w.pending.value in w.attempts
                            && w.pendingAutoLaunch == Some(w.attempts[w.pending.value].autoLaunch))
  }

  predicate Newer(w: World, g: nat) {
    w.installs != [] && w.installs[|w.installs| - 1].generation > g
  }

  function Latest(w: World): nat
    requires w.installs != []
  {
    w.installs[|w.installs| - 1].browser
  }

  /** An attempt that waits for its old browser has disconnected it; the latest install is still that
      one unless a newer attempt installed another, and then it is a later browser. */
  predicate Waiting(w: World, g: nat)
    requires g in w.attempts
  {
    var previous := w.attempts[g].previous;
    && previous.Some? && previous.value in w.closed && w.installs != []
    && if Newer(w, g) then previous.value < Latest(w) else previous.value == Latest(w)
  }

  ghost predicate ClosingInv(w: World) {
    forall g | In(w, g, Closing) :: Waiting(w, g)
  }

  ghost predicate Inv(w: World) {
    InstallsInv(w) && HandshakesInv(w) && CallersInv(w) && ClosingInv(w)
  }

  lemma StepKeepsInstalls(w: World, e: Event)
    requires InstallsInv(w) && Enabled(w, e)
    ensures InstallsInv(Next(w, e))
  {
    var v := Next(w, e);
    if e.Connected? && e.g == w.generation {
      InstallKeepsInstalls(w, e.g);
    } else {
      assert v.installs == w.installs;
      OverStaysOver(w, e);
      assert v.browser == w.browser || v.browser == None;
    }
  }

  lemma OverStaysOver(w: World, e: Event)
    requires InstallsInv(w) && Enabled(w, e)
    ensures forall g | In(w, g, Over) :: In(Next(w, e), g, Over)
    ensures forall g | g in Next(w, e).attempts :: 0 < g <= Next(w, e).generation
  {}

  lemma InstallKeepsInstalls(w: World, g: nat)
    requires InstallsInv(w) && In(w, g, Handshaking) && g == w.generation
    ensures InstallsInv(Next(w, Connected(g)))
  {
    var v := Next(w, Connected(g));
    forall x <- w.installs ensures x.generation < g && In(v, x.generation, Over) {
      assert In(w, x.generation, Over);
    }
    assert forall x <- v.installs :: x in w.installs || x == Install(g, w.handshakes);
  }

  lemma StepKeepsHandshakes(w: World, e: Event)
    requires HandshakesInv(w) && Enabled(w, e)
    ensures HandshakesInv(Next(w, e))
  {
    var v := Next(w, e);
    if e.Connected? && e.g == w.generation {
      OneMore(w.installs, Install(e.g, w.handshakes));
      assert Installed(v) == Installed(w) + {w.handshakes};
    } else {
      assert Installed(v) == Installed(w);
    }
  }

  lemma OneMore(installs: seq<Install>, x: Install)
    ensures Browsers(installs + [x]) == Browsers(installs) + {x.browser}
  {
    forall b ensures b in Browsers(installs + [x]) <==> b in Browsers(installs) + {x.browser} {
      assert forall y :: y in installs + [x] <==> y in installs || y == x;
    }
  }

  lemma StepKeepsCallers(w: World, e: Event)
    requires CallersInv(w) && InstallsInv(w) && Enabled(w, e)
    ensures CallersInv(Next(w, e))
  {
    KeepsAutoLaunch(w, e);
    var v := Next(w, e);
    assert forall c <- v.callers :: c in w.callers || (e.Connect? && v.pending == Some(c.1) && c.0 == e.autoLaunch);
    assert v.pending == w.pending || v.pending == None || (e.Connect? && v.pending == Some(v.generation));
  }

  lemma KeepsAutoLaunch(w: World, e: Event)
    requires InstallsInv(w) && Enabled(w, e)
    ensures forall g | g in w.attempts ::
              g in Next(w, e).attempts && Next(w, e).attempts[g].autoLaunch == w.attempts[g].autoLaunch
  {}

  lemma StepKeepsClosing(w: World, e: Event)
    requires ClosingInv(w) && InstallsInv(w) && HandshakesInv(w) && Enabled(w, e)
    ensures ClosingInv(Next(w, e))
  {
    var v := Next(w, e);
    if e.Connected? && e.g == w.generation {
      InstallKeepsClosing(w, e.g);
    } else if e.ForceReconnect? {
      ForceReconnectKeepsClosing(w, e.autoLaunch);
    } else {
      assert v.installs == w.installs && w.closed <= v.closed;
      forall g | In(v, g, Closing) ensures Waiting(v, g) {
        assert In(w, g, Closing) && v.attempts[g] == w.attempts[g];
        assert Waiting(w, g);
      }
    }
  }

  lemma InstallKeepsClosing(w: World, g: nat)
    requires ClosingInv(w) && InstallsInv(w) && HandshakesInv(w) && In(w, g, Handshaking) && g == w.generation
    ensures ClosingInv(Next(w, Connected(g)))
  {
    var v := Next(w, Connected(g));
    assert v.installs[|v.installs| - 1] == Install(g, w.handshakes);
    forall h: nat | In(v, h, Closing) ensures Waiting(v, h) {
      assert In(w, h, Closing) && Waiting(w, h);
      assert h < g && w.attempts[h].previous.value < w.handshakes;
    }
  }

  lemma ForceReconnectKeepsClosing(w: World, autoLaunch: bool)
    requires ClosingInv(w) && InstallsInv(w)
    ensures ClosingInv(Next(w, ForceReconnect(autoLaunch)))
  {
    var v := Next(w, ForceReconnect(autoLaunch));
    forall g | In(v, g, Closing) ensures Waiting(v, g) {
      if g == v.generation {
        assert w.browser.Some? && v.attempts[g].previous == w.browser;
        assert In(w, w.installs[|w.installs| - 1].generation, Over);
      } else {
        assert In(w, g, Closing) && Waiting(w, g);
      }
    }
  }

  lemma StepKeepsInv(w: World, e: Event)
    requires Inv(w) && Enabled(w, e)
    ensures Inv(Next(w, e))
  {
    StepKeepsInstalls(w, e);
    StepKeepsHandshakes(w, e);
    StepKeepsCallers(w, e);
    StepKeepsClosing(w, e);
  }

  // ---- Whole runs ----------------------------------------------------------------------------------

  function Start(): World { World(0, None, None, None, map[], [], {}, {}, 0, {}) }

  ghost predicate Run(ws: seq<World>, es: seq<Event>) {
    && |ws| == |es| + 1 && ws[0] == Start()
    && forall i | 0 <= i < |es| :: Enabled(ws[i], es[i]) && ws[i + 1] == Next(ws[i], es[i])
  }

  lemma {:induction false} RunKeepsInv(ws: seq<World>, es: seq<Event>, n: nat)
    requires Run(ws, es) && n < |ws|
    ensures Inv(ws[n])
  {
    if n > 0 {
      RunKeepsInv(ws, es, n - 1);
      StepKeepsInv(ws[n - 1], es[n - 1]);
    }
  }

  /** In every run, installs follow the generations, no generation installs twice, the browser is the
      one installed last, and each completed handshake was installed or was disconnected. */
  lemma Generations(ws: seq<World>, es: seq<Event>, n: nat)
    requires Run(ws, es) && n < |ws|
    ensures var w := ws[n];
            && (forall i, j | 0 <= i < j < |w.installs| :: w.installs[i].generation < w.installs[j].generation <= w.generation)
            && (w.browser.Some? ==> w.installs != [] && w.installs[|w.installs| - 1].browser == w.browser.value)
            && forall b | 0 <= b < w.handshakes :: b in Installed(w) <==> b !in w.stale
  {
    RunKeepsInv(ws, es, n);
    var w := ws[n];
    forall i | 0 <= i < |w.installs| ensures w.installs[i].generation <= w.generation {
      assert In(w, w.installs[i].generation, Over);
    }
  }

  /** A browser changes hands only by an attempt whose generation is current at that moment, in its
      first completed handshake; a handshake under an old generation is disconnected and changes nothing. */
  lemma CurrentInstalls(ws: seq<World>, es: seq<Event>, n: nat)
    requires Run(ws, es) && n < |es| && es[n].Connected?
    ensures var w, v, g := ws[n], ws[n + 1], es[n].g;
            if g == w.generation
            then v.browser == Some(w.handshakes) && (forall x <- w.installs :: x.generation < g)
            else v.browser == w.browser && v.installs == w.installs && w.handshakes in v.stale
  {
    RunKeepsInv(ws, es, n);
    var w := ws[n];
    forall x <- w.installs ensures x.generation != w.generation || es[n].g != w.generation {
      assert In(w, x.generation, Over);
    }
    forall x <- w.installs ensures x.generation <= w.generation {
      assert In(w, x.generation, Over);
    }
  }

  /** Whoever waits for an attempt asked for the autoLaunch that the attempt was started with. */
  lemma CoalescedAlike(ws: seq<World>, es: seq<Event>, n: nat, c: (bool, nat))
    requires Run(ws, es) && n < |ws| && c in ws[n].callers
    ensures c.1 in ws[n].attempts && ws[n].attempts[c.1].autoLaunch == c.0
  {
    RunKeepsInv(ws, es, n);
  }

  /** The steps that disconnect the installed browser and leave it in the field. */
  predicate Disconnects(e: Event) { e.ForceReconnect? || e.Disconnect? }

  /** A step after step j and before step n disconnects. */
  ghost predicate DisconnectedSince(es: seq<Event>, j: nat, n: nat)
    requires n <= |es|
  {
    exists m | j < m < n :: Disconnects(es[m])
  }

  /** From the world after step j up to world n the field holds one browser. */
  ghost predicate InFieldSince(ws: seq<World>, j: nat, n: nat)
    requires n < |ws|
  {
    forall m | j < m <= n :: ws[m].browser == ws[n].browser
  }

  lemma InFieldLonger(ws: seq<World>, j: nat, n: nat)
    requires j < n && n + 1 < |ws| && InFieldSince(ws, j, n) && ws[n + 1].browser == ws[n].browser
    ensures InFieldSince(ws, j, n + 1)
  {}

  lemma OneStepMore(es: seq<Event>, j: nat, n: nat)
    requires j < n < |es|
    ensures DisconnectedSince(es, j, n + 1) <==> DisconnectedSince(es, j, n) || Disconnects(es[n])
  {}

  /** A step that leaves the browser in the field disconnects it or leaves the disconnected ones alone. */
  lemma StaysInField(w: World, e: Event)
    requires Inv(w) && Enabled(w, e) && Next(w, e).browser.Some?
    requires !(e.Connected? && e.g == w.generation)
    ensures var b := Next(w, e).browser.value;
            && w.browser == Some(b)
            && (b in Next(w, e).closed <==> b in w.closed || Disconnects(e))
  {}

  lemma EntersField(w: World, g: nat)
    requires Inv(w) && In(w, g, Handshaking) && g == w.generation
    ensures var v := Next(w, Connected(g)); v.browser == Some(w.handshakes) && w.handshakes !in v.closed
  {}

  /** The browser in the field came there in one step j, stayed there ever since, and is disconnected
      exactly when one of the later steps disconnected it. */
  lemma {:induction false} InstalledAt(ws: seq<World>, es: seq<Event>, n: nat) returns (j: nat)
    requires Run(ws, es) && n < |ws| && ws[n].browser.Some?
    ensures j < n && es[j].Connected? && es[j].g == ws[j].generation
    ensures InFieldSince(ws, j, n)
    ensures ws[n].browser.value in ws[n].closed <==> DisconnectedSince(es, j, n)
  {
    RunKeepsInv(ws, es, n - 1);
    var e := es[n - 1];
    if e.Connected? && e.g == ws[n - 1].generation {
      j := n - 1;
      EntersField(ws[n - 1], e.g);
    } else {
      StaysInField(ws[n - 1], e);
      j := InstalledAt(ws, es, n - 1);
      OneStepMore(es, j, n - 1);
      InFieldLonger(ws, j, n - 1);
    }
  }

  /** When `forceReconnect` clears the field after its wait, the field holds another browser than the
      one that the call disconnected exactly when a newer attempt has installed one. What is cleared
      is lost, that is, still connected, exactly when no step disconnected it since its install j;
      then it is a newer one, and nothing is lost while the attempt is current. */
  lemma ForgottenIff(ws: seq<World>, es: seq<Event>, n: nat) returns (j: nat)
    requires Run(ws, es) && n < |es| && es[n].Closed? && ws[n].browser.Some?
    ensures ws[n + 1].browser == None && ws[n + 1].closed == ws[n].closed
    ensures ws[n].browser != ws[n].attempts[es[n].g].previous <==> Newer(ws[n], es[n].g)
    ensures j < n && es[j].Connected? && es[j].g == ws[j].generation
    ensures InFieldSince(ws, j, n)
    ensures ws[n].browser.value !in ws[n].closed
            <==> Newer(ws[n], es[n].g) && !DisconnectedSince(es, j, n)
    ensures es[n].g == ws[n].generation ==> !Newer(ws[n], es[n].g)
  {
    RunKeepsInv(ws, es, n);
    j := InstalledAt(ws, es, n);
    var w := ws[n];
    assert Waiting(w, es[n].g);
    assert In(w, w.installs[|w.installs| - 1].generation, Over);
  }

  /** That happens: a `connect` completes while `forceReconnect` waits for the old browser. */
  lemma NewerBrowserForgotten() returns (ws: seq<World>, es: seq<Event>)
    ensures Run(ws, es) && |es| > 0 && es[|es| - 1].Closed? && ws[|es| - 1].browser.Some?
    ensures ws[|es|].browser == None && ws[|es| - 1].browser.value !in ws[|es|].closed
  {
    var w, h := FirstConnected();
    ws, es := ForceReconnecting(w, h);
    var a := map[1 := Attempt(true, Over, None), 2 := Attempt(false, Closing, Some(0)), 3 := Attempt(true, Over, None)];
    var last := ws[|es|];
    ws, es := Extend(ws, es, Closed(2, false), last.(browser := None, attempts := a[2 := Attempt(false, Launching, Some(0))]));
  }

  lemma Extend(ws: seq<World>, es: seq<Event>, e: Event, v: World) returns (ws1: seq<World>, es1: seq<Event>)
    requires Run(ws, es) && Enabled(ws[|es|], e) && v == Next(ws[|es|], e)
    ensures Run(ws1, es1) && es1 == es + [e] && |es1| == |es| + 1 && ws1[|es|] == ws[|es|] && ws1[|es1|] == v
  {
    ws1, es1 := ws + [v], es + [e];
  }

  function Attached(): World {
    World(1, Some(0), None, None, map[1 := Attempt(true, Over, None)], [Install(1, 0)], {}, {}, 1, {(true, 1)})
  }

  lemma FirstConnected() returns (ws: seq<World>, es: seq<Event>)
    ensures Run(ws, es) && ws[|es|] == Attached()
  {
    var w0 := Start();
    var w1 := World(1, None, Some(1), Some(true), map[1 := Attempt(true, Launching, None)], [], {}, {}, 0, {(true, 1)});
    var w2 := w1.(attempts := map[1 := Attempt(true, Handshaking, None)]);
    var w3 := Attached().(pending := Some(1), pendingAutoLaunch := Some(true));
    ws, es := Extend([w0], [], Connect(true), w1);
    ws, es := Extend(ws, es, Launched(1), w2);
    ws, es := Extend(ws, es, Connected(1), w3);
    ws, es := Extend(ws, es, Settled(1), Attached());
  }

  /** A second attempt waits for browser 0 to close, and a third one installs browser 1. */
  lemma ForceReconnecting(ws0: seq<World>, es0: seq<Event>) returns (ws: seq<World>, es: seq<Event>)
    requires Run(ws0, es0) && ws0[|es0|] == Attached()
    ensures Run(ws, es) && ws[|es|].browser == Some(1) && ws[|es|].closed == {0}
    ensures ws[|es|].attempts == map[1 := Attempt(true, Over, None), 2 := Attempt(false, Closing, Some(0)), 3 := Attempt(true, Over, None)]
  {
    var w1 := Attached().(generation := 2, closed := {0}, attempts := map[1 := Attempt(true, Over, None), 2 := Attempt(false, Closing, Some(0))]);
    var a := w1.attempts;
    var w2 := w1.(generation := 3, pending := Some(3), pendingAutoLaunch := Some(true), callers := {(true, 1), (true, 3)},
                  attempts := a[3 := Attempt(true, Launching, None)]);
    var w3 := w2.(attempts := a[3 := Attempt(true, Handshaking, None)]);
    var w4 := w3.(attempts := a[3 := Attempt(true, Over, None)], browser := Some(1), handshakes := 2,
                  installs := [Install(1, 0), Install(3, 1)]);
    ws, es := Extend(ws0, es0, ForceReconnect(false), w1);
    assert w2.callers == w1.callers + {(true, 3)};
    ws, es := Extend(ws, es, Connect(true), w2);
    ws, es := Extend(ws, es, Launched(3), w3);
    assert w4.installs == w3.installs + [Install(3, 1)];
    ws, es := Extend(ws, es, Connected(3), w4);
  }

  // ---- What a step begins ------------------------------------------------------------------------------

  /** The steps after which every earlier attempt is out of date. */
  predicate Supersedes(w: World, e: Event) {
    e.ForceReconnect? || e.HandleDisconnect? || (e.Connect? && w.pending.None?)
  }

  /** Such a step makes the generation one higher and begins one attempt under it: to launch Chrome at once, or,
      for a `forceReconnect` that has a browser to disconnect, when that is closed. Only `handleDisconnect`
      never launches Chrome itself. No other step begins an attempt or changes the generation. */
  lemma StepBegins(w: World, e: Event)
    requires Enabled(w, e)
    ensures var v := Next(w, e);
            if Supersedes(w, e) then
              var g := w.generation + 1;
              && v.generation == g && v.attempts.Keys == w.attempts.Keys + {g}
              && (forall h <- w.attempts | h != g :: v.attempts[h] == w.attempts[h])
              && v.attempts[g].autoLaunch == (!e.HandleDisconnect? && e.autoLaunch)
              && if e.ForceReconnect? && w.browser.Some?
                 then v.attempts[g].phase == Closing && v.attempts[g].previous == w.browser
                 else v.attempts[g].phase == Launching && v.attempts[g].previous == None
            else v.generation == w.generation && v.attempts.Keys == w.attempts.Keys
  {}

  /** After `forceReconnect` no caller can join an attempt under way; its old browser, like that of
      `handleDisconnect`, is disconnected, and `handleDisconnect` also clears the field. */
  lemma ReconnectCloses(w: World, e: Event)
    requires e.ForceReconnect? || e.HandleDisconnect?
    ensures var v := Next(w, e);
            && v.pending == (if e.ForceReconnect? then None else w.pending)
            && v.browser == (if e.ForceReconnect? then w.browser else None)
            && v.closed == w.closed + (if w.browser.Some? then {w.browser.value} else {})
            && v.installs == w.installs && v.stale == w.stale && v.handshakes == w.handshakes && v.callers == w.callers
  {}

  lemma {:induction false} GenerationsGrow(ws: seq<World>, es: seq<Event>, j: nat, n: nat)
    requires Run(ws, es) && j <= n < |ws|
    ensures ws[j].generation <= ws[n].generation
    ensures ws[j].generation == ws[n].generation <==> forall m | j <= m < n :: !Supersedes(ws[m], es[m])
  {
    if j < n {
      GenerationsGrow(ws, es, j, n - 1);
      StepBegins(ws[n - 1], es[n - 1]);
    }
  }

  /** In every run no attempt that was begun before such a step installs after it: its handshake is disconnected
      when it completes, and the field stays as it is. */
  lemma SupersededNeverInstalls(ws: seq<World>, es: seq<Event>, j: nat, n: nat)
    requires Run(ws, es) && j < n < |es| && Supersedes(ws[j], es[j])
    requires es[n].Connected? && es[n].g in ws[j].attempts
    ensures ws[n + 1].browser == ws[n].browser && ws[n + 1].installs == ws[n].installs
    ensures ws[n].handshakes in ws[n + 1].stale
  {
    RunKeepsInv(ws, es, j);
    GenerationsGrow(ws, es, j, n);
    assert !(forall m | j <= m < n :: !Supersedes(ws[m], es[m]));
  }

  /** A step of attempt g itself. */
  predicate Of(e: Event, g: nat) {
    && (e.Closed? || e.Launched? || e.NotLaunched? || e.Connected? || e.NotConnected? || e.Resume?)
    && e.g == g
  }

  lemma OthersLeave(w: World, e: Event, g: nat)
    requires InstallsInv(w) && Enabled(w, e) && !Of(e, g) && g in w.attempts
    ensures g in Next(w, e).attempts && Next(w, e).attempts[g] == w.attempts[g]
  {
    assert g <= w.generation;
  }

  lemma AttemptStays(ws: seq<World>, es: seq<Event>, g: nat, n: nat)
    requires Run(ws, es) && n < |es| && g in ws[n].attempts && !Of(es[n], g)
    ensures g in ws[n + 1].attempts && ws[n + 1].attempts[g] == ws[n].attempts[g]
  {
    RunKeepsInv(ws, es, n);
    OthersLeave(ws[n], es[n], g);
  }

  predicate AttemptIs(w: World, g: nat, attempt: Attempt) { g in w.attempts && w.attempts[g] == attempt }

  /** Whatever the others do, an attempt waits where it is. */
  lemma {:induction false} AttemptWaits(ws: seq<World>, es: seq<Event>, g: nat, m: nat, n: nat)
    requires Run(ws, es) && m <= n < |ws| && g in ws[m].attempts
    requires forall i | m <= i < n :: !Of(es[i], g)
    ensures AttemptIs(ws[n], g, ws[m].attempts[g])
  {
    if m < n {
      AttemptWaits(ws, es, g, m, n - 1);
      AttemptStays(ws, es, g, n - 1);
    }
  }

  /** An attempt begun at step j, with its old browser, if any, closed at step c, Chrome launched at step k, and
      no superseding step, is the one whose handshake goes into the field, among any steps of the others. */
  lemma UndisturbedInstalls(ws: seq<World>, es: seq<Event>, j: nat, c: nat, k: nat, n: nat)
    requires Run(ws, es) && j <= c < k < n < |ws| && Supersedes(ws[j], es[j])
    requires var g := ws[j].generation + 1;
             && (forall m | j < m < n :: !Supersedes(ws[m], es[m]))
             && (forall m | j < m < n && m != c && m != k :: !Of(es[m], g))
             && es[k] == Launched(g)
             && if es[j].ForceReconnect? && ws[j].browser.Some? then j < c && es[c] == Closed(g, false) else c == j
    ensures var g := ws[j].generation + 1;
            && Enabled(ws[n], Connected(g))
            && var v := Next(ws[n], Connected(g));
               v.browser == Some(ws[n].handshakes) && v.installs == ws[n].installs + [Install(g, ws[n].handshakes)]
  {
    var g := ws[j].generation + 1;
    StepBegins(ws[j], es[j]);
    GenerationsGrow(ws, es, j + 1, k);
    GenerationsGrow(ws, es, j + 1, n);
    if j < c {
      AttemptWaits(ws, es, g, j + 1, c);
    }
    assert ws[c + 1].attempts[g].phase == Launching;
    AttemptWaits(ws, es, g, c + 1, k);
    assert ws[k + 1].attempts[g].phase == Handshaking;
    AttemptWaits(ws, es, g, k + 1, n);
  }

  /** An attempt that fails and may retry goes on launching, unless its handshake failed when it was out of date;
      then, or when it may not retry, it is over. A failed handshake of the current one leaves no browser. */
  lemma FailedRetries(w: World, g: nat, retry: bool)
    requires In(w, g, Launching) || In(w, g, Handshaking)
    ensures var launching := In(w, g, Launching);
            var v := Next(w, if launching then NotLaunched(g, retry) else NotConnected(g, retry));
            && (if retry && (launching || g == w.generation)
                then In(v, g, Pausing) && In(Next(v, Resume(g)), g, Launching)
                else In(v, g, Over))
            && v.browser == (if !launching && g == w.generation then None else w.browser)
            && v.closed == w.closed + (if w.browser.Some? && v.browser.None? then {w.browser.value} else {})
            && v.generation == w.generation && v.pending == w.pending && v.installs == w.installs
            && (forall h <- w.attempts | h != g :: h in v.attempts && v.attempts[h] == w.attempts[h])
  {}

  // ---- The client itself ------------------------------------------------------------------------------

  class CDPClient {
    var connectionGeneration: nat
    var browser: Option<nat>
    var pendingConnect: Option<nat>
    var pendingConnectAutoLaunch: Option<bool>
    ghost var attempts: map<nat, Attempt>
    ghost var installs: seq<Install>
    ghost var stale: set<nat>
    ghost var closed: set<nat>
    ghost var handshakes: nat
    ghost var callers: set<(bool, nat)>

    constructor ()
      ensures Abstract() == Start()
    {
      connectionGeneration, browser, pendingConnect, pendingConnectAutoLaunch := 0, None, None, None;
      attempts, installs, stale, closed, handshakes, callers := map[], [], {}, {}, 0, {};
    }

    ghost function Abstract(): World
      reads this
    {
      World(connectionGeneration, browser, pendingConnect, pendingConnectAutoLaunch,
            attempts, installs, stale, closed, handshakes, callers)
    }

    predicate IsCurrentConnectionGeneration(generation: nat)
      reads this
    {
      generation == connectionGeneration
    }

    /** `connect` after its fast path: the attempt to wait for, or `None` to wait and call again. */
    method Connect(autoLaunch: bool) returns (attempt: Option<nat>)
      modifies this`connectionGeneration, this`pendingConnect, this`pendingConnectAutoLaunch, this`attempts, this`callers
      ensures Abstract() == Next(old(Abstract()), Event.Connect(autoLaunch))
      ensures attempt.Some? ==> callers == old(callers) + {(autoLaunch, attempt.value)} && pendingConnect == attempt
      ensures old(pendingConnect).None? ==>
                && connectionGeneration == old(connectionGeneration) + 1 && attempt == Some(connectionGeneration)
                && attempts == old(attempts)[connectionGeneration := Attempt(autoLaunch, Launching, None)]
                && pendingConnectAutoLaunch == Some(autoLaunch)
      ensures old(pendingConnect).Some? ==>
                unchanged(`connectionGeneration, `pendingConnect, `pendingConnectAutoLaunch, `attempts)
      ensures attempt.None? ==> unchanged(this) && pendingConnect.Some? && pendingConnectAutoLaunch != Some(autoLaunch)
    {
      if pendingConnect.Some? {
        if Some(autoLaunch) == pendingConnectAutoLaunch {
          callers := callers + {(autoLaunch, pendingConnect.value)};
          return pendingConnect;
        }
        return None;
      }
      connectionGeneration := connectionGeneration + 1;
      pendingConnect := Some(connectionGeneration);
      pendingConnectAutoLaunch := Some(autoLaunch);
      attempts := attempts[connectionGeneration := Attempt(autoLaunch, Launching, None)];
      callers := callers + {(autoLaunch, connectionGeneration)};
      return pendingConnect;
    }

    method ConnectSettled(g: nat)
      requires In(Abstract(), g, Over)
      modifies this`pendingConnect, this`pendingConnectAutoLaunch
      ensures Abstract() == Next(old(Abstract()), Settled(g))
      ensures if old(pendingConnect) == Some(g) then pendingConnect == None && pendingConnectAutoLaunch == None
              else unchanged(this)
    {
      if pendingConnect == Some(g) {
        pendingConnect, pendingConnectAutoLaunch := None, None;
      }
    }

    method ForceReconnect(autoLaunch: bool) returns (closing: bool)
      modifies this`connectionGeneration, this`pendingConnect, this`attempts, this`closed
      ensures Abstract() == Next(old(Abstract()), Event.ForceReconnect(autoLaunch))
      ensures closing <==> browser.Some?
      ensures connectionGeneration == old(connectionGeneration) + 1 && pendingConnect == None
      ensures attempts == old(attempts)[connectionGeneration :=
                                          Attempt(autoLaunch, if closing then Closing else Launching, browser)]
      ensures closed == old(closed) + (if closing then {browser.value} else {})
    {
      connectionGeneration := connectionGeneration + 1;
      pendingConnect := None;
      closing := browser.Some?;
      attempts := attempts[connectionGeneration :=
                             Attempt(autoLaunch, if closing then Closing else Launching, browser)];
      if closing {
        closed := closed + {browser.value};
      }
    }

    /** After the awaited disconnect the field is cleared, whatever it holds by then. */
    method ForceReconnectClosed(g: nat, disconnectRequested: bool)
      requires In(Abstract(), g, Closing)
      modifies this`browser, this`attempts
      ensures Abstract() == Next(old(Abstract()), Closed(g, disconnectRequested))
      ensures browser == None
      ensures attempts == old(attempts)[g := old(attempts)[g].(phase := if disconnectRequested then Over else Launching)]
    {
      browser := None;
      attempts := attempts[g := attempts[g].(phase := if disconnectRequested then Over else Launching)];
    }

    method HandleDisconnect()
      modifies this`connectionGeneration, this`browser, this`attempts, this`closed
      ensures Abstract() == Next(old(Abstract()), Event.HandleDisconnect)
      ensures browser == None && connectionGeneration == old(connectionGeneration) + 1
      ensures attempts == old(attempts)[connectionGeneration := Attempt(false, Launching, None)]
      ensures closed == old(closed) + (if old(browser).Some? then {old(browser).value} else {})
    {
      if browser.Some? {
        closed := closed + {browser.value};
      }
      browser := None;
      connectionGeneration := connectionGeneration + 1;
      attempts := attempts[connectionGeneration := Attempt(false, Launching, None)];
    }

    /** `ensureChrome` resolved; false when the attempt is out of date. */
    method ChromeEnsured(g: nat) returns (goOn: bool)
      requires In(Abstract(), g, Launching)
      modifies this`attempts
      ensures Abstract() == Next(old(Abstract()), Launched(g))
      ensures goOn <==> g == connectionGeneration
      ensures attempts == old(attempts)[g := old(attempts)[g].(phase := if goOn then Handshaking else Over)]
    {
      goOn := IsCurrentConnectionGeneration(g);
      attempts := attempts[g := attempts[g].(phase := if goOn then Handshaking else Over)];
    }

    /** The handshake won its race against the timer. */
    method HandshakeCompleted(g: nat, connected: nat) returns (installed: bool)
      requires In(Abstract(), g, Handshaking) && connected == handshakes
      modifies this`browser, this`attempts, this`installs, this`stale, this`handshakes
      ensures Abstract() == Next(old(Abstract()), Connected(g))
      ensures installed <==> g == connectionGeneration
      ensures installed ==>
                browser == Some(connected) && installs == old(installs) + [Install(g, connected)] && stale == old(stale)
      ensures !installed ==> stale == old(stale) + {connected} && unchanged(`browser, `installs)
      ensures handshakes == old(handshakes) + 1 && attempts == old(attempts)[g := old(attempts)[g].(phase := Over)]
    {
      handshakes := handshakes + 1;
      attempts := attempts[g := attempts[g].(phase := Over)];
      if !IsCurrentConnectionGeneration(g) {
        stale := stale + {connected};
        return false;
      }
      browser := Some(connected);
      installs := installs + [Install(g, connected)];
      return true;
    }

    /** The handshake failed or timed out. */
    method HandshakeFailed(g: nat, retry: bool) returns (goOn: bool)
      requires In(Abstract(), g, Handshaking)
      modifies this`browser, this`attempts, this`closed
      ensures Abstract() == Next(old(Abstract()), NotConnected(g, retry))
      ensures goOn <==> g == connectionGeneration && retry
      ensures attempts == old(attempts)[g := old(attempts)[g].(phase := if goOn then Pausing else Over)]
      ensures g != connectionGeneration ==> unchanged(`browser, `closed)
      ensures g == connectionGeneration ==>
                browser == None && closed == old(closed) + (if old(browser).Some? then {old(browser).value} else {})
    {
      goOn := IsCurrentConnectionGeneration(g) && retry;
      attempts := attempts[g := attempts[g].(phase := if goOn then Pausing else Over)];
      if !IsCurrentConnectionGeneration(g) {
        return;
      }
      if browser.Some? {
        closed := closed + {browser.value};
        browser := None;
      }
    }

    /** `ensureChrome` failed; with `retry` the caller's loop tries again after a pause. */
    method ChromeNotEnsured(g: nat, retry: bool)
      requires In(Abstract(), g, Launching)
      modifies this`attempts
      ensures Abstract() == Next(old(Abstract()), NotLaunched(g, retry))
      ensures attempts == old(attempts)[g := old(attempts)[g].(phase := if retry then Pausing else Over)]
    {
      attempts := attempts[g := attempts[g].(phase := if retry then Pausing else Over)];
    }

    /** `disconnect` up to its await. */
    method Disconnect() returns (closing: bool)
      modifies this`closed
      ensures Abstract() == Next(old(Abstract()), Event.Disconnect)
      ensures closing <==> browser.Some?
      ensures closed == old(closed) + (if closing then {browser.value} else {})
    {
      closing := browser.Some?;
      if closing {
        closed := closed + {browser.value};
      }
    }

    /** After the await the field is cleared, whatever it holds by then. */
    method DisconnectClosed()
      modifies this`browser
      ensures Abstract() == Next(old(Abstract()), Disconnected)
      ensures browser == None
    {
      browser := None;
    }
  }
}
