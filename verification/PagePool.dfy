/** The pages of `CDPConnectionPool` (src/cdp/connection-pool.ts): acquiring, releasing, the cleanup
    that runs on after a release, and tabs closed from outside, in any interleaving. */
module PagePool {
  /** Pages are numbered as they are created. `cleaning` holds the pages between release and return,
      `closing` those that the pool has asked to close. */
  datatype World = World(available: seq<nat>, inUse: set<nat>, cleaning: set<nat>, closing: set<nat>, created: nat)

  datatype Event =
    | Take                         // from the pool
    | CreateInUse
    | CreateAvailable              // pre-warming and replenishing
    | Release(page: nat)
    | Cleaned(page: nat, usable: bool)
    | DestroyedOutside(page: nat)
    | Expire(page: nat)            // maintenance closes an idle page

  predicate Enabled(w: World, e: Event) {
    match e
    case Take => w.available != []
    case Cleaned(page, _) => page in w.cleaning
    case Expire(page) => page in w.available
    case _ => true
  }

  /** Without its first occurrence, as `findIndex` and `splice` remove it. */
  function Remove(s: seq<nat>, x: nat): seq<nat> {
    if s == [] then [] else if s[0] == x then s[1..] else [s[0]] + Remove(s[1..], x)
  }

  function Next(max: nat, w: World, e: Event): World
    requires Enabled(w, e)
  {
    match e
    case Take =>
      var n := |w.available| - 1;
      w.(available := w.available[..n], inUse := w.inUse + {w.available[n]})
    case CreateInUse => w.(inUse := w.inUse + {w.created}, created := w.created + 1)
    case CreateAvailable => w.(available := w.available + [w.created], created := w.created + 1)
    case Release(page) =>
      if page !in w.inUse then w.(closing := w.closing + {page})
      else if |w.available| >= max then w.(inUse := w.inUse - {page}, closing := w.closing + {page})
      else w.(inUse := w.inUse - {page}, cleaning := w.cleaning + {page})
    case Cleaned(page, usable) =>
      var v := w.(cleaning := w.cleaning - {page});
      if usable && |w.available| < max then v.(available := w.available + [page]) else v.(closing := w.closing + {page})
    case DestroyedOutside(page) =>
      if page in w.inUse then w.(inUse := w.inUse - {page}) else w.(available := Remove(w.available, page))
    case Expire(page) => w.(available := Remove(w.available, page), closing := w.closing + {page})
  }

  function Elements(s: seq<nat>): set<nat> { set p <- s :: p }

  predicate Distinct(s: seq<nat>) {
    forall i, j | 0 <= i < j < |s| :: s[i] != s[j]
  }

  /** No page is listed twice, or in two places. */
  predicate Partitioned(w: World) {
    && Distinct(w.available)
    && (forall p <- w.available :: p !in w.inUse && p !in w.cleaning && p < w.created)
    && w.inUse !! w.cleaning
    && (forall p <- w.inUse :: p < w.created)
    && (forall p <- w.cleaning :: p < w.created)
  }

  /** No page that the pool keeps or has lent was asked to close. */
  predicate KeptOpen(w: World) {
    && (forall p <- w.available :: p !in w.closing)
    && w.inUse !! w.closing && w.cleaning !! w.closing
    && (forall p <- w.closing :: p < w.created)
  }

  /** A released page is one that the pool has created. */
  predicate Created(w: World, e: Event) { e.Release? ==> e.page < w.created }

  /** No page is released that the pool keeps or cleans: it is in use, or no longer the pool's. */
  predicate Harmless(w: World, e: Event) { e.Release? ==> e.page !in w.available && e.page !in w.cleaning }

  lemma {:induction false} Removed(s: seq<nat>, x: nat)
    requires Distinct(s)
    ensures Distinct(Remove(s, x))
    ensures forall y: nat :: y in Remove(s, x) <==> y in s && y != x
  {
    if s != [] {
      Removed(s[1..], x);
      assert forall y: nat :: y in s <==> y == s[0] || y in s[1..];
      assert s[0] !in s[1..];
      if s[0] != x {
        assert forall y: nat :: y in [s[0]] + Remove(s[1..], x) <==> y == s[0] || y in Remove(s[1..], x);
        Prepended(s[0], Remove(s[1..], x));
      }
    }
  }

  lemma Prepended(x: nat, s: seq<nat>)
    requires Distinct(s) && x !in s
    ensures Distinct([x] + s)
  {}

  lemma Pushed(s: seq<nat>, x: nat)
    requires Distinct(s) && x !in s
    ensures Distinct(s + [x])
    ensures forall y: nat :: y in s + [x] <==> y in s || y == x
  {
    assert (s + [x])[|s|] == x;
  }

  lemma ElementsSnoc(s: seq<nat>, x: nat)
    ensures Elements(s + [x]) == Elements(s) + {x}
  {
    assert (s + [x])[|s|] == x && x in s + [x];
    forall y ensures y in Elements(s + [x]) <==> y in Elements(s) + {x} {
      assert y in s + [x] <==> y in s || y == x;
    }
  }

  lemma Popped(s: seq<nat>)
    requires Distinct(s) && s != []
    ensures Distinct(s[..|s| - 1]) && s[|s| - 1] in s && s[|s| - 1] !in s[..|s| - 1]
    ensures forall y: nat :: y in s[..|s| - 1] ==> y in s
  {}

  /** The lemmas on sequences that a step needs. */
  lemma Sequences(max: nat, w: World, e: Event)
    requires Enabled(w, e) && Distinct(w.available)
    requires (e.Cleaned? ==> e.page !in w.available) && w.created !in w.available
    ensures Distinct(Next(max, w, e).available)
    ensures forall y: nat :: y in Next(max, w, e).available ==>
              y in w.available || (e.CreateAvailable? && y == w.created) || (e.Cleaned? && y == e.page)
    ensures e.Take? ==>
              && w.available[|w.available| - 1] in w.available
              && w.available[|w.available| - 1] !in Next(max, w, e).available
    ensures e.Expire? ==> e.page !in Next(max, w, e).available
  {
    match e
    case Take => Popped(w.available);
    case CreateAvailable => Pushed(w.available, w.created);
    case Cleaned(page, _) => Pushed(w.available, page);
    case DestroyedOutside(page) => Removed(w.available, page);
    case Expire(page) => Removed(w.available, page);
    case _ =>
  }

  lemma StepKeepsPartition(max: nat, w: World, e: Event)
    requires Partitioned(w) && Enabled(w, e)
    ensures Partitioned(Next(max, w, e))
  {
    Sequences(max, w, e);
  }

  /** A step closes a page that the pool keeps or lends exactly when it is a harmful release. */
  lemma StepKeepsOpenIff(max: nat, w: World, e: Event)
    requires Partitioned(w) && KeptOpen(w) && Enabled(w, e) && Created(w, e)
    ensures KeptOpen(Next(max, w, e)) <==> Harmless(w, e)
  {
    Sequences(max, w, e);
  }

  function Start(): World { World([], {}, {}, {}, 0) }

  ghost predicate Run(max: nat, ws: seq<World>, es: seq<Event>) {
    && |ws| == |es| + 1 && ws[0] == Start()
    && forall i | 0 <= i < |es| :: Enabled(ws[i], es[i]) && ws[i + 1] == Next(max, ws[i], es[i])
  }

  /** No page is both available and in use, or listed twice. */
  lemma {:induction false} PagesPartitioned(max: nat, ws: seq<World>, es: seq<Event>, n: nat)
    requires Run(max, ws, es) && n < |ws|
    ensures Partitioned(ws[n])
  {
    if n > 0 {
      PagesPartitioned(max, ws, es, n - 1);
      StepKeepsPartition(max, ws[n - 1], es[n - 1]);
    }
  }

  /** Over whole runs: no page that the pool keeps or lends was asked to close, up to a world, if and only
      if no release before it was of a page that the pool keeps or cleans. */
  lemma {:induction false} KeptOpenIff(max: nat, ws: seq<World>, es: seq<Event>, n: nat)
    requires Run(max, ws, es) && n < |ws| && forall i | 0 <= i < n :: Created(ws[i], es[i])
    ensures (forall i | 0 <= i <= n :: KeptOpen(ws[i])) <==> (forall i | 0 <= i < n :: Harmless(ws[i], es[i]))
  {
    if n > 0 {
      KeptOpenIff(max, ws, es, n - 1);
      PagesPartitioned(max, ws, es, n - 1);
      if KeptOpen(ws[n - 1]) {
        StepKeepsOpenIff(max, ws[n - 1], es[n - 1]);
        assert ws[n] == Next(max, ws[n - 1], es[n - 1]);
      }
      assert (forall i | 0 <= i <= n :: KeptOpen(ws[i])) ==> KeptOpen(ws[n]) && KeptOpen(ws[n - 1]);
    } else {
      assert KeptOpen(ws[0]);
    }
  }

  /** So if each released page is in use or no longer the pool's, nothing kept or lent was asked to close. */
  lemma PagesKeptOpen(max: nat, ws: seq<World>, es: seq<Event>, n: nat)
    requires Run(max, ws, es) && n < |ws|
    requires forall i | 0 <= i < n :: Created(ws[i], es[i]) && Harmless(ws[i], es[i])
    ensures KeptOpen(ws[n])
  {
    KeptOpenIff(max, ws, es, n);
  }

  /** A page released twice is lent again although it was asked to close. */
  lemma ReleasedTwice(max: nat) returns (ws: seq<World>, es: seq<Event>)
    requires max > 0
    ensures Run(max, ws, es) && |es| > 0 && es[|es| - 1] == Take
    ensures ws[|es|].inUse == {0} && ws[|es|].closing == {0}
  {
    es := [CreateInUse, Release(0), Release(0), Cleaned(0, true), Take];
    ws := [Start(), World([], {0}, {}, {}, 1), World([], {}, {0}, {}, 1), World([], {}, {0}, {0}, 1),
           World([0], {}, {}, {0}, 1), World([], {0}, {}, {0}, 1)];
  }

  // ---- Where every page is --------------------------------------------------------------------------------

  predicate Tracked(w: World, p: nat) { p in w.available || p in w.inUse || p in w.cleaning }

  /** The first occurrence goes, and the others keep their order. */
  lemma {:induction false} RemoveIs(a: seq<nat>, x: nat, b: seq<nat>)
    requires x !in a
    ensures Remove(a + [x] + b, x) == a + b
  {
    var s := a + [x] + b;
    if a == [] {
      assert s[1..] == b;
    } else {
      assert s[1..] == a[1..] + [x] + b && s[0] == a[0];
      RemoveIs(a[1..], x, b);
    }
  }

  lemma {:induction false} RemoveNothing(s: seq<nat>, x: nat)
    requires x !in s
    ensures Remove(s, x) == s
  {
    if s != [] {
      RemoveNothing(s[1..], x);
    }
  }

  /** Pages are taken out by taking, releasing, cleaning, closing and destroying just these pages. */
  lemma StepTracks(max: nat, w: World, e: Event, p: nat)
    requires Partitioned(w) && Enabled(w, e) && p < w.created
    ensures var v := Next(max, w, e);
            && v.created >= w.created && w.closing <= v.closing
            && (!Tracked(w, p) ==> !Tracked(v, p))
            && (Tracked(w, p) && !Tracked(v, p) ==> p in v.closing || e == DestroyedOutside(p))
            && (e == DestroyedOutside(p) && p !in w.cleaning ==> !Tracked(v, p))
  {
    Sequences(max, w, e);
    if p in w.available {
      StepTracksAvailable(max, w, e, p);
    }
  }

  lemma StepTracksAvailable(max: nat, w: World, e: Event, p: nat)
    requires Distinct(w.available) && Enabled(w, e) && p in w.available
    ensures var v := Next(max, w, e);
            p in v.available || p in v.inUse || p in v.closing || e == DestroyedOutside(p)
    ensures e == DestroyedOutside(p) && p !in w.inUse ==> p !in Next(max, w, e).available
  {
    match e
    case Take => InFrontOrLast(w.available, p);
    case DestroyedOutside(page) => Removed(w.available, page);
    case Expire(page) => Removed(w.available, page);
    case _ =>
  }

  lemma InFrontOrLast(s: seq<nat>, p: nat)
    requires p in s
    ensures p in s[..|s| - 1] || p == s[|s| - 1]
  {}

  lemma StepCreates(max: nat, w: World, e: Event)
    requires Enabled(w, e)
    ensures var v := Next(max, w, e);
            if e.CreateInUse? || e.CreateAvailable? then v.created == w.created + 1 && Tracked(v, w.created)
            else v.created == w.created
  {
    if e.CreateAvailable? {
      assert (w.available + [w.created])[|w.available|] == w.created;
    }
  }

  predicate WasDestroyed(es: seq<Event>, n: nat, p: nat)
    requires n <= |es|
  {
    exists i | 0 <= i < n :: es[i] == DestroyedOutside(p)
  }

  /** No page leaks: in every run each page ever created is kept, lent or being cleaned, or was asked to close
      or destroyed outside. */
  lemma {:induction false} NoPageLeaks(max: nat, ws: seq<World>, es: seq<Event>, n: nat, p: nat)
    requires Run(max, ws, es) && n < |ws| && p < ws[n].created
    ensures Tracked(ws[n], p) || p in ws[n].closing || WasDestroyed(es, n, p)
  {
    if n > 0 {
      var w, e := ws[n - 1], es[n - 1];
      PagesPartitioned(max, ws, es, n - 1);
      StepCreates(max, w, e);
      if p < w.created {
        NoPageLeaks(max, ws, es, n - 1, p);
        StepTracks(max, w, e, p);
      }
    }
  }

  /** A page that has left the pool never comes back, whatever is released. */
  lemma {:induction false} NeverBack(max: nat, ws: seq<World>, es: seq<Event>, m: nat, n: nat, p: nat)
    requires Run(max, ws, es) && m <= n < |ws| && p < ws[m].created && !Tracked(ws[m], p)
    ensures p < ws[n].created && !Tracked(ws[n], p)
  {
    if m < n {
      NeverBack(max, ws, es, m, n - 1, p);
      PagesPartitioned(max, ws, es, n - 1);
      StepTracks(max, ws[n - 1], es[n - 1], p);
    }
  }

  lemma StaysOut(max: nat, w: World, e: Event, p: nat)
    requires Partitioned(w) && Enabled(w, e) && p < w.created && p !in w.available && p !in w.inUse
    requires e != Cleaned(p, true)
    ensures p !in Next(max, w, e).available && p !in Next(max, w, e).inUse && p < Next(max, w, e).created
  {
    Sequences(max, w, e);
  }

  /** A page that was destroyed outside is never kept or lent again, unless its cleanup was under way then and ended
      well all the same. */
  lemma {:induction false} DestroyedNeverLent(max: nat, ws: seq<World>, es: seq<Event>, m: nat, n: nat, p: nat)
    requires Run(max, ws, es) && m < n < |ws| && es[m] == DestroyedOutside(p) && p < ws[m].created
    requires p in ws[m].cleaning ==> forall i | m < i < n :: es[i] != Cleaned(p, true)
    ensures p < ws[n].created && p !in ws[n].available && p !in ws[n].inUse
  {
    PagesPartitioned(max, ws, es, m);
    StepTracks(max, ws[m], es[m], p);
    if p in ws[m].cleaning {
      StaysOut(max, ws[m], es[m], p);
    }
    if p !in ws[m].cleaning {
      NeverBack(max, ws, es, m + 1, n, p);
    } else if m + 1 < n {
      DestroyedNeverLent(max, ws, es, m, n - 1, p);
      PagesPartitioned(max, ws, es, n - 1);
      StaysOut(max, ws[n - 1], es[n - 1], p);
    }
  }

  class ConnectionPool {
    const maxPoolSize: nat
    var availablePages: seq<nat>
    var inUsePages: set<nat>
    ghost var cleaning: set<nat>
    ghost var closing: set<nat>
    ghost var created: nat

    constructor (maxPoolSize: nat)
      ensures Abstract() == Start() && this.maxPoolSize == maxPoolSize
    {
      this.maxPoolSize := maxPoolSize;
      availablePages, inUsePages, cleaning, closing, created := [], {}, {}, {}, 0;
    }

    ghost function Abstract(): World
      reads this
    {
      World(availablePages, inUsePages, cleaning, closing, created)
    }

    /** `acquirePage` when the pool has a page. */
    method TakePage() returns (page: nat)
      requires availablePages != []
      modifies this`availablePages, this`inUsePages
      ensures Abstract() == Next(maxPoolSize, old(Abstract()), Take)
      ensures old(availablePages) == availablePages + [page] && inUsePages == old(inUsePages) + {page}
    {
      page := availablePages[|availablePages| - 1];
      availablePages := availablePages[..|availablePages| - 1];
      inUsePages := inUsePages + {page};
    }

    /** The loop of `acquireBatch` over the pool: the last pages, last first. */
    method TakePages(count: nat) returns (pages: seq<nat>)
      requires Partitioned(Abstract())
      modifies this
      ensures Partitioned(Abstract())
      ensures |pages| == if count < |old(availablePages)| then count else |old(availablePages)|
      ensures availablePages == old(availablePages)[..|old(availablePages)| - |pages|]
      ensures forall i | 0 <= i < |pages| :: pages[i] == old(availablePages)[|old(availablePages)| - 1 - i]
      ensures inUsePages == old(inUsePages) + Elements(pages)
    {
      var fromPool := if count < |availablePages| then count else |availablePages|;
      pages := [];
      for i := 0 to fromPool
        invariant |pages| == i && Partitioned(Abstract())
        invariant availablePages == old(availablePages)[..|old(availablePages)| - i]
        invariant forall j | 0 <= j < i :: pages[j] == old(availablePages)[|old(availablePages)| - 1 - j]
        invariant inUsePages == old(inUsePages) + Elements(pages)
      {
        StepKeepsPartition(maxPoolSize, Abstract(), Take);
        var page := TakePage();
        ElementsSnoc(pages, page);
        pages := pages + [page];
      }
    }

    /** `releasePage` up to its first await. */
    method ReleasePage(page: nat) returns (cleans: bool)
      modifies this`inUsePages, this`cleaning, this`closing
      ensures Abstract() == Next(maxPoolSize, old(Abstract()), Release(page))
      ensures cleans <==> page in old(inUsePages) && |availablePages| < maxPoolSize
      ensures inUsePages == old(inUsePages) - {page}
      ensures cleaning == old(cleaning) + (if cleans then {page} else {})
      ensures closing == old(closing) + (if cleans then {} else {page})
    {
      if page !in inUsePages {
        closing := closing + {page};
        return false;
      }
      inUsePages := inUsePages - {page};
      if |availablePages| >= maxPoolSize {
        closing := closing + {page};
        return false;
      }
      cleaning := cleaning + {page};
      return true;
    }

    /** The end of `cleanAndReturnToPool`. */
    method ReturnToPool(page: nat, usable: bool)
      requires page in cleaning
      modifies this`availablePages, this`cleaning, this`closing
      ensures Abstract() == Next(maxPoolSize, old(Abstract()), Cleaned(page, usable))
      ensures cleaning == old(cleaning) - {page}
      ensures if usable && |old(availablePages)| < maxPoolSize
              then availablePages == old(availablePages) + [page] && closing == old(closing)
              else availablePages == old(availablePages) && closing == old(closing) + {page}
    {
      cleaning := cleaning - {page};
      if !usable || |availablePages| >= maxPoolSize {
        closing := closing + {page};
        return;
      }
      availablePages := availablePages + [page];
    }

    /** The target-destroyed listener. */
    method TargetDestroyed(page: nat)
      modifies this`availablePages, this`inUsePages
      ensures Abstract() == Next(maxPoolSize, old(Abstract()), DestroyedOutside(page))
      ensures inUsePages == old(inUsePages) - {page}
      ensures page in old(inUsePages) || page !in old(availablePages) ==> availablePages == old(availablePages)
      ensures page !in old(inUsePages) ==>
                forall a, b | page !in a && old(availablePages) == a + [page] + b :: availablePages == a + b
    {
      forall a, b | page !in a && availablePages == a + [page] + b ensures Remove(availablePages, page) == a + b {
        RemoveIs(a, page, b);
      }
      if page !in availablePages {
        RemoveNothing(availablePages, page);
      }
      if page in inUsePages {
        inUsePages := inUsePages - {page};
        return;
      }
      availablePages := Remove(availablePages, page);
    }
  }
}
