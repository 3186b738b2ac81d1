/** The same lock at the level of inodes: creating, reading, truncating, writing and unlinking are
    separate steps of the processes of one host (src/chrome/controller-lock.ts). */
module LockInodes {
  import opened Wrappers

  /** Anything `readMetadata` makes nothing of is unreadable: a file not yet written, or just truncated. */
  datatype Content = Unreadable | Whole(owner: Owner, heartbeatAt: int)

  datatype Owner = Owner(pid: int, startedAt: int)

  /** Where a process is; what it opened stays open when the path is unlinked. */
  datatype Pc =
    | Creating(inode: nat, startedAt: int)
    | Opened(inode: nat)
    | Checked(inode: nat, content: Content)
    | Truncated(inode: nat, content: Content)
    | Refused                                    // a contender's exclusive create found a file
    | Missed                                     // its read, or that of a release, found none: may unlink
    | Judged(inode: nat, content: Content)       // a contender read this and may unlink
    | Suspecting(inode: nat, content: Content)   // its live owner is being probed
    | Stale(inode: nat, content: Content)        // read again, still the suspected owner: may unlink
    | Releasing(inode: nat, content: Content)    // a holder read this and may unlink

  /** `named` records, for each inode, the owner first written to it. */
  datatype World = World(link: Option<nat>, files: seq<Content>, named: seq<Option<Owner>>, pcs: map<int, Pc>,
    alive: set<int>)

  datatype Event =
    | StartProcess(p: int)
    | Crash(p: int)
    | Create(p: int, startedAt: int)
    | WriteNew(p: int)
    | OpenHeartbeat(p: int)
    | ReadHeartbeat(p: int)
    | Truncate(p: int)
    | WriteHeartbeat(p: int, now: int)
    | Collide(p: int)
    | ReadLock(p: int)
    | UnlinkMissed(p: int)
    | Leave(p: int)                              // the owner is alive: give up
    | Unlink(p: int)
    | Suspect(p: int)                            // the health check catches the duplicate error
    | ReadStale(p: int)                          // `unlinkStaleLock` of an owner that may be alive
    | UnlinkStale(p: int)
    | ReadRelease(p: int)                        // `releaseControllerLock`
    | UnlinkRelease(p: int)

  /** The contender unlinks what it could not read, and what a dead process wrote. */
  predicate MayUnlink(w: World, content: Content) {
    content.Unreadable? || content.owner.pid !in w.alive
  }

  predicate Enabled(w: World, e: Event) {
    if e.StartProcess? then e.p !in w.alive
    else
      && e.p in w.alive
      && match e
         case StartProcess(_) => true
         case Crash(p) => true
         case Create(p, _) => p !in w.pcs && w.link.None?
         case WriteNew(p) => p in w.pcs && w.pcs[p].Creating?
         case OpenHeartbeat(p) => p !in w.pcs && w.link.Some?
         case ReadHeartbeat(p) => p in w.pcs && w.pcs[p].Opened?
         case Truncate(p) => p in w.pcs && w.pcs[p].Checked?
         case WriteHeartbeat(p, _) => p in w.pcs && w.pcs[p].Truncated?
         case Collide(p) => p !in w.pcs && w.link.Some?
         case ReadLock(p) => p in w.pcs && w.pcs[p].Refused?
         case UnlinkMissed(p) => p in w.pcs && w.pcs[p].Missed?
         case Leave(p) => p in w.pcs && w.pcs[p].Judged?
         case Unlink(p) => p in w.pcs && w.pcs[p].Judged? && MayUnlink(w, w.pcs[p].content)
         case Suspect(p) => p in w.pcs && w.pcs[p].Judged? && !MayUnlink(w, w.pcs[p].content)
         case ReadStale(p) => p in w.pcs && w.pcs[p].Suspecting?
         case UnlinkStale(p) => p in w.pcs && w.pcs[p].Stale?
         case ReadRelease(p) => p !in w.pcs
         case UnlinkRelease(p) => p in w.pcs && w.pcs[p].Releasing?
  }

  predicate HasInode(pc: Pc) { !pc.Refused? && !pc.Missed? }

  predicate Open(w: World) {
    && |w.named| == |w.files|
    && (w.link.Some? ==> w.link.value < |w.files|)
    && (forall p | p in w.pcs && HasInode(w.pcs[p]) :: w.pcs[p].inode < |w.files|)
    && (forall p | p in w.pcs && (w.pcs[p].Checked? || w.pcs[p].Truncated?) :: w.pcs[p].content.Whole?)
  }

  function Next(w: World, e: Event): World
    requires Open(w) && Enabled(w, e)
  {
    match e
    case StartProcess(p) => w.(alive := w.alive + {p})
    case Crash(p) => w.(alive := w.alive - {p}, pcs := w.pcs - {p})
    case Create(p, startedAt) =>
      w.(link := Some(|w.files|), files := w.files + [Unreadable], named := w.named + [None],
         pcs := w.pcs[p := Creating(|w.files|, startedAt)])
    case WriteNew(p) =>
      var i, o := w.pcs[p].inode, Owner(p, w.pcs[p].startedAt);
      w.(files := w.files[i := Whole(o, o.startedAt)], named := w.named[i := Some(o)], pcs := w.pcs - {p})
    case OpenHeartbeat(p) => w.(pcs := w.pcs[p := Opened(w.link.value)])
    case ReadHeartbeat(p) =>
      var i := w.pcs[p].inode;
      if w.files[i].Whole? && w.files[i].owner.pid == p then w.(pcs := w.pcs[p := Checked(i, w.files[i])])
      else w.(pcs := w.pcs - {p})
    case Truncate(p) =>
      var i := w.pcs[p].inode;
      w.(files := w.files[i := Unreadable], pcs := w.pcs[p := Truncated(i, w.pcs[p].content)])
    case WriteHeartbeat(p, now) =>
      var i := w.pcs[p].inode;
      w.(files := w.files[i := w.pcs[p].content.(heartbeatAt := now)], pcs := w.pcs - {p})
    case Collide(p) => w.(pcs := w.pcs[p := Refused])
    case ReadLock(p) =>
      w.(pcs := w.pcs[p := if w.link.None? then Missed else Judged(w.link.value, w.files[w.link.value])])
    case UnlinkMissed(p) => w.(link := None, pcs := w.pcs - {p})
    case Leave(p) => w.(pcs := w.pcs - {p})
    case Unlink(p) => w.(link := None, pcs := w.pcs - {p})
    case Suspect(p) => w.(pcs := w.pcs[p := Suspecting(w.pcs[p].inode, w.pcs[p].content)])
    case ReadStale(p) =>
      var linked := Linked(w);
      if linked.Whole? && SameOwner(linked, w.pcs[p].content) then w.(pcs := w.pcs[p := Stale(w.link.value, linked)])
      else w.(pcs := w.pcs - {p})
    case UnlinkStale(p) => w.(link := None, pcs := w.pcs - {p})
    case ReadRelease(p) =>
      if w.link.None? then w.(pcs := w.pcs[p := Missed])
      else if Linked(w).Whole? && Linked(w).owner.pid != p then w
      else w.(pcs := w.pcs[p := Releasing(w.link.value, Linked(w))])
    case UnlinkRelease(p) => w.(link := None, pcs := w.pcs - {p})
  }

  /** What `readMetadata` sees at the path. */
  function Linked(w: World): Content
    requires Open(w)
  {
    if w.link.None? then Unreadable else w.files[w.link.value]
  }

  /** The compare of `unlinkStaleLock`. */
  predicate SameOwner(a: Content, b: Content) { a.Whole? && b.Whole? && a.owner == b.owner }

  /** What is written names the recorded owner, and so does what a process has read and will write back. */
  ghost predicate Inv(w: World) {
    && Open(w)
    && (forall i | 0 <= i < |w.files| && w.files[i].Whole? :: w.named[i] == Some(w.files[i].owner))
    && (forall p | p in w.pcs :: PcInv(w, p, w.pcs[p]))
    && (forall p, q | p in w.pcs && q in w.pcs && w.pcs[p].Creating? && w.pcs[q].Creating? && w.pcs[p].inode == w.pcs[q].inode ::
          p == q)
  }

  ghost predicate PcInv(w: World, p: int, pc: Pc)
    requires |w.named| == |w.files|
  {
    && (HasInode(pc) ==> pc.inode < |w.files|)
    && match pc
       case Creating(i, _) => w.named[i] == None
       case Opened(_) => true
       case Checked(i, c) => c.Whole? && c.owner.pid == p && w.named[i] == Some(c.owner)
       case Truncated(i, c) => c.Whole? && c.owner.pid == p && w.named[i] == Some(c.owner)
       case Refused => true
       case Missed => true
       case Judged(i, c) => c.Whole? ==> w.named[i] == Some(c.owner)
       case Suspecting(i, c) => c.Whole? && w.named[i] == Some(c.owner)
       case Stale(i, c) => c.Whole? && w.named[i] == Some(c.owner)
       case Releasing(i, c) => c.Whole? ==> c.owner.pid == p && w.named[i] == Some(c.owner)
  }

  lemma StepKeepsInv(w: World, e: Event)
    requires Inv(w) && Enabled(w, e)
    ensures Inv(Next(w, e))
  {
    match e
    case Create(p, startedAt) => CreateKeepsInv(w, p, startedAt);
    case WriteNew(p) => WriteNewKeepsInv(w, p);
    case WriteHeartbeat(p, now) => BeatKeepsInv(w, e);
    case Truncate(p) => BeatKeepsInv(w, e);
    case ReadHeartbeat(p) => BeatKeepsInv(w, e);
    case ReadLock(p) => ReadLockKeepsInv(w, p);
    case Suspect(p) => TakeoverKeepsInv(w, e);
    case ReadStale(p) => TakeoverKeepsInv(w, e);
    case ReadRelease(p) => TakeoverKeepsInv(w, e);
    case _ =>
      var v := Next(w, e);
      assert v.files == w.files && v.named == w.named;
      forall q | q in v.pcs ensures PcInv(v, q, v.pcs[q]) {
        assert e == OpenHeartbeat(q) || e == Collide(q) || PcInv(w, q, w.pcs[q]);
      }
  }

  lemma CreateKeepsInv(w: World, p: int, startedAt: int)
    requires Inv(w) && Enabled(w, Create(p, startedAt))
    ensures Inv(Next(w, Create(p, startedAt)))
  {
    var v := Next(w, Create(p, startedAt));
    forall q | q in v.pcs ensures PcInv(v, q, v.pcs[q]) {
      assert q == p || PcInv(w, q, w.pcs[q]);
    }
  }

  lemma WriteNewKeepsInv(w: World, p: int)
    requires Inv(w) && Enabled(w, WriteNew(p))
    ensures Inv(Next(w, WriteNew(p)))
  {
    var v := Next(w, WriteNew(p));
    forall q | q in v.pcs ensures PcInv(v, q, v.pcs[q]) {
      assert PcInv(w, q, w.pcs[q]) && PcInv(w, p, w.pcs[p]);
    }
  }

  lemma ReadLockKeepsInv(w: World, p: int)
    requires Inv(w) && Enabled(w, ReadLock(p))
    ensures Inv(Next(w, ReadLock(p)))
  {
    var v := Next(w, ReadLock(p));
    forall q | q in v.pcs ensures PcInv(v, q, v.pcs[q]) {
      assert q == p || PcInv(w, q, w.pcs[q]);
    }
  }

  lemma TakeoverKeepsInv(w: World, e: Event)
    requires Inv(w) && Enabled(w, e) && (e.Suspect? || e.ReadStale? || e.ReadRelease?)
    ensures Inv(Next(w, e))
  {
    var v := Next(w, e);
    assert e.p in w.pcs ==> PcInv(w, e.p, w.pcs[e.p]);
    assert v.files == w.files && v.named == w.named;
    forall q | q in v.pcs ensures PcInv(v, q, v.pcs[q]) {
      assert q == e.p || PcInv(w, q, w.pcs[q]);
    }
  }

  lemma BeatKeepsInv(w: World, e: Event)
    requires Inv(w) && Enabled(w, e) && (e.ReadHeartbeat? || e.Truncate? || e.WriteHeartbeat?)
    ensures Inv(Next(w, e))
  {
    var v := Next(w, e);
    assert PcInv(w, e.p, w.pcs[e.p]);
    forall q | q in v.pcs ensures PcInv(v, q, v.pcs[q]) {
      assert PcInv(w, q, w.pcs[q]);
    }
  }

  /** The recorded owner of an inode is recorded once and for all. */
  lemma StepKeepsNames(w: World, e: Event, i: nat)
    requires Inv(w) && Enabled(w, e) && i < |w.named| && w.named[i].Some?
    ensures i < |Next(w, e).named| && Next(w, e).named[i] == w.named[i]
  {
    if e.WriteNew? {
      assert PcInv(w, e.p, w.pcs[e.p]);
    }
  }

  ghost predicate Run(ws: seq<World>, es: seq<Event>) {
    && |ws| == |es| + 1
    && ws[0] == World(None, [], [], map[], {})
    && forall i | 0 <= i < |es| :: Open(ws[i]) && Enabled(ws[i], es[i]) && ws[i + 1] == Next(ws[i], es[i])
  }

  lemma {:induction false} RunKeepsInv(ws: seq<World>, es: seq<Event>, n: nat)
    requires Run(ws, es) && n < |ws|
    ensures Inv(ws[n])
  {
    if n > 0 {
      RunKeepsInv(ws, es, n - 1);
      StepKeepsInv(ws[n - 1], es[n - 1]);
    }
  }

  lemma {:induction false} NamesStay(ws: seq<World>, es: seq<Event>, m: nat, n: nat, i: nat)
    requires Run(ws, es) && m <= n < |ws| && i < |ws[m].named| && ws[m].named[i].Some?
    ensures i < |ws[n].named| && ws[n].named[i] == ws[m].named[i]
    decreases n
  {
    if m < n {
      NamesStay(ws, es, m, n - 1, i);
      RunKeepsInv(ws, es, n - 1);
      StepKeepsNames(ws[n - 1], es[n - 1], i);
    }
  }

  /** Whenever an inode can be read, it names the same process and the same start. */
  lemma OwnerNeverChanges(ws: seq<World>, es: seq<Event>, m: nat, n: nat, i: nat)
    requires Run(ws, es) && m <= n < |ws|
    requires i < |ws[m].files| && ws[m].files[i].Whole?
    requires i < |ws[n].files| && ws[n].files[i].Whole?
    ensures ws[n].files[i].owner == ws[m].files[i].owner
  {
    RunKeepsInv(ws, es, m);
    RunKeepsInv(ws, es, n);
    NamesStay(ws, es, m, n, i);
  }

  predicate HeartbeatStep(e: Event) {
    e.OpenHeartbeat? || e.ReadHeartbeat? || e.Truncate? || e.WriteHeartbeat?
  }

  /** No step of a heartbeat changes the link, or any file but one that the process itself was written
      to as owner; what it writes there names that owner. */
  lemma HeartbeatTouchesOwnFile(ws: seq<World>, es: seq<Event>, n: nat, i: nat)
    requires Run(ws, es) && n < |es| && HeartbeatStep(es[n]) && i < |ws[n].files|
    ensures ws[n + 1].link == ws[n].link && |ws[n + 1].files| == |ws[n].files|
    ensures ws[n + 1].files[i] != ws[n].files[i] ==>
              && ws[n].named[i].Some? && ws[n].named[i].value.pid == es[n].p
              && (ws[n + 1].files[i].Unreadable? || ws[n + 1].files[i].owner == ws[n].named[i].value)
  {
    RunKeepsInv(ws, es, n);
    var w, p := ws[n], es[n].p;
    assert p in w.pcs ==> PcInv(w, p, w.pcs[p]);
  }

  /** An inode that is not linked is never linked again: a lock that was taken over, by whatever unlink,
      is not resurrected. */
  lemma {:induction false} NeverLinkedAgain(ws: seq<World>, es: seq<Event>, m: nat, n: nat, i: nat)
    requires Run(ws, es) && m <= n < |ws| && i < |ws[m].files| && ws[m].link != Some(i)
    ensures i < |ws[n].files| && ws[n].link != Some(i)
    decreases n
  {
    if m < n {
      NeverLinkedAgain(ws, es, m, n - 1, i);
    }
  }

  predicate Unlinks(e: Event) { e.Unlink? || e.UnlinkMissed? || e.UnlinkStale? || e.UnlinkRelease? }

  /** Whoever unlinks the inode that it read, and could read, removes the file of the owner that it
      compared: a dead one in the acquire loop, the suspected one in a takeover, its own process in a
      release. Another file goes only when the read found nothing, or the path named another inode. */
  lemma UnlinkRemovesJudged(ws: seq<World>, es: seq<Event>, n: nat)
    requires Run(ws, es) && n < |es| && Unlinks(es[n])
    requires var pc := ws[n].pcs[es[n].p]; HasInode(pc) && pc.content.Whole? && ws[n].link == Some(pc.inode)
    ensures var w, p := ws[n], es[n].p;
            && w.named[w.pcs[p].inode] == Some(w.pcs[p].content.owner)
            && (es[n].Unlink? ==> w.pcs[p].content.owner.pid !in w.alive)
            && (es[n].UnlinkRelease? ==> w.pcs[p].content.owner.pid == p)
  {
    RunKeepsInv(ws, es, n);
    assert PcInv(ws[n], es[n].p, ws[n].pcs[es[n].p]);
  }

  /** The acquire loop unlinks a file of a live process only if its read found no file, or could not read
      it, or judged an earlier file at that path: the races that the one-step model leaves out. */
  lemma UnlinkOfLiveOwner(ws: seq<World>, es: seq<Event>, n: nat)
    requires Run(ws, es) && n < |es| && (es[n].Unlink? || es[n].UnlinkMissed?)
    requires ws[n].link.Some? && ws[n].link.value < |ws[n].named|
    requires ws[n].named[ws[n].link.value].Some? && ws[n].named[ws[n].link.value].value.pid in ws[n].alive
    ensures var judged := ws[n].pcs[es[n].p];
            judged.Missed? || judged.content.Unreadable? || judged.inode != ws[n].link.value
  {
    RunKeepsInv(ws, es, n);
    var p := es[n].p;
    assert PcInv(ws[n], p, ws[n].pcs[p]);
  }

  /** The exclusive create never takes the place of a linked file: between two links the path names none. */
  lemma NeverReplaced(ws: seq<World>, es: seq<Event>, n: nat)
    requires Run(ws, es) && n < |es| && ws[n].link.Some? && ws[n + 1].link != ws[n].link
    ensures ws[n + 1].link == None && Unlinks(es[n])
  {
    assert ws[n + 1] == Next(ws[n], es[n]);
  }

  // ---- Operations that nothing interrupts ------------------------------------------------------------------

  /** Creating and writing: the new file names its process and start, with the start as first heartbeat. */
  lemma CreatedAlone(w: World, p: int, startedAt: int)
    requires Inv(w) && p in w.alive && p !in w.pcs && w.link.None?
    ensures Enabled(w, Create(p, startedAt))
    ensures var w1 := Next(w, Create(p, startedAt));
            && Open(w1) && Enabled(w1, WriteNew(p))
            && var v := Next(w1, WriteNew(p));
               && Linked(v) == Whole(Owner(p, startedAt), startedAt) && v.link == Some(|w.files|)
               && v.pcs == w.pcs && v.alive == w.alive && v.files[..|w.files|] == w.files
  {
    StepKeepsInv(w, Create(p, startedAt));
    var w1 := Next(w, Create(p, startedAt));
    StepKeepsInv(w1, WriteNew(p));
    assert w1.pcs - {p} == w.pcs;
  }

  /** A contender that collides with a linked file judges just that file: it unlinks it when it cannot be read or
      its process is dead, and leaves everything as it was when that lives. */
  lemma JudgedAlone(w: World, p: int)
    requires Inv(w) && p in w.alive && p !in w.pcs && w.link.Some?
    ensures Enabled(w, Collide(p))
    ensures var w1 := Next(w, Collide(p));
            && Open(w1) && Enabled(w1, ReadLock(p))
            && var w2 := Next(w1, ReadLock(p));
               && Open(w2) && w2.pcs == w.pcs[p := Judged(w.link.value, Linked(w))]
               && (Enabled(w2, Unlink(p)) <==> Linked(w).Unreadable? || Linked(w).owner.pid !in w.alive)
               && (Enabled(w2, Unlink(p)) ==> Next(w2, Unlink(p)) == w.(link := None))
               && Enabled(w2, Leave(p)) && Next(w2, Leave(p)) == w
  {
    var w1 := Next(w, Collide(p));
    StepKeepsInv(w, Collide(p));
    StepKeepsInv(w1, ReadLock(p));
    var w2 := Next(w1, ReadLock(p));
    assert w2.pcs - {p} == w.pcs;
  }

  /** The takeover of a live owner, when the file is still the one that was judged: it is unlinked. */
  lemma TakenOverAlone(w: World, p: int)
    requires Inv(w) && p in w.alive && p in w.pcs && w.pcs[p].Judged? && w.link.Some?
    requires !MayUnlink(w, w.pcs[p].content)
    ensures Enabled(w, Suspect(p))
    ensures var w1 := Next(w, Suspect(p));
            && Open(w1) && Enabled(w1, ReadStale(p))
            && var w2 := Next(w1, ReadStale(p));
               if Linked(w).Whole? && Linked(w).owner == w.pcs[p].content.owner
               then Open(w2) && Enabled(w2, UnlinkStale(p)) && Next(w2, UnlinkStale(p)) == w.(link := None, pcs := w.pcs - {p})
               else w2 == w.(pcs := w.pcs - {p})
  {
    var w1 := Next(w, Suspect(p));
    StepKeepsInv(w, Suspect(p));
    StepKeepsInv(w1, ReadStale(p));
    var w2 := Next(w1, ReadStale(p));
    assert w2.pcs - {p} == w1.pcs - {p} == w.pcs - {p};
  }

  /** A release unlinks the file of its own process, or one that it cannot read, and no other. */
  lemma ReleasedAlone(w: World, p: int)
    requires Inv(w) && p in w.alive && p !in w.pcs && w.link.Some?
    ensures Enabled(w, ReadRelease(p))
    ensures var w1 := Next(w, ReadRelease(p));
            if Linked(w).Whole? && Linked(w).owner.pid != p then w1 == w
            else Open(w1) && Enabled(w1, UnlinkRelease(p)) && Next(w1, UnlinkRelease(p)) == w.(link := None)
  {
    StepKeepsInv(w, ReadRelease(p));
    var w1 := Next(w, ReadRelease(p));
    assert w1.pcs - {p} == w.pcs;
  }

  /** A heartbeat gives the linked file of its own process the time, and changes nothing else. */
  lemma BeatAlone(w: World, p: int, now: int)
    requires Inv(w) && p in w.alive && p !in w.pcs && w.link.Some?
    requires Linked(w).Whole? && Linked(w).owner.pid == p
    ensures var i, c := w.link.value, Linked(w);
            var w1 := w.(pcs := w.pcs[p := Opened(i)]);
            var w2 := w.(pcs := w.pcs[p := Checked(i, c)]);
            var w3 := w.(files := w.files[i := Unreadable], pcs := w.pcs[p := Truncated(i, c)]);
            && Enabled(w, OpenHeartbeat(p)) && Next(w, OpenHeartbeat(p)) == w1
            && Open(w1) && Enabled(w1, ReadHeartbeat(p)) && Next(w1, ReadHeartbeat(p)) == w2
            && Open(w2) && Enabled(w2, Truncate(p)) && Next(w2, Truncate(p)) == w3
            && Open(w3) && Enabled(w3, WriteHeartbeat(p, now))
            && Next(w3, WriteHeartbeat(p, now)) == w.(files := w.files[i := Whole(c.owner, now)])
  {
    var i, c := w.link.value, Linked(w);
    assert w.pcs[p := Opened(i)][p := Checked(i, c)] == w.pcs[p := Checked(i, c)];
    assert w.pcs[p := Checked(i, c)][p := Truncated(i, c)] == w.pcs[p := Truncated(i, c)];
    assert w.pcs[p := Truncated(i, c)] - {p} == w.pcs;
    assert w.files[i := Unreadable][i := Whole(c.owner, now)] == w.files[i := Whole(c.owner, now)];
  }

  /** And none of another process is touched: the heartbeat ends after its read. */
  lemma OtherBeatAlone(w: World, p: int)
    requires Inv(w) && p in w.alive && p !in w.pcs && w.link.Some?
    requires Linked(w).Unreadable? || Linked(w).owner.pid != p
    ensures Enabled(w, OpenHeartbeat(p))
    ensures var w1 := Next(w, OpenHeartbeat(p));
            Open(w1) && Enabled(w1, ReadHeartbeat(p)) && Next(w1, ReadHeartbeat(p)) == w
  {
    assert Next(w, OpenHeartbeat(p)).pcs - {p} == w.pcs;
  }

  /** A crash ends what the process does and leaves all files and the path as they are. */
  lemma CrashLeavesFiles(w: World, p: int)
    requires Inv(w) && p in w.alive
    ensures var v := Next(w, Crash(p));
            v.link == w.link && v.files == w.files && p !in v.alive && p !in v.pcs && v.alive + {p} == w.alive
            && forall q <- w.pcs | q != p :: q in v.pcs && v.pcs[q] == w.pcs[q]
  {}

  /** A contender that collides with a lock, reads after its release, and unlinks what was created since. */
  lemma MissedReadUnlinks() returns (ws: seq<World>, es: seq<Event>)
    ensures Run(ws, es) && |es| > 0 && es[|es| - 1] == UnlinkMissed(2) && forall e <- es :: !e.Crash?
    ensures ws[|es| - 1].link == Some(1) && ws[|es|].link == None
    ensures ws[|es|].files[1] == Whole(Owner(1, 5), 5) && ws[|es|].alive == {1, 2}
  {
    var c, n := Whole(Owner(1, 0), 0), Some(Owner(1, 0));
    var w5 := World(None, [c], [n], map[2 := Missed], {1, 2});
    var w6 := World(Some(1), [c, Unreadable], [n, None], map[1 := Creating(1, 5), 2 := Missed], {1, 2});
    var w7 := World(Some(1), [c, Whole(Owner(1, 5), 5)], [n, Some(Owner(1, 5))], map[2 := Missed], {1, 2});
    ws, es := MissedRun(w5);
    assert w6 == Next(w5, Create(1, 5));
    ws, es := Extend(ws, es, Create(1, 5), w6);
    assert w7 == Next(w6, WriteNew(1));
    ws, es := Extend(ws, es, WriteNew(1), w7);
    assert w7.(link := None, pcs := map[]) == Next(w7, UnlinkMissed(2));
    ws, es := Extend(ws, es, UnlinkMissed(2), w7.(link := None, pcs := map[]));
  }

  lemma MissedRun(w: World) returns (ws: seq<World>, es: seq<Event>)
    requires w == World(None, [Whole(Owner(1, 0), 0)], [Some(Owner(1, 0))], map[2 := Missed], {1, 2})
    ensures Run(ws, es) && (forall x <- es :: !x.Crash?) && ws[|es|] == w
  {
    var c := Whole(Owner(1, 0), 0);
    var v := w.(link := Some(0), pcs := map[1 := Releasing(0, c), 2 := Refused]);
    var u := w.(pcs := map[2 := Refused]);
    ws, es := RefusedRun(v);
    assert u == Next(v, UnlinkRelease(1));
    ws, es := Extend(ws, es, UnlinkRelease(1), u);
    assert w == Next(u, ReadLock(2));
    ws, es := Extend(ws, es, ReadLock(2), w);
  }

  /** Process 2 collides with the lock of process 1, which reads it to release it. */
  lemma RefusedRun(w: World) returns (ws: seq<World>, es: seq<Event>)
    requires w == World(Some(0), [Whole(Owner(1, 0), 0)], [Some(Owner(1, 0))],
                        map[1 := Releasing(0, Whole(Owner(1, 0), 0)), 2 := Refused], {1, 2})
    ensures Run(ws, es) && (forall x <- es :: !x.Crash?) && ws[|es|] == w
  {
    var v := w.(pcs := map[2 := Refused]);
    ws, es := WrittenRun(w.(pcs := map[]));
    ws, es := Extend(ws, es, Collide(2), v);
    assert w == Next(v, ReadRelease(1));
    ws, es := Extend(ws, es, ReadRelease(1), w);
  }

  /** A contender that reads between the truncation and the write of a heartbeat takes a live owner's lock. */
  lemma TruncatedReadUnlinks() returns (ws: seq<World>, es: seq<Event>)
    ensures Run(ws, es) && |es| > 0 && es[|es| - 1] == WriteNew(2)
    ensures ws[|es|].alive == {1, 2} && forall e <- es :: !e.Crash?
    ensures ws[|es|].files == [Unreadable, Whole(Owner(2, 5), 5)] && ws[|es|].link == Some(1)
    ensures ws[|es|].named[0] == Some(Owner(1, 0)) && 1 in ws[|es|].pcs && ws[|es|].pcs[1].Truncated?
  {
    var c := Whole(Owner(1, 0), 0);
    var w7 := World(Some(0), [Unreadable], [Some(Owner(1, 0))], map[1 := Truncated(0, c)], {1, 2});
    var ws1, es1 := TruncatedRun(c, w7);
    var ws2, es2 := UnlinkRun(c, w7, ws1, es1);
    var w9 := w7.(link := None);
    var w10 := World(Some(1), [Unreadable, Unreadable], [Some(Owner(1, 0)), None],
                     map[1 := Truncated(0, c), 2 := Creating(1, 5)], {1, 2});
    var w11 := World(Some(1), [Unreadable, Whole(Owner(2, 5), 5)], [Some(Owner(1, 0)), Some(Owner(2, 5))],
                     map[1 := Truncated(0, c)], {1, 2});
    assert w10 == Next(w9, Create(2, 5));
    var ws3, es3 := Extend(ws2, es2, Create(2, 5), w10);
    assert w11 == Next(w10, WriteNew(2));
    ws, es := Extend(ws3, es3, WriteNew(2), w11);
  }

  /** Process 2 reads the truncated file and unlinks it. */
  lemma UnlinkRun(c: Content, w: World, ws0: seq<World>, es0: seq<Event>) returns (ws: seq<World>, es: seq<Event>)
    requires Run(ws0, es0) && (forall x <- es0 :: !x.Crash?) && ws0[|es0|] == w && c.Whole?
    requires w == World(Some(0), [Unreadable], [Some(Owner(1, 0))], map[1 := Truncated(0, c)], {1, 2})
    ensures Run(ws, es) && (forall x <- es :: !x.Crash?) && ws[|es|] == w.(link := None)
  {
    var u := w.(pcs := map[1 := Truncated(0, c), 2 := Refused]);
    var v := w.(pcs := map[1 := Truncated(0, c), 2 := Judged(0, Unreadable)]);
    RefusedReads(c, w, u, v);
    ws, es := Extend(ws0, es0, Collide(2), u);
    ws, es := Extend(ws, es, ReadLock(2), v);
    ws, es := Extend(ws, es, Unlink(2), w.(link := None));
  }

  lemma RefusedReads(c: Content, w: World, u: World, v: World)
    requires w == World(Some(0), [Unreadable], [Some(Owner(1, 0))], map[1 := Truncated(0, c)], {1, 2}) && c.Whole?
    requires u == w.(pcs := map[1 := Truncated(0, c), 2 := Refused])
    requires v == w.(pcs := map[1 := Truncated(0, c), 2 := Judged(0, Unreadable)])
    ensures Open(w) && u == Next(w, Collide(2))
    ensures Open(u) && v == Next(u, ReadLock(2))
    ensures Open(v) && w.(link := None) == Next(v, Unlink(2))
  {}

  lemma Extend(ws: seq<World>, es: seq<Event>, e: Event, v: World) returns (ws1: seq<World>, es1: seq<Event>)
    requires Run(ws, es) && (forall x <- es :: !x.Crash?) && !e.Crash?
    requires Open(ws[|es|]) && Enabled(ws[|es|], e) && v == Next(ws[|es|], e)
    ensures Run(ws1, es1) && (forall x <- es1 :: !x.Crash?) && ws1[|es1|] == v && es1 == es + [e] && ws1 == ws + [v]
  {
    ws1, es1 := ws + [v], es + [e];
  }

  lemma CreatingRun(w: World) returns (ws: seq<World>, es: seq<Event>)
    requires w == World(Some(0), [Unreadable], [None], map[1 := Creating(0, 0)], {1, 2})
    ensures Run(ws, es) && (forall x <- es :: !x.Crash?) && ws[|es|] == w
  {
    var w0 := World(None, [], [], map[], {});
    var w2 := w0.(alive := {1, 2});
    ws, es := Extend([w0], [], StartProcess(1), w0.(alive := {1}));
    assert w2.alive == {1} + {2};
    ws, es := Extend(ws, es, StartProcess(2), w2);
    ws, es := Extend(ws, es, Create(1, 0), w);
  }

  lemma WrittenNew(w: World, v: World)
    requires w == World(Some(0), [Unreadable], [None], map[1 := Creating(0, 0)], {1, 2})
    requires v == World(Some(0), [Whole(Owner(1, 0), 0)], [Some(Owner(1, 0))], map[], {1, 2})
    ensures v == Next(w, WriteNew(1))
  {}

  lemma WrittenRun(w: World) returns (ws: seq<World>, es: seq<Event>)
    requires w == World(Some(0), [Whole(Owner(1, 0), 0)], [Some(Owner(1, 0))], map[], {1, 2})
    ensures Run(ws, es) && (forall x <- es :: !x.Crash?) && ws[|es|] == w
  {
    var v := World(Some(0), [Unreadable], [None], map[1 := Creating(0, 0)], {1, 2});
    ws, es := CreatingRun(v);
    WrittenNew(v, w);
    ws, es := Extend(ws, es, WriteNew(1), w);
  }

  /** Process 1 creates the lock and truncates it in its first heartbeat. */
  lemma TruncatedRun(c: Content, w: World) returns (ws: seq<World>, es: seq<Event>)
    requires c == Whole(Owner(1, 0), 0)
    requires w == World(Some(0), [Unreadable], [Some(Owner(1, 0))], map[1 := Truncated(0, c)], {1, 2})
    ensures Run(ws, es) && (forall x <- es :: !x.Crash?) && ws[|es|] == w
  {
    var w4 := World(Some(0), [c], [Some(Owner(1, 0))], map[], {1, 2});
    var w5 := w4.(pcs := map[1 := Opened(0)]);
    var w6 := w4.(pcs := map[1 := Checked(0, c)]);
    ws, es := WrittenRun(w4);
    ws, es := Extend(ws, es, OpenHeartbeat(1), w5);
    ws, es := Extend(ws, es, ReadHeartbeat(1), w6);
    assert w == Next(w6, Truncate(1));
    ws, es := Extend(ws, es, Truncate(1), w);
  }
}
