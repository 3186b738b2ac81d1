/** The lock file operations as methods on a shared directory, each one step of `LockRuns`, and the
    bounded retry loop of `acquireControllerLockWithHealthCheck` (src/chrome/controller-lock.ts). */
module ControllerLock {
  import opened LockRuns
  import opened Wrappers

  class LockDirectory {
    var file: Option<LockFile>
    var created: nat
    var now: int
    var alive: set<Process>
    ghost var handles: map<nat, Process>
    ghost var evicted: set<nat>
    ghost var suspicions: map<Process, Suspicion>

    constructor (now: int)
      ensures Initial(Abstract())
    {
      file, created, alive, this.now := None, 0, {}, now;
      handles, evicted, suspicions := map[], {}, map[];
    }

    ghost function Abstract(): World
      reads this
    {
      World(now, file, alive, handles, evicted, suspicions, created)
    }

    /** One turn of the loop of `acquireControllerLock`; `None` means try again. */
    method AcquireTurn(p: Process) returns (r: Option<Attempt>)
      requires p in alive
      modifies this`file, this`handles, this`created
      ensures Abstract() == Next(old(Abstract()), Acquire(p))
      ensures r == Some(Acquired) <==> old(file).None?
      ensures old(file).None? ==>
                && file == Some(LockFile(old(created), Metadata(p.pid, p.host, now, now)))
                && handles == old(handles)[old(created) := p] && created == old(created) + 1
      ensures old(file).Some? ==>
                && unchanged(`handles, `created)
                && var owner := old(file).value.metadata;
                   if Process(p.host, owner.pid) in alive then file == old(file) && r == Some(Duplicate(owner))
                   else file == None && r == None
    {
      if file.None? {
        file := Some(LockFile(created, Metadata(p.pid, p.host, now, now)));
        handles := handles[created := p];
        created := created + 1;
        r := Some(Acquired);
      } else {
        var owner := file.value.metadata;
        if Process(p.host, owner.pid) in alive {
          r := Some(Duplicate(owner));
        } else {
          file := None;
          r := None;
        }
      }
    }

    /** `releaseControllerLock`, for a handle of p that is unreleased or was released before: only the
        process id is compared. */
    method ReleaseLock(serial: nat, p: Process)
      requires serial in handles ==> handles[serial] == p
      modifies this`file, this`handles
      ensures Abstract() == Next(old(Abstract()), if serial in old(handles) then Release(serial) else ReleaseAgain(p))
      ensures handles == old(handles) - {serial}
      ensures file == if old(file).Some? && old(file).value.metadata.pid != p.pid then old(file) else None
    {
      handles := handles - {serial};
      if file.Some? && file.value.metadata.pid != p.pid {
        return;
      }
      file := None;
    }

    /** `unlinkStaleLock` of an owner that p has judged: compare, then unlink. */
    method UnlinkStaleLock(p: Process, pid: int, startedAt: int) returns (unlinked: bool)
      requires p in suspicions && suspicions[p].owner.pid == pid && suspicions[p].owner.startedAt == startedAt
      modifies this`file, this`evicted, this`suspicions
      ensures Abstract() == Next(old(Abstract()), TakeOver(p))
      ensures unlinked <==>
                old(file).Some? ==> old(file).value.metadata.pid == pid && old(file).value.metadata.startedAt == startedAt
      ensures file == if unlinked then None else old(file)
      ensures suspicions == old(suspicions) - {p}
      ensures evicted == old(evicted) + (if unlinked && old(file).Some? then {old(file).value.serial} else {})
    {
      suspicions := suspicions - {p};
      if file.None? {
        return true;
      }
      if file.value.metadata.pid != pid || file.value.metadata.startedAt != startedAt {
        return false;
      }
      evicted := evicted + {file.value.serial};
      file := None;
      return true;
    }

    method RecordHeartbeat(p: Process)
      modifies this`file
      ensures Abstract() == Next(old(Abstract()), Heartbeat(p))
      ensures file == if old(file).None? || old(file).value.metadata.pid != p.pid then old(file)
                      else Some(LockFile(old(file).value.serial, old(file).value.metadata.(heartbeatAt := now)))
    {
      if file.None? || file.value.metadata.pid != p.pid {
        return;
      }
      file := Some(file.value.(metadata := file.value.metadata.(heartbeatAt := now)));
    }
  }

  datatype Attempt = Acquired | Duplicate(owner: Metadata) | IoError

  /** What the loop meets from outside: the result of its i-th call of `acquireControllerLock`, the
      clock then, the answers to its probes, and whether `unlinkStaleLock` succeeded. */
  datatype Outside = Outside(
    attempt: nat -> Attempt,
    clock: nat -> int,
    answer: (nat, nat) -> bool,
    unlinks: nat -> bool)

  datatype Options = Options(disabled: bool, host: string, settings: Settings, maxTakeovers: nat)

  predicate OtherHost(o: Options, owner: Metadata) { |owner.host| > 0 && owner.host != o.host }

  predicate WithinGrace(o: Options, owner: Metadata, now: int) { now - owner.heartbeatAt < o.settings.graceMs }

  /** A probe of the owner that call i met is answered; the first probe is always sent. */
  ghost predicate Healthy(o: Options, out: Outside, i: nat) {
    exists k: nat :: (k == 0 || k < o.settings.probeAttempts) && out.answer(i, k)
  }

  /** The duplicate error of call i does not end the loop by itself: an owner of this host, or of none, with
      a heartbeat that is graceMs old, and no probe is answered. */
  ghost predicate Evictable(o: Options, out: Outside, i: nat) {
    && !o.disabled && out.attempt(i).Duplicate?
    && var owner := out.attempt(i).owner;
       && (owner.host == "" || owner.host == o.host)
       && out.clock(i) >= owner.heartbeatAt + o.settings.graceMs
       && forall k: nat | k == 0 || k < o.settings.probeAttempts :: !out.answer(i, k)
  }

  /** The calls before i after which the owner's file was taken over. */
  function Takeovers(out: Outside, i: nat): set<nat> { set n: nat | n < i && out.unlinks(n) }

  lemma OneMoreTakeover(out: Outside, i: nat)
    ensures |Takeovers(out, i + 1)| == |Takeovers(out, i)| + (if out.unlinks(i) then 1 else 0)
  {
    assert Takeovers(out, i + 1) == Takeovers(out, i) + (if out.unlinks(i) then {i} else {});
  }

  method ProbeOwnerHealthy(o: Options, out: Outside, i: nat) returns (healthy: bool)
    ensures healthy <==> Healthy(o, out, i)
  {
    for k := 0 to Probes(o.settings)
      invariant forall j: nat | j < k :: !out.answer(i, j)
    {
      if out.answer(i, k) {
        return true;
      }
    }
    return false;
  }

  /** The checks on the error of call i, in their order. */
  method Judge(o: Options, out: Outside, i: nat) returns (evictable: bool)
    ensures evictable <==> Evictable(o, out, i)
  {
    var r := out.attempt(i);
    if !r.Duplicate? || o.disabled {
      return false;
    }
    if OtherHost(o, r.owner) {
      return false;
    }
    if WithinGrace(o, r.owner, out.clock(i)) {
      return false;
    }
    var healthy := ProbeOwnerHealthy(o, out, i);
    return !healthy;
  }

  /** Turn i neither returns nor throws. */
  ghost predicate GoesOn(o: Options, out: Outside, i: nat) {
    Evictable(o, out, i) && |Takeovers(out, i)| < o.maxTakeovers
  }

  function Ceiling(o: Options): nat { o.maxTakeovers + 8 }

  /** The call returns what its deciding attempt k met. All attempts before it met an owner that is
      evictable, and there was a takeover to spare; unless k is the attempt behind the last turn, it acquired,
      failed, or met an owner that is not evictable, or an empty budget. So each takeover follows a call
      whose probes all went unanswered. */
  method AcquireWithHealthCheck(o: Options, out: Outside) returns (r: Attempt, takeovers: nat, k: nat)
    ensures r == out.attempt(k)
    ensures forall i: nat | i < k :: GoesOn(o, out, i)
    ensures k <= o.maxTakeovers + 8
    ensures k < o.maxTakeovers + 8 ==> !GoesOn(o, out, k)
    ensures takeovers == |Takeovers(out, k)| <= o.maxTakeovers
  {
    takeovers := 0;
    for i := 0 to Ceiling(o)
      invariant takeovers == |Takeovers(out, i)| <= o.maxTakeovers
      invariant forall n: nat | n < i :: GoesOn(o, out, n)
    {
      var evictable := Judge(o, out, i);
      if !evictable || takeovers >= o.maxTakeovers {
        return out.attempt(i), takeovers, i;
      }
      OneMoreTakeover(out, i);
      if out.unlinks(i) {
        takeovers := takeovers + 1;
      }
    }
    k := Ceiling(o);
    r := out.attempt(k);
  }

  /** No takeover of an owner that would have answered. */
  lemma TakenOverInVain(o: Options, out: Outside, k: nat, i: nat)
    requires forall n: nat | n < k :: GoesOn(o, out, n)
    requires i in Takeovers(out, k)
    ensures !Healthy(o, out, i)
  {
    assert GoesOn(o, out, i);
  }
}
