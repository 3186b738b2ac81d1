/** Any number of processes sharing one key log, step by step: each step is the code of
    `ApiKeyStore` between two awaits, or something that happens to the file or to a process, at any
    time and without restriction. */
module KeyRuns {
  import opened Utf8
  import opened KeyLog
  import opened KeySync
  import opened Wrappers

  /** Where a process is. `Entered` to `Writing` are inside the cross-process lock. A writer appends to
      the inode that it opened, whatever the path names by then. */
  datatype Pc =
    | Idle
    | Reading(upTo: nat)
    | Entered(op: Op)
    | EnteredReading(op: Op, upTo: nat)
    | Synced(op: Op)
    | Opening(record: ApiKey, line: seq<byte>)
    | Writing(record: ApiKey, rest: seq<byte>, target: nat)
  {
    predicate Locked() { !Idle? && !Reading? }

    /** After the stat inside the lock. */
    predicate Past() { EnteredReading? || Synced? || Opening? || Writing? }
  }

  /** `touched` and `tainted` are history. `touched`: since the stat inside the lock the file was changed
      from outside, or the record to append does not agree with what it closes. `tainted`: since the
      store was last emptied, a touched section has ended, a read has met ill-formed text that decoding
      lengthens, or the bytes below the cursor have been replaced in the same inode. */
  datatype Process = Process(store: Store, pc: Pc, touched: bool, tainted: bool)

  datatype World = World(file: File, lock: Option<nat>, processes: seq<Process>, inodes: set<nat>)

  datatype Event =
    | ReadStat(i: nat)                      // doSyncFromDisk outside the lock, up to the read
    | ReadBytes(i: nat)
    | Lock(i: nat, op: Op)
    | LockedStat(i: nat)                    // syncInsideLock
    | LockedRead(i: nat)
    | Begin(i: nat)                         // decide what to append, look at the last byte
    | Open(i: nat, ino: nat)                // open for appending, which creates a missing file
    | Emit(i: nat, k: nat)                  // k more bytes of the line reach the opened inode
    | Finish(i: nat)                        // all written: move the cursor, set the index, unlock
    | Crash(i: nat)                         // the process dies and is started again
    | CreateFile(ino: nat)                  // withLock and open create a missing file
    | ReplaceFile(ino: nat, bytes: seq<byte>)
    | DeleteFile
    | RewriteFile(bytes: seq<byte>)         // truncated, cut, extended or changed in place

  function EventProcess(e: Event): Option<nat> {
    match e
    case ReadStat(i) => Some(i)
    case ReadBytes(i) => Some(i)
    case Lock(i, _) => Some(i)
    case LockedStat(i) => Some(i)
    case LockedRead(i) => Some(i)
    case Begin(i) => Some(i)
    case Open(i, _) => Some(i)
    case Emit(i, _) => Some(i)
    case Finish(i) => Some(i)
    case Crash(i) => Some(i)
    case _ => None
  }

  function BytesOf(f: File): seq<byte> { if f.File? then f.bytes else [] }

  /** The writer's bytes go to the inode that is the log. */
  predicate WritesLog(w: World, p: Process) { p.pc.Writing? && w.file.File? && p.pc.target == w.file.ino }

  predicate Enabled(c: Codec, w: World, e: Event) {
    && (EventProcess(e).Some? ==> EventProcess(e).value < |w.processes|)
    && match e
       case ReadStat(i) => w.processes[i].pc.Idle?
       case ReadBytes(i) => w.processes[i].pc.Reading?
       case Lock(i, op) => w.processes[i].pc.Idle? && w.lock == None
       case LockedStat(i) => w.processes[i].pc.Entered?
       case LockedRead(i) => w.processes[i].pc.EnteredReading?
       case Begin(i) => w.processes[i].pc.Synced?
       case Open(i, ino) => w.processes[i].pc.Opening? && (w.file.Missing? ==> ino != 0 && ino !in w.inodes)
       case Emit(i, k) => w.processes[i].pc.Writing? && k <= |w.processes[i].pc.rest|
       case Finish(i) => w.processes[i].pc.Writing? && w.processes[i].pc.rest == []
       case Crash(i) => true
       case CreateFile(ino) => w.file.Missing? && ino != 0 && ino !in w.inodes
       case ReplaceFile(ino, bytes) => ino != 0 && ino !in w.inodes
       case DeleteFile => true
       case RewriteFile(bytes) => w.file.File?
  }

  function With(w: World, i: nat, p: Process): World
    requires i < |w.processes|
  {
    w.(processes := w.processes[i := p])
  }

  predicate Emptied(s: Store) { s.index == map[] && s.size == 0 }

  /** The process with the fields that a sync left; emptied fields are right again. */
  function WithStore(p: Process, s: Store, pc: Pc): Process {
    p.(store := s, pc := pc, tainted := p.tainted && !Emptied(s))
  }

  /** The complete lines of a read change their length when they are decoded. */
  predicate Misread(s: Store, upTo: nat, f: File) {
    && f.File? && f.ino == s.ino && s.size < upTo <= |f.bytes|
    && HasShortSubpart(Complete(f.bytes[s.size..upTo]))
  }

  function AfterRead(c: Codec, p: Process, upTo: nat, f: File, pc: Pc): Process {
    WithStore(p.(tainted := p.tainted || Misread(p.store, upTo, f)), ReadUpTo(c, p.store, upTo, f), pc)
  }

  /** When the file changes, the inode of the store reaches its cursor with other bytes below it: it was
      cut below the cursor and has grown again, or was rewritten. */
  predicate Overtaken(s: Store, f: File, f': File) {
    && f'.File? && s.ino == f'.ino && s.size <= |f'.bytes|
    && !(f.File? && f.ino == f'.ino && s.size <= |f.bytes| && f.bytes[..s.size] == f'.bytes[..s.size])
  }

  function Overtake(p: Process, f: File, f': File): Process {
    p.(tainted := p.tainted || Overtaken(p.store, f, f'))
  }

  /** The log becomes this file. */
  function Change(w: World, f: File): World {
    w.(file := f, processes := seq(|w.processes|, i requires 0 <= i < |w.processes| => Overtake(w.processes[i], w.file, f)))
  }

  function Touch1(p: Process): Process { if p.pc.Past() then p.(touched := true) else p }

  /** The file changes under the processes. */
  function Outside(w: World, f: File): World {
    Change(w.(processes := seq(|w.processes|, i requires 0 <= i < |w.processes| => Touch1(w.processes[i]))), f)
  }

  /** The end of `appendRecord`: without a file the cursor stays, and the index is set all the same. */
  function Appended(s: Store, f: File, r: ApiKey): Store {
    if f.File? then AfterAppend(s, f, r) else s.(index := s.index[r.keyId := r])
  }

  function Next(c: Codec, w: World, e: Event): World
    requires Enabled(c, w, e)
  {
    match e
    case ReadStat(i) =>
      var (s, upTo) := Stat(w.processes[i].store, w.file);
      With(w, i, WithStore(w.processes[i], s, if upTo.None? then Idle else Reading(upTo.value)))
    case ReadBytes(i) =>
      var p := w.processes[i];
      With(w, i, AfterRead(c, p, p.pc.upTo, w.file, Idle))
    case Lock(i, op) =>
      With(w, i, w.processes[i].(pc := Entered(op))).(lock := Some(i))
    case LockedStat(i) =>
      var p := w.processes[i];
      var (s, upTo) := Stat(p.store, w.file);
      With(w, i, WithStore(p, s, if upTo.None? then Synced(p.pc.op) else EnteredReading(p.pc.op, upTo.value))
                   .(touched := false))
    case LockedRead(i) =>
      var p := w.processes[i];
      With(w, i, AfterRead(c, p, p.pc.upTo, w.file, Synced(p.pc.op)))
    case Begin(i) =>
      var p := w.processes[i];
      (match Decide(p.pc.op, p.store.index)
       case None => With(w, i, p.(pc := Idle, touched := false)).(lock := None)
       case Some(r) => With(w, i, Decided(c, p, BytesOf(w.file), r)))
    case Open(i, ino) =>
      var p := w.processes[i];
      if w.file.File? then With(w, i, p.(pc := Writing(p.pc.record, p.pc.line, w.file.ino)))
      else
        With(w, i, p.(pc := Writing(p.pc.record, p.pc.line, ino))).(file := File(ino, []), inodes := w.inodes + {ino})
    case Emit(i, k) =>
      var p := w.processes[i];
      var v := With(w, i, p.(pc := p.pc.(rest := p.pc.rest[k..])));
      if WritesLog(w, p) then Change(v, File(w.file.ino, w.file.bytes + p.pc.rest[..k])) else v
    case Finish(i) =>
      var p := w.processes[i];
      With(w, i, Process(Appended(p.store, w.file, p.pc.record), Idle, false, p.tainted || p.touched)).(lock := None)
    case Crash(i) =>
      With(w, i, Process(EMPTY, Idle, false, false)).(lock := if w.processes[i].pc.Locked() then None else w.lock)
    case CreateFile(ino) => Outside(w, File(ino, [])).(inodes := w.inodes + {ino})
    case ReplaceFile(ino, bytes) => Outside(w, File(ino, bytes)).(inodes := w.inodes + {ino})
    case DeleteFile => Outside(w, Missing)
    case RewriteFile(bytes) => Outside(w, File(w.file.ino, bytes))
  }

  /** The writer has decided on its record and looked at the last byte of the file. */
  function Decided(c: Codec, p: Process, bytes: seq<byte>, r: ApiKey): Process {
    p.(pc := Opening(r, AppendedLine(c, bytes, r)),
       touched := p.touched || !AppendAgrees(c, p.store.index, Tail(bytes), r))
  }

  /** What happens from outside: the file alone changes, and a crashed process starts again with empty fields and
      gives its lock up. */
  lemma OutsideSteps(c: Codec, w: World, e: Event)
    requires Enabled(c, w, e) && (e.Crash? || EventProcess(e).None?)
    ensures var v := Next(c, w, e);
            && |v.processes| == |w.processes|
            && (forall i | 0 <= i < |w.processes| && e != Crash(i) ::
                  v.processes[i].store == w.processes[i].store && v.processes[i].pc == w.processes[i].pc)
            && (e.Crash? ==>
                  && v.file == w.file && v.processes[e.i].store == EMPTY && v.processes[e.i].pc == Idle
                  && v.lock == if w.processes[e.i].pc.Locked() then None else w.lock)
            && (e.CreateFile? ==> v.file == File(e.ino, []))
            && (e.ReplaceFile? ==> v.file == File(e.ino, e.bytes))
            && (e.DeleteFile? ==> v.file == Missing)
            && (e.RewriteFile? ==> v.file == w.file.(bytes := e.bytes))
  {}

  /** And it may happen at any time, in the middle of a section too; only inodes are new. */
  lemma OutsideAnytime(c: Codec, w: World, i: nat, ino: nat, bytes: seq<byte>)
    ensures Enabled(c, w, DeleteFile) && (i < |w.processes| ==> Enabled(c, w, Crash(i)))
    ensures w.file.File? ==> Enabled(c, w, RewriteFile(bytes))
    ensures ino != 0 && ino !in w.inodes ==>
              Enabled(c, w, ReplaceFile(ino, bytes)) && (w.file.Missing? ==> Enabled(c, w, CreateFile(ino)))
  {}

  // ---- The invariant -------------------------------------------------------------------------------

  /** A store is up to date with a prefix of this inode: its index is the plain replay of the bytes
      before its cursor, and its cursor is at a boundary. */
  ghost predicate UpTo(c: Codec, s: Store, bytes: seq<byte>) {
    Boundary(bytes, s.size) && s.index == Replay(c, bytes[..s.size])
  }

  /** What holds of the store of an untainted process, whatever the others do. Nothing is claimed of a
      store whose inode is no longer the log, or that the log does not reach: its next stat resets it. */
  ghost predicate StoreInv(c: Codec, w: World, s: Store) {
    && (s.ino == 0 ==> s == EMPTY)
    && (w.file.File? && s.ino == w.file.ino && s.size <= |w.file.bytes| ==> UpTo(c, s, w.file.bytes))
  }

  /** The store has everything that is on disk. */
  ghost predicate SyncedWith(c: Codec, w: World, s: Store) {
    if w.file.File? then s.ino == w.file.ino && s.size == LastBoundary(w.file.bytes) else s == EMPTY
  }

  /** The log with what is still to be written replays to what the writer will keep. */
  ghost predicate WillAgree(c: Codec, w: World, s: Store, r: ApiKey, rest: seq<byte>) {
    var bytes := BytesOf(w.file);
    && Terminated(bytes + rest)
    && Replay(c, bytes + rest) == s.index[r.keyId := r]
    && (w.file.File? && s.ino == w.file.ino ==> s.size <= |bytes|)
  }

  predicate Marked(p: Process) { p.touched || p.tainted }

  ghost predicate ProcessInv(c: Codec, w: World, i: nat)
    requires i < |w.processes|
  {
    var p := w.processes[i];
    && (p.store.ino == 0 || p.store.ino in w.inodes)
    && (!p.tainted ==> StoreInv(c, w, p.store))
    && (p.tainted ==> !Emptied(p.store))
    && (p.pc.Locked() <==> w.lock == Some(i))
    && PcInv(c, w, p)
  }

  ghost predicate PcInv(c: Codec, w: World, p: Process) {
    match p.pc
    case Idle => true
    case Reading(upTo) => p.store.ino != 0 && p.store.size < upTo
    case Entered(_) => true
    case EnteredReading(_, upTo) =>
      && p.store.ino != 0 && p.store.size < upTo
      && (!p.touched ==> w.file.File? && p.store.ino == w.file.ino && upTo == |w.file.bytes|)
    case Synced(_) => !Marked(p) ==> SyncedWith(c, w, p.store)
    case Opening(r, line) => !Marked(p) ==> WillAgree(c, w, p.store, r, line)
    case Writing(r, rest, target) => !Marked(p) ==> WritesLog(w, p) && WillAgree(c, w, p.store, r, rest)
  }

  predicate FileInv(w: World) { w.file.File? ==> w.file.ino != 0 && w.file.ino in w.inodes }

  ghost predicate Inv(c: Codec, w: World) {
    && FileInv(w)
    && (w.lock.Some? ==> w.lock.value < |w.processes|)
    && forall i | 0 <= i < |w.processes| :: ProcessInv(c, w, i)
  }

  // ---- Every step keeps the invariant ------------------------------------------------------------------

  /** The complete lines between a boundary and a size end at the last boundary below that size. */
  lemma TakenEnds(bytes: seq<byte>, m: nat, upTo: nat)
    requires Boundary(bytes, m) && m <= upTo <= |bytes|
    ensures var taken := Complete(bytes[m..upTo]);
            && bytes[..m + |taken|] == bytes[..m] + taken
            && Boundary(bytes, m + |taken|)
            && LastBoundary(bytes[..upTo]) == m + |taken|
  {
    var chunk := bytes[m..upTo];
    var n := m + |Complete(chunk)|;
    assert bytes[..n] == bytes[..m] + Complete(chunk);
    assert bytes[..upTo][..n] == bytes[..n];
    assert bytes[..upTo][n..] == Tail(chunk);
    LastBoundaryIs(bytes[..upTo], n);
  }

  /** A sync of an inode that its store tracks, up to a size the inode still has. */
  lemma ReadKeepsUpTo(c: Codec, s: Store, upTo: nat, f: File)
    requires Lawful(c) && f.File? && s.size < upTo <= |f.bytes| && UpTo(c, s, f.bytes)
    requires !HasShortSubpart(Complete(f.bytes[s.size..upTo]))
    ensures var s' := ReadUpTo(c, s, upTo, f);
            && s'.ino == s.ino && UpTo(c, s', f.bytes)
            && s'.size == LastBoundary(f.bytes[..upTo])
  {
    ReadTakes(c, s, upTo, f);
    UpToTaken(c, s, ReadUpTo(c, s, upTo, f), f.bytes, upTo);
  }

  lemma UpToTaken(c: Codec, s: Store, s': Store, bytes: seq<byte>, upTo: nat)
    requires UpTo(c, s, bytes) && s.size <= upTo <= |bytes|
    requires s'.size == s.size + |Complete(bytes[s.size..upTo])|
    requires s'.index == Replay(c, bytes[..s.size] + Complete(bytes[s.size..upTo]))
    ensures UpTo(c, s', bytes) && s'.size == LastBoundary(bytes[..upTo])
  {
    TakenEnds(bytes, s.size, upTo);
  }

  lemma ReadTakes(c: Codec, s: Store, upTo: nat, f: File)
    requires Lawful(c) && f.File? && s.size < upTo <= |f.bytes| && UpTo(c, s, f.bytes)
    requires !HasShortSubpart(Complete(f.bytes[s.size..upTo]))
    ensures var s', taken := ReadUpTo(c, s, upTo, f), Complete(f.bytes[s.size..upTo]);
            && s'.ino == s.ino && s'.size == s.size + |taken|
            && s'.index == Replay(c, f.bytes[..s.size] + taken)
  {
    ReadTracks(c, s, f.bytes[..s.size], upTo, f);
  }

  /** The stat leaves an inode and a size to read up to, whatever the store was. */
  lemma StatBounds(w: World, s: Store)
    requires FileInv(w)
    ensures var (s', upTo) := Stat(s, w.file);
            && (s'.ino == 0 || s'.ino in w.inodes)
            && (upTo.Some? ==> w.file.File? && s'.ino == w.file.ino != 0 && s'.size < upTo.value == |w.file.bytes|)
  {}

  lemma EmptyUpTo(c: Codec, s: Store, bytes: seq<byte>)
    requires Lawful(c) && Emptied(s)
    ensures UpTo(c, s, bytes)
  {
    EmptyReplay(c);
    assert bytes[..0] == [];
  }

  lemma StatKeepsStore(c: Codec, w: World, s: Store)
    requires Lawful(c) && FileInv(w) && StoreInv(c, w, s)
    ensures var (s', upTo) := Stat(s, w.file);
            && StoreInv(c, w, s')
            && (w.file.File? ==> s'.ino == w.file.ino && UpTo(c, s', w.file.bytes))
            && (upTo == None ==> if w.file.File? then s'.size == |w.file.bytes| else s' == EMPTY)
  {
    if w.file.File? {
      EmptyUpTo(c, EMPTY.(ino := w.file.ino), w.file.bytes);
    }
  }

  lemma StatSettles(c: Codec, w: World, p: Process, pc: Pc)
    requires Lawful(c) && FileInv(w) && (!p.tainted ==> StoreInv(c, w, p.store))
    ensures var s := Stat(p.store, w.file).0; !WithStore(p, s, pc).tainted ==> StoreInv(c, w, s)
  {
    var s := Stat(p.store, w.file).0;
    if !p.tainted {
      StatKeepsStore(c, w, p.store);
    } else if Emptied(s) && w.file.File? {
      EmptyUpTo(c, s, w.file.bytes);
    }
  }

  lemma ReadSettles(c: Codec, w: World, p: Process, upTo: nat, pc: Pc)
    requires Lawful(c) && FileInv(w) && (!p.tainted ==> StoreInv(c, w, p.store))
    requires p.store.ino != 0 && p.store.ino in w.inodes && p.store.size < upTo
    ensures var p' := AfterRead(c, p, upTo, w.file, pc);
            && (p'.store.ino == 0 || p'.store.ino in w.inodes)
            && (!p'.tainted ==> StoreInv(c, w, p'.store))
            && (p'.tainted ==> !Emptied(p'.store))
  {
    var s := ReadUpTo(c, p.store, upTo, w.file);
    if w.file.File? && Emptied(s) {
      EmptyUpTo(c, s, w.file.bytes);
    } else if w.file.File? && w.file.ino == p.store.ino && upTo <= |w.file.bytes| && !p.tainted
              && !Misread(p.store, upTo, w.file) {
      ReadKeepsUpTo(c, p.store, upTo, w.file);
    }
  }

  /** A step of process i that leaves the file and the inodes alone keeps what holds of the others. */
  lemma LocalStep(c: Codec, w: World, i: nat, p: Process, lock: Option<nat>)
    requires Inv(c, w) && i < |w.processes|
    requires var w' := With(w, i, p).(lock := lock);
             && ProcessInv(c, w', i)
             && (lock == w.lock || (lock == None && w.lock == Some(i)) || (lock == Some(i) && w.lock == None))
    ensures Inv(c, With(w, i, p).(lock := lock))
  {
    var w' := With(w, i, p).(lock := lock);
    forall j | 0 <= j < |w'.processes|
      ensures ProcessInv(c, w', j)
    {
      if j != i {
        assert ProcessInv(c, w, j);
        assert w'.processes[j] == w.processes[j];
      }
    }
  }

  lemma ReaderStep(c: Codec, w: World, e: Event)
    requires Lawful(c) && Inv(c, w) && Enabled(c, w, e) && (e.ReadStat? || e.ReadBytes?)
    ensures Inv(c, Next(c, w, e))
  {
    var i, w' := e.i, Next(c, w, e);
    assert ProcessInv(c, w, i);
    var p := w.processes[i];
    if e.ReadStat? {
      StatBounds(w, p.store);
      StatSettles(c, w, p, w'.processes[i].pc);
    } else {
      ReadSettles(c, w, p, p.pc.upTo, Idle);
    }
    LocalStep(c, w, i, w'.processes[i], w.lock);
  }

  lemma LockStep(c: Codec, w: World, i: nat, op: Op)
    requires Lawful(c) && Inv(c, w) && Enabled(c, w, Lock(i, op))
    ensures Inv(c, Next(c, w, Lock(i, op)))
  {
    assert ProcessInv(c, w, i);
    LocalStep(c, w, i, w.processes[i].(pc := Entered(op)), Some(i));
  }

  /** The stat inside the lock is fresh, so a writer whose stat finds nothing new is at the end. */
  lemma LockedStatStep(c: Codec, w: World, i: nat)
    requires Lawful(c) && Inv(c, w) && Enabled(c, w, LockedStat(i))
    ensures Inv(c, Next(c, w, LockedStat(i)))
  {
    assert ProcessInv(c, w, i);
    var p, p' := w.processes[i], Next(c, w, LockedStat(i)).processes[i];
    StatBounds(w, p.store);
    StatSettles(c, w, p, p'.pc);
    var (s, upTo) := Stat(p.store, w.file);
    if upTo == None && w.file.File? && !p'.tainted {
      AtTheEnd(c, s, w.file.bytes);
    }
    LocalStep(c, w, i, p', w.lock);
  }

  lemma AtTheEnd(c: Codec, s: Store, bytes: seq<byte>)
    requires s.size == |bytes| && UpTo(c, s, bytes)
    ensures LastBoundary(bytes) == s.size
  {
    assert bytes[..s.size] == bytes;
    LastBoundaryIs(bytes, s.size);
  }

  lemma LockedReadStep(c: Codec, w: World, i: nat)
    requires Lawful(c) && Inv(c, w) && Enabled(c, w, LockedRead(i))
    ensures Inv(c, Next(c, w, LockedRead(i)))
  {
    assert ProcessInv(c, w, i);
    var p, p' := w.processes[i], Next(c, w, LockedRead(i)).processes[i];
    ReadSettles(c, w, p, p.pc.upTo, p'.pc);
    if !p.touched && Emptied(p'.store) {
      ReadEmptiesNothing(c, p.store, p.pc.upTo, w.file);
    }
    if !p'.tainted && !p.touched {
      ReadToTheEnd(c, w, p.store, p.pc.upTo);
    }
    LocalStep(c, w, i, p', w.lock);
  }

  /** A read that finds the file long enough leaves no empty fields but those that it found. */
  lemma ReadEmptiesNothing(c: Codec, s: Store, upTo: nat, f: File)
    requires f.File? && s.size < upTo <= |f.bytes| && Emptied(ReadUpTo(c, s, upTo, f))
    ensures Emptied(s) && !Misread(s, upTo, f)
  {
    CompleteDecoded(f.bytes[s.size..upTo]);
  }

  lemma ReadToTheEnd(c: Codec, w: World, s: Store, upTo: nat)
    requires Lawful(c) && StoreInv(c, w, s) && !Misread(s, upTo, w.file)
    requires w.file.File? && s.ino == w.file.ino && s.size < upTo == |w.file.bytes|
    ensures SyncedWith(c, w, ReadUpTo(c, s, upTo, w.file))
  {
    ReadKeepsUpTo(c, s, upTo, w.file);
    assert w.file.bytes[..upTo] == w.file.bytes;
  }

  lemma BeginStep(c: Codec, w: World, i: nat)
    requires Lawful(c) && Inv(c, w) && Enabled(c, w, Begin(i))
    ensures Inv(c, Next(c, w, Begin(i)))
  {
    assert ProcessInv(c, w, i);
    var p, w' := w.processes[i], Next(c, w, Begin(i));
    var d := Decide(p.pc.op, p.store.index);
    if d.Some? && !Marked(w'.processes[i]) {
      BeginAgrees(c, w, p.store, d.value);
    }
    LocalStep(c, w, i, w'.processes[i], w'.lock);
  }

  lemma BeginAgrees(c: Codec, w: World, s: Store, r: ApiKey)
    requires Lawful(c) && StoreInv(c, w, s) && SyncedWith(c, w, s)
    requires AppendAgrees(c, s.index, Tail(BytesOf(w.file)), r)
    ensures WillAgree(c, w, s, r, AppendedLine(c, BytesOf(w.file), r))
  {
    var bytes := BytesOf(w.file);
    var bytes' := bytes + AppendedLine(c, bytes, r);
    SyncedTracks(c, w, s);
    AppendAgreesIff(c, s, bytes, r);
    AppendedReplay(c, bytes, r);
  }

  lemma SyncedTracks(c: Codec, w: World, s: Store)
    requires Lawful(c) && StoreInv(c, w, s) && SyncedWith(c, w, s)
    ensures Tracks(c, s, Complete(BytesOf(w.file)))
  {
    EmptyReplay(c);
    assert Complete([]) == [];
  }

  lemma OpenStep(c: Codec, w: World, i: nat, ino: nat)
    requires Lawful(c) && Inv(c, w) && Enabled(c, w, Open(i, ino))
    ensures Inv(c, Next(c, w, Open(i, ino)))
  {
    assert ProcessInv(c, w, i);
    var w' := Next(c, w, Open(i, ino));
    if w.file.File? {
      LocalStep(c, w, i, w'.processes[i], w.lock);
    } else {
      forall j | 0 <= j < |w'.processes|
        ensures ProcessInv(c, w', j)
      {
        assert ProcessInv(c, w, j);
      }
    }
  }

  lemma FinishStep(c: Codec, w: World, i: nat)
    requires Lawful(c) && Inv(c, w) && Enabled(c, w, Finish(i))
    ensures Inv(c, Next(c, w, Finish(i)))
  {
    assert ProcessInv(c, w, i);
    var p, w' := w.processes[i], Next(c, w, Finish(i));
    assert BytesOf(w.file) + [] == BytesOf(w.file);
    assert BytesOf(w.file)[..|BytesOf(w.file)|] == BytesOf(w.file);
    assert p.pc.record.keyId in w'.processes[i].store.index;
    LocalStep(c, w, i, w'.processes[i], w'.lock);
  }

  lemma CrashStep(c: Codec, w: World, i: nat)
    requires Lawful(c) && Inv(c, w) && Enabled(c, w, Crash(i))
    ensures Inv(c, Next(c, w, Crash(i)))
  {
    assert ProcessInv(c, w, i);
    var w' := Next(c, w, Crash(i));
    LocalStep(c, w, i, w'.processes[i], w'.lock);
  }

  /** A store that the change of the file has not overtaken is as right as before. */
  lemma ChangeKeepsStore(c: Codec, w: World, w': World, s: Store)
    requires StoreInv(c, w, s) && !Overtaken(s, w.file, w'.file)
    ensures StoreInv(c, w', s)
  {
    if w'.file.File? && s.ino == w'.file.ino && s.size <= |w'.file.bytes| {
      UpToSame(c, s, w.file.bytes, w'.file.bytes);
    }
  }

  lemma UpToSame(c: Codec, s: Store, bytes: seq<byte>, bytes': seq<byte>)
    requires s.size <= |bytes| && s.size <= |bytes'| && bytes[..s.size] == bytes'[..s.size] && UpTo(c, s, bytes)
    ensures UpTo(c, s, bytes')
  {}

  /** The file is the same inode, a new one, or gone. */
  predicate Follows(w: World, f: File) {
    f.File? ==> f.ino != 0 && ((w.file.File? && f.ino == w.file.ino) || f.ino !in w.inodes)
  }

  lemma OvertakenNotEmptied(w: World, s: Store, f: File)
    requires Follows(w, f) && (s.ino == 0 || s.ino in w.inodes) && Overtaken(s, w.file, f)
    ensures !Emptied(s)
  {
    assert w.file.File? ==> w.file.bytes[..0] == f.bytes[..0];
  }

  lemma EmitStep(c: Codec, w: World, i: nat, k: nat)
    requires Lawful(c) && Inv(c, w) && Enabled(c, w, Emit(i, k))
    ensures Inv(c, Next(c, w, Emit(i, k)))
  {
    assert ProcessInv(c, w, i);
    var w' := Next(c, w, Emit(i, k));
    if !WritesLog(w, w.processes[i]) {
      LocalStep(c, w, i, w'.processes[i], w.lock);
    } else {
      forall j | 0 <= j < |w'.processes|
        ensures ProcessInv(c, w', j)
      {
        EmitKeepsProcess(c, w, i, k, j);
      }
    }
  }

  lemma EmitKeepsProcess(c: Codec, w: World, i: nat, k: nat, j: nat)
    requires Lawful(c) && Inv(c, w) && Enabled(c, w, Emit(i, k)) && j < |w.processes| && WritesLog(w, w.processes[i])
    ensures ProcessInv(c, Next(c, w, Emit(i, k)), j)
  {
    assert ProcessInv(c, w, i) && ProcessInv(c, w, j);
    var w', p := Next(c, w, Emit(i, k)), w.processes[j];
    if Overtaken(p.store, w.file, w'.file) {
      OvertakenNotEmptied(w, p.store, w'.file);
    } else if !p.tainted {
      ChangeKeepsStore(c, w, w', p.store);
    }
    if j == i {
      SplitRest(w.file.bytes, p.pc.rest, k);
    }
  }

  lemma SplitRest(bytes: seq<byte>, rest: seq<byte>, k: nat)
    requires k <= |rest|
    ensures (bytes + rest[..k]) + rest[k..] == bytes + rest
    ensures bytes + rest[..k] <= bytes + rest
  {}

  lemma FileStep(c: Codec, w: World, e: Event)
    requires Lawful(c) && Inv(c, w) && Enabled(c, w, e) && EventProcess(e) == None
    ensures Inv(c, Next(c, w, e))
  {
    var w' := Next(c, w, e);
    forall j | 0 <= j < |w'.processes|
      ensures ProcessInv(c, w', j)
    {
      OutsideKeepsProcess(c, w, e, j);
    }
  }

  lemma OutsideKeepsProcess(c: Codec, w: World, e: Event, j: nat)
    requires Lawful(c) && Inv(c, w) && Enabled(c, w, e) && EventProcess(e) == None && j < |w.processes|
    ensures ProcessInv(c, Next(c, w, e), j)
  {
    assert ProcessInv(c, w, j);
    var p, w' := w.processes[j], Next(c, w, e);
    assert w'.processes[j] == Overtake(Touch1(p), w.file, w'.file);
    if Overtaken(p.store, w.file, w'.file) {
      OvertakenNotEmptied(w, p.store, w'.file);
    } else if !p.tainted {
      ChangeKeepsStore(c, w, w', p.store);
    }
  }

  lemma StepKeepsInv(c: Codec, w: World, e: Event)
    requires Lawful(c) && Inv(c, w) && Enabled(c, w, e)
    ensures Inv(c, Next(c, w, e))
  {
    match e
    case ReadStat(_) => ReaderStep(c, w, e);
    case ReadBytes(_) => ReaderStep(c, w, e);
    case Lock(i, op) => LockStep(c, w, i, op);
    case LockedStat(i) => LockedStatStep(c, w, i);
    case LockedRead(i) => LockedReadStep(c, w, i);
    case Begin(i) => BeginStep(c, w, i);
    case Open(i, ino) => OpenStep(c, w, i, ino);
    case Emit(i, k) => EmitStep(c, w, i, k);
    case Finish(i) => FinishStep(c, w, i);
    case Crash(i) => CrashStep(c, w, i);
    case _ => FileStep(c, w, e);
  }

  // ---- Runs ---------------------------------------------------------------------------------------------

  predicate Runs(c: Codec, w: World, es: seq<Event>)
    decreases |es|
  {
    es == [] || (Enabled(c, w, es[0]) && Runs(c, Next(c, w, es[0]), es[1..]))
  }

  function After(c: Codec, w: World, es: seq<Event>): World
    requires Runs(c, w, es)
    decreases |es|
  {
    if es == [] then w else After(c, Next(c, w, es[0]), es[1..])
  }

  /** Freshly started processes beside any log or none. */
  predicate Start(w: World) {
    FileInv(w) && w.lock == None && forall p <- w.processes :: p == Process(EMPTY, Idle, false, false)
  }

  lemma {:induction false} RunKeepsInv(c: Codec, w: World, es: seq<Event>)
    requires Lawful(c) && Inv(c, w) && Runs(c, w, es)
    ensures Inv(c, After(c, w, es))
    decreases |es|
  {
    if es != [] {
      StepKeepsInv(c, w, es[0]);
      RunKeepsInv(c, Next(c, w, es[0]), es[1..]);
    }
  }

  lemma StartInv(c: Codec, w: World)
    requires Lawful(c) && Start(w)
    ensures Inv(c, w)
  {
    forall i | 0 <= i < |w.processes|
      ensures ProcessInv(c, w, i)
    {
      assert w.processes[i] in w.processes;
    }
  }

  /** Main theorem. In every interleaving of processes that create, revoke, touch and read one log, with
      crashes at any byte, and with any changes of the file from outside at any time, the index of an
      untainted process equals the plain replay of the bytes before its cursor, and the cursor is at a
      boundary: whenever its inode is still the log and reaches the cursor. */
  lemma IndexIsReplay(c: Codec, w: World, es: seq<Event>, i: nat)
    requires Lawful(c) && Start(w) && Runs(c, w, es)
    requires i < |After(c, w, es).processes| && !After(c, w, es).processes[i].tainted
    ensures var w' := After(c, w, es);
            var s := w'.processes[i].store;
            w'.file.File? && s.ino == w'.file.ino && s.size <= |w'.file.bytes| ==>
              && Boundary(w'.file.bytes, s.size)
              && s.index == Replay(c, w'.file.bytes[..s.size])
  {
    StartInv(c, w);
    RunKeepsInv(c, w, es);
    assert ProcessInv(c, After(c, w, es), i);
  }

  /** Steps after which the log is the same inode with bytes appended, if any. */
  predicate Appends(e: Event) {
    !e.ReplaceFile? && !e.DeleteFile? && !e.RewriteFile? && !e.CreateFile?
  }

  lemma AppendExtends(c: Codec, w: World, e: Event)
    requires Enabled(c, w, e) && Appends(e) && w.file.File?
    ensures var w' := Next(c, w, e);
            && w'.file.File? && w'.file.ino == w.file.ino && w.file.bytes <= w'.file.bytes
            && |w'.processes| == |w.processes|
            && forall i | 0 <= i < |w.processes| && EventProcess(e) != Some(i) :: SameFields(w'.processes[i], w.processes[i])
  {}

  /** Another process may overtake the store, but leaves it and the place of the process alone. */
  predicate SameFields(p: Process, q: Process) { p.store == q.store && p.pc == q.pc }

  lemma {:induction false} AppendsExtend(c: Codec, w: World, es: seq<Event>)
    requires Runs(c, w, es) && w.file.File? && forall e <- es :: Appends(e)
    ensures var w' := After(c, w, es);
            && w'.file.File? && w'.file.ino == w.file.ino && w.file.bytes <= w'.file.bytes
            && |w'.processes| == |w.processes|
    decreases |es|
  {
    if es != [] {
      AppendExtends(c, w, es[0]);
      AppendsExtend(c, Next(c, w, es[0]), es[1..]);
    }
  }

  lemma {:induction false} OthersLeaveAlone(c: Codec, w: World, es: seq<Event>, i: nat)
    requires Runs(c, w, es) && w.file.File? && i < |w.processes|
    requires forall e <- es :: Appends(e) && EventProcess(e) != Some(i)
    ensures i < |After(c, w, es).processes| && SameFields(After(c, w, es).processes[i], w.processes[i])
    decreases |es|
  {
    if es != [] {
      assert Appends(es[0]) && EventProcess(es[0]) != Some(i);
      AppendExtends(c, w, es[0]);
      OthersLeaveAlone(c, Next(c, w, es[0]), es[1..], i);
    }
  }

  /** The store that process i ends its sync with: the read follows only when the stat asks for it. */
  function SyncEnd(c: Codec, w: World, i: nat): Store
    requires i < |w.processes|
  {
    match w.processes[i].pc
    case Reading(upTo) => ReadUpTo(c, w.processes[i].store, upTo, w.file)
    case _ => w.processes[i].store
  }

  /** A read takes over all lines that were complete at the stat, whatever was appended since. */
  lemma ReadTakesComplete(c: Codec, s: Store, before: File, now: File)
    requires Lawful(c) && before.File? && now.File? && before.bytes <= now.bytes
    requires UpTo(c, s, before.bytes) && s.size < |before.bytes|
    ensures ReadUpTo(c, s, |before.bytes|, now).index == Replay(c, Complete(before.bytes))
  {
    SameBelow(before.bytes, now.bytes, s.size);
    CompleteSplit(before.bytes, s.size);
    ReadTracks(c, s, before.bytes[..s.size], |before.bytes|, now);
  }

  lemma CompleteSplit(bytes: seq<byte>, m: nat)
    requires Boundary(bytes, m)
    ensures Complete(bytes) == bytes[..m] + Complete(bytes[m..|bytes|])
  {
    TakenEnds(bytes, m, |bytes|);
    assert bytes[..|bytes|] == bytes;
  }

  lemma SameBelow(before: seq<byte>, now: seq<byte>, m: nat)
    requires before <= now && m <= |before|
    ensures now[m..|before|] == before[m..|before|]
  {}

  lemma NothingToRead(c: Codec, s: Store, bytes: seq<byte>)
    requires UpTo(c, s, bytes) && s.size == |bytes|
    ensures s.index == Replay(c, Complete(bytes))
  {
    assert bytes[..s.size] == bytes;
    LastBoundaryIs(bytes, s.size);
  }

  /** A sync whose stat is taken in w and whose read comes after any appends of other processes
      yields the replay of all complete lines of w. */
  lemma FreshSync(c: Codec, w: World, i: nat, es: seq<Event>)
    requires Lawful(c) && Inv(c, w) && w.file.File? && Enabled(c, w, ReadStat(i))
    requires !Next(c, w, ReadStat(i)).processes[i].tainted
    requires Runs(c, Next(c, w, ReadStat(i)), es)
    requires forall e <- es :: Appends(e) && EventProcess(e) != Some(i)
    ensures var w' := After(c, Next(c, w, ReadStat(i)), es);
            && i < |w'.processes|
            && SyncEnd(c, w', i).index == Replay(c, Complete(w.file.bytes))
  {
    var w1 := Next(c, w, ReadStat(i));
    StepKeepsInv(c, w, ReadStat(i));
    RunKeepsInv(c, w1, es);
    assert ProcessInv(c, w1, i);
    StatBounds(w, w.processes[i].store);
    AppendsExtend(c, w1, es);
    OthersLeaveAlone(c, w1, es, i);
    var s := w1.processes[i].store;
    if w1.processes[i].pc.Reading? {
      ReadTakesComplete(c, s, w.file, After(c, w1, es).file);
    } else {
      NothingToRead(c, s, w.file.bytes);
    }
  }

  /** Incremental equals batch: a sync that nothing interrupts ends with the replay of the complete
      lines of the file, whatever history of appends, torn tails and outside changes led to the
      store's fields, unless they are still tainted after the stat. */
  lemma IncrementalEqualsBatch(c: Codec, w: World, es: seq<Event>, i: nat)
    requires Lawful(c) && Start(w) && Runs(c, w, es)
    requires var w' := After(c, w, es); w'.file.File? && Enabled(c, w', ReadStat(i))
    requires !Next(c, After(c, w, es), ReadStat(i)).processes[i].tainted
    ensures var w' := After(c, w, es);
            Sync(c, w'.processes[i].store, w'.file, w'.file).index == Replay(c, Complete(w'.file.bytes))
  {
    StartInv(c, w);
    RunKeepsInv(c, w, es);
    FreshSync(c, After(c, w, es), i, []);
  }

  lemma CompleteExtends(bytes: seq<byte>, more: seq<byte>)
    ensures Complete(bytes) <= Complete(bytes + more)
  {
    var n := LastBoundary(bytes);
    assert (bytes + more)[..n] == bytes[..n];
    assert Boundary(bytes + more, n);
  }

  /** Revocation is permanent in every run of appends. */
  lemma RevokedInEveryReplay(c: Codec, w: World, es: seq<Event>, keyId: string)
    requires Lawful(c) && Runs(c, w, es) && w.file.File? && forall e <- es :: Appends(e)
    requires RevokedIn(Replay(c, Complete(w.file.bytes)), keyId)
    ensures var w' := After(c, w, es);
            w'.file.File? && RevokedIn(Replay(c, Complete(w'.file.bytes)), keyId)
  {
    AppendsExtend(c, w, es);
    var bytes, bytes' := w.file.bytes, After(c, w, es).file.bytes;
    RevokedStaysInPrefix(c, bytes, bytes', keyId);
  }

  lemma CompletePrefix(bytes: seq<byte>, longer: seq<byte>)
    requires bytes <= longer
    ensures Terminated(Complete(bytes)) && Complete(bytes) <= Complete(longer)
    ensures Complete(longer) == Complete(bytes) + Complete(longer)[|Complete(bytes)|..]
  {
    assert longer == bytes + longer[|bytes|..];
    CompleteExtends(bytes, longer[|bytes|..]);
  }

  lemma RevokedStaysInPrefix(c: Codec, bytes: seq<byte>, longer: seq<byte>, keyId: string)
    requires Lawful(c) && bytes <= longer && RevokedIn(Replay(c, Complete(bytes)), keyId)
    ensures RevokedIn(Replay(c, Complete(longer)), keyId)
  {
    CompletePrefix(bytes, longer);
    RevokedForever(c, Complete(bytes), Complete(longer)[|Complete(bytes)|..], keyId);
  }

  /** A key on disk stays on disk in every run of appends. */
  lemma KnownInEveryReplay(c: Codec, w: World, es: seq<Event>, keyId: string)
    requires Lawful(c) && Runs(c, w, es) && w.file.File? && forall e <- es :: Appends(e)
    requires keyId in Replay(c, Complete(w.file.bytes))
    ensures After(c, w, es).file.File? && keyId in Replay(c, Complete(After(c, w, es).file.bytes))
  {
    AppendsExtend(c, w, es);
    var before, now := Complete(w.file.bytes), Complete(After(c, w, es).file.bytes);
    CompletePrefix(w.file.bytes, After(c, w, es).file.bytes);
    KnownForever(c, before, now[|before|..], keyId);
  }

  /** Once a complete line revokes a key, every sync whose stat comes later, in whatever process,
      knows the key as revoked. */
  lemma LaterSyncSeesRevocation(c: Codec, w: World, es: seq<Event>, i: nat, es': seq<Event>, keyId: string)
    requires Lawful(c) && Inv(c, w) && Runs(c, w, es) && w.file.File?
    requires forall e <- es :: Appends(e)
    requires RevokedIn(Replay(c, Complete(w.file.bytes)), keyId)
    requires Enabled(c, After(c, w, es), ReadStat(i))
    requires !Next(c, After(c, w, es), ReadStat(i)).processes[i].tainted
    requires Runs(c, Next(c, After(c, w, es), ReadStat(i)), es')
    requires forall e <- es' :: Appends(e) && EventProcess(e) != Some(i)
    ensures var w' := After(c, Next(c, After(c, w, es), ReadStat(i)), es');
            i < |w'.processes| && RevokedIn(SyncEnd(c, w', i).index, keyId)
  {
    RunKeepsInv(c, w, es);
    RevokedInEveryReplay(c, w, es, keyId);
    FreshSync(c, After(c, w, es), i, es');
  }

  // ---- What a critical section achieves ------------------------------------------------------------------

  /** When an unmarked writer has finished, the replay of the log is its index with its record in it. */
  lemma FinishTakesEffect(c: Codec, w: World, i: nat)
    requires Lawful(c) && Inv(c, w) && Enabled(c, w, Finish(i)) && !Marked(w.processes[i])
    ensures w.file.File? && Complete(w.file.bytes) == w.file.bytes
    ensures var r, s := w.processes[i].pc.record, w.processes[i].store;
            Replay(c, w.file.bytes) == s.index[r.keyId := r] == Next(c, w, Finish(i)).processes[i].store.index
  {
    assert ProcessInv(c, w, i);
    assert w.file.bytes + [] == w.file.bytes && w.file.bytes[..|w.file.bytes|] == w.file.bytes;
  }

  /** A section that finds its key revoked appends nothing, and every replay has it revoked; else its
      record revokes the key, and when it has finished every replay has it. */
  lemma RevokeTakesEffect(c: Codec, w: World, i: nat)
    requires Lawful(c) && Inv(c, w) && i < |w.processes| && !Marked(w.processes[i])
    ensures var p := w.processes[i];
            p.pc.Synced? && p.pc.op.Revoke? && p.pc.op.keyId in p.store.index && Decide(p.pc.op, p.store.index).None? ==>
              RevokedIn(Replay(c, Complete(BytesOf(w.file))), p.pc.op.keyId)
    ensures var p := w.processes[i];
            Enabled(c, w, Finish(i)) && Truthy(p.pc.record.revokedAt) ==>
              w.file.File? && RevokedIn(Replay(c, Complete(w.file.bytes)), p.pc.record.keyId)
  {
    assert ProcessInv(c, w, i);
    if w.processes[i].pc.Synced? {
      SyncedTracks(c, w, w.processes[i].store);
    } else if Enabled(c, w, Finish(i)) {
      FinishTakesEffect(c, w, i);
    }
  }

  /** The two sections of `rotate` among peers: the old key is revoked on disk when the second section,
      that of the new record, finishes after any appends of anyone. Then the new record is on disk, and
      after any further appends the old key is still revoked and the new one still known. */
  lemma RotatedInRun(c: Codec, w: World, es: seq<Event>, i: nat, es': seq<Event>, keyId: string)
    requires Lawful(c) && Inv(c, w) && w.file.File? && RevokedIn(Replay(c, Complete(w.file.bytes)), keyId)
    requires Runs(c, w, es) && forall e <- es :: Appends(e)
    requires Enabled(c, After(c, w, es), Finish(i)) && !Marked(After(c, w, es).processes[i])
    requires Runs(c, Next(c, After(c, w, es), Finish(i)), es') && forall e <- es' :: Appends(e)
    ensures var w1 := After(c, w, es);
            var r := w1.processes[i].pc.record;
            && w1.file.File? && RevokedIn(Replay(c, w1.file.bytes), keyId)
            && r.keyId in Replay(c, w1.file.bytes) && Replay(c, w1.file.bytes)[r.keyId] == r
    ensures var w1 := After(c, w, es);
            var w2 := After(c, Next(c, w1, Finish(i)), es');
            && w2.file.File? && RevokedIn(Replay(c, Complete(w2.file.bytes)), keyId)
            && w1.processes[i].pc.record.keyId in Replay(c, Complete(w2.file.bytes))
  {
    var w1 := After(c, w, es);
    RunKeepsInv(c, w, es);
    RevokedInEveryReplay(c, w, es, keyId);
    FinishTakesEffect(c, w1, i);
    RevokedInEveryReplay(c, Next(c, w1, Finish(i)), es', keyId);
    KnownInEveryReplay(c, Next(c, w1, Finish(i)), es', w1.processes[i].pc.record.keyId);
  }
}
