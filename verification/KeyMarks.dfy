/** What the marks of KeyRuns mean: runs in which nothing is marked, the exact conditions under which a
    marked writer or reader is right all the same, and runs in which it is not. */
module KeyMarks {
  import opened Utf8
  import opened KeyLog
  import opened KeySync
  import opened KeyRuns
  import opened Wrappers

  // ---- Runs without marks --------------------------------------------------------------------------------

  /** Lines whose length decoding preserves, and a tail that a later append may close. */
  predicate Clean(c: Codec, bytes: seq<byte>) {
    LengthPreserved(Complete(bytes)) && HarmlessTail(c, bytes)
  }

  /** Clocks are positive and a created key id is one that was not revoked before. */
  predicate Sound(op: Op, index: Index) {
    match op
    case Create(r) => r.revokedAt == None && !RevokedIn(index, r.keyId)
    case Revoke(_, now) => now != 0
    case Touch(_, _) => true
  }

  /** Outside changes come between the critical sections, leave clean contents, and replace no bytes that
      a store has read unless the inode changes too; nor does a writer fill up what was cut below the
      cursor of another process before that has looked. A crash leaves a harmless tail. Clocks are
      positive and key ids new. */
  predicate Undisturbing(c: Codec, w: World, e: Event)
    requires Enabled(c, w, e)
  {
    var f := Next(c, w, e).file;
    && (EventProcess(e) == None ==> Clean(c, BytesOf(f)) && forall p <- w.processes :: !p.pc.Past())
    && (forall p <- w.processes :: !Overtaken(p.store, w.file, f))
    && match e
       case Crash(i) => WritesLog(w, w.processes[i]) ==> HarmlessTail(c, w.file.bytes)
       case Begin(i) => Sound(w.processes[i].pc.op, w.processes[i].store.index)
       case _ => true
  }

  predicate Undisturbed(c: Codec, w: World, es: seq<Event>)
    requires Runs(c, w, es)
    decreases |es|
  {
    es == [] || (Undisturbing(c, w, es[0]) && Undisturbed(c, Next(c, w, es[0]), es[1..]))
  }

  /** What a writer still has to write to the log keeps the count of its bytes. */
  ghost predicate RestInv(c: Codec, bytes: seq<byte>, rest: seq<byte>) {
    && LengthPreserved(bytes + rest)
    && (if rest == [] then HarmlessTail(c, bytes) else Terminated(rest))
  }

  predicate IsLine(c: Codec, line: seq<byte>, r: ApiKey) {
    line == c.stringify(r) + [LF] || line == [LF] + (c.stringify(r) + [LF])
  }

  predicate Busy(w: World) {
    exists i | 0 <= i < |w.processes| :: WritesLog(w, w.processes[i])
  }

  ghost predicate FileClean(c: Codec, w: World) {
    w.file.File? ==> LengthPreserved(Complete(w.file.bytes)) && (!Busy(w) ==> HarmlessTail(c, w.file.bytes))
  }

  ghost predicate ProcessClean(c: Codec, w: World, p: Process) {
    && !Marked(p)
    && (p.pc.Opening? ==> IsLine(c, p.pc.line, p.pc.record))
    && (p.pc.Writing? ==> RestInv(c, BytesOf(w.file), p.pc.rest))
  }

  ghost predicate CleanInv(c: Codec, w: World) {
    Inv(c, w) && FileClean(c, w) && forall i | 0 <= i < |w.processes| :: ProcessClean(c, w, w.processes[i])
  }

  lemma TakenPreserved(bytes: seq<byte>, m: nat, upTo: nat)
    requires Boundary(bytes, m) && m <= upTo <= |bytes| && LengthPreserved(Complete(bytes))
    ensures !HasShortSubpart(Complete(bytes[m..upTo]))
  {
    TakenEnds(bytes, m, upTo);
    PiecePreserved(bytes, m, m + |Complete(bytes[m..upTo])|, Complete(bytes[m..upTo]));
  }

  lemma PiecePreserved(bytes: seq<byte>, m: nat, n: nat, taken: seq<byte>)
    requires Boundary(bytes, m) && Boundary(bytes, n) && bytes[..n] == bytes[..m] + taken
    requires LengthPreserved(Complete(bytes))
    ensures !HasShortSubpart(taken)
  {
    BoundaryPreserved(bytes, n);
    SecondPreserved(bytes[..m], taken, bytes[..n]);
  }

  lemma SecondPreserved(a: seq<byte>, b: seq<byte>, whole: seq<byte>)
    requires whole == a + b && Terminated(a) && LengthPreserved(whole)
    ensures !HasShortSubpart(b)
  {
    LengthPreservedConcat(a, b);
    LengthPreservedIff(b);
  }

  lemma BoundaryPreserved(bytes: seq<byte>, n: nat)
    requires Boundary(bytes, n) && LengthPreserved(Complete(bytes))
    ensures LengthPreserved(bytes[..n])
  {
    var m := LastBoundary(bytes);
    assert Complete(bytes) == bytes[..n] + bytes[n..m];
    LengthPreservedConcat(bytes[..n], bytes[n..m]);
  }

  /** A step of process i that leaves the file alone. */
  lemma LocalClean(c: Codec, w: World, i: nat, p: Process, lock: Option<nat>)
    requires CleanInv(c, w) && i < |w.processes|
    requires var w' := With(w, i, p).(lock := lock);
             Inv(c, w') && ProcessClean(c, w', p)
    requires WritesLog(w, w.processes[i]) && !WritesLog(w, p) ==> HarmlessTail(c, w.file.bytes)
    ensures CleanInv(c, With(w, i, p).(lock := lock))
  {
    var w' := With(w, i, p).(lock := lock);
    forall j | 0 <= j < |w'.processes|
      ensures ProcessClean(c, w', w'.processes[j])
    {
      assert ProcessClean(c, w, w.processes[j]);
    }
    if !Busy(w') && Busy(w) {
      var j :| 0 <= j < |w.processes| && WritesLog(w, w.processes[j]);
      assert WritesLog(w', w'.processes[j]) || j == i;
    }
  }

  lemma NothingMisread(c: Codec, w: World, i: nat, upTo: nat)
    requires CleanInv(c, w) && i < |w.processes|
    ensures !Misread(w.processes[i].store, upTo, w.file)
  {
    assert ProcessInv(c, w, i) && ProcessClean(c, w, w.processes[i]);
    var s := w.processes[i].store;
    if w.file.File? && s.ino == w.file.ino && s.size < upTo <= |w.file.bytes| {
      TakenPreserved(w.file.bytes, s.size, upTo);
    }
  }

  /** Sound operations append records that the sticky replay takes as they are. */
  lemma DecidedRecord(op: Op, index: Index)
    requires Keyed(index) && Sound(op, index) && Decide(op, index).Some?
    ensures var r := Decide(op, index).value; ApplyRecord(index, r) == index[r.keyId := r]
  {}

  /** Only the holder of the lock writes. */
  lemma NotBusy(c: Codec, w: World, i: nat)
    requires Inv(c, w) && i < |w.processes| && w.processes[i].pc.Locked() && !w.processes[i].pc.Writing?
    ensures !Busy(w)
  {
    assert ProcessInv(c, w, i);
    forall j | 0 <= j < |w.processes|
      ensures !WritesLog(w, w.processes[j])
    {
      assert ProcessInv(c, w, j);
    }
  }

  lemma SoundAgrees(c: Codec, w: World, s: Store, op: Op)
    requires Lawful(c) && StoreInv(c, w, s) && SyncedWith(c, w, s) && HarmlessTail(c, BytesOf(w.file))
    requires Sound(op, s.index) && Decide(op, s.index).Some?
    ensures AppendAgrees(c, s.index, Tail(BytesOf(w.file)), Decide(op, s.index).value)
  {
    SyncedTracks(c, w, s);
    ReplayKeyed(c, map[], Split(Decoded(Complete(BytesOf(w.file)))));
    DecidedRecord(op, s.index);
  }

  lemma BeginClean(c: Codec, w: World, i: nat)
    requires Lawful(c) && CleanInv(c, w) && Enabled(c, w, Begin(i)) && Undisturbing(c, w, Begin(i))
    ensures CleanInv(c, Next(c, w, Begin(i)))
  {
    StepKeepsInv(c, w, Begin(i));
    var p, w' := w.processes[i], Next(c, w, Begin(i));
    assert ProcessInv(c, w, i) && ProcessClean(c, w, p);
    HarmlessHere(c, w, i);
    BeginUnmarked(c, w, p, w'.processes[i], p.pc.op);
    LocalClean(c, w, i, w'.processes[i], w'.lock);
  }

  lemma HarmlessHere(c: Codec, w: World, i: nat)
    requires Lawful(c) && CleanInv(c, w) && i < |w.processes| && w.processes[i].pc.Locked() && !w.processes[i].pc.Writing?
    ensures HarmlessTail(c, BytesOf(w.file))
  {
    NotBusy(c, w, i);
    assert Tail([]) == [];
  }

  lemma BeginUnmarked(c: Codec, w: World, p: Process, p': Process, op: Op)
    requires Lawful(c) && !Marked(p) && p.pc == Synced(op) && Sound(op, p.store.index)
    requires StoreInv(c, w, p.store) && SyncedWith(c, w, p.store) && HarmlessTail(c, BytesOf(w.file))
    requires var d := Decide(op, p.store.index);
             p' == if d.None? then p.(pc := Idle, touched := false) else Decided(c, p, BytesOf(w.file), d.value)
    ensures ProcessClean(c, w, p')
  {
    if Decide(op, p.store.index).Some? {
      SoundAgrees(c, w, p.store, op);
    }
  }

  lemma LineInv(c: Codec, bytes: seq<byte>, line: seq<byte>, r: ApiKey)
    requires Lawful(c) && IsLine(c, line, r)
    requires LengthPreserved(Complete(bytes)) && HarmlessTail(c, bytes)
    ensures line != [] && RestInv(c, bytes, line)
  {
    var text := c.stringify(r);
    assert bytes == Complete(bytes) + Tail(bytes);
    LengthPreservedConcat(Complete(bytes), Tail(bytes));
    CloseLine(c, map[], text);
    if line == [LF] + (text + [LF]) {
      LineFeedPreserved();
      LengthPreservedConcat([LF], text + [LF]);
    }
    assert line[0] < 0x80;
    LengthPreservedConcat(bytes, line);
  }

  lemma LineFeedPreserved()
    ensures LengthPreserved([LF])
  {
    assert FirstChunk([LF]) == Chunk(1, true);
    assert Decoded([LF]) == [LF] + Decoded([]) == [LF];
  }

  lemma OpenClean(c: Codec, w: World, i: nat, ino: nat)
    requires Lawful(c) && CleanInv(c, w) && Enabled(c, w, Open(i, ino))
    ensures CleanInv(c, Next(c, w, Open(i, ino)))
  {
    StepKeepsInv(c, w, Open(i, ino));
    assert ProcessInv(c, w, i) && ProcessClean(c, w, w.processes[i]);
    var p, w' := w.processes[i], Next(c, w, Open(i, ino));
    NotBusy(c, w, i);
    if w.file.File? {
      LineInv(c, w.file.bytes, p.pc.line, p.pc.record);
      LocalClean(c, w, i, w'.processes[i], w.lock);
    } else {
      OpenCreates(c, w, i, ino);
    }
  }

  lemma OpenCreates(c: Codec, w: World, i: nat, ino: nat)
    requires Lawful(c) && CleanInv(c, w) && Enabled(c, w, Open(i, ino)) && w.file.Missing?
    requires Inv(c, Next(c, w, Open(i, ino)))
    ensures CleanInv(c, Next(c, w, Open(i, ino)))
  {
    var w' := Next(c, w, Open(i, ino));
    assert Complete([]) == [] && Tail([]) == [];
    assert ProcessClean(c, w, w.processes[i]);
    LineInv(c, [], w.processes[i].pc.line, w.processes[i].pc.record);
    forall j | 0 <= j < |w'.processes|
      ensures ProcessClean(c, w', w'.processes[j])
    {
      assert ProcessClean(c, w, w.processes[j]);
    }
  }

  /** A part of the rest reaches the file. */
  lemma EmitKeepsRest(c: Codec, bytes: seq<byte>, rest: seq<byte>, k: nat)
    requires Lawful(c) && RestInv(c, bytes, rest) && k <= |rest|
    ensures RestInv(c, bytes + rest[..k], rest[k..])
    ensures LengthPreserved(Complete(bytes + rest[..k]))
  {
    SplitRest(bytes, rest, k);
    if rest == [] {
      assert bytes + rest[..k] == bytes && bytes + rest == bytes;
      WholePreserved(bytes);
    } else {
      assert (bytes + rest)[|bytes + rest| - 1] == LF;
      WrittenPrefix(bytes + rest, bytes + rest[..k]);
      if k == |rest| {
        assert bytes + rest[..k] == bytes + rest;
        WholeComplete(bytes + rest);
        assert Tail(bytes + rest) == [];
      } else {
        assert rest[k..][|rest| - k - 1] == rest[|rest| - 1];
      }
    }
  }

  lemma WholePreserved(bytes: seq<byte>)
    requires LengthPreserved(bytes)
    ensures LengthPreserved(Complete(bytes))
  {
    assert bytes == Complete(bytes) + Tail(bytes);
    LengthPreservedConcat(Complete(bytes), Tail(bytes));
  }

  lemma WholeComplete(bytes: seq<byte>)
    requires Terminated(bytes)
    ensures Complete(bytes) == bytes
  {
    assert bytes[..|bytes|] == bytes;
  }

  /** The complete lines of a prefix keep their length when those of the whole do. */
  lemma WrittenPrefix(whole: seq<byte>, prefix: seq<byte>)
    requires prefix <= whole && LengthPreserved(whole) && Terminated(whole)
    ensures LengthPreserved(Complete(prefix))
  {
    var n := LastBoundary(prefix);
    assert prefix[..n] == whole[..n];
    WholeComplete(whole);
    BoundaryPreserved(whole, n);
  }

  lemma EmitClean(c: Codec, w: World, i: nat, k: nat)
    requires Lawful(c) && CleanInv(c, w) && Enabled(c, w, Emit(i, k)) && Undisturbing(c, w, Emit(i, k))
    ensures CleanInv(c, Next(c, w, Emit(i, k)))
  {
    StepKeepsInv(c, w, Emit(i, k));
    assert ProcessInv(c, w, i) && ProcessClean(c, w, w.processes[i]);
    var w' := Next(c, w, Emit(i, k));
    EmitKeepsRest(c, w.file.bytes, w.processes[i].pc.rest, k);
    assert Busy(w') by { assert WritesLog(w', w'.processes[i]); }
    forall j | 0 <= j < |w'.processes|
      ensures ProcessClean(c, w', w'.processes[j])
    {
      assert ProcessInv(c, w, j) && ProcessClean(c, w, w.processes[j]) && w.processes[j] in w.processes;
    }
  }

  lemma FinishClean(c: Codec, w: World, i: nat)
    requires Lawful(c) && CleanInv(c, w) && Enabled(c, w, Finish(i))
    ensures CleanInv(c, Next(c, w, Finish(i)))
  {
    StepKeepsInv(c, w, Finish(i));
    assert ProcessInv(c, w, i) && ProcessClean(c, w, w.processes[i]);
    var w' := Next(c, w, Finish(i));
    LocalClean(c, w, i, w'.processes[i], w'.lock);
  }

  lemma OutsideClean(c: Codec, w: World, e: Event)
    requires Lawful(c) && CleanInv(c, w) && Enabled(c, w, e) && EventProcess(e) == None && Undisturbing(c, w, e)
    ensures CleanInv(c, Next(c, w, e))
  {
    StepKeepsInv(c, w, e);
    var w' := Next(c, w, e);
    forall j | 0 <= j < |w'.processes|
      ensures w'.processes[j] == w.processes[j] && ProcessClean(c, w', w'.processes[j])
    {
      assert ProcessClean(c, w, w.processes[j]) && w.processes[j] in w.processes;
    }
  }

  /** Steps that look at the file and change the fields of one process. */
  lemma SyncClean(c: Codec, w: World, e: Event)
    requires Lawful(c) && CleanInv(c, w) && Enabled(c, w, e)
    requires e.ReadStat? || e.ReadBytes? || e.Lock? || e.LockedStat? || e.LockedRead?
    ensures CleanInv(c, Next(c, w, e))
  {
    StepKeepsInv(c, w, e);
    var p, w' := w.processes[e.i], Next(c, w, e);
    assert ProcessClean(c, w, p);
    if e.ReadBytes? || e.LockedRead? {
      NothingMisread(c, w, e.i, p.pc.upTo);
    }
    LocalClean(c, w, e.i, w'.processes[e.i], w'.lock);
  }

  lemma StepKeepsClean(c: Codec, w: World, e: Event)
    requires Lawful(c) && CleanInv(c, w) && Enabled(c, w, e) && Undisturbing(c, w, e)
    ensures CleanInv(c, Next(c, w, e))
  {
    match e
    case Begin(i) => BeginClean(c, w, i);
    case Open(i, ino) => OpenClean(c, w, i, ino);
    case Emit(i, k) => EmitClean(c, w, i, k);
    case Finish(i) => FinishClean(c, w, i);
    case Crash(i) =>
      StepKeepsInv(c, w, e);
      LocalClean(c, w, i, Next(c, w, e).processes[i], Next(c, w, e).lock);
    case CreateFile(_) => OutsideClean(c, w, e);
    case ReplaceFile(_, _) => OutsideClean(c, w, e);
    case DeleteFile => OutsideClean(c, w, e);
    case RewriteFile(_) => OutsideClean(c, w, e);
    case _ => SyncClean(c, w, e);
  }

  lemma {:induction false} RunKeepsClean(c: Codec, w: World, es: seq<Event>)
    requires Lawful(c) && CleanInv(c, w) && Runs(c, w, es) && Undisturbed(c, w, es)
    ensures CleanInv(c, After(c, w, es))
    decreases |es|
  {
    if es != [] {
      StepKeepsClean(c, w, es[0]);
      RunKeepsClean(c, Next(c, w, es[0]), es[1..]);
    }
  }

  /** In an undisturbed run from a clean log no process is ever marked, and every line on disk keeps its
      length when it is decoded. */
  lemma UndisturbedUnmarked(c: Codec, w: World, es: seq<Event>)
    requires Lawful(c) && Start(w) && Clean(c, BytesOf(w.file)) && Runs(c, w, es) && Undisturbed(c, w, es)
    ensures forall p <- After(c, w, es).processes :: !Marked(p)
    ensures LengthPreserved(Complete(BytesOf(After(c, w, es).file)))
  {
    StartInv(c, w);
    forall i | 0 <= i < |w.processes|
      ensures ProcessClean(c, w, w.processes[i])
    {
      assert w.processes[i] in w.processes;
    }
    RunKeepsClean(c, w, es);
    var w' := After(c, w, es);
    forall p <- w'.processes
      ensures !Marked(p)
    {
      var j :| 0 <= j < |w'.processes| && w'.processes[j] == p;
      assert ProcessClean(c, w', w'.processes[j]);
    }
    assert Complete([]) == [];
  }

  // ---- Marked writers ------------------------------------------------------------------------------------

  /** Two indexes agree on every key but one. */
  predicate SameOthers(a: Index, b: Index, k: string) { a - {k} == b - {k} }

  /** A file says of the writer's record and of all other keys just what the writer's index will say. */
  predicate SaysTheSame(c: Codec, s: Store, bytes: seq<byte>, r: ApiKey) {
    var keys := Replay(c, bytes);
    Terminated(bytes) && SameOthers(keys, s.index, r.keyId) && r.keyId in keys && keys[r.keyId] == r
  }

  /** The exact condition at the end of an append, for whatever file the writer finds there then. */
  lemma AppendedRightIff(c: Codec, s: Store, f: File, r: ApiKey)
    requires f.File?
    ensures UpTo(c, Appended(s, f, r), f.bytes) <==> SaysTheSame(c, s, f.bytes, r)
  {
    var k, keys := r.keyId, Replay(c, f.bytes);
    assert f.bytes[..|f.bytes|] == f.bytes;
    assert s.index[k := r] - {k} == s.index - {k};
    if SameOthers(keys, s.index, k) && k in keys && keys[k] == r {
      assert keys == (keys - {k})[k := r] && s.index[k := r] == (s.index - {k})[k := r];
    }
  }

  /** In every run: a writer that finishes unmarked finds a file that says the same, and any writer,
      whatever happened to the file before or after it was opened, is right exactly when it finds one. */
  lemma FinishRightIff(c: Codec, w: World, es: seq<Event>, i: nat)
    requires Lawful(c) && Start(w) && Runs(c, w, es) && Enabled(c, After(c, w, es), Finish(i))
    ensures var w1 := After(c, w, es);
            var p, s := w1.processes[i], Next(c, w1, Finish(i)).processes[i].store;
            && (!Marked(p) ==> w1.file.File? && SaysTheSame(c, p.store, w1.file.bytes, p.pc.record))
            && (w1.file.File? ==> (UpTo(c, s, w1.file.bytes) <==> SaysTheSame(c, p.store, w1.file.bytes, p.pc.record)))
  {
    var w1 := After(c, w, es);
    var p := w1.processes[i];
    StartInv(c, w);
    RunKeepsInv(c, w, es);
    assert ProcessInv(c, w1, i);
    if w1.file.File? {
      AppendedRightIff(c, p.store, w1.file, p.pc.record);
      if !Marked(p) {
        assert w1.file.bytes + [] == w1.file.bytes && w1.file.bytes[..|w1.file.bytes|] == w1.file.bytes;
      }
    }
  }

  /** When the line goes to a file changed before it was opened, and begins a line there: a replay of that file, with its tail closed, agrees with the writer's index on
      every other key, and has the writer's key revoked only if the record revokes it. */
  lemma TouchedWriterIff(c: Codec, s: Store, ino: nat, met: seq<byte>, line: seq<byte>, r: ApiKey)
    requires Lawful(c) && IsLine(c, line, r) && (Terminated(met) || line[0] == LF)
    ensures var found := ApplyLine(c, Replay(c, Complete(met)), Decoded(Tail(met)));
            UpTo(c, Appended(s, File(ino, met + line), r), met + line) <==>
            && SameOthers(found, s.index, r.keyId)
            && !(RevokedIn(found, r.keyId) && !Truthy(r.revokedAt))
  {
    var found, bytes := ApplyLine(c, Replay(c, Complete(met)), Decoded(Tail(met))), met + line;
    ClosedLine(c, met, line, r);
    assert bytes[..|bytes|] == bytes;
    KeptIff(s.index, found, r);
  }

  lemma KeptIff(index: Index, found: Index, r: ApiKey)
    ensures index[r.keyId := r] == ApplyRecord(found, r) <==>
            SameOthers(found, index, r.keyId) && !(RevokedIn(found, r.keyId) && !Truthy(r.revokedAt))
  {
    var k, kept, replayed := r.keyId, index[r.keyId := r], ApplyRecord(found, r);
    assert kept - {k} == index - {k} && replayed - {k} == found - {k};
    assert kept[k] == r && (replayed[k] == r <==> !(RevokedIn(found, k) && !Truthy(r.revokedAt)));
    if SameOthers(found, index, k) && replayed[k] == r {
      assert kept == (index - {k})[k := r] && replayed == (found - {k})[k := r];
    }
  }

  lemma ClosedLine(c: Codec, met: seq<byte>, line: seq<byte>, r: ApiKey)
    requires Lawful(c) && IsLine(c, line, r) && (Terminated(met) || line[0] == LF)
    ensures Terminated(met + line)
    ensures Replay(c, met + line) ==
            ApplyRecord(ApplyLine(c, Replay(c, Complete(met)), Decoded(Tail(met))), r)
  {
    var text := c.stringify(r) + [LF];
    if line == text {
      WholeComplete(met);
      assert Tail(met) == [];
      AppendRecordLine(c, met, r);
    } else {
      assert met + ([LF] + text) == (met + [LF]) + text;
      CloseTail(c, met);
      AppendRecordLine(c, met + [LF], r);
    }
  }

  /** When its line is glued to a torn tail, the writer's index is right exactly when the complete lines
      of the file that it met, followed by what the glued line says, if anything, say just this. */
  lemma GluedWriterIff(c: Codec, s: Store, ino: nat, met: seq<byte>, r: ApiKey)
    requires Lawful(c) && !Terminated(met)
    ensures var bytes, glued := met + (c.stringify(r) + [LF]), Decoded(Tail(met) + c.stringify(r));
            UpTo(c, Appended(s, File(ino, bytes), r), bytes) <==>
            ApplyLine(c, Replay(c, Complete(met)), glued) == s.index[r.keyId := r]
  {
    var bytes := met + (c.stringify(r) + [LF]);
    assert met == Complete(met) + Tail(met);
    GluedLine(c, Complete(met), Tail(met), c.stringify(r));
    UpToAll(c, Appended(s, File(ino, bytes), r), bytes);
  }

  lemma UpToAll(c: Codec, s: Store, bytes: seq<byte>)
    requires s.size == |bytes| && Terminated(bytes)
    ensures UpTo(c, s, bytes) <==> s.index == Replay(c, bytes)
  {
    assert bytes[..|bytes|] == bytes;
  }

  lemma GluedLine(c: Codec, lines: seq<byte>, tail: seq<byte>, text: seq<byte>)
    requires Lawful(c) && Terminated(lines) && LF !in tail && LF !in text
    ensures Replay(c, (lines + tail) + (text + [LF])) == ApplyLine(c, Replay(c, lines), Decoded(tail + text))
  {
    Associative(lines, tail, text + [LF]);
    Associative(tail, text, [LF]);
    ReplayConcat(c, lines, (tail + text) + [LF]);
    CloseLine(c, Replay(c, lines), tail + text);
  }

  /** A file that is replaced between a writer's sync and its append: the writer's cursor passes a key on
      disk that its index does not have. */
  lemma ReplacedUnderWriter(c: Codec, peer: ApiKey, mine: ApiKey) returns (w: World, es: seq<Event>)
    requires Lawful(c) && peer.keyId != mine.keyId && mine.revokedAt == None
    ensures Start(w) && Runs(c, w, es)
    ensures var w' := After(c, w, es);
            && |w'.processes| == 1 && w'.file.File?
            && var s := w'.processes[0].store;
               && s.ino == w'.file.ino && s.size == |w'.file.bytes|
               && peer.keyId in Replay(c, w'.file.bytes) && peer.keyId !in s.index
  {
    var theirs, line := c.stringify(peer) + [LF], c.stringify(mine) + [LF];
    AppendRecordLine(c, [], peer);
    assert [] + theirs == theirs;
    EmptyReplay(c);
    LineFeedPreserved();
    WholeComplete(theirs);
    assert Tail(theirs) == [];
    CloseLine(c, map[], c.stringify(peer));
    AppendRecordLine(c, theirs, mine);
    assert Complete([]) == [] && Tail([]) == [];
    w := World(File(1, []), None, [Process(EMPTY, Idle, false, false)], {1});
    es := [Lock(0, Create(mine)), LockedStat(0), ReplaceFile(2, theirs), Begin(0), Open(0, 0), Emit(0, |line|), Finish(0)];
    ReplacedRun(c, theirs, line, mine, w);
  }

  lemma ReplacedRun(c: Codec, theirs: seq<byte>, line: seq<byte>, mine: ApiKey, w: World)
    requires Lawful(c) && Clean(c, theirs) && Terminated(theirs) && theirs != [] && mine.revokedAt == None
    requires line == c.stringify(mine) + [LF]
    requires w == World(File(1, []), None, [Process(EMPTY, Idle, false, false)], {1})
    ensures var es := [Lock(0, Create(mine)), LockedStat(0), ReplaceFile(2, theirs), Begin(0), Open(0, 0), Emit(0, |line|), Finish(0)];
            && Runs(c, w, es)
            && After(c, w, es) == World(File(2, theirs + line), None,
                 [Process(Store(map[mine.keyId := mine], |theirs + line|, 2), Idle, false, true)], {1, 2})
  {
    var w1 := World(File(1, []), Some(0), [Process(EMPTY, Entered(Create(mine)), false, false)], {1});
    var s := EMPTY.(ino := 1);
    var w2 := w1.(processes := [Process(s, Synced(Create(mine)), false, false)]);
    var w3 := World(File(2, theirs), Some(0), [Process(s, Synced(Create(mine)), true, false)], {1, 2});
    ReplacedAppend(c, theirs, line, mine, w3);
    assert Outside(w2, File(2, theirs)).processes == w3.processes;
    Step(c, w2, ReplaceFile(2, theirs), w3, [Begin(0), Open(0, 0), Emit(0, |line|), Finish(0)]);
    Step(c, w1, LockedStat(0), w2, [ReplaceFile(2, theirs), Begin(0), Open(0, 0), Emit(0, |line|), Finish(0)]);
    Step(c, w, Lock(0, Create(mine)), w1,
         [LockedStat(0), ReplaceFile(2, theirs), Begin(0), Open(0, 0), Emit(0, |line|), Finish(0)]);
  }

  lemma ReplacedAppend(c: Codec, theirs: seq<byte>, line: seq<byte>, mine: ApiKey, w: World)
    requires Lawful(c) && Terminated(theirs) && theirs != [] && mine.revokedAt == None
    requires line == c.stringify(mine) + [LF]
    requires w == World(File(2, theirs), Some(0), [Process(EMPTY.(ino := 1), Synced(Create(mine)), true, false)], {1, 2})
    ensures var es := [Begin(0), Open(0, 0), Emit(0, |line|), Finish(0)];
            && Runs(c, w, es)
            && After(c, w, es) == World(File(2, theirs + line), None,
                 [Process(Store(map[mine.keyId := mine], |theirs + line|, 2), Idle, false, true)], {1, 2})
  {
    var s := EMPTY.(ino := 1);
    var w4 := w.(processes := [Process(s, Opening(mine, line), true, false)]);
    var w5 := w.(processes := [Process(s, Writing(mine, line, 2), true, false)]);
    var w6 := w.(file := File(2, theirs + line), processes := [Process(s, Writing(mine, [], 2), true, false)]);
    var w7 := World(File(2, theirs + line), None,
                    [Process(Store(map[mine.keyId := mine], |theirs + line|, 2), Idle, false, true)], {1, 2});
    Step(c, w6, Finish(0), w7, []);
    assert line[..|line|] == line && line[|line|..] == [];
    assert [Finish(0)] + [] == [Finish(0)];
    Step(c, w5, Emit(0, |line|), w6, [Finish(0)]);
    Step(c, w4, Open(0, 0), w5, [Emit(0, |line|), Finish(0)]);
    Step(c, w, Begin(0), w4, [Open(0, 0), Emit(0, |line|), Finish(0)]);
  }

  /** A file that is replaced after a writer has opened it: the line goes to the old inode, and the
      writer's index has a key that no replay has, and misses one before its cursor. */
  lemma ReplacedUnderOpenWriter(c: Codec, peer: ApiKey, mine: ApiKey) returns (w: World, es: seq<Event>)
    requires Lawful(c) && peer.keyId != mine.keyId && mine.revokedAt == None
    ensures Start(w) && Runs(c, w, es)
    ensures var w' := After(c, w, es);
            && |w'.processes| == 1 && w'.file.File?
            && var s := w'.processes[0].store;
               && s.ino == w'.file.ino && s.size == |w'.file.bytes|
               && mine.keyId in s.index && mine.keyId !in Replay(c, w'.file.bytes)
               && peer.keyId in Replay(c, w'.file.bytes) && peer.keyId !in s.index
  {
    var theirs, line := c.stringify(peer) + [LF], c.stringify(mine) + [LF];
    EmptyReplay(c);
    AppendRecordLine(c, [], peer);
    assert [] + theirs == theirs;
    w := World(File(1, []), None, [Process(EMPTY, Idle, false, false)], {1});
    es := [Lock(0, Create(mine)), LockedStat(0), Begin(0), Open(0, 0), ReplaceFile(2, theirs), Emit(0, |line|), Finish(0)];
    OpenedRun(c, theirs, line, mine, w);
  }

  lemma OpenedRun(c: Codec, theirs: seq<byte>, line: seq<byte>, mine: ApiKey, w: World)
    requires Lawful(c) && mine.revokedAt == None && line == c.stringify(mine) + [LF]
    requires w == World(File(1, []), None, [Process(EMPTY, Idle, false, false)], {1})
    ensures var es := [Lock(0, Create(mine)), LockedStat(0), Begin(0), Open(0, 0), ReplaceFile(2, theirs), Emit(0, |line|), Finish(0)];
            && Runs(c, w, es)
            && After(c, w, es) == World(File(2, theirs), None,
                 [Process(Store(map[mine.keyId := mine], |theirs|, 2), Idle, false, true)], {1, 2})
  {
    var s := EMPTY.(ino := 1);
    var w1 := World(File(1, []), Some(0), [Process(EMPTY, Entered(Create(mine)), false, false)], {1});
    var w2 := w1.(processes := [Process(s, Synced(Create(mine)), false, false)]);
    var w3 := w1.(processes := [Process(s, Opening(mine, line), false, false)]);
    var w4 := w1.(processes := [Process(s, Writing(mine, line, 1), false, false)]);
    EmptyTailAgrees(c, s.index, mine);
    OpenedAppend(c, theirs, line, mine, w4);
    Step(c, w3, Open(0, 0), w4, [ReplaceFile(2, theirs), Emit(0, |line|), Finish(0)]);
    Step(c, w2, Begin(0), w3, [Open(0, 0), ReplaceFile(2, theirs), Emit(0, |line|), Finish(0)]);
    Step(c, w1, LockedStat(0), w2, [Begin(0), Open(0, 0), ReplaceFile(2, theirs), Emit(0, |line|), Finish(0)]);
    Step(c, w, Lock(0, Create(mine)), w1,
         [LockedStat(0), Begin(0), Open(0, 0), ReplaceFile(2, theirs), Emit(0, |line|), Finish(0)]);
  }

  lemma EmptyTailAgrees(c: Codec, index: Index, r: ApiKey)
    requires Lawful(c) && r.keyId !in index
    ensures AppendAgrees(c, index, Tail([]), r)
  {
    assert Tail([]) == [];
  }

  lemma OpenedAppend(c: Codec, theirs: seq<byte>, line: seq<byte>, mine: ApiKey, w: World)
    requires Lawful(c)
    requires w == World(File(1, []), Some(0), [Process(EMPTY.(ino := 1), Writing(mine, line, 1), false, false)], {1})
    ensures var es := [ReplaceFile(2, theirs), Emit(0, |line|), Finish(0)];
            && Runs(c, w, es)
            && After(c, w, es) == World(File(2, theirs), None,
                 [Process(Store(map[mine.keyId := mine], |theirs|, 2), Idle, false, true)], {1, 2})
  {
    var s := EMPTY.(ino := 1);
    var w5 := World(File(2, theirs), Some(0), [Process(s, Writing(mine, line, 1), true, false)], {1, 2});
    var w6 := w5.(processes := [Process(s, Writing(mine, [], 1), true, false)]);
    var w7 := World(File(2, theirs), None,
                    [Process(Store(map[mine.keyId := mine], |theirs|, 2), Idle, false, true)], {1, 2});
    Step(c, w6, Finish(0), w7, []);
    assert [Finish(0)] + [] == [Finish(0)] && line[|line|..] == [];
    Step(c, w5, Emit(0, |line|), w6, [Finish(0)]);
    assert Outside(w, File(2, theirs)).processes == w5.processes;
    Step(c, w, ReplaceFile(2, theirs), w5, [Emit(0, |line|), Finish(0)]);
  }

  lemma Step(c: Codec, w: World, e: Event, v: World, es: seq<Event>)
    requires Enabled(c, w, e) && Next(c, w, e) == v && Runs(c, v, es)
    ensures Runs(c, w, [e] + es) && After(c, w, [e] + es) == After(c, v, es)
  {
    assert ([e] + es)[1..] == es;
  }

  // ---- What else is marked -------------------------------------------------------------------------------

  /** The fragment a crash leaves is harmless exactly when it is not the whole record without its line
      feed, and the cut is not one or two bytes into a longer character. */
  lemma CrashHarmlessIff(c: Codec, bytes: seq<byte>, r: ApiKey, k: nat)
    requires Lawful(c) && Terminated(bytes) && k <= |c.stringify(r)|
    ensures HarmlessTail(c, bytes + c.stringify(r)[..k])
            <==> k != |c.stringify(r)| && Overhang(c.stringify(r), k) != 1 && Overhang(c.stringify(r), k) != 2
  {
    CutPreservedIff(c.stringify(r), k);
    var left := bytes + c.stringify(r)[..k];
    assert left[..|bytes|] == bytes && left[|bytes|..] == c.stringify(r)[..k];
    LastBoundaryIs(left, |bytes|);
    assert c.stringify(r)[..|c.stringify(r)|] == c.stringify(r);
  }

  /** A crash that loses only the line feed: the sync of the next writer takes nothing over, its
      append moves the cursor past a whole record that every replay of the file has. */
  lemma LostLineFeed(c: Codec, lost: ApiKey, next: ApiKey)
    requires Lawful(c) && lost.keyId != next.keyId
    ensures var torn := c.stringify(lost);
            var s := Sync(c, EMPTY, File(1, torn), File(1, torn));
            var bytes := torn + AppendedLine(c, torn, next);
            var s' := AfterAppend(s, File(1, bytes), next);
            && s == EMPTY.(ino := 1)
            && s'.size == |bytes| && lost.keyId !in s'.index
            && lost.keyId in Replay(c, bytes)
  {
    UnfinishedSync(c, c.stringify(lost));
    LostRecordReplays(c, lost, next);
  }

  lemma LostRecordReplays(c: Codec, lost: ApiKey, next: ApiKey)
    requires Lawful(c)
    ensures lost.keyId in Replay(c, c.stringify(lost) + AppendedLine(c, c.stringify(lost), next))
  {
    var torn := c.stringify(lost);
    UnfinishedSync(c, torn);
    EmptyReplay(c);
    AppendedReplay(c, torn, next);
    assert Replay(c, torn + AppendedLine(c, torn, next)) == ApplyRecord(ApplyLine(c, map[], torn), next);
    TornRecordApplied(c, lost, next);
  }

  lemma TornRecordApplied(c: Codec, lost: ApiKey, next: ApiKey)
    requires Lawful(c)
    ensures lost.keyId in ApplyRecord(ApplyLine(c, map[], c.stringify(lost)), next)
  {
    assert c.parse(c.stringify(lost)) == Some(lost);
  }

  /** A sync takes nothing from a text without a line feed. */
  lemma UnfinishedSync(c: Codec, torn: seq<byte>)
    requires Lawful(c) && torn != [] && LF !in torn
    ensures Sync(c, EMPTY, File(1, torn), File(1, torn)) == EMPTY.(ino := 1)
    ensures Complete(torn) == [] && Tail(torn) == torn
  {
    EmptyReplay(c);
    assert torn[..0] == [] && torn[0..] == torn;
    LastBoundaryIs(torn, 0);
    CompleteDecoded(torn);
    assert torn[0..|torn|] == torn;
  }

  /** A line that ends inside a three byte character: the cursor of a reader runs past the file. */
  lemma CursorPastTornCharacter(c: Codec)
    requires Lawful(c)
    ensures var torn := [0xE2, 0x82, LF];
            && HasShortSubpart(torn)
            && Sync(c, EMPTY, File(1, torn), File(1, torn)).size == 4
  {
    var torn: seq<byte> := [0xE2, 0x82, LF];
    assert FirstChunk(torn) == Chunk(2, false);
    assert torn[2..] == [LF] && FirstChunk([LF]) == Chunk(1, true) && [LF][1..] == [];
    assert Decoded([LF]) == [LF] + Decoded([]) == [LF];
    assert Decoded(torn) == REPLACEMENT + [LF];
    assert torn[0..3] == torn;
    assert Terminated(Decoded(torn));
  }

  /** A store that has read a file is right for the file that was cut and has grown again past its cursor
      exactly when the cursor is at a boundary there, and the new bytes between the last line that is
      left and the cursor replay to what the old ones did. */
  lemma RegrownIff(c: Codec, s: Store, seen: seq<byte>, n: nat, more: seq<byte>)
    requires Lawful(c) && Tracks(c, s, seen) && n <= |seen| <= n + |more|
    ensures var now, m := seen[..n] + more, LastBoundary(seen[..n]);
            var common := Replay(c, seen[..m]);
            UpTo(c, s, now) <==>
            && Boundary(now, |seen|)
            && ApplyText(c, common, Decoded(now[m..|seen|])) == ApplyText(c, common, Decoded(seen[m..]))
  {
    var now, m := seen[..n] + more, LastBoundary(seen[..n]);
    CommonPrefix(seen, n, more, m);
    ReplayConcat(c, seen[..m], seen[m..]);
    ReplayConcat(c, seen[..m], now[m..|seen|]);
  }

  lemma CommonPrefix(seen: seq<byte>, n: nat, more: seq<byte>, m: nat)
    requires m <= n <= |seen| <= n + |more| && Terminated(seen[..n][..m])
    ensures var now := seen[..n] + more;
            Terminated(seen[..m]) && seen == seen[..m] + seen[m..] && now[..|seen|] == seen[..m] + now[m..|seen|]
  {
    assert seen[..n][..m] == seen[..m];
  }

  /** A file that shrinks and grows back to the cursor between two stats is not noticed: its blank
      lines replay to nothing, the index keeps the key. */
  lemma RegrowthUnnoticed(c: Codec, r: ApiKey)
    requires Lawful(c)
    ensures var line := c.stringify(r) + [LF];
            var s := Store(map[r.keyId := r], |line|, 1);
            var blank := seq(|line|, _ => LF);
            && Tracks(c, s, line)
            && Sync(c, s, File(1, blank), File(1, blank)) == s
            && Replay(c, blank) == map[]
  {
    AppendRecordLine(c, [], r);
    assert [] + (c.stringify(r) + [LF]) == c.stringify(r) + [LF];
    EmptyReplay(c);
    BlankReplay(c, |c.stringify(r)| + 1);
  }

  lemma {:induction false} BlankReplay(c: Codec, n: nat)
    requires Lawful(c)
    ensures Replay(c, seq(n, _ => LF)) == map[]
  {
    EmptyReplay(c);
    if n == 0 {
      assert seq(n, _ => LF) == [];
    } else {
      BlankReplay(c, n - 1);
      assert seq(n, _ => LF) == seq(n - 1, _ => LF) + ([] + [LF]);
      ReplayConcat(c, seq(n - 1, _ => LF), [] + [LF]);
      CloseLine(c, map[], []);
    }
  }
}
