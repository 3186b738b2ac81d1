/** The steps of `ApiKeyStore` between two awaits, as functions of the store's fields and of the
    file as it is at that moment (src/auth/api-key-store.ts). */
module KeySync {
  import opened Utf8
  import opened KeyLog
  import opened Wrappers

  datatype File = Missing | File(ino: nat, bytes: seq<byte>)

  /** `index`, `lastReadSize` and `lastReadIno`. */
  datatype Store = Store(index: Index, size: nat, ino: nat)

  const EMPTY: Store := Store(map[], 0, 0)

  /** A file replaced by another inode, or shorter than the cursor, is replayed from the start. */
  predicate Resets(s: Store, f: File)
    requires f.File?
  {
    (s.ino != 0 && f.ino != s.ino) || |f.bytes| < s.size
  }

  /** `doSyncFromDisk` up to its read: the new fields, and the size to read up to if any. */
  function Stat(s: Store, f: File): (Store, Option<nat>) {
    if f.Missing? then (EMPTY, None)
    else
      var s' := (if Resets(s, f) then EMPTY else s).(ino := f.ino);
      (s', if |f.bytes| == s'.size then None else Some(|f.bytes|))
  }

  /** The rest of `doSyncFromDisk`; the file may have changed since the stat. */
  function ReadUpTo(c: Codec, s: Store, upTo: nat, f: File): Store {
    if f.Missing? || |f.bytes| <= s.size || upTo <= s.size then s
    else if |f.bytes| < upTo then EMPTY
    else
      var text := Decoded(f.bytes[s.size..upTo]);
      var complete := Complete(text);
      if complete == [] then s
      else Store(ApplyText(c, s.index, complete), s.size + |complete|, s.ino)
  }

  function Sync(c: Codec, s: Store, atStat: File, atRead: File): Store {
    var (s', upTo) := Stat(s, atStat);
    if upTo.None? then s' else ReadUpTo(c, s', upTo.value, atRead)
  }

  /** What `appendRecord` writes: a torn tail is first closed with a line feed. */
  function AppendedLine(c: Codec, bytes: seq<byte>, r: ApiKey): seq<byte> {
    var line := c.stringify(r) + [LF];
    if bytes != [] && bytes[|bytes| - 1] != LF then [LF] + line else line
  }

  /** The store after `appendRecord` and the `index.set` that follows it: the cursor moves to the
      end of the file, over bytes that were never read. */
  function AfterAppend(s: Store, f: File, r: ApiKey): Store
    requires f.File?
  {
    Store(s.index[r.keyId := r], |f.bytes|, f.ino)
  }

  // ---- Incremental equals batch ----------------------------------------------------------------

  /** The index is the plain replay of `seen`, the bytes before the cursor. */
  ghost predicate Tracks(c: Codec, s: Store, seen: seq<byte>) {
    |seen| == s.size && Terminated(seen) && s.index == Replay(c, seen)
  }

  /** Cutting the decoded text at its last line feed is decoding the complete lines. */
  lemma CompleteDecoded(chunk: seq<byte>)
    ensures Complete(Decoded(chunk)) == Decoded(Complete(chunk))
  {
    var n := LastBoundary(chunk);
    var lines, tail := Decoded(chunk[..n]), Decoded(chunk[n..]);
    assert chunk == chunk[..n] + chunk[n..];
    DecodedConcat(chunk[..n], chunk[n..]);
    DecodedLines(chunk[..n]);
    DecodedLines(chunk[n..]);
    assert (lines + tail)[..|lines|] == lines && (lines + tail)[|lines|..] == tail;
    LastBoundaryIs(lines + tail, |lines|);
  }

  /** One read: the index still is the plain replay of what was taken, and the cursor still counts
      it exactly when decoding preserves the length of the complete lines just read. */
  lemma ReadTracks(c: Codec, s: Store, seen: seq<byte>, upTo: nat, f: File)
    requires Lawful(c) && Tracks(c, s, seen) && f.File? && s.size < upTo <= |f.bytes|
    ensures var s', taken := ReadUpTo(c, s, upTo, f), Complete(f.bytes[s.size..upTo]);
            && s'.index == Replay(c, seen + taken)
            && Terminated(seen + taken)
            && (Tracks(c, s', seen + taken) <==> !HasShortSubpart(taken))
  {
    var chunk := f.bytes[s.size..upTo];
    CompleteDecoded(chunk);
    ReplayConcat(c, seen, Complete(chunk));
    LengthPreservedIff(Complete(chunk));
    if Complete(chunk) == [] {
      assert seen + Complete(chunk) == seen;
    }
  }

  // ---- Appends -----------------------------------------------------------------------------------

  datatype Op = Create(record: ApiKey) | Revoke(keyId: string, now: int) | Touch(keyId: string, now: int)

  /** The record `create`, `revoke` or `touchLastUsed` appends after its sync, if any. */
  function Decide(op: Op, index: Index): Option<ApiKey> {
    match op
    case Create(r) => Some(r)
    case Revoke(k, now) =>
      if k in index && !Truthy(index[k].revokedAt) then Some(index[k].(revokedAt := Some(now))) else None
    case Touch(k, now) =>
      if k in index then Some(index[k].(lastUsedAt := Some(now))) else None
  }

  /** A torn tail that a later append may close: it is no record, and decoding keeps its length. */
  predicate HarmlessTail(c: Codec, bytes: seq<byte>) {
    c.parse(Decoded(Tail(bytes))) == None && LengthPreserved(Tail(bytes))
  }

  lemma CloseLine(c: Codec, index: Index, line: seq<byte>)
    requires Lawful(c) && LF !in line
    ensures ApplyText(c, index, Decoded(line + [LF])) == ApplyLine(c, index, Decoded(line))
    ensures LengthPreserved(line + [LF]) <==> LengthPreserved(line)
  {
    assert FirstChunk([LF]) == Chunk(1, true);
    assert Decoded([LF]) == [LF] + Decoded([]) == [LF];
    DecodedConcat(line, [LF]);
    DecodedLines(line);
    ApplyOneLine(c, index, Decoded(line));
  }

  /** Closing the torn tail with a line feed makes it a line of the log. */
  lemma CloseTail(c: Codec, bytes: seq<byte>)
    requires Lawful(c)
    ensures Replay(c, bytes + [LF]) == ApplyLine(c, Replay(c, Complete(bytes)), Decoded(Tail(bytes)))
    ensures LengthPreserved(bytes + [LF]) <==> LengthPreserved(Complete(bytes)) && LengthPreserved(Tail(bytes))
  {
    assert bytes + [LF] == Complete(bytes) + (Tail(bytes) + [LF]);
    ReplayConcat(c, Complete(bytes), Tail(bytes) + [LF]);
    CloseLine(c, Replay(c, Complete(bytes)), Tail(bytes));
    LengthPreservedConcat(Complete(bytes), Tail(bytes) + [LF]);
  }

  lemma AppendRecordLine(c: Codec, bytes: seq<byte>, r: ApiKey)
    requires Lawful(c) && Terminated(bytes)
    ensures var bytes' := bytes + (c.stringify(r) + [LF]);
            && Replay(c, bytes') == ApplyRecord(Replay(c, bytes), r)
            && (LengthPreserved(bytes') <==> LengthPreserved(bytes))
  {
    ReplayConcat(c, bytes, c.stringify(r) + [LF]);
    CloseLine(c, Replay(c, bytes), c.stringify(r));
    LengthPreservedConcat(bytes, c.stringify(r) + [LF]);
  }

  /** What one append does to the log: the torn tail, if any, becomes a line of its own. */
  lemma AppendedReplay(c: Codec, bytes: seq<byte>, r: ApiKey)
    requires Lawful(c)
    ensures var bytes' := bytes + AppendedLine(c, bytes, r);
            && Terminated(bytes') && bytes' != []
            && Replay(c, bytes') == ApplyRecord(ApplyLine(c, Replay(c, Complete(bytes)), Decoded(Tail(bytes))), r)
            && (LengthPreserved(bytes') <==> LengthPreserved(Complete(bytes)) && LengthPreserved(Tail(bytes)))
  {
    var line := c.stringify(r) + [LF];
    if bytes != [] && bytes[|bytes| - 1] != LF {
      assert bytes + AppendedLine(c, bytes, r) == (bytes + [LF]) + line;
      CloseTail(c, bytes);
      AppendRecordLine(c, bytes + [LF], r);
    } else {
      assert Terminated(bytes) && Complete(bytes) == bytes && Tail(bytes) == [];
      AppendRecordLine(c, bytes, r);
    }
  }

  /** Whether the index a writer keeps after its append is the plain replay of the whole file:
      the writer skips the torn tail, so the tail must change nothing it keeps, and the record must
      not clear a revocation. */
  predicate AppendAgrees(c: Codec, index: Index, tail: seq<byte>, r: ApiKey) {
    var index' := ApplyLine(c, index, Decoded(tail));
    && !(RevokedIn(index', r.keyId) && !Truthy(r.revokedAt))
    && (index' == index || (c.parse(Decoded(tail)).value.keyId == r.keyId))
  }

  lemma SkippedLineIff(index: Index, t: Option<ApiKey>, r: ApiKey)
    ensures var index' := if t.Some? then ApplyRecord(index, t.value) else index;
            index[r.keyId := r] == ApplyRecord(index', r)
            <==> !(RevokedIn(index', r.keyId) && !Truthy(r.revokedAt)) && (index' == index || t.value.keyId == r.keyId)
  {
    var index' := if t.Some? then ApplyRecord(index, t.value) else index;
    assert ApplyRecord(index', r)[r.keyId] == r <==> !(RevokedIn(index', r.keyId) && !Truthy(r.revokedAt));
    if t.Some? && t.value.keyId != r.keyId {
      var k := t.value.keyId;
      assert index' == index[k := index'[k]];
      assert index[r.keyId := r] == ApplyRecord(index', r) ==> (k in index <==> k in ApplyRecord(index', r));
      assert k in index && index[k] == index'[k] ==> index' == index;
    }
  }

  lemma AppendAgreesIff(c: Codec, s: Store, bytes: seq<byte>, r: ApiKey)
    requires Lawful(c) && Tracks(c, s, Complete(bytes))
    ensures var bytes' := bytes + AppendedLine(c, bytes, r);
            var s' := AfterAppend(s, File(s.ino, bytes'), r);
            Tracks(c, s', bytes') <==> AppendAgrees(c, s.index, Tail(bytes), r)
  {
    AppendedReplay(c, bytes, r);
    SkippedLineIff(s.index, c.parse(Decoded(Tail(bytes))), r);
  }
}
