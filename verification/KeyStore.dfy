/** The store object itself: its fields are updated in place, its log is a shared file. Each method
    is proved against the step functions of KeySync and the plain replay of KeyLog. */
module KeyStore {
  import opened Utf8
  import opened Unicode
  import opened KeyLog
  import opened KeySync
  import opened KeyRuns
  import opened KeyMarks
  import opened Wrappers

  datatype CreateInput = CreateInput(tenantId: string, scopes: seq<Scope>, description: string, expiresAt: Option<int>)

  /** What `computeKeyId` and argon2 make of a new random secret, and the time of the call. */
  datatype Minted = Minted(keyId: string, keyHash: string, now: int)

  /** The old key is revoked, one key is new and like it, and all others are as they were. */
  predicate Rotated(before: Index, after: Index, oldId: string, newId: string, r: ApiKey) {
    && oldId in before && RevokedIn(after, oldId)
    && after.Keys == before.Keys + {newId}
    && newId in after && after[newId] == r && r.revokedAt == None
    && r.tenantId == before[oldId].tenantId && r.scopes == before[oldId].scopes
    && r.expiresAt == before[oldId].expiresAt && r.description == before[oldId].description
    && forall k <- before | k != oldId :: k in after && after[k] == before[k]
  }

  lemma RotatedAfter(before: Index, between: Index, oldId: string, now: int, newId: string, r: ApiKey)
    requires oldId in before && newId !in before && newId != oldId && now > 0
    requires between == if RevokedIn(before, oldId) then before else before[oldId := before[oldId].(revokedAt := Some(now))]
    requires r.revokedAt == None && r.tenantId == before[oldId].tenantId && r.scopes == before[oldId].scopes
    requires r.expiresAt == before[oldId].expiresAt && r.description == before[oldId].description
    ensures Rotated(before, between[newId := r], oldId, newId, r)
  {}

  class LogFile {
    var state: File
  }

  class ApiKeyStore {
    const codec: Codec
    const log: LogFile
    var index: Index
    var lastReadSize: nat
    var lastReadIno: nat

    function Fields(): Store
      reads this
    {
      Store(index, lastReadSize, lastReadIno)
    }

    /** The keys on disk: the plain replay of the complete lines of the log. */
    ghost function Keys(): Index
      reads this, log
    {
      if log.state.File? then Replay(codec, Complete(log.state.bytes)) else map[]
    }

    /** The log is missing or can be appended to, and the fields are up to date with a prefix of it if
        they are about this inode at all. */
    ghost predicate Valid()
      reads this, log
    {
      && Lawful(codec)
      && (log.state.File? ==> log.state.ino != 0 && Clean(codec, log.state.bytes))
      && (lastReadIno == 0 ==> Fields() == EMPTY)
      && (log.state.File? && lastReadIno == log.state.ino && lastReadSize <= |log.state.bytes| ==>
            UpTo(codec, Fields(), log.state.bytes))
    }

    /** `open`: a missing file is created, and the first sync runs. */
    constructor (codec: Codec, log: LogFile)
      requires Lawful(codec)
      requires log.state.File? ==> log.state.ino != 0 && Clean(codec, log.state.bytes)
      modifies log
      ensures Valid() && this.codec == codec && this.log == log
      ensures log.state == if old(log.state).File? then old(log.state) else File(1, [])
      ensures index == Keys() && lastReadIno == log.state.ino && lastReadSize == LastBoundary(log.state.bytes)
    {
      this.codec, this.log := codec, log;
      index, lastReadSize, lastReadIno := map[], 0, 0;
      new;
      EnsureFile();
      DoSyncFromDisk();
    }

    /** `withLock` and `open` create a missing file; its inode is not the one last read. */
    method EnsureFile()
      requires Valid()
      modifies log
      ensures Valid() && Keys() == old(Keys())
      ensures log.state == if old(log.state).File? then old(log.state) else File(lastReadIno + 1, [])
    {
      if log.state.Missing? {
        log.state := File(lastReadIno + 1, []);
        EmptyReplay(codec);
        assert Complete([]) == [] && Tail([]) == [];
      }
    }

    method ApplyLines(text: seq<byte>)
      modifies this`index
      ensures index == ApplyText(codec, old(index), text)
    {
      var lines := Split(text);
      var n := 0;
      while n < |lines|
        invariant n <= |lines|
        invariant ApplyAll(codec, index, lines[n..]) == ApplyAll(codec, old(index), lines)
      {
        var parsed := codec.parse(lines[n]);
        if parsed.Some? {
          var r := parsed.value;
          if r.keyId in index && Truthy(index[r.keyId].revokedAt) && !Truthy(r.revokedAt) {
            r := r.(revokedAt := index[r.keyId].revokedAt);
          }
          index := index[r.keyId := r];
        }
        n := n + 1;
      }
    }

    /** Another inode than the one last read, or a file shorter than the cursor. */
    predicate Replaced()
      reads this, log
    {
      log.state.File? && ((lastReadIno != 0 && log.state.ino != lastReadIno) || |log.state.bytes| < lastReadSize)
    }

    method StatStep() returns (upTo: Option<nat>)
      modifies this
      ensures (Fields(), upTo) == Stat(old(Fields()), log.state)
      ensures log.state.Missing? ==> index == map[] && lastReadSize == 0 && lastReadIno == 0 && upTo == None
      ensures log.state.File? ==>
                && index == (if old(Replaced()) then map[] else old(index))
                && lastReadSize == (if old(Replaced()) then 0 else old(lastReadSize))
                && lastReadIno == log.state.ino
                && upTo == if |log.state.bytes| == lastReadSize then None else Some(|log.state.bytes|)
    {
      if log.state.Missing? {
        index, lastReadSize, lastReadIno := map[], 0, 0;
        return None;
      }
      if (lastReadIno != 0 && log.state.ino != lastReadIno) || |log.state.bytes| < lastReadSize {
        index, lastReadSize := map[], 0;
      }
      lastReadIno := log.state.ino;
      upTo := if |log.state.bytes| == lastReadSize then None else Some(|log.state.bytes|);
    }

    /** Nothing to read leaves all as it was, a short read empties the fields, and otherwise exactly the complete
        lines of the bytes up to the size are applied; the cursor moves by their length as text. */
    method ReadStep(upTo: nat)
      modifies this
      ensures Fields() == ReadUpTo(codec, old(Fields()), upTo, log.state)
      ensures log.state.Missing? || |log.state.bytes| <= old(lastReadSize) || upTo <= old(lastReadSize) ==> unchanged(this)
      ensures log.state.File? && old(lastReadSize) < |log.state.bytes| < upTo ==>
                index == map[] && lastReadSize == 0 && lastReadIno == 0
      ensures log.state.File? && old(lastReadSize) < upTo <= |log.state.bytes| ==>
                && lastReadIno == old(lastReadIno)
                && var chunk := log.state.bytes[old(lastReadSize)..upTo];
                   var lines := chunk[..LastBoundary(chunk)];
                   && lastReadSize == old(lastReadSize) + |Decoded(lines)|
                   && index == if lines == [] then old(index) else ApplyText(codec, old(index), Decoded(lines))
    {
      if log.state.File? && lastReadSize < upTo <= |log.state.bytes| {
        CompleteDecoded(log.state.bytes[lastReadSize..upTo]);
      }
      if log.state.Missing? || |log.state.bytes| <= lastReadSize || upTo <= lastReadSize {
        return;
      }
      if |log.state.bytes| < upTo {
        index, lastReadSize, lastReadIno := map[], 0, 0;
        return;
      }
      var text := Decoded(log.state.bytes[lastReadSize..upTo]);
      var complete := Complete(text);
      if complete == [] {
        return;
      }
      ApplyLines(complete);
      lastReadSize := lastReadSize + |complete|;
    }

    method DoSyncFromDisk()
      requires Valid()
      modifies this
      ensures Valid() && Fields() == Sync(codec, old(Fields()), log.state, log.state)
      ensures index == Keys()
      ensures log.state.File? ==> lastReadIno == log.state.ino && lastReadSize == LastBoundary(log.state.bytes)
      ensures log.state.Missing? ==> Fields() == EMPTY
      ensures log.state.File? && Text(Complete(log.state.bytes)) ==>
                index == ApplyText(codec, map[], Complete(log.state.bytes))
    {
      if log.state.File? {
        SyncCatchesUp(codec, Fields(), log.state);
        if Text(Complete(log.state.bytes)) {
          SyncOfText(codec, Fields(), log.state);
        }
      }
      var upTo := StatStep();
      if upTo.Some? {
        ReadStep(upTo.value);
      }
    }

    method AppendRecord(r: ApiKey)
      requires log.state.File?
      modifies this, log
      ensures log.state == File(old(log.state.ino), old(log.state.bytes) + AppendedLine(codec, old(log.state.bytes), r))
      ensures Fields() == AfterAppend(old(Fields()), log.state, r)
      ensures log.state.bytes ==
              old(log.state.bytes)
              + (if old(log.state.bytes) != [] && old(log.state.bytes)[|old(log.state.bytes)| - 1] != 0x0A then [0x0A] else [])
              + codec.stringify(r) + [0x0A]
      ensures index == old(index)[r.keyId := r]
      ensures lastReadSize == |log.state.bytes| && lastReadIno == log.state.ino
    {
      var line := codec.stringify(r) + [LF];
      var bytes := log.state.bytes;
      if |bytes| > 0 && bytes[|bytes| - 1] != LF {
        line := [LF] + line;
      }
      log.state := File(log.state.ino, bytes + line);
      lastReadSize, lastReadIno := |log.state.bytes|, log.state.ino;
      index := index[r.keyId := r];
    }

    /** A critical section: what `create`, `revoke` and `touchLastUsed` do inside the lock. */
    method Commit(op: Op)
      requires Valid() && Sound(op, Keys())
      modifies this, log
      ensures Valid() && log.state.File? && index == Keys()
      ensures old(log.state).File? ==> log.state.ino == old(log.state.ino) && old(log.state.bytes) <= log.state.bytes
      ensures Keys() == match Decide(op, old(Keys()))
                        case None => old(Keys())
                        case Some(r) => old(Keys())[r.keyId := r]
    {
      EnsureFile();
      DoSyncFromDisk();
      var d := Decide(op, index);
      if d.Some? {
        CommitReplays(codec, op, log.state.bytes);
        AppendedClean(codec, log.state.bytes, d.value);
        AppendRecord(d.value);
      }
    }

    method Create(input: CreateInput, minted: Minted) returns (r: Result<ApiKey, string>)
      requires Valid() && !RevokedIn(Keys(), minted.keyId)
      modifies this, log
      ensures Valid()
      ensures r.Err? <==> |input.tenantId| == 0 || input.scopes == []
      ensures r.Err? ==> Keys() == old(Keys())
      ensures r.Ok? ==>
                && Keys() == old(Keys())[minted.keyId := r.value] && index == Keys()
                && r.value.keyId == minted.keyId && r.value.keyHash == minted.keyHash
                && r.value.tenantId == input.tenantId && r.value.scopes == input.scopes
                && r.value.expiresAt == input.expiresAt && r.value.description == input.description
                && r.value.createdAt == minted.now && r.value.revokedAt == None && r.value.lastUsedAt == None
    {
      if |input.tenantId| == 0 {
        return Err("tenantId is required");
      }
      if input.scopes == [] {
        return Err("at least one scope is required");
      }
      var record := ApiKey(minted.keyId, minted.keyHash, input.tenantId, input.scopes, minted.now,
                           input.expiresAt, None, None, input.description);
      Commit(Op.Create(record));
      r := Ok(record);
    }

    lemma KeysKeyed()
      ensures Keyed(Keys())
    {
      if log.state.File? {
        ReplayKeyed(codec, map[], Split(Decoded(Complete(log.state.bytes))));
      }
    }

    method Revoke(keyId: string, now: int) returns (known: bool)
      requires Valid() && now > 0
      modifies this, log
      ensures Valid()
      ensures known <==> keyId in old(Keys())
      ensures known ==> RevokedIn(Keys(), keyId)
      ensures Keys() == if known && !RevokedIn(old(Keys()), keyId)
                        then old(Keys())[keyId := old(Keys())[keyId].(revokedAt := Some(now))]
                        else old(Keys())
    {
      KeysKeyed();
      Commit(Op.Revoke(keyId, now));
      known := keyId in index;
    }

    method TouchLastUsed(keyId: string, now: int)
      requires Valid()
      modifies this, log
      ensures Valid()
      ensures Keys() == if keyId in old(Keys()) then old(Keys())[keyId := old(Keys())[keyId].(lastUsedAt := Some(now))]
                        else old(Keys())
      ensures forall k :: RevokedIn(Keys(), k) <==> RevokedIn(old(Keys()), k)
    {
      KeysKeyed();
      Commit(Touch(keyId, now));
    }

    /** Leaves the old key revoked and adds one key with the same tenant, scopes, description and
        expiry, unless the stored tenant or scope list is empty: then the old key is revoked and the
        call fails. `minted` is a secret of its own. */
    method Rotate(keyId: string, now: int, minted: Minted) returns (r: Result<ApiKey, string>)
      requires Valid() && now > 0
      requires minted.keyId != keyId && minted.keyId !in Keys()
      modifies this, log
      ensures Valid()
      ensures r.Ok? <==> keyId in old(Keys()) && |old(Keys())[keyId].tenantId| > 0 && old(Keys())[keyId].scopes != []
      ensures keyId !in old(Keys()) ==> Keys() == old(Keys())
      ensures keyId in old(Keys()) && r.Err? ==>
                RevokedIn(Keys(), keyId) && Keys().Keys == old(Keys()).Keys
                && forall k <- old(Keys()) | k != keyId :: Keys()[k] == old(Keys())[k]
      ensures r.Ok? ==> Rotated(old(Keys()), Keys(), keyId, minted.keyId, r.value)
    {
      ghost var before := Keys();
      DoSyncFromDisk();
      if keyId !in index {
        return Err("unknown keyId: " + keyId);
      }
      var prior := index[keyId];
      var _ := Revoke(keyId, now);
      ghost var between := Keys();
      r := Create(CreateInput(prior.tenantId, prior.scopes, prior.description, prior.expiresAt), minted);
      if r.Ok? {
        RotatedAfter(before, between, keyId, now, minted.keyId, r.value);
      }
    }

    /** `keyId` is what `computeKeyId` makes of a plaintext with the key prefix, `matches` whether
        argon2 accepts the plaintext for a stored hash. */
    method Verify(keyId: Option<string>, now: int, matches: string -> bool) returns (r: Option<ApiKey>)
      requires Valid()
      modifies this
      ensures Valid() && Keys() == old(Keys())
      ensures r.Some? <==>
                && keyId.Some? && keyId.value in Keys()
                && (var k := Keys()[keyId.value];
                    k.revokedAt == None && (k.expiresAt.Some? ==> now <= k.expiresAt.value) && matches(k.keyHash))
      ensures r.Some? ==> r.value == Keys()[keyId.value]
    {
      DoSyncFromDisk();
      if keyId.Some? && keyId.value in index {
        var found := index[keyId.value];
        var expired := found.expiresAt.Some? && found.expiresAt.value < now;
        if !found.revokedAt.Some? && !expired && matches(found.keyHash) {
          return Some(found);
        }
      }
      r := None;
    }
  }

  /** A sync that nothing interrupts reaches the last boundary of the log. */
  lemma SyncCatchesUp(c: Codec, s: Store, f: File)
    requires Lawful(c) && f.File? && f.ino != 0 && LengthPreserved(Complete(f.bytes))
    requires s.ino == 0 ==> s == EMPTY
    requires s.ino == f.ino && s.size <= |f.bytes| ==> UpTo(c, s, f.bytes)
    ensures var s' := Sync(c, s, f, f);
            && s'.ino == f.ino && s'.size == LastBoundary(f.bytes) && UpTo(c, s', f.bytes)
            && s'.index == Replay(c, Complete(f.bytes))
  {
    var w := World(f, None, [], {f.ino, s.ino});
    StatKeepsStore(c, w, s);
    var (s1, upTo) := Stat(s, f);
    if upTo.Some? {
      TakenPreserved(f.bytes, s1.size, upTo.value);
      ReadKeepsUpTo(c, s1, upTo.value, f);
      assert f.bytes[..upTo.value] == f.bytes;
    } else {
      NothingToRead(c, s1, f.bytes);
      assert f.bytes[..s1.size] == f.bytes;
      LastBoundaryIs(f.bytes, s1.size);
    }
  }

  /** When the complete lines are the UTF-8 of any text, the records are those of the bytes as they stand:
      no character is replaced, and the cursor is just behind the last line feed, whatever the torn tail. */
  lemma SyncOfText(c: Codec, s: Store, f: File)
    requires Lawful(c) && f.File? && f.ino != 0 && Text(Complete(f.bytes))
    requires s.ino == 0 ==> s == EMPTY
    requires s.ino == f.ino && s.size <= |f.bytes| ==> UpTo(c, s, f.bytes)
    ensures Sync(c, s, f, f) == Store(ApplyText(c, map[], Complete(f.bytes)), LastBoundary(f.bytes), f.ino)
  {
    DecodedSameIff(Complete(f.bytes));
    SyncCatchesUp(c, s, f);
  }

  /** An append to a clean log leaves only complete lines. */
  lemma AppendedClean(c: Codec, bytes: seq<byte>, r: ApiKey)
    requires Lawful(c) && Clean(c, bytes)
    ensures var bytes' := bytes + AppendedLine(c, bytes, r);
            Clean(c, bytes') && Complete(bytes') == bytes'
  {
    AppendedReplay(c, bytes, r);
    var bytes' := bytes + AppendedLine(c, bytes, r);
    assert LastBoundary(bytes') == |bytes'|;
    assert Complete(bytes') == bytes' && Tail(bytes') == [];
  }

  /** The append of a decided record replays to the index with that record set. */
  lemma CommitReplays(c: Codec, op: Op, bytes: seq<byte>)
    requires Lawful(c) && Clean(c, bytes)
    requires var keys := Replay(c, Complete(bytes)); Sound(op, keys) && Decide(op, keys).Some?
    ensures var keys := Replay(c, Complete(bytes));
            var r := Decide(op, keys).value;
            var bytes' := bytes + AppendedLine(c, bytes, r);
            Replay(c, bytes') == keys[r.keyId := r]
  {
    var keys := Replay(c, Complete(bytes));
    ReplayKeyed(c, map[], Split(Decoded(Complete(bytes))));
    DecidedRecord(op, keys);
    AppendedReplay(c, bytes, Decide(op, keys).value);
  }
}
