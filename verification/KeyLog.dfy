/** The tenant key log: JSON lines, replayed into an index of keys by
    `ApiKeyStore.applyLines` (src/auth/api-key-store.ts). */
module KeyLog {
  import opened Utf8
  import opened Wrappers

  datatype Scope = Read | Write | Admin | HeadlessOnly

  datatype ApiKey = ApiKey(
    keyId: string,
    keyHash: string,
    tenantId: string,
    scopes: seq<Scope>,
    createdAt: int,
    expiresAt: Option<int>,
    revokedAt: Option<int>,
    lastUsedAt: Option<int>,
    description: string)

  type Index = map<string, ApiKey>

  /** JavaScript truthiness of an optional number. */
  predicate Truthy(n: Option<int>) {
    n.Some? && n.value != 0
  }

  predicate RevokedIn(index: Index, keyId: string) {
    keyId in index && Truthy(index[keyId].revokedAt)
  }

  /** `JSON.stringify` of a record, and `JSON.parse` of a line with the checks that follow it:
      `None` for a line that is skipped. */
  datatype Codec = Codec(parse: seq<byte> -> Option<ApiKey>, stringify: ApiKey -> seq<byte>)

  /** What JSON guarantees: a printed record is one line of well-formed text that begins with an ASCII
      character and parses back, and neither the empty text nor a strict prefix of it is JSON. */
  ghost predicate Lawful(c: Codec) {
    && c.parse([]) == None
    && forall r ::
         && Decoded(c.stringify(r)) == c.stringify(r)
         && LF !in c.stringify(r)
         && (c.stringify(r) != [] ==> c.stringify(r)[0] < 0x80)
         && c.parse(c.stringify(r)) == Some(r)
         && forall k | 0 <= k < |c.stringify(r)| :: c.parse(Decoded(c.stringify(r)[..k])) == None
  }

  // ---- Replay -------------------------------------------------------------------------------

  /** Latest record wins, but a revocation is never cleared by a later record. */
  function ApplyRecord(index: Index, r: ApiKey): Index {
    if RevokedIn(index, r.keyId) && !Truthy(r.revokedAt)
    then index[r.keyId := r.(revokedAt := index[r.keyId].revokedAt)]
    else index[r.keyId := r]
  }

  /** All of the new record but a revocation of an older one that it lacks; a time 0 is none. */
  lemma ApplyRecordIs(index: Index, r: ApiKey)
    ensures var after := ApplyRecord(index, r);
            && after.Keys == index.Keys + {r.keyId}
            && (forall k <- index | k != r.keyId :: after[k] == index[k])
            && after[r.keyId].(revokedAt := r.revokedAt) == r
            && after[r.keyId].revokedAt ==
               if (r.revokedAt == None || r.revokedAt == Some(0)) && r.keyId in index
                  && index[r.keyId].revokedAt.Some? && index[r.keyId].revokedAt.value != 0
               then index[r.keyId].revokedAt
               else r.revokedAt
  {}

  function ApplyLine(c: Codec, index: Index, line: seq<byte>): Index {
    match c.parse(line)
    case None => index
    case Some(r) => ApplyRecord(index, r)
  }

  function FirstLF(text: seq<byte>): (i: nat)
    requires LF in text
    ensures i < |text| && text[i] == LF && LF !in text[..i]
  {
    if text[0] == LF then 0 else 1 + FirstLF(text[1..])
  }

  /** `text.split('\n')`. */
  function Split(text: seq<byte>): (lines: seq<seq<byte>>)
    ensures lines != []
    ensures forall line <- lines :: LF !in line
  {
    if LF !in text then [text]
    else [text[..FirstLF(text)]] + Split(text[FirstLF(text) + 1..])
  }

  /** Lines with a line feed between each two. */
  function Joined(lines: seq<seq<byte>>): seq<byte>
    requires lines != []
  {
    if |lines| == 1 then lines[0] else lines[0] + [LF] + Joined(lines[1..])
  }

  /** Splitting is the one way to cut a text into lines that join to it. */
  lemma {:induction false} SplitJoined(lines: seq<seq<byte>>)
    requires lines != [] && forall line <- lines :: LF !in line
    ensures Split(Joined(lines)) == lines
  {
    assert lines[0] in lines;
    if |lines| > 1 {
      SplitJoined(lines[1..]);
      SplitLine(lines[0], Joined(lines[1..]));
    }
  }

  lemma SplitLine(line: seq<byte>, rest: seq<byte>)
    requires LF !in line
    ensures Split(line + [LF] + rest) == [line] + Split(rest)
  {
    var text := line + [LF] + rest;
    assert text[|line|] == LF && text[..|line|] == line && text[|line| + 1..] == rest;
    FirstLFIs(text, |line|);
  }

  lemma {:induction false} JoinedSplit(text: seq<byte>)
    ensures Joined(Split(text)) == text
  {
    if LF in text {
      var i := FirstLF(text);
      JoinedSplit(text[i + 1..]);
      assert Split(text)[1..] == Split(text[i + 1..]);
      assert text == text[..i] + [LF] + text[i + 1..];
    }
  }

  function ApplyAll(c: Codec, index: Index, lines: seq<seq<byte>>): Index
    decreases |lines|
  {
    if lines == [] then index else ApplyAll(c, ApplyLine(c, index, lines[0]), lines[1..])
  }

  function ApplyText(c: Codec, index: Index, text: seq<byte>): Index {
    ApplyAll(c, index, Split(text))
  }

  /** The plain replay of a log: what a store that opens the file afresh makes of these bytes. */
  function Replay(c: Codec, bytes: seq<byte>): Index {
    ApplyText(c, map[], Decoded(bytes))
  }

  /** A position at the start of the file or just after a line feed. */
  predicate Boundary(bytes: seq<byte>, n: nat) {
    n <= |bytes| && Terminated(bytes[..n])
  }

  /** The last boundary: one more than the last index of a line feed, 0 when there is none. */
  function LastBoundary(bytes: seq<byte>): (n: nat)
    ensures Boundary(bytes, n) && LF !in bytes[n..]
    ensures forall m | n < m <= |bytes| :: !Boundary(bytes, m)
  {
    if Terminated(bytes) then |bytes|
    else
      var n := LastBoundary(bytes[..|bytes| - 1]);
      assert bytes[..|bytes| - 1][..n] == bytes[..n];
      assert bytes[n..] == bytes[..|bytes| - 1][n..] + [bytes[|bytes| - 1]];
      assert forall m | n < m < |bytes| :: bytes[..|bytes| - 1][..m] == bytes[..m];
      n
  }

  function Complete(bytes: seq<byte>): seq<byte> {
    bytes[..LastBoundary(bytes)]
  }

  /** The unterminated fragment a torn append leaves behind. */
  function Tail(bytes: seq<byte>): seq<byte> {
    bytes[LastBoundary(bytes)..]
  }

  lemma LastBoundaryIs(bytes: seq<byte>, n: nat)
    requires Boundary(bytes, n) && LF !in bytes[n..]
    ensures LastBoundary(bytes) == n
  {
    assert Boundary(bytes, LastBoundary(bytes));
  }

  // ---- Replay is additive over complete lines ------------------------------------------------

  lemma {:induction false} ApplyAllConcat(c: Codec, index: Index, a: seq<seq<byte>>, b: seq<seq<byte>>)
    ensures ApplyAll(c, index, a + b) == ApplyAll(c, ApplyAll(c, index, a), b)
    decreases |a|
  {
    if a == [] {
      assert a + b == b;
    } else {
      assert (a + b)[1..] == a[1..] + b;
      ApplyAllConcat(c, ApplyLine(c, index, a[0]), a[1..], b);
    }
  }

  lemma FirstLFIs(text: seq<byte>, i: nat)
    requires i < |text| && text[i] == LF && LF !in text[..i]
    ensures FirstLF(text) == i
  {
    assert text[FirstLF(text)] == LF;
  }

  lemma {:induction false} ApplyTextConcat(c: Codec, index: Index, a: seq<byte>, b: seq<byte>)
    requires Lawful(c) && Terminated(a)
    ensures ApplyText(c, index, a + b) == ApplyText(c, ApplyText(c, index, a), b)
    decreases |a|
  {
    if a == [] {
      assert a + b == b;
      assert Split(a) == [[]];
      assert ApplyAll(c, index, [[]]) == ApplyAll(c, ApplyLine(c, index, []), []) == index;
    } else {
      var i := FirstLF(a);
      assert (a + b)[..i] == a[..i];
      FirstLFIs(a + b, i);
      assert (a + b)[i + 1..] == a[i + 1..] + b;
      var index' := ApplyLine(c, index, a[..i]);
      ApplyTextConcat(c, index', a[i + 1..], b);
      assert forall t: seq<byte>, x: seq<byte>, y: Index :: ApplyAll(c, y, [x] + Split(t)) == ApplyText(c, ApplyLine(c, y, x), t) by {
        forall t: seq<byte>, x: seq<byte>, y: Index
          ensures ApplyAll(c, y, [x] + Split(t)) == ApplyText(c, ApplyLine(c, y, x), t)
        {
          assert ([x] + Split(t))[1..] == Split(t);
        }
      }
    }
  }

  lemma EmptyReplay(c: Codec)
    requires Lawful(c)
    ensures Replay(c, []) == map[]
  {
    assert ApplyAll(c, map[], [[]]) == ApplyAll(c, ApplyLine(c, map[], []), []) == map[];
  }

  /** Replaying a log is replaying its first lines and applying the others to the result. */
  lemma ReplayConcat(c: Codec, a: seq<byte>, b: seq<byte>)
    requires Lawful(c) && Terminated(a)
    ensures Replay(c, a + b) == ApplyText(c, Replay(c, a), Decoded(b))
  {
    DecodedConcat(a, b);
    DecodedTerminated(a);
    ApplyTextConcat(c, map[], Decoded(a), Decoded(b));
  }

  lemma DecodedTerminated(a: seq<byte>)
    requires Terminated(a)
    ensures Terminated(Decoded(a))
  {
    DecodedLines(a);
  }

  /** Applying one line that is followed by a line feed. */
  lemma ApplyOneLine(c: Codec, index: Index, line: seq<byte>)
    requires Lawful(c) && LF !in line
    ensures ApplyText(c, index, line + [LF]) == ApplyLine(c, index, line)
  {
    var text := line + [LF];
    assert text[|line|] == LF && text[..|line|] == line && text[|line| + 1..] == [];
    FirstLFIs(text, |line|);
    assert Split(text) == [line] + Split([]);
    assert Split(text)[1..] == [[]];
    assert ApplyAll(c, ApplyLine(c, index, line), [[]]) == ApplyLine(c, index, line);
  }

  /** Every record is filed under its own key id. */
  ghost predicate Keyed(index: Index) {
    forall k <- index :: index[k].keyId == k
  }

  lemma {:induction false} ReplayKeyed(c: Codec, index: Index, lines: seq<seq<byte>>)
    requires Keyed(index)
    ensures Keyed(ApplyAll(c, index, lines))
    decreases |lines|
  {
    if lines != [] {
      ReplayKeyed(c, ApplyLine(c, index, lines[0]), lines[1..]);
    }
  }

  // ---- Revocation is permanent ----------------------------------------------------------------

  lemma {:induction false} RevokedStaysApplied(c: Codec, index: Index, lines: seq<seq<byte>>, keyId: string)
    requires RevokedIn(index, keyId)
    ensures RevokedIn(ApplyAll(c, index, lines), keyId)
    decreases |lines|
  {
    if lines != [] {
      RevokedStaysApplied(c, ApplyLine(c, index, lines[0]), lines[1..], keyId);
    }
  }

  /** Once the complete lines of a log revoke a key, no bytes appended to it, well-formed or not,
      make the key active in any replay. */
  lemma RevokedForever(c: Codec, log: seq<byte>, appended: seq<byte>, keyId: string)
    requires Lawful(c) && Terminated(log) && RevokedIn(Replay(c, log), keyId)
    ensures RevokedIn(Replay(c, log + appended), keyId)
  {
    ReplayConcat(c, log, appended);
    RevokedStaysApplied(c, Replay(c, log), Split(Decoded(appended)), keyId);
  }

  /** A key that is known stays known, whatever follows in the log. */
  lemma {:induction false} KnownStaysApplied(c: Codec, index: Index, lines: seq<seq<byte>>, keyId: string)
    requires keyId in index
    ensures keyId in ApplyAll(c, index, lines)
    decreases |lines|
  {
    if lines != [] {
      KnownStaysApplied(c, ApplyLine(c, index, lines[0]), lines[1..], keyId);
    }
  }

  lemma KnownForever(c: Codec, log: seq<byte>, appended: seq<byte>, keyId: string)
    requires Lawful(c) && Terminated(log) && keyId in Replay(c, log)
    ensures keyId in Replay(c, log + appended)
  {
    ReplayConcat(c, log, appended);
    KnownStaysApplied(c, Replay(c, log), Split(Decoded(appended)), keyId);
  }
}
