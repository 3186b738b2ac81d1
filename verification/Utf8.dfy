/** UTF-8 as a Node `Buffer` decodes it: every ill-formed maximal subpart becomes U+FFFD
    (Unicode Standard, section 3.9, "U+FFFD Substitution of Maximal Subparts"). */
module Utf8 {
  newtype byte = x: int | 0 <= x < 256

  const LF: byte := 0x0A

  /** U+FFFD in UTF-8. */
  const REPLACEMENT: seq<byte> := [0xEF, 0xBF, 0xBD]

  /** The first maximal subpart of a byte string, and whether it is a well-formed code point. */
  datatype Chunk = Chunk(len: nat, wellFormed: bool)

  predicate Continuation(b: byte) { 0x80 <= b <= 0xBF }

  function SequenceLength(lead: byte): nat {
    if lead <= 0x7F then 1
    else if 0xC2 <= lead <= 0xDF then 2
    else if 0xE0 <= lead <= 0xEF then 3
    else if 0xF0 <= lead <= 0xF4 then 4
    else 0
  }

  /** The second byte of a three or four byte sequence has a range of its own (table 3-7). */
  predicate SecondByte(lead: byte, b: byte) {
    if lead == 0xE0 then 0xA0 <= b <= 0xBF
    else if lead == 0xED then 0x80 <= b <= 0x9F
    else if lead == 0xF0 then 0x90 <= b <= 0xBF
    else if lead == 0xF4 then 0x80 <= b <= 0x8F
    else Continuation(b)
  }

  function FirstChunk(s: seq<byte>): (c: Chunk)
    requires s != []
    ensures 1 <= c.len <= |s|
    ensures !c.wellFormed ==> c.len <= 3
    ensures c.len > 1 ==> forall i | 0 <= i < c.len :: s[i] >= 0x80
  {
    var n := SequenceLength(s[0]);
    if n == 0 then Chunk(1, false)
    else if n == 1 then Chunk(1, true)
    else if |s| < 2 || !SecondByte(s[0], s[1]) then Chunk(1, false)
    else if n == 2 then Chunk(2, true)
    else if |s| < 3 || !Continuation(s[2]) then Chunk(2, false)
    else if n == 3 then Chunk(3, true)
    else if |s| < 4 || !Continuation(s[3]) then Chunk(3, false)
    else Chunk(4, true)
  }

  function Head(s: seq<byte>): seq<byte>
    requires s != []
  {
    var c := FirstChunk(s);
    if c.wellFormed then s[..c.len] else REPLACEMENT
  }

  /** The UTF-8 bytes of `buf.toString('utf8')`. */
  function Decoded(s: seq<byte>): (t: seq<byte>)
    ensures |t| >= |s|
  {
    if s == [] then []
    else
      var c := FirstChunk(s);
      Head(s) + Decoded(s[c.len..])
  }

  /** `Buffer.byteLength(buf.toString('utf8')) === buf.length`. */
  predicate LengthPreserved(s: seq<byte>) {
    |Decoded(s)| == |s|
  }

  predicate Terminated(s: seq<byte>) {
    s == [] || s[|s| - 1] == LF
  }

  /** What follows a line feed, or begins with an ASCII byte, never continues a subpart. */
  predicate Separate(a: seq<byte>, b: seq<byte>) {
    Terminated(a) || (b != [] && b[0] < 0x80)
  }

  lemma Associative(x: seq<byte>, y: seq<byte>, z: seq<byte>)
    ensures x + (y + z) == (x + y) + z
  {}

  lemma FirstChunkConcat(a: seq<byte>, b: seq<byte>)
    requires a != [] && Separate(a, b)
    ensures FirstChunk(a + b) == FirstChunk(a) && Head(a + b) == Head(a)
  {
    var s := a + b;
    assert forall k | 0 <= k < |a| :: s[k] == a[k];
    if a[|a| - 1] != LF {
      assert s[|a|] == b[0];
    }
    assert s[..FirstChunk(a).len] == a[..FirstChunk(a).len];
  }

  lemma DecodedStep(s: seq<byte>, n: nat)
    requires s != [] && FirstChunk(s).len == n
    ensures Decoded(s) == Head(s) + Decoded(s[n..])
  {}

  lemma SplitAt(a: seq<byte>, b: seq<byte>, n: nat)
    requires n <= |a|
    ensures (a + b)[..n] == a[..n] && (a + b)[n..] == a[n..] + b
    ensures Separate(a, b) ==> Separate(a[n..], b)
  {}

  lemma {:induction false} DecodedConcat(a: seq<byte>, b: seq<byte>)
    requires Separate(a, b)
    ensures Decoded(a + b) == Decoded(a) + Decoded(b)
  {
    if a == [] {
      assert a + b == b;
    } else {
      var n := FirstChunk(a).len;
      FirstChunkConcat(a, b);
      SplitAt(a, b, n);
      DecodedConcat(a[n..], b);
      DecodedStep(a + b, n);
      DecodedStep(a, n);
      Associative(Head(a), Decoded(a[n..]), Decoded(b));
    }
  }

  predicate EndsLine(s: seq<byte>) { s != [] && s[|s| - 1] == LF }

  lemma DecodedLines(s: seq<byte>)
    ensures LF in Decoded(s) <==> LF in s
    ensures s != [] ==> (Decoded(s)[|Decoded(s)| - 1] == LF <==> s[|s| - 1] == LF)
  {
    DecodedHasLine(s);
    DecodedEndsLine(s);
  }

  lemma {:induction false} DecodedHasLine(s: seq<byte>)
    ensures LF in Decoded(s) <==> LF in s
  {
    if s != [] {
      var n := FirstChunk(s).len;
      DecodedHasLine(s[n..]);
      DecodedParts(s, n);
      HeadLines(s, n);
      InSplit(s, n);
    }
  }

  lemma {:induction false} DecodedEndsLine(s: seq<byte>)
    ensures EndsLine(Decoded(s)) <==> EndsLine(s)
  {
    if s != [] {
      var n := FirstChunk(s).len;
      DecodedEndsLine(s[n..]);
      DecodedParts(s, n);
      HeadLines(s, n);
      LastSplit(s, n);
    }
  }

  lemma DecodedParts(s: seq<byte>, n: nat)
    requires s != [] && FirstChunk(s).len == n
    ensures LF in Decoded(s) <==> LF in Head(s) || LF in Decoded(s[n..])
    ensures EndsLine(Decoded(s)) <==> if s[n..] == [] then EndsLine(Head(s)) else EndsLine(Decoded(s[n..]))
  {
    DecodedStep(s, n);
    InParts(Head(s), Decoded(s[n..]));
    LastOfParts(Head(s), Decoded(s[n..]));
  }

  lemma InSplit(s: seq<byte>, n: nat)
    requires n <= |s|
    ensures LF in s <==> LF in s[..n] || LF in s[n..]
  {
    InParts(s[..n], s[n..]);
    assert s == s[..n] + s[n..];
  }

  lemma LastSplit(s: seq<byte>, n: nat)
    requires 0 < n <= |s|
    ensures EndsLine(s) <==> if s[n..] == [] then s[n - 1] == LF else EndsLine(s[n..])
  {}

  lemma InParts(a: seq<byte>, b: seq<byte>)
    ensures LF in a + b <==> LF in a || LF in b
  {}

  lemma LastOfParts(a: seq<byte>, b: seq<byte>)
    ensures EndsLine(a + b) <==> if b == [] then EndsLine(a) else EndsLine(b)
  {
    assert b == [] ==> a + b == a;
  }

  lemma HeadLines(s: seq<byte>, n: nat)
    requires s != [] && FirstChunk(s).len == n
    ensures Head(s) != [] && (LF in Head(s) <==> LF in s[..n])
    ensures EndsLine(Head(s)) <==> s[n - 1] == LF
  {
    assert LF !in REPLACEMENT;
    if n > 1 {
      assert forall b <- s[..n] :: b >= 0x80;
    } else {
      assert s[..1] == [s[0]];
    }
  }

  /** Some ill-formed subpart is one or two bytes long, so its replacement is longer than it. */
  predicate HasShortSubpart(s: seq<byte>) {
    s != [] && (var c := FirstChunk(s); (!c.wellFormed && c.len < 3) || HasShortSubpart(s[c.len..]))
  }

  /** Exactly when counting the bytes of the decoded text counts the bytes that were read. */
  lemma {:induction false} LengthPreservedIff(s: seq<byte>)
    ensures LengthPreserved(s) <==> !HasShortSubpart(s)
  {
    if s != [] {
      LengthPreservedIff(s[FirstChunk(s).len..]);
    }
  }

  /** The lengths of a text and of what follows it are preserved separately. */
  lemma LengthPreservedConcat(a: seq<byte>, b: seq<byte>)
    requires Separate(a, b)
    ensures LengthPreserved(a + b) <==> LengthPreserved(a) && LengthPreserved(b)
  {
    DecodedConcat(a, b);
  }

  // ---- Cutting well-formed text ----------------------------------------------------------------------

  /** How many bytes of a character a cut at k leaves behind: 0 between characters. */
  function Overhang(s: seq<byte>, k: nat): (n: nat)
    requires k <= |s|
    decreases |s|
  {
    if k == 0 then 0
    else
      var n := FirstChunk(s).len;
      if k < n then k else Overhang(s[n..], k - n)
  }

  /** Text that decodes to itself begins with a character, and what follows decodes to itself. */
  lemma WellFormedStep(s: seq<byte>)
    requires s != [] && Decoded(s) == s
    ensures FirstChunk(s).wellFormed && Decoded(s[FirstChunk(s).len..]) == s[FirstChunk(s).len..]
  {
    var n := FirstChunk(s).len;
    var head, rest := Head(s), Decoded(s[n..]);
    DecodedStep(s, n);
    assert s == head + rest;
    assert s[..|head|] == head && s[|head|..] == rest;
    if head == REPLACEMENT {
      assert s[0] == head[0] && s[1] == head[1] && s[2] == head[2];
      assert FirstChunk(s) == Chunk(3, true);
    }
  }

  /** A cut inside a character leaves one ill-formed subpart, which becomes three bytes. */
  lemma CutInside(s: seq<byte>, k: nat)
    requires s != [] && FirstChunk(s).wellFormed && 0 < k < FirstChunk(s).len
    ensures Decoded(s[..k]) == REPLACEMENT
  {
    var p := s[..k];
    assert FirstChunk(p) == Chunk(k, false);
    assert p[k..] == [];
    DecodedStep(p, k);
  }

  lemma CutBehind(s: seq<byte>, k: nat)
    requires s != [] && FirstChunk(s).wellFormed && FirstChunk(s).len <= k <= |s|
    ensures var n := FirstChunk(s).len; |Decoded(s[..k])| == n + |Decoded(s[n..][..k - n])|
  {
    var n := FirstChunk(s).len;
    WholeFirst(s, k);
    DecodedStep(s[..k], n);
    DropTake(s, n, k);
  }

  lemma WholeFirst(s: seq<byte>, k: nat)
    requires s != [] && FirstChunk(s).wellFormed && FirstChunk(s).len <= k <= |s|
    ensures FirstChunk(s[..k]) == FirstChunk(s) && |Head(s[..k])| == FirstChunk(s).len
  {}

  lemma DropTake(s: seq<byte>, n: nat, k: nat)
    requires n <= k <= |s|
    ensures s[..k][n..] == s[n..][..k - n]
  {}

  /** A cut of well-formed text keeps the count of bytes exactly when it is not one or two bytes into a
      longer character. */
  lemma {:induction false} CutPreservedIff(s: seq<byte>, k: nat)
    requires Decoded(s) == s && k <= |s|
    ensures LengthPreserved(s[..k]) <==> Overhang(s, k) != 1 && Overhang(s, k) != 2
    decreases |s|
  {
    if k == 0 {
      assert s[..0] == [];
    } else {
      var n := FirstChunk(s).len;
      WellFormedStep(s);
      if k < n {
        CutInside(s, k);
      } else {
        CutBehind(s, k);
        CutPreservedIff(s[n..], k - n);
      }
    }
  }
}
