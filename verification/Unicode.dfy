/** UTF-8 by the arithmetic of RFC 3629, section 3, and that `Utf8` accepts exactly these encodings. */
module Unicode {
  import opened Utf8

  /** The code points but the surrogates. */
  predicate Scalar(cp: int) { 0 <= cp < 0xD800 || 0xE000 <= cp < 0x11_0000 }

  function Trail(n: int): byte { (0x80 + n % 64) as byte }

  /** One character: the number's bits in groups of six, behind a lead that tells their count. */
  function Encode(cp: int): (s: seq<byte>)
    requires Scalar(cp)
    ensures 1 <= |s| <= 4
  {
    if cp < 0x80 then [cp as byte]
    else if cp < 0x800 then [(0xC0 + cp / 0x40) as byte, Trail(cp)]
    else if cp < 0x1_0000 then [(0xE0 + cp / 0x1000) as byte, Trail(cp / 0x40), Trail(cp)]
    else [(0xF0 + cp / 0x4_0000) as byte, Trail(cp / 0x1000), Trail(cp / 0x40), Trail(cp)]
  }

  predicate Scalars(cps: seq<int>) { forall cp <- cps :: Scalar(cp) }

  function EncodeAll(cps: seq<int>): seq<byte>
    requires Scalars(cps)
  {
    if cps == [] then []
    else
      assert cps[0] in cps && forall cp <- cps[1..] :: cp in cps;
      Encode(cps[0]) + EncodeAll(cps[1..])
  }

  // ---- One character ------------------------------------------------------------------------------------

  lemma EncodeShape(cp: int)
    requires Scalar(cp)
    ensures var s := Encode(cp);
            && SequenceLength(s[0]) == |s|
            && (|s| >= 2 ==> SecondByte(s[0], s[1]))
            && (|s| >= 3 ==> Continuation(s[2]))
            && (|s| == 4 ==> Continuation(s[3]))
  {
    if 0x800 <= cp < 0x1_0000 {
      ThreeBytes(cp);
    } else if cp >= 0x1_0000 {
      FourBytes(cp);
    }
  }

  lemma ThreeBytes(cp: int)
    requires Scalar(cp) && 0x800 <= cp < 0x1_0000
    ensures SecondByte(Encode(cp)[0], Encode(cp)[1])
  {
    var lead, b := cp / 0x1000, cp / 0x40 % 64;
    assert cp / 0x40 == 64 * lead + b;
  }

  lemma FourBytes(cp: int)
    requires Scalar(cp) && 0x1_0000 <= cp
    ensures SecondByte(Encode(cp)[0], Encode(cp)[1])
  {
    var lead, b := cp / 0x4_0000, cp / 0x1000 % 64;
    assert cp / 0x1000 == 64 * lead + b;
  }

  /** What follows a character does not matter. */
  lemma FirstOfEncoded(cp: int, rest: seq<byte>)
    requires Scalar(cp)
    ensures FirstChunk(Encode(cp) + rest) == Chunk(|Encode(cp)|, true)
  {
    EncodeShape(cp);
    var s := Encode(cp) + rest;
    assert forall i | 0 <= i < |Encode(cp)| :: s[i] == Encode(cp)[i];
  }

  /** The code point of a well-formed sequence. */
  function Point(s: seq<byte>): int
    requires s != [] && FirstChunk(s).wellFormed
  {
    match FirstChunk(s).len
    case 1 => s[0] as int
    case 2 => (s[0] as int - 0xC0) * 0x40 + (s[1] as int - 0x80)
    case 3 => (s[0] as int - 0xE0) * 0x1000 + (s[1] as int - 0x80) * 0x40 + (s[2] as int - 0x80)
    case _ =>
      (s[0] as int - 0xF0) * 0x4_0000 + (s[1] as int - 0x80) * 0x1000 + (s[2] as int - 0x80) * 0x40 + (s[3] as int - 0x80)
  }

  lemma PointEncodes(s: seq<byte>)
    requires s != [] && FirstChunk(s).wellFormed
    ensures Scalar(Point(s)) && Encode(Point(s)) == s[..FirstChunk(s).len]
  {
    match FirstChunk(s).len
    case 1 =>
    case 2 => TwoFrom(s[0], s[1]);
    case 3 =>
      ThreeFrom(s[0], s[1], s[2], Point(s));
      assert s[..3] == [s[0], s[1], s[2]];
    case _ =>
      FourFrom(s[0], s[1], s[2], s[3], Point(s));
      assert s[..4] == [s[0], s[1], s[2], s[3]];
  }

  lemma TwoFrom(a: byte, b: byte)
    requires SequenceLength(a) == 2 && Continuation(b)
    ensures var cp := (a as int - 0xC0) * 0x40 + (b as int - 0x80); Scalar(cp) && Encode(cp) == [a, b]
  {
    Digits(a as int - 0xC0, b as int - 0x80);
  }

  lemma ThreeFrom(a: byte, b: byte, c: byte, cp: int)
    requires SequenceLength(a) == 3 && SecondByte(a, b) && Continuation(c)
    requires cp == (a as int - 0xE0) * 0x1000 + (b as int - 0x80) * 0x40 + (c as int - 0x80)
    ensures Scalar(cp) && Encode(cp) == [a, b, c]
  {
    var x, y, z := a as int - 0xE0, b as int - 0x80, c as int - 0x80;
    Digits(x * 64 + y, z);
    Digits(x, y);
    ThreeDigits(x, y, z);
    assert 0x800 <= cp < 0x1_0000;
  }

  lemma FourFrom(a: byte, b: byte, c: byte, d: byte, cp: int)
    requires SequenceLength(a) == 4 && SecondByte(a, b) && Continuation(c) && Continuation(d)
    requires cp == (a as int - 0xF0) * 0x4_0000 + (b as int - 0x80) * 0x1000 + (c as int - 0x80) * 0x40 + (d as int - 0x80)
    ensures Scalar(cp) && Encode(cp) == [a, b, c, d]
  {
    var x, y, z, w := a as int - 0xF0, b as int - 0x80, c as int - 0x80, d as int - 0x80;
    assert cp == (x * 4096 + y * 64 + z) * 64 + w;
    Digits(x * 4096 + y * 64 + z, w);
    Digits(x * 64 + y, z);
    Digits(x, y);
    ThreeDigits(x, y, z);
    FourDigits(x, y, z, w);
    assert 0x1_0000 <= cp < 0x11_0000;
  }

  lemma ThreeDigits(x: int, y: int, z: int)
    requires 0 <= y < 64 && 0 <= z < 64
    ensures (x * 4096 + y * 64 + z) / 0x1000 == x
  {}

  lemma FourDigits(x: int, y: int, z: int, w: int)
    requires 0 <= y < 64 && 0 <= z < 64 && 0 <= w < 64
    ensures var cp := x * 0x4_0000 + y * 0x1000 + z * 0x40 + w;
            cp / 0x4_0000 == x && cp / 0x1000 == x * 64 + y && cp / 0x40 == x * 4096 + y * 64 + z
  {}

  lemma Digits(high: int, low: int)
    requires 0 <= low < 64
    ensures (high * 64 + low) / 64 == high && (high * 64 + low) % 64 == low
  {}

  /** A byte string begins with the encoding of this scalar value. */
  predicate Begins(s: seq<byte>, cp: int) { Scalar(cp) && Encode(cp) <= s }

  /** The first subpart is well-formed exactly when the text begins with the encoding of a scalar value,
      and then it is that encoding. */
  lemma WellFormedIff(s: seq<byte>)
    requires s != []
    ensures FirstChunk(s).wellFormed <==> exists cp :: Begins(s, cp)
    ensures forall cp | Begins(s, cp) :: FirstChunk(s).len == |Encode(cp)|
  {
    if FirstChunk(s).wellFormed {
      PointEncodes(s);
      assert Begins(s, Point(s));
    }
    forall cp | Begins(s, cp)
      ensures FirstChunk(s) == Chunk(|Encode(cp)|, true)
    {
      FirstOfEncoded(cp, s[|Encode(cp)|..]);
      assert s == Encode(cp) + s[|Encode(cp)|..];
    }
  }

  // ---- What is replaced -------------------------------------------------------------------------------------

  /** These bytes begin a character. */
  predicate Starts(p: seq<byte>, cp: int) { Scalar(cp) && p <= Encode(cp) }

  ghost predicate Partial(p: seq<byte>) { exists cp :: Starts(p, cp) }

  /** An ill-formed subpart is the longest beginning of a character that is there, or one byte if there
      is none. */
  lemma SubpartMaximal(s: seq<byte>)
    requires s != [] && !FirstChunk(s).wellFormed
    ensures var n := FirstChunk(s).len;
            && (n == 1 || Partial(s[..n]))
            && forall m | n < m <= |s| :: !Partial(s[..m])
  {
    var n := FirstChunk(s).len;
    if n == 2 {
      BeginningOf([s[0], s[1]], if SequenceLength(s[0]) == 3 then [0x80] else [0x80, 0x80]);
      assert s[..2] == [s[0], s[1]];
    } else if n == 3 {
      BeginningOf([s[0], s[1], s[2]], [0x80]);
      assert s[..3] == [s[0], s[1], s[2]];
    }
    forall m | n < m <= |s|
      ensures !Partial(s[..m])
    {
      if Partial(s[..m]) {
        var cp :| Starts(s[..m], cp);
        TooLong(s, m, cp);
      }
    }
  }

  lemma BeginningOf(p: seq<byte>, more: seq<byte>)
    requires p != [] && FirstChunk(p + more) == Chunk(|p| + |more|, true)
    ensures Partial(p)
  {
    PointEncodes(p + more);
    assert p <= (p + more)[..|p| + |more|];
    assert Starts(p, Point(p + more));
  }

  lemma TooLong(s: seq<byte>, m: nat, cp: int)
    requires s != [] && !FirstChunk(s).wellFormed && FirstChunk(s).len < m <= |s|
    ensures !Starts(s[..m], cp)
  {
    if Scalar(cp) {
      EncodeShape(cp);
      assert forall i | 0 <= i < m :: s[i] == s[..m][i];
    }
  }

  /** Decoding keeps a character that stands at the front. */
  lemma DecodedCharacter(cp: int, rest: seq<byte>)
    requires Scalar(cp)
    ensures Decoded(Encode(cp) + rest) == Encode(cp) + Decoded(rest)
  {
    var s := Encode(cp) + rest;
    FirstOfEncoded(cp, rest);
    assert s[..|Encode(cp)|] == Encode(cp) && s[|Encode(cp)|..] == rest;
    DecodedStep(s, |Encode(cp)|);
  }

  /** Where no character stands, decoding puts U+FFFD for the longest beginning of one, or for one byte. */
  lemma DecodedReplacement(s: seq<byte>, n: nat)
    requires s != [] && !(exists cp :: Begins(s, cp))
    requires 1 <= n <= |s| && (n == 1 || Partial(s[..n])) && forall m | n < m <= |s| :: !Partial(s[..m])
    ensures Decoded(s) == Encode(0xFFFD) + Decoded(s[n..])
  {
    WellFormedIff(s);
    SubpartIs(s, n);
    DecodedStep(s, n);
  }

  lemma SubpartIs(s: seq<byte>, n: nat)
    requires s != [] && !FirstChunk(s).wellFormed
    requires 1 <= n <= |s| && (n == 1 || Partial(s[..n])) && forall m | n < m <= |s| :: !Partial(s[..m])
    ensures FirstChunk(s).len == n && Head(s) == Encode(0xFFFD)
  {
    SubpartMaximal(s);
    LongestIs(s, FirstChunk(s).len, n);
  }

  lemma LongestIs(s: seq<byte>, k: nat, n: nat)
    requires 1 <= k <= |s| && (k == 1 || Partial(s[..k])) && forall m | k < m <= |s| :: !Partial(s[..m])
    requires 1 <= n <= |s| && (n == 1 || Partial(s[..n])) && forall m | n < m <= |s| :: !Partial(s[..m])
    ensures k == n
  {}

  /** Encoded text decodes to itself. */
  lemma {:induction false} DecodedEncoded(cps: seq<int>)
    requires Scalars(cps)
    ensures Decoded(EncodeAll(cps)) == EncodeAll(cps)
  {
    if cps != [] {
      DecodedEncoded(cps[1..]);
      DecodedCharacter(cps[0], EncodeAll(cps[1..]));
    }
  }

  /** Whatever is decoded, the result is text. */
  lemma {:induction false} DecodedIsText(s: seq<byte>) returns (cps: seq<int>)
    ensures Scalars(cps) && Decoded(s) == EncodeAll(cps)
  {
    if s == [] {
      cps := [];
    } else {
      var n := FirstChunk(s).len;
      var rest := DecodedIsText(s[n..]);
      var cp := 0xFFFD;
      if FirstChunk(s).wellFormed {
        PointEncodes(s);
        cp := Point(s);
      }
      DecodedStep(s, n);
      cps := [cp] + rest;
      assert cps[1..] == rest;
    }
  }

  ghost predicate Text(s: seq<byte>) { exists cps :: Scalars(cps) && s == EncodeAll(cps) }

  /** Exactly the encoded texts decode to themselves. */
  lemma DecodedSameIff(s: seq<byte>)
    ensures Decoded(s) == s <==> Text(s)
  {
    var cps := DecodedIsText(s);
    if Text(s) {
      var own :| Scalars(own) && s == EncodeAll(own);
      DecodedEncoded(own);
    }
  }
}
