/** The two base32 decoders (src/auth/totp-manager.ts and cli/totp-store.ts): a 32-bit accumulator
    that is never masked, against the bit strings of section 6 of RFC 4648. */
module Base32 {
  import opened JsBits
  import opened JsText
  import opened Utf8
  import opened Wrappers

  // ---- Bit strings ------------------------------------------------------------------------------

  /** The number a bit string writes, most significant bit first. */
  function Value(bits: seq<bool>): (v: nat)
    ensures v < Pow2(|bits|)
  {
    if bits == [] then 0 else 2 * Value(bits[..|bits| - 1]) + (if bits[|bits| - 1] then 1 else 0)
  }

  function BitsOf(v: nat, width: nat): (bits: seq<bool>)
    ensures |bits| == width
    ensures v < Pow2(width) ==> Value(bits) == v
  {
    if width == 0 then []
    else
      var rest := BitsOf(v / 2, width - 1);
      assert (rest + [v % 2 == 1])[..width - 1] == rest;
      rest + [v % 2 == 1]
  }

  lemma {:induction false} ValueInjective(a: seq<bool>, b: seq<bool>)
    requires |a| == |b| && Value(a) == Value(b)
    ensures a == b
  {
    if a != [] {
      var n := |a| - 1;
      ValueInjective(a[..n], b[..n]);
      assert a == a[..n] + [a[n]] && b == b[..n] + [b[n]];
    }
  }

  lemma ValueSnoc(a: seq<bool>, x: bool)
    ensures Value(a + [x]) == 2 * Value(a) + (if x then 1 else 0)
  {
    assert (a + [x])[..|a|] == a;
  }

  lemma Twice(x: nat, y: nat)
    ensures x * (2 * y) == 2 * (x * y)
  {}

  lemma {:induction false} ValueConcat(a: seq<bool>, b: seq<bool>)
    ensures Value(a + b) == Value(a) * Pow2(|b|) + Value(b)
  {
    if b == [] {
      assert a + b == a;
    } else {
      var n := |b| - 1;
      assert a + b == (a + b[..n]) + [b[n]];
      ValueSnoc(a + b[..n], b[n]);
      ValueConcat(a, b[..n]);
      assert b == b[..n] + [b[n]];
      ValueSnoc(b[..n], b[n]);
      Twice(Value(a), Pow2(n));
    }
  }

  /** Whole bytes of a bit string; up to seven bits at the end are dropped. */
  function Bytes(bits: seq<bool>): (bytes: seq<byte>)
    ensures |bytes| == |bits| / 8
  {
    if |bits| < 8 then [] else [ByteOf(bits[..8])] + Bytes(bits[8..])
  }

  function ByteOf(bits: seq<bool>): byte
    requires |bits| == 8
  {
    assert Pow2(8) == 256 by { assert Pow2(4) == 16; }
    Value(bits) as byte
  }

  lemma {:induction false} BytesAppend(bits: seq<bool>, octet: seq<bool>)
    requires |bits| % 8 == 0 && |octet| == 8
    ensures Bytes(bits + octet) == Bytes(bits) + [ByteOf(octet)]
  {
    if bits == [] {
      assert bits + octet == octet && octet[..8] == octet && octet[8..] == [];
    } else {
      assert (bits + octet)[..8] == bits[..8] && (bits + octet)[8..] == bits[8..] + octet;
      BytesAppend(bits[8..], octet);
    }
  }

  lemma {:induction false} BytesDropTail(bits: seq<bool>, tail: seq<bool>)
    requires |bits| % 8 == 0 && |tail| < 8
    ensures Bytes(bits + tail) == Bytes(bits)
  {
    if bits == [] {
      assert bits + tail == tail;
    } else {
      assert (bits + tail)[..8] == bits[..8] && (bits + tail)[8..] == bits[8..] + tail;
      BytesDropTail(bits[8..], tail);
    }
  }

  // ---- The alphabet --------------------------------------------------------------------------------

  predicate InAlphabet(c: char) {
    'A' <= c <= 'Z' || '2' <= c <= '7'
  }

  /** `BASE32_ALPHABET.indexOf`. */
  function IndexOf(c: char): (d: nat)
    requires InAlphabet(c)
    ensures d < 32
  {
    if c <= '7' then (c - '2') as nat + 26 else (c - 'A') as nat
  }

  function CharOf(d: nat): (c: char)
    requires d < 32
    ensures InAlphabet(c) && IndexOf(c) == d
  {
    if d < 26 then 'A' + d as char else '2' + (d - 26) as char
  }

  /** `BASE32_ALPHABET`. */
  lemma Alphabet(d: nat)
    requires d < 32
    ensures CharOf(d) == ("ABCDEFGHIJKLMNOPQRSTUVWXYZ" + "234567")[d]
  {
    if d < 26 {
      Letter(d);
    }
  }

  lemma Letter(d: nat)
    requires d < 26
    ensures 'A' + d as char == "ABCDEFGHIJKLMNOPQRSTUVWXYZ"[d]
  {}

  predicate Valid(s: string) {
    forall c <- s :: InAlphabet(c)
  }

  /** Five bits a character, however long the text. */
  function BitString(s: string): (bits: seq<bool>)
    requires Valid(s)
    ensures |bits| == 5 * |s|
  {
    if s == "" then [] else BitString(s[..|s| - 1]) + BitsOf(IndexOf(s[|s| - 1]), 5)
  }

  /** What section 6 of RFC 4648 makes of a text without padding, or its first foreign character. */
  function Decoding(s: string): (r: Result<seq<byte>, char>)
    ensures r.Ok? <==> Valid(s)
    ensures r.Ok? ==> |r.value| == 5 * |s| / 8
  {
    if Valid(s) then Ok(Bytes(BitString(s))) else Err(FirstForeign(s))
  }

  function FirstForeign(s: string): (c: char)
    requires !Valid(s)
    ensures c in s && !InAlphabet(c)
  {
    if !InAlphabet(s[0]) then s[0] else FirstForeign(s[1..])
  }

  // ---- 32-bit arithmetic ------------------------------------------------------------------------------

  /** `(value << 5) | index`. */
  function ShiftIn(value: int, index: nat): int { OrInt(ShiftLeft(value, 5), index) }

  /** `(value >> n) & 0xff`. */
  function SignedByte(value: int, n: nat): int { AndInt(ShiftRight(value, n), 0xff) }

  /** `(value >>> n) & 0xff`. */
  function UnsignedByte(value: int, n: nat): int { AndInt(ShiftRightZero(value, n), 0xff) }

  /** Overflow never reaches the bits that are still pending. */
  lemma PendingAfterShift(value: int, index: nat, m: nat, k: nat)
    requires index < 32 && m > 0 && (32 * m) * k == TWO32
    ensures ShiftIn(value, index) % (32 * m) == (value % m) * 32 + index
  {
    OrShifted(value, index);
    PendingAfterSum(value, index, ShiftIn(value, index), m, k);
  }

  lemma PendingAfterSum(value: int, index: nat, sum: int, m: nat, k: nat)
    requires index < 32 && m > 0 && (32 * m) * k == TWO32 && sum == ToInt32(value * 32) + index
    ensures sum % (32 * m) == (value % m) * 32 + index
  {
    var t := Wrapped(value * 32);
    var q, r := value / m, value % m;
    assert value == m * q + r;
    assert TWO32 * t == (32 * m) * (k * t);
    assert (32 * m) * (q - k * t) == 32 * (m * q) - TWO32 * t by {
      assert (32 * m) * q == 32 * (m * q);
    }
    Remainder(sum, 32 * m, q - k * t, 32 * r + index);
  }

  // ---- The loop ------------------------------------------------------------------------------------------

  /** The accumulator after `all` bits: whole bytes are out, the pending ones are its low bits. */
  ghost predicate Accumulated(value: int, bits: nat, output: seq<byte>, all: seq<bool>) {
    var out := 8 * |output|;
    && |all| == out + bits && bits < 8
    && output == Bytes(all[..out])
    && value % Pow2(bits) == Value(all[out..])
  }

  lemma FactorOfTwo32(bits: nat) returns (k: nat)
    requires bits < 8
    ensures (32 * Pow2(bits)) * k == TWO32 && 32 * Pow2(bits) == Pow2(bits + 5)
  {
    Pow2Values();
    k := TWO32 / (32 * Pow2(bits));
    assert bits in {0, 1, 2, 3, 4, 5, 6, 7};
  }

  lemma TopByte(value: int, p: nat, o: nat, v: nat)
    requires p in {1, 2, 4, 8, 16} && o < 256 && v < p && value % (256 * p) == o * p + v
    ensures (value / p) % 256 == o && value % p == v
  {
    var q := value / (256 * p);
    assert value == 256 * p * q + o * p + v;
    assert value == p * (256 * q + o) + v;
    Remainder(value, p, 256 * q + o, v);
  }

  /** Reading the accumulator as unsigned changes no remainder of a power of two. */
  lemma UnsignedRemainder(value: int, m: nat, k: nat)
    requires m > 0 && m * k == TWO32
    ensures ToUint32(value) % m == value % m
  {
    var q, a := value / TWO32, value / m;
    assert TWO32 * q == m * (k * q);
    Distribute(m, a, k * q);
    Remainder(ToUint32(value), m, a - k * q, value % m);
  }

  lemma SignedRemainder(value: int, m: nat, k: nat)
    requires m > 0 && m * k == TWO32
    ensures ToInt32(value) % m == value % m
  {
    var t := Wrapped(value);
    var a := value / m;
    assert TWO32 * t == m * (k * t);
    Distribute(m, a, k * t);
    Remainder(ToInt32(value), m, a - k * t, value % m);
  }

  /** The eight bits above the r lowest of a number, by either shift. */
  lemma ByteAbove(value: int, r: nat, octet: seq<bool>, rest: seq<bool>)
    requires r < 5 && |octet| == 8 && |rest| == r && value % Pow2(8 + r) == Value(octet + rest)
    ensures SignedByte(value, r) == UnsignedByte(value, r) == Value(octet) < 256
    ensures value % Pow2(r) == Value(rest)
  {
    Pow2Values();
    ValueConcat(octet, rest);
    var p := Pow2(r);
    assert r in {0, 1, 2, 3, 4};
    assert p in {1, 2, 4, 8, 16} && Pow2(8 + r) == 256 * p;
    var k := FactorOfTwo32(r + 3);
    UnsignedRemainder(value, 256 * p, k);
    SignedRemainder(value, 256 * p, k);
    TopByte(value, p, Value(octet), Value(rest));
    TopByte(ToInt32(value), p, Value(octet), Value(rest));
    TopByte(ToUint32(value), p, Value(octet), Value(rest));
    LowByte(ShiftRight(value, r));
    LowByte(ShiftRightZero(value, r));
  }

  /** Five more bits behind the pending ones. */
  lemma PendingFed(value: int, bits: nat, pending: seq<bool>, index: nat)
    requires index < 32 && bits < 8 && |pending| == bits && value % Pow2(bits) == Value(pending)
    ensures ShiftIn(value, index) % Pow2(bits + 5) == Value(pending + BitsOf(index, 5))
  {
    Pow2Values();
    var k := FactorOfTwo32(bits);
    PendingAfterShift(value, index, Pow2(bits), k);
    ValueConcat(pending, BitsOf(index, 5));
  }

  lemma Fed(value: int, bits: nat, output: seq<byte>, all: seq<bool>, index: nat)
    requires index < 32 && Accumulated(value, bits, output, all)
    ensures var value', all' := ShiftIn(value, index), all + BitsOf(index, 5);
            if bits + 5 < 8 then Accumulated(value', bits + 5, output, all')
            else
              var b := SignedByte(value', bits - 3);
              && 0 <= b < 256 && UnsignedByte(value', bits - 3) == b
              && Accumulated(value', bits - 3, output + [b as byte], all')
  {
    var out := 8 * |output|;
    SplitBehind(all, BitsOf(index, 5), out);
    PendingFed(value, bits, all[out..], index);
    if bits + 5 >= 8 {
      ByteOut(ShiftIn(value, index), bits - 3, output, all + BitsOf(index, 5));
    }
  }

  lemma SplitBehind(all: seq<bool>, more: seq<bool>, out: nat)
    requires out <= |all|
    ensures (all + more)[..out] == all[..out] && (all + more)[out..] == all[out..] + more
  {}

  /** Eight pending bits and r more: the byte goes out. */
  lemma ByteOut(value: int, r: nat, output: seq<byte>, all: seq<bool>)
    requires r < 5 && |all| == 8 * |output| + 8 + r && output == Bytes(all[..8 * |output|])
    requires value % Pow2(8 + r) == Value(all[8 * |output|..])
    ensures var b := SignedByte(value, r);
            && 0 <= b < 256 && UnsignedByte(value, r) == b
            && Accumulated(value, r, output + [b as byte], all)
  {
    var out := 8 * |output|;
    var octet, rest := all[out..out + 8], all[out + 8..];
    assert all[out..] == octet + rest && all[..out + 8] == all[..out] + octet;
    ByteAbove(value, r, octet, rest);
    BytesAppend(all[..out], octet);
  }

  /** The first i characters are in the alphabet and have been read. */
  ghost predicate ReadTo(s: string, i: nat, value: int, bits: nat, output: seq<byte>)
    requires i <= |s|
  {
    Valid(s[..i]) && Accumulated(value, bits, output, BitString(s[..i]))
  }

  lemma BitStringSnoc(s: string, c: char)
    requires Valid(s) && InAlphabet(c)
    ensures Valid(s + [c]) && BitString(s + [c]) == BitString(s) + BitsOf(IndexOf(c), 5)
  {
    assert (s + [c])[..|s|] == s;
  }

  lemma ReadOne(s: string, i: nat, value: int, bits: nat, output: seq<byte>)
    requires i < |s| && InAlphabet(s[i]) && ReadTo(s, i, value, bits, output)
    ensures var value' := ShiftIn(value, IndexOf(s[i]));
            if bits + 5 < 8 then ReadTo(s, i + 1, value', bits + 5, output)
            else
              var b := SignedByte(value', bits - 3);
              && 0 <= b < 256 && UnsignedByte(value', bits - 3) == b
              && ReadTo(s, i + 1, value', bits - 3, output + [b as byte])
  {
    OneCharacterMore(s, i);
    CharacterFed(s[..i], s[i], value, bits, output);
  }

  lemma OneCharacterMore(s: string, i: nat)
    requires i < |s|
    ensures s[..i + 1] == s[..i] + [s[i]]
  {}

  lemma CharacterFed(before: string, c: char, value: int, bits: nat, output: seq<byte>)
    requires InAlphabet(c) && Valid(before) && Accumulated(value, bits, output, BitString(before))
    ensures Valid(before + [c])
    ensures var value', all' := ShiftIn(value, IndexOf(c)), BitString(before + [c]);
            if bits + 5 < 8 then Accumulated(value', bits + 5, output, all')
            else
              var b := SignedByte(value', bits - 3);
              && 0 <= b < 256 && UnsignedByte(value', bits - 3) == b
              && Accumulated(value', bits - 3, output + [b as byte], all')
  {
    BitStringSnoc(before, c);
    Fed(value, bits, output, BitString(before), IndexOf(c));
  }

  lemma ReadAll(s: string, value: int, bits: nat, output: seq<byte>)
    requires ReadTo(s, |s|, value, bits, output)
    ensures Decoding(s) == Ok(output)
  {
    assert s[..|s|] == s;
    WholeBytes(value, bits, output, BitString(s));
  }

  /** The loop of src/auth/totp-manager.ts, over a normalized text. */
  method DecodeSigned(s: string) returns (r: Result<seq<byte>, char>)
    ensures r == Decoding(s)
  {
    var bits, value, output := 0, 0, [];
    for i := 0 to |s|
      invariant ReadTo(s, i, value, bits, output)
    {
      if !InAlphabet(s[i]) {
        ForeignAt(s, i);
        return Err(s[i]);
      }
      ReadOne(s, i, value, bits, output);
      value, bits := ShiftIn(value, IndexOf(s[i])), bits + 5;
      if bits >= 8 {
        bits := bits - 8;
        output := output + [SignedByte(value, bits) as byte];
      }
    }
    ReadAll(s, value, bits, output);
    r := Ok(output);
  }

  /** The loop of cli/totp-store.ts. */
  method DecodeUnsigned(s: string) returns (r: Result<seq<byte>, char>)
    ensures r == Decoding(s)
  {
    var bits, value, output := 0, 0, [];
    for i := 0 to |s|
      invariant ReadTo(s, i, value, bits, output)
    {
      if !InAlphabet(s[i]) {
        ForeignAt(s, i);
        return Err(s[i]);
      }
      ReadOne(s, i, value, bits, output);
      value, bits := ShiftIn(value, IndexOf(s[i])), bits + 5;
      if bits >= 8 {
        output := output + [UnsignedByte(value, bits - 8) as byte];
        bits := bits - 8;
      }
    }
    ReadAll(s, value, bits, output);
    r := Ok(output);
  }

  lemma WholeBytes(value: int, bits: nat, output: seq<byte>, all: seq<bool>)
    requires Accumulated(value, bits, output, all)
    ensures output == Bytes(all)
  {
    var out := 8 * |output|;
    assert all == all[..out] + all[out..];
    BytesDropTail(all[..out], all[out..]);
  }

  lemma {:induction false} ForeignAt(s: string, i: nat)
    requires i < |s| && Valid(s[..i]) && !InAlphabet(s[i])
    ensures !Valid(s) && FirstForeign(s) == s[i]
  {
    if i > 0 {
      assert InAlphabet(s[..i][0]);
      forall c | c in s[1..][..i - 1]
        ensures InAlphabet(c)
      {
        assert c in s[..i];
      }
      ForeignAt(s[1..], i - 1);
    }
  }

  // ---- Normalization -------------------------------------------------------------------------------------

  /** `toUpperCase`, character by character: `upper` is the mapping of the Unicode version at hand, which
      may give several characters, or letters of the alphabet for letters outside of ASCII. */
  function ToUpper(upper: char -> string, s: string): string {
    if s == "" then "" else ToUpper(upper, s[..|s| - 1]) + upper(s[|s| - 1])
  }

  function UpperChar(c: char): char {
    if 'a' <= c <= 'z' then 'A' + (c - 'a') else c
  }

  /** It is known on ASCII, and neither makes nor removes white space. */
  predicate UpperCases(upper: char -> string, c: char) {
    && (c < '\U{80}' ==> upper(c) == [if 'a' <= c <= 'z' then 'A' + (c - 'a') else c])
    && (Space(c) ==> upper(c) == [c])
    && (!Space(c) ==> SpaceFree(upper(c)))
  }

  ghost predicate Lawful(upper: char -> string) { forall c :: UpperCases(upper, c) }

  predicate SpaceFree(s: string) {
    forall c <- s :: !Space(c)
  }

  function RemoveSpaces(s: string): (t: string)
    ensures forall c <- t :: !Space(c)
    ensures (forall c <- s :: !Space(c)) ==> t == s
  {
    if s == "" then ""
    else
      var rest := RemoveSpaces(s[..|s| - 1]);
      if Space(s[|s| - 1]) then rest else rest + [s[|s| - 1]]
  }

  function StripPadding(s: string): (t: string)
    ensures t <= s
    ensures forall c <- s[|t|..] :: c == '='
    ensures t != "" ==> t[|t| - 1] != '='
  {
    if s == "" || s[|s| - 1] != '=' then s
    else
      var t := StripPadding(s[..|s| - 1]);
      assert s[|t|..] == s[..|s| - 1][|t|..] + ['='];
      t
  }

  /** totp-manager removes white space, totp-store does not. */
  function NormalizeSigned(upper: char -> string, s: string): string { StripPadding(RemoveSpaces(ToUpper(upper, s))) }

  function NormalizeUnsigned(upper: char -> string, s: string): string { StripPadding(ToUpper(upper, s)) }

  /** Upper case is taken character by character. */
  lemma {:induction false} ToUpperConcat(upper: char -> string, a: string, b: string)
    ensures ToUpper(upper, a + b) == ToUpper(upper, a) + ToUpper(upper, b)
  {
    if b == "" {
      assert a + b == a;
    } else {
      var n := |b| - 1;
      assert (a + b)[..|a| + n] == a + b[..n];
      ToUpperConcat(upper, a, b[..n]);
    }
  }

  lemma ToUpperOne(upper: char -> string, c: char)
    ensures ToUpper(upper, [c]) == upper(c)
  {
    assert [c][..0] == "";
  }

  /** A character behind a text stays unless it is white space, and changes nothing before it. */
  lemma RemoveSpacesSnoc(s: string, c: char)
    ensures RemoveSpaces(s + [c]) == RemoveSpaces(s) + (if Space(c) then "" else [c])
  {
    assert (s + [c])[..|s|] == s;
  }

  method TotpManagerDecode(upper: char -> string, encoded: string) returns (r: Result<seq<byte>, char>)
    ensures r == Decoding(StripPadding(RemoveSpaces(ToUpper(upper, encoded))))
  {
    r := DecodeSigned(NormalizeSigned(upper, encoded));
  }

  method TotpStoreDecode(upper: char -> string, encoded: string) returns (r: Result<seq<byte>, char>)
    ensures r == Decoding(StripPadding(ToUpper(upper, encoded)))
  {
    r := DecodeUnsigned(NormalizeUnsigned(upper, encoded));
  }

  lemma {:induction false} UpperKeepsSpaces(upper: char -> string, s: string)
    requires Lawful(upper)
    ensures SpaceFree(ToUpper(upper, s)) <==> SpaceFree(s)
  {
    if s != "" {
      var n := |s| - 1;
      UpperKeepsSpaces(upper, s[..n]);
      assert s == s[..n] + [s[n]];
      assert UpperCases(upper, s[n]);
      SpaceFreeConcat(s[..n], [s[n]]);
      SpaceFreeConcat(ToUpper(upper, s[..n]), upper(s[n]));
    }
  }

  lemma SpaceFreeConcat(a: string, b: string)
    ensures SpaceFree(a + b) <==> SpaceFree(a) && SpaceFree(b)
  {
    assert forall c :: c in a + b <==> c in a || c in b;
  }

  /** The two decoders see the same text exactly when it is free of white space; otherwise the one of
      totp-store rejects it. */
  lemma DecodersAgreeIff(upper: char -> string, encoded: string)
    requires Lawful(upper)
    ensures NormalizeSigned(upper, encoded) == NormalizeUnsigned(upper, encoded) <==> SpaceFree(encoded)
    ensures !SpaceFree(encoded) ==> Decoding(NormalizeUnsigned(upper, encoded)).Err?
  {
    UpperKeepsSpaces(upper, encoded);
    StrippedAgreeIff(ToUpper(upper, encoded));
  }

  lemma StrippedAgreeIff(u: string)
    ensures StripPadding(RemoveSpaces(u)) == StripPadding(u) <==> SpaceFree(u)
    ensures !SpaceFree(u) ==> Decoding(StripPadding(u)).Err?
  {
    var t := StripPadding(u);
    assert u == t + u[|t|..];
    if !SpaceFree(u) {
      var c :| c in u && Space(c);
      assert c in t;
      assert forall x <- StripPadding(RemoveSpaces(u)) :: x in RemoveSpaces(u);
    }
  }

  /** Mapping ASCII letters alone has the laws. */
  lemma AsciiUpperLawful()
    ensures Lawful(c => [UpperChar(c)])
  {}

  // ---- The encoder of RFC 4648 ---------------------------------------------------------------------------

  function BitsOfBytes(bytes: seq<byte>): (bits: seq<bool>)
    ensures |bits| == 8 * |bytes|
  {
    if bytes == [] then [] else BitsOfBytes(bytes[..|bytes| - 1]) + BitsOf(bytes[|bytes| - 1] as nat, 8)
  }

  function Zeros(k: nat): (bits: seq<bool>)
    ensures |bits| == k
  {
    seq(k, _ => false)
  }

  /** The bits in groups of five, the last group filled with zeros. */
  function Chars(bits: seq<bool>): (s: string)
    ensures Valid(s)
  {
    if bits == [] then ""
    else if |bits| < 5 then [CharOf(Value5(bits + Zeros(5 - |bits|)))]
    else [CharOf(Value5(bits[..5]))] + Chars(bits[5..])
  }

  function Value5(bits: seq<bool>): nat
    requires |bits| == 5
    ensures Value5(bits) < 32
  {
    assert Pow2(5) == 32 by { assert Pow2(3) == 8; }
    Value(bits)
  }

  function Encoding(bytes: seq<byte>): string {
    var s := Chars(BitsOfBytes(bytes));
    s + seq((8 - |s| % 8) % 8, _ => '=')
  }

  lemma {:induction false} BytesOfBits(bytes: seq<byte>)
    ensures Bytes(BitsOfBytes(bytes)) == bytes
  {
    if bytes != [] {
      var n := |bytes| - 1;
      var octet := BitsOf(bytes[n] as nat, 8);
      BytesOfBits(bytes[..n]);
      BytesAppend(BitsOfBytes(bytes[..n]), octet);
      Pow2Values();
    }
  }

  lemma Associated(x: seq<bool>, y: seq<bool>, z: seq<bool>)
    ensures (x + y) + z == x + (y + z)
  {}

  lemma {:induction false} BitStringConcat(a: string, b: string)
    requires Valid(a) && Valid(b)
    ensures BitString(a + b) == BitString(a) + BitString(b)
  {
    if b == "" {
      assert a + b == a;
    } else {
      var init, c := b[..|b| - 1], b[|b| - 1];
      BitStringConcat(a, init);
      assert b == init + [c];
      ConcatSnoc(a, init, c, BitString(a));
    }
  }

  lemma ConcatSnoc(a: string, b: string, c: char, bits: seq<bool>)
    requires Valid(a + b) && Valid(b) && InAlphabet(c) && BitString(a + b) == bits + BitString(b)
    ensures Valid(a + (b + [c])) && BitString(a + (b + [c])) == bits + BitString(b + [c])
  {
    BitStringSnoc(a + b, c);
    BitStringSnoc(b, c);
    assert a + (b + [c]) == (a + b) + [c];
    Associated(bits, BitString(b), BitsOf(IndexOf(c), 5));
  }

  lemma BitsOfGroup(bits: seq<bool>)
    requires |bits| == 5
    ensures BitString([CharOf(Value5(bits))]) == bits
  {
    Pow2Values();
    var c := CharOf(Value5(bits));
    assert [c][..0] == "";
    ValueInjective(BitsOf(IndexOf(c), 5), bits);
  }

  lemma {:induction false} BitsOfChars(bits: seq<bool>) returns (k: nat)
    ensures k < 5 && BitString(Chars(bits)) == bits + Zeros(k)
    decreases |bits|
  {
    if bits == [] {
      k := 0;
    } else if |bits| < 5 {
      k := 5 - |bits|;
      BitsOfGroup(bits + Zeros(k));
    } else {
      k := BitsOfChars(bits[5..]);
      BitsOfGroup(bits[..5]);
      BitStringConcat([CharOf(Value5(bits[..5]))], Chars(bits[5..]));
      GroupAndRest(bits, Zeros(k));
    }
  }

  lemma GroupAndRest(bits: seq<bool>, zeros: seq<bool>)
    requires |bits| >= 5
    ensures bits[..5] + (bits[5..] + zeros) == bits + zeros
  {}

  lemma {:induction false} PaddingStripped(s: string, k: nat)
    requires Valid(s)
    ensures StripPadding(s + seq(k, _ => '=')) == s
  {
    var padded := s + seq(k, _ => '=');
    if k == 0 {
      assert padded == s;
      assert s != "" ==> s[|s| - 1] in s;
    } else {
      assert padded[..|padded| - 1] == s + seq(k - 1, _ => '=');
      PaddingStripped(s, k - 1);
    }
  }

  lemma {:induction false} AlreadyNormal(upper: char -> string, s: string)
    requires Lawful(upper) && forall c <- s :: InAlphabet(c) || c == '='
    ensures ToUpper(upper, s) == s && RemoveSpaces(s) == s
  {
    if s != "" {
      var n := |s| - 1;
      assert forall c <- s[..n] :: c in s;
      AlreadyNormal(upper, s[..n]);
      assert s[n] in s;
      NormalCharacter(upper, s[n]);
      NormalLast(upper, s, s[..n], s[n]);
    }
  }

  lemma NormalCharacter(upper: char -> string, c: char)
    requires Lawful(upper) && (InAlphabet(c) || c == '=')
    ensures upper(c) == [c] && !Space(c)
  {
    assert UpperCases(upper, c);
  }

  lemma NormalLast(upper: char -> string, s: string, init: string, c: char)
    requires s != "" && init == s[..|s| - 1] && c == s[|s| - 1] && upper(c) == [c] && !Space(c)
    requires ToUpper(upper, init) == init && RemoveSpaces(init) == init
    ensures ToUpper(upper, s) == s && RemoveSpaces(s) == s
  {
    assert s == init + [c];
  }

  lemma EncodingIsNormal(upper: char -> string, bytes: seq<byte>)
    requires Lawful(upper)
    ensures var s := Chars(BitsOfBytes(bytes));
            NormalizeSigned(upper, Encoding(bytes)) == s && NormalizeUnsigned(upper, Encoding(bytes)) == s
  {
    var s := Chars(BitsOfBytes(bytes));
    var padding := seq((8 - |s| % 8) % 8, _ => '=');
    assert Encoding(bytes) == s + padding;
    forall c | c in s + padding
      ensures InAlphabet(c) || c == '='
    {
      assert c in s || c in padding;
    }
    AlreadyNormal(upper, s + padding);
    PaddingStripped(s, |padding|);
  }

  /** The zeros that fill the last group are dropped again. */
  lemma GroupsDecode(bits: seq<bool>)
    requires |bits| % 8 == 0
    ensures Bytes(BitString(Chars(bits))) == Bytes(bits)
  {
    var k := BitsOfChars(bits);
    BytesDropTail(bits, Zeros(k));
  }

  lemma CharsDecode(bytes: seq<byte>)
    ensures Bytes(BitString(Chars(BitsOfBytes(bytes)))) == bytes
  {
    BytesOfBits(bytes);
    WholeOctets(|bytes|);
    GroupsDecode(BitsOfBytes(bytes));
  }

  lemma WholeOctets(n: nat)
    ensures 8 * n % 8 == 0
  {}

  /** Round trip: both decoders invert the encoder, for byte strings of any length. */
  lemma DecodeEncode(upper: char -> string, bytes: seq<byte>)
    requires Lawful(upper)
    ensures Decoding(NormalizeSigned(upper, Encoding(bytes))) == Ok(bytes)
    ensures Decoding(NormalizeUnsigned(upper, Encoding(bytes))) == Ok(bytes)
  {
    EncodingIsNormal(upper, bytes);
    CharsDecode(bytes);
  }
}
