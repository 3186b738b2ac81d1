/** One-time codes from a keyed hash (src/auth/totp-manager.ts, cli/totp-store.ts): the counter block of
    RFC 6238 and the truncation of RFC 4226, section 5.3. */
module Totp {
  import opened JsBits
  import opened Json
  import opened Wrappers

  type Byte = b: int | 0 <= b < 256

  const WORD: nat := 0x1_0000_0000

  /** The number a block of bytes stands for, most significant byte first. */
  function BigEndian(bs: seq<Byte>): (n: nat)
  {
    if bs == [] then 0 else 256 * BigEndian(bs[..|bs| - 1]) + bs[|bs| - 1]
  }

  function Word(a: Byte, b: Byte, c: Byte, d: Byte): nat { a * 0x100_0000 + b * 0x1_0000 + c * 0x100 + d }

  lemma BigEndianFour(bs: seq<Byte>)
    requires |bs| == 4
    ensures BigEndian(bs) == Word(bs[0], bs[1], bs[2], bs[3])
  {
    assert bs[..3][..2] == bs[..2] && bs[..2][..1] == bs[..1] && bs[..1][..0] == [];
    assert BigEndian(bs[..1]) == bs[0];
    assert BigEndian(bs[..2]) == 256 * BigEndian(bs[..1]) + bs[1];
    assert BigEndian(bs[..3]) == 256 * BigEndian(bs[..2]) + bs[2];
  }

  lemma Bytes(value: nat)
    requires value < WORD
    ensures value / 0x100_0000 < 256
    ensures value == Word(value / 0x100_0000, value / 0x1_0000 % 256, value / 0x100 % 256, value % 256)
  {
    Quotients(value, 0x100);
    Quotients(value, 0x1_0000);
  }

  lemma Quotients(value: nat, k: nat)
    requires k == 0x100 || k == 0x1_0000
    ensures value / k == value / (256 * k) * 256 + value / k % 256
  {
    assert value / k / 256 == value / (256 * k);
  }

  lemma {:induction false} BigEndianConcat(a: seq<Byte>, b: seq<Byte>)
    requires |b| == 4
    ensures BigEndian(a + b) == BigEndian(a) * WORD + BigEndian(b)
  {
    var s := a + b;
    var n := |s|;
    assert s[..n - 1][..n - 2] == s[..n - 2] && s[..n - 2][..n - 3] == s[..n - 3] && s[..n - 3][..n - 4] == a;
    assert BigEndian(s[..n - 3]) == 256 * BigEndian(a) + b[0];
    assert BigEndian(s[..n - 2]) == 256 * BigEndian(s[..n - 3]) + b[1];
    assert BigEndian(s[..n - 1]) == 256 * BigEndian(s[..n - 2]) + b[2];
    BigEndianFour(b);
  }

  /** `writeUInt32BE`, which throws outside the range of 32 bits. */
  method WriteUInt32BE(buffer: array<Byte>, value: int, offset: nat) returns (ok: bool)
    requires offset + 4 <= buffer.Length
    modifies buffer
    ensures ok <==> 0 <= value < WORD
    ensures ok ==> BigEndian(buffer[offset..offset + 4]) == value
    ensures buffer[..offset] == old(buffer[..offset]) && buffer[offset + 4..] == old(buffer[offset + 4..])
  {
    ok := 0 <= value < WORD;
    if ok {
      buffer[offset], buffer[offset + 1] := value / 0x100_0000, value / 0x1_0000 % 256;
      buffer[offset + 2], buffer[offset + 3] := value / 0x100 % 256, value % 256;
      Bytes(value);
      BigEndianFour(buffer[offset..offset + 4]);
    }
  }

  /** The counter as eight bytes: `Math.floor(t / 2^32)` and `t >>> 0`, each written on its own. */
  method CounterBuffer(counter: int) returns (buffer: array<Byte>, ok: bool)
    ensures fresh(buffer) && buffer.Length == 8
    ensures ok <==> 0 <= counter < WORD * WORD
    ensures ok ==> BigEndian(buffer[..]) == counter
  {
    buffer := new Byte[8](_ => 0);
    ok := WriteUInt32BE(buffer, counter / WORD, 0);
    if ok {
      ghost var high := buffer[0..4];
      ok := WriteUInt32BE(buffer, counter % WORD, 4);
      assert buffer[..4] == high;
      assert buffer[..] == high + buffer[4..8];
      BigEndianConcat(high, buffer[4..8]);
    }
  }

  /** Different counters give different blocks. */
  lemma {:induction false} BlocksInjective(a: seq<Byte>, b: seq<Byte>)
    requires |a| == |b| && BigEndian(a) == BigEndian(b)
    ensures a == b
  {
    if a != [] {
      var n := |a| - 1;
      assert BigEndian(a) == 256 * BigEndian(a[..n]) + a[n] && BigEndian(b) == 256 * BigEndian(b[..n]) + b[n];
      BlocksInjective(a[..n], b[..n]);
      assert a == a[..n] + [a[n]] && b == b[..n] + [b[n]];
    }
  }

  // ---- Truncation ------------------------------------------------------------------------------------

  lemma LowNibble(b: Byte)
    ensures And(b, 0x0f) == b % 16
  {
    Powers();
    LowBits(b, 4, 16);
  }

  lemma LowSeven(b: Byte)
    ensures And(b, 0x7f) == b % 128
  {
    Powers();
    LowBits(b, 7, 128);
  }

  lemma WholeByte(b: Byte)
    ensures And(b, 0xff) == b
  {
    LowEight(b);
  }

  lemma Shifted(a: nat, b: Byte, c: Byte)
    requires a < 128
    ensures ShiftLeft(a, 24) == a * 0x100_0000 && ShiftLeft(b, 16) == b * 0x1_0000 && ShiftLeft(c, 8) == c * 0x100
  {
    Powers();
  }

  /** The four shifted bytes have no bit in common, so the bitwise or is their sum. */
  lemma OrIsWord(a: Byte, b: Byte, c: Byte, d: Byte)
    ensures Or(Or(Or(a * 0x100_0000, b * 0x1_0000), c * 0x100), d) == Word(a, b, c, d)
  {
    Powers();
    OrBelow(a, 24, b * 0x1_0000);
    OrBelow(a * 0x100 + b, 16, c * 0x100);
    OrBelow(a * 0x1_0000 + b * 0x100 + c, 8, d);
  }

  /** `dynamicTruncation`: the low 31 bits of the four bytes at the offset that the last byte names. */
  function DynamicTruncation(hmac: seq<Byte>): (r: nat)
    requires |hmac| >= 20
    ensures var offset := hmac[|hmac| - 1] % 16; r == BigEndian(hmac[offset..offset + 4]) % 0x8000_0000
  {
    LowNibble(hmac[|hmac| - 1]);
    var offset := And(hmac[|hmac| - 1], 0x0f);
    var a, b, c, d := hmac[offset], hmac[offset + 1], hmac[offset + 2], hmac[offset + 3];
    TruncatedWord(a, b, c, d);
    BigEndianFour(hmac[offset..offset + 4]);
    Or(Or(Or(ShiftLeft(And(a, 0x7f), 24), ShiftLeft(And(b, 0xff), 16)), ShiftLeft(And(c, 0xff), 8)), And(d, 0xff))
  }

  lemma TruncatedWord(a: Byte, b: Byte, c: Byte, d: Byte)
    ensures ShiftLeft(And(a, 0x7f), 24) >= 0 && ShiftLeft(And(b, 0xff), 16) >= 0 && ShiftLeft(And(c, 0xff), 8) >= 0
    ensures Or(Or(Or(ShiftLeft(And(a, 0x7f), 24), ShiftLeft(And(b, 0xff), 16)), ShiftLeft(And(c, 0xff), 8)), And(d, 0xff)) ==
            Word(a, b, c, d) % 0x8000_0000
  {
    LowSeven(a);
    WholeByte(b);
    WholeByte(c);
    WholeByte(d);
    Shifted(a % 128, b, c);
    OrIsWord(a % 128, b, c, d);
    TopBit(a, b, c, d);
  }

  lemma TopBit(a: Byte, b: Byte, c: Byte, d: Byte)
    ensures Word(a % 128, b, c, d) == Word(a, b, c, d) % 0x8000_0000
  {
    assert Word(a, b, c, d) == (a / 128) * 0x8000_0000 + Word(a % 128, b, c, d);
  }

  // ---- The code ----------------------------------------------------------------------------------------

  function Pow10(n: nat): (p: nat)
    ensures p > 0
  {
    if n == 0 then 1 else 10 * Pow10(n - 1)
  }

  function Zeros(n: nat): (s: string)
    ensures |s| == n && forall c <- s :: c == '0'
  {
    if n == 0 then "" else "0" + Zeros(n - 1)
  }

  function PadStart(s: string, n: nat): string { if |s| >= n then s else Zeros(n - |s|) + s }

  function Code(truncated: nat, digits: nat): string { PadStart(Decimal(truncated % Pow10(digits)), digits) }

  lemma {:induction false} DecimalLength(n: nat, digits: nat)
    requires digits > 0 && n < Pow10(digits)
    ensures |Decimal(n)| <= digits
  {
    if digits == 1 {
      assert Pow10(1) == 10 * Pow10(0);
    } else if n >= 10 {
      DecimalLength(n / 10, digits - 1);
    }
  }

  lemma {:induction false} PaddedValue(s: string, n: nat)
    requires forall c <- s :: IsDigit(c)
    ensures forall c <- Zeros(n) + s :: IsDigit(c)
    ensures DecimalValue(Zeros(n) + s) == DecimalValue(s)
  {
    var t := Zeros(n) + s;
    if s == "" {
      assert t == Zeros(n);
      ZerosValue(n);
    } else {
      var m := |s| - 1;
      assert forall c <- s[..m] :: c in s;
      PaddedValue(s[..m], n);
      assert t[..|t| - 1] == Zeros(n) + s[..m];
    }
  }

  lemma {:induction false} ZerosValue(n: nat)
    ensures (forall c <- Zeros(n) :: IsDigit(c)) && DecimalValue(Zeros(n)) == 0
  {
    if n > 0 {
      ZerosValue(n - 1);
      ZerosSnoc(n - 1);
      assert Zeros(n)[..n - 1] == Zeros(n - 1);
    }
  }

  lemma {:induction false} ZerosSnoc(n: nat)
    ensures Zeros(n + 1) == Zeros(n) + "0"
  {
    if n > 0 {
      ZerosSnoc(n - 1);
    }
  }

  /** The code has exactly the wanted number of digits, and they are the number modulo that power of ten. */
  lemma CodeDigits(truncated: nat, digits: nat)
    requires digits > 0
    ensures |Code(truncated, digits)| == digits
    ensures forall c <- Code(truncated, digits) :: IsDigit(c)
    ensures DecimalValue(Code(truncated, digits)) == truncated % Pow10(digits)
  {
    var n := truncated % Pow10(digits);
    DecimalLength(n, digits);
    DecimalRoundTrip(n);
    PadDigits(Decimal(n), digits);
  }

  lemma PadDigits(s: string, n: nat)
    requires |s| <= n && forall c <- s :: IsDigit(c)
    ensures |PadStart(s, n)| == n && forall c <- PadStart(s, n) :: IsDigit(c)
    ensures DecimalValue(PadStart(s, n)) == DecimalValue(s)
  {
    if |s| < n {
      PaddedValue(s, n - |s|);
    }
  }

  // ---- The code is the last digits of the number ---------------------------------------------------------

  lemma {:induction false} SplitValue(a: string, b: string)
    requires (forall c <- a :: IsDigit(c)) && forall c <- b :: IsDigit(c)
    ensures forall c <- a + b :: IsDigit(c)
    ensures DecimalValue(a + b) == DecimalValue(a) * Pow10(|b|) + DecimalValue(b)
  {
    if b == "" {
      assert a + b == a;
    } else {
      var n := |b| - 1;
      assert forall c <- b[..n] :: c in b;
      assert (a + b)[..|a| + n] == a + b[..n];
      SplitValue(a, b[..n]);
      Tenfold(DecimalValue(a), Pow10(n), DecimalValue(b[..n]));
      assert b[n] in b;
    }
  }

  lemma Tenfold(x: nat, p: nat, y: nat)
    ensures 10 * (x * p + y) == x * (10 * p) + 10 * y
  {}

  lemma {:induction false} ValueBound(s: string)
    requires forall c <- s :: IsDigit(c)
    ensures DecimalValue(s) < Pow10(|s|)
  {
    if s != "" {
      var n := |s| - 1;
      assert forall c <- s[..n] :: c in s;
      ValueBound(s[..n]);
      assert s[n] in s;
    }
  }

  lemma {:induction false} SameValueSameDigits(s: string, t: string)
    requires |s| == |t| && (forall c <- s :: IsDigit(c)) && (forall c <- t :: IsDigit(c))
    requires DecimalValue(s) == DecimalValue(t)
    ensures s == t
  {
    if s != "" {
      var n := |s| - 1;
      assert (forall c <- s[..n] :: c in s) && (forall c <- t[..n] :: c in t) && s[n] in s && t[n] in t;
      SameValueSameDigits(s[..n], t[..n]);
      assert s == s[..n] + [s[n]] && t == t[..n] + [t[n]];
    }
  }

  /** The last digits of a number, with zeros in front where it has fewer. */
  function LastDigits(n: nat, digits: nat): (s: string)
    ensures |s| == digits
  {
    (Zeros(digits) + Decimal(n))[|Decimal(n)|..]
  }

  lemma CodeIsTail(truncated: nat, digits: nat)
    requires digits > 0
    ensures Code(truncated, digits) == LastDigits(truncated, digits)
  {
    var s, code := Zeros(digits) + Decimal(truncated), Code(truncated, digits);
    var front, tail := s[..|Decimal(truncated)|], LastDigits(truncated, digits);
    assert s == front + tail;
    PaddedValue(Decimal(truncated), digits);
    DecimalRoundTrip(truncated);
    CodeDigits(truncated, digits);
    assert (forall c <- front :: c in s) && forall c <- tail :: c in s;
    SplitValue(front, tail);
    ValueBound(tail);
    TailValue(truncated, Pow10(digits), DecimalValue(front), DecimalValue(tail));
    SameValueSameDigits(code, tail);
  }

  lemma TailValue(x: nat, p: nat, q: nat, r: nat)
    requires r < p && x == q * p + r
    ensures x % p == r
  {
    Remainder(x, p, q, r);
  }

  /** RFC 4226, section 5.3: the last digits of the number that the hash of the block truncates to. */
  ghost predicate CodeOf(hash: seq<Byte>, digits: nat, code: string)
    requires |hash| >= 20
  {
    var offset := hash[|hash| - 1] % 16;
    code == LastDigits(BigEndian(hash[offset..offset + 4]) % 0x8000_0000, digits)
  }

  lemma CodeOfHash(hash: seq<Byte>, digits: nat)
    requires |hash| >= 20 && digits > 0
    ensures CodeOf(hash, digits, Code(DynamicTruncation(hash), digits))
  {
    CodeIsTail(DynamicTruncation(hash), digits);
  }

  /** Both generators, for a key already decoded: `mac` is the keyed hash. None when the counter is negative
      or needs more than eight bytes. */
  method Generate(mac: seq<Byte> -> seq<Byte>, nowMs: nat, period: nat, digits: nat, timeOffset: int)
    returns (code: Option<string>)
    requires period > 0 && digits > 0 && forall block :: |mac(block)| >= 20
    ensures var counter := nowMs / (1000 * period) + timeOffset;
            if counter < 0 || counter >= WORD * WORD then code == None
            else
              && code.Some?
              && exists block: seq<Byte> | |block| == 8 && BigEndian(block) == counter ::
                   CodeOf(mac(block), digits, code.value)
  {
    var counter := nowMs / (1000 * period) + timeOffset;
    var buffer, ok := CounterBuffer(counter);
    if !ok {
      return None;
    }
    var hash := mac(buffer[..]);
    CodeOfHash(hash, digits);
    return Some(Code(DynamicTruncation(hash), digits));
  }
}
