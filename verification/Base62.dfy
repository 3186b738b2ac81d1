/** Fixed-width base62 (src/auth/api-key-store.ts, `base62Encode`). */
module Base62 {
  import opened Utf8

  function DigitChar(d: nat): (c: char)
    requires d < 62
    ensures Digit(c) && DigitValue(c) == d
  {
    if d < 10 then '0' + d as char
    else if d < 36 then 'A' + (d - 10) as char
    else 'a' + (d - 36) as char
  }

  predicate Digit(c: char) {
    '0' <= c <= '9' || 'A' <= c <= 'Z' || 'a' <= c <= 'z'
  }

  function DigitValue(c: char): (d: nat)
    requires Digit(c)
    ensures d < 62
  {
    if c <= '9' then (c - '0') as nat
    else if c <= 'Z' then (c - 'A') as nat + 10
    else (c - 'a') as nat + 36
  }

  /** `BASE62_ALPHABET`. */
  lemma Alphabet(d: nat)
    requires d < 62
    ensures DigitChar(d) == ("0123456789" + "ABCDEFGHIJKLMNOPQRSTUVWXYZ" + "abcdefghijklmnopqrstuvwxyz")[d]
  {
    if d >= 36 {
      SmallLetter(d - 36);
    } else if d >= 10 {
      CapitalLetter(d - 10);
    }
  }

  lemma CapitalLetter(d: nat)
    requires d < 26
    ensures 'A' + d as char == "ABCDEFGHIJKLMNOPQRSTUVWXYZ"[d]
  {}

  lemma SmallLetter(d: nat)
    requires d < 26
    ensures 'a' + d as char == "abcdefghijklmnopqrstuvwxyz"[d]
  {}

  function Pow(b: nat, e: nat): (p: nat)
    ensures b > 0 ==> p > 0
  {
    if e == 0 then 1 else b * Pow(b, e - 1)
  }

  lemma {:induction false} PowMonotone(b: nat, e: nat, f: nat)
    requires b > 0 && e <= f
    ensures Pow(b, e) <= Pow(b, f)
  {
    if e < f {
      PowMonotone(b, e, f - 1);
    }
  }

  /** The big-endian number of a buffer. */
  function BigEndian(buf: seq<byte>): nat {
    if buf == [] then 0 else BigEndian(buf[..|buf| - 1]) * 256 + buf[|buf| - 1] as nat
  }

  lemma {:induction false} BigEndianBound(buf: seq<byte>)
    ensures BigEndian(buf) < Pow(256, |buf|)
  {
    if buf != [] {
      BigEndianBound(buf[..|buf| - 1]);
    }
  }

  lemma SameDigits(base: nat, q: nat, r: nat, q': nat, r': nat)
    requires r < base && r' < base && q * base + r == q' * base + r'
    ensures q == q' && r == r'
  {
    assert (q - q') * base == r' - r;
    if q < q' {
      MulAtLeast(q' - q, base);
    } else if q' < q {
      MulAtLeast(q - q', base);
    }
  }

  lemma MulAtLeast(k: nat, base: nat)
    requires k >= 1
    ensures k * base >= base
  {}

  lemma {:induction false} BigEndianInjective(a: seq<byte>, b: seq<byte>)
    requires |a| == |b| && BigEndian(a) == BigEndian(b)
    ensures a == b
  {
    if a != [] {
      var n := |a| - 1;
      SameDigits(256, BigEndian(a[..n]), a[n] as nat, BigEndian(b[..n]), b[n] as nat);
      BigEndianInjective(a[..n], b[..n]);
      assert a == a[..n] + [a[n]] && b == b[..n] + [b[n]];
    }
  }

  /** The number a base62 text writes, most significant digit first. */
  function Decode(s: string): nat
    requires forall c <- s :: Digit(c)
  {
    if s == "" then 0 else Decode(s[..|s| - 1]) * 62 + DigitValue(s[|s| - 1])
  }

  predicate AllDigits(s: string) {
    forall c <- s :: Digit(c)
  }

  lemma NextDigit(d: nat, p: nat, x: nat, v: nat)
    ensures (d * p + x) * 62 + v == d * (62 * p) + (x * 62 + v)
  {}

  lemma {:induction false} DecodePrepend(d: nat, s: string)
    requires d < 62 && AllDigits(s)
    ensures AllDigits([DigitChar(d)] + s)
    ensures Decode([DigitChar(d)] + s) == d * Pow(62, |s|) + Decode(s)
  {
    var t := [DigitChar(d)] + s;
    if s == "" {
      assert t[..0] == "";
    } else {
      var n := |s| - 1;
      assert t[..|t| - 1] == [DigitChar(d)] + s[..n];
      DecodePrepend(d, s[..n]);
      NextDigit(d, Pow(62, n), Decode(s[..n]), DigitValue(s[n]));
    }
  }

  /** The least L with 62^L >= 256^n: the ceiling of n * log(256) / log(62). */
  function TargetLength(n: nat): (l: nat)
    ensures Pow(62, l) >= Pow(256, n)
    ensures l > 0 ==> Pow(62, l - 1) < Pow(256, n)
  {
    LeastPower(Pow(256, n), 0)
  }

  function LeastPower(bound: nat, from: nat): (l: nat)
    requires from > 0 ==> Pow(62, from - 1) < bound
    ensures Pow(62, l) >= bound
    ensures l > 0 ==> Pow(62, l - 1) < bound
    decreases bound - Pow(62, from)
  {
    if Pow(62, from) >= bound then from else LeastPower(bound, from + 1)
  }

  /** What the rest of a number and the digits split off so far stand for. */
  function Stands(num: nat, out: string): nat
    requires AllDigits(out)
  {
    num * Pow(62, |out|) + Decode(out)
  }

  lemma StandsEnds(n: nat, out: string)
    requires AllDigits(out)
    ensures Stands(n, "") == n && Stands(0, out) == Decode(out)
  {}

  /** One turn of the digit loop keeps the number that the rest and the digits so far stand for. */
  lemma DigitStep(num: nat, out: string)
    requires num > 0 && AllDigits(out)
    ensures var out' := [DigitChar(num % 62)] + out;
            && AllDigits(out')
            && Stands(num / 62, out') == Stands(num, out)
            && (num / 62 == 0 ==> Decode(out') >= Pow(62, |out|))
            && num / 62 < num
  {
    var q, rem, p := num / 62, num % 62, Pow(62, |out|);
    DecodePrepend(rem, out);
    Regroup(num, p);
    assert Pow(62, |out| + 1) == 62 * p;
  }

  lemma Regroup(num: nat, p: nat)
    requires num > 0 && p > 0
    ensures (num / 62) * (62 * p) + (num % 62) * p == num * p
    ensures num / 62 == 0 ==> (num % 62) * p >= p
  {
    var q, rem := num / 62, num % 62;
    assert num == 62 * q + rem;
    assert q * (62 * p) == (62 * q) * p;
    assert (62 * q) * p + rem * p == (62 * q + rem) * p;
    if q == 0 {
      MulAtLeast(rem, p);
    }
  }

  /** The fixed-width text of a buffer: exactly the target width, the same big-endian number. */
  ghost predicate Encodes(s: string, buf: seq<byte>) {
    |s| == TargetLength(|buf|) && AllDigits(s) && Decode(s) == BigEndian(buf)
  }

  method ToNumber(buf: seq<byte>) returns (num: nat)
    ensures num == BigEndian(buf)
  {
    num := 0;
    for i := 0 to |buf|
      invariant num == BigEndian(buf[..i])
    {
      num := num * 256 + buf[i] as nat;
      assert buf[..i + 1][..i] == buf[..i];
    }
    assert buf[..|buf|] == buf;
  }

  /** A text whose first digit is not zero is no longer than the target. */
  lemma WithinTarget(buf: seq<byte>, out: string)
    requires AllDigits(out) && Decode(out) == BigEndian(buf)
    requires out == "" || Decode(out) >= Pow(62, |out| - 1)
    ensures |out| <= TargetLength(|buf|)
  {
    BigEndianBound(buf);
    var target := TargetLength(|buf|);
    if |out| > target {
      PowMonotone(62, target, |out| - 1);
    }
  }

  method Digits(n: nat) returns (out: string)
    ensures AllDigits(out) && Decode(out) == n
    ensures out == "" || n >= Pow(62, |out| - 1)
  {
    var num := n;
    out := "";
    StandsEnds(n, out);
    while num > 0
      invariant AllDigits(out) && Stands(num, out) == n
      invariant num == 0 ==> out == "" || Decode(out) >= Pow(62, |out| - 1)
    {
      DigitStep(num, out);
      num, out := num / 62, [DigitChar(num % 62)] + out;
    }
    StandsEnds(n, out);
  }

  method Encode(buf: seq<byte>) returns (out: string)
    ensures Encodes(out, buf)
  {
    if |buf| == 0 {
      return "";
    }
    var num := ToNumber(buf);
    out := Digits(num);
    var target := TargetLength(|buf|);
    WithinTarget(buf, out);
    while |out| < target
      invariant |out| <= target
      invariant AllDigits(out) && Decode(out) == BigEndian(buf)
    {
      DecodePrepend(0, out);
      out := [DigitChar(0)] + out;
    }
  }

  /** Among the texts of one width only one writes a given number. */
  lemma {:induction false} EncodingUnique(s: string, t: string)
    requires |s| == |t| && AllDigits(s) && AllDigits(t) && Decode(s) == Decode(t)
    ensures s == t
  {
    if s != "" {
      var n := |s| - 1;
      SameDigits(62, Decode(s[..n]), DigitValue(s[n]), Decode(t[..n]), DigitValue(t[n]));
      EncodingUnique(s[..n], t[..n]);
      assert DigitChar(DigitValue(s[n])) == s[n] && DigitChar(DigitValue(t[n])) == t[n];
      assert s == s[..n] + [s[n]] && t == t[..n] + [t[n]];
    }
  }

  /** Every buffer has one encoding, and no other buffer of its length shares it. */
  lemma EncodingInjective(a: seq<byte>, b: seq<byte>, s: string, t: string)
    requires |a| == |b| && Encodes(s, a) && Encodes(t, b)
    ensures s == t <==> a == b
  {
    if s == t {
      BigEndianInjective(a, b);
    }
    if a == b {
      EncodingUnique(s, t);
    }
  }
}
