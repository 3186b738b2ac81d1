/** A codec with the properties that KeyLog asks of JSON: what is proved about every lawful codec is
    about some codec. Records become lists of numbers, and lists of numbers one line of ASCII. */
module KeyCodec {
  import opened Utf8
  import opened KeyLog
  import opened Wrappers

  const ONE: byte := 0x61
  const NEXT: byte := 0x62
  const END: byte := 0x7D

  function Unary(n: nat): (s: seq<byte>)
    ensures |s| == n + 1 && s[n] == NEXT && forall i | 0 <= i < n :: s[i] == ONE
  {
    if n == 0 then [NEXT] else [ONE] + Unary(n - 1)
  }

  function Line(ns: seq<nat>): (s: seq<byte>)
    ensures s != [] && s[|s| - 1] == END
    ensures forall i | 0 <= i < |s| - 1 :: s[i] == ONE || s[i] == NEXT
  {
    if ns == [] then [END] else Unary(ns[0]) + Line(ns[1..])
  }

  lemma {:induction false} UnaryCancels(m: nat, n: nat, x: seq<byte>, y: seq<byte>)
    requires Unary(m) + x == Unary(n) + y
    ensures m == n && x == y
  {
    var s, t := Unary(m) + x, Unary(n) + y;
    assert s[0] == Unary(m)[0] && t[0] == Unary(n)[0];
    if m > 0 && n > 0 {
      assert s[1..] == Unary(m - 1) + x && t[1..] == Unary(n - 1) + y;
      UnaryCancels(m - 1, n - 1, x, y);
    } else if m == n {
      assert s[1..] == x && t[1..] == y;
    }
  }

  lemma {:induction false} LineInjective(a: seq<nat>, b: seq<nat>)
    requires Line(a) == Line(b)
    ensures a == b
  {
    assert Line(a)[0] == if a == [] then END else Unary(a[0])[0];
    assert Line(b)[0] == if b == [] then END else Unary(b[0])[0];
    if a != [] && b != [] {
      UnaryCancels(a[0], b[0], Line(a[1..]), Line(b[1..]));
      LineInjective(a[1..], b[1..]);
      assert a == [a[0]] + a[1..] && b == [b[0]] + b[1..];
    }
  }

  // ---- Records as numbers ----------------------------------------------------------------------------

  function IntNumber(i: int): nat { if i >= 0 then 2 * i else -2 * i - 1 }

  function OptionNumber(o: Option<int>): nat { if o.None? then 0 else 1 + IntNumber(o.value) }

  function ScopeNumber(s: Scope): nat {
    match s case Read => 0 case Write => 1 case Admin => 2 case HeadlessOnly => 3
  }

  function Text(s: string): (ns: seq<nat>)
    ensures |ns| == |s| + 1 && ns[0] == |s| && forall i | 0 <= i < |s| :: ns[i + 1] == s[i] as nat
  {
    [|s|] + seq(|s|, i requires 0 <= i < |s| => s[i] as nat)
  }

  function Scopes(s: seq<Scope>): (ns: seq<nat>)
    ensures |ns| == |s| + 1 && ns[0] == |s| && forall i | 0 <= i < |s| :: ns[i + 1] == ScopeNumber(s[i])
  {
    [|s|] + seq(|s|, i requires 0 <= i < |s| => ScopeNumber(s[i]))
  }

  function Numbers(r: ApiKey): seq<nat> {
    [IntNumber(r.createdAt), OptionNumber(r.expiresAt), OptionNumber(r.revokedAt), OptionNumber(r.lastUsedAt)]
    + (Text(r.keyId) + (Text(r.keyHash) + (Text(r.tenantId) + (Text(r.description) + Scopes(r.scopes)))))
  }

  lemma Cancels(a: seq<nat>, b: seq<nat>, x: seq<nat>, y: seq<nat>)
    requires a + x == b + y && |a| == |b|
    ensures a == b && x == y
  {
    assert a == (a + x)[..|a|] && b == (b + y)[..|a|];
    assert x == (a + x)[|a|..] && y == (b + y)[|a|..];
  }

  lemma TextCancels(s: string, t: string, x: seq<nat>, y: seq<nat>)
    requires Text(s) + x == Text(t) + y
    ensures s == t && x == y
  {
    assert (Text(s) + x)[0] == |s| && (Text(t) + y)[0] == |t|;
    Cancels(Text(s), Text(t), x, y);
    forall i | 0 <= i < |s| ensures s[i] == t[i] {
      assert Text(s)[i + 1] == Text(t)[i + 1];
    }
  }

  lemma ScopesInjective(s: seq<Scope>, t: seq<Scope>)
    requires Scopes(s) == Scopes(t)
    ensures s == t
  {
    forall i | 0 <= i < |s| ensures s[i] == t[i] {
      assert Scopes(s)[i + 1] == Scopes(t)[i + 1];
    }
  }

  lemma NumbersInjective(a: ApiKey, b: ApiKey)
    requires Numbers(a) == Numbers(b)
    ensures a == b
  {
    var ad, bd := Text(a.description) + Scopes(a.scopes), Text(b.description) + Scopes(b.scopes);
    var at, bt := Text(a.tenantId) + ad, Text(b.tenantId) + bd;
    var ah, bh := Text(a.keyHash) + at, Text(b.keyHash) + bt;
    Cancels([IntNumber(a.createdAt), OptionNumber(a.expiresAt), OptionNumber(a.revokedAt), OptionNumber(a.lastUsedAt)],
            [IntNumber(b.createdAt), OptionNumber(b.expiresAt), OptionNumber(b.revokedAt), OptionNumber(b.lastUsedAt)],
            Text(a.keyId) + ah, Text(b.keyId) + bh);
    TextCancels(a.keyId, b.keyId, ah, bh);
    TextCancels(a.keyHash, b.keyHash, at, bt);
    TextCancels(a.tenantId, b.tenantId, ad, bd);
    TextCancels(a.description, b.description, Scopes(a.scopes), Scopes(b.scopes));
    ScopesInjective(a.scopes, b.scopes);
    assert Numbers(a)[0] == Numbers(b)[0] && Numbers(a)[1] == Numbers(b)[1];
    assert Numbers(a)[2] == Numbers(b)[2] && Numbers(a)[3] == Numbers(b)[3];
  }

  function Stringify(r: ApiKey): seq<byte> { Line(Numbers(r)) }

  /** The record whose line this is, if it is one. */
  ghost function Parse(line: seq<byte>): (r: Option<ApiKey>)
    ensures r.Some? ==> Stringify(r.value) == line
    ensures r.None? ==> forall x :: Stringify(x) != line
  {
    if x :| Stringify(x) == line then Some(x) else None
  }

  lemma {:induction false} DecodedAscii(s: seq<byte>)
    requires forall i | 0 <= i < |s| :: s[i] < 0x80
    ensures Decoded(s) == s
  {
    if s != [] {
      assert FirstChunk(s) == Chunk(1, true);
      DecodedAscii(s[1..]);
      assert s == s[..1] + s[1..];
    }
  }

  lemma LineText(ns: seq<nat>, k: nat)
    requires k <= |Line(ns)|
    ensures Decoded(Line(ns)[..k]) == Line(ns)[..k] && LF !in Line(ns)
  {
    DecodedAscii(Line(ns)[..k]);
  }

  lemma ParsesBack(r: ApiKey)
    ensures Parse(Stringify(r)) == Some(r)
  {
    var x := Parse(Stringify(r));
    LineInjective(Numbers(x.value), Numbers(r));
    NumbersInjective(x.value, r);
  }

  /** Only a whole line has the end mark at its end. */
  lemma PrefixFails(ns: seq<nat>, k: nat)
    requires k < |Line(ns)|
    ensures Parse(Line(ns)[..k]) == None
  {
    forall x ensures Stringify(x) != Line(ns)[..k] {
      LastIsEnd(Numbers(x), Line(ns)[..k]);
    }
  }

  lemma LastIsEnd(ns: seq<nat>, s: seq<byte>)
    requires forall i | 0 <= i < |s| :: s[i] == ONE || s[i] == NEXT
    ensures Line(ns) != s
  {}

  lemma LawfulRecord(r: ApiKey, k: nat)
    ensures Decoded(Stringify(r)) == Stringify(r) && LF !in Stringify(r) && Parse(Stringify(r)) == Some(r)
    ensures k < |Stringify(r)| ==> Parse(Decoded(Stringify(r)[..k])) == None
  {
    var ns, s := Numbers(r), Stringify(r);
    LineText(ns, |s|);
    assert s[..|s|] == s;
    ParsesBack(r);
    if k < |s| {
      LineText(ns, k);
      PrefixFails(ns, k);
    }
  }

  lemma LawfulExists() returns (c: Codec)
    ensures Lawful(c)
  {
    c := Codec(line => Parse(line), r => Stringify(r));
    forall r: ApiKey ensures
        && Decoded(c.stringify(r)) == c.stringify(r) && LF !in c.stringify(r) && c.parse(c.stringify(r)) == Some(r)
        && forall k | 0 <= k < |c.stringify(r)| :: c.parse(Decoded(c.stringify(r)[..k])) == None {
      LawfulRecord(r, 0);
      forall k | 0 <= k < |c.stringify(r)| ensures c.parse(Decoded(c.stringify(r)[..k])) == None {
        LawfulRecord(r, k);
      }
    }
    assert forall r: ApiKey :: Stringify(r) != [];
  }
}
