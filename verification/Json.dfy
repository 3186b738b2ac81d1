/** JSON values as JavaScript holds them, and JSON Pointers to their parts (RFC 6901). */
module Json {
  import opened Wrappers

  /** A number; the two zeros are distinct for `Object.is`, infinities and NaN come from YAML. */
  datatype Number = Finite(r: real) | NegativeZero | Infinite(negative: bool) | NotANumber

  /** Members are in insertion order. */
  datatype Value =
    | Null
    | Bool(b: bool)
    | Num(n: Number)
    | Str(s: string)
    | Arr(items: seq<Value>)
    | Obj(members: seq<Member>)

  datatype Member = Member(key: string, value: Value)

  /** The operator `<` on numbers. */
  predicate Less(a: Number, b: Number) {
    match (a, b)
    case (NotANumber, _) => false
    case (_, NotANumber) => false
    case (Infinite(x), Infinite(y)) => x && !y
    case (Infinite(x), _) => x
    case (_, Infinite(y)) => !y
    case _ => Real(a) < Real(b)
  }

  function Real(n: Number): real {
    if n.Finite? then n.r else 0.0
  }

  predicate IsFinite(n: Number) { n.Finite? || n.NegativeZero? }

  function Lookup(ms: seq<Member>, key: string): (v: Option<Value>)
    ensures v.Some? ==> v.value < Obj(ms)
    ensures v.Some? <==> HasKey(ms, key)
    ensures v.Some? ==> exists m <- ms :: m.key == key && m.value == v.value
  {
    if ms == [] then None
    else if ms[0].key == key then Some(ms[0].value)
    else
      assert forall m <- ms[1..] :: m in ms;
      Lookup(ms[1..], key)
  }

  /** `Object.prototype.hasOwnProperty`. */
  predicate HasKey(ms: seq<Member>, key: string) {
    exists m <- ms :: m.key == key
  }

  /** An object never has two members with one key. */
  predicate UniqueKeys(ms: seq<Member>) {
    forall i, j | 0 <= i < j < |ms| :: ms[i].key != ms[j].key
  }

  lemma {:induction false} LookupMember(ms: seq<Member>, i: nat)
    requires UniqueKeys(ms) && i < |ms|
    ensures Lookup(ms, ms[i].key) == Some(ms[i].value)
  {
    if i > 0 {
      LookupMember(ms[1..], i - 1);
    }
  }

  /** Every object inside the value has unique keys. */
  ghost predicate WellFormed(v: Value) {
    match v
    case Arr(items) => forall i | 0 <= i < |items| :: WellFormed(items[i])
    case Obj(ms) => UniqueKeys(ms) && forall i | 0 <= i < |ms| :: WellFormed(ms[i].value)
    case _ => true
  }

  /** `isDeepStrictEqual`: the order of members does not matter. */
  predicate DeepEqual(a: Value, b: Value)
    decreases a
  {
    match (a, b)
    case (Arr(xs), Arr(ys)) => |xs| == |ys| && forall i | 0 <= i < |xs| :: DeepEqual(xs[i], ys[i])
    case (Obj(xs), Obj(ys)) =>
      && |xs| == |ys|
      && forall i | 0 <= i < |xs| ::
           Lookup(ys, xs[i].key).Some? && DeepEqual(xs[i].value, Lookup(ys, xs[i].key).value)
    case _ => a == b
  }

  function Keys(ms: seq<Member>): set<string> { set m <- ms :: m.key }

  /** The same JSON data: equal elements in order, and equal members under the same keys. */
  ghost predicate SameData(a: Value, b: Value)
    decreases a
  {
    match (a, b)
    case (Arr(xs), Arr(ys)) => |xs| == |ys| && forall i | 0 <= i < |xs| :: SameData(xs[i], ys[i])
    case (Obj(xs), Obj(ys)) =>
      && Keys(xs) == Keys(ys)
      && forall i, j | 0 <= i < |xs| && 0 <= j < |ys| && xs[i].key == ys[j].key :: SameData(xs[i].value, ys[j].value)
    case _ => a == b
  }

  lemma {:induction false} KeysCount(ms: seq<Member>)
    requires UniqueKeys(ms)
    ensures |Keys(ms)| == |ms|
  {
    if ms != [] {
      var n := |ms| - 1;
      KeysCount(ms[..n]);
      assert ms == ms[..n] + [ms[n]];
      assert Keys(ms) == Keys(ms[..n]) + {ms[n].key};
    }
  }

  /** A set inside another of the same size is that set. */
  lemma Exhausted<T>(a: set<T>, b: set<T>)
    requires a <= b && |a| == |b|
    ensures a == b
  {
    if a != b {
      var x :| x in b && x !in a;
      Smaller(a, b - {x});
    }
  }

  lemma Smaller<T>(a: set<T>, b: set<T>)
    requires a <= b
    ensures |a| <= |b|
  {
    if a != {} {
      var x :| x in a;
      Smaller(a - {x}, b - {x});
    }
  }

  lemma KeysAgree(xs: seq<Member>, ys: seq<Member>)
    requires UniqueKeys(xs) && UniqueKeys(ys)
    ensures Keys(xs) == Keys(ys) <==> |xs| == |ys| && forall i | 0 <= i < |xs| :: HasKey(ys, xs[i].key)
  {
    KeysCount(xs);
    KeysCount(ys);
    if |xs| == |ys| && forall i | 0 <= i < |xs| :: HasKey(ys, xs[i].key) {
      assert Keys(xs) <= Keys(ys);
      Exhausted(Keys(xs), Keys(ys));
    } else if Keys(xs) == Keys(ys) {
      forall i | 0 <= i < |xs| ensures HasKey(ys, xs[i].key) {
        assert xs[i] in xs && xs[i].key in Keys(xs);
      }
    }
  }

  /** Comparing the number of members and looking up those of one side decides sameness. */
  lemma {:induction false} DeepEqualIff(a: Value, b: Value)
    requires WellFormed(a) && WellFormed(b)
    ensures DeepEqual(a, b) <==> SameData(a, b)
    decreases a
  {
    match (a, b)
    case (Arr(xs), Arr(ys)) =>
      forall i | 0 <= i < |xs| && |xs| == |ys| ensures DeepEqual(xs[i], ys[i]) <==> SameData(xs[i], ys[i]) {
        DeepEqualIff(xs[i], ys[i]);
      }
    case (Obj(xs), Obj(ys)) =>
      KeysAgree(xs, ys);
      forall i, j | 0 <= i < |xs| && 0 <= j < |ys| && xs[i].key == ys[j].key
        ensures Lookup(ys, xs[i].key) == Some(ys[j].value)
        ensures DeepEqual(xs[i].value, ys[j].value) <==> SameData(xs[i].value, ys[j].value)
      {
        LookupMember(ys, j);
        DeepEqualIff(xs[i].value, ys[j].value);
      }
      forall i | 0 <= i < |xs| && HasKey(ys, xs[i].key) ensures exists j :: 0 <= j < |ys| && ys[j].key == xs[i].key {
        var m :| m in ys && m.key == xs[i].key;
      }
    case _ =>
  }

  // ---- Decimal array indices ---------------------------------------------------------------------

  predicate IsDigit(c: char) { '0' <= c <= '9' }

  function DigitOf(n: nat): char
    requires n < 10
  {
    '0' + n as char
  }

  /** `String(n)`. */
  function Decimal(n: nat): (s: string)
    ensures s != "" && forall c <- s :: IsDigit(c)
    ensures s[0] == '0' <==> n == 0
    ensures n == 0 ==> s == "0"
  {
    if n < 10 then [DigitOf(n)] else Decimal(n / 10) + [DigitOf(n % 10)]
  }

  function DecimalValue(s: string): nat
    requires forall c <- s :: IsDigit(c)
  {
    if s == "" then 0
    else
      var c := s[|s| - 1];
      assert c in s && IsDigit(c);
      10 * DecimalValue(s[..|s| - 1]) + (c - '0') as nat
  }

  /** Section 4 of RFC 6901: digits without a leading zero. */
  predicate IndexToken(s: string) {
    s != "" && (forall c <- s :: IsDigit(c)) && (s[0] == '0' ==> s == "0")
  }

  lemma {:induction false} DecimalRoundTrip(n: nat)
    ensures IndexToken(Decimal(n)) && DecimalValue(Decimal(n)) == n
  {
    if n < 10 {
      assert Decimal(n)[..0] == "";
    } else {
      DecimalRoundTrip(n / 10);
      assert Decimal(n)[..|Decimal(n)| - 1] == Decimal(n / 10);
    }
  }

  // ---- Escaping (sections 3 and 4) ---------------------------------------------------------------

  /** `s.replace(/c/g, with)`. */
  function ReplaceAll(s: string, c: char, with: string): string {
    if s == "" then "" else (if s[0] == c then with else [s[0]]) + ReplaceAll(s[1..], c, with)
  }

  /** The token as `appendPointer` escapes it. */
  function Escape(token: string): string {
    ReplaceAll(ReplaceAll(token, '~', "~0"), '/', "~1")
  }

  function Unescape(s: string): Option<string> {
    if s == "" then Some("")
    else if s[0] == '~' then
      if |s| >= 2 && (s[1] == '0' || s[1] == '1') then
        match Unescape(s[2..])
        case None => None
        case Some(t) => Some([if s[1] == '0' then '~' else '/'] + t)
      else None
    else
      match Unescape(s[1..])
      case None => None
      case Some(t) => Some([s[0]] + t)
  }

  lemma {:induction false} ReplaceConcat(a: string, b: string, c: char, with: string)
    ensures ReplaceAll(a + b, c, with) == ReplaceAll(a, c, with) + ReplaceAll(b, c, with)
  {
    if a == "" {
      assert a + b == b;
    } else {
      assert (a + b)[1..] == a[1..] + b;
      ReplaceConcat(a[1..], b, c, with);
    }
  }

  lemma EscapeStep(token: string)
    requires token != ""
    ensures Escape(token) ==
            (if token[0] == '~' then "~0" else if token[0] == '/' then "~1" else [token[0]]) + Escape(token[1..])
  {
    var first := if token[0] == '~' then "~0" else [token[0]];
    assert first[0] != '/' || first == "/";
    ReplaceConcat(first, ReplaceAll(token[1..], '~', "~0"), '/', "~1");
    assert "~0"[1..] == "0" && "0"[1..] == "" && [token[0]][1..] == "";
    assert ReplaceAll("~0", '/', "~1") == "~0" by {
      assert ReplaceAll("0", '/', "~1") == "0";
    }
  }

  lemma {:induction false} EscapeRoundTrip(token: string)
    ensures '/' !in Escape(token)
    ensures Unescape(Escape(token)) == Some(token)
  {
    if token != "" {
      EscapeStep(token);
      EscapeRoundTrip(token[1..]);
      var e := Escape(token);
      assert token[0] == '~' || token[0] == '/' ==> e[2..] == Escape(token[1..]);
      assert token[0] != '~' && token[0] != '/' ==> e[1..] == Escape(token[1..]);
      assert token == [token[0]] + token[1..];
    }
  }

  // ---- Pointers -------------------------------------------------------------------------------------

  function AppendPointer(base: string, token: string): string { base + "/" + Escape(token) }

  function Render(tokens: seq<string>): string {
    if tokens == [] then "" else AppendPointer(Render(tokens[..|tokens| - 1]), tokens[|tokens| - 1])
  }

  /** The reference tokens of a pointer, read from its last solidus. */
  function Tokens(pointer: string): Option<seq<string>>
    decreases |pointer|
  {
    if pointer == "" then Some([])
    else if '/' !in pointer then None
    else
      var i := LastSlash(pointer);
      match (Tokens(pointer[..i]), Unescape(pointer[i + 1..]))
      case (Some(ts), Some(t)) => Some(ts + [t])
      case _ => None
  }

  function LastSlash(s: string): (i: nat)
    requires '/' in s
    ensures i < |s| && s[i] == '/' && '/' !in s[i + 1..]
  {
    if s[|s| - 1] == '/' then |s| - 1
    else
      var i := LastSlash(s[..|s| - 1]);
      assert s[i + 1..] == s[..|s| - 1][i + 1..] + [s[|s| - 1]];
      i
  }

  lemma PointerCut(base: string, e: string)
    ensures var s := base + "/" + e;
            |s| == |base| + 1 + |e| && s[|base|] == '/' && s[..|base|] == base && s[|base| + 1..] == e
  {}

  lemma LastSlashIs(s: string, n: nat)
    requires n < |s| && s[n] == '/' && '/' !in s[n + 1..]
    ensures LastSlash(s) == n
  {
    var i := LastSlash(s);
    assert forall k | n < k < |s| :: s[k] in s[n + 1..];
    assert forall k | i < k < |s| :: s[k] in s[i + 1..];
  }

  lemma TokensAppend(base: string, tokens: seq<string>, token: string)
    requires Tokens(base) == Some(tokens)
    ensures Tokens(AppendPointer(base, token)) == Some(tokens + [token])
  {
    PointerCut(base, Escape(token));
    EscapeRoundTrip(token);
    LastSlashIs(AppendPointer(base, token), |base|);
  }

  lemma {:induction false} RenderRoundTrip(tokens: seq<string>)
    ensures Tokens(Render(tokens)) == Some(tokens)
  {
    if tokens != [] {
      var n := |tokens| - 1;
      RenderRoundTrip(tokens[..n]);
      TokensAppend(Render(tokens[..n]), tokens[..n], tokens[n]);
      assert tokens == tokens[..n] + [tokens[n]];
    }
  }

  /** The member or the element a token refers to (section 4). */
  function Child(v: Value, token: string): Option<Value> {
    match v
    case Arr(items) =>
      if IndexToken(token) && DecimalValue(token) < |items| then Some(items[DecimalValue(token)]) else None
    case Obj(ms) => Lookup(ms, token)
    case _ => None
  }

  function Eval(doc: Value, tokens: seq<string>): Option<Value> {
    if tokens == [] then Some(doc)
    else
      match Eval(doc, tokens[..|tokens| - 1])
      case None => None
      case Some(v) => Child(v, tokens[|tokens| - 1])
  }

  lemma EvalSnoc(doc: Value, tokens: seq<string>, token: string)
    ensures Eval(doc, tokens + [token]) ==
            (match Eval(doc, tokens) case None => None case Some(v) => Child(v, token))
    ensures Render(tokens + [token]) == AppendPointer(Render(tokens), token)
  {
    assert (tokens + [token])[..|tokens|] == tokens;
  }
}
