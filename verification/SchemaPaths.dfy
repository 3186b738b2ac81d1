/** Where the validator's diagnostics point: every instance path and every schema path is a JSON
    Pointer (RFC 6901) to a real part of its document, and what is said there is true. */
module SchemaPaths {
  import opened Json
  import opened Schema
  import opened Wrappers

  /** What is validated: a value against a schema. */
  datatype Subject = Subject(dl: Dialect, doc: Value, root: Value)

  /** A keyword, other than those about the keys of an object, fails for the value itself. */
  ghost predicate Violated(dl: Dialect, c: Code, v: Value, k: seq<Member>) {
    match c
    case OneOf => !OneOfOk(dl, v, k)
    case AnyOf => !AnyOfOk(dl, v, k)
    case Type => !TypeOk(dl, v, k)
    case Enum => !EnumOk(dl, v, k)
    case Const => !ConstOk(dl, v, k)
    case Minimum => !MinimumOk(dl, v, k)
    case Maximum => !MaximumOk(dl, v, k)
    case MinLength => !MinLengthOk(dl, v, k)
    case MaxLength => !MaxLengthOk(dl, v, k)
    case Pattern => !PatternOk(dl, v, k)
    case MinItems => !MinItemsOk(dl, v, k)
    case MaxItems => !MaxItemsOk(dl, v, k)
    case _ => false
  }

  function Init(tokens: seq<string>): seq<string>
    requires tokens != []
  {
    tokens[..|tokens| - 1]
  }

  function Last(tokens: seq<string>): string
    requires tokens != []
  {
    tokens[|tokens| - 1]
  }

  /** The key is required and missing, or present and not declared where that is forbidden or only noted. */
  predicate KeyExplained(dl: Dialect, severity: Severity, c: Code, ms: seq<Member>, k: seq<Member>, key: string) {
    match c
    case Required => severity == Error && key in RequiredKeys(dl, k) && !HasKey(ms, key)
    case AdditionalProperty =>
      && severity == Error && HasKey(ms, key) && !HasKey(Properties(dl, k), key)
      && Lookup(k, dl.additionalProperties) == Some(Bool(false))
    case AdditionalPropertyOpen =>
      && severity == Warning && HasKey(ms, key) && !HasKey(Properties(dl, k), key)
      && (SubSchema(k, dl.additionalProperties).Some? ==> Lookup(k, dl.additionalProperties) == Some(Bool(true)))
    case _ => false
  }

  predicate AboutKey(c: Code) { c.Required? || c.AdditionalProperty? || c.AdditionalPropertyOpen? }

  /** The diagnostic tells the truth about the parts that its tokens lead to. */
  ghost predicate Explained(x: Subject, severity: Severity, c: Code, it: seq<string>, st: seq<string>) {
    if c == SchemaFalse then severity == Error && Eval(x.doc, it).Some? && Eval(x.root, st) == Some(Bool(false))
    else
      && st != [] && Last(st) == Keyword(x.dl, c)
      && match Eval(x.root, Init(st))
         case Some(Obj(k)) =>
           if AboutKey(c) then
             && it != []
             && (match Eval(x.doc, Init(it))
                 case Some(Obj(ms)) => KeyExplained(x.dl, severity, c, ms, k, Last(it))
                 case _ => false)
           else ValueExplained(x, severity, c, k, it)
         case _ => false
  }

  ghost predicate ValueExplained(x: Subject, severity: Severity, c: Code, k: seq<Member>, it: seq<string>) {
    severity == Error && Eval(x.doc, it).Some? && Violated(x.dl, c, Eval(x.doc, it).value, k)
  }

  ghost predicate Justified(x: Subject, d: Diagnostic) {
    && Tokens(d.instancePath).Some? && Tokens(d.schemaPath).Some?
    && Explained(x, d.severity, d.code, Tokens(d.instancePath).value, Tokens(d.schemaPath).value)
  }

  ghost predicate AllJustified(x: Subject, ds: seq<Diagnostic>) {
    forall d <- ds :: Justified(x, d)
  }

  lemma ViolatedPresent(dl: Dialect, c: Code, v: Value, k: seq<Member>)
    requires Violated(dl, c, v, k)
    ensures Lookup(k, Keyword(dl, c)).Some?
  {
    if c == OneOf {
      assert Branches(k, dl.oneOf).Some?;
    } else if c == AnyOf {
      assert Branches(k, dl.anyOf).Some?;
    } else if c == Type {
      assert DeclaredTypes(dl, k) != [];
    }
  }

  /** The instance path reaches a value, or names a missing key of an object it reaches; the schema path
      reaches a part of the schema, unless it is the note about an open property. */
  lemma PathsReachRealParts(x: Subject, d: Diagnostic)
    requires Justified(x, d)
    ensures var it := Tokens(d.instancePath).value;
            if d.code == Required
            then it != [] && Eval(x.doc, Init(it)).Some? && Eval(x.doc, Init(it)).value.Obj? && Eval(x.doc, it) == None
            else Eval(x.doc, it).Some?
    ensures d.code != AdditionalPropertyOpen ==> Eval(x.root, Tokens(d.schemaPath).value).Some?
    ensures d.severity == Warning <==> d.code == AdditionalPropertyOpen
  {
    var it, st := Tokens(d.instancePath).value, Tokens(d.schemaPath).value;
    if d.code != SchemaFalse {
      var k := Eval(x.root, Init(st)).value.members;
      if !AboutKey(d.code) {
        ViolatedPresent(x.dl, d.code, Eval(x.doc, it).value, k);
      } else if d.code == Required {
        RequiredPresent(x.dl, k, Last(it));
      }
    }
  }

  lemma RequiredPresent(dl: Dialect, k: seq<Member>, key: string)
    requires key in RequiredKeys(dl, k)
    ensures Lookup(k, dl.required).Some?
  {}

  // ---- Reporting at a known place -----------------------------------------------------------------

  lemma TokensSnoc(tokens: seq<string>, token: string)
    ensures AppendPointer(Render(tokens), token) == Render(tokens + [token])
    ensures Tokens(AppendPointer(Render(tokens), token)) == Some(tokens + [token])
    ensures Init(tokens + [token]) == tokens && Last(tokens + [token]) == token
  {
    assert (tokens + [token])[..|tokens|] == tokens;
    RenderRoundTrip(tokens + [token]);
  }

  lemma Report(x: Subject, c: Code, v: Value, k: seq<Member>, it: seq<string>, st: seq<string>)
    requires Eval(x.doc, it) == Some(v) && Eval(x.root, st) == Some(Obj(k))
    requires Violated(x.dl, c, v, k)
    ensures Justified(x, Diagnostic(Error, c, Render(it), AppendPointer(Render(st), Keyword(x.dl, c))))
  {
    ViolatedKind(x.dl, c, v, k);
    ReportTrue(x, c, k, it, st);
  }

  lemma ViolatedKind(dl: Dialect, c: Code, v: Value, k: seq<Member>)
    requires Violated(dl, c, v, k)
    ensures !AboutKey(c) && c != SchemaFalse
  {}

  lemma ReportTrue(x: Subject, c: Code, k: seq<Member>, it: seq<string>, st: seq<string>)
    requires Eval(x.root, st) == Some(Obj(k))
    requires ValueExplained(x, Error, c, k, it) && !AboutKey(c) && c != SchemaFalse
    ensures Justified(x, Diagnostic(Error, c, Render(it), AppendPointer(Render(st), Keyword(x.dl, c))))
  {
    RenderRoundTrip(it);
    TokensSnoc(st, Keyword(x.dl, c));
    ExplainedHere(x, c, k, it, st);
  }

  lemma ExplainedHere(x: Subject, c: Code, k: seq<Member>, it: seq<string>, st: seq<string>)
    requires Eval(x.root, st) == Some(Obj(k))
    requires ValueExplained(x, Error, c, k, it) && !AboutKey(c) && c != SchemaFalse
    ensures Explained(x, Error, c, it, st + [Keyword(x.dl, c)])
  {
    assert Init(st + [Keyword(x.dl, c)]) == st;
  }

  lemma ReportKey(x: Subject, severity: Severity, c: Code, ms: seq<Member>, k: seq<Member>, key: string,
                  it: seq<string>, st: seq<string>)
    requires Eval(x.doc, it) == Some(Obj(ms)) && Eval(x.root, st) == Some(Obj(k))
    requires AboutKey(c) && KeyExplained(x.dl, severity, c, ms, k, key)
    ensures Justified(x, Diagnostic(severity, c, AppendPointer(Render(it), key),
                                    AppendPointer(Render(st), Keyword(x.dl, c))))
  {
    TokensSnoc(it, key);
    TokensSnoc(st, Keyword(x.dl, c));
  }

  lemma UnlessJustified(x: Subject, holds: bool, c: Code, v: Value, k: seq<Member>, it: seq<string>, st: seq<string>)
    requires Eval(x.doc, it) == Some(v) && Eval(x.root, st) == Some(Obj(k))
    requires !holds ==> Violated(x.dl, c, v, k)
    ensures AllJustified(x, Unless(x.dl, holds, c, Render(it), Render(st)))
  {
    if !holds {
      Report(x, c, v, k, it, st);
    }
  }

  lemma ConcatJustified(x: Subject, a: seq<Diagnostic>, b: seq<Diagnostic>)
    requires AllJustified(x, a) && AllJustified(x, b)
    ensures AllJustified(x, a + b)
  {
    forall d <- a + b ensures Justified(x, d) {
      assert d in a || d in b;
    }
  }

  // ---- Going down ------------------------------------------------------------------------------------

  lemma {:induction false} LookupWellFormed(ms: seq<Member>, key: string)
    requires WellFormed(Obj(ms)) && HasKey(ms, key)
    ensures WellFormed(Lookup(ms, key).value)
  {
    var m :| m in ms && m.key == key && m.value == Lookup(ms, key).value;
    var i :| 0 <= i < |ms| && ms[i] == m;
    assert WellFormed(ms[i].value);
  }

  /** The part of a document below one more token. */
  lemma Below(doc: Value, tokens: seq<string>, v: Value, token: string, child: Value)
    requires Eval(doc, tokens) == Some(v) && Child(v, token) == Some(child)
    ensures Eval(doc, tokens + [token]) == Some(child)
    ensures Render(tokens + [token]) == AppendPointer(Render(tokens), token)
  {
    EvalSnoc(doc, tokens, token);
  }

  lemma BelowItem(doc: Value, tokens: seq<string>, items: seq<Value>, i: nat)
    requires Eval(doc, tokens) == Some(Arr(items)) && i < |items|
    ensures Eval(doc, tokens + [Decimal(i)]) == Some(items[i])
    ensures Render(tokens + [Decimal(i)]) == AppendPointer(Render(tokens), Decimal(i))
  {
    DecimalRoundTrip(i);
    Below(doc, tokens, Arr(items), Decimal(i), items[i]);
  }

  /** The tokens of a branch of a combining keyword. */
  lemma BelowBranch(root: Value, st: seq<string>, k: seq<Member>, keyword: string, bs: seq<Value>, i: nat)
    returns (tokens: seq<string>)
    requires Eval(root, st) == Some(Obj(k)) && WellFormed(Obj(k))
    requires Branches(k, keyword) == Some(bs) && i < |bs|
    ensures Eval(root, tokens) == Some(bs[i]) && WellFormed(bs[i])
    ensures Render(tokens) == BranchPath(Render(st), keyword, i)
  {
    LookupWellFormed(k, keyword);
    Below(root, st, Obj(k), keyword, Arr(bs));
    BelowItem(root, st + [keyword], bs, i);
    tokens := st + [keyword] + [Decimal(i)];
  }

  lemma BelowSub(root: Value, st: seq<string>, k: seq<Member>, keyword: string, s: Value)
    returns (tokens: seq<string>)
    requires Eval(root, st) == Some(Obj(k)) && WellFormed(Obj(k)) && SubSchema(k, keyword) == Some(s)
    ensures Eval(root, tokens) == Some(s) && WellFormed(s)
    ensures Render(tokens) == AppendPointer(Render(st), keyword)
  {
    LookupWellFormed(k, keyword);
    Below(root, st, Obj(k), keyword, s);
    tokens := st + [keyword];
  }

  lemma BelowProperty(dl: Dialect, root: Value, st: seq<string>, k: seq<Member>, ps: seq<Member>, i: nat)
    returns (tokens: seq<string>)
    requires Eval(root, st) == Some(Obj(k)) && WellFormed(Obj(k)) && Properties(dl, k) == ps && i < |ps|
    ensures Eval(root, tokens) == Some(ps[i].value) && WellFormed(ps[i].value)
    ensures Render(tokens) == AppendPointer(AppendPointer(Render(st), dl.properties), ps[i].key)
  {
    LookupWellFormed(k, dl.properties);
    Below(root, st, Obj(k), dl.properties, Obj(ps));
    LookupMember(ps, i);
    Below(root, st + [dl.properties], Obj(ps), ps[i].key, ps[i].value);
    tokens := st + [dl.properties] + [ps[i].key];
  }

  // ---- The keywords, one after another -----------------------------------------------------------------

  /** The value and the schema at hand are parts of the subject. */
  ghost predicate At(x: Subject, v: Value, k: seq<Member>, it: seq<string>, st: seq<string>) {
    && Eval(x.doc, it) == Some(v) && Eval(x.root, st) == Some(Obj(k)) && WellFormed(Obj(k))
  }

  lemma {:induction false} PassingJustified(x: Subject, v: Value, k: seq<Member>, bs: seq<Value>, it: seq<string>,
                                            st: seq<string>, n: nat)
    requires At(x, v, k, it, st) && Branches(k, x.dl.oneOf) == Some(bs) && n <= |bs|
    ensures forall r <- Passing(x.dl, v, k, Render(it), Render(st), n) :: AllJustified(x, r)
    decreases Obj(k), 0, n
  {
    if n > 0 {
      PassingJustified(x, v, k, bs, it, st, n - 1);
      var bt := BelowBranch(x.root, st, k, x.dl.oneOf, bs, n - 1);
      NodeJustified(x, v, bs[n - 1], it, bt);
    }
  }

  lemma {:induction false} OneOfJustified(x: Subject, v: Value, k: seq<Member>, it: seq<string>, st: seq<string>)
    requires At(x, v, k, it, st)
    ensures AllJustified(x, OneOfDs(x.dl, v, k, Render(it), Render(st)))
    decreases Obj(k), 1
  {
    var branches := Branches(k, x.dl.oneOf);
    if branches.Some? {
      var passing := Passing(x.dl, v, k, Render(it), Render(st), |branches.value|);
      PassingJustified(x, v, k, branches.value, it, st, |branches.value|);
      assert passing != [] ==> passing[0] in passing;
      OneOfVerdict(x.dl, v, k, Render(it), Render(st));
      UnlessJustified(x, OneOfOk(x.dl, v, k), OneOf, v, k, it, st);
    }
  }

  lemma {:induction false} FirstPassingJustified(x: Subject, v: Value, k: seq<Member>, bs: seq<Value>,
      it: seq<string>, st: seq<string>, n: nat)
    requires At(x, v, k, it, st) && Branches(k, x.dl.anyOf) == Some(bs) && n <= |bs|
    ensures var r := FirstPassing(x.dl, v, k, Render(it), Render(st), n); r.Some? ==> AllJustified(x, r.value)
    decreases Obj(k), 0, n
  {
    if n > 0 {
      FirstPassingJustified(x, v, k, bs, it, st, n - 1);
      var bt := BelowBranch(x.root, st, k, x.dl.anyOf, bs, n - 1);
      NodeJustified(x, v, bs[n - 1], it, bt);
    }
  }

  lemma {:induction false} AnyOfJustified(x: Subject, v: Value, k: seq<Member>, it: seq<string>, st: seq<string>)
    requires At(x, v, k, it, st)
    ensures AllJustified(x, AnyOfDs(x.dl, v, k, Render(it), Render(st)))
    decreases Obj(k), 1
  {
    var branches := Branches(k, x.dl.anyOf);
    if branches.Some? {
      FirstPassingJustified(x, v, k, branches.value, it, st, |branches.value|);
      AnyOfVerdict(x.dl, v, k, Render(it), Render(st));
      UnlessJustified(x, AnyOfOk(x.dl, v, k), AnyOf, v, k, it, st);
    }
  }

  lemma {:induction false} AllOfJustified(x: Subject, v: Value, k: seq<Member>, it: seq<string>, st: seq<string>,
                                          n: nat)
    requires At(x, v, k, it, st) && n <= BranchCount(x.dl, k)
    ensures AllJustified(x, AllOfDs(x.dl, v, k, Render(it), Render(st), n))
    decreases Obj(k), 1, n
  {
    if n > 0 {
      var bs := Branches(k, x.dl.allOf).value;
      var bt := BelowBranch(x.root, st, k, x.dl.allOf, bs, n - 1);
      AllOfJustified(x, v, k, it, st, n - 1);
      NodeJustified(x, v, bs[n - 1], it, bt);
      ConcatJustified(x, AllOfDs(x.dl, v, k, Render(it), Render(st), n - 1),
                      Node(x.dl, v, bs[n - 1], Render(it), Render(bt)));
    }
  }

  lemma ChoiceJustified(x: Subject, v: Value, k: seq<Member>, it: seq<string>, st: seq<string>)
    requires At(x, v, k, it, st)
    ensures AllJustified(x, ChoiceDs(x.dl, v, k, Render(it), Render(st)))
  {
    var d1 := Unless(x.dl, !EnumFails(x.dl, v, k), Enum, Render(it), Render(st));
    EnumAgrees(x.dl, v, k);
    UnlessJustified(x, !EnumFails(x.dl, v, k), Enum, v, k, it, st);
    UnlessJustified(x, !ConstFails(x.dl, v, k), Const, v, k, it, st);
    ConcatJustified(x, d1, Unless(x.dl, !ConstFails(x.dl, v, k), Const, Render(it), Render(st)));
  }

  lemma LimitsJustified(x: Subject, n: Number, low: Code, high: Code, v: Value, k: seq<Member>,
                        it: seq<string>, st: seq<string>)
    requires At(x, v, k, it, st) && IsFinite(n)
    requires !NoLess(Real(n), k, Keyword(x.dl, low)) ==> Violated(x.dl, low, v, k)
    requires !NoMore(Real(n), k, Keyword(x.dl, high)) ==> Violated(x.dl, high, v, k)
    ensures AllJustified(x, LimitDs(x.dl, n, k, low, high, Render(it), Render(st)))
  {
    var below, above := BelowLimit(n, k, Keyword(x.dl, low)), AboveLimit(n, k, Keyword(x.dl, high));
    LimitsAgree(n, k, Keyword(x.dl, low));
    LimitsAgree(n, k, Keyword(x.dl, high));
    UnlessJustified(x, !below, low, v, k, it, st);
    UnlessJustified(x, !above, high, v, k, it, st);
    ConcatJustified(x, Unless(x.dl, !below, low, Render(it), Render(st)), Unless(x.dl, !above, high, Render(it), Render(st)));
  }

  lemma NumberJustified(x: Subject, v: Value, k: seq<Member>, it: seq<string>, st: seq<string>)
    requires At(x, v, k, it, st)
    ensures AllJustified(x, NumberDs(x.dl, v, k, Render(it), Render(st)))
  {
    if v.Num? && IsFinite(v.n) {
      LimitsJustified(x, v.n, Minimum, Maximum, v, k, it, st);
    }
  }

  lemma TextJustified(x: Subject, v: Value, k: seq<Member>, it: seq<string>, st: seq<string>)
    requires At(x, v, k, it, st)
    ensures AllJustified(x, TextDs(x.dl, v, k, Render(it), Render(st)))
  {
    if v.Str? {
      var n, matching := Count(|v.s|), !PatternFails(x.dl, v.s, k);
      LimitsJustified(x, n, MinLength, MaxLength, v, k, it, st);
      UnlessJustified(x, matching, Pattern, v, k, it, st);
      ConcatJustified(x, LimitDs(x.dl, n, k, MinLength, MaxLength, Render(it), Render(st)),
                      Unless(x.dl, matching, Pattern, Render(it), Render(st)));
    }
  }

  lemma SizeJustified(x: Subject, v: Value, k: seq<Member>, it: seq<string>, st: seq<string>)
    requires At(x, v, k, it, st)
    ensures AllJustified(x, SizeDs(x.dl, v, k, Render(it), Render(st)))
  {
    if v.Arr? {
      LimitsJustified(x, Count(|v.items|), MinItems, MaxItems, v, k, it, st);
    }
  }

  lemma ValueJustified(x: Subject, v: Value, k: seq<Member>, it: seq<string>, st: seq<string>)
    requires At(x, v, k, it, st)
    ensures AllJustified(x, ValueDs(x.dl, v, k, Render(it), Render(st)))
  {
    var dl, ip, sp := x.dl, Render(it), Render(st);
    var d1, d2, d3 := ChoiceDs(dl, v, k, ip, sp), NumberDs(dl, v, k, ip, sp), TextDs(dl, v, k, ip, sp);
    ChoiceJustified(x, v, k, it, st);
    NumberJustified(x, v, k, it, st);
    TextJustified(x, v, k, it, st);
    SizeJustified(x, v, k, it, st);
    ConcatJustified(x, d1, d2);
    ConcatJustified(x, d1 + d2, d3);
    ConcatJustified(x, d1 + d2 + d3, SizeDs(dl, v, k, ip, sp));
  }

  lemma {:induction false} ItemsJustified(x: Subject, v: Value, k: seq<Member>, it: seq<string>, st: seq<string>,
                                          n: nat)
    requires At(x, v, k, it, st) && n <= ItemCount(x.dl, v, k)
    ensures AllJustified(x, ItemsDs(x.dl, v, k, Render(it), Render(st), n))
    decreases Obj(k), 1, n
  {
    if n > 0 {
      var s := SubSchema(k, x.dl.items).value;
      var bt := BelowSub(x.root, st, k, x.dl.items, s);
      BelowItem(x.doc, it, v.items, n - 1);
      ItemsJustified(x, v, k, it, st, n - 1);
      NodeJustified(x, v.items[n - 1], s, it + [Decimal(n - 1)], bt);
      ConcatJustified(x, ItemsDs(x.dl, v, k, Render(it), Render(st), n - 1),
                      Node(x.dl, v.items[n - 1], s, Render(it + [Decimal(n - 1)]), Render(bt)));
    }
  }

  lemma {:induction false} RequiredJustified(x: Subject, ms: seq<Member>, k: seq<Member>, keys: seq<string>,
      it: seq<string>, st: seq<string>)
    requires At(x, Obj(ms), k, it, st) && forall key <- keys :: key in RequiredKeys(x.dl, k)
    ensures AllJustified(x, RequiredDs(x.dl, ms, keys, Render(it), Render(st)))
  {
    if keys != [] {
      var n := |keys| - 1;
      var key := keys[n];
      RequiredJustified(x, ms, k, keys[..n], it, st);
      if !HasKey(ms, key) {
        ReportKey(x, Error, Required, ms, k, key, it, st);
      }
    }
  }

  lemma {:induction false} PropertiesJustified(x: Subject, ms: seq<Member>, k: seq<Member>, it: seq<string>,
      st: seq<string>, n: nat)
    requires At(x, Obj(ms), k, it, st) && n <= |Properties(x.dl, k)|
    ensures AllJustified(x, PropertiesDs(x.dl, ms, k, Render(it), Render(st), n))
    decreases Obj(k), 1, n
  {
    if n > 0 {
      PropertiesJustified(x, ms, k, it, st, n - 1);
      PropertyJustified(x, ms, k, it, st, n - 1);
      ConcatJustified(x, PropertiesDs(x.dl, ms, k, Render(it), Render(st), n - 1),
                      PropertyDs(x.dl, ms, k, Render(it), Render(st), n - 1));
    }
  }

  lemma {:induction false} PropertyJustified(x: Subject, ms: seq<Member>, k: seq<Member>, it: seq<string>,
      st: seq<string>, i: nat)
    requires At(x, Obj(ms), k, it, st) && i < |Properties(x.dl, k)|
    ensures AllJustified(x, PropertyDs(x.dl, ms, k, Render(it), Render(st), i))
    decreases Obj(k), 0
  {
    var p := Properties(x.dl, k)[i];
    if HasKey(ms, p.key) && IsSchema(p.value) {
      var v := Lookup(ms, p.key).value;
      var bt := BelowProperty(x.dl, x.root, st, k, Properties(x.dl, k), i);
      Below(x.doc, it, Obj(ms), p.key, v);
      NodeJustified(x, v, p.value, it + [p.key], bt);
    }
  }

  lemma {:induction false} ExtraSchemaJustified(x: Subject, ms: seq<Member>, k: seq<Member>, it: seq<string>,
      st: seq<string>,
                                                key: string, a: Value)
    requires At(x, Obj(ms), k, it, st) && HasKey(ms, key) && SubSchema(k, x.dl.additionalProperties) == Some(a)
    ensures AllJustified(x, Node(x.dl, Lookup(ms, key).value, a, AppendPointer(Render(it), key),
                                 AppendPointer(Render(st), x.dl.additionalProperties)))
    decreases Obj(k), 0
  {
    var v := Lookup(ms, key).value;
    var bt := BelowSub(x.root, st, k, x.dl.additionalProperties, a);
    Below(x.doc, it, Obj(ms), key, v);
    NodeJustified(x, v, a, it + [key], bt);
  }

  lemma {:induction false} ExtraJustified(x: Subject, ms: seq<Member>, k: seq<Member>, it: seq<string>,
                                          st: seq<string>, key: string)
    requires At(x, Obj(ms), k, it, st) && HasKey(ms, key)
    ensures AllJustified(x, ExtraDs(x.dl, ms, k, Render(it), Render(st), key))
    decreases Obj(k), 1, 0
  {
    var s := SubSchema(k, x.dl.additionalProperties);
    if HasKey(Properties(x.dl, k), key) {
    } else if s.Some? && s.value.Obj? {
      ExtraSchemaJustified(x, ms, k, it, st, key, s.value);
    } else if s == Some(Bool(false)) {
      NoteJustified(x, Error, AdditionalProperty, ms, k, key, it, st);
    } else {
      NoteJustified(x, Warning, AdditionalPropertyOpen, ms, k, key, it, st);
    }
  }

  lemma NoteJustified(x: Subject, severity: Severity, c: Code, ms: seq<Member>, k: seq<Member>, key: string,
                      it: seq<string>, st: seq<string>)
    requires At(x, Obj(ms), k, it, st) && AboutKey(c) && KeyExplained(x.dl, severity, c, ms, k, key)
    ensures AllJustified(x, [Diagnostic(severity, c, AppendPointer(Render(it), key),
                                        AppendPointer(Render(st), Keyword(x.dl, c)))])
  {
    ReportKey(x, severity, c, ms, k, key, it, st);
  }

  lemma {:induction false} AdditionalJustified(x: Subject, ms: seq<Member>, k: seq<Member>, it: seq<string>,
      st: seq<string>, n: nat)
    requires At(x, Obj(ms), k, it, st) && n <= |ms|
    ensures AllJustified(x, AdditionalDs(x.dl, ms, k, Render(it), Render(st), n))
    decreases Obj(k), 2, n
  {
    if n > 0 {
      assert ms[n - 1] in ms;
      AdditionalJustified(x, ms, k, it, st, n - 1);
      ExtraJustified(x, ms, k, it, st, ms[n - 1].key);
      ConcatJustified(x, AdditionalDs(x.dl, ms, k, Render(it), Render(st), n - 1),
                      ExtraDs(x.dl, ms, k, Render(it), Render(st), ms[n - 1].key));
    }
  }

  lemma {:induction false} ObjectJustified(x: Subject, v: Value, k: seq<Member>, it: seq<string>, st: seq<string>)
    requires At(x, v, k, it, st)
    ensures AllJustified(x, ObjectDs(x.dl, v, k, Render(it), Render(st)))
    decreases Obj(k), 3
  {
    if v.Obj? {
      var ms, np := v.members, |Properties(x.dl, k)|;
      var d1 := RequiredDs(x.dl, ms, RequiredKeys(x.dl, k), Render(it), Render(st));
      var d2 := PropertiesDs(x.dl, ms, k, Render(it), Render(st), np);
      RequiredJustified(x, ms, k, RequiredKeys(x.dl, k), it, st);
      PropertiesJustified(x, ms, k, it, st, np);
      AdditionalJustified(x, ms, k, it, st, |ms|);
      ConcatJustified(x, d1, d2);
      ConcatJustified(x, d1 + d2, AdditionalDs(x.dl, ms, k, Render(it), Render(st), |ms|));
    }
  }

  lemma {:induction false} KeywordJustified(x: Subject, v: Value, k: seq<Member>, it: seq<string>, st: seq<string>)
    requires At(x, v, k, it, st)
    ensures AllJustified(x, KeywordDs(x.dl, v, k, Render(it), Render(st)))
    decreases Obj(k), 4
  {
    var dl, ip, sp := x.dl, Render(it), Render(st);
    var d1, d2, d3 := OneOfDs(dl, v, k, ip, sp), AnyOfDs(dl, v, k, ip, sp), AllOfDs(dl, v, k, ip, sp, BranchCount(dl, k));
    OneOfJustified(x, v, k, it, st);
    AnyOfJustified(x, v, k, it, st);
    AllOfJustified(x, v, k, it, st, BranchCount(dl, k));
    ConcatJustified(x, d1, d2);
    ConcatJustified(x, d1 + d2, d3);
    TypeVerdict(dl, v, k);
    if TypeFails(dl, v, k) {
      UnlessJustified(x, false, Type, v, k, it, st);
      ConcatJustified(x, d1 + d2 + d3, Unless(dl, false, Type, ip, sp));
    } else {
      var d4, d5 := ValueDs(dl, v, k, ip, sp), ItemsDs(dl, v, k, ip, sp, ItemCount(dl, v, k));
      ValueJustified(x, v, k, it, st);
      ItemsJustified(x, v, k, it, st, ItemCount(dl, v, k));
      ObjectJustified(x, v, k, it, st);
      ConcatJustified(x, d1 + d2 + d3, d4);
      ConcatJustified(x, d1 + d2 + d3 + d4, d5);
      ConcatJustified(x, d1 + d2 + d3 + d4 + d5, ObjectDs(dl, v, k, ip, sp));
    }
  }

  /** All diagnostics for a part of the value and a part of the schema are justified. */
  lemma {:induction false} NodeJustified(x: Subject, v: Value, s: Value, it: seq<string>, st: seq<string>)
    requires IsSchema(s) && WellFormed(s)
    requires Eval(x.doc, it) == Some(v) && Eval(x.root, st) == Some(s)
    ensures AllJustified(x, Node(x.dl, v, s, Render(it), Render(st)))
    decreases s, 5
  {
    if s.Obj? {
      KeywordJustified(x, v, s.members, it, st);
    } else if s == Bool(false) {
      RenderRoundTrip(it);
      RenderRoundTrip(st);
    }
  }
}
