/** `validateNode` and `validateValueAgainstSchema` as the loops they are. */
module SchemaValidator {
  import opened Json
  import opened Schema
  import opened SchemaKeywords
  import opened SchemaPaths
  import opened Wrappers

  method ValidateOneOf(dl: Dialect, v: Value, k: seq<Member>, bs: seq<Value>, ip: string, sp: string)
    returns (ds: seq<Diagnostic>)
    requires Branches(k, dl.oneOf) == Some(bs)
    ensures ds == OneOfDs(dl, v, k, ip, sp)
    decreases Obj(k), 1
  {
    var passing: seq<seq<Diagnostic>> := [];
    for i := 0 to |bs|
      invariant passing == Passing(dl, v, k, ip, sp, i)
    {
      var r := ValidateNode(dl, v, bs[i], ip, BranchPath(sp, dl.oneOf, i));
      if !HasErrors(r) {
        passing := passing + [r];
      }
    }
    ds := if |passing| == 1 then Warnings(passing[0]) else Unless(dl, false, OneOf, ip, sp);
  }

  method ValidateAnyOf(dl: Dialect, v: Value, k: seq<Member>, bs: seq<Value>, ip: string, sp: string)
    returns (ds: seq<Diagnostic>)
    requires Branches(k, dl.anyOf) == Some(bs)
    ensures ds == AnyOfDs(dl, v, k, ip, sp)
    decreases Obj(k), 1
  {
    var passing: Option<seq<Diagnostic>> := None;
    for i := 0 to |bs|
      invariant passing == FirstPassing(dl, v, k, ip, sp, i)
    {
      var r := ValidateNode(dl, v, bs[i], ip, BranchPath(sp, dl.anyOf, i));
      if passing.None? && !HasErrors(r) {
        passing := Some(r);
      }
    }
    ds := if passing.Some? then Warnings(passing.value) else Unless(dl, false, AnyOf, ip, sp);
  }

  method ValidateAllOf(dl: Dialect, v: Value, k: seq<Member>, ip: string, sp: string) returns (ds: seq<Diagnostic>)
    ensures ds == AllOfDs(dl, v, k, ip, sp, BranchCount(dl, k))
    decreases Obj(k), 1
  {
    ds := [];
    for i := 0 to BranchCount(dl, k)
      invariant ds == AllOfDs(dl, v, k, ip, sp, i)
    {
      var r := ValidateNode(dl, v, Branches(k, dl.allOf).value[i], ip, BranchPath(sp, dl.allOf, i));
      ds := ds + r;
    }
  }

  method ValidateItems(dl: Dialect, v: Value, k: seq<Member>, ip: string, sp: string) returns (ds: seq<Diagnostic>)
    ensures ds == ItemsDs(dl, v, k, ip, sp, ItemCount(dl, v, k))
    decreases Obj(k), 1
  {
    ds := [];
    for i := 0 to ItemCount(dl, v, k)
      invariant ds == ItemsDs(dl, v, k, ip, sp, i)
    {
      var r := ValidateNode(dl, v.items[i], SubSchema(k, dl.items).value, AppendPointer(ip, Decimal(i)),
                            AppendPointer(sp, dl.items));
      ds := ds + r;
    }
  }

  method ValidateRequired(dl: Dialect, ms: seq<Member>, keys: seq<string>, ip: string, sp: string)
    returns (ds: seq<Diagnostic>)
    ensures ds == RequiredDs(dl, ms, keys, ip, sp)
  {
    ds := [];
    for i := 0 to |keys|
      invariant ds == RequiredDs(dl, ms, keys[..i], ip, sp)
    {
      assert keys[..i + 1][..i] == keys[..i];
      if !HasKey(ms, keys[i]) {
        ds := ds + [Diagnostic(Error, Required, AppendPointer(ip, keys[i]), AppendPointer(sp, dl.required))];
      }
    }
    assert keys[..|keys|] == keys;
  }

  method ValidateProperty(dl: Dialect, ms: seq<Member>, k: seq<Member>, ip: string, sp: string, i: nat)
    returns (ds: seq<Diagnostic>)
    requires i < |Properties(dl, k)|
    ensures ds == PropertyDs(dl, ms, k, ip, sp, i)
    decreases Obj(k), 0
  {
    ds := [];
    var p := Properties(dl, k)[i];
    if HasKey(ms, p.key) && IsSchema(p.value) {
      ds := ValidateNode(dl, Lookup(ms, p.key).value, p.value, AppendPointer(ip, p.key),
                         AppendPointer(AppendPointer(sp, dl.properties), p.key));
    }
  }

  method ValidateProperties(dl: Dialect, ms: seq<Member>, k: seq<Member>, ip: string, sp: string)
    returns (ds: seq<Diagnostic>)
    ensures ds == PropertiesDs(dl, ms, k, ip, sp, |Properties(dl, k)|)
    decreases Obj(k), 1
  {
    ds := [];
    for i := 0 to |Properties(dl, k)|
      invariant ds == PropertiesDs(dl, ms, k, ip, sp, i)
    {
      var r := ValidateProperty(dl, ms, k, ip, sp, i);
      ds := ds + r;
    }
  }

  method ValidateExtra(dl: Dialect, ms: seq<Member>, k: seq<Member>, ip: string, sp: string, key: string)
    returns (ds: seq<Diagnostic>)
    requires HasKey(ms, key)
    ensures ds == ExtraDs(dl, ms, k, ip, sp, key)
    decreases Obj(k), 0
  {
    var path := AppendPointer(sp, dl.additionalProperties);
    var additional := SubSchema(k, dl.additionalProperties);
    if HasKey(Properties(dl, k), key) {
      ds := [];
    } else if additional == Some(Bool(false)) {
      ds := [Diagnostic(Error, AdditionalProperty, AppendPointer(ip, key), path)];
    } else if additional.Some? && additional != Some(Bool(true)) {
      ds := ValidateNode(dl, Lookup(ms, key).value, additional.value, AppendPointer(ip, key), path);
    } else {
      ds := [Diagnostic(Warning, AdditionalPropertyOpen, AppendPointer(ip, key), path)];
    }
  }

  method ValidateAdditional(dl: Dialect, ms: seq<Member>, k: seq<Member>, ip: string, sp: string)
    returns (ds: seq<Diagnostic>)
    ensures ds == AdditionalDs(dl, ms, k, ip, sp, |ms|)
    decreases Obj(k), 1
  {
    ds := [];
    for i := 0 to |ms|
      invariant ds == AdditionalDs(dl, ms, k, ip, sp, i)
    {
      assert ms[i] in ms;
      var r := ValidateExtra(dl, ms, k, ip, sp, ms[i].key);
      ds := ds + r;
    }
  }

  method ValidateObject(dl: Dialect, v: Value, k: seq<Member>, ip: string, sp: string) returns (ds: seq<Diagnostic>)
    ensures ds == ObjectDs(dl, v, k, ip, sp)
    decreases Obj(k), 2
  {
    ds := [];
    if v.Obj? {
      var d1 := ValidateRequired(dl, v.members, RequiredKeys(dl, k), ip, sp);
      var d2 := ValidateProperties(dl, v.members, k, ip, sp);
      var d3 := ValidateAdditional(dl, v.members, k, ip, sp);
      ds := d1 + d2 + d3;
    }
  }

  method ValidateCombined(dl: Dialect, v: Value, k: seq<Member>, ip: string, sp: string) returns (ds: seq<Diagnostic>)
    ensures ds == OneOfDs(dl, v, k, ip, sp) + AnyOfDs(dl, v, k, ip, sp) + AllOfDs(dl, v, k, ip, sp, BranchCount(dl, k))
    decreases Obj(k), 2
  {
    var d1, d2: seq<Diagnostic> := [], [];
    var oneOf, anyOf := Branches(k, dl.oneOf), Branches(k, dl.anyOf);
    if oneOf.Some? {
      d1 := ValidateOneOf(dl, v, k, oneOf.value, ip, sp);
    }
    if anyOf.Some? {
      d2 := ValidateAnyOf(dl, v, k, anyOf.value, ip, sp);
    }
    var d3 := ValidateAllOf(dl, v, k, ip, sp);
    ds := d1 + d2 + d3;
  }

  /** The declared names, those of types among them, and the search for a match. */
  method ValidateType(dl: Dialect, v: Value, k: seq<Member>) returns (fails: bool)
    ensures fails == TypeFails(dl, v, k)
    ensures fails <==> !TypeOk(dl, v, k)
  {
    TypeVerdict(dl, v, k);
    var names := DeclaredTypes(dl, k);
    var supported: seq<string> := [];
    for i := 0 to |names|
      invariant supported == Supported(dl, names, i)
    {
      if dl.typeNamed(names[i]).Some? {
        supported := supported + [names[i]];
      }
    }
    var some := false;
    for i := 0 to |supported|
      invariant some == SomeMatches(dl, v, supported, i)
    {
      some := some || MatchesType(dl, v, supported[i]);
    }
    fails := names != [] && !some;
  }

  /** `schema.enum.some(...)`. */
  method SomeChoice(choices: seq<Value>, v: Value) returns (some: bool)
    ensures some == SomeEqual(choices, v, |choices|)
  {
    some := false;
    for i := 0 to |choices|
      invariant some == SomeEqual(choices, v, i)
    {
      some := some || DeepEqual(choices[i], v);
    }
  }

  method ValidateChoices(dl: Dialect, v: Value, k: seq<Member>, ip: string, sp: string) returns (ds: seq<Diagnostic>)
    ensures ds == ChoiceDs(dl, v, k, ip, sp)
  {
    var d1, d2: seq<Diagnostic> := [], [];
    match Lookup(k, dl.choices) {
      case Some(Arr(choices)) =>
        var some := SomeChoice(choices, v);
        if !some {
          d1 := [Diagnostic(Error, Enum, ip, AppendPointer(sp, dl.choices))];
        }
      case _ =>
    }
    var constant := Lookup(k, dl.constant);
    if constant.Some? && !DeepEqual(constant.value, v) {
      d2 := [Diagnostic(Error, Const, ip, AppendPointer(sp, dl.constant))];
    }
    ds := d1 + d2;
  }

  method ValidateLow(dl: Dialect, n: Number, k: seq<Member>, c: Code, ip: string, sp: string)
    returns (ds: seq<Diagnostic>)
    ensures ds == Unless(dl, !BelowLimit(n, k, Keyword(dl, c)), c, ip, sp)
  {
    var keyword := Keyword(dl, c);
    var limit := Limit(k, keyword);
    ds := if limit.Some? && Less(n, limit.value) then [Diagnostic(Error, c, ip, AppendPointer(sp, keyword))] else [];
  }

  method ValidateHigh(dl: Dialect, n: Number, k: seq<Member>, c: Code, ip: string, sp: string)
    returns (ds: seq<Diagnostic>)
    ensures ds == Unless(dl, !AboveLimit(n, k, Keyword(dl, c)), c, ip, sp)
  {
    var keyword := Keyword(dl, c);
    var limit := Limit(k, keyword);
    ds := if limit.Some? && Less(limit.value, n) then [Diagnostic(Error, c, ip, AppendPointer(sp, keyword))] else [];
  }

  method ValidateLimits(dl: Dialect, n: Number, k: seq<Member>, low: Code, high: Code, ip: string, sp: string)
    returns (ds: seq<Diagnostic>)
    ensures ds == LimitDs(dl, n, k, low, high, ip, sp)
  {
    var d1 := ValidateLow(dl, n, k, low, ip, sp);
    var d2 := ValidateHigh(dl, n, k, high, ip, sp);
    ds := d1 + d2;
  }

  method ValidateNumber(dl: Dialect, v: Value, k: seq<Member>, ip: string, sp: string) returns (ds: seq<Diagnostic>)
    ensures ds == NumberDs(dl, v, k, ip, sp)
  {
    ds := [];
    if v.Num? && IsFinite(v.n) {
      ds := ValidateLimits(dl, v.n, k, Minimum, Maximum, ip, sp);
    }
  }

  method ValidateText(dl: Dialect, v: Value, k: seq<Member>, ip: string, sp: string) returns (ds: seq<Diagnostic>)
    ensures ds == TextDs(dl, v, k, ip, sp)
  {
    ds := [];
    if v.Str? {
      ds := ValidateLimits(dl, Count(|v.s|), k, MinLength, MaxLength, ip, sp);
      var pattern := ValidatePattern(dl, v.s, k, ip, sp);
      ds := ds + pattern;
    }
  }

  /** A pattern that is no regular expression is passed over. */
  method ValidatePattern(dl: Dialect, text: string, k: seq<Member>, ip: string, sp: string)
    returns (ds: seq<Diagnostic>)
    ensures ds == Unless(dl, !PatternFails(dl, text, k), Pattern, ip, sp)
  {
    ds := [];
    match Lookup(k, dl.pattern) {
      case Some(Str(pattern)) =>
        var tested := dl.matches(pattern, text);
        if tested.Some? && !tested.value {
          ds := [Diagnostic(Error, Pattern, ip, AppendPointer(sp, dl.pattern))];
        }
      case _ =>
    }
  }

  method ValidateSize(dl: Dialect, v: Value, k: seq<Member>, ip: string, sp: string) returns (ds: seq<Diagnostic>)
    ensures ds == SizeDs(dl, v, k, ip, sp)
  {
    ds := [];
    if v.Arr? {
      ds := ValidateLimits(dl, Count(|v.items|), k, MinItems, MaxItems, ip, sp);
    }
  }

  /** The checks of the value alone: an error exactly for a value that breaks one of these keywords. */
  method ValidateValue(dl: Dialect, v: Value, k: seq<Member>, ip: string, sp: string) returns (ds: seq<Diagnostic>)
    ensures ds == ValueDs(dl, v, k, ip, sp)
    ensures HasErrors(ds) <==> !ValueOk(dl, v, k)
  {
    var choices := ValidateChoices(dl, v, k, ip, sp);
    var number := ValidateNumber(dl, v, k, ip, sp);
    var text := ValidateText(dl, v, k, ip, sp);
    var size := ValidateSize(dl, v, k, ip, sp);
    ds := choices + number + text + size;
    ValueVerdict(dl, v, k, ip, sp);
  }

  method ValidateKeywords(dl: Dialect, v: Value, k: seq<Member>, ip: string, sp: string) returns (ds: seq<Diagnostic>)
    ensures ds == KeywordDs(dl, v, k, ip, sp)
    decreases Obj(k), 3
  {
    ds := ValidateCombined(dl, v, k, ip, sp);
    var fails := ValidateType(dl, v, k);
    if fails {
      ds := ds + [Diagnostic(Error, Type, ip, AppendPointer(sp, dl.types))];
      return;
    }
    var value := ValidateValue(dl, v, k, ip, sp);
    var items := ValidateItems(dl, v, k, ip, sp);
    var keys := ValidateObject(dl, v, k, ip, sp);
    ds := ds + value + items + keys;
  }

  method ValidateNode(dl: Dialect, v: Value, s: Value, ip: string, sp: string) returns (ds: seq<Diagnostic>)
    requires IsSchema(s)
    ensures ds == Node(dl, v, s, ip, sp)
    decreases s, 4
  {
    match s
    case Bool(b) => ds := if b then [] else [Diagnostic(Error, SchemaFalse, ip, sp)];
    case Obj(k) => ds := ValidateKeywords(dl, v, k, ip, sp);
  }

  /** The verdict is the meaning of the schema, and every diagnostic is true of the parts it points to. */
  method ValidateValueAgainstSchema(matches: (string, string) -> Option<bool>, v: Value, s: Value)
    returns (ds: seq<Diagnostic>)
    requires IsSchema(s) && WellFormed(s)
    ensures HasErrors(ds) <==> !Satisfies(matches, v, s)
    ensures AllJustified(Subject(JsonSchema(matches), v, s), ds)
  {
    var dl := JsonSchema(matches);
    ds := ValidateNode(dl, v, s, "", "");
    NodeVerdict(dl, v, s, "", "");
    SchemaMeans(dl, v, s);
    NodeJustified(Subject(dl, v, s), v, s, [], []);
  }
}
