/** What a schema of playbook tools demands, keyword by keyword under the names of JSON Schema (Validation 2020-12,
    section 6, and Core, section 10), and that `Schema` reads and means just this. */
module SchemaKeywords {
  import opened Json
  import opened Schema
  import opened Wrappers

  type Matches = (string, string) -> Option<bool>

  // ---- The demands ------------------------------------------------------------------------------------

  predicate IsInteger(v: Value, z: int) { v == Num(Finite(z as real)) }

  /** The value has the type of this name; infinities and NaN are no numbers. */
  ghost predicate OfType(v: Value, name: string) {
    || (name == "array" && v.Arr?)
    || (name == "boolean" && v.Bool?)
    || (name == "integer" && (v == Num(NegativeZero) || exists z :: IsInteger(v, z)))
    || (name == "null" && v.Null?)
    || (name == "number" && v.Num? && (v.n.NegativeZero? || v.n.Finite?))
    || (name == "object" && v.Obj?)
    || (name == "string" && v.Str?)
  }

  /** Names in a list that are no text are skipped; a list without names demands nothing. */
  ghost predicate TypeSays(v: Value, k: seq<Member>) {
    match Lookup(k, "type")
    case Some(Str(name)) => OfType(v, name)
    case Some(Arr(names)) => (exists x <- names :: x.Str?) ==> exists x <- names :: x.Str? && OfType(v, x.s)
    case _ => true
  }

  predicate EnumSays(v: Value, k: seq<Member>) {
    match Lookup(k, "enum")
    case Some(Arr(choices)) => exists c <- choices :: DeepEqual(c, v)
    case _ => true
  }

  predicate ConstSays(v: Value, k: seq<Member>) {
    match Lookup(k, "const")
    case Some(c) => DeepEqual(c, v)
    case None => true
  }

  /** Only a number other than NaN limits. */
  predicate NotBelow(r: real, limit: Option<Value>) {
    match limit
    case Some(Num(Finite(least))) => r >= least
    case Some(Num(NegativeZero)) => r >= 0.0
    case Some(Num(Infinite(negative))) => negative
    case _ => true
  }

  predicate NotAbove(r: real, limit: Option<Value>) {
    match limit
    case Some(Num(Finite(most))) => r <= most
    case Some(Num(NegativeZero)) => r <= 0.0
    case Some(Num(Infinite(negative))) => !negative
    case _ => true
  }

  predicate NumberSays(v: Value, k: seq<Member>) {
    match v
    case Num(Finite(r)) => NotBelow(r, Lookup(k, "minimum")) && NotAbove(r, Lookup(k, "maximum"))
    case Num(NegativeZero) => NotBelow(0.0, Lookup(k, "minimum")) && NotAbove(0.0, Lookup(k, "maximum"))
    case _ => true
  }

  predicate LengthSays(v: Value, k: seq<Member>) {
    v.Str? ==> NotBelow(|v.s| as real, Lookup(k, "minLength")) && NotAbove(|v.s| as real, Lookup(k, "maxLength"))
  }

  predicate PatternSays(matches: Matches, v: Value, k: seq<Member>) {
    match (v, Lookup(k, "pattern"))
    case (Str(text), Some(Str(p))) => matches(p, text).Some? ==> matches(p, text).value
    case _ => true
  }

  predicate SizeSays(v: Value, k: seq<Member>) {
    v.Arr? ==> NotBelow(|v.items| as real, Lookup(k, "minItems")) && NotAbove(|v.items| as real, Lookup(k, "maxItems"))
  }

  /** A list of schemas only; any other value of the keyword demands nothing. */
  predicate SchemaList(v: Option<Value>) { v.Some? && v.value.Arr? && forall b <- v.value.items :: b.Bool? || b.Obj? }

  ghost predicate OneOfSays(matches: Matches, v: Value, k: seq<Member>)
    decreases Obj(k), 0
  {
    SchemaList(Lookup(k, "oneOf")) ==>
      var bs := Lookup(k, "oneOf").value.items;
      |set i | 0 <= i < |bs| && Satisfies(matches, v, bs[i])| == 1
  }

  ghost predicate AnyOfSays(matches: Matches, v: Value, k: seq<Member>)
    decreases Obj(k), 0
  {
    SchemaList(Lookup(k, "anyOf")) ==>
      var bs := Lookup(k, "anyOf").value.items;
      exists i | 0 <= i < |bs| :: Satisfies(matches, v, bs[i])
  }

  ghost predicate AllOfSays(matches: Matches, v: Value, k: seq<Member>)
    decreases Obj(k), 0
  {
    SchemaList(Lookup(k, "allOf")) ==>
      var bs := Lookup(k, "allOf").value.items;
      forall i | 0 <= i < |bs| :: Satisfies(matches, v, bs[i])
  }

  ghost predicate ItemsSay(matches: Matches, v: Value, k: seq<Member>)
    decreases Obj(k), 0
  {
    v.Arr? && Lookup(k, "items").Some? ==>
      forall i | 0 <= i < |v.items| :: Satisfies(matches, v.items[i], Lookup(k, "items").value)
  }

  /** Every text in the list is a key. */
  predicate RequiredSays(v: Value, k: seq<Member>) {
    match (v, Lookup(k, "required"))
    case (Obj(ms), Some(Arr(names))) => forall x <- names :: x.Str? ==> Lookup(ms, x.s).Some?
    case _ => true
  }

  /** The members of the value of `properties`, if that is an object. */
  function Declared(k: seq<Member>): (ps: seq<Member>)
    ensures forall p <- ps :: p.value < Obj(k)
  {
    match Lookup(k, "properties")
    case Some(Obj(ps)) => ps
    case _ => []
  }

  ghost predicate PropertiesSay(matches: Matches, v: Value, k: seq<Member>)
    decreases Obj(k), 0
  {
    v.Obj? ==>
      forall i | 0 <= i < |Declared(k)| ::
        var p := Declared(k)[i];
        Lookup(v.members, p.key).Some? ==> Satisfies(matches, Lookup(v.members, p.key).value, p.value)
  }

  ghost predicate AdditionalSays(matches: Matches, v: Value, k: seq<Member>)
    decreases Obj(k), 0
  {
    v.Obj? && Lookup(k, "additionalProperties").Some? ==>
      forall m <- v.members | Lookup(Declared(k), m.key).None? ::
        Satisfies(matches, Lookup(v.members, m.key).value, Lookup(k, "additionalProperties").value)
  }

  /** The value meets the schema: all keywords that are there hold. What is no schema demands nothing. */
  ghost predicate Satisfies(matches: Matches, v: Value, s: Value)
    decreases s, 1
  {
    match s
    case Bool(b) => b
    case Obj(k) =>
      && OneOfSays(matches, v, k) && AnyOfSays(matches, v, k) && AllOfSays(matches, v, k)
      && TypeSays(v, k) && EnumSays(v, k) && ConstSays(v, k) && NumberSays(v, k) && LengthSays(v, k)
      && PatternSays(matches, v, k) && SizeSays(v, k) && ItemsSay(matches, v, k)
      && RequiredSays(v, k) && PropertiesSay(matches, v, k) && AdditionalSays(matches, v, k)
    case _ => true
  }

  // ---- The validator's reading of a schema means these demands -----------------------------------------------

  lemma LimitsRead(r: real, k: seq<Member>, keyword: string)
    ensures NoLess(r, k, keyword) <==> NotBelow(r, Lookup(k, keyword))
    ensures NoMore(r, k, keyword) <==> NotAbove(r, Lookup(k, keyword))
  {}

  lemma NumberRead(dl: Dialect, v: Value, k: seq<Member>)
    requires dl.minimum == "minimum" && dl.maximum == "maximum"
    ensures MinimumOk(dl, v, k) && MaximumOk(dl, v, k) <==> NumberSays(v, k)
  {
    if v.Num? {
      LimitsRead(Real(v.n), k, "minimum");
      LimitsRead(Real(v.n), k, "maximum");
    }
  }

  lemma LengthRead(dl: Dialect, v: Value, k: seq<Member>)
    requires dl.minLength == "minLength" && dl.maxLength == "maxLength"
    ensures MinLengthOk(dl, v, k) && MaxLengthOk(dl, v, k) <==> LengthSays(v, k)
  {
    if v.Str? {
      LimitsRead(|v.s| as real, k, "minLength");
      LimitsRead(|v.s| as real, k, "maxLength");
    }
  }

  lemma SizeRead(dl: Dialect, v: Value, k: seq<Member>)
    requires dl.minItems == "minItems" && dl.maxItems == "maxItems"
    ensures MinItemsOk(dl, v, k) && MaxItemsOk(dl, v, k) <==> SizeSays(v, k)
  {
    if v.Arr? {
      LimitsRead(|v.items| as real, k, "minItems");
      LimitsRead(|v.items| as real, k, "maxItems");
    }
  }

  lemma ChoiceRead(dl: Dialect, v: Value, k: seq<Member>)
    requires dl.choices == "enum" && dl.constant == "const"
    ensures EnumOk(dl, v, k) <==> EnumSays(v, k)
    ensures ConstOk(dl, v, k) <==> ConstSays(v, k)
  {}

  lemma PatternRead(dl: Dialect, v: Value, k: seq<Member>)
    requires dl.pattern == "pattern"
    ensures PatternOk(dl, v, k) <==> PatternSays(dl.matches, v, k)
  {}

  lemma ValueRead(dl: Dialect, v: Value, k: seq<Member>)
    requires dl == JsonSchema(dl.matches)
    ensures ValueOk(dl, v, k) <==>
            EnumSays(v, k) && ConstSays(v, k) && NumberSays(v, k) && LengthSays(v, k)
            && PatternSays(dl.matches, v, k) && SizeSays(v, k)
  {
    ChoiceRead(dl, v, k);
    NumberRead(dl, v, k);
    LengthRead(dl, v, k);
    PatternRead(dl, v, k);
    SizeRead(dl, v, k);
  }

  lemma {:induction false} StringsRead(vs: seq<Value>, t: string)
    ensures t in Strings(vs) <==> Str(t) in vs
  {
    if vs != [] {
      StringsRead(vs[1..], t);
      assert vs == [vs[0]] + vs[1..];
    }
  }

  lemma NumberType(v: Value)
    ensures IntegerType in TypesOf(v) <==> v == Num(NegativeZero) || exists z :: IsInteger(v, z)
    ensures JsonType.NumberType in TypesOf(v) <==> v.Num? && (v.n.NegativeZero? || v.n.Finite?)
  {
    if v.Num? && IsFinite(v.n) {
      if z :| Equals(z, Real(v.n)) {
        assert v.n.Finite? ==> IsInteger(v, z);
      }
      if z :| IsInteger(v, z) {
        assert Equals(z, Real(v.n));
      }
      assert Equals(0, 0.0);
    }
  }

  lemma TypeNameRead(v: Value, t: string)
    ensures TypeNamed(t).Some? && TypeNamed(t).value in TypesOf(v) <==> OfType(v, t)
  {
    NumberType(v);
  }

  lemma TypeRead(dl: Dialect, v: Value, k: seq<Member>)
    requires dl.types == "type" && dl.typeNamed == TypeNamed
    ensures TypeOk(dl, v, k) <==> TypeSays(v, k)
  {
    match Lookup(k, "type")
    case Some(Str(t)) =>
      TypeNameRead(v, t);
      assert DeclaredTypes(dl, k) == [t];
    case Some(Arr(vs)) => TypesRead(v, vs);
    case _ =>
  }

  lemma TypesRead(v: Value, vs: seq<Value>)
    ensures Strings(vs) != [] <==> exists x <- vs :: x.Str?
    ensures (exists t <- Strings(vs) :: TypeNamed(t).Some? && TypeNamed(t).value in TypesOf(v))
            <==> exists x <- vs :: x.Str? && OfType(v, x.s)
  {
    forall t ensures t in Strings(vs) <==> Str(t) in vs {
      StringsRead(vs, t);
    }
    forall t ensures TypeNamed(t).Some? && TypeNamed(t).value in TypesOf(v) <==> OfType(v, t) {
      TypeNameRead(v, t);
    }
    if Strings(vs) != [] {
      assert Strings(vs)[0] in Strings(vs);
    }
  }

  lemma RequiredRead(dl: Dialect, ms: seq<Member>, k: seq<Member>)
    requires dl.required == "required"
    ensures RequiredOk(dl, ms, k) <==> RequiredSays(Obj(ms), k)
  {
    match Lookup(k, "required")
    case Some(Arr(vs)) =>
      forall t ensures t in Strings(vs) <==> Str(t) in vs {
        StringsRead(vs, t);
      }
    case _ =>
  }

  lemma BranchesRead(k: seq<Member>, keyword: string)
    ensures Branches(k, keyword).Some? <==> SchemaList(Lookup(k, keyword))
    ensures Branches(k, keyword).Some? ==> Branches(k, keyword).value == Lookup(k, keyword).value.items
  {}

  /** The lists agree branch by branch. */
  ghost predicate BranchesAgree(dl: Dialect, v: Value, bs: seq<Value>)
    requires forall b <- bs :: IsSchema(b)
  {
    forall i | 0 <= i < |bs| :: Meets(dl, v, bs[i]) <==> Satisfies(dl.matches, v, bs[i])
  }

  lemma OneOfRead(dl: Dialect, v: Value, k: seq<Member>)
    requires dl.oneOf == "oneOf"
    requires Branches(k, dl.oneOf).Some? ==> BranchesAgree(dl, v, Branches(k, dl.oneOf).value)
    ensures OneOfOk(dl, v, k) <==> OneOfSays(dl.matches, v, k)
  {
    BranchesRead(k, "oneOf");
    if Branches(k, "oneOf").Some? {
      OneOfMet(dl, v, k, Branches(k, "oneOf").value);
      OneOfSatisfied(dl, v, k, Branches(k, "oneOf").value);
    }
  }

  lemma OneOfMet(dl: Dialect, v: Value, k: seq<Member>, bs: seq<Value>)
    requires Branches(k, dl.oneOf) == Some(bs)
    ensures OneOfOk(dl, v, k) <==> |Met(dl, v, bs, |bs|)| == 1
  {
    assert Met(dl, v, bs, |bs|) == set i | 0 <= i < |bs| && Meets(dl, v, bs[i]);
  }

  lemma OneOfSatisfied(dl: Dialect, v: Value, k: seq<Member>, bs: seq<Value>)
    requires Lookup(k, "oneOf") == Some(Arr(bs)) && (forall b <- bs :: IsSchema(b)) && BranchesAgree(dl, v, bs)
    ensures OneOfSays(dl.matches, v, k) <==> |Met(dl, v, bs, |bs|)| == 1
  {
    assert Met(dl, v, bs, |bs|) == set i | 0 <= i < |bs| && Satisfies(dl.matches, v, bs[i]);
  }

  lemma AnyOfRead(dl: Dialect, v: Value, k: seq<Member>)
    requires dl.anyOf == "anyOf"
    requires Branches(k, dl.anyOf).Some? ==> BranchesAgree(dl, v, Branches(k, dl.anyOf).value)
    ensures AnyOfOk(dl, v, k) <==> AnyOfSays(dl.matches, v, k)
  {
    BranchesRead(k, "anyOf");
  }

  lemma AllOfRead(dl: Dialect, v: Value, k: seq<Member>)
    requires dl.allOf == "allOf"
    requires Branches(k, dl.allOf).Some? ==> BranchesAgree(dl, v, Branches(k, dl.allOf).value)
    ensures AllOfOk(dl, v, k) <==> AllOfSays(dl.matches, v, k)
  {
    BranchesRead(k, "allOf");
  }

  lemma {:induction false} BranchesMean(dl: Dialect, v: Value, k: seq<Member>, keyword: string)
    requires dl == JsonSchema(dl.matches)
    ensures Branches(k, keyword).Some? ==> BranchesAgree(dl, v, Branches(k, keyword).value)
    decreases Obj(k), 0
  {
    if Branches(k, keyword).Some? {
      forall b | b in Branches(k, keyword).value ensures Meets(dl, v, b) <==> Satisfies(dl.matches, v, b) {
        SchemaMeans(dl, v, b);
      }
    }
  }

  lemma {:induction false} CombinedRead(dl: Dialect, v: Value, k: seq<Member>)
    requires dl == JsonSchema(dl.matches)
    ensures OneOfOk(dl, v, k) <==> OneOfSays(dl.matches, v, k)
    ensures AnyOfOk(dl, v, k) <==> AnyOfSays(dl.matches, v, k)
    ensures AllOfOk(dl, v, k) <==> AllOfSays(dl.matches, v, k)
    decreases Obj(k), 1
  {
    BranchesMean(dl, v, k, dl.oneOf);
    BranchesMean(dl, v, k, dl.anyOf);
    BranchesMean(dl, v, k, dl.allOf);
    OneOfRead(dl, v, k);
    AnyOfRead(dl, v, k);
    AllOfRead(dl, v, k);
  }

  lemma {:induction false} ItemsRead(dl: Dialect, v: Value, k: seq<Member>)
    requires dl == JsonSchema(dl.matches)
    ensures ItemsOk(dl, v, k) <==> ItemsSay(dl.matches, v, k)
    decreases Obj(k), 0
  {
    if v.Arr? && Lookup(k, "items").Some? {
      var s := Lookup(k, "items").value;
      forall i | 0 <= i < |v.items| && IsSchema(s)
        ensures Meets(dl, v.items[i], s) <==> Satisfies(dl.matches, v.items[i], s)
      {
        SchemaMeans(dl, v.items[i], s);
      }
    }
  }

  lemma {:induction false} PropertiesRead(dl: Dialect, ms: seq<Member>, k: seq<Member>)
    requires dl == JsonSchema(dl.matches)
    ensures PropertiesOk(dl, ms, k) <==> PropertiesSay(dl.matches, Obj(ms), k)
    decreases Obj(k), 0
  {
    assert Properties(dl, k) == Declared(k);
    forall i | 0 <= i < |Declared(k)|
      ensures PropertyOk(dl, ms, k, i) <==>
              (Lookup(ms, Declared(k)[i].key).Some? ==>
                 Satisfies(dl.matches, Lookup(ms, Declared(k)[i].key).value, Declared(k)[i].value))
    {
      var p := Declared(k)[i];
      assert p in Declared(k);
      if IsSchema(p.value) && HasKey(ms, p.key) {
        SchemaMeans(dl, Lookup(ms, p.key).value, p.value);
      }
    }
  }

  lemma {:induction false} AdditionalRead(dl: Dialect, ms: seq<Member>, k: seq<Member>)
    requires dl == JsonSchema(dl.matches)
    ensures AdditionalOk(dl, ms, k) <==> AdditionalSays(dl.matches, Obj(ms), k)
    decreases Obj(k), 0
  {
    assert Properties(dl, k) == Declared(k);
    if Lookup(k, "additionalProperties").Some? {
      var s := Lookup(k, "additionalProperties").value;
      forall m | m in ms && IsSchema(s)
        ensures Meets(dl, Lookup(ms, m.key).value, s) <==> Satisfies(dl.matches, Lookup(ms, m.key).value, s)
      {
        SchemaMeans(dl, Lookup(ms, m.key).value, s);
      }
    }
  }

  lemma {:induction false} ObjectRead(dl: Dialect, v: Value, k: seq<Member>)
    requires dl == JsonSchema(dl.matches)
    ensures ObjectOk(dl, v, k) <==>
            RequiredSays(v, k) && PropertiesSay(dl.matches, v, k) && AdditionalSays(dl.matches, v, k)
    decreases Obj(k), 1
  {
    if v.Obj? {
      RequiredRead(dl, v.members, k);
      PropertiesRead(dl, v.members, k);
      AdditionalRead(dl, v.members, k);
    }
  }

  /** The keywords one by one. */
  ghost predicate KeywordsAgree(dl: Dialect, v: Value, k: seq<Member>) {
    && (OneOfOk(dl, v, k) && AnyOfOk(dl, v, k) && AllOfOk(dl, v, k)
        <==> OneOfSays(dl.matches, v, k) && AnyOfSays(dl.matches, v, k) && AllOfSays(dl.matches, v, k))
    && (TypeOk(dl, v, k) <==> TypeSays(v, k))
    && (ValueOk(dl, v, k) <==>
        EnumSays(v, k) && ConstSays(v, k) && NumberSays(v, k) && LengthSays(v, k)
        && PatternSays(dl.matches, v, k) && SizeSays(v, k))
    && (ItemsOk(dl, v, k) <==> ItemsSay(dl.matches, v, k))
    && (ObjectOk(dl, v, k) <==>
        RequiredSays(v, k) && PropertiesSay(dl.matches, v, k) && AdditionalSays(dl.matches, v, k))
  }

  lemma Together(dl: Dialect, v: Value, k: seq<Member>)
    requires KeywordsAgree(dl, v, k)
    ensures Meets(dl, v, Obj(k)) <==> Satisfies(dl.matches, v, Obj(k))
  {}

  lemma {:induction false} KeywordsRead(dl: Dialect, v: Value, k: seq<Member>)
    requires dl == JsonSchema(dl.matches)
    ensures KeywordsAgree(dl, v, k)
    decreases Obj(k), 2
  {
    CombinedRead(dl, v, k);
    TypeRead(dl, v, k);
    ValueRead(dl, v, k);
    ItemsRead(dl, v, k);
    ObjectRead(dl, v, k);
  }

  /** In the spelling of JSON Schema the meaning that the validator decides is the demands of the keywords. */
  lemma {:induction false} SchemaMeans(dl: Dialect, v: Value, s: Value)
    requires dl == JsonSchema(dl.matches) && IsSchema(s)
    ensures Meets(dl, v, s) <==> Satisfies(dl.matches, v, s)
    decreases s, 3
  {
    if s.Obj? {
      KeywordsRead(dl, v, s.members);
      Together(dl, v, s.members);
    }
  }

  /** The keyword that ends the schema path of a diagnostic. */
  lemma KeywordSpelled(matches: Matches, c: Code)
    ensures Keyword(JsonSchema(matches), c) ==
            match c
            case SchemaFalse => ""
            case OneOf => "oneOf"
            case AnyOf => "anyOf"
            case Type => "type"
            case Enum => "enum"
            case Const => "const"
            case Minimum => "minimum"
            case Maximum => "maximum"
            case MinLength => "minLength"
            case MaxLength => "maxLength"
            case Pattern => "pattern"
            case MinItems => "minItems"
            case MaxItems => "maxItems"
            case Required => "required"
            case AdditionalProperty => "additionalProperties"
            case AdditionalPropertyOpen => "additionalProperties"
  {}

  // ---- One keyword alone ---------------------------------------------------------------------------------

  lemma OnlyMember(key: string, x: Value, other: string)
    ensures Lookup([Member(key, x)], other) == if other == key then Some(x) else None
  {
    assert [Member(key, x)][1..] == [];
  }

  /** The keywords that combine schemas or look into the value are absent. */
  predicate Flat(k: seq<Member>) {
    && Lookup(k, "oneOf").None? && Lookup(k, "anyOf").None? && Lookup(k, "allOf").None? && Lookup(k, "items").None?
    && Lookup(k, "required").None? && Lookup(k, "properties").None? && Lookup(k, "additionalProperties").None?
    && Lookup(k, "enum").None? && Lookup(k, "const").None? && Lookup(k, "pattern").None?
  }

  lemma FlatMeans(matches: Matches, v: Value, k: seq<Member>)
    requires Flat(k)
    ensures Satisfies(matches, v, Obj(k)) <==> TypeSays(v, k) && NumberSays(v, k) && LengthSays(v, k) && SizeSays(v, k)
  {}

  lemma AloneFlat(key: string, x: Value)
    requires key in {"type", "minimum", "maximum"}
    ensures Flat([Member(key, x)])
    ensures var k := [Member(key, x)];
            && Lookup(k, "minLength").None? && Lookup(k, "maxLength").None?
            && Lookup(k, "minItems").None? && Lookup(k, "maxItems").None?
    ensures key != "type" ==> Lookup([Member(key, x)], "type").None?
    ensures key != "minimum" ==> Lookup([Member(key, x)], "minimum").None?
    ensures key != "maximum" ==> Lookup([Member(key, x)], "maximum").None?
  {
    forall other ensures Lookup([Member(key, x)], other) == if other == key then Some(x) else None {
      OnlyMember(key, x, other);
    }
  }

  /** A schema that names one type is met exactly by the values of that type. */
  lemma TypeAlone(matches: Matches, v: Value, name: string)
    ensures Satisfies(matches, v, Obj([Member("type", Str(name))])) <==> OfType(v, name)
  {
    var k := [Member("type", Str(name))];
    AloneFlat("type", Str(name));
    FlatMeans(matches, v, k);
    OnlyMember("type", Str(name), "type");
  }

  /** A finite number under `minimum` is met exactly by the finite numbers from it on and by everything that is
      no finite number. */
  lemma MinimumAlone(matches: Matches, v: Value, bound: real)
    ensures Satisfies(matches, v, Obj([Member("minimum", Num(Finite(bound)))]))
            <==> (v.Num? && IsFinite(v.n) ==> Real(v.n) >= bound)
  {
    var k := [Member("minimum", Num(Finite(bound)))];
    AloneFlat("minimum", Num(Finite(bound)));
    FlatMeans(matches, v, k);
    OnlyMember("minimum", Num(Finite(bound)), "minimum");
    OnlyLimit(v, k);
  }

  /** Under `maximum`, by those up to it. */
  lemma MaximumAlone(matches: Matches, v: Value, bound: real)
    ensures Satisfies(matches, v, Obj([Member("maximum", Num(Finite(bound)))]))
            <==> (v.Num? && IsFinite(v.n) ==> Real(v.n) <= bound)
  {
    var k := [Member("maximum", Num(Finite(bound)))];
    AloneFlat("maximum", Num(Finite(bound)));
    FlatMeans(matches, v, k);
    OnlyMember("maximum", Num(Finite(bound)), "maximum");
    OnlyLimit(v, k);
  }

  lemma OnlyLimit(v: Value, k: seq<Member>)
    requires Lookup(k, "type").None? && Lookup(k, "minLength").None? && Lookup(k, "maxLength").None?
    requires Lookup(k, "minItems").None? && Lookup(k, "maxItems").None?
    ensures TypeSays(v, k) && LengthSays(v, k) && SizeSays(v, k)
  {}
}
