/** The playbook schema validator (cli/playbook/schema-validator.ts) against a meaning of the
    keywords it supports (JSON Schema Validation 2020-12, section 6, and Core, section 10). */
module Schema {
  import opened Json
  import opened Wrappers

  datatype JsonType = ArrayType | BooleanType | IntegerType | NullType | NumberType | ObjectType | StringType

  /** The names the validator looks for, and `new RegExp(pattern).test(value)`: `None` when the pattern
      is no regular expression. Nothing below depends on how the keywords are spelled. */
  datatype Dialect = Dialect(
    matches: (string, string) -> Option<bool>,
    typeNamed: string -> Option<JsonType>,
    oneOf: string, anyOf: string, allOf: string, types: string, choices: string, constant: string,
    minimum: string, maximum: string, minLength: string, maxLength: string, pattern: string,
    minItems: string, maxItems: string, items: string,
    required: string, properties: string, additionalProperties: string)

  /** The spelling of JSON Schema. */
  function JsonSchema(matches: (string, string) -> Option<bool>): Dialect {
    Dialect(matches, TypeNamed, "oneOf", "anyOf", "allOf", "type", "enum", "const",
            "minimum", "maximum", "minLength", "maxLength", "pattern", "minItems", "maxItems", "items",
            "required", "properties", "additionalProperties")
  }

  function TypeNamed(t: string): Option<JsonType> {
    if t == "array" then Some(ArrayType)
    else if t == "boolean" then Some(BooleanType)
    else if t == "integer" then Some(IntegerType)
    else if t == "null" then Some(NullType)
    else if t == "number" then Some(NumberType)
    else if t == "object" then Some(ObjectType)
    else if t == "string" then Some(StringType)
    else None
  }

  datatype Severity = Error | Warning

  datatype Code =
    | SchemaFalse
    | OneOf | AnyOf | Type | Enum | Const | Minimum | Maximum | MinLength | MaxLength | Pattern | MinItems | MaxItems
    | Required | AdditionalProperty | AdditionalPropertyOpen

  datatype Diagnostic = Diagnostic(severity: Severity, code: Code, instancePath: string, schemaPath: string)

  predicate HasErrors(ds: seq<Diagnostic>) {
    ds != [] && (ds[0].severity == Error || HasErrors(ds[1..]))
  }

  lemma {:induction false} HasErrorsConcat(a: seq<Diagnostic>, b: seq<Diagnostic>)
    ensures HasErrors(a + b) <==> HasErrors(a) || HasErrors(b)
  {
    if a == [] {
      assert a + b == b;
    } else {
      assert (a + b)[1..] == a[1..] + b;
      HasErrorsConcat(a[1..], b);
    }
  }

  // ---- Reading a schema ----------------------------------------------------------------------------

  predicate IsSchema(v: Value) { v.Bool? || v.Obj? }

  function Branches(k: seq<Member>, keyword: string): (bs: Option<seq<Value>>)
    ensures bs.Some? ==> Lookup(k, keyword) == Some(Arr(bs.value))
    ensures bs.Some? ==> forall b <- bs.value :: IsSchema(b) && b < Obj(k)
  {
    match Lookup(k, keyword)
    case Some(Arr(items)) => if forall b <- items :: IsSchema(b) then Some(items) else None
    case _ => None
  }

  function SubSchema(k: seq<Member>, keyword: string): (s: Option<Value>)
    ensures s.Some? ==> Lookup(k, keyword) == s && IsSchema(s.value) && s.value < Obj(k)
  {
    match Lookup(k, keyword)
    case Some(v) => if IsSchema(v) then Some(v) else None
    case None => None
  }

  function Strings(vs: seq<Value>): seq<string> {
    if vs == [] then [] else (if vs[0].Str? then [vs[0].s] else []) + Strings(vs[1..])
  }

  function DeclaredTypes(dl: Dialect, k: seq<Member>): seq<string> {
    match Lookup(k, dl.types)
    case Some(Str(t)) => [t]
    case Some(Arr(items)) => Strings(items)
    case _ => []
  }

  function RequiredKeys(dl: Dialect, k: seq<Member>): seq<string> {
    match Lookup(k, dl.required)
    case Some(Arr(items)) => Strings(items)
    case _ => []
  }

  function Properties(dl: Dialect, k: seq<Member>): (ps: seq<Member>)
    ensures ps != [] ==> Lookup(k, dl.properties) == Some(Obj(ps))
    ensures forall p <- ps :: p.value < Obj(k)
  {
    match Lookup(k, dl.properties)
    case Some(Obj(ps)) => ps
    case _ => []
  }

  /** The number a keyword holds, if it holds one. */
  function Limit(k: seq<Member>, keyword: string): Option<Number> {
    match Lookup(k, keyword)
    case Some(Num(n)) => Some(n)
    case _ => None
  }

  // ---- The meaning of the keywords -------------------------------------------------------------------

  predicate Equals(z: int, r: real) { z as real == r }

  /** The types that a value has; infinities and NaN have none. */
  ghost function TypesOf(v: Value): set<JsonType> {
    match v
    case Null => {NullType}
    case Bool(_) => {BooleanType}
    case Num(n) =>
      if !IsFinite(n) then {}
      else if exists z :: Equals(z, Real(n)) then {IntegerType, NumberType}
      else {NumberType}
    case Str(_) => {StringType}
    case Arr(_) => {ArrayType}
    case Obj(_) => {ObjectType}
  }

  /** Exactly one branch holds. */
  ghost predicate OneOfOk(dl: Dialect, v: Value, k: seq<Member>)
    decreases Obj(k), 0
  {
    match Branches(k, dl.oneOf)
    case None => true
    case Some(bs) => |set i | 0 <= i < |bs| && Meets(dl, v, bs[i])| == 1
  }

  ghost predicate AnyOfOk(dl: Dialect, v: Value, k: seq<Member>)
    decreases Obj(k), 0
  {
    match Branches(k, dl.anyOf)
    case None => true
    case Some(bs) => exists i | 0 <= i < |bs| :: Meets(dl, v, bs[i])
  }

  ghost predicate AllOfOk(dl: Dialect, v: Value, k: seq<Member>)
    decreases Obj(k), 0
  {
    match Branches(k, dl.allOf)
    case None => true
    case Some(bs) => forall i | 0 <= i < |bs| :: Meets(dl, v, bs[i])
  }

  /** Some declared name names a type of the value; no value has a type without a name. */
  ghost predicate TypeOk(dl: Dialect, v: Value, k: seq<Member>) {
    var names := DeclaredTypes(dl, k);
    names != [] ==> exists t <- names :: dl.typeNamed(t).Some? && dl.typeNamed(t).value in TypesOf(v)
  }

  predicate EnumOk(dl: Dialect, v: Value, k: seq<Member>) {
    match Lookup(k, dl.choices)
    case Some(Arr(choices)) => exists c <- choices :: DeepEqual(c, v)
    case _ => true
  }

  predicate ConstOk(dl: Dialect, v: Value, k: seq<Member>) {
    Lookup(k, dl.constant).Some? ==> DeepEqual(Lookup(k, dl.constant).value, v)
  }

  /** A real number is no less than a limit; NaN limits nothing. */
  predicate AtLeast(r: real, limit: Number) {
    match limit
    case Infinite(negative) => negative
    case NotANumber => true
    case _ => r >= Real(limit)
  }

  predicate AtMost(r: real, limit: Number) {
    match limit
    case Infinite(negative) => !negative
    case NotANumber => true
    case _ => r <= Real(limit)
  }

  /** The quantity respects the limit that the keyword gives, if it gives one. */
  predicate NoLess(r: real, k: seq<Member>, keyword: string) {
    Limit(k, keyword).Some? ==> AtLeast(r, Limit(k, keyword).value)
  }

  predicate NoMore(r: real, k: seq<Member>, keyword: string) {
    Limit(k, keyword).Some? ==> AtMost(r, Limit(k, keyword).value)
  }

  predicate MinimumOk(dl: Dialect, v: Value, k: seq<Member>) { v.Num? && IsFinite(v.n) ==> NoLess(Real(v.n), k, dl.minimum) }

  predicate MaximumOk(dl: Dialect, v: Value, k: seq<Member>) { v.Num? && IsFinite(v.n) ==> NoMore(Real(v.n), k, dl.maximum) }

  predicate MinLengthOk(dl: Dialect, v: Value, k: seq<Member>) { v.Str? ==> NoLess(|v.s| as real, k, dl.minLength) }

  predicate MaxLengthOk(dl: Dialect, v: Value, k: seq<Member>) { v.Str? ==> NoMore(|v.s| as real, k, dl.maxLength) }

  /** The text matches the pattern, or the pattern is no regular expression. */
  predicate PatternOk(dl: Dialect, v: Value, k: seq<Member>) {
    match Lookup(k, dl.pattern)
    case Some(Str(p)) => v.Str? ==> dl.matches(p, v.s) != Some(false)
    case _ => true
  }

  predicate MinItemsOk(dl: Dialect, v: Value, k: seq<Member>) { v.Arr? ==> NoLess(|v.items| as real, k, dl.minItems) }

  predicate MaxItemsOk(dl: Dialect, v: Value, k: seq<Member>) { v.Arr? ==> NoMore(|v.items| as real, k, dl.maxItems) }

  /** The keywords that look at the value alone. */
  predicate ValueOk(dl: Dialect, v: Value, k: seq<Member>) {
    && EnumOk(dl, v, k) && ConstOk(dl, v, k) && MinimumOk(dl, v, k) && MaximumOk(dl, v, k)
    && MinLengthOk(dl, v, k) && MaxLengthOk(dl, v, k) && PatternOk(dl, v, k)
    && MinItemsOk(dl, v, k) && MaxItemsOk(dl, v, k)
  }

  ghost predicate ItemsOk(dl: Dialect, v: Value, k: seq<Member>)
    decreases Obj(k), 0
  {
    v.Arr? ==>
      match SubSchema(k, dl.items)
      case None => true
      case Some(s) => forall i | 0 <= i < |v.items| :: Meets(dl, v.items[i], s)
  }

  predicate RequiredOk(dl: Dialect, ms: seq<Member>, k: seq<Member>) {
    forall key <- RequiredKeys(dl, k) :: HasKey(ms, key)
  }

  ghost predicate PropertiesOk(dl: Dialect, ms: seq<Member>, k: seq<Member>)
    decreases Obj(k), 0
  {
    forall i | 0 <= i < |Properties(dl, k)| :: PropertyOk(dl, ms, k, i)
  }

  /** A declared property that the object has meets its schema. */
  ghost predicate PropertyOk(dl: Dialect, ms: seq<Member>, k: seq<Member>, i: nat)
    requires i < |Properties(dl, k)|
    decreases Obj(k), 0, 0
  {
    var p := Properties(dl, k)[i];
    HasKey(ms, p.key) && IsSchema(p.value) ==> Meets(dl, Lookup(ms, p.key).value, p.value)
  }

  /** A property that is not declared meets the schema for additional properties. */
  ghost predicate AdditionalOk(dl: Dialect, ms: seq<Member>, k: seq<Member>)
    decreases Obj(k), 0
  {
    SubSchema(k, dl.additionalProperties).Some? ==>
      forall m <- ms | !HasKey(Properties(dl, k), m.key) ::
        Meets(dl, Lookup(ms, m.key).value, SubSchema(k, dl.additionalProperties).value)
  }

  ghost predicate ObjectOk(dl: Dialect, v: Value, k: seq<Member>)
    decreases Obj(k), 1
  {
    v.Obj? ==> RequiredOk(dl, v.members, k) && PropertiesOk(dl, v.members, k) && AdditionalOk(dl, v.members, k)
  }

  ghost predicate Meets(dl: Dialect, v: Value, s: Value)
    requires IsSchema(s)
    decreases s, 3
  {
    match s
    case Bool(b) => b
    case Obj(k) => MeetsKeywords(dl, v, k)
  }

  /** Every keyword holds, whatever the others say. */
  ghost predicate MeetsKeywords(dl: Dialect, v: Value, k: seq<Member>)
    decreases Obj(k), 2
  {
    && OneOfOk(dl, v, k) && AnyOfOk(dl, v, k) && AllOfOk(dl, v, k)
    && TypeOk(dl, v, k) && ValueOk(dl, v, k) && ItemsOk(dl, v, k)
    && ObjectOk(dl, v, k)
  }

  // ---- The diagnostics of the validator, in order ------------------------------------------------------

  function Keyword(dl: Dialect, c: Code): string {
    match c
    case SchemaFalse => ""
    case OneOf => dl.oneOf
    case AnyOf => dl.anyOf
    case Type => dl.types
    case Enum => dl.choices
    case Const => dl.constant
    case Minimum => dl.minimum
    case Maximum => dl.maximum
    case MinLength => dl.minLength
    case MaxLength => dl.maxLength
    case Pattern => dl.pattern
    case MinItems => dl.minItems
    case MaxItems => dl.maxItems
    case Required => dl.required
    case AdditionalProperty => dl.additionalProperties
    case AdditionalPropertyOpen => dl.additionalProperties
  }

  function Warnings(ds: seq<Diagnostic>): (ws: seq<Diagnostic>)
    ensures !HasErrors(ws)
    ensures forall d :: d in ws <==> d in ds && d.severity == Warning
  {
    if ds == [] then []
    else
      var rest := Warnings(ds[1..]);
      assert forall d :: d in ds <==> d == ds[0] || d in ds[1..];
      if ds[0].severity == Warning then [ds[0]] + rest else rest
  }

  /** An error about the value at hand and one keyword of the schema at hand, unless that holds. */
  function Unless(dl: Dialect, holds: bool, c: Code, ip: string, sp: string): (ds: seq<Diagnostic>)
    ensures HasErrors(ds) <==> !holds
  {
    if holds then [] else [Diagnostic(Error, c, ip, AppendPointer(sp, Keyword(dl, c)))]
  }

  function BranchPath(sp: string, keyword: string, i: nat): string {
    AppendPointer(AppendPointer(sp, keyword), Decimal(i))
  }

  /** The results without errors among the first n branches of `oneOf`. */
  function Passing(dl: Dialect, v: Value, k: seq<Member>, ip: string, sp: string, n: nat): seq<seq<Diagnostic>>
    requires Branches(k, dl.oneOf).Some? && n <= |Branches(k, dl.oneOf).value|
    decreases Obj(k), 0, n
  {
    if n == 0 then []
    else
      var r := Node(dl, v, Branches(k, dl.oneOf).value[n - 1], ip, BranchPath(sp, dl.oneOf, n - 1));
      Passing(dl, v, k, ip, sp, n - 1) + (if HasErrors(r) then [] else [r])
  }

  function OneOfDs(dl: Dialect, v: Value, k: seq<Member>, ip: string, sp: string): seq<Diagnostic>
    decreases Obj(k), 1
  {
    match Branches(k, dl.oneOf)
    case None => []
    case Some(bs) =>
      var passing := Passing(dl, v, k, ip, sp, |bs|);
      if |passing| == 1 then Warnings(passing[0]) else Unless(dl, false, OneOf, ip, sp)
  }

  /** The first result without errors among the first n branches of `anyOf`. */
  function FirstPassing(dl: Dialect, v: Value, k: seq<Member>, ip: string, sp: string, n: nat): Option<seq<Diagnostic>>
    requires Branches(k, dl.anyOf).Some? && n <= |Branches(k, dl.anyOf).value|
    decreases Obj(k), 0, n
  {
    if n == 0 then None
    else
      var before := FirstPassing(dl, v, k, ip, sp, n - 1);
      var r := Node(dl, v, Branches(k, dl.anyOf).value[n - 1], ip, BranchPath(sp, dl.anyOf, n - 1));
      if before.None? && !HasErrors(r) then Some(r) else before
  }

  function AnyOfDs(dl: Dialect, v: Value, k: seq<Member>, ip: string, sp: string): seq<Diagnostic>
    decreases Obj(k), 1
  {
    match Branches(k, dl.anyOf)
    case None => []
    case Some(bs) =>
      match FirstPassing(dl, v, k, ip, sp, |bs|)
      case Some(r) => Warnings(r)
      case None => Unless(dl, false, AnyOf, ip, sp)
  }

  function AllOfDs(dl: Dialect, v: Value, k: seq<Member>, ip: string, sp: string, n: nat): seq<Diagnostic>
    requires n <= BranchCount(dl, k)
    decreases Obj(k), 1, n
  {
    if n == 0 then []
    else
      AllOfDs(dl, v, k, ip, sp, n - 1)
      + Node(dl, v, Branches(k, dl.allOf).value[n - 1], ip, BranchPath(sp, dl.allOf, n - 1))
  }

  function BranchCount(dl: Dialect, k: seq<Member>): nat {
    if Branches(k, dl.allOf).Some? then |Branches(k, dl.allOf).value| else 0
  }

  /** `matchesType`, for a name of a type. */
  predicate HasType(v: Value, t: JsonType) {
    match t
    case ArrayType => v.Arr?
    case BooleanType => v.Bool?
    case IntegerType => v.Num? && IsFinite(v.n) && Real(v.n).Floor as real == Real(v.n)
    case NullType => v.Null?
    case NumberType => v.Num? && IsFinite(v.n)
    case ObjectType => v.Obj?
    case StringType => v.Str?
  }

  predicate MatchesType(dl: Dialect, v: Value, t: string) {
    dl.typeNamed(t).Some? && HasType(v, dl.typeNamed(t).value)
  }

  /** `declaredTypes.filter(...)`: the names of types among the first n. */
  function Supported(dl: Dialect, names: seq<string>, n: nat): seq<string>
    requires n <= |names|
  {
    if n == 0 then []
    else Supported(dl, names, n - 1) + (if dl.typeNamed(names[n - 1]).Some? then [names[n - 1]] else [])
  }

  /** `supportedTypes.some(...)` over the first n. */
  predicate SomeMatches(dl: Dialect, v: Value, names: seq<string>, n: nat)
    requires n <= |names|
  {
    n > 0 && (SomeMatches(dl, v, names, n - 1) || MatchesType(dl, v, names[n - 1]))
  }

  predicate TypeFails(dl: Dialect, v: Value, k: seq<Member>) {
    var names := DeclaredTypes(dl, k);
    var supported := Supported(dl, names, |names|);
    names != [] && !SomeMatches(dl, v, supported, |supported|)
  }

  /** `schema.enum.some(...)` over the first n choices. */
  predicate SomeEqual(choices: seq<Value>, v: Value, n: nat)
    requires n <= |choices|
  {
    n > 0 && (SomeEqual(choices, v, n - 1) || DeepEqual(choices[n - 1], v))
  }

  predicate EnumFails(dl: Dialect, v: Value, k: seq<Member>) {
    match Lookup(k, dl.choices)
    case Some(Arr(choices)) => !SomeEqual(choices, v, |choices|)
    case _ => false
  }

  predicate ConstFails(dl: Dialect, v: Value, k: seq<Member>) {
    match Lookup(k, dl.constant)
    case Some(c) => !DeepEqual(c, v)
    case None => false
  }

  /** The keyword holds a number, and this one is less. */
  predicate BelowLimit(n: Number, k: seq<Member>, keyword: string) {
    Limit(k, keyword).Some? && Less(n, Limit(k, keyword).value)
  }

  predicate AboveLimit(n: Number, k: seq<Member>, keyword: string) {
    Limit(k, keyword).Some? && Less(Limit(k, keyword).value, n)
  }

  predicate PatternFails(dl: Dialect, text: string, k: seq<Member>) {
    match Lookup(k, dl.pattern)
    case Some(Str(p)) => dl.matches(p, text) == Some(false)
    case _ => false
  }

  function Count(n: nat): Number { Finite(n as real) }

  function ChoiceDs(dl: Dialect, v: Value, k: seq<Member>, ip: string, sp: string): seq<Diagnostic> {
    Unless(dl, !EnumFails(dl, v, k), Enum, ip, sp) + Unless(dl, !ConstFails(dl, v, k), Const, ip, sp)
  }

  /** A quantity against the keywords of its two limits. */
  function LimitDs(dl: Dialect, n: Number, k: seq<Member>, low: Code, high: Code, ip: string, sp: string): seq<Diagnostic> {
    Unless(dl, !BelowLimit(n, k, Keyword(dl, low)), low, ip, sp)
    + Unless(dl, !AboveLimit(n, k, Keyword(dl, high)), high, ip, sp)
  }

  function NumberDs(dl: Dialect, v: Value, k: seq<Member>, ip: string, sp: string): seq<Diagnostic> {
    if v.Num? && IsFinite(v.n) then LimitDs(dl, v.n, k, Minimum, Maximum, ip, sp) else []
  }

  function TextDs(dl: Dialect, v: Value, k: seq<Member>, ip: string, sp: string): seq<Diagnostic> {
    if v.Str? then
      LimitDs(dl, Count(|v.s|), k, MinLength, MaxLength, ip, sp) + Unless(dl, !PatternFails(dl, v.s, k), Pattern, ip, sp)
    else []
  }

  function SizeDs(dl: Dialect, v: Value, k: seq<Member>, ip: string, sp: string): seq<Diagnostic> {
    if v.Arr? then LimitDs(dl, Count(|v.items|), k, MinItems, MaxItems, ip, sp) else []
  }

  /** The keywords that look at the value alone, after its type. */
  function ValueDs(dl: Dialect, v: Value, k: seq<Member>, ip: string, sp: string): seq<Diagnostic> {
    ChoiceDs(dl, v, k, ip, sp) + NumberDs(dl, v, k, ip, sp) + TextDs(dl, v, k, ip, sp) + SizeDs(dl, v, k, ip, sp)
  }

  /** How many elements `items` is applied to. */
  function ItemCount(dl: Dialect, v: Value, k: seq<Member>): nat {
    if v.Arr? && SubSchema(k, dl.items).Some? then |v.items| else 0
  }

  function ItemsDs(dl: Dialect, v: Value, k: seq<Member>, ip: string, sp: string, n: nat): seq<Diagnostic>
    requires n <= ItemCount(dl, v, k)
    decreases Obj(k), 1, n
  {
    if n == 0 then []
    else
      ItemsDs(dl, v, k, ip, sp, n - 1)
      + Node(dl, v.items[n - 1], SubSchema(k, dl.items).value, AppendPointer(ip, Decimal(n - 1)), AppendPointer(sp, dl.items))
  }

  function RequiredDs(dl: Dialect, ms: seq<Member>, keys: seq<string>, ip: string, sp: string): seq<Diagnostic> {
    if keys == [] then []
    else
      var key := keys[|keys| - 1];
      RequiredDs(dl, ms, keys[..|keys| - 1], ip, sp)
      + (if HasKey(ms, key) then []
         else [Diagnostic(Error, Required, AppendPointer(ip, key), AppendPointer(sp, dl.required))])
  }

  function PropertyDs(dl: Dialect, ms: seq<Member>, k: seq<Member>, ip: string, sp: string, i: nat): seq<Diagnostic>
    requires i < |Properties(dl, k)|
    decreases Obj(k), 0
  {
    var p := Properties(dl, k)[i];
    if HasKey(ms, p.key) && IsSchema(p.value) then
      Node(dl, Lookup(ms, p.key).value, p.value, AppendPointer(ip, p.key),
           AppendPointer(AppendPointer(sp, dl.properties), p.key))
    else []
  }

  function PropertiesDs(dl: Dialect, ms: seq<Member>, k: seq<Member>, ip: string, sp: string, n: nat): seq<Diagnostic>
    requires n <= |Properties(dl, k)|
    decreases Obj(k), 1, n
  {
    if n == 0 then []
    else PropertiesDs(dl, ms, k, ip, sp, n - 1) + PropertyDs(dl, ms, k, ip, sp, n - 1)
  }

  /** What is said of a property that is not declared, by the schema for such ones; `whole` has that schema. */
  function UndeclaredDs(dl: Dialect, ghost whole: Value, additional: Option<Value>, v: Value, ip: string,
                        path: string): seq<Diagnostic>
    requires additional.Some? ==> IsSchema(additional.value) && additional.value < whole
    decreases whole, 0, 0
  {
    match additional
    case Some(Bool(false)) => [Diagnostic(Error, AdditionalProperty, ip, path)]
    case Some(Obj(a)) => Node(dl, v, Obj(a), ip, path)
    case _ => [Diagnostic(Warning, AdditionalPropertyOpen, ip, path)]
  }

  /** What is said of one key of the object: nothing when it is declared. */
  function ExtraDs(dl: Dialect, ms: seq<Member>, k: seq<Member>, ip: string, sp: string, key: string): seq<Diagnostic>
    requires HasKey(ms, key)
    decreases Obj(k), 0
  {
    if HasKey(Properties(dl, k), key) then []
    else
      UndeclaredDs(dl, Obj(k), SubSchema(k, dl.additionalProperties), Lookup(ms, key).value, AppendPointer(ip, key),
                   AppendPointer(sp, dl.additionalProperties))
  }

  function AdditionalDs(dl: Dialect, ms: seq<Member>, k: seq<Member>, ip: string, sp: string, n: nat): seq<Diagnostic>
    requires n <= |ms|
    decreases Obj(k), 1, n
  {
    if n == 0 then []
    else
      assert ms[n - 1] in ms;
      AdditionalDs(dl, ms, k, ip, sp, n - 1) + ExtraDs(dl, ms, k, ip, sp, ms[n - 1].key)
  }

  function ObjectDs(dl: Dialect, v: Value, k: seq<Member>, ip: string, sp: string): seq<Diagnostic>
    decreases Obj(k), 2
  {
    if v.Obj? then
      RequiredDs(dl, v.members, RequiredKeys(dl, k), ip, sp)
      + PropertiesDs(dl, v.members, k, ip, sp, |Properties(dl, k)|)
      + AdditionalDs(dl, v.members, k, ip, sp, |v.members|)
    else []
  }

  function KeywordDs(dl: Dialect, v: Value, k: seq<Member>, ip: string, sp: string): seq<Diagnostic>
    decreases Obj(k), 3
  {
    var combined := OneOfDs(dl, v, k, ip, sp) + AnyOfDs(dl, v, k, ip, sp) + AllOfDs(dl, v, k, ip, sp, BranchCount(dl, k));
    if TypeFails(dl, v, k) then combined + Unless(dl, false, Type, ip, sp)
    else
      combined + ValueDs(dl, v, k, ip, sp) + ItemsDs(dl, v, k, ip, sp, ItemCount(dl, v, k)) + ObjectDs(dl, v, k, ip, sp)
  }

  /** All diagnostics of a value, a schema and the pointers to them. */
  function Node(dl: Dialect, v: Value, s: Value, ip: string, sp: string): seq<Diagnostic>
    requires IsSchema(s)
    decreases s, 4
  {
    match s
    case Bool(true) => []
    case Bool(false) => [Diagnostic(Error, SchemaFalse, ip, sp)]
    case Obj(k) => KeywordDs(dl, v, k, ip, sp)
  }

  // ---- The verdict: errors are reported exactly for violations ----------------------------------------------

  /** The branches among the first n that the value meets. */
  ghost function Met(dl: Dialect, v: Value, bs: seq<Value>, n: nat): set<nat>
    requires n <= |bs| && forall b <- bs :: IsSchema(b)
  {
    set i | 0 <= i < n && Meets(dl, v, bs[i])
  }

  lemma MetStep(dl: Dialect, v: Value, bs: seq<Value>, n: nat)
    requires 0 < n <= |bs| && forall b <- bs :: IsSchema(b)
    ensures Met(dl, v, bs, n) ==
            Met(dl, v, bs, n - 1) + (if Meets(dl, v, bs[n - 1]) then {n - 1} else {})
    ensures n - 1 !in Met(dl, v, bs, n - 1)
  {}

  lemma {:induction false} BranchVerdict(dl: Dialect, v: Value, bs: seq<Value>, ip: string, path: string, n: nat)
    requires 0 < n <= |bs| && forall b <- bs :: IsSchema(b)
    ensures Met(dl, v, bs, n) ==
            Met(dl, v, bs, n - 1) + (if HasErrors(Node(dl, v, bs[n - 1], ip, path)) then {} else {n - 1})
    ensures n - 1 !in Met(dl, v, bs, n - 1)
    decreases bs[n - 1], 6
  {
    MetStep(dl, v, bs, n);
    NodeVerdict(dl, v, bs[n - 1], ip, path);
  }

  lemma {:induction false} OneOfVerdict(dl: Dialect, v: Value, k: seq<Member>, ip: string, sp: string)
    ensures HasErrors(OneOfDs(dl, v, k, ip, sp)) <==> !OneOfOk(dl, v, k)
    decreases Obj(k), 1
  {
    var branches := Branches(k, dl.oneOf);
    if branches.Some? {
      var bs := branches.value;
      PassingCount(dl, v, k, bs, ip, sp, |bs|);
      assert Met(dl, v, bs, |bs|) == set i | 0 <= i < |bs| && Meets(dl, v, bs[i]);
    }
  }

  lemma {:induction false} PassingCount(dl: Dialect, v: Value, k: seq<Member>, bs: seq<Value>, ip: string,
                                        sp: string, n: nat)
    requires Branches(k, dl.oneOf) == Some(bs) && n <= |bs|
    ensures |Passing(dl, v, k, ip, sp, n)| == |Met(dl, v, bs, n)|
    decreases Obj(k), 0, n
  {
    if n > 0 {
      PassingCount(dl, v, k, bs, ip, sp, n - 1);
      BranchVerdict(dl, v, bs, ip, BranchPath(sp, dl.oneOf, n - 1), n);
    }
  }

  lemma {:induction false} AnyOfVerdict(dl: Dialect, v: Value, k: seq<Member>, ip: string, sp: string)
    ensures HasErrors(AnyOfDs(dl, v, k, ip, sp)) <==> !AnyOfOk(dl, v, k)
    decreases Obj(k), 1
  {
    var branches := Branches(k, dl.anyOf);
    if branches.Some? {
      var bs := branches.value;
      FirstPassingExists(dl, v, k, bs, ip, sp, |bs|);
      if AnyOfOk(dl, v, k) {
        var i :| 0 <= i < |bs| && Meets(dl, v, bs[i]);
        assert i in Met(dl, v, bs, |bs|);
      }
    }
  }

  lemma {:induction false} FirstPassingExists(dl: Dialect, v: Value, k: seq<Member>, bs: seq<Value>, ip: string,
      sp: string, n: nat)
    requires Branches(k, dl.anyOf) == Some(bs) && n <= |bs|
    ensures FirstPassing(dl, v, k, ip, sp, n).Some? <==> Met(dl, v, bs, n) != {}
    decreases Obj(k), 0, n
  {
    if n > 0 {
      FirstPassingExists(dl, v, k, bs, ip, sp, n - 1);
      BranchVerdict(dl, v, bs, ip, BranchPath(sp, dl.anyOf, n - 1), n);
    }
  }

  lemma {:induction false} AllOfVerdict(dl: Dialect, v: Value, k: seq<Member>, ip: string, sp: string)
    ensures HasErrors(AllOfDs(dl, v, k, ip, sp, BranchCount(dl, k))) <==> !AllOfOk(dl, v, k)
    decreases Obj(k), 2
  {
    var branches := Branches(k, dl.allOf);
    if branches.Some? {
      var bs := branches.value;
      AllOfCount(dl, v, k, bs, ip, sp, |bs|);
      AllMet(dl, v, bs, |bs|);
    }
  }

  lemma {:induction false} AllMet(dl: Dialect, v: Value, bs: seq<Value>, n: nat)
    requires n <= |bs| && forall b <- bs :: IsSchema(b)
    ensures |Met(dl, v, bs, n)| == n <==> forall i | 0 <= i < n :: Meets(dl, v, bs[i])
    ensures |Met(dl, v, bs, n)| <= n
  {
    if n > 0 {
      AllMet(dl, v, bs, n - 1);
      MetStep(dl, v, bs, n);
    }
  }

  lemma {:induction false} AllOfCount(dl: Dialect, v: Value, k: seq<Member>, bs: seq<Value>, ip: string, sp: string,
                                      n: nat)
    requires Branches(k, dl.allOf) == Some(bs) && n <= |bs|
    ensures HasErrors(AllOfDs(dl, v, k, ip, sp, n)) <==> |Met(dl, v, bs, n)| != n
    ensures |Met(dl, v, bs, n)| <= n
    decreases Obj(k), 1, n
  {
    if n > 0 {
      var path := BranchPath(sp, dl.allOf, n - 1);
      AllOfCount(dl, v, k, bs, ip, sp, n - 1);
      BranchVerdict(dl, v, bs, ip, path, n);
      AllOfErrors(dl, v, k, bs, ip, sp, n);
    }
  }

  lemma AllOfErrors(dl: Dialect, v: Value, k: seq<Member>, bs: seq<Value>, ip: string, sp: string, n: nat)
    requires Branches(k, dl.allOf) == Some(bs) && 0 < n <= |bs|
    ensures HasErrors(AllOfDs(dl, v, k, ip, sp, n)) <==>
            || HasErrors(AllOfDs(dl, v, k, ip, sp, n - 1))
            || HasErrors(Node(dl, v, bs[n - 1], ip, BranchPath(sp, dl.allOf, n - 1)))
  {
    HasErrorsConcat(AllOfDs(dl, v, k, ip, sp, n - 1), Node(dl, v, bs[n - 1], ip, BranchPath(sp, dl.allOf, n - 1)));
  }

  lemma {:induction false} SupportedNames(dl: Dialect, names: seq<string>, n: nat)
    requires n <= |names|
    ensures forall t :: t in Supported(dl, names, n) <==> t in names[..n] && dl.typeNamed(t).Some?
  {
    if n > 0 {
      SupportedNames(dl, names, n - 1);
      assert names[..n] == names[..n - 1] + [names[n - 1]];
    }
  }

  lemma {:induction false} SomeMatchesExists(dl: Dialect, v: Value, names: seq<string>, n: nat)
    requires n <= |names|
    ensures SomeMatches(dl, v, names, n) <==> exists t <- names[..n] :: MatchesType(dl, v, t)
  {
    if n > 0 {
      SomeMatchesExists(dl, v, names, n - 1);
      assert names[..n] == names[..n - 1] + [names[n - 1]];
    }
  }

  lemma TypesAgree(v: Value, t: JsonType)
    ensures HasType(v, t) <==> t in TypesOf(v)
  {
    if v.Num? && IsFinite(v.n) {
      assert Equals(Real(v.n).Floor, Real(v.n)) <==> exists z :: Equals(z, Real(v.n));
    }
  }

  /** The type check of the code fails exactly when no declared name is that of a type of the value. */
  lemma TypeVerdict(dl: Dialect, v: Value, k: seq<Member>)
    ensures TypeFails(dl, v, k) <==> !TypeOk(dl, v, k)
  {
    var names := DeclaredTypes(dl, k);
    var supported := Supported(dl, names, |names|);
    SupportedNames(dl, names, |names|);
    SomeMatchesExists(dl, v, supported, |supported|);
    assert names[..|names|] == names && supported[..|supported|] == supported;
    forall t: string | dl.typeNamed(t).Some?
      ensures MatchesType(dl, v, t) <==> dl.typeNamed(t).value in TypesOf(v)
    {
      TypesAgree(v, dl.typeNamed(t).value);
    }
  }

  lemma {:induction false} SomeEqualExists(choices: seq<Value>, v: Value, n: nat)
    requires n <= |choices|
    ensures SomeEqual(choices, v, n) <==> exists c <- choices[..n] :: DeepEqual(c, v)
  {
    if n > 0 {
      SomeEqualExists(choices, v, n - 1);
      var c := choices[n - 1];
      assert choices[..n] == choices[..n - 1] + [c];
      assert forall d :: d in choices[..n] <==> d in choices[..n - 1] || d == c;
      if DeepEqual(c, v) {
        assert c in choices[..n];
      }
    }
  }

  lemma EnumAgrees(dl: Dialect, v: Value, k: seq<Member>)
    ensures EnumFails(dl, v, k) <==> !EnumOk(dl, v, k)
  {
    match Lookup(k, dl.choices)
    case Some(Arr(choices)) =>
      SomeEqualExists(choices, v, |choices|);
      assert choices[..|choices|] == choices;
    case _ =>
  }

  lemma LimitsAgree(n: Number, k: seq<Member>, keyword: string)
    requires IsFinite(n)
    ensures BelowLimit(n, k, keyword) <==> !NoLess(Real(n), k, keyword)
    ensures AboveLimit(n, k, keyword) <==> !NoMore(Real(n), k, keyword)
  {}

  lemma ChoiceVerdict(dl: Dialect, v: Value, k: seq<Member>, ip: string, sp: string)
    ensures HasErrors(ChoiceDs(dl, v, k, ip, sp)) <==> !(EnumOk(dl, v, k) && ConstOk(dl, v, k))
  {
    EnumAgrees(dl, v, k);
    HasErrorsConcat(Unless(dl, !EnumFails(dl, v, k), Enum, ip, sp), Unless(dl, !ConstFails(dl, v, k), Const, ip, sp));
  }

  lemma LimitVerdict(dl: Dialect, n: Number, k: seq<Member>, low: Code, high: Code, ip: string, sp: string)
    requires IsFinite(n)
    ensures HasErrors(LimitDs(dl, n, k, low, high, ip, sp)) <==>
            !(NoLess(Real(n), k, Keyword(dl, low)) && NoMore(Real(n), k, Keyword(dl, high)))
  {
    LimitsAgree(n, k, Keyword(dl, low));
    LimitsAgree(n, k, Keyword(dl, high));
    HasErrorsConcat(Unless(dl, !BelowLimit(n, k, Keyword(dl, low)), low, ip, sp),
                    Unless(dl, !AboveLimit(n, k, Keyword(dl, high)), high, ip, sp));
  }

  lemma NumberVerdict(dl: Dialect, v: Value, k: seq<Member>, ip: string, sp: string)
    ensures HasErrors(NumberDs(dl, v, k, ip, sp)) <==> !(MinimumOk(dl, v, k) && MaximumOk(dl, v, k))
  {
    if v.Num? && IsFinite(v.n) {
      LimitVerdict(dl, v.n, k, Minimum, Maximum, ip, sp);
    }
  }

  lemma TextVerdict(dl: Dialect, v: Value, k: seq<Member>, ip: string, sp: string)
    ensures HasErrors(TextDs(dl, v, k, ip, sp))
            <==> !(MinLengthOk(dl, v, k) && MaxLengthOk(dl, v, k) && PatternOk(dl, v, k))
  {
    if v.Str? {
      LimitVerdict(dl, Count(|v.s|), k, MinLength, MaxLength, ip, sp);
      HasErrorsConcat(LimitDs(dl, Count(|v.s|), k, MinLength, MaxLength, ip, sp),
                      Unless(dl, !PatternFails(dl, v.s, k), Pattern, ip, sp));
    }
  }

  lemma SizeVerdict(dl: Dialect, v: Value, k: seq<Member>, ip: string, sp: string)
    ensures HasErrors(SizeDs(dl, v, k, ip, sp)) <==> !(MinItemsOk(dl, v, k) && MaxItemsOk(dl, v, k))
  {
    if v.Arr? {
      LimitVerdict(dl, Count(|v.items|), k, MinItems, MaxItems, ip, sp);
    }
  }

  /** The checks of enum, const, bounds, lengths, pattern and item counts report an error exactly when
      the value is none of the choices, or outside of a limit as real numbers are ordered, or does not match. */
  lemma ValueVerdict(dl: Dialect, v: Value, k: seq<Member>, ip: string, sp: string)
    ensures HasErrors(ValueDs(dl, v, k, ip, sp)) <==> !ValueOk(dl, v, k)
  {
    var d1, d2 := ChoiceDs(dl, v, k, ip, sp), NumberDs(dl, v, k, ip, sp);
    var d3, d4 := TextDs(dl, v, k, ip, sp), SizeDs(dl, v, k, ip, sp);
    ChoiceVerdict(dl, v, k, ip, sp);
    NumberVerdict(dl, v, k, ip, sp);
    TextVerdict(dl, v, k, ip, sp);
    SizeVerdict(dl, v, k, ip, sp);
    HasErrorsConcat(d1, d2);
    HasErrorsConcat(d1 + d2, d3);
    HasErrorsConcat(d1 + d2 + d3, d4);
  }

  /** The elements among the first n that violate the schema. */
  ghost function BadItems(dl: Dialect, items: seq<Value>, s: Value, n: nat): set<nat>
    requires n <= |items| && IsSchema(s)
  {
    set i | 0 <= i < n && !Meets(dl, items[i], s)
  }

  lemma BadItemsStep(dl: Dialect, items: seq<Value>, s: Value, n: nat)
    requires 0 < n <= |items| && IsSchema(s)
    ensures BadItems(dl, items, s, n) ==
            BadItems(dl, items, s, n - 1) + (if Meets(dl, items[n - 1], s) then {} else {n - 1})
  {}

  lemma {:induction false} ItemsVerdict(dl: Dialect, v: Value, k: seq<Member>, ip: string, sp: string)
    ensures HasErrors(ItemsDs(dl, v, k, ip, sp, ItemCount(dl, v, k))) <==> !ItemsOk(dl, v, k)
    decreases Obj(k), 2
  {
    if v.Arr? && SubSchema(k, dl.items).Some? {
      var items, s := v.items, SubSchema(k, dl.items).value;
      ItemsCount(dl, items, k, s, ip, sp, |items|);
      assert forall i | 0 <= i < |items| && !Meets(dl, items[i], s) :: i in BadItems(dl, items, s, |items|);
    }
  }

  lemma {:induction false} ItemsCount(dl: Dialect, items: seq<Value>, k: seq<Member>, s: Value, ip: string,
                                      sp: string, n: nat)
    requires SubSchema(k, dl.items) == Some(s) && n <= |items|
    ensures HasErrors(ItemsDs(dl, Arr(items), k, ip, sp, n)) <==> BadItems(dl, items, s, n) != {}
    decreases Obj(k), 1, n
  {
    if n > 0 {
      ItemsCount(dl, items, k, s, ip, sp, n - 1);
      NodeVerdict(dl, items[n - 1], s, AppendPointer(ip, Decimal(n - 1)), AppendPointer(sp, dl.items));
      ItemErrors(dl, items, k, s, ip, sp, n);
      BadItemsStep(dl, items, s, n);
    }
  }

  lemma ItemErrors(dl: Dialect, items: seq<Value>, k: seq<Member>, s: Value, ip: string, sp: string, n: nat)
    requires SubSchema(k, dl.items) == Some(s) && 0 < n <= |items|
    ensures HasErrors(ItemsDs(dl, Arr(items), k, ip, sp, n)) <==>
            || HasErrors(ItemsDs(dl, Arr(items), k, ip, sp, n - 1))
            || HasErrors(Node(dl, items[n - 1], s, AppendPointer(ip, Decimal(n - 1)), AppendPointer(sp, dl.items)))
  {
    HasErrorsConcat(ItemsDs(dl, Arr(items), k, ip, sp, n - 1),
                    Node(dl, items[n - 1], s, AppendPointer(ip, Decimal(n - 1)), AppendPointer(sp, dl.items)));
  }

  lemma {:induction false} RequiredVerdict(dl: Dialect, ms: seq<Member>, keys: seq<string>, ip: string, sp: string)
    ensures HasErrors(RequiredDs(dl, ms, keys, ip, sp)) <==> exists key <- keys :: !HasKey(ms, key)
  {
    if keys != [] {
      var n := |keys| - 1;
      RequiredVerdict(dl, ms, keys[..n], ip, sp);
      assert forall key <- keys :: key in keys[..n] || key == keys[n];
      assert forall key <- keys[..n] :: key in keys;
      HasErrorsConcat(RequiredDs(dl, ms, keys[..n], ip, sp),
                      if HasKey(ms, keys[n]) then []
                      else [Diagnostic(Error, Required, AppendPointer(ip, keys[n]), AppendPointer(sp, dl.required))]);
    }
  }

  lemma {:induction false} PropertyVerdict(dl: Dialect, ms: seq<Member>, k: seq<Member>, ip: string, sp: string, i: nat)
    requires i < |Properties(dl, k)|
    ensures HasErrors(PropertyDs(dl, ms, k, ip, sp, i)) <==> !PropertyOk(dl, ms, k, i)
    decreases Obj(k), 0, 0
  {
    var p := Properties(dl, k)[i];
    if HasKey(ms, p.key) && IsSchema(p.value) {
      NodeVerdict(dl, Lookup(ms, p.key).value, p.value, AppendPointer(ip, p.key),
                  AppendPointer(AppendPointer(sp, dl.properties), p.key));
    }
  }

  /** The declared properties among the first n that are violated. */
  ghost function BadProperties(dl: Dialect, ms: seq<Member>, k: seq<Member>, n: nat): set<nat>
    requires n <= |Properties(dl, k)|
  {
    set i | 0 <= i < n && !PropertyOk(dl, ms, k, i)
  }

  lemma BadPropertiesStep(dl: Dialect, ms: seq<Member>, k: seq<Member>, n: nat)
    requires 0 < n <= |Properties(dl, k)|
    ensures BadProperties(dl, ms, k, n) ==
            BadProperties(dl, ms, k, n - 1) + (if PropertyOk(dl, ms, k, n - 1) then {} else {n - 1})
  {}

  lemma {:induction false} PropertiesCount(dl: Dialect, ms: seq<Member>, k: seq<Member>, ip: string, sp: string, n: nat)
    requires n <= |Properties(dl, k)|
    ensures HasErrors(PropertiesDs(dl, ms, k, ip, sp, n)) <==> BadProperties(dl, ms, k, n) != {}
    decreases Obj(k), 1, n
  {
    if n > 0 {
      PropertiesCount(dl, ms, k, ip, sp, n - 1);
      PropertyErrors(dl, ms, k, ip, sp, n);
      PropertyCounted(dl, ms, k, ip, sp, n);
    }
  }

  lemma {:induction false} PropertyCounted(dl: Dialect, ms: seq<Member>, k: seq<Member>, ip: string, sp: string, n: nat)
    requires 0 < n <= |Properties(dl, k)|
    ensures BadProperties(dl, ms, k, n) ==
            BadProperties(dl, ms, k, n - 1) + (if HasErrors(PropertyDs(dl, ms, k, ip, sp, n - 1)) then {n - 1} else {})
    decreases Obj(k), 0, 1
  {
    PropertyVerdict(dl, ms, k, ip, sp, n - 1);
    BadPropertiesStep(dl, ms, k, n);
  }

  lemma PropertyErrors(dl: Dialect, ms: seq<Member>, k: seq<Member>, ip: string, sp: string, n: nat)
    requires 0 < n <= |Properties(dl, k)|
    ensures HasErrors(PropertiesDs(dl, ms, k, ip, sp, n)) <==>
            HasErrors(PropertiesDs(dl, ms, k, ip, sp, n - 1)) || HasErrors(PropertyDs(dl, ms, k, ip, sp, n - 1))
  {
    HasErrorsConcat(PropertiesDs(dl, ms, k, ip, sp, n - 1), PropertyDs(dl, ms, k, ip, sp, n - 1));
  }

  /** One key meets what the schema says of additional properties. */
  ghost predicate ExtraOk(dl: Dialect, ms: seq<Member>, k: seq<Member>, key: string) {
    var s, v := SubSchema(k, dl.additionalProperties), Lookup(ms, key);
    HasKey(Properties(dl, k), key) || s.None? || v.None? || Meets(dl, v.value, s.value)
  }

  lemma {:induction false} ExtraVerdict(dl: Dialect, ms: seq<Member>, k: seq<Member>, ip: string, sp: string,
                                        key: string)
    requires HasKey(ms, key)
    ensures HasErrors(ExtraDs(dl, ms, k, ip, sp, key)) <==> !ExtraOk(dl, ms, k, key)
    decreases Obj(k), 0, 1
  {
    UndeclaredVerdict(dl, Obj(k), SubSchema(k, dl.additionalProperties), Lookup(ms, key).value, AppendPointer(ip, key),
                      AppendPointer(sp, dl.additionalProperties));
  }

  lemma {:induction false} UndeclaredVerdict(dl: Dialect, whole: Value, additional: Option<Value>, v: Value,
                                             ip: string, path: string)
    requires additional.Some? ==> IsSchema(additional.value) && additional.value < whole
    ensures HasErrors(UndeclaredDs(dl, whole, additional, v, ip, path)) <==>
            additional.Some? && !Meets(dl, v, additional.value)
    decreases whole, 0, 0
  {
    if additional.Some? && additional.value.Obj? {
      NodeVerdict(dl, v, additional.value, ip, path);
    }
  }

  /** The keys among the first n that violate it. */
  ghost function BadExtras(dl: Dialect, ms: seq<Member>, k: seq<Member>, n: nat): set<nat>
    requires n <= |ms|
  {
    set i | 0 <= i < n && !ExtraOk(dl, ms, k, ms[i].key)
  }

  lemma BadExtrasStep(dl: Dialect, ms: seq<Member>, k: seq<Member>, n: nat)
    requires 0 < n <= |ms|
    ensures BadExtras(dl, ms, k, n) ==
            BadExtras(dl, ms, k, n - 1) + (if ExtraOk(dl, ms, k, ms[n - 1].key) then {} else {n - 1})
  {}

  /** Among the first n keys an error is reported exactly when one is violated. */
  ghost predicate ExtrasCounted(dl: Dialect, ms: seq<Member>, k: seq<Member>, ip: string, sp: string, n: nat)
    requires n <= |ms|
  {
    HasErrors(AdditionalDs(dl, ms, k, ip, sp, n)) <==> BadExtras(dl, ms, k, n) != {}
  }

  lemma {:induction false} ExtrasCount(dl: Dialect, ms: seq<Member>, k: seq<Member>, ip: string, sp: string, n: nat)
    requires n <= |ms|
    ensures ExtrasCounted(dl, ms, k, ip, sp, n)
    decreases Obj(k), 1, n
  {
    NoExtras(dl, ms, k, ip, sp);
    for i := 0 to n
      invariant ExtrasCounted(dl, ms, k, ip, sp, i)
    {
      ExtraCounted(dl, ms, k, ip, sp, i + 1);
    }
  }

  lemma NoExtras(dl: Dialect, ms: seq<Member>, k: seq<Member>, ip: string, sp: string)
    ensures ExtrasCounted(dl, ms, k, ip, sp, 0)
  {}

  lemma {:induction false} ExtraCounted(dl: Dialect, ms: seq<Member>, k: seq<Member>, ip: string, sp: string, n: nat)
    requires 0 < n <= |ms| && ExtrasCounted(dl, ms, k, ip, sp, n - 1)
    ensures ExtrasCounted(dl, ms, k, ip, sp, n)
    decreases Obj(k), 0, 2
  {
    assert ms[n - 1] in ms;
    ExtraErrors(dl, ms, k, ip, sp, n);
    ExtraVerdict(dl, ms, k, ip, sp, ms[n - 1].key);
    BadExtrasStep(dl, ms, k, n);
  }

  lemma ExtraErrors(dl: Dialect, ms: seq<Member>, k: seq<Member>, ip: string, sp: string, n: nat)
    requires 0 < n <= |ms| && HasKey(ms, ms[n - 1].key)
    ensures HasErrors(AdditionalDs(dl, ms, k, ip, sp, n)) <==>
            HasErrors(AdditionalDs(dl, ms, k, ip, sp, n - 1)) || HasErrors(ExtraDs(dl, ms, k, ip, sp, ms[n - 1].key))
  {
    HasErrorsConcat(AdditionalDs(dl, ms, k, ip, sp, n - 1), ExtraDs(dl, ms, k, ip, sp, ms[n - 1].key));
  }

  lemma ExtrasAll(dl: Dialect, ms: seq<Member>, k: seq<Member>)
    ensures AdditionalOk(dl, ms, k) <==> BadExtras(dl, ms, k, |ms|) == {}
  {
    if AdditionalOk(dl, ms, k) {
      assert forall i | 0 <= i < |ms| :: ms[i] in ms;
    } else {
      var m :| m in ms && !ExtraOk(dl, ms, k, m.key);
      var i :| 0 <= i < |ms| && ms[i] == m;
      assert i in BadExtras(dl, ms, k, |ms|);
    }
  }

  lemma {:induction false} AdditionalVerdict(dl: Dialect, ms: seq<Member>, k: seq<Member>, ip: string, sp: string)
    ensures HasErrors(AdditionalDs(dl, ms, k, ip, sp, |ms|)) <==> !AdditionalOk(dl, ms, k)
    decreases Obj(k), 2
  {
    ExtrasCount(dl, ms, k, ip, sp, |ms|);
    ExtrasAll(dl, ms, k);
  }

  lemma {:induction false} PropertiesVerdict(dl: Dialect, ms: seq<Member>, k: seq<Member>, ip: string, sp: string)
    ensures HasErrors(PropertiesDs(dl, ms, k, ip, sp, |Properties(dl, k)|)) <==> !PropertiesOk(dl, ms, k)
    decreases Obj(k), 2
  {
    var n := |Properties(dl, k)|;
    PropertiesCount(dl, ms, k, ip, sp, n);
    assert forall i | 0 <= i < n && !PropertyOk(dl, ms, k, i) :: i in BadProperties(dl, ms, k, n);
  }

  lemma {:induction false} ObjectVerdict(dl: Dialect, v: Value, k: seq<Member>, ip: string, sp: string)
    ensures HasErrors(ObjectDs(dl, v, k, ip, sp)) <==> !ObjectOk(dl, v, k)
    decreases Obj(k), 3
  {
    if v.Obj? {
      RequiredVerdict(dl, v.members, RequiredKeys(dl, k), ip, sp);
      PropertiesVerdict(dl, v.members, k, ip, sp);
      AdditionalVerdict(dl, v.members, k, ip, sp);
      ObjectConcat(dl, v, k, ip, sp);
    }
  }

  lemma ObjectConcat(dl: Dialect, v: Value, k: seq<Member>, ip: string, sp: string)
    requires v.Obj?
    ensures HasErrors(ObjectDs(dl, v, k, ip, sp)) <==>
            || HasErrors(RequiredDs(dl, v.members, RequiredKeys(dl, k), ip, sp))
            || HasErrors(PropertiesDs(dl, v.members, k, ip, sp, |Properties(dl, k)|))
            || HasErrors(AdditionalDs(dl, v.members, k, ip, sp, |v.members|))
  {
    var d1 := RequiredDs(dl, v.members, RequiredKeys(dl, k), ip, sp);
    var d2 := PropertiesDs(dl, v.members, k, ip, sp, |Properties(dl, k)|);
    HasErrorsConcat(d1, d2);
    HasErrorsConcat(d1 + d2, AdditionalDs(dl, v.members, k, ip, sp, |v.members|));
  }

  /** An error is reported exactly when the value violates the schema; warnings never count. */
  lemma {:induction false} NodeVerdict(dl: Dialect, v: Value, s: Value, ip: string, sp: string)
    requires IsSchema(s)
    ensures HasErrors(Node(dl, v, s, ip, sp)) <==> !Meets(dl, v, s)
    decreases s, 5
  {
    if s.Obj? {
      KeywordVerdict(dl, v, s.members, ip, sp);
    }
  }

  lemma {:induction false} KeywordVerdict(dl: Dialect, v: Value, k: seq<Member>, ip: string, sp: string)
    ensures HasErrors(KeywordDs(dl, v, k, ip, sp)) <==> !MeetsKeywords(dl, v, k)
    decreases Obj(k), 4
  {
    OneOfVerdict(dl, v, k, ip, sp);
    AnyOfVerdict(dl, v, k, ip, sp);
    AllOfVerdict(dl, v, k, ip, sp);
    TypeVerdict(dl, v, k);
    ValueVerdict(dl, v, k, ip, sp);
    ItemsVerdict(dl, v, k, ip, sp);
    ObjectVerdict(dl, v, k, ip, sp);
    KeywordConcat(dl, v, k, ip, sp);
  }

  lemma KeywordConcat(dl: Dialect, v: Value, k: seq<Member>, ip: string, sp: string)
    ensures HasErrors(KeywordDs(dl, v, k, ip, sp)) <==>
            || HasErrors(OneOfDs(dl, v, k, ip, sp)) || HasErrors(AnyOfDs(dl, v, k, ip, sp))
            || HasErrors(AllOfDs(dl, v, k, ip, sp, BranchCount(dl, k)))
            || TypeFails(dl, v, k)
            || HasErrors(ValueDs(dl, v, k, ip, sp)) || HasErrors(ItemsDs(dl, v, k, ip, sp, ItemCount(dl, v, k)))
            || HasErrors(ObjectDs(dl, v, k, ip, sp))
  {
    var d1, d2 := OneOfDs(dl, v, k, ip, sp), AnyOfDs(dl, v, k, ip, sp);
    var d3, d4 := AllOfDs(dl, v, k, ip, sp, BranchCount(dl, k)), Unless(dl, false, Type, ip, sp);
    var d5, d6 := ValueDs(dl, v, k, ip, sp), ItemsDs(dl, v, k, ip, sp, ItemCount(dl, v, k));
    HasErrorsConcat(d1, d2);
    HasErrorsConcat(d1 + d2, d3);
    HasErrorsConcat(d1 + d2 + d3, d4);
    HasErrorsConcat(d1 + d2 + d3, d5);
    HasErrorsConcat(d1 + d2 + d3 + d5, d6);
    HasErrorsConcat(d1 + d2 + d3 + d5 + d6, ObjectDs(dl, v, k, ip, sp));
  }
}
