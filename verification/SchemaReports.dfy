/** Nothing is kept back: what the validator says of a value contains, for every keyword that is violated, the error
    with its paths, and all that it says of the parts of the value and of the branches that count. With
    `SchemaPaths.NodeJustified` this fixes which diagnostics there are. */
module SchemaReports {
  import opened Json
  import opened Schema
  import opened SchemaPaths
  import opened Wrappers

  predicate Contains(ds: seq<Diagnostic>, part: seq<Diagnostic>) { forall d <- part :: d in ds }

  /** The keywords that are looked at before a wrong type ends the validation of the value. */
  predicate BeforeType(c: Code) { c.OneOf? || c.AnyOf? || c.Type? }

  ghost predicate ValueReported(dl: Dialect, v: Value, k: seq<Member>, ip: string, sp: string, ds: seq<Diagnostic>) {
    forall c | Violated(dl, c, v, k) && (BeforeType(c) || TypeOk(dl, v, k)) ::
      Diagnostic(Error, c, ip, AppendPointer(sp, Keyword(dl, c))) in ds
  }

  ghost predicate AllOfReported(dl: Dialect, v: Value, k: seq<Member>, ip: string, sp: string, ds: seq<Diagnostic>) {
    Branches(k, dl.allOf).Some? ==>
      forall i | 0 <= i < |Branches(k, dl.allOf).value| ::
        Contains(ds, Node(dl, v, Branches(k, dl.allOf).value[i], ip, BranchPath(sp, dl.allOf, i)))
  }

  ghost predicate OneOfReported(dl: Dialect, v: Value, k: seq<Member>, ip: string, sp: string, ds: seq<Diagnostic>) {
    Branches(k, dl.oneOf).Some? && OneOfOk(dl, v, k) ==>
      forall i | 0 <= i < |Branches(k, dl.oneOf).value| && Meets(dl, v, Branches(k, dl.oneOf).value[i]) ::
        Contains(ds, Warnings(Node(dl, v, Branches(k, dl.oneOf).value[i], ip, BranchPath(sp, dl.oneOf, i))))
  }

  ghost predicate AnyOfReported(dl: Dialect, v: Value, k: seq<Member>, ip: string, sp: string, ds: seq<Diagnostic>) {
    Branches(k, dl.anyOf).Some? ==>
      forall i: nat | FirstMet(dl, v, Branches(k, dl.anyOf).value, i) ::
        Contains(ds, Warnings(Node(dl, v, Branches(k, dl.anyOf).value[i], ip, BranchPath(sp, dl.anyOf, i))))
  }

  /** All of every branch of `allOf`, the warnings of the branch of `oneOf` that holds, and those of the first
      branch of `anyOf` that holds. */
  ghost predicate BranchesReported(dl: Dialect, v: Value, k: seq<Member>, ip: string, sp: string, ds: seq<Diagnostic>) {
    AllOfReported(dl, v, k, ip, sp, ds) && OneOfReported(dl, v, k, ip, sp, ds) && AnyOfReported(dl, v, k, ip, sp, ds)
  }

  ghost predicate FirstMet(dl: Dialect, v: Value, bs: seq<Value>, i: nat)
    requires forall b <- bs :: IsSchema(b)
  {
    i < |bs| && Meets(dl, v, bs[i]) && forall j | 0 <= j < i :: !Meets(dl, v, bs[j])
  }

  ghost predicate ItemsReported(dl: Dialect, v: Value, k: seq<Member>, ip: string, sp: string, ds: seq<Diagnostic>) {
    v.Arr? && SubSchema(k, dl.items).Some? ==>
      forall i | 0 <= i < |v.items| ::
        Contains(ds, Node(dl, v.items[i], SubSchema(k, dl.items).value, AppendPointer(ip, Decimal(i)),
                          AppendPointer(sp, dl.items)))
  }

  ghost predicate RequiredReported(dl: Dialect, ms: seq<Member>, keys: seq<string>, ip: string, sp: string,
                                   ds: seq<Diagnostic>) {
    forall key <- keys | !HasKey(ms, key) ::
      Diagnostic(Error, Required, AppendPointer(ip, key), AppendPointer(sp, dl.required)) in ds
  }

  ghost predicate PropertiesReported(dl: Dialect, ms: seq<Member>, k: seq<Member>, ip: string, sp: string,
                                     ds: seq<Diagnostic>) {
    forall i | 0 <= i < |Properties(dl, k)| :: PropertyReported(dl, ms, Properties(dl, k)[i], ip, sp, ds)
  }

  ghost predicate PropertyReported(dl: Dialect, ms: seq<Member>, p: Member, ip: string, sp: string, ds: seq<Diagnostic>) {
    HasKey(ms, p.key) && IsSchema(p.value) ==>
      Contains(ds, Node(dl, Lookup(ms, p.key).value, p.value, AppendPointer(ip, p.key),
                        AppendPointer(AppendPointer(sp, dl.properties), p.key)))
  }

  /** A key that is not declared is forbidden, checked, or noted. */
  ghost predicate ExtraReported(dl: Dialect, ms: seq<Member>, k: seq<Member>, ip: string, sp: string, key: string,
                                ds: seq<Diagnostic>)
    requires HasKey(ms, key)
  {
    var path, at := AppendPointer(sp, dl.additionalProperties), AppendPointer(ip, key);
    match Lookup(k, dl.additionalProperties)
    case Some(Bool(false)) => Diagnostic(Error, AdditionalProperty, at, path) in ds
    case Some(Obj(a)) => Contains(ds, Node(dl, Lookup(ms, key).value, Obj(a), at, path))
    case _ => Diagnostic(Warning, AdditionalPropertyOpen, at, path) in ds
  }

  ghost predicate ExtrasReported(dl: Dialect, ms: seq<Member>, k: seq<Member>, ip: string, sp: string,
                                 ds: seq<Diagnostic>) {
    forall m <- ms | !HasKey(Properties(dl, k), m.key) :: ExtraReported(dl, ms, k, ip, sp, m.key, ds)
  }

  ghost predicate ObjectReported(dl: Dialect, v: Value, k: seq<Member>, ip: string, sp: string, ds: seq<Diagnostic>) {
    v.Obj? ==>
      && RequiredReported(dl, v.members, RequiredKeys(dl, k), ip, sp, ds)
      && PropertiesReported(dl, v.members, k, ip, sp, ds)
      && ExtrasReported(dl, v.members, k, ip, sp, ds)
  }

  // ---- Parts of a list ------------------------------------------------------------------------------------

  lemma Parts(a: seq<Diagnostic>, b: seq<Diagnostic>)
    ensures Contains(a + b, a) && Contains(a + b, b)
  {}

  lemma {:induction false} AllOfParts(dl: Dialect, v: Value, k: seq<Member>, ip: string, sp: string, n: nat, i: nat)
    requires i < n <= BranchCount(dl, k)
    ensures Contains(AllOfDs(dl, v, k, ip, sp, n), Node(dl, v, Branches(k, dl.allOf).value[i], ip, BranchPath(sp, dl.allOf, i)))
  {
    Parts(AllOfDs(dl, v, k, ip, sp, n - 1),
          Node(dl, v, Branches(k, dl.allOf).value[n - 1], ip, BranchPath(sp, dl.allOf, n - 1)));
    if i < n - 1 {
      AllOfParts(dl, v, k, ip, sp, n - 1, i);
    }
  }

  lemma PassingStep(dl: Dialect, v: Value, k: seq<Member>, bs: seq<Value>, ip: string, sp: string, n: nat)
    requires Branches(k, dl.oneOf) == Some(bs) && 0 < n <= |bs|
    ensures forall r :: r in Passing(dl, v, k, ip, sp, n - 1) ==> r in Passing(dl, v, k, ip, sp, n)
    ensures var r := Node(dl, v, bs[n - 1], ip, BranchPath(sp, dl.oneOf, n - 1));
            !HasErrors(r) ==> r in Passing(dl, v, k, ip, sp, n)
  {}

  lemma {:induction false} PassingGrows(dl: Dialect, v: Value, k: seq<Member>, bs: seq<Value>, ip: string, sp: string,
                                        m: nat, n: nat, r: seq<Diagnostic>)
    requires Branches(k, dl.oneOf) == Some(bs) && m <= n <= |bs| && r in Passing(dl, v, k, ip, sp, m)
    ensures r in Passing(dl, v, k, ip, sp, n)
  {
    if m < n {
      PassingGrows(dl, v, k, bs, ip, sp, m, n - 1, r);
      PassingStep(dl, v, k, bs, ip, sp, n);
    }
  }

  lemma MetPasses(dl: Dialect, v: Value, k: seq<Member>, bs: seq<Value>, ip: string, sp: string, i: nat)
    requires Branches(k, dl.oneOf) == Some(bs) && i < |bs| && Meets(dl, v, bs[i])
    ensures Node(dl, v, bs[i], ip, BranchPath(sp, dl.oneOf, i)) in Passing(dl, v, k, ip, sp, |bs|)
  {
    NodeVerdict(dl, v, bs[i], ip, BranchPath(sp, dl.oneOf, i));
    PassingStep(dl, v, k, bs, ip, sp, i + 1);
    PassingGrows(dl, v, k, bs, ip, sp, i + 1, |bs|, Node(dl, v, bs[i], ip, BranchPath(sp, dl.oneOf, i)));
  }

  lemma OneOfParts(dl: Dialect, v: Value, k: seq<Member>, bs: seq<Value>, ip: string, sp: string, i: nat)
    requires Branches(k, dl.oneOf) == Some(bs) && i < |bs| && OneOfOk(dl, v, k) && Meets(dl, v, bs[i])
    ensures OneOfDs(dl, v, k, ip, sp) == Warnings(Node(dl, v, bs[i], ip, BranchPath(sp, dl.oneOf, i)))
  {
    MetPasses(dl, v, k, bs, ip, sp, i);
    OneOfSaid(dl, v, k, bs, ip, sp, Node(dl, v, bs[i], ip, BranchPath(sp, dl.oneOf, i)));
  }

  lemma OneOfSaid(dl: Dialect, v: Value, k: seq<Member>, bs: seq<Value>, ip: string, sp: string, r: seq<Diagnostic>)
    requires Branches(k, dl.oneOf) == Some(bs) && OneOfOk(dl, v, k) && r in Passing(dl, v, k, ip, sp, |bs|)
    ensures OneOfDs(dl, v, k, ip, sp) == Warnings(r)
  {
    HoldsSilently(dl, v, k, ip, sp);
    OnePassing(dl, v, k, bs, ip, sp);
    OnlyElement(Passing(dl, v, k, ip, sp, |bs|), r);
  }

  lemma HoldsSilently(dl: Dialect, v: Value, k: seq<Member>, ip: string, sp: string)
    requires OneOfOk(dl, v, k)
    ensures !HasErrors(OneOfDs(dl, v, k, ip, sp))
  {
    OneOfVerdict(dl, v, k, ip, sp);
  }

  lemma OnlyElement(passing: seq<seq<Diagnostic>>, r: seq<Diagnostic>)
    requires |passing| == 1 && r in passing
    ensures passing[0] == r
  {}

  lemma OnePassing(dl: Dialect, v: Value, k: seq<Member>, bs: seq<Value>, ip: string, sp: string)
    requires Branches(k, dl.oneOf) == Some(bs) && !HasErrors(OneOfDs(dl, v, k, ip, sp))
    ensures var passing := Passing(dl, v, k, ip, sp, |bs|);
            |passing| == 1 && OneOfDs(dl, v, k, ip, sp) == Warnings(passing[0])
  {}

  /** The search goes on over branches that do not hold, and stops at the first that does. */
  lemma FirstPassingStep(dl: Dialect, v: Value, k: seq<Member>, bs: seq<Value>, ip: string, sp: string, n: nat)
    requires Branches(k, dl.anyOf) == Some(bs) && 0 < n <= |bs|
    ensures FirstPassing(dl, v, k, ip, sp, n) ==
            if FirstPassing(dl, v, k, ip, sp, n - 1).Some? || !Meets(dl, v, bs[n - 1])
            then FirstPassing(dl, v, k, ip, sp, n - 1)
            else Some(Node(dl, v, bs[n - 1], ip, BranchPath(sp, dl.anyOf, n - 1)))
  {
    NodeVerdict(dl, v, bs[n - 1], ip, BranchPath(sp, dl.anyOf, n - 1));
  }

  lemma {:induction false} NonePassing(dl: Dialect, v: Value, k: seq<Member>, bs: seq<Value>, ip: string, sp: string,
                                       n: nat)
    requires Branches(k, dl.anyOf) == Some(bs) && n <= |bs| && forall j | 0 <= j < n :: !Meets(dl, v, bs[j])
    ensures FirstPassing(dl, v, k, ip, sp, n) == None
  {
    if n > 0 {
      NonePassing(dl, v, k, bs, ip, sp, n - 1);
      FirstPassingStep(dl, v, k, bs, ip, sp, n);
    }
  }

  lemma {:induction false} FirstPassingStays(dl: Dialect, v: Value, k: seq<Member>, bs: seq<Value>, ip: string,
                                             sp: string, m: nat, n: nat)
    requires Branches(k, dl.anyOf) == Some(bs) && m <= n <= |bs| && FirstPassing(dl, v, k, ip, sp, m).Some?
    ensures FirstPassing(dl, v, k, ip, sp, n) == FirstPassing(dl, v, k, ip, sp, m)
  {
    if m < n {
      FirstPassingStays(dl, v, k, bs, ip, sp, m, n - 1);
      FirstPassingStep(dl, v, k, bs, ip, sp, n);
    }
  }

  lemma AnyOfParts(dl: Dialect, v: Value, k: seq<Member>, bs: seq<Value>, ip: string, sp: string, i: nat)
    requires Branches(k, dl.anyOf) == Some(bs) && FirstMet(dl, v, bs, i)
    ensures AnyOfDs(dl, v, k, ip, sp) == Warnings(Node(dl, v, bs[i], ip, BranchPath(sp, dl.anyOf, i)))
  {
    NonePassing(dl, v, k, bs, ip, sp, i);
    FirstPassingStep(dl, v, k, bs, ip, sp, i + 1);
    FirstPassingStays(dl, v, k, bs, ip, sp, i + 1, |bs|);
  }

  lemma {:induction false} ItemsParts(dl: Dialect, v: Value, k: seq<Member>, ip: string, sp: string, n: nat, i: nat)
    requires i < n <= ItemCount(dl, v, k)
    ensures Contains(ItemsDs(dl, v, k, ip, sp, n),
                     Node(dl, v.items[i], SubSchema(k, dl.items).value, AppendPointer(ip, Decimal(i)),
                          AppendPointer(sp, dl.items)))
  {
    Parts(ItemsDs(dl, v, k, ip, sp, n - 1),
          Node(dl, v.items[n - 1], SubSchema(k, dl.items).value, AppendPointer(ip, Decimal(n - 1)),
               AppendPointer(sp, dl.items)));
    if i < n - 1 {
      ItemsParts(dl, v, k, ip, sp, n - 1, i);
    }
  }

  lemma {:induction false} RequiredParts(dl: Dialect, ms: seq<Member>, keys: seq<string>, ip: string, sp: string)
    ensures RequiredReported(dl, ms, keys, ip, sp, RequiredDs(dl, ms, keys, ip, sp))
  {
    if keys != [] {
      RequiredParts(dl, ms, keys[..|keys| - 1], ip, sp);
      assert keys == keys[..|keys| - 1] + [keys[|keys| - 1]];
    }
  }

  lemma {:induction false} PropertiesParts(dl: Dialect, ms: seq<Member>, k: seq<Member>, ip: string, sp: string,
                                           n: nat, i: nat)
    requires i < n <= |Properties(dl, k)|
    ensures Contains(PropertiesDs(dl, ms, k, ip, sp, n), PropertyDs(dl, ms, k, ip, sp, i))
  {
    Parts(PropertiesDs(dl, ms, k, ip, sp, n - 1), PropertyDs(dl, ms, k, ip, sp, n - 1));
    if i < n - 1 {
      PropertiesParts(dl, ms, k, ip, sp, n - 1, i);
    }
  }

  lemma {:induction false} ExtrasParts(dl: Dialect, ms: seq<Member>, k: seq<Member>, ip: string, sp: string,
                                       n: nat, i: nat)
    requires i < n <= |ms|
    ensures HasKey(ms, ms[i].key)
    ensures Contains(AdditionalDs(dl, ms, k, ip, sp, n), ExtraDs(dl, ms, k, ip, sp, ms[i].key))
  {
    assert ms[n - 1] in ms && ms[i] in ms;
    Parts(AdditionalDs(dl, ms, k, ip, sp, n - 1), ExtraDs(dl, ms, k, ip, sp, ms[n - 1].key));
    if i < n - 1 {
      ExtrasParts(dl, ms, k, ip, sp, n - 1, i);
    }
  }

  // ---- The keywords that look at the value alone ------------------------------------------------------------

  function Said(dl: Dialect, c: Code, ip: string, sp: string): Diagnostic {
    Diagnostic(Error, c, ip, AppendPointer(sp, Keyword(dl, c)))
  }

  lemma ChoiceSaid(dl: Dialect, v: Value, k: seq<Member>, ip: string, sp: string, c: Code)
    requires Violated(dl, c, v, k) && (c.Enum? || c.Const?)
    ensures Said(dl, c, ip, sp) in ChoiceDs(dl, v, k, ip, sp)
  {
    EnumAgrees(dl, v, k);
    Parts(Unless(dl, !EnumFails(dl, v, k), Enum, ip, sp), Unless(dl, !ConstFails(dl, v, k), Const, ip, sp));
    assert Said(dl, c, ip, sp) in Unless(dl, false, c, ip, sp);
  }

  lemma LimitSaid(dl: Dialect, n: Number, k: seq<Member>, low: Code, high: Code, ip: string, sp: string)
    requires IsFinite(n)
    ensures !NoLess(Real(n), k, Keyword(dl, low)) ==> Said(dl, low, ip, sp) in LimitDs(dl, n, k, low, high, ip, sp)
    ensures !NoMore(Real(n), k, Keyword(dl, high)) ==> Said(dl, high, ip, sp) in LimitDs(dl, n, k, low, high, ip, sp)
  {
    LimitsAgree(n, k, Keyword(dl, low));
    LimitsAgree(n, k, Keyword(dl, high));
    Parts(Unless(dl, !BelowLimit(n, k, Keyword(dl, low)), low, ip, sp),
          Unless(dl, !AboveLimit(n, k, Keyword(dl, high)), high, ip, sp));
    assert Said(dl, low, ip, sp) in Unless(dl, false, low, ip, sp);
    assert Said(dl, high, ip, sp) in Unless(dl, false, high, ip, sp);
  }

  lemma NumberSaid(dl: Dialect, v: Value, k: seq<Member>, ip: string, sp: string, c: Code)
    requires Violated(dl, c, v, k) && (c.Minimum? || c.Maximum?)
    ensures Said(dl, c, ip, sp) in NumberDs(dl, v, k, ip, sp)
  {
    LimitSaid(dl, v.n, k, Minimum, Maximum, ip, sp);
  }

  lemma TextSaid(dl: Dialect, v: Value, k: seq<Member>, ip: string, sp: string, c: Code)
    requires Violated(dl, c, v, k) && (c.MinLength? || c.MaxLength? || c.Pattern?)
    ensures Said(dl, c, ip, sp) in TextDs(dl, v, k, ip, sp)
  {
    LimitSaid(dl, Count(|v.s|), k, MinLength, MaxLength, ip, sp);
    Parts(LimitDs(dl, Count(|v.s|), k, MinLength, MaxLength, ip, sp),
          Unless(dl, !PatternFails(dl, v.s, k), Pattern, ip, sp));
    assert Said(dl, c, ip, sp) in Unless(dl, false, c, ip, sp);
  }

  lemma SizeSaid(dl: Dialect, v: Value, k: seq<Member>, ip: string, sp: string, c: Code)
    requires Violated(dl, c, v, k) && (c.MinItems? || c.MaxItems?)
    ensures Said(dl, c, ip, sp) in SizeDs(dl, v, k, ip, sp)
  {
    LimitSaid(dl, Count(|v.items|), k, MinItems, MaxItems, ip, sp);
  }

  lemma ValueSaid(dl: Dialect, v: Value, k: seq<Member>, ip: string, sp: string, c: Code)
    requires Violated(dl, c, v, k) && !BeforeType(c)
    ensures Said(dl, c, ip, sp) in ValueDs(dl, v, k, ip, sp)
  {
    var choice, number := ChoiceDs(dl, v, k, ip, sp), NumberDs(dl, v, k, ip, sp);
    var text, size := TextDs(dl, v, k, ip, sp), SizeDs(dl, v, k, ip, sp);
    FourParts(choice, number, text, size);
    if c.Enum? || c.Const? {
      ChoiceSaid(dl, v, k, ip, sp, c);
    } else if c.Minimum? || c.Maximum? {
      NumberSaid(dl, v, k, ip, sp, c);
    } else if c.MinItems? || c.MaxItems? {
      SizeSaid(dl, v, k, ip, sp, c);
    } else {
      TextSaid(dl, v, k, ip, sp, c);
    }
  }

  lemma FourParts(a: seq<Diagnostic>, b: seq<Diagnostic>, c: seq<Diagnostic>, d: seq<Diagnostic>)
    ensures Contains(a + b + c + d, a) && Contains(a + b + c + d, b) && Contains(a + b + c + d, c) && Contains(a + b + c + d, d)
  {
    Parts(a, b);
    Parts(a + b, c);
    Parts(a + b + c, d);
  }

  // ---- All of it ----------------------------------------------------------------------------------------

  lemma WiderItems(dl: Dialect, v: Value, k: seq<Member>, ip: string, sp: string, part: seq<Diagnostic>,
                   ds: seq<Diagnostic>)
    requires Contains(ds, part) && ItemsReported(dl, v, k, ip, sp, part)
    ensures ItemsReported(dl, v, k, ip, sp, ds)
  {}

  lemma WiderBranches(dl: Dialect, v: Value, k: seq<Member>, ip: string, sp: string, part: seq<Diagnostic>,
                      ds: seq<Diagnostic>)
    requires Contains(ds, part)
    ensures AllOfReported(dl, v, k, ip, sp, part) ==> AllOfReported(dl, v, k, ip, sp, ds)
    ensures OneOfReported(dl, v, k, ip, sp, part) ==> OneOfReported(dl, v, k, ip, sp, ds)
    ensures AnyOfReported(dl, v, k, ip, sp, part) ==> AnyOfReported(dl, v, k, ip, sp, ds)
  {}

  lemma WiderRequired(dl: Dialect, ms: seq<Member>, k: seq<Member>, keys: seq<string>, ip: string, sp: string,
                      part: seq<Diagnostic>, ds: seq<Diagnostic>)
    requires Contains(ds, part)
    ensures RequiredReported(dl, ms, keys, ip, sp, part) ==> RequiredReported(dl, ms, keys, ip, sp, ds)
    ensures PropertiesReported(dl, ms, k, ip, sp, part) ==> PropertiesReported(dl, ms, k, ip, sp, ds)
    ensures ExtrasReported(dl, ms, k, ip, sp, part) ==> ExtrasReported(dl, ms, k, ip, sp, ds)
  {}

  lemma AllOfAllReported(dl: Dialect, v: Value, k: seq<Member>, ip: string, sp: string)
    ensures AllOfReported(dl, v, k, ip, sp, AllOfDs(dl, v, k, ip, sp, BranchCount(dl, k)))
  {
    forall i | 0 <= i < BranchCount(dl, k)
      ensures Contains(AllOfDs(dl, v, k, ip, sp, BranchCount(dl, k)),
                       Node(dl, v, Branches(k, dl.allOf).value[i], ip, BranchPath(sp, dl.allOf, i)))
    {
      AllOfParts(dl, v, k, ip, sp, BranchCount(dl, k), i);
    }
  }

  lemma OneOfAllReported(dl: Dialect, v: Value, k: seq<Member>, ip: string, sp: string)
    ensures OneOfReported(dl, v, k, ip, sp, OneOfDs(dl, v, k, ip, sp))
  {
    if Branches(k, dl.oneOf).Some? && OneOfOk(dl, v, k) {
      var bs := Branches(k, dl.oneOf).value;
      forall i | 0 <= i < |bs| && Meets(dl, v, bs[i])
        ensures OneOfDs(dl, v, k, ip, sp) == Warnings(Node(dl, v, bs[i], ip, BranchPath(sp, dl.oneOf, i)))
      {
        OneOfParts(dl, v, k, bs, ip, sp, i);
      }
    }
  }

  lemma AnyOfAllReported(dl: Dialect, v: Value, k: seq<Member>, ip: string, sp: string)
    ensures AnyOfReported(dl, v, k, ip, sp, AnyOfDs(dl, v, k, ip, sp))
  {
    if Branches(k, dl.anyOf).Some? {
      var bs := Branches(k, dl.anyOf).value;
      forall i: nat | FirstMet(dl, v, bs, i)
        ensures AnyOfDs(dl, v, k, ip, sp) == Warnings(Node(dl, v, bs[i], ip, BranchPath(sp, dl.anyOf, i)))
      {
        AnyOfParts(dl, v, k, bs, ip, sp, i);
      }
    }
  }

  lemma CombinedReported(dl: Dialect, v: Value, k: seq<Member>, ip: string, sp: string)
    ensures BranchesReported(dl, v, k, ip, sp,
              OneOfDs(dl, v, k, ip, sp) + AnyOfDs(dl, v, k, ip, sp) + AllOfDs(dl, v, k, ip, sp, BranchCount(dl, k)))
  {
    var a, b, c := OneOfDs(dl, v, k, ip, sp), AnyOfDs(dl, v, k, ip, sp), AllOfDs(dl, v, k, ip, sp, BranchCount(dl, k));
    Parts(a, b);
    Parts(a + b, c);
    OneOfAllReported(dl, v, k, ip, sp);
    AnyOfAllReported(dl, v, k, ip, sp);
    AllOfAllReported(dl, v, k, ip, sp);
    WiderBranches(dl, v, k, ip, sp, a, a + b + c);
    WiderBranches(dl, v, k, ip, sp, b, a + b + c);
    WiderBranches(dl, v, k, ip, sp, c, a + b + c);
  }

  lemma ItemsAllReported(dl: Dialect, v: Value, k: seq<Member>, ip: string, sp: string)
    ensures ItemsReported(dl, v, k, ip, sp, ItemsDs(dl, v, k, ip, sp, ItemCount(dl, v, k)))
  {
    forall i | 0 <= i < ItemCount(dl, v, k)
      ensures Contains(ItemsDs(dl, v, k, ip, sp, ItemCount(dl, v, k)),
                       Node(dl, v.items[i], SubSchema(k, dl.items).value, AppendPointer(ip, Decimal(i)),
                            AppendPointer(sp, dl.items)))
    {
      ItemsParts(dl, v, k, ip, sp, ItemCount(dl, v, k), i);
    }
  }

  lemma PropertiesAllReported(dl: Dialect, ms: seq<Member>, k: seq<Member>, ip: string, sp: string)
    ensures PropertiesReported(dl, ms, k, ip, sp, PropertiesDs(dl, ms, k, ip, sp, |Properties(dl, k)|))
  {
    var n := |Properties(dl, k)|;
    forall i | 0 <= i < n
      ensures PropertyReported(dl, ms, Properties(dl, k)[i], ip, sp, PropertiesDs(dl, ms, k, ip, sp, n))
    {
      PropertiesParts(dl, ms, k, ip, sp, n, i);
    }
  }

  lemma ExtrasAllReported(dl: Dialect, ms: seq<Member>, k: seq<Member>, ip: string, sp: string)
    ensures ExtrasReported(dl, ms, k, ip, sp, AdditionalDs(dl, ms, k, ip, sp, |ms|))
  {
    forall m | m in ms && !HasKey(Properties(dl, k), m.key)
      ensures ExtraReported(dl, ms, k, ip, sp, m.key, AdditionalDs(dl, ms, k, ip, sp, |ms|))
    {
      var i :| 0 <= i < |ms| && ms[i] == m;
      ExtrasParts(dl, ms, k, ip, sp, |ms|, i);
      ExtraSaid(dl, ms, k, ip, sp, m.key);
    }
  }

  lemma ExtraSaid(dl: Dialect, ms: seq<Member>, k: seq<Member>, ip: string, sp: string, key: string)
    requires HasKey(ms, key) && !HasKey(Properties(dl, k), key)
    ensures ExtraReported(dl, ms, k, ip, sp, key, ExtraDs(dl, ms, k, ip, sp, key))
  {}

  lemma ObjectAllReported(dl: Dialect, v: Value, k: seq<Member>, ip: string, sp: string)
    ensures ObjectReported(dl, v, k, ip, sp, ObjectDs(dl, v, k, ip, sp))
  {
    if v.Obj? {
      var a := RequiredDs(dl, v.members, RequiredKeys(dl, k), ip, sp);
      var b := PropertiesDs(dl, v.members, k, ip, sp, |Properties(dl, k)|);
      var c := AdditionalDs(dl, v.members, k, ip, sp, |v.members|);
      Parts(a, b);
      Parts(a + b, c);
      RequiredParts(dl, v.members, RequiredKeys(dl, k), ip, sp);
      PropertiesAllReported(dl, v.members, k, ip, sp);
      ExtrasAllReported(dl, v.members, k, ip, sp);
      WiderRequired(dl, v.members, k, RequiredKeys(dl, k), ip, sp, a, a + b + c);
      WiderRequired(dl, v.members, k, RequiredKeys(dl, k), ip, sp, b, a + b + c);
      WiderRequired(dl, v.members, k, RequiredKeys(dl, k), ip, sp, c, a + b + c);
    }
  }

  /** The first three keywords are reported in what comes before the value. */
  lemma EarlySaid(dl: Dialect, v: Value, k: seq<Member>, ip: string, sp: string, c: Code)
    requires Violated(dl, c, v, k) && BeforeType(c)
    ensures Said(dl, c, ip, sp) in KeywordDs(dl, v, k, ip, sp)
  {
    OneOfVerdict(dl, v, k, ip, sp);
    AnyOfVerdict(dl, v, k, ip, sp);
    TypeVerdict(dl, v, k);
    EarlyParts(dl, v, k, ip, sp);
    assert Said(dl, c, ip, sp) in Unless(dl, false, c, ip, sp);
  }

  lemma EarlyParts(dl: Dialect, v: Value, k: seq<Member>, ip: string, sp: string)
    ensures var ds := KeywordDs(dl, v, k, ip, sp);
            && Contains(ds, OneOfDs(dl, v, k, ip, sp)) && Contains(ds, AnyOfDs(dl, v, k, ip, sp))
            && Contains(ds, OneOfDs(dl, v, k, ip, sp) + AnyOfDs(dl, v, k, ip, sp)
                            + AllOfDs(dl, v, k, ip, sp, BranchCount(dl, k)))
            && (TypeFails(dl, v, k) ==> Contains(ds, Unless(dl, false, Type, ip, sp)))
            && (!TypeFails(dl, v, k) ==>
                  && Contains(ds, ValueDs(dl, v, k, ip, sp))
                  && Contains(ds, ItemsDs(dl, v, k, ip, sp, ItemCount(dl, v, k)))
                  && Contains(ds, ObjectDs(dl, v, k, ip, sp)))
  {
    var a, b, c := OneOfDs(dl, v, k, ip, sp), AnyOfDs(dl, v, k, ip, sp), AllOfDs(dl, v, k, ip, sp, BranchCount(dl, k));
    Parts(a, b);
    Parts(a + b, c);
    Parts(a + b + c, Unless(dl, false, Type, ip, sp));
    FourParts(a + b + c, ValueDs(dl, v, k, ip, sp), ItemsDs(dl, v, k, ip, sp, ItemCount(dl, v, k)), ObjectDs(dl, v, k, ip, sp));
  }

  /** Everything is reported; behind a wrong type, what comes before it. */
  lemma AllReported(dl: Dialect, v: Value, k: seq<Member>, ip: string, sp: string)
    ensures var ds := Node(dl, v, Obj(k), ip, sp);
            && ValueReported(dl, v, k, ip, sp, ds) && BranchesReported(dl, v, k, ip, sp, ds)
            && (TypeOk(dl, v, k) ==> ItemsReported(dl, v, k, ip, sp, ds) && ObjectReported(dl, v, k, ip, sp, ds))
  {
    var ds := KeywordDs(dl, v, k, ip, sp);
    EarlyParts(dl, v, k, ip, sp);
    CombinedReported(dl, v, k, ip, sp);
    WiderBranches(dl, v, k, ip, sp,
                  OneOfDs(dl, v, k, ip, sp) + AnyOfDs(dl, v, k, ip, sp) + AllOfDs(dl, v, k, ip, sp, BranchCount(dl, k)), ds);
    TypeVerdict(dl, v, k);
    forall c | Violated(dl, c, v, k) && (BeforeType(c) || TypeOk(dl, v, k)) ensures Said(dl, c, ip, sp) in ds {
      if BeforeType(c) {
        EarlySaid(dl, v, k, ip, sp, c);
      } else {
        ValueSaid(dl, v, k, ip, sp, c);
      }
    }
    if TypeOk(dl, v, k) {
      ItemsAllReported(dl, v, k, ip, sp);
      WiderItems(dl, v, k, ip, sp, ItemsDs(dl, v, k, ip, sp, ItemCount(dl, v, k)), ds);
      ObjectAllReported(dl, v, k, ip, sp);
      if v.Obj? {
        WiderRequired(dl, v.members, k, RequiredKeys(dl, k), ip, sp, ObjectDs(dl, v, k, ip, sp), ds);
      }
    }
  }

  // ---- How often and in which order -----------------------------------------------------------------------

  /** One error for each violated keyword of the list, in its order. */
  ghost function SaidOf(dl: Dialect, v: Value, k: seq<Member>, codes: seq<Code>, ip: string, sp: string): seq<Diagnostic> {
    if codes == [] then []
    else
      (if Violated(dl, codes[0], v, k) then [Said(dl, codes[0], ip, sp)] else [])
      + SaidOf(dl, v, k, codes[1..], ip, sp)
  }

  lemma OneSaid(dl: Dialect, v: Value, k: seq<Member>, c: Code, ip: string, sp: string)
    ensures SaidOf(dl, v, k, [c], ip, sp) == Unless(dl, !Violated(dl, c, v, k), c, ip, sp)
  {
    assert [c][1..] == [];
    assert SaidOf(dl, v, k, [], ip, sp) == [];
  }

  lemma {:induction false} SaidConcat(dl: Dialect, v: Value, k: seq<Member>, a: seq<Code>, b: seq<Code>, ip: string,
                                      sp: string)
    ensures SaidOf(dl, v, k, a + b, ip, sp) == SaidOf(dl, v, k, a, ip, sp) + SaidOf(dl, v, k, b, ip, sp)
  {
    if a == [] {
      assert a + b == b;
    } else {
      assert (a + b)[1..] == a[1..] + b;
      SaidConcat(dl, v, k, a[1..], b, ip, sp);
    }
  }

  lemma TwoSaid(dl: Dialect, v: Value, k: seq<Member>, c: Code, e: Code, ip: string, sp: string)
    ensures SaidOf(dl, v, k, [c, e], ip, sp) ==
            Unless(dl, !Violated(dl, c, v, k), c, ip, sp) + Unless(dl, !Violated(dl, e, v, k), e, ip, sp)
  {
    assert [c] + [e] == [c, e];
    SaidConcat(dl, v, k, [c], [e], ip, sp);
    OneSaid(dl, v, k, c, ip, sp);
    OneSaid(dl, v, k, e, ip, sp);
  }

  lemma ChoicesInOrder(dl: Dialect, v: Value, k: seq<Member>, ip: string, sp: string)
    ensures ChoiceDs(dl, v, k, ip, sp) == SaidOf(dl, v, k, [Enum, Const], ip, sp)
  {
    EnumAgrees(dl, v, k);
    TwoSaid(dl, v, k, Enum, Const, ip, sp);
  }

  lemma NumberInOrder(dl: Dialect, v: Value, k: seq<Member>, ip: string, sp: string)
    ensures NumberDs(dl, v, k, ip, sp) == SaidOf(dl, v, k, [Minimum, Maximum], ip, sp)
  {
    TwoSaid(dl, v, k, Minimum, Maximum, ip, sp);
    if v.Num? && IsFinite(v.n) {
      LimitsAgree(v.n, k, dl.minimum);
      LimitsAgree(v.n, k, dl.maximum);
    }
  }

  lemma LengthInOrder(dl: Dialect, v: Value, k: seq<Member>, ip: string, sp: string)
    ensures SaidOf(dl, v, k, [MinLength, MaxLength], ip, sp) ==
            if v.Str? then LimitDs(dl, Count(|v.s|), k, MinLength, MaxLength, ip, sp) else []
  {
    TwoSaid(dl, v, k, MinLength, MaxLength, ip, sp);
    if v.Str? {
      LimitsAgree(Count(|v.s|), k, dl.minLength);
      LimitsAgree(Count(|v.s|), k, dl.maxLength);
    }
  }

  lemma TextInOrder(dl: Dialect, v: Value, k: seq<Member>, ip: string, sp: string)
    ensures TextDs(dl, v, k, ip, sp) == SaidOf(dl, v, k, [MinLength, MaxLength, Pattern], ip, sp)
  {
    assert [MinLength, MaxLength] + [Pattern] == [MinLength, MaxLength, Pattern];
    SaidConcat(dl, v, k, [MinLength, MaxLength], [Pattern], ip, sp);
    LengthInOrder(dl, v, k, ip, sp);
    OneSaid(dl, v, k, Pattern, ip, sp);
  }

  lemma SizeInOrder(dl: Dialect, v: Value, k: seq<Member>, ip: string, sp: string)
    ensures SizeDs(dl, v, k, ip, sp) == SaidOf(dl, v, k, [MinItems, MaxItems], ip, sp)
  {
    TwoSaid(dl, v, k, MinItems, MaxItems, ip, sp);
    if v.Arr? {
      LimitsAgree(Count(|v.items|), k, dl.minItems);
      LimitsAgree(Count(|v.items|), k, dl.maxItems);
    }
  }

  /** The keywords that look at the value alone are reported once each, in this order. */
  lemma ValueInOrder(dl: Dialect, v: Value, k: seq<Member>, ip: string, sp: string)
    ensures ValueDs(dl, v, k, ip, sp) ==
            SaidOf(dl, v, k, [Enum, Const, Minimum, Maximum, MinLength, MaxLength, Pattern, MinItems, MaxItems], ip, sp)
  {
    var a, b, c, d := [Enum, Const], [Minimum, Maximum], [MinLength, MaxLength, Pattern], [MinItems, MaxItems];
    assert [Enum, Const, Minimum, Maximum, MinLength, MaxLength, Pattern, MinItems, MaxItems] == a + b + c + d;
    SaidConcat(dl, v, k, a + b + c, d, ip, sp);
    SaidConcat(dl, v, k, a + b, c, ip, sp);
    SaidConcat(dl, v, k, a, b, ip, sp);
    ChoicesInOrder(dl, v, k, ip, sp);
    NumberInOrder(dl, v, k, ip, sp);
    TextInOrder(dl, v, k, ip, sp);
    SizeInOrder(dl, v, k, ip, sp);
  }

  /** A wrong type is the last that is said of a value, behind the results of the branches alone. */
  lemma MismatchEnds(dl: Dialect, v: Value, k: seq<Member>, ip: string, sp: string)
    requires !TypeOk(dl, v, k)
    ensures Node(dl, v, Obj(k), ip, sp) ==
            OneOfDs(dl, v, k, ip, sp) + AnyOfDs(dl, v, k, ip, sp) + AllOfDs(dl, v, k, ip, sp, BranchCount(dl, k))
            + [Said(dl, Type, ip, sp)]
  {
    TypeVerdict(dl, v, k);
  }
}
