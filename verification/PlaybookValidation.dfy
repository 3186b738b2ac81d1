/** `validatePlaybook` (cli/playbook/validate.ts): every prepared call against the input schema of its tool. */
module PlaybookValidation {
  import opened Json
  import opened Vars
  import opened Playbook
  import opened Schema
  import opened SchemaKeywords
  import opened SchemaPaths
  import opened SchemaValidator
  import opened Wrappers

  datatype Definition = Definition(name: string, inputSchema: Option<Value>)

  /** Each diagnostic belongs to the step with the given index. */
  datatype Finding =
    | ToolMissing(step: nat)
    | SchemaMissing(step: nat)
    | Found(step: nat, diagnostic: Diagnostic)

  datatype Result = Checked(findings: seq<Finding>, ok: bool, total: nat, errors: nat, warnings: nat)
                  | Unprepared(name: string, index: nat)

  /** `new Map(...)` keeps the last definition of a name. */
  function DefinitionOf(defs: seq<Definition>, name: string): (d: Option<Definition>)
    ensures d.Some? ==> d.value.name == name && exists i: nat :: LastNamed(defs, name, i) && defs[i] == d.value
    ensures d.None? ==> forall e <- defs :: e.name != name
  {
    if defs == [] then None
    else
      var last := defs[|defs| - 1];
      assert defs == defs[..|defs| - 1] + [last];
      if last.name == name then
        assert LastNamed(defs, name, |defs| - 1);
        Some(last)
      else
        var before := DefinitionOf(defs[..|defs| - 1], name);
        assert before.Some? ==> exists i: nat :: LastNamed(defs, name, i) && defs[i] == before.value by {
          if before.Some? {
            var i: nat :| LastNamed(defs[..|defs| - 1], name, i) && defs[..|defs| - 1][i] == before.value;
            assert LastNamed(defs, name, i);
          }
        }
        before
  }

  predicate LastNamed(defs: seq<Definition>, name: string, i: nat) {
    i < |defs| && defs[i].name == name && forall j | i < j < |defs| :: defs[j].name != name
  }

  /** The tool is registered with a schema that the arguments meet. */
  ghost predicate Accepted(dl: Dialect, defs: seq<Definition>, call: Call) {
    match DefinitionOf(defs, call.tool)
    case Some(Definition(_, Some(schema))) => IsSchema(schema) && Meets(dl, Obj(call.args), schema)
    case _ => false
  }

  /** In the spelling of JSON Schema: the last definition of this name has a schema, and the arguments satisfy it. */
  lemma AcceptedMeans(matches: Matches, defs: seq<Definition>, call: Call)
    ensures Accepted(JsonSchema(matches), defs, call) <==>
            exists i: nat, schema ::
              && LastNamed(defs, call.tool, i) && defs[i].inputSchema == Some(schema)
              && (schema.Bool? || schema.Obj?) && Satisfies(matches, Obj(call.args), schema)
  {
    var d := DefinitionOf(defs, call.tool);
    if d.Some? && d.value.inputSchema.Some? && IsSchema(d.value.inputSchema.value) {
      SchemaMeans(JsonSchema(matches), Obj(call.args), d.value.inputSchema.value);
    }
    forall i: nat, j: nat | LastNamed(defs, call.tool, i) && LastNamed(defs, call.tool, j) ensures i == j {}
  }

  predicate IsError(f: Finding) { f.Found? ==> f.diagnostic.severity == Error }

  function Errors(fs: seq<Finding>): nat {
    if fs == [] then 0 else Errors(fs[..|fs| - 1]) + (if IsError(fs[|fs| - 1]) then 1 else 0)
  }

  lemma ErrorsSnoc(fs: seq<Finding>, f: Finding)
    ensures Errors(fs + [f]) == Errors(fs) + (if IsError(f) then 1 else 0)
  {
    assert (fs + [f])[..|fs|] == fs;
  }

  lemma {:induction false} ErrorsConcat(a: seq<Finding>, b: seq<Finding>)
    ensures Errors(a + b) == Errors(a) + Errors(b)
  {
    if b == [] {
      assert a + b == a;
    } else {
      var n := |b| - 1;
      assert a + b == (a + b[..n]) + [b[n]];
      ErrorsSnoc(a + b[..n], b[n]);
      ErrorsConcat(a, b[..n]);
    }
  }

  function Tagged(step: nat, ds: seq<Diagnostic>): (fs: seq<Finding>)
    ensures |fs| == |ds| && forall i | 0 <= i < |ds| :: fs[i] == Found(step, ds[i])
  {
    if ds == [] then [] else [Found(step, ds[0])] + Tagged(step, ds[1..])
  }

  lemma {:induction false} TaggedErrors(step: nat, ds: seq<Diagnostic>)
    ensures Errors(Tagged(step, ds)) > 0 <==> HasErrors(ds)
  {
    if ds != [] {
      TaggedErrors(step, ds[1..]);
      ErrorsConcat([Found(step, ds[0])], Tagged(step, ds[1..]));
      assert [Found(step, ds[0])][..0] == [];
      assert Errors([Found(step, ds[0])]) == if ds[0].severity == Error then 1 else 0;
    }
  }

  /** The findings about the call of one step: that there is no such tool, or none with a schema, or each
      diagnostic of its arguments, in order. */
  ghost predicate FoundInCall(dl: Dialect, defs: seq<Definition>, call: Call, step: nat, fs: seq<Finding>) {
    match DefinitionOf(defs, call.tool)
    case None => fs == [ToolMissing(step)]
    case Some(definition) =>
      if definition.inputSchema.None? || !IsSchema(definition.inputSchema.value) then fs == [SchemaMissing(step)]
      else
        var ds := Node(dl, Obj(call.args), definition.inputSchema.value, "", "");
        |fs| == |ds| && forall i | 0 <= i < |ds| :: fs[i] == Found(step, ds[i])
  }

  method ValidateCall(dl: Dialect, defs: seq<Definition>, call: Call, step: nat) returns (fs: seq<Finding>)
    ensures Errors(fs) > 0 <==> !Accepted(dl, defs, call)
    ensures FoundInCall(dl, defs, call, step, fs)
  {
    var definition := DefinitionOf(defs, call.tool);
    if definition.None? {
      ErrorsSnoc([], ToolMissing(step));
      assert [] + [ToolMissing(step)] == [ToolMissing(step)];
      return [ToolMissing(step)];
    }
    var schema := definition.value.inputSchema;
    if schema.None? || !IsSchema(schema.value) {
      ErrorsSnoc([], SchemaMissing(step));
      assert [] + [SchemaMissing(step)] == [SchemaMissing(step)];
      return [SchemaMissing(step)];
    }
    var ds := ValidateNode(dl, Obj(call.args), schema.value, "", "");
    NodeVerdict(dl, Obj(call.args), schema.value, "", "");
    TaggedErrors(step, ds);
    return Tagged(step, ds);
  }

  ghost predicate AllAccepted(dl: Dialect, defs: seq<Definition>, calls: seq<Call>, n: nat)
    requires n <= |calls|
  {
    forall i | 0 <= i < n :: Accepted(dl, defs, calls[i])
  }

  /** The findings about the first n calls, one call after another. */
  ghost predicate FoundInCalls(dl: Dialect, defs: seq<Definition>, calls: seq<Call>, n: nat, fs: seq<Finding>)
    requires n <= |calls|
  {
    if n == 0 then fs == []
    else
      exists cut: nat | cut <= |fs| ::
        FoundInCalls(dl, defs, calls, n - 1, fs[..cut]) && FoundInCall(dl, defs, calls[n - 1], n - 1, fs[cut..])
  }

  lemma FoundNext(dl: Dialect, defs: seq<Definition>, calls: seq<Call>, n: nat, fs: seq<Finding>, found: seq<Finding>)
    requires n < |calls| && FoundInCalls(dl, defs, calls, n, fs) && FoundInCall(dl, defs, calls[n], n, found)
    ensures FoundInCalls(dl, defs, calls, n + 1, fs + found)
  {
    assert (fs + found)[..|fs|] == fs && (fs + found)[|fs|..] == found;
  }

  method ValidateCalls(dl: Dialect, defs: seq<Definition>, calls: seq<Call>) returns (fs: seq<Finding>)
    ensures Errors(fs) == 0 <==> AllAccepted(dl, defs, calls, |calls|)
    ensures FoundInCalls(dl, defs, calls, |calls|, fs)
  {
    fs := [];
    for i := 0 to |calls|
      invariant Errors(fs) == 0 <==> AllAccepted(dl, defs, calls, i)
      invariant FoundInCalls(dl, defs, calls, i, fs)
    {
      var found := ValidateCall(dl, defs, calls[i], i);
      ErrorsConcat(fs, found);
      Extended(dl, defs, calls, i);
      FoundNext(dl, defs, calls, i, fs, found);
      fs := fs + found;
    }
  }

  lemma Extended(dl: Dialect, defs: seq<Definition>, calls: seq<Call>, n: nat)
    requires n < |calls|
    ensures AllAccepted(dl, defs, calls, n + 1) <==> AllAccepted(dl, defs, calls, n) && Accepted(dl, defs, calls[n])
  {}

  /** `filter(...).length` of the errors. */
  method CountErrors(fs: seq<Finding>) returns (n: nat)
    ensures n == Errors(fs) <= |fs|
  {
    n := 0;
    for i := 0 to |fs|
      invariant n == Errors(fs[..i]) <= i
    {
      assert fs[..i + 1] == fs[..i] + [fs[i]];
      ErrorsSnoc(fs[..i], fs[i]);
      if IsError(fs[i]) {
        n := n + 1;
      }
    }
    assert fs[..|fs|] == fs;
  }

  /** A playbook is valid exactly when all its prepared calls are accepted; the counts add up. */
  method ValidatePlaybook(dl: Dialect, steps: seq<Step>, vars: VarMap, defs: seq<Definition>)
    returns (r: Result, p: Preparation)
    ensures PreparesTo(steps, vars, p)
    ensures p.VarError? ==> r == Unprepared(p.name, p.index)
    ensures p.Prepared? ==>
              && r.Checked? && r.total == |steps| == |p.calls| && r.errors + r.warnings == |r.findings|
              && (r.ok <==> r.errors == 0)
              && (r.ok <==> AllAccepted(dl, defs, p.calls, |p.calls|))
              && r.errors == Errors(r.findings) && FoundInCalls(dl, defs, p.calls, |p.calls|, r.findings)
  {
    p := PrepareSteps(steps, vars);
    if p.VarError? {
      r := Unprepared(p.name, p.index);
      return;
    }
    var fs := ValidateCalls(dl, defs, p.calls);
    var errors := CountErrors(fs);
    r := Checked(fs, errors == 0, |steps|, errors, |fs| - errors);
  }

  /** If a playbook is valid, a run in which only navigation names a tab raises no variable error, and
      every call it makes, however it ends, is an accepted call up to the tab id. */
  lemma ValidPlaybookRuns(dl: Dialect, steps: seq<Step>, vars: VarMap, defs: seq<Definition>, calls: seq<Call>,
                          replies: nat -> Reply, o: Outcome, k: nat)
    requires PreparesTo(steps, vars, Prepared(calls)) && AllAccepted(dl, defs, calls, |calls|)
    requires RunsTo(steps, vars, replies, o, k) && OnlyNavigationNamesTab(steps, replies, k)
    ensures !o.RunVarError? && |calls| == |steps|
    ensures forall i: nat | Executed(steps, o, k, i) ::
              && Arguments(steps[i], vars).Ok?
              && UpToTab(RunCall(steps, vars, replies, i), calls[i]) && Accepted(dl, defs, calls[i])
  {
    VariableErrorsAgree(steps, vars, replies, o, k, Prepared(calls));
    forall i: nat | Executed(steps, o, k, i)
      ensures Arguments(steps[i], vars).Ok?
      ensures UpToTab(RunCall(steps, vars, replies, i), calls[i]) && Accepted(dl, defs, calls[i])
    {
      RunMakesPreparedCalls(steps, vars, replies, o, k, calls, i);
    }
  }
}
