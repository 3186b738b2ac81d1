/** Playbooks: preparing every step before a run (cli/playbook/validate.ts, expand.ts) and running them
    (cli/playbook/run.ts). */
module Playbook {
  import opened Json
  import opened Vars
  import opened Wrappers

  datatype Verb = Navigate | Interact | Act | FillForm | WaitFor | PageScreenshot | ReadPage | JavascriptTool | Assert

  datatype Step = Step(verb: Verb, args: seq<Member>)

  datatype Call = Call(tool: string, args: seq<Member>)

  const TAB_ID := "tabId"
  const CONTRACT := "contract"
  const EVIDENCE := "evidence"
  const VALIDATION_TAB_ID := "__openchrome_playbook_validation_tab__"

  predicate ReusesTab(verb: Verb) { !verb.Navigate? && !verb.Assert? }

  function Tool(verb: Verb): string {
    match verb
    case Navigate => "navigate"
    case Interact => "interact"
    case Act => "act"
    case FillForm => "fill_form"
    case WaitFor => "wait_for"
    case PageScreenshot => "page_screenshot"
    case ReadPage => "read_page"
    case JavascriptTool => "javascript_tool"
    case Assert => "oc_assert"
  }

  /** `{ ...ms, [key]: value }`: an old member keeps its place. */
  function SetMember(ms: seq<Member>, key: string, value: Value): seq<Member> {
    if ms == [] then [Member(key, value)]
    else if ms[0].key == key then [Member(key, value)] + ms[1..]
    else [ms[0]] + SetMember(ms[1..], key, value)
  }

  predicate HasTab(args: seq<Member>) {
    Lookup(args, TAB_ID).Some? && Lookup(args, TAB_ID).value.Str?
  }

  function InjectCurrentTab(verb: Verb, args: seq<Member>, tab: Option<string>): seq<Member> {
    if tab.Some? && ReusesTab(verb) && !HasTab(args) then SetMember(args, TAB_ID, Str(tab.value)) else args
  }

  function ExpandStep(verb: Verb, args: seq<Member>): Call {
    Call(Tool(verb),
         if !verb.Assert? || HasKey(args, CONTRACT) || HasKey(args, EVIDENCE) then args
         else [Member(CONTRACT, Obj(args))])
  }

  /** The arguments of a step after substitution. */
  function Arguments(step: Step, vars: VarMap): Result<seq<Member>, string> {
    match SubstituteValue(Obj(step.args), vars)
    case Err(name) => Err(name)
    case Ok(v) => Ok(if v.Obj? then v.members else [])
  }

  function CallOf(step: Step, args: seq<Member>, tab: Option<string>): Call {
    ExpandStep(step.verb, InjectCurrentTab(step.verb, args, tab))
  }

  // ---- What a call is -----------------------------------------------------------------------------------

  /** The tool that each verb stands for. */
  predicate ToolNamed(verb: Verb, tool: string) {
    match verb
    case Navigate => tool == "navigate"
    case Interact => tool == "interact"
    case Act => tool == "act"
    case FillForm => tool == "fill_form"
    case WaitFor => tool == "wait_for"
    case PageScreenshot => tool == "page_screenshot"
    case ReadPage => tool == "read_page"
    case JavascriptTool => tool == "javascript_tool"
    case Assert => tool == "oc_assert"
  }

  function KeysOf(ms: seq<Member>): seq<string> { seq(|ms|, i requires 0 <= i < |ms| => ms[i].key) }

  /** A known tab goes into the arguments of every verb but navigate and assert that name no tab themselves:
      under its key, at the place of that key or at the end, and nothing else changes. */
  ghost predicate TabAdded(verb: Verb, given: seq<Member>, tab: Option<string>, sent: seq<Member>) {
    if tab.Some? && !verb.Navigate? && !verb.Assert? && !(exists id :: Lookup(given, "tabId") == Some(Str(id)))
    then
      && KeysOf(sent) == KeysOf(given) + (if "tabId" in KeysOf(given) then [] else ["tabId"])
      && (forall k :: Lookup(sent, k) == if k == "tabId" then Some(Str(tab.value)) else Lookup(given, k))
    else sent == given
  }

  /** The arguments of the call are those of the step with every text filled, and with the tab; those of an
      assertion that has neither contract nor evidence are the contract. */
  ghost predicate CallMeans(step: Step, vars: VarMap, tab: Option<string>, call: Call) {
    && ToolNamed(step.verb, call.tool)
    && exists given: seq<Member> :: ArgumentsMean(step, vars, tab, given, call.args)
  }

  ghost predicate ArgumentsMean(step: Step, vars: VarMap, tab: Option<string>, given: seq<Member>, args: seq<Member>) {
    && Fills(Obj(step.args), Obj(given), vars)
    && if step.verb.Assert? && "contract" !in KeysOf(given) && "evidence" !in KeysOf(given)
       then args == [Member("contract", Obj(given))]
       else TabAdded(step.verb, given, tab, args)
  }

  lemma SetIs(ms: seq<Member>, key: string, v: Value)
    ensures KeysOf(SetMember(ms, key, v)) == KeysOf(ms) + (if key in KeysOf(ms) then [] else [key])
    ensures forall k :: Lookup(SetMember(ms, key, v), k) == if k == key then Some(v) else Lookup(ms, k)
  {
    SetKeys(ms, key, v);
    forall k ensures Lookup(SetMember(ms, key, v), k) == if k == key then Some(v) else Lookup(ms, k) {
      SetLookup(ms, key, v, k);
    }
  }

  lemma KeysCons(first: Member, rest: seq<Member>)
    ensures KeysOf([first] + rest) == [first.key] + KeysOf(rest)
  {}

  lemma {:induction false} SetKeys(ms: seq<Member>, key: string, v: Value)
    ensures KeysOf(SetMember(ms, key, v)) == KeysOf(ms) + (if key in KeysOf(ms) then [] else [key])
  {
    if ms == [] {
      assert KeysOf([Member(key, v)]) == [key];
    } else {
      assert ms == [ms[0]] + ms[1..];
      KeysCons(ms[0], ms[1..]);
      if ms[0].key == key {
        KeysCons(Member(key, v), ms[1..]);
      } else {
        KeysCons(ms[0], SetMember(ms[1..], key, v));
        SetKeys(ms[1..], key, v);
      }
    }
  }

  lemma {:induction false} SetLookup(ms: seq<Member>, key: string, v: Value, k: string)
    ensures Lookup(SetMember(ms, key, v), k) == if k == key then Some(v) else Lookup(ms, k)
  {
    if ms != [] {
      var rest := if ms[0].key == key then ms[1..] else SetMember(ms[1..], key, v);
      var first := if ms[0].key == key then Member(key, v) else ms[0];
      assert SetMember(ms, key, v) == [first] + rest;
      assert ([first] + rest)[1..] == rest;
      if ms[0].key != key {
        SetLookup(ms[1..], key, v, k);
      }
    }
  }

  lemma HasKeyOf(ms: seq<Member>, key: string)
    ensures HasKey(ms, key) <==> key in KeysOf(ms)
  {
    if HasKey(ms, key) {
      var m :| m in ms && m.key == key;
      var i :| 0 <= i < |ms| && ms[i] == m;
      assert KeysOf(ms)[i] == key;
    }
  }

  /** The call of a step, from any state of the tab. */
  lemma CallOfMeans(step: Step, vars: VarMap, tab: Option<string>)
    requires Arguments(step, vars).Ok?
    ensures CallMeans(step, vars, tab, CallOf(step, Arguments(step, vars).value, tab))
  {
    var given := Arguments(step, vars).value;
    SubstitutedIff(Obj(step.args), Obj(given), vars);
    SetIs(given, "tabId", Str(if tab.Some? then tab.value else ""));
    HasKeyOf(given, "contract");
    HasKeyOf(given, "evidence");
    assert ArgumentsMean(step, vars, tab, given, CallOf(step, given, tab).args);
  }

  /** No text in the first n steps names an unknown variable. */
  ghost predicate AllKnown(steps: seq<Step>, vars: VarMap, n: nat)
    requires n <= |steps|
  {
    forall i | 0 <= i < n :: FirstUnknown(Texts(Obj(steps[i].args)), vars, None)
  }

  /** The arguments of a step are there unless some text in them names an unknown variable; the first
      such name is the error. */
  lemma ArgumentsKnown(step: Step, vars: VarMap)
    ensures FirstUnknown(Texts(Obj(step.args)), vars, ErrorOf(Arguments(step, vars)))
  {
    SubstituteFails(Obj(step.args), vars);
  }

  // ---- Preparing -----------------------------------------------------------------------------------

  /** The tab that preparing assumes before step n: any once a step has navigated. */
  function PreparedTab(steps: seq<Step>, n: nat): Option<string>
    requires n <= |steps|
  {
    if n == 0 then None
    else if steps[n - 1].verb.Navigate? then Some(VALIDATION_TAB_ID)
    else PreparedTab(steps, n - 1)
  }

  /** Substitution succeeds in the first n steps. */
  predicate ArgumentsOk(steps: seq<Step>, vars: VarMap, n: nat)
    requires n <= |steps|
  {
    n == 0 || (ArgumentsOk(steps, vars, n - 1) && Arguments(steps[n - 1], vars).Ok?)
  }

  function PreparedCalls(steps: seq<Step>, vars: VarMap, n: nat): (calls: seq<Call>)
    requires n <= |steps| && ArgumentsOk(steps, vars, n)
    ensures |calls| == n
  {
    if n == 0 then []
    else
      PreparedCalls(steps, vars, n - 1)
      + [CallOf(steps[n - 1], Arguments(steps[n - 1], vars).value, PreparedTab(steps, n - 1))]
  }

  datatype Preparation = Prepared(calls: seq<Call>) | VarError(name: string, index: nat)

  /** All calls, or the error of the first step whose substitution fails. */
  predicate PreparesTo(steps: seq<Step>, vars: VarMap, p: Preparation) {
    match p
    case Prepared(calls) => ArgumentsOk(steps, vars, |steps|) && calls == PreparedCalls(steps, vars, |steps|)
    case VarError(name, index) =>
      index < |steps| && ArgumentsOk(steps, vars, index) && Arguments(steps[index], vars) == Err(name)
  }

  lemma {:induction false} PreparedAt(steps: seq<Step>, vars: VarMap, n: nat, i: nat)
    requires n <= |steps| && ArgumentsOk(steps, vars, n) && i < n
    ensures Arguments(steps[i], vars).Ok?
    ensures PreparedCalls(steps, vars, n)[i] == CallOf(steps[i], Arguments(steps[i], vars).value, PreparedTab(steps, i))
  {
    if i < n - 1 {
      PreparedAt(steps, vars, n - 1, i);
    }
  }

  /** What preparing leaves: all calls, each from the tab that validation makes up for the steps behind a
      navigation, or the first unknown name of all texts of all steps. */
  ghost predicate PreparationMeans(steps: seq<Step>, vars: VarMap, p: Preparation) {
    match p
    case Prepared(calls) =>
      && AllKnown(steps, vars, |steps|) && |calls| == |steps|
      && forall i | 0 <= i < |steps| ::
           CallMeans(steps[i], vars,
                     if Navigated(steps, i) then Some("__openchrome_playbook_validation_tab__") else None, calls[i])
    case VarError(name, index) =>
      index < |steps| && AllKnown(steps, vars, index) && FirstUnknown(Texts(Obj(steps[index].args)), vars, Some(name))
  }

  /** A step before step n navigates. */
  predicate Navigated(steps: seq<Step>, n: nat)
    requires n <= |steps|
  {
    exists i | 0 <= i < n :: steps[i].verb.Navigate?
  }

  lemma {:induction false} PreparedTabIs(steps: seq<Step>, n: nat)
    requires n <= |steps|
    ensures PreparedTab(steps, n) == if Navigated(steps, n) then Some("__openchrome_playbook_validation_tab__") else None
  {
    if n > 0 {
      PreparedTabIs(steps, n - 1);
    }
  }

  lemma {:induction false} OkKnown(steps: seq<Step>, vars: VarMap, n: nat)
    requires n <= |steps| && ArgumentsOk(steps, vars, n)
    ensures AllKnown(steps, vars, n)
  {
    if n > 0 {
      OkKnown(steps, vars, n - 1);
      ArgumentsKnown(steps[n - 1], vars);
    }
  }

  lemma PreparationMeant(steps: seq<Step>, vars: VarMap, p: Preparation)
    requires PreparesTo(steps, vars, p)
    ensures PreparationMeans(steps, vars, p)
  {
    match p
    case Prepared(calls) =>
      OkKnown(steps, vars, |steps|);
      forall i | 0 <= i < |steps|
        ensures CallMeans(steps[i], vars, PreparedTab(steps, i), calls[i])
        ensures PreparedTab(steps, i) == if Navigated(steps, i) then Some("__openchrome_playbook_validation_tab__") else None
      {
        PreparedAt(steps, vars, |steps|, i);
        CallOfMeans(steps[i], vars, PreparedTab(steps, i));
        PreparedTabIs(steps, i);
      }
    case VarError(_, index) =>
      OkKnown(steps, vars, index);
      ArgumentsKnown(steps[index], vars);
  }

  method PrepareSteps(steps: seq<Step>, vars: VarMap) returns (p: Preparation)
    ensures PreparesTo(steps, vars, p)
    ensures PreparationMeans(steps, vars, p)
  {
    var calls: seq<Call> := [];
    var currentTab: Option<string> := None;
    for i := 0 to |steps|
      invariant ArgumentsOk(steps, vars, i)
      invariant calls == PreparedCalls(steps, vars, i) && currentTab == PreparedTab(steps, i)
    {
      var args := Arguments(steps[i], vars);
      if args.Err? {
        PreparationMeant(steps, vars, VarError(args.error, i));
        return VarError(args.error, i);
      }
      calls := calls + [CallOf(steps[i], args.value, currentTab)];
      if steps[i].verb.Navigate? {
        currentTab := Some(VALIDATION_TAB_ID);
      }
    }
    PreparationMeant(steps, vars, Prepared(calls));
    return Prepared(calls);
  }

  // ---- Running -------------------------------------------------------------------------------------

  /** What comes back from the call of a step; the tab id is a nonempty string in the result. */
  datatype Reply = Returned(success: bool, tab: Option<string>) | Threw | TransportFailed

  datatype Status = Passed | Failed | Skipped

  datatype StepResult = StepResult(status: Status, call: Call)

  datatype Summary = Summary(ok: bool, total: nat, passed: nat, failed: nat, skipped: nat)

  datatype Outcome =
    | Completed(results: seq<StepResult>, summary: Summary)
    | RunVarError(name: string, index: nat)
    | TransportError(index: nat)

  /** The tab of the last result, among the first n, that named one. */
  function RunTab(replies: nat -> Reply, n: nat): Option<string> {
    if n == 0 then None
    else if replies(n - 1).Returned? && replies(n - 1).tab.Some? then replies(n - 1).tab
    else RunTab(replies, n - 1)
  }

  /** The call that a run makes at step i, if it gets there. */
  function RunCall(steps: seq<Step>, vars: VarMap, replies: nat -> Reply, i: nat): Call
    requires i < |steps| && Arguments(steps[i], vars).Ok?
  {
    CallOf(steps[i], Arguments(steps[i], vars).value, RunTab(replies, i))
  }

  predicate Passes(steps: seq<Step>, vars: VarMap, replies: nat -> Reply, i: nat)
    requires i < |steps|
  {
    Arguments(steps[i], vars).Ok? && replies(i).Returned? && replies(i).success
  }

  /** The first n steps all pass. */
  predicate AllPass(steps: seq<Step>, vars: VarMap, replies: nat -> Reply, n: nat)
    requires n <= |steps|
  {
    n == 0 || (AllPass(steps, vars, replies, n - 1) && Passes(steps, vars, replies, n - 1))
  }

  function PassedResults(steps: seq<Step>, vars: VarMap, replies: nat -> Reply, n: nat): (results: seq<StepResult>)
    requires n <= |steps| && AllPass(steps, vars, replies, n)
    ensures |results| == n && Count(results, Passed) == n && Count(results, Failed) == Count(results, Skipped) == 0
  {
    if n == 0 then []
    else
      var before := PassedResults(steps, vars, replies, n - 1);
      var result := StepResult(Passed, RunCall(steps, vars, replies, n - 1));
      CountSnoc(before, result, Passed);
      CountSnoc(before, result, Failed);
      CountSnoc(before, result, Skipped);
      before + [result]
  }

  function Skips(n: nat): (results: seq<StepResult>)
    ensures |results| == n && Count(results, Skipped) == n && Count(results, Failed) == Count(results, Passed) == 0
  {
    if n == 0 then []
    else
      var result := StepResult(Skipped, Call("", []));
      CountSnoc(Skips(n - 1), result, Passed);
      CountSnoc(Skips(n - 1), result, Failed);
      CountSnoc(Skips(n - 1), result, Skipped);
      Skips(n - 1) + [result]
  }

  function Count(results: seq<StepResult>, status: Status): nat {
    if results == [] then 0
    else Count(results[..|results| - 1], status) + (if results[|results| - 1].status == status then 1 else 0)
  }

  lemma CountSnoc(results: seq<StepResult>, result: StepResult, status: Status)
    ensures Count(results + [result], status) == Count(results, status) + (if result.status == status then 1 else 0)
  {
    assert (results + [result])[..|results|] == results;
  }

  lemma {:induction false} CountConcat(a: seq<StepResult>, b: seq<StepResult>, status: Status)
    ensures Count(a + b, status) == Count(a, status) + Count(b, status)
  {
    if b == [] {
      assert a + b == a;
    } else {
      var n := |b| - 1;
      assert a + b == (a + b[..n]) + [b[n]];
      CountSnoc(a + b[..n], b[n], status);
      CountConcat(a, b[..n], status);
    }
  }

  /** Step k is the first that does not pass, and its call was made. */
  predicate FailsAt(steps: seq<Step>, vars: VarMap, replies: nat -> Reply, k: nat)
    requires k < |steps|
  {
    && AllPass(steps, vars, replies, k) && Arguments(steps[k], vars).Ok?
    && (replies(k).Threw? || (replies(k).Returned? && !replies(k).success))
  }

  /** The results of n steps: passes, then the failure of step k, then only skips. */
  function FailedResults(steps: seq<Step>, vars: VarMap, replies: nat -> Reply, k: nat,
                         n: nat): (results: seq<StepResult>)
    requires k < n <= |steps| && FailsAt(steps, vars, replies, k)
    ensures |results| == n
    ensures Count(results, Passed) == k && Count(results, Failed) == 1 && Count(results, Skipped) == n - k - 1
  {
    var passed, failure := PassedResults(steps, vars, replies, k), StepResult(Failed, RunCall(steps, vars, replies, k));
    FailureCounts(passed, failure, n - k - 1);
    passed + [failure] + Skips(n - k - 1)
  }

  lemma FailureCounts(passed: seq<StepResult>, failure: StepResult, skips: nat)
    requires failure.status == Failed && Count(passed, Failed) == Count(passed, Skipped) == 0
    ensures Count(passed + [failure] + Skips(skips), Passed) == Count(passed, Passed)
    ensures Count(passed + [failure] + Skips(skips), Failed) == 1
    ensures Count(passed + [failure] + Skips(skips), Skipped) == skips
  {
    forall status: Status ensures Count(passed + [failure] + Skips(skips), status) ==
        Count(passed, status) + (if failure.status == status then 1 else 0) + Count(Skips(skips), status) {
      CountConcat(passed + [failure], Skips(skips), status);
      CountSnoc(passed, failure, status);
    }
  }

  /** The outcome is decided by the first step k that does not pass. */
  predicate RunsTo(steps: seq<Step>, vars: VarMap, replies: nat -> Reply, o: Outcome, k: nat) {
    && k <= |steps| && AllPass(steps, vars, replies, k)
    && match o
       case Completed(results, s) =>
         if k < |steps| then
           && FailsAt(steps, vars, replies, k) && results == FailedResults(steps, vars, replies, k, |steps|)
           && s == Summary(false, |steps|, k, 1, |steps| - k - 1)
         else results == PassedResults(steps, vars, replies, k) && s == Summary(true, |steps|, |steps|, 0, 0)
       case RunVarError(name, index) => index == k < |steps| && Arguments(steps[k], vars) == Err(name)
       case TransportError(index) => index == k < |steps| && Arguments(steps[k], vars).Ok? && replies(k).TransportFailed?
  }

  /** `filter(...).length`. */
  method CountStatus(results: seq<StepResult>, status: Status) returns (n: nat)
    ensures n == Count(results, status)
  {
    n := 0;
    for i := 0 to |results|
      invariant n == Count(results[..i], status)
    {
      assert results[..i + 1] == results[..i] + [results[i]];
      CountSnoc(results[..i], results[i], status);
      if results[i].status == status {
        n := n + 1;
      }
    }
    assert results[..|results|] == results;
  }

  // ---- What a run looks like -------------------------------------------------------------------------

  lemma {:induction false} PassedAt(steps: seq<Step>, vars: VarMap, replies: nat -> Reply, n: nat, i: nat)
    requires n <= |steps| && AllPass(steps, vars, replies, n) && i < n
    ensures Passes(steps, vars, replies, i)
    ensures PassedResults(steps, vars, replies, n)[i] == StepResult(Passed, RunCall(steps, vars, replies, i))
  {
    if i < n - 1 {
      PassedAt(steps, vars, replies, n - 1, i);
    }
  }

  /** A completed run has one result for each step: passes before step k, the failure of step k if there
      is one, and skips after it; the totals count exactly these. */
  lemma RunShape(steps: seq<Step>, vars: VarMap, replies: nat -> Reply, o: Outcome, k: nat, i: nat)
    requires RunsTo(steps, vars, replies, o, k) && o.Completed? && i < |steps|
    ensures |o.results| == |steps| == o.summary.total
    ensures o.results[i].status == if i < k then Passed else if i == k then Failed else Skipped
    ensures o.results[i].status != Skipped ==>
              Arguments(steps[i], vars).Ok? && o.results[i].call == RunCall(steps, vars, replies, i)
    ensures o.summary.passed == k && o.summary.passed + o.summary.failed + o.summary.skipped == o.summary.total
    ensures o.summary.ok <==> k == |steps|
  {
    if i < k {
      PassedAt(steps, vars, replies, k, i);
    } else {
      SkipsAt(|steps| - k - 1);
    }
  }

  lemma {:induction false} SkipsAt(n: nat)
    ensures forall i | 0 <= i < n :: Skips(n)[i].status == Skipped
  {
    if n > 0 {
      SkipsAt(n - 1);
    }
  }

  // ---- What the calls of a run are ------------------------------------------------------------------------

  predicate NamesTab(reply: Reply) { reply.Returned? && reply.tab.Some? }

  /** The tab that the last of the first n replies to name one named. */
  ghost predicate NamedTab(replies: nat -> Reply, n: nat, tab: Option<string>) {
    match tab
    case None => forall i: nat | i < n :: !NamesTab(replies(i))
    case Some(_) =>
      exists i: nat | i < n ::
        NamesTab(replies(i)) && replies(i).tab == tab && forall j: nat | i < j < n :: !NamesTab(replies(j))
  }

  lemma {:induction false} RunTabNamed(replies: nat -> Reply, n: nat)
    ensures NamedTab(replies, n, RunTab(replies, n))
  {
    if n > 0 {
      RunTabNamed(replies, n - 1);
    }
  }

  ghost predicate CallMade(step: Step, vars: VarMap, replies: nat -> Reply, i: nat, call: Call) {
    exists tab :: NamedTab(replies, i, tab) && CallMeans(step, vars, tab, call)
  }

  lemma RunCallMade(steps: seq<Step>, vars: VarMap, replies: nat -> Reply, i: nat)
    requires i < |steps| && Arguments(steps[i], vars).Ok?
    ensures CallMade(steps[i], vars, replies, i, RunCall(steps, vars, replies, i))
  {
    RunTabNamed(replies, i);
    CallOfMeans(steps[i], vars, RunTab(replies, i));
  }

  /** What a run leaves: the calls of the steps that were not skipped, each from the tab named last before it,
      or the first unknown name of the step that it reached. */
  ghost predicate RunMeans(steps: seq<Step>, vars: VarMap, replies: nat -> Reply, o: Outcome) {
    match o
    case Completed(results, _) =>
      && |results| == |steps|
      && forall i | 0 <= i < |steps| && results[i].status != Skipped :: CallMade(steps[i], vars, replies, i, results[i].call)
    case RunVarError(name, index) =>
      index < |steps| && AllKnown(steps, vars, index) && FirstUnknown(Texts(Obj(steps[index].args)), vars, Some(name))
    case TransportError(index) => index < |steps| && AllKnown(steps, vars, index + 1)
  }

  lemma {:induction false} PassedOk(steps: seq<Step>, vars: VarMap, replies: nat -> Reply, n: nat)
    requires n <= |steps| && AllPass(steps, vars, replies, n)
    ensures ArgumentsOk(steps, vars, n)
  {
    if n > 0 {
      PassedOk(steps, vars, replies, n - 1);
    }
  }

  lemma ReachedKnown(steps: seq<Step>, vars: VarMap, replies: nat -> Reply, k: nat)
    requires k <= |steps| && AllPass(steps, vars, replies, k)
    ensures AllKnown(steps, vars, k)
  {
    PassedOk(steps, vars, replies, k);
    OkKnown(steps, vars, k);
  }

  lemma ResultMeant(steps: seq<Step>, vars: VarMap, replies: nat -> Reply, o: Outcome, k: nat, i: nat)
    requires RunsTo(steps, vars, replies, o, k) && o.Completed? && i < |steps|
    ensures |o.results| == |steps|
    ensures o.results[i].status != Skipped ==> CallMade(steps[i], vars, replies, i, o.results[i].call)
  {
    RunShape(steps, vars, replies, o, k, i);
    if o.results[i].status != Skipped {
      RunCallMade(steps, vars, replies, i);
    }
  }

  lemma RunMeant(steps: seq<Step>, vars: VarMap, replies: nat -> Reply, o: Outcome, k: nat)
    requires RunsTo(steps, vars, replies, o, k)
    ensures RunMeans(steps, vars, replies, o)
  {
    ReachedKnown(steps, vars, replies, k);
    if o.Completed? {
      assert |o.results| == |steps|;
      forall i | 0 <= i < |steps| && o.results[i].status != Skipped
        ensures CallMade(steps[i], vars, replies, i, o.results[i].call)
      {
        ResultMeant(steps, vars, replies, o, k, i);
      }
    } else {
      ArgumentsKnown(steps[k], vars);
    }
  }

  /** One step that is not skipped, from the tab before it. */
  method RunStep(steps: seq<Step>, vars: VarMap, replies: nat -> Reply, i: nat, args: seq<Member>,
                 currentTab: Option<string>)
    returns (result: StepResult, tab: Option<string>)
    requires i < |steps| && Arguments(steps[i], vars) == Ok(args) && currentTab == RunTab(replies, i)
    requires !replies(i).TransportFailed?
    ensures result == StepResult(if Passes(steps, vars, replies, i) then Passed else Failed, RunCall(steps, vars, replies, i))
    ensures tab == RunTab(replies, i + 1)
  {
    result, tab := StepResult(Passed, CallOf(steps[i], args, currentTab)), currentTab;
    match replies(i)
    case Returned(success, named) =>
      if !success {
        result := result.(status := Failed);
      }
      if named.Some? {
        tab := named;
      }
    case Threw => result := result.(status := Failed);
  }

  /** The results after n steps; k is the step that failed, or there is none. */
  predicate Progress(steps: seq<Step>, vars: VarMap, replies: nat -> Reply, results: seq<StepResult>, k: Option<nat>,
                     n: nat)
    requires n <= |steps|
  {
    match k
    case Some(f) => f < n && FailsAt(steps, vars, replies, f) && results == FailedResults(steps, vars, replies, f, n)
    case None => AllPass(steps, vars, replies, n) && results == PassedResults(steps, vars, replies, n)
  }

  lemma SkipProgress(steps: seq<Step>, vars: VarMap, replies: nat -> Reply, results: seq<StepResult>, f: nat, n: nat)
    requires n < |steps| && Progress(steps, vars, replies, results, Some(f), n)
    ensures Progress(steps, vars, replies, results + [StepResult(Skipped, Call("", []))], Some(f), n + 1)
  {
    var front := PassedResults(steps, vars, replies, f) + [StepResult(Failed, RunCall(steps, vars, replies, f))];
    var skip := StepResult(Skipped, Call("", []));
    assert Skips(n - f) == Skips(n - f - 1) + [skip];
    assert (front + Skips(n - f - 1)) + [skip] == front + (Skips(n - f - 1) + [skip]);
  }

  lemma StepProgress(steps: seq<Step>, vars: VarMap, replies: nat -> Reply, results: seq<StepResult>,
                     result: StepResult, n: nat)
    requires n < |steps| && Progress(steps, vars, replies, results, None, n)
    requires Arguments(steps[n], vars).Ok? && !replies(n).TransportFailed?
    requires result == StepResult(if Passes(steps, vars, replies, n) then Passed else Failed, RunCall(steps, vars, replies, n))
    ensures Progress(steps, vars, replies, results + [result], if result.status == Failed then Some(n) else None, n + 1)
  {
    if result.status == Failed {
      assert Skips(0) == [];
      assert FailedResults(steps, vars, replies, n, n + 1) == results + [result] + Skips(0);
    }
  }

  lemma CompletedRunsTo(steps: seq<Step>, vars: VarMap, replies: nat -> Reply, results: seq<StepResult>, k: Option<nat>)
    requires Progress(steps, vars, replies, results, k, |steps|)
    ensures var passed, failures, skipped := Count(results, Passed), Count(results, Failed), Count(results, Skipped);
            RunsTo(steps, vars, replies,
                   Completed(results, Summary(failures == 0 && skipped == 0, |steps|, passed, failures, skipped)),
                   if k.Some? then k.value else |steps|)
  {}

  /** A run executes the steps in order up to the first that does not pass. */
  method RunPlaybook(steps: seq<Step>, vars: VarMap, replies: nat -> Reply) returns (o: Outcome)
    ensures exists k: nat :: RunsTo(steps, vars, replies, o, k)
    ensures RunMeans(steps, vars, replies, o)
  {
    var results: seq<StepResult> := [];
    var failed: Option<nat> := None;
    var currentTab: Option<string> := None;
    for i := 0 to |steps|
      invariant Progress(steps, vars, replies, results, failed, i)
      invariant failed.None? ==> currentTab == RunTab(replies, i)
    {
      if failed.Some? {
        SkipProgress(steps, vars, replies, results, failed.value, i);
        results := results + [StepResult(Skipped, Call("", []))];
        continue;
      }
      var args := Arguments(steps[i], vars);
      if args.Err? {
        assert RunsTo(steps, vars, replies, RunVarError(args.error, i), i);
        RunMeant(steps, vars, replies, RunVarError(args.error, i), i);
        return RunVarError(args.error, i);
      }
      if replies(i).TransportFailed? {
        assert RunsTo(steps, vars, replies, TransportError(i), i);
        RunMeant(steps, vars, replies, TransportError(i), i);
        return TransportError(i);
      }
      var result;
      result, currentTab := RunStep(steps, vars, replies, i, args.value, currentTab);
      StepProgress(steps, vars, replies, results, result, i);
      failed := if result.status == Failed then Some(i) else None;
      results := results + [result];
    }
    var passed := CountStatus(results, Passed);
    var failures := CountStatus(results, Failed);
    var skipped := CountStatus(results, Skipped);
    CompletedRunsTo(steps, vars, replies, results, failed);
    o := Completed(results, Summary(failures == 0 && skipped == 0, |steps|, passed, failures, skipped));
    RunMeant(steps, vars, replies, o, if failed.Some? then failed.value else |steps|);
  }

  // ---- Preparing simulates running ---------------------------------------------------------------------

  lemma {:induction false} SetTwice(ms: seq<Member>, key: string, v: Value, w: Value)
    ensures SetMember(SetMember(ms, key, v), key, w) == SetMember(ms, key, w)
    ensures Lookup(SetMember(ms, key, v), key) == Some(v)
  {
    if ms != [] && ms[0].key != key {
      SetTwice(ms[1..], key, v, w);
      assert SetMember(ms, key, v)[1..] == SetMember(ms[1..], key, v);
    }
  }

  /** The same call, or two that differ in the injected tab id only. */
  predicate UpToTab(a: Call, b: Call) {
    && a.tool == b.tool
    && (a.args == b.args
        || (HasTab(a.args) && HasTab(b.args) && SetMember(a.args, TAB_ID, Null) == SetMember(b.args, TAB_ID, Null)))
  }

  /** A step whose arguments name no tab, of a kind that gets the current tab. */
  predicate TakesTab(step: Step, args: seq<Member>) { ReusesTab(step.verb) && !HasTab(args) }

  /** The calls of one step from two states agree up to the tab id exactly when both states know a tab
      or neither does, or the step takes none. */
  lemma CallsAgreeIff(step: Step, args: seq<Member>, s: Option<string>, t: Option<string>)
    ensures UpToTab(CallOf(step, args, s), CallOf(step, args, t)) <==> (TakesTab(step, args) ==> (s.Some? <==> t.Some?))
  {
    if TakesTab(step, args) {
      var a, b := CallOf(step, args, s).args, CallOf(step, args, t).args;
      if s.Some? {
        assert a == SetMember(args, TAB_ID, Str(s.value));
        SetTwice(args, TAB_ID, Str(s.value), Null);
      }
      if t.Some? {
        assert b == SetMember(args, TAB_ID, Str(t.value));
        SetTwice(args, TAB_ID, Str(t.value), Null);
      }
    }
  }

  /** Results of navigation carry a tab id, and other results do not. */
  predicate OnlyNavigationNamesTab(steps: seq<Step>, replies: nat -> Reply, n: nat)
    requires n <= |steps|
  {
    forall i | 0 <= i < n :: steps[i].verb.Navigate? <==> replies(i).Returned? && replies(i).tab.Some?
  }

  lemma {:induction false} TabsAgree(steps: seq<Step>, replies: nat -> Reply, n: nat)
    requires n <= |steps| && OnlyNavigationNamesTab(steps, replies, n)
    ensures PreparedTab(steps, n).Some? <==> RunTab(replies, n).Some?
  {
    if n > 0 {
      TabsAgree(steps, replies, n - 1);
    }
  }

  /** The run made the call of step i: all up to step k, unless the variables of that one failed. */
  predicate Executed(steps: seq<Step>, o: Outcome, k: nat, i: nat) {
    i < |steps| && if o.RunVarError? then i < k else i <= k
  }

  /** Every call that a run makes is the prepared call up to the tab id, however the run ends. */
  lemma RunMakesPreparedCalls(steps: seq<Step>, vars: VarMap, replies: nat -> Reply, o: Outcome, k: nat,
                              calls: seq<Call>, i: nat)
    requires RunsTo(steps, vars, replies, o, k) && Executed(steps, o, k, i)
    requires PreparesTo(steps, vars, Prepared(calls)) && OnlyNavigationNamesTab(steps, replies, i)
    ensures i < |calls| && Arguments(steps[i], vars).Ok? && UpToTab(RunCall(steps, vars, replies, i), calls[i])
    ensures o.Completed? ==> i < |o.results| && o.results[i].call == RunCall(steps, vars, replies, i)
  {
    if o.Completed? {
      RunShape(steps, vars, replies, o, k, i);
    }
    PreparedAt(steps, vars, |steps|, i);
    TabsAgree(steps, replies, i);
    CallsAgreeIff(steps[i], Arguments(steps[i], vars).value, RunTab(replies, i), PreparedTab(steps, i));
  }

  /** Whatever the tabs, a run raises a variable error only if preparing raises it, and the same one;
      when preparing raises one, a run raises it too or stops at an earlier step. */
  lemma VariableErrorsAgree(steps: seq<Step>, vars: VarMap, replies: nat -> Reply, o: Outcome, k: nat, p: Preparation)
    requires RunsTo(steps, vars, replies, o, k) && PreparesTo(steps, vars, p)
    ensures o.RunVarError? ==> p == VarError(o.name, o.index)
    ensures p.VarError? ==> o == RunVarError(p.name, p.index) || k < p.index
  {
    if p.Prepared? {
      if k < |steps| {
        PreparedAt(steps, vars, |steps|, k);
      }
    } else if k > p.index {
      PassedAt(steps, vars, replies, k, p.index);
    } else if k < p.index {
      PreparedAt(steps, vars, p.index, k);
    }
  }
}
