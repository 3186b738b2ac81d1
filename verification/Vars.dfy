/** Variable references in playbook steps (cli/playbook/vars.ts). */
module Vars {
  import opened Json
  import opened Wrappers

  type VarMap = map<string, string>

  predicate NameStart(c: char) { 'A' <= c <= 'Z' || 'a' <= c <= 'z' || c == '_' }

  predicate NameChar(c: char) { NameStart(c) || '0' <= c <= '9' || c == ':' }

  /** How many characters at the start can be in a name. */
  function NameLength(s: string): (n: nat)
    ensures n <= |s| && (n < |s| ==> !NameChar(s[n]))
    ensures forall i | 0 <= i < n :: NameChar(s[i])
  {
    if s == "" || !NameChar(s[0]) then 0 else 1 + NameLength(s[1..])
  }

  /** The name, if a reference `${name}` begins the text. */
  function Reference(s: string): (name: Option<string>)
    ensures name.Some? ==> |s| >= |name.value| + 3 && name.value != ""
  {
    if |s| < 2 || s[0] != '$' || s[1] != '{' then None
    else
      var n := NameLength(s[2..]);
      if n > 0 && NameStart(s[2]) && |s| > n + 2 && s[n + 2] == '}' then Some(s[2..n + 2]) else None
  }

  function Prepend(a: string, r: Result<string, string>): Result<string, string> {
    if r.Ok? then Ok(a + r.value) else r
  }

  /** `substituteString`: the first unknown name is the error. */
  function Substitute(s: string, vars: VarMap): Result<string, string>
    decreases |s|
  {
    if s == "" then Ok("")
    else
      match Reference(s)
      case Some(name) => if name in vars then Prepend(vars[name], Substitute(s[|name| + 3..], vars)) else Err(name)
      case None => Prepend([s[0]], Substitute(s[1..], vars))
  }

  /** `parseCliVars` of one entry: the key ends at the first equals sign. */
  function KeyEnd(entry: string): (n: nat)
    ensures n <= |entry| && '=' !in entry[..n] && (n < |entry| ==> entry[n] == '=')
  {
    if entry == "" || entry[0] == '=' then 0
    else
      var n := KeyEnd(entry[1..]);
      assert entry[..n + 1] == [entry[0]] + entry[1..][..n];
      1 + n
  }

  /** Later entries win; an entry without an equals sign is the error. */
  method ParseCliVars(entries: seq<string>) returns (r: Result<VarMap, string>)
    ensures r.Ok? <==> forall e <- entries :: '=' in e
    ensures r.Err? ==> r.error in entries && '=' !in r.error
    ensures r.Ok? ==> forall i | 0 <= i < |entries| ::
                        var k := entries[i][..KeyEnd(entries[i])];
                        && k in r.value
                        && ((forall j | i < j < |entries| :: entries[j][..KeyEnd(entries[j])] != k) ==>
                              entries[i] == k + "=" + r.value[k])
  {
    var m: VarMap := map[];
    for i := 0 to |entries|
      invariant forall j | 0 <= j < i :: '=' in entries[j]
      invariant forall j | 0 <= j < i :: entries[j][..KeyEnd(entries[j])] in m
      invariant forall j | 0 <= j < i ::
                  var k := entries[j][..KeyEnd(entries[j])];
                  (forall l | j < l < i :: entries[l][..KeyEnd(entries[l])] != k) ==> entries[j] == k + "=" + m[k]
    {
      var entry := entries[i];
      var n := KeyEnd(entry);
      if n == |entry| {
        assert entry[..n] == entry;
        return Err(entry);
      }
      assert entry[n] == '=' && entry == entry[..n] + "=" + entry[n + 1..];
      m := m[entry[..n] := entry[n + 1..]];
    }
    return Ok(m);
  }

  // ---- Templates: what substitution means ------------------------------------------------------------

  /** Plain text, or a reference. */
  datatype Piece = Literal(text: string) | Ref(name: string)

  /** `[A-Za-z_][A-Za-z0-9_:]*`. */
  predicate ValidName(name: string) {
    && name != ""
    && forall i | 0 <= i < |name| ::
         var c := name[i];
         || 'A' <= c <= 'Z' || 'a' <= c <= 'z' || c == '_'
         || (i > 0 && ('0' <= c <= '9' || c == ':'))
  }

  /** The reference to this name stands at the start of the text. */
  predicate Begins(s: string, name: string) {
    ValidName(name) && |s| >= |name| + 3 && s[..|name| + 3] == "${" + name + "}"
  }

  ghost predicate NoReference(s: string) { forall name :: !Begins(s, name) }

  function Written(ps: seq<Piece>): string {
    if ps == [] then ""
    else (match ps[0] case Literal(text) => text case Ref(name) => "${" + name + "}") + Written(ps[1..])
  }

  /** Literals stay, references become values once, and the first unknown name is reported. */
  function Filled(ps: seq<Piece>, vars: VarMap): Result<string, string> {
    if ps == [] then Ok("")
    else if ps[0].Ref? && ps[0].name !in vars then Err(ps[0].name)
    else
      match Filled(ps[1..], vars)
      case Err(name) => Err(name)
      case Ok(rest) => Ok((if ps[0].Ref? then vars[ps[0].name] else ps[0].text) + rest)
  }

  /** No reference begins inside a literal, not even one that the pieces behind it would complete. */
  ghost predicate Proper(ps: seq<Piece>) {
    ps != [] ==>
      && Proper(ps[1..])
      && match ps[0]
         case Literal(text) => Skipped(text, Written(ps[1..]))
         case Ref(name) => ValidName(name)
  }

  ghost predicate Skipped(text: string, rest: string) {
    forall i | 0 <= i < |text| :: NoReference((text + rest)[i..])
  }

  lemma {:induction false} NameMeasured(name: string, rest: string)
    requires (forall i | 0 <= i < |name| :: NameChar(name[i])) && (rest != "" ==> !NameChar(rest[0]))
    ensures NameLength(name + rest) == |name|
  {
    if name == "" {
      assert name + rest == rest;
    } else {
      assert (name + rest)[1..] == name[1..] + rest;
      NameMeasured(name[1..], rest);
    }
  }

  lemma ReferenceFound(name: string, rest: string)
    requires ValidName(name)
    ensures Reference("${" + name + "}" + rest) == Some(name)
  {
    var s := "${" + name + "}" + rest;
    assert s[2..] == name + ("}" + rest);
    NameMeasured(name, "}" + rest);
    assert s[2..][0] == name[0];
    assert s[2..][|name|] == '}';
    assert s[2..|name| + 2] == name;
  }

  /** The match of the expression is the one reference that stands at the start. */
  lemma ReferenceIff(s: string, name: string)
    ensures Reference(s) == Some(name) <==> Begins(s, name)
  {
    if Begins(s, name) {
      assert s == "${" + name + "}" + s[|name| + 3..];
      ReferenceFound(name, s[|name| + 3..]);
    }
    if Reference(s) == Some(name) {
      ReferenceBegins(s, name);
    }
  }

  lemma ReferenceBegins(s: string, name: string)
    requires Reference(s) == Some(name)
    ensures Begins(s, name)
  {
    var n := NameLength(s[2..]);
    assert name == s[2..n + 2] == s[2..][..n];
    assert s[..n + 3] == s[..2] + s[2..n + 2] + [s[n + 2]];
    assert s[..2] == "${";
  }

  lemma NothingFound(s: string)
    ensures NoReference(s) <==> Reference(s).None?
  {
    if Reference(s).Some? {
      ReferenceIff(s, Reference(s).value);
    } else {
      forall name ensures !Begins(s, name) {
        ReferenceIff(s, name);
      }
    }
  }

  lemma {:induction false} LiteralSkipped(text: string, rest: string, vars: VarMap)
    requires Skipped(text, rest)
    ensures Substitute(text + rest, vars) == Prepend(text, Substitute(rest, vars))
  {
    if text == "" {
      assert text + rest == rest;
      assert forall v: string :: "" + v == v;
    } else {
      SkippedTail(text, rest);
      LiteralSkipped(text[1..], rest, vars);
      NothingFound(text + rest);
      PrependTwice([text[0]], text[1..], Substitute(rest, vars));
      assert text == [text[0]] + text[1..];
    }
  }

  lemma SkippedTail(text: string, rest: string)
    requires text != "" && Skipped(text, rest)
    ensures (text + rest)[0] == text[0] && (text + rest)[1..] == text[1..] + rest
    ensures NoReference(text + rest) && Skipped(text[1..], rest)
  {
    assert (text + rest)[0..] == text + rest;
    forall i | 0 <= i < |text| - 1 ensures (text[1..] + rest)[i..] == (text + rest)[i + 1..] {}
  }

  lemma PrependTwice(a: string, b: string, r: Result<string, string>)
    ensures Prepend(a, Prepend(b, r)) == Prepend(a + b, r)
  {
    if r.Ok? {
      assert a + (b + r.value) == (a + b) + r.value;
    }
  }

  /** Substitution fills templates: values are inserted as they are and not searched for references. */
  lemma {:induction false} SubstituteFills(ps: seq<Piece>, vars: VarMap)
    requires Proper(ps)
    ensures Substitute(Written(ps), vars) == Filled(ps, vars)
  {
    if ps != [] {
      SubstituteFills(ps[1..], vars);
      var rest := Written(ps[1..]);
      match ps[0]
      case Literal(text) => LiteralSkipped(text, rest, vars);
      case Ref(name) =>
        ReferenceFound(name, rest);
        assert ("${" + name + "}" + rest)[|name| + 3..] == rest;
    }
  }

  function Pieces(s: string): seq<Piece>
    decreases |s|
  {
    if s == "" then []
    else
      match Reference(s)
      case Some(name) => [Ref(name)] + Pieces(s[|name| + 3..])
      case None => [Literal([s[0]])] + Pieces(s[1..])
  }

  lemma RefTemplate(s: string, name: string, ps: seq<Piece>)
    requires Begins(s, name) && Proper(ps) && Written(ps) == s[|name| + 3..]
    ensures Proper([Ref(name)] + ps) && Written([Ref(name)] + ps) == s
  {
    assert ([Ref(name)] + ps)[1..] == ps;
    assert s == "${" + name + "}" + s[|name| + 3..];
  }

  lemma LiteralTemplate(s: string, ps: seq<Piece>)
    requires s != "" && NoReference(s) && Proper(ps) && Written(ps) == s[1..]
    ensures Proper([Literal([s[0]])] + ps) && Written([Literal([s[0]])] + ps) == s
  {
    assert ([Literal([s[0]])] + ps)[1..] == ps;
    assert s == [s[0]] + s[1..] && s[0..] == s;
  }

  /** Every text is a template, also one with dollar signs and braces that make no reference. */
  lemma {:induction false} EveryTextIsTemplate(s: string)
    ensures Proper(Pieces(s)) && Written(Pieces(s)) == s
    decreases |s|
  {
    if s != "" {
      match Reference(s)
      case Some(name) =>
        ReferenceIff(s, name);
        EveryTextIsTemplate(s[|name| + 3..]);
        RefTemplate(s, name, Pieces(s[|name| + 3..]));
      case None =>
        NothingFound(s);
        EveryTextIsTemplate(s[1..]);
        LiteralTemplate(s, Pieces(s[1..]));
    }
  }

  // ---- Values ------------------------------------------------------------------------------------------

  /** `substituteValue`: every string inside the value, in order; keys stay. */
  function SubstituteValue(v: Value, vars: VarMap): Result<Value, string>
    decreases v
  {
    match v
    case Str(s) => (match Substitute(s, vars) case Ok(t) => Ok(Str(t)) case Err(n) => Err(n))
    case Arr(items) => (match SubstituteItems(v, items, vars) case Ok(xs) => Ok(Arr(xs)) case Err(n) => Err(n))
    case Obj(ms) => (match SubstituteMembers(v, ms, vars) case Ok(xs) => Ok(Obj(xs)) case Err(n) => Err(n))
    case _ => Ok(v)
  }

  function SubstituteItems(ghost whole: Value, items: seq<Value>, vars: VarMap): (r: Result<seq<Value>, string>)
    requires forall i <- items :: i < whole
    ensures r.Ok? ==> |r.value| == |items|
    decreases whole, |items|
  {
    if items == [] then Ok([])
    else
      assert items[0] in items && forall i <- items[1..] :: i in items;
      match SubstituteValue(items[0], vars)
      case Err(n) => Err(n)
      case Ok(first) =>
        match SubstituteItems(whole, items[1..], vars)
        case Err(n) => Err(n)
        case Ok(rest) => Ok([first] + rest)
  }

  function SubstituteMembers(ghost whole: Value, ms: seq<Member>, vars: VarMap): (r: Result<seq<Member>, string>)
    requires forall m <- ms :: m.value < whole
    ensures r.Ok? ==> |r.value| == |ms| && forall i | 0 <= i < |ms| :: r.value[i].key == ms[i].key
    decreases whole, |ms|
  {
    if ms == [] then Ok([])
    else
      assert ms[0] in ms && forall m <- ms[1..] :: m in ms;
      match SubstituteValue(ms[0].value, vars)
      case Err(n) => Err(n)
      case Ok(first) =>
        match SubstituteMembers(whole, ms[1..], vars)
        case Err(n) => Err(n)
        case Ok(rest) => Ok([Member(ms[0].key, first)] + rest)
  }

  // ---- What substitution does to a value -----------------------------------------------------------------

  /** The part of a value that is reached by these positions of elements and members. */
  function At(v: Value, path: seq<nat>): Option<Value>
    decreases |path|
  {
    if path == [] then Some(v)
    else
      match v
      case Arr(items) => if path[0] < |items| then At(items[path[0]], path[1..]) else None
      case Obj(ms) => if path[0] < |ms| then At(ms[path[0]].value, path[1..]) else None
      case _ => None
  }

  /** A text is filled; a list keeps its length, an object its keys and their order; all else is the same. */
  predicate NodeFilled(x: Value, y: Value, vars: VarMap) {
    match x
    case Str(s) => y.Str? && Filled(Pieces(s), vars) == Ok(y.s)
    case Arr(items) => y.Arr? && |y.items| == |items|
    case Obj(ms) => y.Obj? && |y.members| == |ms| && forall i | 0 <= i < |ms| :: y.members[i].key == ms[i].key
    case _ => y == x
  }

  predicate FilledAt(v: Value, w: Value, vars: VarMap, path: seq<nat>) {
    var x, y := At(v, path), At(w, path);
    if x.Some? then y.Some? && NodeFilled(x.value, y.value, vars) else y.None?
  }

  /** The same value with every text in it filled. */
  ghost predicate Fills(v: Value, w: Value, vars: VarMap) { forall path :: FilledAt(v, w, vars, path) }

  lemma SubstituteIsFilled(s: string, vars: VarMap)
    ensures Substitute(s, vars) == Filled(Pieces(s), vars)
  {
    EveryTextIsTemplate(s);
    SubstituteFills(Pieces(s), vars);
  }

  lemma {:induction false} ItemAt(whole: Value, items: seq<Value>, vars: VarMap, i: nat)
    requires forall x <- items :: x < whole
    requires SubstituteItems(whole, items, vars).Ok? && i < |items|
    ensures SubstituteValue(items[i], vars) == Ok(SubstituteItems(whole, items, vars).value[i])
    decreases |items|
  {
    assert items[0] in items && forall x <- items[1..] :: x in items;
    if i > 0 {
      ItemAt(whole, items[1..], vars, i - 1);
    }
  }

  lemma {:induction false} MemberAt(whole: Value, ms: seq<Member>, vars: VarMap, i: nat)
    requires forall m <- ms :: m.value < whole
    requires SubstituteMembers(whole, ms, vars).Ok? && i < |ms|
    ensures SubstituteValue(ms[i].value, vars) == Ok(SubstituteMembers(whole, ms, vars).value[i].value)
    decreases |ms|
  {
    assert ms[0] in ms && forall m <- ms[1..] :: m in ms;
    if i > 0 {
      MemberAt(whole, ms[1..], vars, i - 1);
    }
  }

  /** At every place in the value. */
  lemma {:induction false} SubstitutedAt(v: Value, w: Value, vars: VarMap, path: seq<nat>)
    requires SubstituteValue(v, vars) == Ok(w)
    ensures FilledAt(v, w, vars, path)
    decreases |path|
  {
    if path == [] {
      if v.Str? {
        SubstituteIsFilled(v.s, vars);
      }
    } else if v.Arr? && path[0] < |v.items| {
      ItemAt(v, v.items, vars, path[0]);
      SubstitutedAt(v.items[path[0]], w.items[path[0]], vars, path[1..]);
    } else if v.Obj? && path[0] < |v.members| {
      MemberAt(v, v.members, vars, path[0]);
      SubstitutedAt(v.members[path[0]].value, w.members[path[0]].value, vars, path[1..]);
    }
  }

  lemma Shifted(v: Value, w: Value, x: Value, y: Value, vars: VarMap, i: nat)
    requires Fills(v, w, vars) && At(v, [i]) == Some(x) && At(w, [i]) == Some(y)
    ensures Fills(x, y, vars)
  {
    forall path ensures FilledAt(x, y, vars, path) {
      assert FilledAt(v, w, vars, [i] + path);
      assert ([i] + path)[1..] == path;
    }
  }

  /** There is one filled value. */
  lemma {:induction false} FilledOnce(v: Value, w: Value, u: Value, vars: VarMap)
    requires Fills(v, w, vars) && Fills(v, u, vars)
    ensures w == u
  {
    assert FilledAt(v, w, vars, []) && FilledAt(v, u, vars, []);
    match v
    case Arr(items) =>
      forall i | 0 <= i < |items| ensures w.items[i] == u.items[i] {
        Shifted(v, w, items[i], w.items[i], vars, i);
        Shifted(v, u, items[i], u.items[i], vars, i);
        FilledOnce(items[i], w.items[i], u.items[i], vars);
      }
    case Obj(ms) =>
      forall i | 0 <= i < |ms| ensures w.members[i] == u.members[i] {
        Shifted(v, w, ms[i].value, w.members[i].value, vars, i);
        Shifted(v, u, ms[i].value, u.members[i].value, vars, i);
        FilledOnce(ms[i].value, w.members[i].value, u.members[i].value, vars);
      }
    case _ =>
  }

  /** The texts inside a value, in the order of the walk. */
  function Texts(v: Value): seq<string>
    decreases v
  {
    match v
    case Str(s) => [s]
    case Arr(items) => ItemTexts(v, items)
    case Obj(ms) => MemberTexts(v, ms)
    case _ => []
  }

  function ItemTexts(ghost whole: Value, items: seq<Value>): seq<string>
    requires forall x <- items :: x < whole
    decreases whole, |items|
  {
    if items == [] then []
    else
      assert items[0] in items && forall x <- items[1..] :: x in items;
      Texts(items[0]) + ItemTexts(whole, items[1..])
  }

  function MemberTexts(ghost whole: Value, ms: seq<Member>): seq<string>
    requires forall m <- ms :: m.value < whole
    decreases whole, |ms|
  {
    if ms == [] then []
    else
      assert ms[0] in ms && forall m <- ms[1..] :: m in ms;
      Texts(ms[0].value) + MemberTexts(whole, ms[1..])
  }

  /** `None` when all these texts can be filled, otherwise the unknown name of the first that cannot. */
  ghost predicate FirstUnknown(texts: seq<string>, vars: VarMap, unknown: Option<string>) {
    match unknown
    case None => forall i | 0 <= i < |texts| :: Filled(Pieces(texts[i]), vars).Ok?
    case Some(name) =>
      exists i :: FirstAt(texts, vars, name, i)
  }

  predicate FirstAt(texts: seq<string>, vars: VarMap, name: string, i: nat) {
    && i < |texts| && Filled(Pieces(texts[i]), vars) == Err(name)
    && forall j | 0 <= j < i :: Filled(Pieces(texts[j]), vars).Ok?
  }

  lemma FirstInFront(a: seq<string>, b: seq<string>, vars: VarMap, name: string)
    requires FirstUnknown(a, vars, Some(name))
    ensures FirstUnknown(a + b, vars, Some(name))
  {
    var i :| FirstAt(a, vars, name, i);
    assert FirstAt(a + b, vars, name, i);
  }

  lemma FirstBehind(a: seq<string>, b: seq<string>, vars: VarMap, unknown: Option<string>)
    requires FirstUnknown(a, vars, None) && FirstUnknown(b, vars, unknown)
    ensures FirstUnknown(a + b, vars, unknown)
  {
    if unknown.Some? {
      var i :| FirstAt(b, vars, unknown.value, i);
      assert FirstAt(a + b, vars, unknown.value, |a| + i);
    }
  }

  function ErrorOf<T>(r: Result<T, string>): Option<string> { if r.Ok? then None else Some(r.error) }

  /** Substitution fails exactly when some text names an unknown variable, with the first such name. */
  lemma {:induction false} SubstituteFails(v: Value, vars: VarMap)
    ensures FirstUnknown(Texts(v), vars, ErrorOf(SubstituteValue(v, vars)))
    decreases v
  {
    match v
    case Str(s) =>
      SubstituteIsFilled(s, vars);
      if SubstituteValue(v, vars).Err? {
        assert FirstAt([s], vars, SubstituteValue(v, vars).error, 0);
      }
    case Arr(items) => ItemsFail(v, items, vars);
    case Obj(ms) => MembersFail(v, ms, vars);
    case _ =>
  }

  lemma {:induction false} ItemsFail(whole: Value, items: seq<Value>, vars: VarMap)
    requires forall x <- items :: x < whole
    ensures FirstUnknown(ItemTexts(whole, items), vars, ErrorOf(SubstituteItems(whole, items, vars)))
    decreases whole, |items|
  {
    if items != [] {
      assert items[0] in items && forall x <- items[1..] :: x in items;
      SubstituteFails(items[0], vars);
      ItemsFail(whole, items[1..], vars);
      Joined(Texts(items[0]), ItemTexts(whole, items[1..]), vars, ErrorOf(SubstituteValue(items[0], vars)),
             ErrorOf(SubstituteItems(whole, items[1..], vars)));
    }
  }

  lemma {:induction false} MembersFail(whole: Value, ms: seq<Member>, vars: VarMap)
    requires forall m <- ms :: m.value < whole
    ensures FirstUnknown(MemberTexts(whole, ms), vars, ErrorOf(SubstituteMembers(whole, ms, vars)))
    decreases whole, |ms|
  {
    if ms != [] {
      assert ms[0] in ms && forall m <- ms[1..] :: m in ms;
      SubstituteFails(ms[0].value, vars);
      MembersFail(whole, ms[1..], vars);
      Joined(Texts(ms[0].value), MemberTexts(whole, ms[1..]), vars, ErrorOf(SubstituteValue(ms[0].value, vars)),
             ErrorOf(SubstituteMembers(whole, ms[1..], vars)));
    }
  }

  lemma Joined(a: seq<string>, b: seq<string>, vars: VarMap, x: Option<string>, y: Option<string>)
    requires FirstUnknown(a, vars, x) && FirstUnknown(b, vars, y)
    ensures FirstUnknown(a + b, vars, if x.Some? then x else y)
  {
    if x.Some? {
      FirstInFront(a, b, vars, x.value);
    } else {
      FirstBehind(a, b, vars, y);
    }
  }

  lemma {:induction false} ItemsSucceed(whole: Value, items: seq<Value>, vars: VarMap)
    requires forall x <- items :: x < whole
    requires forall i | 0 <= i < |items| :: SubstituteValue(items[i], vars).Ok?
    ensures SubstituteItems(whole, items, vars).Ok?
    decreases |items|
  {
    if items != [] {
      assert items[0] in items && forall x <- items[1..] :: x in items;
      ItemsSucceed(whole, items[1..], vars);
    }
  }

  lemma {:induction false} MembersSucceed(whole: Value, ms: seq<Member>, vars: VarMap)
    requires forall m <- ms :: m.value < whole
    requires forall i | 0 <= i < |ms| :: SubstituteValue(ms[i].value, vars).Ok?
    ensures SubstituteMembers(whole, ms, vars).Ok?
    decreases |ms|
  {
    if ms != [] {
      assert ms[0] in ms && forall m <- ms[1..] :: m in ms;
      MembersSucceed(whole, ms[1..], vars);
    }
  }

  lemma {:induction false} FillsSucceeds(v: Value, w: Value, vars: VarMap)
    requires Fills(v, w, vars)
    ensures SubstituteValue(v, vars).Ok?
    decreases v
  {
    assert FilledAt(v, w, vars, []);
    match v
    case Str(s) => SubstituteIsFilled(s, vars);
    case Arr(items) =>
      forall i | 0 <= i < |items| ensures SubstituteValue(items[i], vars).Ok? {
        Shifted(v, w, items[i], w.items[i], vars, i);
        FillsSucceeds(items[i], w.items[i], vars);
      }
      ItemsSucceed(v, items, vars);
    case Obj(ms) =>
      forall i | 0 <= i < |ms| ensures SubstituteValue(ms[i].value, vars).Ok? {
        Shifted(v, w, ms[i].value, w.members[i].value, vars, i);
        FillsSucceeds(ms[i].value, w.members[i].value, vars);
      }
      MembersSucceed(v, ms, vars);
    case _ =>
  }

  /** The result of substitution is exactly the given value with every text in it filled. */
  lemma SubstitutedIff(v: Value, w: Value, vars: VarMap)
    ensures SubstituteValue(v, vars) == Ok(w) <==> Fills(v, w, vars)
  {
    if Fills(v, w, vars) {
      FillsSucceeds(v, w, vars);
    }
    if SubstituteValue(v, vars).Ok? {
      var u := SubstituteValue(v, vars).value;
      forall path ensures FilledAt(v, u, vars, path) {
        SubstitutedAt(v, u, vars, path);
      }
      if Fills(v, w, vars) {
        FilledOnce(v, w, u, vars);
      }
    }
  }
}
