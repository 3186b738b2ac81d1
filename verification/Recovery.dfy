/** Recovery of the first object of concatenated JSON: `attemptJsonRecovery` (cli/index.ts) and the
    scanning loop of `recoverConfig` (cli/claude-session.ts), against the grammar of RFC 8259. */
module Recovery {
  import opened JsText
  import opened Wrappers

  // ---- JSON texts (RFC 8259): every choice of white space and of escapes ------------------------------

  /** Section 7: a character of a string as it is written. */
  datatype Piece = Raw(c: char) | Escape(c: char) | Unicode(hex: string)

  datatype Value =
    | Literal(text: string)
    | Text(pieces: seq<Piece>)
    | Array(inner: string, items: seq<Item>)
    | Object(inner: string, members: seq<Member>)

  datatype Item = Item(before: string, value: Value, after: string)

  datatype Member = Member(before: string, name: seq<Piece>, colonBefore: string, item: Item)

  predicate JsonSpace(s: string) {
    forall c <- s :: c == ' ' || c == '\t' || c == '\n' || c == '\r'
  }

  predicate HexDigit(c: char) { '0' <= c <= '9' || 'a' <= c <= 'f' || 'A' <= c <= 'F' }

  predicate PieceOk(p: Piece) {
    match p
    case Raw(c) => c >= ' ' && c != '"' && c != '\\'
    case Escape(c) => c in "\"\\/bfnrt"
    case Unicode(hex) => |hex| == 4 && forall c <- hex :: HexDigit(c)
  }

  /** Numbers, true, false and null are written without quotes, brackets and braces. */
  predicate LiteralChar(c: char) {
    '0' <= c <= '9' || 'a' <= c <= 'z' || c == 'E' || c == '+' || c == '-' || c == '.'
  }

  predicate WellFormed(v: Value) {
    match v
    case Literal(text) => text != "" && forall c <- text :: LiteralChar(c)
    case Text(pieces) => forall p <- pieces :: PieceOk(p)
    case Array(inner, items) => JsonSpace(inner) && forall i <- items :: ItemOk(i)
    case Object(inner, members) => JsonSpace(inner) && forall m <- members :: MemberOk(m)
  }

  predicate ItemOk(i: Item) {
    JsonSpace(i.before) && WellFormed(i.value) && JsonSpace(i.after)
  }

  predicate MemberOk(m: Member) {
    && JsonSpace(m.before) && (forall p <- m.name :: PieceOk(p))
    && JsonSpace(m.colonBefore) && ItemOk(m.item)
  }

  function PrintPiece(p: Piece): string {
    match p
    case Raw(c) => [c]
    case Escape(c) => ['\\', c]
    case Unicode(hex) => "\\u" + hex
  }

  function PrintPieces(ps: seq<Piece>): string {
    if ps == [] then "" else PrintPiece(ps[0]) + PrintPieces(ps[1..])
  }

  function Quoted(ps: seq<Piece>): string { "\"" + PrintPieces(ps) + "\"" }

  function Print(v: Value): string {
    match v
    case Literal(text) => text
    case Text(pieces) => Quoted(pieces)
    case Array(inner, items) => "[" + (if items == [] then inner else PrintItems(items)) + "]"
    case Object(inner, members) => "{" + Body(inner, members) + "}"
  }

  function Body(inner: string, members: seq<Member>): string
    decreases members, 1
  {
    if members == [] then inner else PrintMembers(members)
  }

  function PrintItem(i: Item): string { i.before + Print(i.value) + i.after }

  function PrintItems(items: seq<Item>): string
    requires items != []
  {
    PrintItem(items[0]) + (if |items| == 1 then "" else "," + PrintItems(items[1..]))
  }

  function PrintMember(m: Member): string {
    m.before + Quoted(m.name) + m.colonBefore + ":" + PrintItem(m.item)
  }

  function PrintMembers(members: seq<Member>): string
    requires members != []
    decreases members, 0
  {
    PrintMember(members[0]) + (if |members| == 1 then "" else "," + PrintMembers(members[1..]))
  }

  // ---- The scanner --------------------------------------------------------------------------------------

  datatype State = State(depth: int, inString: bool, escapeNext: bool)

  function Out(depth: int): State { State(depth, false, false) }

  function In(depth: int): State { State(depth, true, false) }

  function Step(s: State, c: char): State {
    if s.escapeNext then s.(escapeNext := false)
    else if c == '\\' && s.inString then s.(escapeNext := true)
    else if c == '"' then s.(inString := !s.inString)
    else if s.inString then s
    else if c == '{' then s.(depth := s.depth + 1)
    else if c == '}' then s.(depth := s.depth - 1)
    else s
  }

  /** A brace outside strings that brings the depth back to 0. */
  predicate Closes(s: State, c: char) {
    !s.escapeNext && !s.inString && c == '}' && s.depth == 1
  }

  function Scan(s: State, text: string): State
    decreases |text|
  {
    if text == "" then s else Scan(Step(s, text[0]), text[1..])
  }

  /** The first position where the depth returns to 0. */
  function FirstClose(s: State, text: string): (i: Option<nat>)
    ensures i.Some? ==> i.value < |text|
    decreases |text|
  {
    if text == "" then None
    else if Closes(s, text[0]) then Some(0)
    else
      match FirstClose(Step(s, text[0]), text[1..])
      case None => None
      case Some(i) => Some(i + 1)
  }

  /** Scanning the text leads from s to t and never returns to depth 0 on the way. */
  predicate Passes(s: State, text: string, t: State) {
    FirstClose(s, text) == None && Scan(s, text) == t
  }

  lemma {:induction false} FirstCloseConcat(s: State, a: string, b: string)
    ensures Scan(s, a + b) == Scan(Scan(s, a), b)
    ensures FirstClose(s, a + b) ==
            match FirstClose(s, a)
            case Some(i) => Some(i)
            case None =>
              match FirstClose(Scan(s, a), b)
              case Some(j) => Some(|a| + j)
              case None => None
    decreases |a|
  {
    if a == "" {
      assert a + b == b;
    } else {
      assert (a + b)[1..] == a[1..] + b;
      FirstCloseConcat(Step(s, a[0]), a[1..], b);
    }
  }

  lemma Compose(s: State, a: string, t: State, b: string, u: State)
    requires Passes(s, a, t) && Passes(t, b, u)
    ensures Passes(s, a + b, u)
  {
    FirstCloseConcat(s, a, b);
  }

  lemma One(s: State, c: char)
    requires !Closes(s, c)
    ensures Passes(s, [c], Step(s, c))
  {
    assert [c][1..] == "";
  }

  // ---- Scanning a printed value --------------------------------------------------------------------------

  /** Characters that mean nothing outside strings. */
  predicate Plain(s: string) {
    forall c <- s :: c != '"' && c != '{' && c != '}'
  }

  lemma {:induction false} PlainPasses(d: int, s: string)
    requires Plain(s)
    ensures Passes(Out(d), s, Out(d))
  {
    if s != "" {
      assert s[0] in s && forall c <- s[1..] :: c in s;
      PlainPasses(d, s[1..]);
    }
  }

  lemma {:induction false} InsidePasses(d: int, s: string)
    requires forall c <- s :: c != '"' && c != '\\'
    ensures Passes(In(d), s, In(d))
  {
    if s != "" {
      assert s[0] in s && forall c <- s[1..] :: c in s;
      InsidePasses(d, s[1..]);
    }
  }

  lemma PiecePasses(d: int, p: Piece)
    requires PieceOk(p)
    ensures Passes(In(d), PrintPiece(p), In(d))
  {
    match p
    case Raw(c) => InsidePasses(d, [c]);
    case Escape(c) =>
      One(In(d), '\\');
      One(State(d, true, true), c);
      Compose(In(d), ['\\'], State(d, true, true), [c], In(d));
      assert ['\\'] + [c] == ['\\', c];
    case Unicode(hex) =>
      One(In(d), '\\');
      One(State(d, true, true), 'u');
      Compose(In(d), ['\\'], State(d, true, true), ['u'], In(d));
      assert ['\\'] + ['u'] == "\\u";
      InsidePasses(d, hex);
      Compose(In(d), "\\u", In(d), hex, In(d));
  }

  lemma {:induction false} PiecesPass(d: int, ps: seq<Piece>)
    requires forall p <- ps :: PieceOk(p)
    ensures Passes(In(d), PrintPieces(ps), In(d))
  {
    if ps != [] {
      PiecePasses(d, ps[0]);
      PiecesPass(d, ps[1..]);
      Compose(In(d), PrintPiece(ps[0]), In(d), PrintPieces(ps[1..]), In(d));
    }
  }

  /** Whatever braces, quotes and backslashes a string holds, the scanner leaves it at its end. */
  lemma QuotedPasses(d: int, ps: seq<Piece>)
    requires forall p <- ps :: PieceOk(p)
    ensures Passes(Out(d), Quoted(ps), Out(d))
  {
    One(Out(d), '"');
    PiecesPass(d, ps);
    One(In(d), '"');
    Compose(Out(d), "\"", In(d), PrintPieces(ps), In(d));
    Compose(Out(d), "\"" + PrintPieces(ps), In(d), "\"", Out(d));
  }

  lemma {:induction false} ValuePasses(d: int, v: Value)
    requires d >= 1 && WellFormed(v)
    ensures Passes(Out(d), Print(v), Out(d))
    decreases v, 0
  {
    match v
    case Literal(text) => PlainPasses(d, text);
    case Text(pieces) => QuotedPasses(d, pieces);
    case Array(inner, items) =>
      var body := if items == [] then inner else PrintItems(items);
      if items == [] {
        PlainPasses(d, inner);
      } else {
        ItemsPass(d, items);
      }
      One(Out(d), '[');
      Compose(Out(d), "[", Out(d), body, Out(d));
      One(Out(d), ']');
      Compose(Out(d), "[" + body, Out(d), "]", Out(d));
    case Object(inner, members) =>
      OpenObject(d, v);
      One(Out(d + 1), '}');
      Compose(Out(d), "{" + Body(inner, members), Out(d + 1), "}", Out(d));
  }

  /** An object up to, but not including, its last brace. */
  lemma {:induction false} OpenObject(d: int, v: Value)
    requires d >= 0 && WellFormed(v) && v.Object?
    ensures Passes(Out(d), "{" + Body(v.inner, v.members), Out(d + 1))
    decreases v, 0, 0
  {
    if v.members == [] {
      PlainPasses(d + 1, v.inner);
    } else {
      MembersPass(d + 1, v.members);
    }
    One(Out(d), '{');
    Compose(Out(d), "{", Out(d + 1), Body(v.inner, v.members), Out(d + 1));
  }

  lemma {:induction false} ItemPasses(d: int, i: Item)
    requires d >= 1 && ItemOk(i)
    ensures Passes(Out(d), PrintItem(i), Out(d))
    decreases i, 0
  {
    PlainPasses(d, i.before);
    ValuePasses(d, i.value);
    PlainPasses(d, i.after);
    Compose(Out(d), i.before, Out(d), Print(i.value), Out(d));
    Compose(Out(d), i.before + Print(i.value), Out(d), i.after, Out(d));
  }

  lemma {:induction false} ItemsPass(d: int, items: seq<Item>)
    requires d >= 1 && items != [] && forall i <- items :: ItemOk(i)
    ensures Passes(Out(d), PrintItems(items), Out(d))
    decreases items
  {
    ItemPasses(d, items[0]);
    if |items| > 1 {
      ItemsPass(d, items[1..]);
      One(Out(d), ',');
      Compose(Out(d), ",", Out(d), PrintItems(items[1..]), Out(d));
      Compose(Out(d), PrintItem(items[0]), Out(d), "," + PrintItems(items[1..]), Out(d));
    } else {
      assert PrintItems(items) == PrintItem(items[0]);
    }
  }

  lemma {:induction false} MemberPasses(d: int, m: Member)
    requires d >= 1 && MemberOk(m)
    ensures Passes(Out(d), PrintMember(m), Out(d))
    decreases m, 0
  {
    PlainPasses(d, m.before);
    QuotedPasses(d, m.name);
    PlainPasses(d, m.colonBefore);
    One(Out(d), ':');
    ItemPasses(d, m.item);
    Compose(Out(d), m.before, Out(d), Quoted(m.name), Out(d));
    Compose(Out(d), m.before + Quoted(m.name), Out(d), m.colonBefore, Out(d));
    Compose(Out(d), m.before + Quoted(m.name) + m.colonBefore, Out(d), ":", Out(d));
    Compose(Out(d), m.before + Quoted(m.name) + m.colonBefore + ":", Out(d), PrintItem(m.item), Out(d));
  }

  lemma {:induction false} MembersPass(d: int, members: seq<Member>)
    requires d >= 1 && members != [] && forall m <- members :: MemberOk(m)
    ensures Passes(Out(d), PrintMembers(members), Out(d))
    decreases members
  {
    MemberPasses(d, members[0]);
    if |members| > 1 {
      MembersPass(d, members[1..]);
      One(Out(d), ',');
      Compose(Out(d), ",", Out(d), PrintMembers(members[1..]), Out(d));
      Compose(Out(d), PrintMember(members[0]), Out(d), "," + PrintMembers(members[1..]), Out(d));
    } else {
      assert PrintMembers(members) == PrintMember(members[0]);
    }
  }

  /** Scanning a printed object, whatever follows it, first returns to depth 0 exactly at the last
      character of the object. */
  lemma FirstObjectEnds(o: Value, rest: string)
    requires o.Object? && WellFormed(o)
    ensures FirstClose(Out(0), Print(o) + rest) == Some(|Print(o)| - 1)
  {
    var open := "{" + Body(o.inner, o.members);
    OpenObject(0, o);
    assert Closes(Out(1), '}');
    assert FirstClose(Out(1), "}" + rest) == Some(0);
    FirstCloseConcat(Out(0), open, "}" + rest);
    assert Print(o) + rest == open + ("}" + rest);
  }

  // ---- Scanning any text ----------------------------------------------------------------------------------

  /** A character outside strings, or a string: any characters, those behind a backslash escaped. */
  datatype Token = Mark(c: char) | Quote(inside: seq<Inside>)

  datatype Inside = Bare(c: char) | Escaped(c: char)

  predicate TokenOk(t: Token) {
    match t
    case Mark(c) => c != '"'
    case Quote(inside) => InsideOk(inside)
  }

  predicate InsideOk(inside: seq<Inside>) {
    forall x <- inside :: x.Bare? ==> x.c != '"' && x.c != '\\'
  }

  function SpelledInside(inside: seq<Inside>): string {
    if inside == [] then ""
    else (if inside[0].Escaped? then ['\\', inside[0].c] else [inside[0].c]) + SpelledInside(inside[1..])
  }

  function SpelledToken(t: Token): string {
    match t
    case Mark(c) => [c]
    case Quote(inside) => "\"" + SpelledInside(inside) + "\""
  }

  function Spelled(ts: seq<Token>): string {
    if ts == [] then "" else SpelledToken(ts[0]) + Spelled(ts[1..])
  }

  function Change(t: Token): int { if t == Mark('{') then 1 else if t == Mark('}') then -1 else 0 }

  /** Opening braces less closing braces, outside strings. */
  function Depth(ts: seq<Token>): int {
    if ts == [] then 0 else Change(ts[0]) + Depth(ts[1..])
  }

  /** From this depth, no closing brace outside strings brings it back to 0. */
  predicate StaysOpen(d: int, ts: seq<Token>)
    decreases |ts|
  {
    ts != [] ==> !(ts[0] == Mark('}') && d == 1) && StaysOpen(d + Change(ts[0]), ts[1..])
  }

  lemma {:induction false} InsideScanned(d: int, inside: seq<Inside>)
    requires InsideOk(inside)
    ensures Passes(In(d), SpelledInside(inside), In(d))
  {
    if inside != [] {
      assert inside[0] in inside && forall x <- inside[1..] :: x in inside;
      InsideScanned(d, inside[1..]);
      var c := inside[0].c;
      if inside[0].Escaped? {
        One(In(d), '\\');
        One(State(d, true, true), c);
        Compose(In(d), ['\\'], State(d, true, true), [c], In(d));
        assert ['\\'] + [c] == ['\\', c];
        Compose(In(d), ['\\', c], In(d), SpelledInside(inside[1..]), In(d));
      } else {
        One(In(d), c);
        Compose(In(d), [c], In(d), SpelledInside(inside[1..]), In(d));
      }
    }
  }

  lemma TokenScanned(d: int, t: Token)
    requires TokenOk(t) && !(t == Mark('}') && d == 1)
    ensures Passes(Out(d), SpelledToken(t), Out(d + Change(t)))
  {
    match t
    case Mark(c) => One(Out(d), c);
    case Quote(inside) =>
      One(Out(d), '"');
      InsideScanned(d, inside);
      One(In(d), '"');
      Compose(Out(d), "\"", In(d), SpelledInside(inside), In(d));
      Compose(Out(d), "\"" + SpelledInside(inside), In(d), "\"", Out(d));
  }

  /** In every text, however malformed, the scanner counts the braces outside strings. */
  lemma {:induction false} TokensScanned(d: int, ts: seq<Token>)
    requires (forall t <- ts :: TokenOk(t)) && StaysOpen(d, ts)
    ensures Passes(Out(d), Spelled(ts), Out(d + Depth(ts)))
    decreases |ts|
  {
    if ts != [] {
      assert ts[0] in ts && forall t <- ts[1..] :: t in ts;
      var e := d + Change(ts[0]);
      TokenScanned(d, ts[0]);
      TokensScanned(e, ts[1..]);
      Compose(Out(d), SpelledToken(ts[0]), Out(e), Spelled(ts[1..]), Out(e + Depth(ts[1..])));
    }
  }

  /** It stops at the first closing brace outside strings that brings the depth back to 0. */
  lemma FirstReturn(ts: seq<Token>, rest: string)
    requires (forall t <- ts :: TokenOk(t)) && StaysOpen(0, ts) && Depth(ts) == 1
    ensures FirstClose(Out(0), Spelled(ts) + "}" + rest) == Some(|Spelled(ts)|)
  {
    TokensScanned(0, ts);
    assert FirstClose(Out(1), "}" + rest) == Some(0);
    FirstCloseConcat(Out(0), Spelled(ts), "}" + rest);
    assert Spelled(ts) + "}" + rest == Spelled(ts) + ("}" + rest);
  }

  /** And nowhere when there is none, also when the text ends inside a string. */
  lemma NoReturn(ts: seq<Token>, open: bool, inside: seq<Inside>, backslash: bool)
    requires (forall t <- ts :: TokenOk(t)) && StaysOpen(0, ts) && InsideOk(inside)
    ensures FirstClose(Out(0), Spelled(ts) + Unfinished(open, inside, backslash)) == None
  {
    TokensScanned(0, ts);
    var d := Depth(ts);
    FirstCloseConcat(Out(0), Spelled(ts), Unfinished(open, inside, backslash));
    if open {
      var text := "\"" + SpelledInside(inside);
      One(Out(d), '"');
      InsideScanned(d, inside);
      Compose(Out(d), "\"", In(d), SpelledInside(inside), In(d));
      One(In(d), '\\');
      Compose(Out(d), text, In(d), ['\\'], State(d, true, true));
      assert text + "" == text;
    }
  }

  /** A string without its end. */
  function Unfinished(open: bool, inside: seq<Inside>, backslash: bool): string {
    if open then "\"" + SpelledInside(inside) + (if backslash then "\\" else "") else ""
  }

  // ---- The two copies of the loop --------------------------------------------------------------------------

  /** `s.includes('}{')`. */
  predicate HasBracePair(s: string) {
    exists i | 0 <= i < |s| - 1 :: s[i] == '}' && s[i + 1] == '{'
  }

  lemma BracePairIff(s: string)
    ensures HasBracePair(s) <==> exists a, b :: s == a + "}{" + b
  {
    if HasBracePair(s) {
      var i :| 0 <= i < |s| - 1 && s[i] == '}' && s[i + 1] == '{';
      assert s == s[..i] + "}{" + s[i + 2..];
    }
    if a, b :| s == a + "}{" + b {
      assert s[|a|] == '}' && s[|a| + 1] == '{';
    }
  }

  /** What both copies extract: the text up to the first return to depth 0 if it is JSON, else the
      text behind it if that is. */
  function Extract(valid: string -> bool, content: string): Option<string> {
    if !HasBracePair(content) then None
    else
      match FirstClose(Out(0), content)
      case None => None
      case Some(i) =>
        if valid(content[..i + 1]) then Some(content[..i + 1])
        else if valid(content[i + 1..]) then Some(content[i + 1..])
        else None
  }

  function Parses<T>(parse: string -> Option<T>): (valid: string -> bool)
    ensures forall s :: valid(s) <==> parse(s).Some?
  {
    s => parse(s).Some?
  }

  /** The value that an extracted text stands for. */
  function Recovered<T>(parse: string -> Option<T>, content: string): Option<T> {
    match Extract(Parses(parse), content)
    case None => None
    case Some(text) => parse(text)
  }

  /** The first i characters lead to this state without a return to depth 0. */
  ghost predicate ScannedTo(text: string, i: nat, st: State)
    requires i <= |text|
  {
    FirstClose(Out(0), text) == Shift(i, FirstClose(st, text[i..]))
  }

  function Shift(i: nat, found: Option<nat>): Option<nat> {
    match found
    case None => None
    case Some(j) => Some(i + j)
  }

  lemma ScannedNone(text: string)
    ensures ScannedTo(text, 0, Out(0))
  {
    assert text[0..] == text;
  }

  lemma ScannedOne(text: string, i: nat, st: State)
    requires i < |text| && ScannedTo(text, i, st)
    ensures if Closes(st, text[i]) then FirstClose(Out(0), text) == Some(i)
            else ScannedTo(text, i + 1, Step(st, text[i]))
  {
    Dropped(text, i);
    ScannedStep(FirstClose(Out(0), text), i, st, text[i..]);
  }

  lemma ScannedStep(close: Option<nat>, i: nat, st: State, rest: string)
    requires rest != "" && close == Shift(i, FirstClose(st, rest))
    ensures close == if Closes(st, rest[0]) then Some(i) else Shift(i + 1, FirstClose(Step(st, rest[0]), rest[1..]))
  {
    FirstCloseStep(st, rest);
  }

  lemma Dropped(text: string, i: nat)
    requires i < |text|
    ensures text[i..] != "" && text[i..][0] == text[i] && text[i..][1..] == text[i + 1..]
  {}

  lemma FirstCloseStep(st: State, text: string)
    requires text != ""
    ensures FirstClose(st, text) ==
            if Closes(st, text[0]) then Some(0)
            else
              match FirstClose(Step(st, text[0]), text[1..])
              case None => None
              case Some(i) => Some(i + 1)
  {}

  /** The state after i characters. */
  function StateAt(text: string, i: nat): State
    requires i <= |text|
  {
    if i == 0 then Out(0) else Step(StateAt(text, i - 1), text[i - 1])
  }

  /** None of the first i characters returns to depth 0. */
  predicate OpenUpTo(text: string, i: nat)
    requires i <= |text|
  {
    i == 0 || (OpenUpTo(text, i - 1) && !Closes(StateAt(text, i - 1), text[i - 1]))
  }

  lemma {:induction false} OpenScanned(text: string, i: nat)
    requires i <= |text| && OpenUpTo(text, i)
    ensures ScannedTo(text, i, StateAt(text, i))
  {
    if i == 0 {
      ScannedNone(text);
    } else {
      OpenScanned(text, i - 1);
      ScannedOne(text, i - 1, StateAt(text, i - 1));
    }
  }

  lemma NeverClosed(text: string)
    requires OpenUpTo(text, |text|)
    ensures FirstClose(Out(0), text) == None
  {
    OpenScanned(text, |text|);
  }

  lemma ClosedAt(text: string, i: nat)
    requires i < |text| && OpenUpTo(text, i) && Closes(StateAt(text, i), text[i])
    ensures FirstClose(Out(0), text) == Some(i)
  {
    OpenScanned(text, i);
    ScannedOne(text, i, StateAt(text, i));
  }

  /** The loop of cli/index.ts; `parse` is `JSON.parse`, `None` when it throws. */
  method AttemptJsonRecovery<T>(content: string, parse: string -> Option<T>) returns (r: Option<T>)
    ensures r == Recovered(parse, Trim(content))
    ensures !(exists a, b :: Trim(content) == a + "}{" + b) ==> r == None
  {
    BracePairIff(Trim(content));
    r := RecoverTrimmed(Trim(content), parse);
  }

  method RecoverTrimmed<T>(trimmed: string, parse: string -> Option<T>) returns (r: Option<T>)
    ensures r == Recovered(parse, trimmed)
  {
    if HasBracePair(trimmed) {
      var depth, inString, escapeNext := 0, false, false;
      for i := 0 to |trimmed|
        invariant OpenUpTo(trimmed, i) && State(depth, inString, escapeNext) == StateAt(trimmed, i)
      {
        var c := trimmed[i];
        if escapeNext {
          escapeNext := false;
        } else if c == '\\' && inString {
          escapeNext := true;
        } else if c == '"' {
          inString := !inString;
        } else if inString {
        } else if c == '{' {
          depth := depth + 1;
        } else if c == '}' {
          depth := depth - 1;
          if depth == 0 {
            ClosedAt(trimmed, i);
            var first := parse(trimmed[..i + 1]);
            return if first.Some? then first else parse(trimmed[i + 1..]);
          }
        }
      }
      NeverClosed(trimmed);
    }
    r := None;
  }

  /** The loop of cli/claude-session.ts: what it writes back to the configuration file, if anything.
      It does not trim. */
  method RecoverConfig(content: string, valid: string -> bool) returns (written: Option<string>)
    ensures written == Extract(valid, content)
    ensures !(exists a, b :: content == a + "}{" + b) ==> written == None
  {
    BracePairIff(content);
    if HasBracePair(content) {
      var depth, inString, escapeNext := 0, false, false;
      for i := 0 to |content|
        invariant OpenUpTo(content, i) && State(depth, inString, escapeNext) == StateAt(content, i)
      {
        var c := content[i];
        if escapeNext {
          escapeNext := false;
        } else if c == '\\' && inString {
          escapeNext := true;
        } else if c == '"' {
          inString := !inString;
        } else if inString {
        } else if c == '{' {
          depth := depth + 1;
        } else if c == '}' {
          depth := depth - 1;
          if depth == 0 {
            ClosedAt(content, i);
            if valid(content[..i + 1]) {
              return Some(content[..i + 1]);
            }
            return if valid(content[i + 1..]) then Some(content[i + 1..]) else None;
          }
        }
      }
      NeverClosed(content);
    }
    written := None;
  }

  lemma PrintEnds(o: Value)
    requires o.Object?
    ensures |Print(o)| >= 2 && Print(o)[0] == '{' && Print(o)[|Print(o)| - 1] == '}'
  {}

  /** Main theorem: an object followed by any text that starts with a brace is recovered, whatever
      its strings contain. */
  lemma FirstObjectRecovered(o: Value, rest: string, valid: string -> bool)
    requires o.Object? && WellFormed(o) && valid(Print(o))
    requires rest != "" && rest[0] == '{'
    ensures Extract(valid, Print(o) + rest) == Some(Print(o))
  {
    var content, n := Print(o) + rest, |Print(o)|;
    PrintEnds(o);
    FirstObjectEnds(o, rest);
    assert content[n - 1] == '}' && content[n] == '{';
    assert content[..n] == Print(o);
  }

  lemma TrimPrefix(first: string, rest: string) returns (t: string)
    requires rest != "" && !Space(rest[0])
    ensures TrimEnd(first + rest) == first + t && t != "" && t[0] == rest[0]
  {
    var s := first + rest;
    var end := TrimEnd(s);
    t := end[|first|..];
    assert end == s[..|end|];
    assert s[..|first|] == first && end == first + t;
    assert t[0] == s[|first|];
  }

  /** The same for the copy that trims first, with any white space around. */
  lemma FirstObjectRecoveredTrimmed(lead: string, o: Value, rest: string, valid: string -> bool)
    requires o.Object? && WellFormed(o) && valid(Print(o))
    requires rest != "" && rest[0] == '{' && forall c <- lead :: Space(c)
    ensures Extract(valid, Trim(lead + Print(o) + rest)) == Some(Print(o))
  {
    PrintEnds(o);
    var t := TrimAround(lead, Print(o), rest);
    FirstObjectRecovered(o, t, valid);
  }

  lemma TrimAround(lead: string, first: string, rest: string) returns (t: string)
    requires (forall c <- lead :: Space(c)) && first != "" && !Space(first[0]) && rest != "" && !Space(rest[0])
    ensures Trim(lead + first + rest) == first + t && t != "" && t[0] == rest[0]
  {
    TrimStartSkips(lead, first + rest);
    Associative(lead, first, rest);
    TrimStartStays(first, rest);
    t := TrimPrefix(first, rest);
  }

  lemma Associative(a: string, b: string, c: string)
    ensures a + b + c == a + (b + c)
  {}

  lemma TrimStartStays(first: string, rest: string)
    requires first != "" && !Space(first[0])
    ensures TrimStart(first + rest) == first + rest
  {
    assert (first + rest)[0] == first[0];
  }

  lemma {:induction false} TrimStartSkips(lead: string, s: string)
    requires forall c <- lead :: Space(c)
    ensures TrimStart(lead + s) == TrimStart(s)
  {
    if lead == "" {
      assert lead + s == s;
    } else {
      assert (lead + s)[0] == lead[0] && lead[0] in lead;
      assert (lead + s)[1..] == lead[1..] + s;
      assert forall c <- lead[1..] :: c in lead;
      TrimStartSkips(lead[1..], s);
    }
  }

  // ---- The copies agree -------------------------------------------------------------------------------------

  /** `JSON.parse` skips the white space of RFC 8259 around a text. */
  ghost predicate SkipsSpace<T(!new)>(parse: string -> Option<T>) {
    forall s, ws :: SkipsAround(parse, s, ws)
  }

  predicate SkipsAround<T(==)>(parse: string -> Option<T>, s: string, ws: string) {
    JsonSpace(ws) ==> parse(ws + s) == parse(s) && parse(s + ws) == parse(s)
  }

  /** And it rejects a text with other white space at an end. */
  ghost predicate RejectsForeign<T(!new)>(parse: string -> Option<T>) {
    forall s :: Rejected(parse, s)
  }

  predicate Foreign(c: char) { Space(c) && c !in " \t\n\r" }

  predicate Rejected<T>(parse: string -> Option<T>, s: string) {
    s != "" && (Foreign(s[0]) || Foreign(s[|s| - 1])) ==> parse(s).None?
  }

  lemma FirstCloseAround(lead: string, core: string, trail: string)
    requires Plain(lead) && Plain(trail)
    ensures FirstClose(Out(0), lead + core + trail) ==
            match FirstClose(Out(0), core)
            case None => None
            case Some(i) => Some(|lead| + i)
  {
    PlainPasses(0, lead);
    FirstCloseConcat(Out(0), lead, core + trail);
    FirstCloseConcat(Out(0), core, trail);
    NeverCloses(Scan(Out(0), core), trail);
    assert lead + core + trail == lead + (core + trail);
  }

  lemma {:induction false} NeverCloses(s: State, text: string)
    requires Plain(text)
    ensures FirstClose(s, text) == None
    decreases |text|
  {
    if text != "" {
      assert text[0] in text && forall c <- text[1..] :: c in text;
      NeverCloses(Step(s, text[0]), text[1..]);
    }
  }

  lemma BracePairAround(lead: string, core: string, trail: string)
    requires Plain(lead) && Plain(trail)
    ensures HasBracePair(lead + core + trail) <==> HasBracePair(core)
  {
    var s, n := lead + core + trail, |lead|;
    if HasBracePair(core) {
      var i :| 0 <= i < |core| - 1 && core[i] == '}' && core[i + 1] == '{';
      assert s[n + i] == '}' && s[n + i + 1] == '{';
    }
    if HasBracePair(s) {
      var i :| 0 <= i < |s| - 1 && s[i] == '}' && s[i + 1] == '{';
      assert s[i] in lead || i >= n;
      assert s[i + 1] in trail || i + 1 < n + |core|;
      assert core[i - n] == '}' && core[i - n + 1] == '{';
    }
  }

  lemma {:induction false} LeadParsed<T(!new)>(parse: string -> Option<T>, lead: string, s: string)
    requires SkipsSpace(parse) && RejectsForeign(parse) && forall c <- lead :: Space(c)
    ensures parse(lead + s) == if JsonSpace(lead) then parse(s) else None
  {
    if lead == "" {
      assert lead + s == s;
    } else {
      var c, more := [lead[0]], lead[1..];
      assert lead == c + more && lead[0] in lead && forall d <- more :: d in lead;
      JsonSpaceConcat(c, more);
      Associative(c, more, s);
      LeadParsed(parse, more, s);
      assert SkipsAround(parse, more + s, c);
      assert Rejected(parse, lead + s);
    }
  }

  lemma {:induction false} TrailParsed<T(!new)>(parse: string -> Option<T>, s: string, trail: string)
    requires SkipsSpace(parse) && RejectsForeign(parse) && forall c <- trail :: Space(c)
    ensures parse(s + trail) == if JsonSpace(trail) then parse(s) else None
  {
    if trail == "" {
      assert s + trail == s;
    } else {
      var n := |trail| - 1;
      var c, more := [trail[n]], trail[..n];
      assert trail == more + c && trail[n] in trail && forall d <- more :: d in trail;
      JsonSpaceConcat(more, c);
      Associative(s, more, c);
      TrailParsed(parse, s, more);
      assert SkipsAround(parse, s + more, c);
      assert Rejected(parse, s + trail);
    }
  }

  lemma JsonSpaceConcat(a: string, b: string)
    ensures JsonSpace(a + b) <==> JsonSpace(a) && JsonSpace(b)
  {
    assert forall c :: c in a + b <==> c in a || c in b;
  }

  /** What is recovered from a text with white space around it, in terms of the text without it. */
  lemma RecoveredAround<T(!new)>(parse: string -> Option<T>, lead: string, core: string, trail: string)
    requires SkipsSpace(parse) && RejectsForeign(parse)
    requires (forall c <- lead :: Space(c)) && forall c <- trail :: Space(c)
    ensures Recovered(parse, lead + core + trail) ==
            if !HasBracePair(core) then None
            else
              match FirstClose(Out(0), core)
              case None => None
              case Some(i) =>
                if JsonSpace(lead) && parse(core[..i + 1]).Some? then parse(core[..i + 1])
                else if JsonSpace(trail) then parse(core[i + 1..])
                else None
  {
    var close := FirstClose(Out(0), core);
    if HasBracePair(core) && close.Some? {
      RecoveredAroundAt(parse, lead, core, trail, close.value);
    } else {
      SpaceIsPlain(lead);
      SpaceIsPlain(trail);
      FirstCloseAround(lead, core, trail);
      BracePairAround(lead, core, trail);
      RecoveredNone(parse, lead + core + trail);
    }
  }

  lemma RecoveredAroundAt<T(!new)>(parse: string -> Option<T>, lead: string, core: string, trail: string, i: nat)
    requires SkipsSpace(parse) && RejectsForeign(parse)
    requires (forall c <- lead :: Space(c)) && forall c <- trail :: Space(c)
    requires HasBracePair(core) && FirstClose(Out(0), core) == Some(i)
    ensures Recovered(parse, lead + core + trail) ==
            if JsonSpace(lead) && parse(core[..i + 1]).Some? then parse(core[..i + 1])
            else if JsonSpace(trail) then parse(core[i + 1..])
            else None
  {
    PartsParsed(parse, lead, core, trail, i + 1);
    RecoveredParts(parse, lead, core, trail, lead + core + trail, i,
                   if JsonSpace(lead) then parse(core[..i + 1]) else None,
                   if JsonSpace(trail) then parse(core[i + 1..]) else None);
  }

  lemma RecoveredParts<T>(parse: string -> Option<T>, lead: string, core: string, trail: string, s: string, i: nat,
                          first: Option<T>, second: Option<T>)
    requires (forall c <- lead :: Space(c)) && forall c <- trail :: Space(c)
    requires HasBracePair(core) && FirstClose(Out(0), core) == Some(i)
    requires s == lead + core + trail
    requires parse(s[..|lead| + (i + 1)]) == first && parse(s[|lead| + (i + 1)..]) == second
    ensures Recovered(parse, s) == if first.Some? then first else second
  {
    SpaceIsPlain(lead);
    SpaceIsPlain(trail);
    ClosedAround(lead, core, trail, i);
    RecoveredAt(parse, s, |lead| + i, first, second);
  }

  lemma SpaceIsPlain(s: string)
    requires forall c <- s :: Space(c)
    ensures Plain(s)
  {}

  lemma ClosedAround(lead: string, core: string, trail: string, i: nat)
    requires Plain(lead) && Plain(trail)
    requires HasBracePair(core) && FirstClose(Out(0), core) == Some(i)
    ensures HasBracePair(lead + core + trail) && FirstClose(Out(0), lead + core + trail) == Some(|lead| + i)
  {
    FirstCloseAround(lead, core, trail);
    BracePairAround(lead, core, trail);
  }

  lemma PartsParsed<T(!new)>(parse: string -> Option<T>, lead: string, core: string, trail: string, i: nat)
    requires SkipsSpace(parse) && RejectsForeign(parse) && i <= |core|
    requires (forall c <- lead :: Space(c)) && forall c <- trail :: Space(c)
    ensures parse((lead + core + trail)[..|lead| + i]) == if JsonSpace(lead) then parse(core[..i]) else None
    ensures parse((lead + core + trail)[|lead| + i..]) == if JsonSpace(trail) then parse(core[i..]) else None
  {
    Cut(lead, core, trail, i);
    LeadParsed(parse, lead, core[..i]);
    TrailParsed(parse, core[i..], trail);
  }

  lemma RecoveredNone<T>(parse: string -> Option<T>, s: string)
    requires !HasBracePair(s) || FirstClose(Out(0), s).None?
    ensures Recovered(parse, s).None?
  {}

  lemma RecoveredAt<T>(parse: string -> Option<T>, s: string, i: nat, first: Option<T>, second: Option<T>)
    requires HasBracePair(s) && FirstClose(Out(0), s) == Some(i) && i < |s|
    requires parse(s[..i + 1]) == first && parse(s[i + 1..]) == second
    ensures Recovered(parse, s) == if first.Some? then first else second
  {}

  lemma Cut(lead: string, core: string, trail: string, i: nat)
    requires i <= |core|
    ensures (lead + core + trail)[..|lead| + i] == lead + core[..i]
    ensures (lead + core + trail)[|lead| + i..] == core[i..] + trail
  {}

  /** The white space that `trim` removes in front and behind. */
  function Lead(content: string): string { content[..|content| - |TrimStart(content)|] }

  function Trail(content: string): string { TrimStart(content)[|Trim(content)|..] }

  /** When both copies recover the same value: a file without a brace pair or without a first object
      gives nothing in both; else the white space in front has to be that of JSON where the first
      object parses, and that behind where the rest is needed. */
  predicate Agree<T(==)>(parse: string -> Option<T>, lead: string, core: string, trail: string) {
    var close := FirstClose(Out(0), core);
    HasBracePair(core) && close.Some? ==>
      var first, second := parse(core[..close.value + 1]), parse(core[close.value + 1..]);
      if first.Some?
      then JsonSpace(lead) || (JsonSpace(trail) && second == first)
      else JsonSpace(trail) || second.None?
  }

  lemma AgreeAround<T(!new)>(parse: string -> Option<T>, lead: string, core: string, trail: string)
    requires SkipsSpace(parse) && RejectsForeign(parse)
    requires (forall c <- lead :: Space(c)) && forall c <- trail :: Space(c)
    ensures Recovered(parse, lead + core + trail) == Recovered(parse, core) <==> Agree(parse, lead, core, trail)
  {
    RecoveredAround(parse, lead, core, trail);
    var close := FirstClose(Out(0), core);
    if close.Some? && HasBracePair(core) {
      RecoveredAt(parse, core, close.value, parse(core[..close.value + 1]), parse(core[close.value + 1..]));
    }
  }

  lemma CopiesAgreeIff<T(!new)>(parse: string -> Option<T>, content: string)
    requires SkipsSpace(parse) && RejectsForeign(parse)
    ensures Recovered(parse, content) == Recovered(parse, Trim(content))
            <==> Agree(parse, Lead(content), Trim(content), Trail(content))
  {
    TrimSplits(content);
    AgreeAround(parse, Lead(content), Trim(content), Trail(content));
  }

  /** So they agree when the white space around the file is that of RFC 8259. */
  lemma CopiesAgree<T(!new)>(parse: string -> Option<T>, content: string)
    requires SkipsSpace(parse) && RejectsForeign(parse)
    requires JsonSpace(Lead(content)) && JsonSpace(Trail(content))
    ensures Recovered(parse, content) == Recovered(parse, Trim(content))
  {
    CopiesAgreeIff(parse, content);
  }

  /** They do not agree on two objects behind a byte order mark: one recovers the first object, and
      the other fails on it, because of the mark, and writes back the second. */
  lemma MarkedFileDisagrees(o: Value, p: Value, valid: string -> bool)
    requires o.Object? && WellFormed(o) && p.Object? && WellFormed(p)
    requires valid(Print(o)) && valid(Print(p)) && !valid("\U{FEFF}" + Print(o))
    ensures Extract(valid, Trim("\U{FEFF}" + Print(o) + Print(p))) == Some(Print(o))
    ensures Extract(valid, "\U{FEFF}" + Print(o) + Print(p)) == Some(Print(p))
  {
    MarkIsSpace();
    PrintEnds(p);
    FirstObjectRecoveredTrimmed("\U{FEFF}", o, Print(p), valid);
    SecondBehindMark("\U{FEFF}", o, Print(p), valid);
  }

  lemma MarkIsSpace()
    ensures forall c <- "\U{FEFF}" :: Space(c)
    ensures Plain("\U{FEFF}")
  {}

  lemma SecondBehindMark(mark: string, o: Value, rest: string, valid: string -> bool)
    requires o.Object? && WellFormed(o) && Plain(mark) && rest != "" && rest[0] == '{'
    requires valid(rest) && !valid(mark + Print(o))
    ensures Extract(valid, mark + Print(o) + rest) == Some(rest)
  {
    PrintEnds(o);
    FirstObjectEnds(o, rest);
    CloseBehindMark(mark, Print(o) + rest);
    Associative(mark, Print(o), rest);
    SecondExtracted(valid, mark + Print(o), rest);
  }

  lemma CloseBehindMark(mark: string, s: string)
    requires Plain(mark)
    ensures FirstClose(Out(0), mark + s) == Shift(|mark|, FirstClose(Out(0), s))
  {
    PlainPasses(0, mark);
    FirstCloseConcat(Out(0), mark, s);
  }

  lemma SecondExtracted(valid: string -> bool, first: string, rest: string)
    requires first != "" && first[|first| - 1] == '}' && rest != "" && rest[0] == '{'
    requires FirstClose(Out(0), first + rest) == Some(|first| - 1) && !valid(first) && valid(rest)
    ensures Extract(valid, first + rest) == Some(rest)
  {
    var s, n := first + rest, |first|;
    assert s[n - 1] == '}' && s[n] == '{';
    assert s[..n] == first && s[n..] == rest;
  }

  lemma TrimSplits(content: string)
    ensures content == Lead(content) + Trim(content) + Trail(content)
    ensures forall c <- Lead(content) :: Space(c)
    ensures forall c <- Trail(content) :: Space(c)
  {
    var start := TrimStart(content);
    Split(content, |content| - |start|);
    Split(start, |TrimEnd(start)|);
    Associative(Lead(content), Trim(content), Trail(content));
  }

  lemma Split(s: string, k: nat)
    requires k <= |s|
    ensures s == s[..k] + s[k..]
  {}
}
