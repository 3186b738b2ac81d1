/** Strings as JavaScript reads them. */
module JsText {
  /** White space and line terminators: `\s` of a regular expression, and what `trim` removes. */
  predicate Space(c: char) {
    || '\t' <= c <= '\r' || c == ' ' || c == '\U{A0}' || c == '\U{1680}' || '\U{2000}' <= c <= '\U{200A}'
    || c == '\U{2028}' || c == '\U{2029}' || c == '\U{202F}' || c == '\U{205F}' || c == '\U{3000}' || c == '\U{FEFF}'
  }

  /** One by one: tab to carriage return, space, no-break space, Ogham space, the spaces from U+2000, the two
      separators, narrow no-break, mathematical and ideographic space, and the byte order mark. */
  lemma SpaceCodes(c: char)
    ensures Space(c) <==>
            (c as int) in {0x09, 0x0A, 0x0B, 0x0C, 0x0D, 0x20, 0xA0, 0x1680, 0x2000, 0x2001, 0x2002, 0x2003, 0x2004, 0x2005,
                           0x2006, 0x2007, 0x2008, 0x2009, 0x200A, 0x2028, 0x2029, 0x202F, 0x205F, 0x3000, 0xFEFF}
  {}

  function TrimStart(s: string): (t: string)
    ensures |t| <= |s| && t == s[|s| - |t|..]
    ensures forall i | 0 <= i < |s| - |t| :: Space(s[i])
    ensures t != "" ==> !Space(t[0])
  {
    if s == "" || !Space(s[0]) then s
    else
      var t := TrimStart(s[1..]);
      assert s[1..][|s| - 1 - |t|..] == s[|s| - |t|..];
      t
  }

  function TrimEnd(s: string): (t: string)
    ensures |t| <= |s| && t == s[..|t|]
    ensures forall i | |t| <= i < |s| :: Space(s[i])
    ensures t != "" ==> !Space(t[|t| - 1])
  {
    if s == "" || !Space(s[|s| - 1]) then s
    else
      var t := TrimEnd(s[..|s| - 1]);
      assert s[..|s| - 1][..|t|] == s[..|t|];
      t
  }

  /** `s.trim()`. */
  function Trim(s: string): (t: string)
    ensures t != "" ==> !Space(t[0]) && !Space(t[|t| - 1])
  {
    TrimEnd(TrimStart(s))
  }
}
