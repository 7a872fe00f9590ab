/** Character and string helpers with JavaScript's meaning: `trim` (over
    the full ECMAScript white-space set), `toLowerCase` and `toUpperCase` (on
    ASCII letters), `includes`, the capitalisation
    `s.charAt(0).toUpperCase() + s.slice(1)`, and the first one or two fields
    of `split`. */
module Text {
  import opened Wrappers

  /** The characters `trim()`, `parseInt` and `parseFloat` skip: the
      ECMAScript WhiteSpace set (tab, vertical tab, form feed, space,
      no-break space, the byte-order mark and the other space separators of
      category Zs) and the LineTerminator set (line feed, carriage return,
      line separator, paragraph separator). */
  predicate IsSpace(c: char)
  {
    c == '\t' || c == '\U{000B}' || c == '\U{000C}' || c == ' ' || c == '\U{00A0}' || c == '\U{FEFF}'
    || c == '\U{1680}' || ('\U{2000}' <= c <= '\U{200A}') || c == '\U{202F}' || c == '\U{205F}' || c == '\U{3000}'
    || c == '\n' || c == '\r' || c == '\U{2028}' || c == '\U{2029}'
  }

  /** A no-break space is blank to `trim()`. */
  lemma NoBreakSpaceIsBlank()
    ensures IsBlank("\U{00A0}") && Trim("\U{00A0}") == ""
  {
    TrimEmptyIffBlank("\U{00A0}");
  }

  /** A string `trim()` turns into the empty string. */
  predicate IsBlank(s: string)
  {
    forall i :: 0 <= i < |s| ==> IsSpace(s[i])
  }

  function TrimStart(s: string): (r: string)
    ensures |r| <= |s| && r == s[|s| - |r|..]
    ensures r != [] ==> !IsSpace(r[0])
    ensures IsBlank(s[..|s| - |r|])
  {
    if s == [] || !IsSpace(s[0]) then s
    else
      var r := TrimStart(s[1..]);
      assert s[..|s| - |r|] == [s[0]] + s[1..][..|s[1..]| - |r|];
      r
  }

  function TrimEnd(s: string): (r: string)
    ensures |r| <= |s| && r == s[..|r|]
    ensures r != [] ==> !IsSpace(r[|r| - 1])
    ensures IsBlank(s[|r|..])
  {
    if s == [] || !IsSpace(s[|s| - 1]) then s
    else
      var r := TrimEnd(s[..|s| - 1]);
      assert s[|r|..] == s[..|s| - 1][|r|..] + [s[|s| - 1]];
      r
  }

  /** `String.prototype.trim`: leading and trailing white space removed. */
  function Trim(s: string): (r: string)
    ensures r != [] ==> !IsSpace(r[0]) && !IsSpace(r[|r| - 1])
  {
    TrimEnd(TrimStart(s))
  }

  /** Trimming keeps one contiguous stretch of the string, and all it drops
      on either side is white space. */
  lemma TrimKeepsMiddle(s: string)
    ensures exists i ::
      0 <= i <= i + |Trim(s)| <= |s| && Trim(s) == s[i..i + |Trim(s)|] && IsBlank(s[..i]) && IsBlank(s[i + |Trim(s)|..])
  {
    BlankEnds(s, TrimStart(s), Trim(s));
  }

  /** A blank prefix cut off, then a blank suffix cut off, leaves a middle
      stretch with blank text on both sides. */
  lemma BlankEnds(s: string, t: string, r: string)
    requires |t| <= |s| && t == s[|s| - |t|..] && IsBlank(s[..|s| - |t|])
    requires |r| <= |t| && r == t[..|r|] && IsBlank(t[|r|..])
    ensures exists i :: 0 <= i <= i + |r| <= |s| && r == s[i..i + |r|] && IsBlank(s[..i]) && IsBlank(s[i + |r|..])
  {
    var i := |s| - |t|;
    assert r == s[i..i + |r|];
    assert s[i + |r|..] == t[|r|..];
  }

  /** White space in front of a string that does not itself start with
      white space is exactly what `TrimStart` removes. */
  lemma {:induction false} TrimStartBlankPrefix(pad: string, rest: string)
    requires IsBlank(pad) && (rest == [] || !IsSpace(rest[0]))
    ensures TrimStart(pad + rest) == rest
    decreases |pad|
  {
    if pad != [] {
      assert (pad + rest)[0] == pad[0] && (pad + rest)[1..] == pad[1..] + rest;
      TrimStartBlankPrefix(pad[1..], rest);
    } else {
      assert pad + rest == rest;
    }
  }

  /** `!s.trim()` holds exactly for strings made only of white space. */
  lemma TrimEmptyIffBlank(s: string)
    ensures Trim(s) == [] <==> IsBlank(s)
  {
    var t := TrimStart(s);
    if Trim(s) == [] {
      assert t[0..] == t;
      assert s[..|s| - |t|] == s;
    } else {
      var r := Trim(s);
      assert r == t[..|r|];
      assert t == s[|s| - |t|..];
      assert s[|s| - |t|] == r[0];
    }
  }

  function LowerChar(c: char): char
  {
    if 'A' <= c <= 'Z' then (c as int + 32) as char else c
  }

  function UpperChar(c: char): char
  {
    if 'a' <= c <= 'z' then (c as int - 32) as char else c
  }

  /** `String.prototype.toLowerCase` on ASCII letters. */
  function Lower(s: string): (r: string)
    ensures |r| == |s|
    ensures forall i :: 0 <= i < |s| ==> r[i] == LowerChar(s[i])
  {
    if s == [] then [] else [LowerChar(s[0])] + Lower(s[1..])
  }

  lemma LowerIdempotent(s: string)
    ensures Lower(Lower(s)) == Lower(s)
  {
  }

  /** `s.charAt(0).toUpperCase() + s.slice(1)`. */
  function Capitalize(s: string): (r: string)
    ensures |r| == |s|
    ensures r != [] ==> r[0] == UpperChar(s[0]) && r[1..] == s[1..]
  {
    if s == [] then [] else [UpperChar(s[0])] + s[1..]
  }

  /** Lower-casing a capitalised label gives back the lower-cased key, which is
      what lets a chart label be mapped back to its records. */
  lemma LowerCapitalize(s: string)
    ensures Lower(Capitalize(s)) == Lower(s)
  {
    if s != [] {
      var c := s[0];
      assert LowerChar(UpperChar(c)) == LowerChar(c);
      assert Lower(Capitalize(s)) == [LowerChar(UpperChar(c))] + Lower(s[1..]);
    }
  }

  predicate IsPrefix(p: string, s: string)
  {
    |p| <= |s| && s[..|p|] == p
  }

  /** `s.includes(sub)`: `sub` occurs in `s` at some position. */
  predicate Contains(s: string, sub: string)
    decreases |s|
  {
    IsPrefix(sub, s) || (s != [] && Contains(s[1..], sub))
  }

  /** The empty search term is contained in every string. */
  lemma ContainsEmpty(s: string)
    ensures Contains(s, "")
  {
    assert IsPrefix("", s);
  }

  /** `s.split(c)[0]`: everything before the first `c` (all of `s` if none). */
  function Before(s: string, c: char): (r: string)
    ensures IsPrefix(r, s)
    ensures c !in r
    ensures c !in s ==> r == s
    ensures c in s ==> |r| < |s| && s[|r|] == c
  {
    if s == [] then []
    else if s[0] == c then []
    else [s[0]] + Before(s[1..], c)
  }

  /** What follows the first `c`, or `None` when `s` has no `c`. */
  function After(s: string, c: char): (r: Option<string>)
    ensures r.None? <==> c !in s
    ensures r.Some? ==> s == Before(s, c) + [c] + r.value
  {
    if c !in s then None
    else
      var b := Before(s, c);
      assert s == b + [c] + s[|b| + 1..];
      Some(s[|b| + 1..])
  }

  /** `s.split(c)[1]`: the field between the first and second `c`, or
      `undefined` when `s` has no `c`. */
  function SecondField(s: string, c: char): (r: Option<string>)
    ensures r.None? <==> c !in s
    ensures r.Some? ==> c !in r.value
    ensures r.Some? ==>
      var start := |Before(s, c)| + 1;
      start + |r.value| <= |s| && r.value == s[start..start + |r.value|]
      && (start + |r.value| == |s| || s[start + |r.value|] == c)
  {
    match After(s, c)
    case None => None
    case Some(rest) =>
      var field := Before(rest, c);
      assert s[|Before(s, c)| + 1..] == rest;
      Some(field)
  }
}
