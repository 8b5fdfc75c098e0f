/**
 * `tolowerstr` and `toupperstr`: change the case of a C string in place,
 * one character at a time, up to its terminating NUL.
 */
module CaseConv {
  import opened CText

  predicate IsUpper(c: char) { 'A' <= c <= 'Z' }

  predicate IsLower(c: char) { 'a' <= c <= 'z' }

  /** `tolower` in the C locale: only 'A'..'Z' change. */
  function ToLower(c: char): (d: char)
    ensures IsUpper(c) ==> IsLower(d) && d as int == c as int + 32
    ensures !IsUpper(c) ==> d == c
  {
    if IsUpper(c) then (c as int + 32) as char else c
  }

  /** `toupper` in the C locale: only 'a'..'z' change. */
  function ToUpper(c: char): (d: char)
    ensures IsLower(c) ==> IsUpper(d) && d as int == c as int - 32
    ensures !IsLower(c) ==> d == c
  {
    if IsLower(c) then (c as int - 32) as char else c
  }

  /** `s` with `tolower` applied to every character. */
  function LowerStr(s: seq<char>): (t: seq<char>)
    ensures |t| == |s| && forall i :: 0 <= i < |s| ==> t[i] == ToLower(s[i])
  {
    if s == [] then [] else LowerStr(s[..|s| - 1]) + [ToLower(s[|s| - 1])]
  }

  /** `s` with `toupper` applied to every character. */
  function UpperStr(s: seq<char>): (t: seq<char>)
    ensures |t| == |s| && forall i :: 0 <= i < |s| ==> t[i] == ToUpper(s[i])
  {
    if s == [] then [] else UpperStr(s[..|s| - 1]) + [ToUpper(s[|s| - 1])]
  }

  /**
   * `tolowerstr(p)`: the C string in `p` is lower-cased; its NUL and
   * everything after it stay as they were.
   */
  method ToLowerStr(p: array<char>)
    modifies p
    ensures var n := |CStr(old(p[..]))|; p[..] == LowerStr(old(p[..])[..n]) + old(p[..])[n..]
    ensures CStr(p[..]) == LowerStr(CStr(old(p[..])))
  {
    ghost var buf := p[..];
    var c := |CStr(p[..])|;
    var i := 0;
    while i < c
      invariant 0 <= i <= c
      invariant forall j :: 0 <= j < i ==> p[j] == ToLower(buf[j])
      invariant forall j :: i <= j < p.Length ==> p[j] == buf[j]
    {
      p[i] := ToLower(p[i]);
      i := i + 1;
    }
    assert p[..] == LowerStr(buf[..c]) + buf[c..];
    LowerKeepsCStr(buf);
  }

  /**
   * `toupperstr(p)`: the C string in `p` is upper-cased; its NUL and
   * everything after it stay as they were.
   */
  method ToUpperStr(p: array<char>)
    modifies p
    ensures var n := |CStr(old(p[..]))|; p[..] == UpperStr(old(p[..])[..n]) + old(p[..])[n..]
    ensures CStr(p[..]) == UpperStr(CStr(old(p[..])))
  {
    ghost var buf := p[..];
    var c := |CStr(p[..])|;
    var i := 0;
    while i < c
      invariant 0 <= i <= c
      invariant forall j :: 0 <= j < i ==> p[j] == ToUpper(buf[j])
      invariant forall j :: i <= j < p.Length ==> p[j] == buf[j]
    {
      p[i] := ToUpper(p[i]);
      i := i + 1;
    }
    assert p[..] == UpperStr(buf[..c]) + buf[c..];
    UpperKeepsCStr(buf);
  }

  // ---------------------------------------------------------------------
  // Properties of the conversions
  // ---------------------------------------------------------------------

  /** Lower-casing never writes a NUL, so the string keeps its length: `strlen` is unchanged. */
  lemma LowerKeepsCStr(buf: seq<char>)
    ensures var n := |CStr(buf)|; CStr(LowerStr(buf[..n]) + buf[n..]) == LowerStr(CStr(buf))
  {
    var s := CStr(buf);
    assert buf[..|s|] == s;
    assert '\0' !in LowerStr(s);
    CStrOfTerminated(LowerStr(s), buf[|s|..]);
  }

  /** Upper-casing never writes a NUL, so the string keeps its length: `strlen` is unchanged. */
  lemma UpperKeepsCStr(buf: seq<char>)
    ensures var n := |CStr(buf)|; CStr(UpperStr(buf[..n]) + buf[n..]) == UpperStr(CStr(buf))
  {
    var s := CStr(buf);
    assert buf[..|s|] == s;
    assert '\0' !in UpperStr(s);
    CStrOfTerminated(UpperStr(s), buf[|s|..]);
  }

  /** Lower-casing twice is lower-casing once. */
  lemma LowerIdempotent(s: seq<char>)
    ensures LowerStr(LowerStr(s)) == LowerStr(s)
  {
  }

  /** Upper-casing twice is upper-casing once. */
  lemma UpperIdempotent(s: seq<char>)
    ensures UpperStr(UpperStr(s)) == UpperStr(s)
  {
  }

  /** Upper-casing undoes lower-casing: the case of the input does not matter to `toupperstr`. */
  lemma UpperOfLower(s: seq<char>)
    ensures UpperStr(LowerStr(s)) == UpperStr(s)
  {
  }

  /** Lower-casing undoes upper-casing. */
  lemma LowerOfUpper(s: seq<char>)
    ensures LowerStr(UpperStr(s)) == LowerStr(s)
  {
  }

  /** The result has no upper-case letter, and the characters that are not letters are untouched. */
  lemma LowerStrShape(s: seq<char>)
    ensures forall i :: 0 <= i < |s| ==> !IsUpper(LowerStr(s)[i])
    ensures forall i :: 0 <= i < |s| ==> (LowerStr(s)[i] == s[i] <==> !IsUpper(s[i]))
  {
  }
}
