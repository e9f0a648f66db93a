/** The parts of Python's `str` that the ingestion pipeline relies on:
    whitespace, `strip()`, the truthiness test `if s.strip():`, and the
    prefix slice `s[:n]`. Python strings are sequences of code points,
    which `char` (a Unicode scalar value) models. */
module PyStr {

  /** Python's `str.isspace()` on one code point: the characters that
      `str.strip()` with no argument removes. */
  predicate IsWs(c: char)
  {
    || ('\t' <= c <= '\r')
    || ('\U{1C}' <= c <= '\U{1F}')
    || c == ' '
    || c == '\U{85}'
    || c == '\U{A0}'
    || c == '\U{1680}'
    || ('\U{2000}' <= c <= '\U{200A}')
    || c == '\U{2028}'
    || c == '\U{2029}'
    || c == '\U{202F}'
    || c == '\U{205F}'
    || c == '\U{3000}'
  }

  /** A string that is empty or made only of whitespace. */
  predicate IsBlank(s: string)
  {
    forall i :: 0 <= i < |s| ==> IsWs(s[i])
  }

  /** `s.lstrip()`: drops the leading whitespace. */
  function TrimStart(s: string): (r: string)
    ensures |r| <= |s| && r == s[|s| - |r|..]
    ensures forall i :: 0 <= i < |s| - |r| ==> IsWs(s[i])
    ensures r == [] || !IsWs(r[0])
    decreases |s|
  {
    if |s| > 0 && IsWs(s[0]) then TrimStart(s[1..]) else s
  }

  /** `s.rstrip()`: drops the trailing whitespace. */
  function TrimEnd(s: string): (r: string)
    ensures |r| <= |s| && r == s[..|r|]
    ensures forall i :: |r| <= i < |s| ==> IsWs(s[i])
    ensures r == [] || !IsWs(r[|r| - 1])
    decreases |s|
  {
    if |s| > 0 && IsWs(s[|s| - 1]) then TrimEnd(s[..|s| - 1]) else s
  }

  /** `s.strip()`: the slice of `s` left once whitespace is removed from
      both ends. It is empty exactly when `s` is blank. */
  function Strip(s: string): (r: string)
    ensures |r| <= |TrimStart(s)| && r == s[|s| - |TrimStart(s)|..][..|r|]
    ensures forall i :: |s| - |TrimStart(s)| + |r| <= i < |s| ==> IsWs(s[i])
    ensures r == [] <==> IsBlank(s)
    ensures r != [] ==> !IsWs(r[0]) && !IsWs(r[|r| - 1])
  {
    StripEmptyIffBlank(s);
    TrimEnd(TrimStart(s))
  }

  /** Trimming both ends leaves nothing exactly when every character is
      whitespace. */
  lemma StripEmptyIffBlank(s: string)
    ensures TrimEnd(TrimStart(s)) == [] <==> IsBlank(s)
  {
  }

  /** Python's truth value of `s.strip()`: the guard `if s.strip():`.
      It holds exactly when `s` has a non-whitespace character. */
  predicate Truthy(s: string)
    ensures Truthy(s) <==> exists i :: 0 <= i < |s| && !IsWs(s[i])
  {
    Strip(s) != []
  }

  /** Python's `s[:n]` for a non-negative `n`: the first `n` characters,
      or the whole string when it is shorter. */
  function Prefix(s: string, n: nat): (r: string)
    ensures |r| == if |s| <= n then |s| else n
    ensures r <= s
  {
    if |s| <= n then s else s[..n]
  }
}
