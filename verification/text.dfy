/**
 Characters, character classes and whitespace trimming shared by the LaTeX
 stripper and the paragraph splitter.

 Whitespace is Python's notion of it on text strings: the set of characters
 for which `str.isspace()` holds. The same set is matched by `\s` in a `str`
 pattern and removed by `str.strip()`, so one predicate serves both.
 */
module Text {

  datatype Option<T> = None | Some(value: T)

  /** Python's `str.isspace()` (and `\s`): the ASCII controls TAB..CR and
      FS..US, SPACE, NEL, NBSP, the Unicode space separators, and the
      line and paragraph separators U+2028 and U+2029. */
  predicate IsSpace(c: char): (b: bool)
    ensures c == ' ' || c == '\t' || c == '\n' || c == '\r' ==> b
    ensures b ==> !IsAsciiLetter(c) && c != '\\' && c != '{' && c != '}' && c != '%'
  {
    || ('\t' <= c <= '\r')
    || ('\U{1C}' <= c <= ' ')
    || c == '\U{85}'
    || c == '\U{A0}'
    || c == '\U{1680}'
    || ('\U{2000}' <= c <= '\U{200A}')
    || c == '\U{2028}'
    || c == '\U{2029}'
    || c == '\U{202F}'
    || c == '\U{205F}'
    || c == '\U{3000}'
  }

  /** `[a-zA-Z]`: ASCII letters only, as the patterns are compiled without IGNORECASE. */
  predicate IsAsciiLetter(c: char) {
    ('a' <= c <= 'z') || ('A' <= c <= 'Z')
  }

  /** The repeated atoms the stripping patterns use. */
  datatype Class =
    | NotNewline   // `.`
    | NotClose     // `[^}]`
    | Letter       // `[a-zA-Z]`
    | Space        // `\s`
    | Blank        // `[ \t]`
    | Newline      // `\n`

  predicate InClass(c: char, k: Class) {
    match k
    case NotNewline => c != '\n'
    case NotClose => c != '}'
    case Letter => IsAsciiLetter(c)
    case Space => IsSpace(c)
    case Blank => c == ' ' || c == '\t'
    case Newline => c == '\n'
  }

  /** What a greedy repetition of class `k` consumes at the start of `s`. */
  function Span(s: string, k: Class): (n: nat)
    ensures n <= |s|
    ensures forall i :: 0 <= i < n ==> InClass(s[i], k)
    ensures n == |s| || !InClass(s[n], k)
    decreases |s|
  {
    if |s| > 0 && InClass(s[0], k) then 1 + Span(s[1..], k) else 0
  }

  predicate StartsWith(s: string, prefix: string) {
    |prefix| <= |s| && s[..|prefix|] == prefix
  }

  // ---------------------------------------------------------------------------
  // Shape predicates on text
  // ---------------------------------------------------------------------------

  predicate Trimmed(s: string) {
    |s| == 0 || (!IsSpace(s[0]) && !IsSpace(s[|s| - 1]))
  }

  predicate NoTab(s: string) {
    '\t' !in s
  }

  /** No two spaces in a row. */
  predicate SingleSpaced(s: string) {
    forall i :: 0 <= i < |s| - 1 ==> !(s[i] == ' ' && s[i + 1] == ' ')
  }

  /** No run of three or more newlines. */
  predicate NoTripleNewline(s: string) {
    forall i :: 0 <= i < |s| - 2 ==> !(s[i] == '\n' && s[i + 1] == '\n' && s[i + 2] == '\n')
  }

  /** No blank line, i.e. no two newlines in a row. */
  ghost predicate NoBlankLine(s: string) {
    forall i, j :: 0 <= i < j < |s| && j == i + 1 ==> !(s[i] == '\n' && s[j] == '\n')
  }

  predicate AllSpace(s: string) {
    forall i :: 0 <= i < |s| ==> IsSpace(s[i])
  }

  // ---------------------------------------------------------------------------
  // str.strip()
  // ---------------------------------------------------------------------------

  /** `str.lstrip()`: the suffix left after removing every leading whitespace character. */
  function TrimStart(s: string): (r: string)
    ensures |r| <= |s| && r == s[|s| - |r|..]
    ensures AllSpace(s[..|s| - |r|])
    ensures |r| == 0 || !IsSpace(r[0])
    decreases |s|
  {
    if |s| > 0 && IsSpace(s[0]) then
      var r := TrimStart(s[1..]);
      SpaceBefore(s, |s| - |r|);
      r
    else s
  }

  /** A whitespace character in front of a whitespace run makes a longer one. */
  lemma SpaceBefore(s: string, k: nat)
    requires 0 < k <= |s| && IsSpace(s[0]) && AllSpace(s[1..][..k - 1])
    ensures AllSpace(s[..k])
  {
    forall i | 0 < i < k
      ensures IsSpace(s[i])
    {
      assert s[i] == s[1..][..k - 1][i - 1];
    }
  }

  /** `str.rstrip()`: the prefix left after removing every trailing whitespace character. */
  function TrimEnd(s: string): (r: string)
    ensures |r| <= |s| && r == s[..|r|]
    ensures AllSpace(s[|r|..])
    ensures |r| == 0 || !IsSpace(r[|r| - 1])
    decreases |s|
  {
    if |s| > 0 && IsSpace(s[|s| - 1]) then
      var r := TrimEnd(s[..|s| - 1]);
      SpaceAfter(s, |r|);
      r
    else s
  }

  /** A whitespace run followed by a whitespace character makes a longer one. */
  lemma SpaceAfter(s: string, k: nat)
    requires k < |s| && IsSpace(s[|s| - 1]) && AllSpace(s[..|s| - 1][k..])
    ensures AllSpace(s[k..])
  {
    forall i | k <= i < |s| - 1
      ensures IsSpace(s[i])
    {
      assert s[i] == s[..|s| - 1][k..][i - k];
    }
  }

  /** Number of characters `str.strip()` removes from the front. */
  function LeadingSpace(s: string): (k: nat)
    ensures k <= |s|
  {
    |s| - |TrimStart(s)|
  }

  /** `str.strip()`: both ends stripped. */
  function Trim(s: string): (r: string)
    ensures |r| <= |s|
    ensures Trimmed(r)
  {
    TrimEnd(TrimStart(s))
  }

  /** `str.strip()` keeps the infix of `s` between a maximal whitespace
      prefix and a maximal whitespace suffix. */
  lemma TrimInfix(s: string)
    ensures LeadingSpace(s) + |Trim(s)| <= |s|
    ensures Trim(s) == s[LeadingSpace(s)..LeadingSpace(s) + |Trim(s)|]
    ensures AllSpace(s[..LeadingSpace(s)])
    ensures AllSpace(s[LeadingSpace(s) + |Trim(s)|..])
  {
    var t := TrimStart(s);
    var k := |s| - |t|;
    assert k == LeadingSpace(s);
    var r := TrimEnd(t);
    assert r == Trim(s);
    PrefixOfSuffix(s, k, t, r);
  }

  /** A prefix `r` of the suffix `t` of `s` starting at `k` is the infix of
      `s` from `k`, and what `t` has after `r` is what `s` has. */
  lemma PrefixOfSuffix(s: string, k: nat, t: string, r: string)
    requires k <= |s| && t == s[k..]
    requires |r| <= |t| && r == t[..|r|] && AllSpace(t[|r|..])
    ensures k + |r| <= |s|
    ensures r == s[k..k + |r|]
    ensures AllSpace(s[k + |r|..])
  {
    assert s[k + |r|..] == t[|r|..];
  }

  /** Text already trimmed is left alone by `str.strip()`. */
  lemma TrimOfTrimmed(s: string)
    requires Trimmed(s)
    ensures Trim(s) == s
  {
  }

  /** The spacing properties survive taking an infix. */
  lemma InfixSpacing(s: string, lo: nat, hi: nat)
    requires lo <= hi <= |s|
    ensures NoTab(s) ==> NoTab(s[lo..hi])
    ensures SingleSpaced(s) ==> SingleSpaced(s[lo..hi])
    ensures NoTripleNewline(s) ==> NoTripleNewline(s[lo..hi])
  {
    var t := s[lo..hi];
    assert forall i :: 0 <= i < |t| ==> t[i] == s[lo + i];
  }

  /** What `InfixSpacing` and `InfixChars` give, stated about a text `r`
      known to be the infix of `s` at `k`. */
  lemma InfixAt(s: string, k: nat, r: string)
    requires k + |r| <= |s| && r == s[k..k + |r|]
    ensures NoTab(s) ==> NoTab(r)
    ensures SingleSpaced(s) ==> SingleSpaced(r)
    ensures NoTripleNewline(s) ==> NoTripleNewline(r)
    ensures forall c :: c in r ==> c in s
  {
    InfixSpacing(s, k, k + |r|);
    InfixChars(s, k, k + |r|);
  }

  /** A text without a blank line has none in any infix. */
  lemma InfixNoBlankLine(s: string, lo: nat, hi: nat)
    requires lo <= hi <= |s| && NoBlankLine(s)
    ensures NoBlankLine(s[lo..hi])
  {
    var t := s[lo..hi];
    assert forall i :: 0 <= i < |t| ==> t[i] == s[lo + i];
  }

  /** An infix uses only the text's characters. */
  lemma InfixChars(s: string, lo: nat, hi: nat)
    requires lo <= hi <= |s|
    ensures forall c :: c in s[lo..hi] ==> c in s
  {
    var t := s[lo..hi];
    assert forall i :: 0 <= i < |t| ==> t[i] == s[lo + i];
  }
}
