/**
 The rewrite rules of `strip_latex` (build_search_index.py:65-103).

 Each `re.sub(pattern, replacement, text)` line of the source is one `Rule`.
 `MatchAt` decides, for a text that starts at the current scan position,
 whether the rule's pattern matches there and, if so, how many characters
 it consumes and what it puts in their place. `Apply` is `re.sub`'s scan:
 try at the current position; on a match emit the replacement and resume
 after the match, otherwise copy one character and move on. No pattern
 here matches the empty string, so every match consumes at least one
 character.

 Only the patterns the stripper uses are modelled, each by hand; there is
 no general regular-expression engine. Backtracking never changes the
 outcome of these patterns: `[^}]+` is always followed by `}`, `[a-zA-Z]+`
 by `*` or `{` or nothing, so the greedy reading is the only one.
 */
module Rules {
  import opened Text

  datatype Rule =
    | Comment                            // %.*                        -> ""
    | Delimiter(name: string)            // \name\{[^}]+\}             -> ""
    | Line(name: string)                 // \name.*                    -> ""
    | Word(name: string)                 // \name                      -> ""
    | Heading(name: string, depth: nat)  // \name\*?\{([^}]+)\}        -> "\n" + depth '#' + " " + \1 + "\n"
    | Unwrap(name: string)               // \name\{([^}]+)\}           -> \1
    | Item                               // \item\s*                   -> "• "
    | Href                               // \href\{[^}]+\}\{([^}]+)\}  -> \1
    | Metadata(name: string)             // \name\{[^}]*\}             -> ""
    | CommandWithArgument                // \\[a-zA-Z]+\*?\{[^}]*\}   -> ""
    | BareCommand                        // \\[a-zA-Z]+\*?             -> ""
    | Brace                              // [{}]                       -> ""
    | Blanks                             // [ \t]+                     -> " "
    | BlankLines                         // \n{3,}                     -> "\n\n"

  /** One match: `len` characters consumed, `out` written in their place. */
  datatype Hit = Hit(len: nat, out: string)

  /** A brace group `{...}`: the argument is `s[lo..hi]` and `s[hi] == '}'`. */
  datatype Group = Group(lo: nat, hi: nat)

  const Bullet: char := '\U{2022}'

  /** The characters a match of the rule can start with. */
  function Leads(rule: Rule): string {
    match rule
    case Comment => "%"
    case Brace => "{}"
    case Blanks => " \t"
    case BlankLines => "\n"
    case _ => "\\"
  }

  /** The rules whose pattern starts with a backslash. */
  predicate IsCommand(rule: Rule) {
    !(rule.Comment? || rule.Brace? || rule.Blanks? || rule.BlankLines?)
  }

  function Hashes(depth: nat): (h: string)
    ensures |h| == depth
    ensures forall c :: c in h ==> c == '#'
  {
    seq(depth, _ => '#')
  }

  /** The text the replacement adds of its own, around any captured group. */
  function Literal(rule: Rule): string {
    match rule
    case Heading(_, depth) => "\n" + Hashes(depth) + " "
    case Item => [Bullet, ' ']
    case Blanks => " "
    case BlankLines => "\n\n"
    case _ => ""
  }

  /** The only characters any replacement text introduces. */
  predicate IsMarker(c: char) {
    c == '\n' || c == '#' || c == ' ' || c == Bullet
  }

  lemma {:induction false} LiteralMarkers(rule: Rule)
    ensures forall c :: c in Literal(rule) ==> IsMarker(c)
  {
  }

  /** `\{([^}]+)\}` (or `\{([^}]*)\}` when `nonEmpty` is false) at index `at`. */
  function BracedAt(s: string, at: nat, nonEmpty: bool): (g: Option<Group>)
    ensures g.Some? ==> at < g.value.lo <= g.value.hi < |s|
    ensures g.Some? ==> s[at] == '{' && g.value.lo == at + 1 && s[g.value.hi] == '}'
    ensures g.Some? ==> forall i :: g.value.lo <= i < g.value.hi ==> s[i] != '}'
    ensures g.Some? && nonEmpty ==> g.value.lo < g.value.hi
  {
    if at < |s| && s[at] == '{' then
      var hi := at + 1 + Span(s[at + 1..], NotClose);
      if hi < |s| && (!nonEmpty || at + 1 < hi) then Some(Group(at + 1, hi)) else None
    else None
  }

  /** Index after an optional `*` at `at` (the `\*?` of several patterns). */
  function SkipStar(s: string, at: nat): nat {
    if at < |s| && s[at] == '*' then at + 1 else at
  }

  function Command(name: string): string {
    "\\" + name
  }

  /** What every match promises: it starts with one of the rule's leading
      characters, consumes at least one character, and writes only characters
      taken from what it consumed or from the rule's own replacement text. */
  predicate Sound(rule: Rule, s: string, m: Option<Hit>) {
    m.Some? ==>
      && 1 <= m.value.len <= |s|
      && s[0] in Leads(rule)
      && forall c :: c in m.value.out ==> c in s[..m.value.len] || c in Literal(rule)
  }

  /** A match of `len` characters that are deleted. */
  function Delete(len: nat): Option<Hit> {
    Some(Hit(len, ""))
  }

  /** A match ending with brace group `g` that is replaced by the group's text. */
  function Keep(s: string, g: Group, before: string, after: string): (m: Option<Hit>)
    requires g.lo <= g.hi < |s|
    ensures m.Some? && m.value.len == g.hi + 1
    ensures forall c :: c in m.value.out ==> c in s[..g.hi + 1] || c in before || c in after
  {
    assert s[g.lo..g.hi] == s[..g.hi + 1][g.lo..g.hi];
    Some(Hit(g.hi + 1, before + s[g.lo..g.hi] + after))
  }

  function MatchComment(s: string): (m: Option<Hit>)
    ensures Sound(Comment, s, m)
  {
    if |s| > 0 && s[0] == '%' then Delete(1 + Span(s[1..], NotNewline)) else None
  }

  function MatchDelimiter(name: string, s: string): (m: Option<Hit>)
    ensures Sound(Delimiter(name), s, m)
  {
    if !StartsWith(s, Command(name)) then None
    else
      match BracedAt(s, |Command(name)|, true)
      case None => None
      case Some(g) => Delete(g.hi + 1)
  }

  function MatchLine(name: string, s: string): (m: Option<Hit>)
    ensures Sound(Line(name), s, m)
  {
    var p := Command(name);
    if StartsWith(s, p) then Delete(|p| + Span(s[|p|..], NotNewline)) else None
  }

  function MatchWord(name: string, s: string): (m: Option<Hit>)
    ensures Sound(Word(name), s, m)
  {
    if StartsWith(s, Command(name)) then Delete(|Command(name)|) else None
  }

  function MatchHeading(name: string, depth: nat, s: string): (m: Option<Hit>)
    ensures Sound(Heading(name, depth), s, m)
  {
    if !StartsWith(s, Command(name)) then None
    else
      match BracedAt(s, SkipStar(s, |Command(name)|), true)
      case None => None
      case Some(g) => Keep(s, g, "\n" + Hashes(depth) + " ", "\n")
  }

  function MatchUnwrap(name: string, s: string): (m: Option<Hit>)
    ensures Sound(Unwrap(name), s, m)
  {
    if !StartsWith(s, Command(name)) then None
    else
      match BracedAt(s, |Command(name)|, true)
      case None => None
      case Some(g) => Keep(s, g, "", "")
  }

  function MatchItem(s: string): (m: Option<Hit>)
    ensures Sound(Item, s, m)
  {
    var p := Command("item");
    if StartsWith(s, p) then Some(Hit(|p| + Span(s[|p|..], Space), [Bullet, ' '])) else None
  }

  function MatchHref(s: string): (m: Option<Hit>)
    ensures Sound(Href, s, m)
  {
    var p := Command("href");
    if !StartsWith(s, p) then None
    else
      match BracedAt(s, |p|, true)
      case None => None
      case Some(target) =>
        match BracedAt(s, target.hi + 1, true)
        case None => None
        case Some(g) => Keep(s, g, "", "")
  }

  function MatchMetadata(name: string, s: string): (m: Option<Hit>)
    ensures Sound(Metadata(name), s, m)
  {
    if !StartsWith(s, Command(name)) then None
    else
      match BracedAt(s, |Command(name)|, false)
      case None => None
      case Some(g) => Delete(g.hi + 1)
  }

  function MatchCommandWithArgument(s: string): (m: Option<Hit>)
    ensures Sound(CommandWithArgument, s, m)
  {
    if |s| == 0 || s[0] != '\\' then None
    else
      var letters := Span(s[1..], Letter);
      if letters == 0 then None
      else
        match BracedAt(s, SkipStar(s, 1 + letters), false)
        case None => None
        case Some(g) => Delete(g.hi + 1)
  }

  function MatchBareCommand(s: string): (m: Option<Hit>)
    ensures Sound(BareCommand, s, m)
  {
    if |s| == 0 || s[0] != '\\' then None
    else
      var letters := Span(s[1..], Letter);
      if letters == 0 then None else Delete(SkipStar(s, 1 + letters))
  }

  function MatchBrace(s: string): (m: Option<Hit>)
    ensures Sound(Brace, s, m)
  {
    if |s| > 0 && (s[0] == '{' || s[0] == '}') then Delete(1) else None
  }

  function MatchBlanks(s: string): (m: Option<Hit>)
    ensures Sound(Blanks, s, m)
  {
    var n := Span(s, Blank);
    if n > 0 then Some(Hit(n, " ")) else None
  }

  function MatchBlankLines(s: string): (m: Option<Hit>)
    ensures Sound(BlankLines, s, m)
  {
    var n := Span(s, Newline);
    if n >= 3 then Some(Hit(n, "\n\n")) else None
  }

  /** Whether `rule` matches at the start of `s`, and what the match does. */
  function MatchAt(rule: Rule, s: string): (m: Option<Hit>)
    ensures Sound(rule, s, m)
  {
    match rule
    case Comment => MatchComment(s)
    case Delimiter(name) => MatchDelimiter(name, s)
    case Line(name) => MatchLine(name, s)
    case Word(name) => MatchWord(name, s)
    case Heading(name, depth) => MatchHeading(name, depth, s)
    case Unwrap(name) => MatchUnwrap(name, s)
    case Item => MatchItem(s)
    case Href => MatchHref(s)
    case Metadata(name) => MatchMetadata(name, s)
    case CommandWithArgument => MatchCommandWithArgument(s)
    case BareCommand => MatchBareCommand(s)
    case Brace => MatchBrace(s)
    case Blanks => MatchBlanks(s)
    case BlankLines => MatchBlankLines(s)
  }

  // ---------------------------------------------------------------------------
  // re.sub's scan
  // ---------------------------------------------------------------------------

  /** Whether a pattern matches at the start of a text, and what the match does. */
  type Matcher = string -> Option<Hit>

  /** `re.sub`'s scan with the pattern given by its matcher: at a match,
      write the replacement and resume after the match; elsewhere copy one
      character and move on. Every matcher of this module consumes at
      least one character (see `Sound`); the scan copies a character for a
      match that does not, so that it always advances. */
  function Scan(m: Matcher, s: string): string
    decreases |s|
  {
    if |s| == 0 then []
    else
      match m(s)
      case Some(h) =>
        if 1 <= h.len <= |s| then h.out + Scan(m, s[h.len..]) else [s[0]] + Scan(m, s[1..])
      case None =>
        [s[0]] + Scan(m, s[1..])
  }

  /** Every match of `m` starts with one of `leads`. */
  ghost predicate StartsWithin(m: Matcher, leads: string) {
    forall t :: m(t).Some? ==> |t| > 0 && t[0] in leads
  }

  /** Every match of `m` writes only characters it consumed or of `lit`. */
  ghost predicate WritesWithin(m: Matcher, lit: string) {
    forall t :: m(t).Some? ==> forall c :: c in m(t).value.out ==> c in t || c in lit
  }

  /** A scan writes only characters of its input or of `lit`. */
  lemma {:induction false} ScanChars(m: Matcher, lit: string, s: string)
    requires WritesWithin(m, lit)
    ensures forall c :: c in Scan(m, s) ==> c in s || c in lit
    decreases |s|
  {
    if |s| > 0 {
      var n := match m(s) case Some(h) => if 1 <= h.len <= |s| then h.len else 1 case None => 1;
      ScanChars(m, lit, s[n..]);
      assert forall c :: c in s[n..] ==> c in s;
      assert s[0] in s;
    }
  }

  /** A prefix in which no match can start is copied through unchanged, and
      the scan then goes on over the rest as if it stood alone. */
  lemma {:induction false} ScanInert(m: Matcher, leads: string, a: string, b: string)
    requires StartsWithin(m, leads)
    requires forall c :: c in leads ==> c !in a
    ensures Scan(m, a + b) == a + Scan(m, b)
    decreases |a|
  {
    if |a| == 0 {
      assert a + b == b;
    } else {
      var t := a[1..];
      assert a == [a[0]] + t;
      assert a[0] !in leads;
      TailAvoids(leads, a[0], t);
      ScanInert(m, leads, t, b);
      ScanCopies(m, leads, a[0], t + b);
      calc {
        Scan(m, a + b);
        { assert a + b == [a[0]] + (t + b); }
        Scan(m, [a[0]] + (t + b));
        [a[0]] + Scan(m, t + b);
        [a[0]] + (t + Scan(m, b));
        ([a[0]] + t) + Scan(m, b);
      }
    }
  }

  /** What avoids a set of characters, its tail avoids too. */
  lemma TailAvoids(leads: string, c: char, t: string)
    requires forall x :: x in leads ==> x !in [c] + t
    ensures forall x :: x in leads ==> x !in t
  {
    assert forall x :: x in t ==> x in [c] + t;
  }

  /** A character no match can start with is copied by the scan. */
  lemma ScanCopies(m: Matcher, leads: string, c: char, s: string)
    requires StartsWithin(m, leads)
    requires c !in leads
    ensures Scan(m, [c] + s) == [c] + Scan(m, s)
  {
    var t := [c] + s;
    assert t[0] == c && t[1..] == s;
    assert m(t).None?;
  }

  /** A text in which no match can start is left unchanged. */
  lemma {:induction false} ScanIdentity(m: Matcher, leads: string, s: string)
    requires StartsWithin(m, leads)
    ensures (forall c :: c in leads ==> c !in s) ==> Scan(m, s) == s
  {
    if forall c :: c in leads ==> c !in s {
      ScanInert(m, leads, s, []);
      assert s + [] == s;
    }
  }

  // ---------------------------------------------------------------------------
  // One rule over the whole text
  // ---------------------------------------------------------------------------

  function MatcherOf(rule: Rule): Matcher {
    s => MatchAt(rule, s)
  }

  lemma MatcherSound(rule: Rule)
    ensures StartsWithin(MatcherOf(rule), Leads(rule))
    ensures WritesWithin(MatcherOf(rule), Literal(rule))
  {
    forall t | MatcherOf(rule)(t).Some?
      ensures |t| > 0 && t[0] in Leads(rule)
      ensures forall c :: c in MatcherOf(rule)(t).value.out ==> c in t || c in Literal(rule)
    {
      var h := MatchAt(rule, t).value;
      assert Sound(rule, t, MatchAt(rule, t));
      assert forall c :: c in t[..h.len] ==> c in t;
    }
  }

  /** `re.sub` of one rule over the whole text. Every character of the
      result comes from the input or from the rule's own replacement text,
      and a text in which no match can start is returned unchanged. */
  function Apply(rule: Rule, s: string): (r: string)
    ensures forall c :: c in r ==> c in s || c in Literal(rule)
    ensures (forall c :: c in Leads(rule) ==> c !in s) ==> r == s
  {
    MatcherSound(rule);
    ScanChars(MatcherOf(rule), Literal(rule), s);
    ScanIdentity(MatcherOf(rule), Leads(rule), s);
    Scan(MatcherOf(rule), s)
  }

  /** The scan at a match. */
  lemma ApplyHit(rule: Rule, s: string, h: Hit)
    requires MatchAt(rule, s) == Some(h)
    ensures 1 <= h.len <= |s|
    ensures Apply(rule, s) == h.out + Apply(rule, s[h.len..])
  {
    assert Sound(rule, s, MatchAt(rule, s));
    assert MatcherOf(rule)(s) == Some(h);
  }

  /** The scan where nothing matches. */
  lemma ApplyMiss(rule: Rule, s: string)
    requires |s| > 0 && MatchAt(rule, s).None?
    ensures Apply(rule, s) == [s[0]] + Apply(rule, s[1..])
  {
    assert MatcherOf(rule)(s).None?;
  }

  /** The rules of a list applied one after the other, in list order. */
  function ApplyAll(rules: seq<Rule>, s: string): (r: string)
    ensures forall c :: c in r ==> c in s || IsMarker(c)
    decreases |rules|
  {
    if |rules| == 0 then s
    else
      LiteralMarkers(rules[0]);
      ApplyAll(rules[1..], Apply(rules[0], s))
  }

  /** Applying a list of rules that all start with a backslash leaves text
      without a backslash unchanged. */
  lemma {:induction false} CommandsInert(rules: seq<Rule>, s: string)
    requires forall rule :: rule in rules ==> IsCommand(rule)
    requires '\\' !in s
    ensures ApplyAll(rules, s) == s
    decreases |rules|
  {
    if |rules| > 0 {
      assert rules[0] in rules;
      assert Apply(rules[0], s) == s;
      assert forall rule :: rule in rules[1..] ==> rule in rules;
      CommandsInert(rules[1..], s);
    }
  }

  /** Rule lists compose: applying `a + b` is applying `a`, then `b`. */
  lemma {:induction false} ApplyAllAppend(a: seq<Rule>, b: seq<Rule>, s: string)
    ensures ApplyAll(a + b, s) == ApplyAll(b, ApplyAll(a, s))
    decreases |a|
  {
    if |a| == 0 {
      assert a + b == b;
    } else {
      assert (a + b)[0] == a[0];
      assert (a + b)[1..] == a[1..] + b;
      ApplyAllAppend(a[1..], b, Apply(a[0], s));
    }
  }

  /** A prefix in which no match can start is copied through unchanged, and
      the scan then continues on the rest exactly as if it stood alone. */
  lemma {:induction false} InertPrefix(rule: Rule, a: string, b: string)
    requires forall c :: c in Leads(rule) ==> c !in a
    ensures Apply(rule, a + b) == a + Apply(rule, b)
  {
    MatcherSound(rule);
    ScanInert(MatcherOf(rule), Leads(rule), a, b);
  }
}
