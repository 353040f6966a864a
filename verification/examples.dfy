/**
 Worked inputs for `strip_latex` (build_search_index.py:65-103), each proved
 against the rule definitions rather than assumed.

 The general tools here cut a text into an inert prefix, one place where a
 command may start, and an inert rest, so that each rule's scan reduces to a
 single `MatchAt` question about that one place.
 */
module StripExamples {
  import opened Text
  import opened Rules
  import opened Strip

  /** Whether `rule` certainly cannot match at a backslash followed by `c`:
      its own command name starts with a different character, or `c` is not
      a letter and the rule needs one. */
  predicate Skips(rule: Rule, c: char) {
    || ((rule.Delimiter? || rule.Line? || rule.Word? || rule.Heading? || rule.Unwrap? || rule.Metadata?)
        && |rule.name| > 0 && rule.name[0] != c)
    || (rule.Item? && c != 'i')
    || (rule.Href? && c != 'h')
    || ((rule.CommandWithArgument? || rule.BareCommand?) && !IsAsciiLetter(c))
  }

  /** Text none of whose characters is markup. */
  predicate Plain(s: string) {
    '\\' !in s && '%' !in s && '{' !in s && '}' !in s
  }

  /** A greedy repetition stops at the first character outside its class. */
  lemma {:induction false} SpanStops(x: string, c: char, y: string, k: Class)
    requires forall i :: 0 <= i < |x| ==> InClass(x[i], k)
    requires !InClass(c, k)
    ensures Span(x + [c] + y, k) == |x|
  {
    var s := x + [c] + y;
    assert s[|x|] == c;
    assert forall i :: 0 <= i < |x| ==> s[i] == x[i];
  }

  /** `\{([^}]+)\}` finds the group `{arg}` right after `pre`. */
  lemma {:induction false} BracedArg(s: string, pre: string, arg: string, post: string, nonEmpty: bool)
    requires s == pre + "{" + arg + "}" + post
    requires '}' !in arg
    requires nonEmpty ==> |arg| > 0
    ensures BracedAt(s, |pre|, nonEmpty) == Some(Group(|pre| + 1, |pre| + 1 + |arg|))
    ensures s[|pre| + 1..|pre| + 1 + |arg|] == arg
  {
    assert s[|pre|] == '{';
    assert s[|pre| + 1..] == arg + ['}'] + post;
    assert forall i :: 0 <= i < |arg| ==> InClass(arg[i], NotClose) by {
      assert forall i :: 0 <= i < |arg| ==> arg[i] in arg;
    }
    SpanStops(arg, '}', post, NotClose);
  }

  lemma {:induction false} CommandStart(s: string, name: string, rest: string)
    requires s == Command(name) + rest
    ensures StartsWith(s, Command(name))
  {
    assert s[..|Command(name)|] == Command(name);
  }

  /** `\\name\{([^}]+)\}` as one braced group after the command. */
  lemma {:induction false} UnwrapAt(name: string, s: string, g: Group)
    requires StartsWith(s, Command(name))
    requires BracedAt(s, |Command(name)|, true) == Some(g)
    ensures g.lo <= g.hi < |s|
    ensures MatchAt(Unwrap(name), s) == Some(Hit(g.hi + 1, s[g.lo..g.hi]))
  {
    assert MatchUnwrap(name, s) == Keep(s, g, "", "");
    assert "" + s[g.lo..g.hi] + "" == s[g.lo..g.hi];
  }

  /** `\\name\*?\{([^}]+)\}` as one braced group, holding `arg`, after the
      command and its optional star. */
  lemma {:induction false} HeadingAt(name: string, depth: nat, s: string, g: Group, arg: string)
    requires StartsWith(s, Command(name))
    requires BracedAt(s, SkipStar(s, |Command(name)|), true) == Some(g)
    requires g.lo <= g.hi < |s| && s[g.lo..g.hi] == arg
    ensures MatchAt(Heading(name, depth), s) == Some(Hit(g.hi + 1, "\n" + Hashes(depth) + " " + arg + "\n"))
  {
    assert MatchHeading(name, depth, s) == Keep(s, g, "\n" + Hashes(depth) + " ", "\n");
  }

  /** `\name{arg}` is replaced by `arg` (lines 81-85). */
  lemma {:induction false} UnwrapHit(name: string, arg: string, post: string)
    requires '}' !in arg && |arg| > 0
    ensures MatchAt(Unwrap(name), Command(name) + "{" + arg + "}" + post)
         == Some(Hit(|Command(name)| + |arg| + 2, arg))
  {
    var s := Command(name) + "{" + arg + "}" + post;
    CommandStart(s, name, "{" + arg + "}" + post);
    BracedArg(s, Command(name), arg, post, true);
    UnwrapAt(name, s, Group(|Command(name)| + 1, |Command(name)| + 1 + |arg|));
  }

  /** `\name{arg}` or `\name*{arg}` becomes the heading line `arg` between
      newlines (lines 76-79). */
  lemma {:induction false} HeadingHit(name: string, depth: nat, star: string, arg: string, post: string)
    requires star == "" || star == "*"
    requires '}' !in arg && |arg| > 0
    ensures MatchAt(Heading(name, depth), Command(name) + star + "{" + arg + "}" + post)
         == Some(Hit(|Command(name)| + |star| + |arg| + 2, "\n" + Hashes(depth) + " " + arg + "\n"))
  {
    var pre := Command(name) + star;
    HeadingIn(pre + "{" + arg + "}" + post, name, depth, star, pre, arg, post);
  }

  lemma {:induction false} HeadingIn(s: string, name: string, depth: nat, star: string, pre: string, arg: string, post: string)
    requires star == "" || star == "*"
    requires '}' !in arg && |arg| > 0
    requires pre == Command(name) + star && s == pre + "{" + arg + "}" + post
    ensures MatchAt(Heading(name, depth), s) == Some(Hit(|pre| + |arg| + 2, "\n" + Hashes(depth) + " " + arg + "\n"))
  {
    StarredStart(s, Command(name), star, pre, arg, post);
    BracedArg(s, pre, arg, post, true);
    HeadingAt(name, depth, s, Group(|pre| + 1, |pre| + 1 + |arg|), arg);
  }

  /** A command and its optional star, followed by a braced group: the
      `\*?` stops where `pre` does. */
  lemma {:induction false} StarredStart(s: string, c: string, star: string, pre: string, arg: string, post: string)
    requires star == "" || star == "*"
    requires pre == c + star && s == pre + "{" + arg + "}" + post
    ensures StartsWith(s, c) && SkipStar(s, |c|) == |pre|
  {
    assert s[..|c|] == c;
    if star == "*" {
      assert s[|c|] == pre[|c|] == '*';
    } else {
      assert s[|c|] == '{';
    }
  }

  /** `\href{target}{text}` is replaced by `text` (line 89). */
  lemma {:induction false} HrefHit(target: string, text: string, post: string)
    requires '}' !in target && |target| > 0
    requires '}' !in text && |text| > 0
    ensures MatchAt(Href, Command("href") + "{" + target + "}" + "{" + text + "}" + post)
         == Some(Hit(|target| + |text| + 9, text))
  {
    var s := Command("href") + "{" + target + "}" + "{" + text + "}" + post;
    TargetGroup(s, target, text, post);
    TextGroup(s, target, text, post);
    HrefGroups(s, Group(6, 6 + |target|), Group(|target| + 8, |target| + 8 + |text|));
  }

  /** The second group of `\href{target}{text}...`. */
  lemma {:induction false} TextGroup(s: string, target: string, text: string, post: string)
    requires '}' !in text && |text| > 0
    requires s == Command("href") + "{" + target + "}" + "{" + text + "}" + post
    ensures BracedAt(s, |target| + 7, true) == Some(Group(|target| + 8, |target| + 8 + |text|))
    ensures s[|target| + 8..|target| + 8 + |text|] == text
  {
    var pre := Command("href") + "{" + target + "}";
    assert s == pre + "{" + text + "}" + post;
    BracedArg(s, pre, text, post, true);
  }

  /** The first group of `\href{target}...`. */
  lemma {:induction false} TargetGroup(s: string, target: string, text: string, post: string)
    requires '}' !in target && |target| > 0
    requires s == Command("href") + "{" + target + "}" + "{" + text + "}" + post
    ensures StartsWith(s, Command("href"))
    ensures BracedAt(s, |Command("href")|, true) == Some(Group(6, 6 + |target|))
  {
    var rest := "{" + text + "}" + post;
    assert s == Command("href") + "{" + target + "}" + rest;
    CommandStart(s, "href", "{" + target + "}" + rest);
    BracedArg(s, Command("href"), target, rest, true);
  }

  /** `\\href\{([^}]+)\}\{([^}]+)\}` as two braced groups in a row. */
  lemma {:induction false} HrefGroups(s: string, first: Group, g: Group)
    requires StartsWith(s, Command("href"))
    requires BracedAt(s, |Command("href")|, true) == Some(first)
    requires BracedAt(s, first.hi + 1, true) == Some(g)
    ensures g.lo <= g.hi < |s|
    ensures MatchAt(Href, s) == Some(Hit(g.hi + 1, s[g.lo..g.hi]))
  {
    assert MatchAt(Href, s) == MatchHref(s);
    assert MatchHref(s) == Keep(s, g, "", "");
    assert "" + s[g.lo..g.hi] + "" == s[g.lo..g.hi];
  }

  /** A greedy repetition over `x + y` stops where `x` ends when `y` does not
      start inside the class. */
  lemma {:induction false} SpanUntil(x: string, y: string, k: Class)
    requires forall i :: 0 <= i < |x| ==> InClass(x[i], k)
    requires |y| == 0 || !InClass(y[0], k)
    ensures Span(x + y, k) == |x|
    decreases |x|
  {
    if |x| == 0 {
      assert x + y == y;
    } else {
      assert (x + y)[0] == x[0];
      assert (x + y)[1..] == x[1..] + y;
      SpanUntil(x[1..], y, k);
    }
  }

  /** `\begin\{[^}]+\}` and `\end\{[^}]+\}` delete the command with its
      non-empty argument (lines 70-71). */
  lemma {:induction false} DelimiterHit(name: string, arg: string, post: string)
    requires '}' !in arg && |arg| > 0
    ensures MatchAt(Delimiter(name), Command(name) + "{" + arg + "}" + post)
         == Some(Hit(|Command(name)| + |arg| + 2, ""))
  {
    var s := Command(name) + "{" + arg + "}" + post;
    CommandStart(s, name, "{" + arg + "}" + post);
    BracedArg(s, Command(name), arg, post, true);
    assert MatchAt(Delimiter(name), s) == MatchDelimiter(name, s);
  }

  /** `\title\{[^}]*\}` and its kin delete the command with its argument,
      which may be empty (lines 91-93). */
  lemma {:induction false} MetadataHit(name: string, arg: string, post: string)
    requires '}' !in arg
    ensures MatchAt(Metadata(name), Command(name) + "{" + arg + "}" + post)
         == Some(Hit(|Command(name)| + |arg| + 2, ""))
  {
    var s := Command(name) + "{" + arg + "}" + post;
    CommandStart(s, name, "{" + arg + "}" + post);
    BracedArg(s, Command(name), arg, post, false);
    assert MatchAt(Metadata(name), s) == MatchMetadata(name, s);
  }

  /** `\documentclass.*` and `\usepackage.*` delete the command and the
      rest of its line, but not the newline (lines 72-73). */
  lemma {:induction false} LineHit(name: string, line: string, rest: string)
    requires forall i :: 0 <= i < |line| ==> line[i] != '\n'
    requires |rest| == 0 || rest[0] == '\n'
    ensures MatchAt(Line(name), Command(name) + line + rest) == Some(Hit(|Command(name)| + |line|, ""))
  {
    var p := Command(name);
    var s := p + line + rest;
    assert s == p + (line + rest);
    CommandStart(s, name, line + rest);
    assert s[|p|..] == line + rest;
    SpanUntil(line, rest, NotNewline);
    assert MatchAt(Line(name), s) == MatchLine(name, s);
  }

  /** `\maketitle` deletes just the command, whatever follows (line 74). */
  lemma {:induction false} WordHit(name: string, rest: string)
    ensures MatchAt(Word(name), Command(name) + rest) == Some(Hit(|Command(name)|, ""))
  {
    CommandStart(Command(name) + rest, name, rest);
    assert MatchAt(Word(name), Command(name) + rest) == MatchWord(name, Command(name) + rest);
  }

  /** `\item\s*` becomes a bullet and one space, swallowing the whitespace
      after the command (line 87). */
  lemma {:induction false} ItemHit(gap: string, rest: string)
    requires AllSpace(gap)
    requires |rest| == 0 || !IsSpace(rest[0])
    ensures MatchAt(Item, Command("item") + gap + rest) == Some(Hit(5 + |gap|, [Bullet, ' ']))
  {
    var p := Command("item");
    var s := p + gap + rest;
    assert s == p + (gap + rest);
    CommandStart(s, "item", gap + rest);
    assert s[|p|..] == gap + rest;
    SpanUntil(gap, rest, Space);
    assert MatchAt(Item, s) == MatchItem(s);
  }

  /** A greedy repetition consumes exactly `n` characters when the first `n`
      are in the class and the next one is not. */
  lemma SpanExactly(t: string, n: nat, k: Class)
    requires n <= |t| && forall i :: 0 <= i < n ==> InClass(t[i], k)
    requires n == |t| || !InClass(t[n], k)
    ensures Span(t, k) == n
  {
  }

  /** A backslash, a letter run and an optional star, followed by a character
      that ends both: the run stops where the letters do. */
  lemma {:induction false} LettersAt(s: string, pre: string, name: string, star: string)
    requires |name| > 0 && forall i :: 0 <= i < |name| ==> IsAsciiLetter(name[i])
    requires star == "" || star == "*"
    requires pre == "\\" + name + star && |pre| <= |s|
    requires forall i :: 0 <= i < |pre| ==> s[i] == pre[i]
    requires |pre| == |s| || (!IsAsciiLetter(s[|pre|]) && (star == "" ==> s[|pre|] != '*'))
    ensures s[0] == '\\' && Span(s[1..], Letter) == |name|
    ensures SkipStar(s, 1 + |name|) == |pre|
  {
    var t := s[1..];
    assert s[0] == pre[0];
    forall i | 0 <= i < |name|
      ensures InClass(t[i], Letter)
    {
      assert t[i] == pre[1 + i] == name[i];
    }
    if star == "*" {
      assert t[|name|] == pre[1 + |name|];
    } else if |pre| < |s| {
      assert t[|name|] == s[|pre|];
    }
    SpanExactly(t, |name|, Letter);
  }

  /** `\\[a-zA-Z]+\*?\{[^}]*\}` as a letter run and one braced group. */
  lemma {:induction false} CommandAt(s: string, n: nat, g: Group)
    requires |s| > 0 && s[0] == '\\' && n > 0 && Span(s[1..], Letter) == n
    requires BracedAt(s, SkipStar(s, 1 + n), false) == Some(g)
    ensures MatchAt(CommandWithArgument, s) == Some(Hit(g.hi + 1, ""))
  {
    assert MatchAt(CommandWithArgument, s) == MatchCommandWithArgument(s);
  }

  /** `\\[a-zA-Z]+\*?` as a letter run and an optional star. */
  lemma {:induction false} BareAt(s: string, n: nat, end: nat)
    requires |s| > 0 && s[0] == '\\' && n > 0 && Span(s[1..], Letter) == n
    requires SkipStar(s, 1 + n) == end
    ensures MatchAt(BareCommand, s) == Some(Hit(end, ""))
  {
    assert MatchAt(BareCommand, s) == MatchBareCommand(s);
  }

  /** `\\[a-zA-Z]+\*?\{[^}]*\}` deletes any command with one braced
      argument (line 95). */
  lemma {:induction false} CommandHit(name: string, star: string, arg: string, post: string)
    requires |name| > 0 && forall i :: 0 <= i < |name| ==> IsAsciiLetter(name[i])
    requires star == "" || star == "*"
    requires '}' !in arg
    ensures MatchAt(CommandWithArgument, "\\" + name + star + "{" + arg + "}" + post)
         == Some(Hit(|name| + |star| + |arg| + 3, ""))
  {
    var pre := "\\" + name + star;
    var s := pre + "{" + arg + "}" + post;
    BracedPrefix(s, pre, arg, post);
    BracedArg(s, pre, arg, post, false);
    CommandText(s, pre, name, star, |arg|);
  }

  lemma {:induction false} CommandText(s: string, pre: string, name: string, star: string, n: nat)
    requires |name| > 0 && forall i :: 0 <= i < |name| ==> IsAsciiLetter(name[i])
    requires star == "" || star == "*"
    requires pre == "\\" + name + star && |pre| < |s| && s[|pre|] == '{'
    requires forall i :: 0 <= i < |pre| ==> s[i] == pre[i]
    requires BracedAt(s, |pre|, false) == Some(Group(|pre| + 1, |pre| + 1 + n))
    ensures MatchAt(CommandWithArgument, s) == Some(Hit(|name| + |star| + n + 3, ""))
  {
    assert |pre| == 1 + |name| + |star|;
    CommandSite(s, pre, name, star, Group(|pre| + 1, |pre| + 1 + n));
  }

  /** The text in front of a braced group is kept character by character. */
  lemma BracedPrefix(s: string, pre: string, arg: string, post: string)
    requires s == pre + "{" + arg + "}" + post
    ensures |pre| < |s| && s[|pre|] == '{'
    ensures forall i :: 0 <= i < |pre| ==> s[i] == pre[i]
  {
  }

  lemma {:induction false} CommandSite(s: string, pre: string, name: string, star: string, g: Group)
    requires |name| > 0 && forall i :: 0 <= i < |name| ==> IsAsciiLetter(name[i])
    requires star == "" || star == "*"
    requires pre == "\\" + name + star && |pre| < |s| && s[|pre|] == '{'
    requires forall i :: 0 <= i < |pre| ==> s[i] == pre[i]
    requires BracedAt(s, |pre|, false) == Some(g)
    ensures MatchAt(CommandWithArgument, s) == Some(Hit(g.hi + 1, ""))
  {
    LettersAt(s, pre, name, star);
    CommandAt(s, |name|, g);
  }

  /** `\\[a-zA-Z]+\*?` deletes the command name and an optional star
      (line 97). */
  lemma {:induction false} BareHit(name: string, star: string, rest: string)
    requires |name| > 0 && forall i :: 0 <= i < |name| ==> IsAsciiLetter(name[i])
    requires star == "" || star == "*"
    requires |rest| == 0 || (!IsAsciiLetter(rest[0]) && (star == "*" || rest[0] != '*'))
    ensures MatchAt(BareCommand, "\\" + name + star + rest) == Some(Hit(1 + |name| + |star|, ""))
  {
    var pre := "\\" + name + star;
    var s := pre + rest;
    assert forall i :: 0 <= i < |pre| ==> s[i] == pre[i];
    assert |pre| < |s| ==> s[|pre|] == rest[0];
    LettersAt(s, pre, name, star);
    BareAt(s, |name|, |pre|);
  }

  /** A rule that skips the command at the start of `v` does not match there. */
  lemma {:induction false} SkipMiss(rule: Rule, v: string)
    requires |v| > 1 && v[0] == '\\' && Skips(rule, v[1])
    ensures MatchAt(rule, v).None?
  {
    if rule.CommandWithArgument? || rule.BareCommand? {
      assert v[1..][0] == v[1];
    } else {
      var name := if rule.Item? then "item" else if rule.Href? then "href" else rule.name;
      var p := Command(name);
      assert p[1] == name[0];
      if |p| <= |v| {
        assert v[..|p|][1] == v[1];
      }
    }
  }

  /** A scan over `a + v` with no match: nothing changes. */
  lemma {:induction false} Miss(rule: Rule, a: string, v: string)
    requires |v| > 0 && MatchAt(rule, v).None?
    requires forall c :: c in Leads(rule) ==> c !in a && c !in v[1..]
    ensures Apply(rule, a + v) == a + v
  {
    InertPrefix(rule, a, v);
    var tail := Apply(rule, v[1..]);
    assert tail == v[1..];
    ApplyMiss(rule, v);
    assert [v[0]] + v[1..] == v;
  }

  /** A scan over `a + v` with one match at the start of `v`. */
  lemma {:induction false} Site(rule: Rule, a: string, v: string, h: Hit)
    requires MatchAt(rule, v) == Some(h)
    requires forall c :: c in Leads(rule) ==> c !in a && c !in v[h.len..]
    ensures Apply(rule, a + v) == a + h.out + v[h.len..]
  {
    InertPrefix(rule, a, v);
    ApplyHit(rule, v, h);
    assert Apply(rule, v[h.len..]) == v[h.len..];
  }

  /** Rules that all skip the command at the start of `v` leave `a + v` unchanged. */
  lemma {:induction false} MissAll(rules: seq<Rule>, a: string, v: string)
    requires |v| > 1 && v[0] == '\\' && '\\' !in a && '\\' !in v[1..]
    requires forall rule :: rule in rules ==> Skips(rule, v[1])
    ensures ApplyAll(rules, a + v) == a + v
    decreases |rules|
  {
    if |rules| > 0 {
      assert rules[0] in rules;
      SkipMiss(rules[0], v);
      assert Leads(rules[0]) == "\\";
      Miss(rules[0], a, v);
      assert forall rule :: rule in rules[1..] ==> rule in rules;
      MissAll(rules[1..], a, v);
    }
  }

  /** The rules of a list where only rule `k` matches, once, at the start of `v`. */
  lemma {:induction false} OneCommand(rules: seq<Rule>, k: nat, a: string, v: string, h: Hit)
    requires k < |rules| && |v| > 1 && v[0] == '\\' && '\\' !in a && '\\' !in v[1..]
    requires forall rule :: rule in rules[..k] ==> Skips(rule, v[1])
    requires IsCommand(rules[k]) && MatchAt(rules[k], v) == Some(h)
    requires forall rule :: rule in rules[k + 1..] ==> IsCommand(rule)
    requires '\\' !in h.out
    ensures ApplyAll(rules, a + v) == a + h.out + v[h.len..]
  {
    assert rules == rules[..k] + ([rules[k]] + rules[k + 1..]);
    ApplyAllAppend(rules[..k], [rules[k]] + rules[k + 1..], a + v);
    MissAll(rules[..k], a, v);
    assert forall c :: c in v[h.len..] ==> c in v[1..] by {
      assert v[h.len..] == v[1..][h.len - 1..];
    }
    Site(rules[k], a, v, h);
    assert ([rules[k]] + rules[k + 1..])[1..] == rules[k + 1..];
    var rest := a + h.out + v[h.len..];
    assert '\\' !in rest;
    CommandsInert(rules[k + 1..], rest);
  }

  /** `strip_latex` of a text `a + v` whose only markup is one command at
      the start of `v`, rewritten by command rule `k` and skipped by the
      rules before it. */
  lemma {:induction false} OneMarkup(k: nat, a: string, v: string, h: Hit)
    requires k < |CommandRules| && |v| > 1 && v[0] == '\\'
    requires '\\' !in a && '\\' !in v[1..]
    requires '%' !in a && '%' !in v
    requires forall rule :: rule in CommandRules[..k] ==> Skips(rule, v[1])
    requires MatchAt(CommandRules[k], v) == Some(h)
    requires '\\' !in h.out
    ensures StripLatex(a + v) == Trim(NormaliseSpace(Apply(Brace, a + h.out + v[h.len..])))
  {
    CommentInert(a + v);
    CommandRulesAreCommands();
    assert CommandRules[k] in CommandRules;
    assert forall rule :: rule in CommandRules[k + 1..] ==> rule in CommandRules;
    OneCommand(CommandRules, k, a, v, h);
    PipelineStages(a + v);
  }

  /** `strip_latex` of plain text around one command that rule `k` rewrites
      to plain text: the result is the normalised rewrite. */
  lemma {:induction false} Rewrite(k: nat, a: string, v: string, h: Hit, b: string)
    requires k < |CommandRules| && |v| > 1 && v[0] == '\\'
    requires Plain(a) && Plain(b) && Plain(h.out)
    requires '\\' !in v[1..] && '%' !in v
    requires forall rule :: rule in CommandRules[..k] ==> Skips(rule, v[1])
    requires MatchAt(CommandRules[k], v) == Some(h) && v[h.len..] == b
    ensures StripLatex(a + v) == Trim(NormaliseSpace(a + h.out + b))
  {
    OneMarkup(k, a, v, h);
    assert Plain(a + h.out + b);
    BraceInert(a + h.out + b);
  }

  // ---------------------------------------------------------------------------
  // Unwrapping, headings and links, for all plain arguments
  // ---------------------------------------------------------------------------

  lemma {:induction false} BeforeBold()
    ensures forall rule :: rule in CommandRules[..9] ==> Skips(rule, 't')
  {
    assert CommandRules[..9] == [Delimiter("begin"), Delimiter("end"), Line("documentclass"), Line("usepackage"),
      Word("maketitle"), Heading("section", 2), Heading("subsection", 3), Heading("subsubsection", 4),
      Heading("paragraph", 5)];
  }

  lemma {:induction false} BeforeSection()
    ensures forall rule :: rule in CommandRules[..5] ==> Skips(rule, 's')
  {
    assert CommandRules[..5] == [Delimiter("begin"), Delimiter("end"), Line("documentclass"), Line("usepackage"),
      Word("maketitle")];
  }

  lemma {:induction false} BeforeHref()
    ensures forall rule :: rule in CommandRules[..15] ==> Skips(rule, 'h')
  {
    assert CommandRules[..15] == [Delimiter("begin"), Delimiter("end"), Line("documentclass"), Line("usepackage"),
      Word("maketitle"), Heading("section", 2), Heading("subsection", 3), Heading("subsubsection", 4),
      Heading("paragraph", 5), Unwrap("textbf"), Unwrap("textit"), Unwrap("emph"), Unwrap("underline"),
      Unwrap("texttt"), Item];
  }

  /** The text of `\textbf{w}` with plain arguments around it. */
  lemma {:induction false} BoldText(a: string, w: string, b: string)
    requires Plain(a) && Plain(w) && Plain(b)
    ensures var v := Command("textbf") + "{" + w + "}" + b;
      && a + "\\textbf{" + w + "}" + b == a + v
      && |v| > 1 && v[0] == '\\' && v[1] == 't' && '\\' !in v[1..] && '%' !in v
      && v[|w| + 9..] == b
  {
    var v := Command("textbf") + "{" + w + "}" + b;
    assert v[1..] == "textbf{" + w + "}" + b;
  }

  /** `\textbf{w}` in plain text is replaced by `w` (line 81). */
  lemma {:induction false} BoldUnwrapped(a: string, w: string, b: string)
    requires Plain(a) && Plain(w) && Plain(b) && |w| > 0
    ensures StripLatex(a + "\\textbf{" + w + "}" + b) == Trim(NormaliseSpace(a + w + b))
  {
    var v := Command("textbf") + "{" + w + "}" + b;
    BoldText(a, w, b);
    UnwrapHit("textbf", w, b);
    assert CommandRules[9] == Unwrap("textbf");
    BeforeBold();
    Rewrite(9, a, v, Hit(|w| + 9, w), b);
  }

  /** The match of `\section{title}` at the start of `v`. */
  lemma {:induction false} SectionSite(title: string, b: string)
    requires Plain(title) && |title| > 0
    ensures var v := Command("section") + "{" + title + "}" + b;
      && MatchAt(CommandRules[5], v) == Some(Hit(|title| + 10, "\n## " + title + "\n"))
      && v[|title| + 10..] == b
  {
    var v := Command("section") + "{" + title + "}" + b;
    assert Command("section") + "" == Command("section");
    HeadingIn(v, "section", 2, "", Command("section"), title, b);
    assert CommandRules[5] == Heading("section", 2);
    assert "\n" + Hashes(2) + " " == "\n## ";
    assert v[|title| + 10..] == b;
  }

  /** The text of `\section{title}` with plain arguments around it. */
  lemma {:induction false} SectionText(a: string, title: string, b: string)
    requires Plain(a) && Plain(title) && Plain(b)
    ensures var v := Command("section") + "{" + title + "}" + b;
      && a + "\\section{" + title + "}" + b == a + v
      && |v| > 1 && v[0] == '\\' && v[1] == 's' && '\\' !in v[1..] && '%' !in v
      && Plain("\n## " + title + "\n")
      && a + ("\n## " + title + "\n") + b == a + "\n## " + title + "\n" + b
  {
    var v := Command("section") + "{" + title + "}" + b;
    assert v[1..] == "section{" + title + "}" + b;
  }

  /** `\section{title}` becomes a level-two heading line (line 76). */
  lemma {:induction false} SectionHeading(a: string, title: string, b: string)
    requires Plain(a) && Plain(title) && Plain(b) && |title| > 0
    ensures StripLatex(a + "\\section{" + title + "}" + b) == Trim(NormaliseSpace(a + "\n## " + title + "\n" + b))
  {
    var v := Command("section") + "{" + title + "}" + b;
    SectionText(a, title, b);
    SectionSite(title, b);
    BeforeSection();
    Rewrite(5, a, v, Hit(|title| + 10, "\n## " + title + "\n"), b);
  }

  /** The text of `\href{target}{text}` with plain arguments around it. */
  lemma {:induction false} HrefTextShape(a: string, target: string, text: string, b: string)
    requires Plain(a) && Plain(target) && Plain(text) && Plain(b)
    ensures var v := Command("href") + "{" + target + "}" + "{" + text + "}" + b;
      && a + "\\href{" + target + "}{" + text + "}" + b == a + v
      && |v| > 1 && v[0] == '\\' && v[1] == 'h' && '\\' !in v[1..] && '%' !in v
      && v[|target| + |text| + 9..] == b
  {
    var v := Command("href") + "{" + target + "}" + "{" + text + "}" + b;
    assert v[1..] == "href{" + target + "}{" + text + "}" + b;
  }

  /** `\href{target}{text}` keeps only its display text (line 89). */
  lemma {:induction false} HrefText(a: string, target: string, text: string, b: string)
    requires Plain(a) && Plain(target) && Plain(text) && Plain(b) && |target| > 0 && |text| > 0
    ensures StripLatex(a + "\\href{" + target + "}{" + text + "}" + b) == Trim(NormaliseSpace(a + text + b))
  {
    var v := Command("href") + "{" + target + "}" + "{" + text + "}" + b;
    HrefTextShape(a, target, text, b);
    HrefHit(target, text, b);
    assert CommandRules[15] == Href;
    BeforeHref();
    Rewrite(15, a, v, Hit(|target| + |text| + 9, text), b);
  }

  // ---------------------------------------------------------------------------
  // Exact results once the rewritten text is already normalised
  // ---------------------------------------------------------------------------

  /** `a\textbf{w}b` strips to exactly `awb` when that is already normalised. */
  lemma {:induction false} BoldExact(a: string, w: string, b: string)
    requires Plain(a) && Plain(w) && Plain(b) && |w| > 0 && Normal(a + w + b)
    ensures StripLatex(a + "\\textbf{" + w + "}" + b) == a + w + b
  {
    BoldUnwrapped(a, w, b);
    NormalFixpoint(a + w + b);
  }

  /** `\section{title}` at the very start strips to exactly the heading
      line and the text after it when that is already normalised; with
      `title == "Intro"` and `b == "\nBody text here."` the result is
      `"## Intro\n\nBody text here."`. */
  lemma {:induction false} SectionExact(title: string, b: string)
    requires Plain(title) && Plain(b) && |title| > 0 && Normal("## " + title + "\n" + b)
    ensures StripLatex("\\section{" + title + "}" + b) == "## " + title + "\n" + b
  {
    var s := "## " + title + "\n" + b;
    var x := "\\section{" + title + "}" + b;
    SectionStart(title, b, x, s);
    LeadingNewline(s);
  }

  /** The bold example: `\textbf{important}` inside a sentence. */
  lemma {:induction false} BoldLiteral()
    ensures StripLatex("This is \\textbf{important} text.") == "This is important text."
  {
    BoldLiteralAt("This is \\textbf{important} text.", "This is important text.");
  }

  /** The bold example with its input and output held in variables, so that
      the text is not unfolded character by character. */
  lemma {:induction false} BoldLiteralAt(x: string, y: string)
    requires x == "This is \\textbf{important} text." && y == "This is important text."
    ensures StripLatex(x) == y
  {
    var a, w, b := "This is ", "important", " text.";
    BoldPieces(x, y, a, w, b);
    BoldShape(y, a, w, b);
    BoldExact(a, w, b);
  }

  lemma {:induction false} BoldPieces(x: string, y: string, a: string, w: string, b: string)
    requires x == "This is \\textbf{important} text." && y == "This is important text."
    requires a == "This is " && w == "important" && b == " text."
    ensures x == a + "\\textbf{" + w + "}" + b && y == a + w + b
  {
  }

  lemma {:induction false} BoldShape(y: string, a: string, w: string, b: string)
    requires y == "This is important text." && y == a + w + b
    requires a == "This is " && w == "important" && b == " text."
    ensures Plain(a) && Plain(w) && Plain(b) && |w| > 0 && Normal(a + w + b)
  {
    assert Normal(y);
  }

  /** The heading example: `\section{Intro}` followed by a line of text. */
  lemma {:induction false} SectionLiteral()
    ensures StripLatex("\\section{Intro}\nBody text here.") == "## Intro\n\nBody text here."
  {
    SectionLiteralAt("\\section{Intro}\nBody text here.", "## Intro\n\nBody text here.");
  }

  /** The heading example with its input and output held in variables. */
  lemma {:induction false} SectionLiteralAt(x: string, y: string)
    requires x == "\\section{Intro}\nBody text here." && y == "## Intro\n\nBody text here."
    ensures StripLatex(x) == y
  {
    var title, b := "Intro", "\nBody text here.";
    SectionPieces(x, y, title, b);
    SectionShape(y, title, b);
    SectionExact(title, b);
  }

  lemma {:induction false} SectionPieces(x: string, y: string, title: string, b: string)
    requires x == "\\section{Intro}\nBody text here." && y == "## Intro\n\nBody text here."
    requires title == "Intro" && b == "\nBody text here."
    ensures x == "\\section{" + title + "}" + b && y == "## " + title + "\n" + b
  {
    SectionInput(x, title, b);
    SectionOutput(y, title, b);
  }

  lemma {:induction false} SectionInput(x: string, title: string, b: string)
    requires x == "\\section{Intro}\nBody text here."
    requires title == "Intro" && b == "\nBody text here."
    ensures x == "\\section{" + title + "}" + b
  {
  }

  lemma {:induction false} SectionOutput(y: string, title: string, b: string)
    requires y == "## Intro\n\nBody text here."
    requires title == "Intro" && b == "\nBody text here."
    ensures y == "## " + title + "\n" + b
  {
  }

  lemma {:induction false} SectionShape(y: string, title: string, b: string)
    requires y == "## Intro\n\nBody text here." && y == "## " + title + "\n" + b
    requires title == "Intro" && b == "\nBody text here."
    ensures Plain(title) && Plain(b) && |title| > 0 && Normal("## " + title + "\n" + b)
  {
    SectionNormal(y);
  }

  lemma {:induction false} SectionNormal(y: string)
    requires y == "## Intro\n\nBody text here."
    ensures Normal(y)
  {
    assert Trimmed(y) && NoTab(y) && SingleSpaced(y);
  }

  /** `\section{title}` at the very start strips like a newline in front
      of the heading line. */
  lemma {:induction false} SectionStart(title: string, b: string, x: string, s: string)
    requires Plain(title) && Plain(b) && |title| > 0
    requires x == "\\section{" + title + "}" + b && s == "## " + title + "\n" + b
    ensures StripLatex(x) == Trim(NormaliseSpace("\n" + s))
  {
    SectionHeadingAt("", title, b, x, "\n" + s);
  }

  lemma {:induction false} SectionHeadingAt(a: string, title: string, b: string, x: string, y: string)
    requires Plain(a) && Plain(title) && Plain(b) && |title| > 0
    requires x == a + "\\section{" + title + "}" + b && y == a + "\n## " + title + "\n" + b
    ensures StripLatex(x) == Trim(NormaliseSpace(y))
  {
    SectionHeading(a, title, b);
  }

  // ---------------------------------------------------------------------------
  // Comments
  // ---------------------------------------------------------------------------

  /** `%.*` at the start of `"%" + c + "\n" + b` takes the comment and stops at the newline. */
  lemma {:induction false} CommentSite(c: string, b: string)
    requires '\n' !in c
    ensures var v := "%" + c + "\n" + b;
      && MatchAt(Comment, v) == Some(Hit(|c| + 1, ""))
      && v[|c| + 1..] == "\n" + b
  {
    var v := "%" + c + "\n" + b;
    assert v[1..] == c + ['\n'] + b;
    assert forall i :: 0 <= i < |c| ==> InClass(c[i], NotNewline) by {
      assert forall i :: 0 <= i < |c| ==> c[i] in c;
    }
    SpanStops(c, '\n', b, NotNewline);
  }

  /** `strip_latex` once the comment rule has left `t` behind, when no
      other markup is in `t`. */
  lemma {:induction false} AfterComment(x: string, t: string)
    requires Apply(Comment, x) == t
    requires '\\' !in t && '{' !in t && '}' !in t
    ensures StripLatex(x) == Trim(NormaliseSpace(t))
  {
    PipelineStages(x);
    CommandRulesAreCommands();
    CommandsInert(CommandRules, t);
    BraceInert(t);
  }

  /** A comment runs from `%` to the end of its line; the newline stays (line 68). */
  lemma {:induction false} CommentDropped(a: string, c: string, b: string)
    requires Plain(a) && Plain(b) && '\n' !in c
    ensures StripLatex(a + "%" + c + "\n" + b) == Trim(NormaliseSpace(a + "\n" + b))
  {
    var v := "%" + c + "\n" + b;
    assert a + "%" + c + "\n" + b == a + v;
    CommentSite(c, b);
    Site(Comment, a, v, Hit(|c| + 1, ""));
    assert a + "" + ("\n" + b) == a + "\n" + b;
    AfterComment(a + v, a + "\n" + b);
  }

  /** No command rule matches a backslash followed by a newline. */
  lemma {:induction false} NoneSkipNewline()
    ensures forall rule :: rule in CommandRules ==> Skips(rule, '\n')
  {
  }

  /** The text after an escaped comment: a lone backslash closing a line. */
  lemma {:induction false} EscapedTail(a: string, b: string)
    requires Plain(b)
    ensures var w := "\\\n" + b;
      && |w| > 1 && w[0] == '\\' && w[1] == '\n' && Plain(w[1..])
      && a + w == a + "\\\n" + b
  {
    var w := "\\\n" + b;
    assert w[1..] == "\n" + b;
  }

  /** `strip_latex` once the comment rule has left a lone backslash at the
      end of a line of plain text. */
  lemma {:induction false} AfterEscapedComment(x: string, a: string, w: string)
    requires Plain(a) && |w| > 1 && w[0] == '\\' && w[1] == '\n' && Plain(w[1..])
    requires Apply(Comment, x) == a + w
    ensures StripLatex(x) == Trim(NormaliseSpace(a + w))
  {
    CommandsSkipNewline(a, w);
    BraceInert(a + w);
    MarkupResult(x, a + w, a + w);
  }

  /** No command rule matches a backslash that ends a line. */
  lemma {:induction false} CommandsSkipNewline(a: string, w: string)
    requires Plain(a) && |w| > 1 && w[0] == '\\' && w[1] == '\n' && Plain(w[1..])
    ensures ApplyAll(CommandRules, a + w) == a + w
  {
    NoneSkipNewline();
    MissAll(CommandRules, a, w);
  }

  /** Line 68 on an escaped percent sign: the comment goes, the backslash stays. */
  lemma {:induction false} EscapedSite(a: string, c: string, b: string)
    requires Plain(a) && Plain(b) && '\n' !in c
    ensures Apply(Comment, a + "\\%" + c + "\n" + b) == a + "\\\n" + b
  {
    var v := "%" + c + "\n" + b;
    var a' := a + "\\";
    assert a + "\\%" + c + "\n" + b == a' + v;
    CommentSite(c, b);
    Site(Comment, a', v, Hit(|c| + 1, ""));
    assert a' + "" + ("\n" + b) == a + "\\\n" + b;
  }

  /** The comment rule does not tell `\%` from `%`: an escaped percent sign
      also starts a comment, and the backslash before it is left in the text,
      where no command rule can match it (line 68). */
  lemma {:induction false} EscapedPercent(a: string, c: string, b: string)
    requires Plain(a) && Plain(b) && '\n' !in c
    ensures StripLatex(a + "\\%" + c + "\n" + b) == Trim(NormaliseSpace(a + "\\\n" + b))
  {
    EscapedSite(a, c, b);
    EscapedTail(a, b);
    AfterEscapedComment(a + "\\%" + c + "\n" + b, a, "\\\n" + b);
  }

  // ---------------------------------------------------------------------------
  // Environments
  // ---------------------------------------------------------------------------

  /** The first two command rules, then the rest. */
  lemma {:induction false} DelimitersFirst(s: string)
    ensures ApplyAll(CommandRules, s)
         == ApplyAll(CommandRules[2..], Apply(Delimiter("end"), Apply(Delimiter("begin"), s)))
  {
    var rest := CommandRules[1..];
    assert CommandRules[0] == Delimiter("begin") && rest[0] == Delimiter("end");
    var t := Apply(Delimiter("begin"), s);
    assert ApplyAll(CommandRules, s) == ApplyAll(rest, t);
    assert rest[1..] == CommandRules[2..];
    assert ApplyAll(rest, t) == ApplyAll(rest[1..], Apply(rest[0], t));
  }

  /** Text without a backslash passes the command rules after the delimiters. */
  lemma {:induction false} LaterCommandsInert(s: string)
    requires '\\' !in s
    ensures ApplyAll(CommandRules[2..], s) == s
  {
    CommandRulesAreCommands();
    assert forall rule :: rule in CommandRules[2..] ==> rule in CommandRules;
    CommandsInert(CommandRules[2..], s);
  }

  /** `\begin{e}` goes; the `\end` after it is not a `\begin` (line 70). */
  lemma {:induction false} BeginRemoved(s: string, a: string, v: string, e: string, w: string, x: string, f: string)
    requires Plain(a) && Plain(x) && '}' !in e && |e| > 0
    requires |f| > 1 && f[0] == '\\' && f[1] == 'e' && '\\' !in f[1..]
    requires w == x + f && v == Command("begin") + "{" + e + "}" + w && s == a + v
    ensures Apply(Delimiter("begin"), s) == a + w
  {
    assert Leads(Delimiter("begin")) == "\\";
    InertPrefix(Delimiter("begin"), a, v);
    BeginHead(v, e, w);
    BeginAbsent(w, x, f);
  }

  /** The match at the head of `\begin{e}w` deletes the delimiter. */
  lemma {:induction false} BeginHead(v: string, e: string, w: string)
    requires '}' !in e && |e| > 0
    requires v == Command("begin") + "{" + e + "}" + w
    ensures Apply(Delimiter("begin"), v) == Apply(Delimiter("begin"), w)
  {
    DelimiterHit("begin", e, w);
    var h := Hit(|e| + 8, "");
    ApplyHit(Delimiter("begin"), v, h);
    assert v[h.len..] == w;
  }

  /** Plain text followed by a command that is not `\begin` has no `\begin`
      match. */
  lemma {:induction false} BeginAbsent(w: string, x: string, f: string)
    requires Plain(x)
    requires |f| > 1 && f[0] == '\\' && f[1] == 'e' && '\\' !in f[1..]
    requires w == x + f
    ensures Apply(Delimiter("begin"), w) == w
  {
    var rule := Delimiter("begin");
    assert Leads(rule) == "\\";
    InertPrefix(rule, x, f);
    SkipMiss(rule, f);
    Miss(rule, "", f);
    assert "" + f == f;
  }

  /** `\end{e}` goes (line 71). */
  lemma {:induction false} EndRemoved(p: string, e: string, f: string, b: string)
    requires Plain(p) && Plain(b) && '}' !in e && |e| > 0
    requires f == Command("end") + "{" + e + "}" + b
    ensures Apply(Delimiter("end"), p + f) == p + b
  {
    DelimiterHit("end", e, b);
    assert Leads(Delimiter("end")) == "\\";
    assert f[|e| + 6..] == b;
    Site(Delimiter("end"), p, f, Hit(|e| + 6, ""));
    assert p + "" + b == p + b;
  }

  /** The command rules on an environment: both delimiters go, the body stays. */
  lemma {:induction false} EnvironmentCommands(s: string, a: string, v: string, e: string, x: string, f: string, b: string)
    requires Plain(a) && Plain(e) && Plain(x) && Plain(b) && |e| > 0
    requires f == Command("end") + "{" + e + "}" + b
    requires v == Command("begin") + "{" + e + "}" + (x + f) && s == a + v
    ensures ApplyAll(CommandRules, s) == a + x + b
  {
    assert f[1..] == "end{" + e + "}" + b;
    BeginRemoved(s, a, v, e, x + f, x, f);
    assert a + (x + f) == (a + x) + f;
    EndRemoved(a + x, e, f, b);
    DelimitersFirst(s);
    LaterCommandsInert(a + x + b);
  }

  /** The environment written out is the text the steps above take apart. */
  lemma {:induction false} EnvironmentText(a: string, e: string, x: string, b: string, f: string, v: string)
    requires f == Command("end") + "{" + e + "}" + b
    requires v == Command("begin") + "{" + e + "}" + (x + f)
    ensures a + "\\begin{" + e + "}" + x + "\\end{" + e + "}" + b == a + v
  {
    assert Command("end") + "{" == "\\end{" && Command("begin") + "{" == "\\begin{";
  }

  /** `\begin{e}` and `\end{e}` are deleted and what they enclose is kept,
      normalised like the rest (lines 70-71). */
  lemma {:induction false} EnvironmentKept(a: string, e: string, x: string, b: string)
    requires Plain(a) && Plain(e) && Plain(x) && Plain(b) && |e| > 0
    ensures StripLatex(a + "\\begin{" + e + "}" + x + "\\end{" + e + "}" + b) == Trim(NormaliseSpace(a + x + b))
  {
    var f := Command("end") + "{" + e + "}" + b;
    var v := Command("begin") + "{" + e + "}" + (x + f);
    EnvironmentText(a, e, x, b, f, v);
    EnvironmentStripped(a + v, a, v, e, x, f, b);
  }

  lemma {:induction false} EnvironmentStripped(s: string, a: string, v: string, e: string, x: string, f: string, b: string)
    requires Plain(a) && Plain(e) && Plain(x) && Plain(b) && |e| > 0
    requires f == Command("end") + "{" + e + "}" + b
    requires v == Command("begin") + "{" + e + "}" + (x + f) && s == a + v
    ensures StripLatex(s) == Trim(NormaliseSpace(a + x + b))
  {
    assert '%' !in v;
    CommentInert(s);
    EnvironmentCommands(s, a, v, e, x, f, b);
    BraceInert(a + x + b);
    MarkupResult(s, a + x + b, a + x + b);
  }

  // ---------------------------------------------------------------------------
  // A backslash that survives
  // ---------------------------------------------------------------------------

  /** No command rule matches at a backslash followed by an opening brace. */
  lemma {:induction false} NoneSkipBrace()
    ensures forall rule :: rule in CommandRules ==> Skips(rule, '{')
  {
  }

  /** Every named command rule (lines 70-93) skips a command whose first
      letter starts none of their names. */
  lemma {:induction false} BeforeCatchAll(c: char)
    requires c !in "abdehimpstu"
    ensures forall rule :: rule in CommandRules[..19] ==> Skips(rule, c)
  {
    assert CommandRules[..19] == [Delimiter("begin"), Delimiter("end"), Line("documentclass"), Line("usepackage"),
      Word("maketitle"), Heading("section", 2), Heading("subsection", 3), Heading("subsubsection", 4),
      Heading("paragraph", 5), Unwrap("textbf"), Unwrap("textit"), Unwrap("emph"), Unwrap("underline"),
      Unwrap("texttt"), Item, Href, Metadata("title"), Metadata("author"), Metadata("date")];
  }

  /** ASCII letters are plain text. */
  lemma {:induction false} LettersPlain(w: string)
    requires forall i :: 0 <= i < |w| ==> IsAsciiLetter(w[i])
    ensures Plain(w)
  {
    assert forall i :: 0 <= i < |w| ==> w[i] != '\\' && w[i] != '%' && w[i] != '{' && w[i] != '}';
  }

  /** Line 99 deletes a brace at the start of the text. */
  lemma {:induction false} BraceStep(s: string)
    requires |s| > 0 && (s[0] == '{' || s[0] == '}')
    ensures Apply(Brace, s) == Apply(Brace, s[1..])
  {
    assert MatchAt(Brace, s) == MatchBrace(s);
    ApplyHit(Brace, s, Hit(1, ""));
  }

  /** Line 99 deletes `{}` in front of text without braces. */
  lemma {:induction false} BracePair(t: string, w: string)
    requires t == "{}" + w && '{' !in w && '}' !in w
    ensures Apply(Brace, t) == w
  {
    BraceStep(t);
    assert t[1..] == "}" + w;
    BraceStep("}" + w);
    assert ("}" + w)[1..] == w;
    BraceInert(w);
  }

  /** Line 99 removes the braces after the backslash and nothing else. */
  lemma {:induction false} BracesAfterBackslash(s: string, t: string, w: string)
    requires s == "\\" + t && t == "{}" + w && Plain(w)
    ensures Apply(Brace, s) == "\\" + w
  {
    assert Leads(Brace) == "{}";
    InertPrefix(Brace, "\\", t);
    BracePair(t, w);
  }

  /** Lines 68-97 leave `\{}w` alone: there is no comment, and no command
      rule fires at `\{`. */
  lemma {:induction false} BraceCommandInert(s: string, t: string, w: string)
    requires s == "\\" + t && t == "{}" + w && Plain(w)
    ensures ApplyAll(CommandRules, Apply(Comment, s)) == s
  {
    assert |s| > 1 && s[1] == '{' && s[1..] == t && '%' !in s;
    CommentInert(s);
    CommandsSkipBrace(s);
  }

  lemma {:induction false} CommandsSkipBrace(s: string)
    requires |s| > 1 && s[0] == '\\' && s[1] == '{' && '\\' !in s[1..]
    ensures ApplyAll(CommandRules, s) == s
  {
    NoneSkipBrace();
    MissAll(CommandRules, "", s);
    assert "" + s == s;
  }

  /** A backslash and ASCII letters are already in normal form. */
  lemma {:induction false} CommandNormal(w: string)
    requires |w| > 0 && forall i :: 0 <= i < |w| ==> IsAsciiLetter(w[i])
    ensures Normal("\\" + w)
  {
    var s := "\\" + w;
    assert forall i :: 0 < i < |s| ==> s[i] == w[i - 1];
    assert forall i :: 0 <= i < |s| ==> s[i] == '\\' || IsAsciiLetter(s[i]);
    assert !IsSpace(s[0]) && !IsSpace(s[|s| - 1]);
  }

  /** `\{}w`: no command rule fires at `\{`, line 99 then removes the braces,
      and the backslash is left in the result in front of `w`. */
  lemma {:induction false} BackslashKept(w: string)
    requires |w| > 0 && forall i :: 0 <= i < |w| ==> IsAsciiLetter(w[i])
    ensures StripLatex("\\{}" + w) == "\\" + w
  {
    var t := "{}" + w;
    var s := "\\" + t;
    assert "\\{}" + w == s;
    LettersPlain(w);
    CommandNormal(w);
    BackslashStripped(s, t, w);
  }

  lemma {:induction false} BackslashStripped(s: string, t: string, w: string)
    requires s == "\\" + t && t == "{}" + w && Plain(w) && Normal("\\" + w)
    ensures StripLatex(s) == "\\" + w
  {
    BraceCommandInert(s, t, w);
    BracesAfterBackslash(s, t, w);
    MarkupResult(s, s, "\\" + w);
    NormalFixpoint("\\" + w);
  }

  lemma {:induction false} NoArgumentAt(s: string, n: nat)
    requires |s| > 0 && s[0] == '\\' && Span(s[1..], Letter) == n && SkipStar(s, 1 + n) == |s|
    ensures MatchAt(CommandWithArgument, s).None?
  {
    assert MatchAt(CommandWithArgument, s) == MatchCommandWithArgument(s);
  }

  /** Line 95 finds no braced argument after `\w` at the end of the text. */
  lemma {:induction false} ArgumentMissing(v: string, w: string)
    requires |w| > 0 && forall i :: 0 <= i < |w| ==> IsAsciiLetter(w[i])
    requires v == "\\" + w && '\\' !in w
    ensures Apply(CommandWithArgument, v) == v
  {
    assert v == "\\" + w + "";
    LettersAt(v, v, w, "");
    NoArgumentAt(v, |w|);
    assert v[1..] == w;
    Miss(CommandWithArgument, "", v);
    assert "" + v == v;
  }

  /** Line 97 deletes `\w` whole when it is the whole text. */
  lemma {:induction false} BareDeleted(v: string, w: string)
    requires |w| > 0 && forall i :: 0 <= i < |w| ==> IsAsciiLetter(w[i])
    requires v == "\\" + w
    ensures Apply(BareCommand, v) == ""
  {
    assert v == "\\" + w + "";
    LettersAt(v, v, w, "");
    BareAt(v, |w|, |v|);
    assert v[1..] == w && v[|v|..] == [];
    Site(BareCommand, "", v, Hit(|v|, ""));
    assert "" + v == v;
  }

  /** The last two command rules on `\w` alone: line 95 finds no braced
      argument, line 97 deletes the whole command. */
  lemma {:induction false} CatchAllDeletes(v: string, w: string)
    requires |w| > 0 && forall i :: 0 <= i < |w| ==> IsAsciiLetter(w[i])
    requires v == "\\" + w && '\\' !in w
    ensures ApplyAll(CommandRules[19..], v) == ""
  {
    ArgumentMissing(v, w);
    BareDeleted(v, w);
    var last := CommandRules[19..];
    assert last == [CommandWithArgument, BareCommand];
    assert ApplyAll(last, v) == ApplyAll(last[1..], Apply(CommandWithArgument, v));
    assert last[1..] == [BareCommand];
    assert ApplyAll(last[1..], v) == ApplyAll([], Apply(BareCommand, v));
  }

  /** The named rules (lines 70-93) run before the catch-all ones (lines 95-97). */
  lemma {:induction false} CatchAllLast(s: string)
    ensures ApplyAll(CommandRules, s) == ApplyAll(CommandRules[19..], ApplyAll(CommandRules[..19], s))
  {
    assert CommandRules == CommandRules[..19] + CommandRules[19..];
    ApplyAllAppend(CommandRules[..19], CommandRules[19..], s);
  }

  lemma {:induction false} NamedRulesSkip(v: string, w: string)
    requires |w| > 0 && w[0] !in "abdehimpstu"
    requires v == "\\" + w && Plain(w)
    ensures ApplyAll(CommandRules[..19], v) == v
  {
    assert |v| > 1 && v[1] == w[0] && v[1..] == w;
    BeforeCatchAll(w[0]);
    MissAll(CommandRules[..19], "", v);
    assert "" + v == v;
  }

  /** The command rules on `\w` alone, when no named rule starts with its
      first letter: only the catch-all rules fire. */
  lemma {:induction false} BareCommands(v: string, w: string)
    requires |w| > 0 && forall i :: 0 <= i < |w| ==> IsAsciiLetter(w[i])
    requires w[0] !in "abdehimpstu"
    requires v == "\\" + w && Plain(w)
    ensures ApplyAll(CommandRules, v) == ""
  {
    NamedRulesSkip(v, w);
    CatchAllLast(v);
    CatchAllDeletes(v, w);
  }

  /** A bare command whose name starts no named rule's command is deleted
      by line 97, leaving nothing. */
  lemma {:induction false} BareCommandDropped(w: string)
    requires |w| > 0 && forall i :: 0 <= i < |w| ==> IsAsciiLetter(w[i])
    requires w[0] !in "abdehimpstu"
    ensures StripLatex("\\" + w) == ""
  {
    var v := "\\" + w;
    LettersPlain(w);
    assert '%' !in v;
    CommentInert(v);
    BareCommands(v, w);
    BraceInert("");
    MarkupResult(v, "", "");
    NormalFixpoint("");
  }

  /** Stripping is not idempotent once a backslash survives it: `\{}w`
      strips to `\w`, and stripping that again deletes it. */
  lemma {:induction false} StripNotIdempotent(w: string)
    requires |w| > 0 && forall i :: 0 <= i < |w| ==> IsAsciiLetter(w[i])
    requires w[0] !in "abdehimpstu"
    ensures StripLatex("\\{}" + w) == "\\" + w
    ensures StripLatex(StripLatex("\\{}" + w)) == ""
  {
    BackslashKept(w);
    BareCommandDropped(w);
  }
}
