/**
 `strip_latex` (build_search_index.py:65-103): the rewrite rules applied in
 the source's order, then `str.strip()`.

 Whatever the input, the result has no brace, no `%`, no tab, no two spaces
 in a row, no run of three newlines and no leading or trailing whitespace;
 every character in it comes from the input or is one of the marker
 characters the heading and list-item rules write (newline, `#`, space,
 bullet).
 */
module Strip {
  import opened Text
  import opened Rules

  /** The rules of lines 70-97, all introduced by a backslash. */
  const CommandRules: seq<Rule> := [
    Delimiter("begin"),          // line 70
    Delimiter("end"),            // line 71
    Line("documentclass"),       // line 72
    Line("usepackage"),          // line 73
    Word("maketitle"),           // line 74
    Heading("section", 2),       // line 76
    Heading("subsection", 3),    // line 77
    Heading("subsubsection", 4), // line 78
    Heading("paragraph", 5),     // line 79
    Unwrap("textbf"),            // line 81
    Unwrap("textit"),            // line 82
    Unwrap("emph"),              // line 83
    Unwrap("underline"),         // line 84
    Unwrap("texttt"),            // line 85
    Item,                        // line 87
    Href,                        // line 89
    Metadata("title"),           // line 91
    Metadata("author"),          // line 92
    Metadata("date"),            // line 93
    CommandWithArgument,         // line 95
    BareCommand                  // line 97
  ]

  /** Lines 68-99: everything that removes or rewrites markup. */
  const MarkupRules: seq<Rule> := [Comment] + CommandRules + [Brace]

  /** Lines 101-102: whitespace normalisation. */
  const SpaceRules: seq<Rule> := [Blanks, BlankLines]

  /** Lines 68-102, in source order. */
  const Pipeline: seq<Rule> := MarkupRules + SpaceRules

  /** Lines 101-102: afterwards there is no tab, no two spaces in a row and
      no run of three newlines, and only spaces and newlines were added. */
  function NormaliseSpace(s: string): (n: string)
    ensures NoTab(n) && SingleSpaced(n) && NoTripleNewline(n)
    ensures forall c :: c in n ==> c in s || c == ' ' || c == '\n'
  {
    var b := Apply(Blanks, s);
    BlanksShape(s);
    BlankLinesShape(b);
    BlankLinesKeepsSpacing(b);
    assert Literal(Blanks) == " " && Literal(BlankLines) == "\n\n";
    Apply(BlankLines, b)
  }

  /** The searchable text of a LaTeX source: its markup rewritten or
      removed, its whitespace normalised, its ends trimmed. */
  function StripLatex(text: string): (r: string)
    ensures '{' !in r && '}' !in r
    ensures '%' !in r
    ensures NoTab(r) && SingleSpaced(r) && NoTripleNewline(r)
    ensures Trimmed(r)
    ensures forall c :: c in r ==> c in text || IsMarker(c)
  {
    var m := ApplyAll(MarkupRules, text);
    var clean := NormaliseSpace(m);
    PipelineStages(text);
    MarkupShape(text, m);
    TrimShape(clean, Trim(clean));
    StageChars(text, m, clean, Trim(clean));
    Trim(clean)
  }

  /** `str.strip()` keeps every shape property and adds no character. */
  lemma {:induction false} TrimShape(clean: string, r: string)
    requires r == Trim(clean)
    ensures NoTab(clean) ==> NoTab(r)
    ensures SingleSpaced(clean) ==> SingleSpaced(r)
    ensures NoTripleNewline(clean) ==> NoTripleNewline(r)
    ensures forall c :: c in r ==> c in clean
  {
    TrimInfix(clean);
    var k := LeadingSpace(clean);
    InfixAt(clean, k, r);
  }

  /** Characters kept through the three stages. */
  lemma StageChars(text: string, m: string, clean: string, r: string)
    requires forall c :: c in m ==> c in text || IsMarker(c)
    requires forall c :: c in clean ==> c in m || c == ' ' || c == '\n'
    requires forall c :: c in r ==> c in clean
    ensures forall c :: c in r ==> c in text || IsMarker(c)
  {
    assert IsMarker(' ') && IsMarker('\n');
  }

  /** After lines 68-99: no brace and no `%`, and nothing but markers added. */
  lemma {:induction false} MarkupShape(text: string, m: string)
    requires m == ApplyAll(MarkupRules, text)
    ensures '{' !in m && '}' !in m && '%' !in m
    ensures forall c :: c in m ==> c in text || IsMarker(c)
  {
    PipelineStages(text);
    var c0 := Apply(Comment, text);
    var c1 := ApplyAll(CommandRules, c0);
    CommentsRemoved(text);
    MarkupStages(text, c0, c1, m);
  }

  lemma {:induction false} MarkupStages(text: string, c0: string, c1: string, m: string)
    requires c0 == Apply(Comment, text) && '%' !in c0
    requires forall c :: c in c1 ==> c in c0 || IsMarker(c)
    requires m == Apply(Brace, c1)
    ensures '{' !in m && '}' !in m && '%' !in m
    ensures forall c :: c in m ==> c in text || IsMarker(c)
  {
    assert Literal(Comment) == "" && Literal(Brace) == "";
    BracesRemoved(c1);
  }

  /** `strip_latex` of a text whose comments and commands have been
      dealt with: the brace rule, then the whitespace stages. */
  lemma {:induction false} MarkupResult(text: string, c1: string, m: string)
    requires ApplyAll(CommandRules, Apply(Comment, text)) == c1
    requires Apply(Brace, c1) == m
    ensures StripLatex(text) == Trim(NormaliseSpace(m))
  {
    PipelineStages(text);
  }

  /** `strip_latex` is the whole list of substitutions, in source order,
      followed by `str.strip()`. */
  lemma {:induction false} StripIsPipeline(text: string)
    ensures StripLatex(text) == Trim(ApplyAll(Pipeline, text))
  {
    PipelineStages(text);
  }

  /** The pipeline taken apart into its stages. */
  lemma {:induction false} PipelineStages(text: string)
    ensures ApplyAll(MarkupRules, text) == Apply(Brace, ApplyAll(CommandRules, Apply(Comment, text)))
    ensures ApplyAll(Pipeline, text)
         == Apply(BlankLines, Apply(Blanks, ApplyAll(MarkupRules, text)))
  {
    ApplyAllAppend(MarkupRules, SpaceRules, text);
    ApplyAllAppend([Comment] + CommandRules, [Brace], text);
    ApplyAllAppend([Comment], CommandRules, text);
    assert ApplyAll([Comment], text) == Apply(Comment, text);
    assert [Brace][1..] == [];
    assert SpaceRules[1..] == [BlankLines];
    assert SpaceRules[1..][1..] == [];
  }

  /** Line 68 leaves no `%`: each one starts a match running to the end of its line. */
  lemma {:induction false} CommentsRemoved(s: string)
    ensures '%' !in Apply(Comment, s)
    decreases |s|
  {
    if |s| > 0 {
      match MatchAt(Comment, s)
      case Some(h) =>
        ApplyHit(Comment, s, h);
        CommentsRemoved(s[h.len..]);
      case None =>
        ApplyMiss(Comment, s);
        CommentsRemoved(s[1..]);
    }
  }

  /** Line 99 leaves no brace. */
  lemma {:induction false} BracesRemoved(s: string)
    ensures '{' !in Apply(Brace, s) && '}' !in Apply(Brace, s)
    decreases |s|
  {
    if |s| > 0 {
      match MatchAt(Brace, s)
      case Some(h) =>
        ApplyHit(Brace, s, h);
        BracesRemoved(s[h.len..]);
      case None =>
        ApplyMiss(Brace, s);
        BracesRemoved(s[1..]);
    }
  }

  /** Line 101 leaves no tab and no two spaces in a row; its result starts
      with a space only where the input starts with a space or a tab. */
  lemma {:induction false} BlanksShape(s: string)
    ensures NoTab(Apply(Blanks, s)) && SingleSpaced(Apply(Blanks, s))
    ensures var r := Apply(Blanks, s); |r| > 0 && r[0] == ' ' ==> |s| > 0 && InClass(s[0], Blank)
    decreases |s|
  {
    if |s| > 0 {
      match MatchAt(Blanks, s)
      case Some(h) =>
        ApplyHit(Blanks, s, h);
        BlanksShape(s[h.len..]);
        BlankRunAfter(s, h.len);
        SpacePrefix(Apply(Blanks, s[h.len..]));
      case None =>
        ApplyMiss(Blanks, s);
        BlanksShape(s[1..]);
        CharBefore(s[0], Apply(Blanks, s[1..]));
    }
  }

  /** What follows a maximal run of blanks does not start with one. */
  lemma BlankRunAfter(s: string, n: nat)
    requires n == Span(s, Blank)
    ensures |s[n..]| == 0 || !InClass(s[n..][0], Blank)
  {
  }

  /** A single space in front of text without tabs or doubled spaces that
      does not start with a space keeps both properties. */
  lemma SpacePrefix(t: string)
    requires NoTab(t) && SingleSpaced(t) && (|t| == 0 || t[0] != ' ')
    ensures NoTab(" " + t) && SingleSpaced(" " + t)
  {
    var r := " " + t;
    assert forall i :: 1 <= i < |r| ==> r[i] == t[i - 1];
  }

  /** A character other than a blank in front of text without tabs or
      doubled spaces keeps both properties. */
  lemma CharBefore(c: char, t: string)
    requires !InClass(c, Blank) && NoTab(t) && SingleSpaced(t)
    ensures NoTab([c] + t) && SingleSpaced([c] + t)
  {
    var r := [c] + t;
    assert forall i :: 1 <= i < |r| ==> r[i] == t[i - 1];
  }

  /** Line 102 keeps the first character and shortens a leading run of
      newlines only down to two. */
  lemma {:induction false} BlankLinesPrefix(s: string)
    ensures var r := Apply(BlankLines, s);
      && (|s| > 0 ==> |r| > 0 && r[0] == s[0])
      && Span(r, Newline) == (if Span(s, Newline) >= 3 then 2 else Span(s, Newline))
    decreases |s|
  {
    var r := Apply(BlankLines, s);
    if |s| > 0 {
      match MatchAt(BlankLines, s)
      case Some(h) =>
        ApplyHit(BlankLines, s, h);
        var rest := s[h.len..];
        BlankLinesPrefix(rest);
        var tail := Apply(BlankLines, rest);
        assert r == "\n\n" + tail;
        assert r[1..][1..] == tail;
      case None =>
        ApplyMiss(BlankLines, s);
        var rest := s[1..];
        BlankLinesPrefix(rest);
        assert r[1..] == Apply(BlankLines, rest);
    }
  }

  /** Line 102 leaves no run of three newlines. */
  lemma {:induction false} BlankLinesShape(s: string)
    ensures NoTripleNewline(Apply(BlankLines, s))
    decreases |s|
  {
    if |s| > 0 {
      BlankLinesPrefix(s);
      match MatchAt(BlankLines, s)
      case Some(h) =>
        ApplyHit(BlankLines, s, h);
        var rest := s[h.len..];
        BlankLinesShape(rest);
        NewlinesBefore("\n\n", Apply(BlankLines, rest));
      case None =>
        ApplyMiss(BlankLines, s);
        var rest := s[1..];
        BlankLinesShape(rest);
        var tail := Apply(BlankLines, rest);
        if s[0] == '\n' {
          NewlinesBefore([s[0]], tail);
        } else {
          OtherBefore(s[0], tail);
        }
    }
  }

  /** A character other than a newline in front of text without a triple
      newline makes none. */
  lemma OtherBefore(c: char, t: string)
    requires c != '\n' && NoTripleNewline(t)
    ensures NoTripleNewline([c] + t)
  {
    var r := [c] + t;
    assert forall i :: 1 <= i < |r| ==> r[i] == t[i - 1];
  }

  /** Newlines put in front of text without a triple newline make none,
      as long as the text they start has at most two leading newlines. */
  lemma {:induction false} NewlinesBefore(p: string, t: string)
    requires forall i :: 0 <= i < |p| ==> p[i] == '\n'
    requires NoTripleNewline(t)
    requires Span(p + t, Newline) <= 2
    ensures NoTripleNewline(p + t)
  {
    var r := p + t;
    forall i | 0 <= i < |r| - 2
      ensures !(r[i] == '\n' && r[i + 1] == '\n' && r[i + 2] == '\n')
    {
      if i >= |p| {
        assert r[i] == t[i - |p|] && r[i + 1] == t[i + 1 - |p|] && r[i + 2] == t[i + 2 - |p|];
      }
    }
  }

  /** Line 102 never puts two spaces side by side. */
  lemma {:induction false} BlankLinesKeepsSpacing(s: string)
    requires SingleSpaced(s)
    ensures SingleSpaced(Apply(BlankLines, s))
    decreases |s|
  {
    var r := Apply(BlankLines, s);
    if |s| > 0 {
      match MatchAt(BlankLines, s)
      case Some(h) =>
        ApplyHit(BlankLines, s, h);
        var rest := s[h.len..];
        SpacedSuffix(s, h.len);
        BlankLinesKeepsSpacing(rest);
        var tail := Apply(BlankLines, rest);
        assert r == "\n\n" + tail;
        assert forall i :: 2 <= i < |r| ==> r[i] == tail[i - 2];
      case None =>
        ApplyMiss(BlankLines, s);
        var rest := s[1..];
        SpacedSuffix(s, 1);
        BlankLinesKeepsSpacing(rest);
        BlankLinesPrefix(rest);
        var tail := Apply(BlankLines, rest);
        assert r == [s[0]] + tail;
        assert forall i :: 1 <= i < |r| ==> r[i] == tail[i - 1];
    }
  }

  lemma SpacedSuffix(s: string, k: nat)
    requires k <= |s| && SingleSpaced(s)
    ensures SingleSpaced(s[k..])
  {
    assert forall i :: 0 <= i < |s| - k ==> s[k..][i] == s[k + i];
  }

  // ---------------------------------------------------------------------------
  // Plain text and idempotence
  // ---------------------------------------------------------------------------

  /** Line 101 leaves single-spaced text without tabs unchanged. */
  lemma {:induction false} BlanksIdentity(s: string)
    requires NoTab(s) && SingleSpaced(s)
    ensures Apply(Blanks, s) == s
    decreases |s|
  {
    if |s| > 0 {
      var rest := s[1..];
      assert NoTab(rest) && SingleSpaced(rest) by {
        assert forall i :: 0 <= i < |rest| ==> rest[i] == s[i + 1];
      }
      BlanksIdentity(rest);
      if InClass(s[0], Blank) {
        assert s[0] == ' ';
        if |s| > 1 {
          assert s[1] in s;
          assert !InClass(rest[0], Blank);
        }
        assert Span(rest, Blank) == 0;
        assert MatchAt(Blanks, s) == Some(Hit(1, " "));
      } else {
        assert MatchAt(Blanks, s).None?;
      }
    }
  }

  /** Line 102 leaves text without a triple newline unchanged. */
  lemma {:induction false} BlankLinesIdentity(s: string)
    requires NoTripleNewline(s)
    ensures Apply(BlankLines, s) == s
    decreases |s|
  {
    if |s| > 0 {
      NoTripleTail(s);
      BlankLinesIdentity(s[1..]);
      NoTripleNoRun(s);
      ApplyMiss(BlankLines, s);
    }
  }

  lemma NoTripleTail(s: string)
    requires |s| > 0 && NoTripleNewline(s)
    ensures NoTripleNewline(s[1..])
  {
    assert forall i :: 0 <= i < |s| - 1 ==> s[1..][i] == s[i + 1];
  }

  /** Without a triple newline, line 102 has no match anywhere. */
  lemma NoTripleNoRun(s: string)
    requires NoTripleNewline(s)
    ensures Span(s, Newline) < 3
  {
    assert |s| >= 3 ==> !(s[0] == '\n' && s[1] == '\n' && s[2] == '\n');
  }

  /** Text already in the shape `strip_latex` gives its results. */
  predicate Normal(s: string) {
    NoTab(s) && SingleSpaced(s) && NoTripleNewline(s) && Trimmed(s)
  }

  /** Lines 101-103 leave text already in that shape unchanged. */
  lemma {:induction false} NormalFixpoint(s: string)
    requires Normal(s)
    ensures Trim(NormaliseSpace(s)) == s
  {
    BlanksIdentity(s);
    BlankLinesIdentity(s);
    TrimOfTrimmed(s);
  }

  /** A single newline in front of text in that shape is all lines 101-103
      remove. */
  lemma {:induction false} LeadingNewline(s: string)
    requires Normal(s) && |s| > 0
    ensures Trim(NormaliseSpace("\n" + s)) == s
  {
    var t := "\n" + s;
    NewlineBeforeNormal(s, t);
    BlanksIdentity(t);
    BlankLinesIdentity(t);
    TrimOfTrimmed(s);
  }

  /** A newline in front of trimmed text in that shape keeps its spacing
      and is the only whitespace `str.lstrip()` removes. */
  lemma NewlineBeforeNormal(s: string, t: string)
    requires Normal(s) && |s| > 0 && t == "\n" + s
    ensures NoTab(t) && SingleSpaced(t) && NoTripleNewline(t)
    ensures TrimStart(t) == TrimStart(s)
  {
    assert forall i :: 0 <= i < |s| ==> t[i + 1] == s[i];
    assert t[1] == s[0] && IsSpace('\n') && IsSpace(' ');
    assert t[1..] == s;
  }

  lemma {:induction false} CommentInert(text: string)
    requires '%' !in text
    ensures Apply(Comment, text) == text
  {
    assert forall c :: c in Leads(Comment) ==> c == '%';
  }

  lemma {:induction false} BraceInert(text: string)
    requires '{' !in text && '}' !in text
    ensures Apply(Brace, text) == text
  {
    assert forall c :: c in Leads(Brace) ==> c == '{' || c == '}';
  }

  lemma {:induction false} CommandRulesAreCommands()
    ensures forall rule :: rule in CommandRules ==> IsCommand(rule)
  {
  }

  /** Text with no backslash, `%` or brace passes lines 68-99 unchanged. */
  lemma {:induction false} MarkupInert(text: string)
    requires '\\' !in text && '%' !in text && '{' !in text && '}' !in text
    ensures ApplyAll(MarkupRules, text) == text
  {
    PipelineStages(text);
    CommentInert(text);
    CommandRulesAreCommands();
    CommandsInert(CommandRules, text);
    BraceInert(text);
  }

  /** On text with no backslash, `%` or brace, stripping only normalises
      whitespace and trims. */
  lemma {:induction false} PlainTextOnlyNormalises(text: string)
    requires '\\' !in text && '%' !in text && '{' !in text && '}' !in text
    ensures StripLatex(text) == Trim(NormaliseSpace(text))
  {
    MarkupInert(text);
  }

  /** Stripping a result that has no backslash left changes nothing. */
  lemma {:induction false} StripIdempotent(text: string)
    requires '\\' !in StripLatex(text)
    ensures StripLatex(StripLatex(text)) == StripLatex(text)
  {
    var y := StripLatex(text);
    PlainTextOnlyNormalises(y);
    BlanksIdentity(y);
    BlankLinesIdentity(y);
    TrimOfTrimmed(y);
  }

  /** Stripping is idempotent on any input without a backslash: the only
      characters it adds are markers, never a backslash. */
  lemma {:induction false} PlainTextIdempotent(text: string)
    requires '\\' !in text
    ensures StripLatex(StripLatex(text)) == StripLatex(text)
  {
    NoBackslashAdded(text, StripLatex(text));
    StripIdempotent(text);
  }

  /** No marker is a backslash, so a result using only the input's
      characters and markers has a backslash only where the input has one. */
  lemma NoBackslashAdded(text: string, r: string)
    requires '\\' !in text
    requires forall c :: c in r ==> c in text || IsMarker(c)
    ensures '\\' !in r
  {
    assert !IsMarker('\\');
  }
}
