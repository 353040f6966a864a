/**
 Paragraph splitting in `build_index` (build_search_index.py:122-126):
 `re.split(r'\n\n+', clean)` cuts the text at every maximal run of two or
 more newlines, then each piece is stripped and kept when its stripped
 length reaches the minimum.
 */
module Segment {
  import opened Text

  /** Where the first blank line (two newlines in a row) starts, if any. */
  function BreakAt(s: string): (i: Option<nat>)
    ensures i.Some? ==> i.value + 1 < |s| && s[i.value] == '\n' && s[i.value + 1] == '\n'
    decreases |s|
  {
    if |s| < 2 then None
    else if s[0] == '\n' && s[1] == '\n' then Some(0)
    else
      match BreakAt(s[1..])
      case None => None
      case Some(j) => Some(j + 1)
  }

  /** `BreakAt` finds the first blank line: there is none before it, and
      none at all when it finds nothing. */
  lemma {:induction false} BreakAtFirst(s: string)
    ensures BreakAt(s).None? ==> NoBlankLine(s)
    ensures BreakAt(s).Some? ==> NoBlankLine(s[..BreakAt(s).value + 1])
    decreases |s|
  {
    if |s| >= 2 && !(s[0] == '\n' && s[1] == '\n') {
      BreakAtFirst(s[1..]);
      match BreakAt(s[1..])
      case None =>
        NoBlankCons(s);
      case Some(j) =>
        var t := s[..j + 2];
        assert t[1..] == s[1..][..j + 1];
        NoBlankCons(t);
    }
  }

  /** A text whose first two characters are not both newlines, followed by
      no blank line, has none. */
  lemma NoBlankCons(t: string)
    requires |t| >= 2 && !(t[0] == '\n' && t[1] == '\n') && NoBlankLine(t[1..])
    ensures NoBlankLine(t)
  {
    forall i, j | 0 <= i < j < |t| && j == i + 1
      ensures !(t[i] == '\n' && t[j] == '\n')
    {
      if i > 0 {
        assert t[i] == t[1..][i - 1] && t[j] == t[1..][j - 1];
      }
    }
  }

  /** A run of at least two newlines has a span of at least two. */
  lemma {:induction false} NewlineRun(s: string)
    requires |s| > 1 && s[0] == '\n' && s[1] == '\n'
    ensures Span(s, Newline) >= 2
  {
    assert Span(s, Newline) == 1 + Span(s[1..], Newline);
    assert s[1..][0] == '\n';
  }

  /** `re.split(r'\n\n+', s)`: the pieces between maximal runs of two or more
      newlines, empty pieces included. */
  function Split(s: string): (parts: seq<string>)
    ensures |parts| >= 1
    decreases |s|
  {
    match BreakAt(s)
    case None => [s]
    case Some(i) =>
      NewlineRun(s[i..]);
      [s[..i]] + Split(s[i + Span(s[i..], Newline)..])
  }

  /** A text without a blank line is one piece. */
  lemma {:induction false} SplitWhole(s: string)
    requires NoBlankLine(s)
    ensures Split(s) == [s]
  {
  }

  /** No piece holds a blank line. */
  lemma {:induction false} SplitPieces(s: string)
    ensures forall p :: p in Split(s) ==> NoBlankLine(p)
    decreases |s|
  {
    BreakAtFirst(s);
    match BreakAt(s)
    case None =>
    case Some(i) =>
      NewlineRun(s[i..]);
      var n := Span(s[i..], Newline);
      SplitAt(s, i, n);
      SplitPieces(s[i + n..]);
      InfixNoBlankLine(s[..i + 1], 0, i);
      assert s[..i] == s[..i + 1][0..i];
  }

  /** The pieces put back together with a blank line between neighbours. */
  function Join(parts: seq<string>): string
    decreases |parts|
  {
    if |parts| == 0 then ""
    else if |parts| == 1 then parts[0]
    else parts[0] + "\n\n" + Join(parts[1..])
  }

  /** Text with no run of three newlines is its pieces joined by blank lines:
      splitting loses nothing but the separators, and those are all `\n\n`. */
  lemma {:induction false} JoinSplit(s: string)
    requires NoTripleNewline(s)
    ensures Join(Split(s)) == s
    decreases |s|
  {
    match BreakAt(s)
    case None =>
    case Some(i) =>
      var rest := s[i + 2..];
      DoubleBreak(s, i);
      JoinSplit(rest);
      JoinCons(s[..i], Split(rest));
  }

  /** With no run of three newlines, every break is exactly two newlines. */
  lemma {:induction false} DoubleBreak(s: string, i: nat)
    requires NoTripleNewline(s) && BreakAt(s) == Some(i)
    ensures i + 2 <= |s| && s == s[..i] + "\n\n" + s[i + 2..]
    ensures Split(s) == [s[..i]] + Split(s[i + 2..])
    ensures NoTripleNewline(s[i + 2..])
  {
    BreakOfTwo(s, i);
    SplitAt(s, i, 2);
    NoTripleSuffix(s, i + 2);
  }

  lemma NoTripleSuffix(s: string, k: nat)
    requires NoTripleNewline(s) && k <= |s|
    ensures NoTripleNewline(s[k..])
  {
    var t := s[k..];
    assert forall i :: 0 <= i < |t| ==> t[i] == s[k + i];
  }

  lemma {:induction false} BreakOfTwo(s: string, i: nat)
    requires NoTripleNewline(s) && i + 1 < |s| && s[i] == '\n' && s[i + 1] == '\n'
    ensures Span(s[i..], Newline) == 2
    ensures s == s[..i] + "\n\n" + s[i + 2..]
  {
    var t := s[i..];
    assert |t| == 2 || t[2] != '\n' by {
      if |t| > 2 {
        assert t[2] == s[i + 2];
      }
    }
    assert t == "\n\n" + t[2..];
    RunOfTwo(t[2..]);
  }

  /** One step of `Split`. */
  lemma {:induction false} SplitAt(s: string, i: nat, n: nat)
    requires BreakAt(s) == Some(i) && n == Span(s[i..], Newline)
    ensures i + n <= |s|
    ensures Split(s) == [s[..i]] + Split(s[i + n..])
  {
    assert n <= |s[i..]|;
    match BreakAt(s)
    case Some(j) =>
      assert j == i;
  }

  lemma {:induction false} JoinCons(p: string, parts: seq<string>)
    requires |parts| >= 1
    ensures Join([p] + parts) == p + "\n\n" + Join(parts)
  {
    assert ([p] + parts)[1..] == parts;
  }

  /** Pieces that `Split` could have produced: none holds a blank line, none
      but the first and the last is empty, no piece but the first starts with
      a newline and no piece but the last ends with one. */
  ghost predicate Separable(parts: seq<string>) {
    && (forall k :: 0 <= k < |parts| ==> NoBlankLine(parts[k]))
    && (forall k :: 0 < k < |parts| - 1 ==> |parts[k]| > 0)
    && (forall k :: 0 < k < |parts| ==> |parts[k]| == 0 || parts[k][0] != '\n')
    && (forall k :: 0 <= k < |parts| - 1 ==> |parts[k]| == 0 || parts[k][|parts[k]| - 1] != '\n')
  }

  lemma {:induction false} FirstBreak(p: string, rest: string)
    requires NoBlankLine(p) && (|p| == 0 || p[|p| - 1] != '\n')
    ensures BreakAt(p + "\n\n" + rest) == Some(|p|)
    decreases |p|
  {
    var s := p + "\n\n" + rest;
    if |p| > 0 {
      assert s[1..] == p[1..] + "\n\n" + rest;
      InfixNoBlankLine(p, 1, |p|);
      FirstBreak(p[1..], rest);
      if |p| == 1 {
        assert s[1] == '\n';
      } else {
        assert s[1] == p[1];
      }
    }
  }

  lemma {:induction false} RunOfTwo(rest: string)
    requires |rest| == 0 || rest[0] != '\n'
    ensures Span("\n\n" + rest, Newline) == 2
  {
    var s := "\n\n" + rest;
    assert s[1..] == "\n" + rest;
    assert s[1..][1..] == rest;
  }

  /** One piece, a blank line, and text that does not start with a newline:
      the piece is split off and the scan goes on after the blank line. */
  lemma {:induction false} SplitJoinStep(p: string, rest: string)
    requires NoBlankLine(p) && (|p| == 0 || p[|p| - 1] != '\n')
    requires |rest| == 0 || rest[0] != '\n'
    ensures Split(p + "\n\n" + rest) == [p] + Split(rest)
  {
    var s := p + "\n\n" + rest;
    FirstBreak(p, rest);
    assert s[|p|..] == "\n\n" + rest;
    RunOfTwo(rest);
    SplitAt(s, |p|, 2);
    assert s[|p| + 2..] == rest;
    assert s[..|p|] == p;
  }

  lemma SeparableTail(parts: seq<string>)
    requires |parts| >= 1 && Separable(parts)
    ensures Separable(parts[1..])
  {
    var tail := parts[1..];
    assert forall k :: 0 <= k < |tail| ==> tail[k] == parts[k + 1];
  }

  /** Splitting undoes joining, for every list of pieces `Split` could produce. */
  lemma {:induction false} SplitJoin(parts: seq<string>)
    requires |parts| >= 1 && Separable(parts)
    ensures Split(Join(parts)) == parts
    decreases |parts|
  {
    if |parts| == 1 {
      SplitWhole(parts[0]);
    } else {
      var p := parts[0];
      var tail := parts[1..];
      assert NoBlankLine(p) && (|p| == 0 || p[|p| - 1] != '\n');
      SeparableTail(parts);
      JoinStart(tail);
      assert |tail| > 1 ==> |tail[0]| > 0;
      assert |tail[0]| > 0 ==> tail[0][0] != '\n';
      var rest := Join(tail);
      SplitJoinStep(p, rest);
      SplitJoin(tail);
      assert Join(parts) == p + "\n\n" + rest;
      assert parts == [p] + tail;
    }
  }

  /** A join starts with its first piece. */
  lemma {:induction false} JoinStart(parts: seq<string>)
    requires |parts| >= 1
    ensures |parts[0]| <= |Join(parts)| && Join(parts)[..|parts[0]|] == parts[0]
    ensures |parts[0]| == 0 && |parts| > 1 ==> Join(parts)[0] == '\n'
    ensures |parts[0]| > 0 ==> Join(parts)[0] == parts[0][0]
  {
    if |parts| > 1 {
      assert Join(parts) == parts[0] + "\n\n" + Join(parts[1..]);
    }
  }

  // ---------------------------------------------------------------------------
  // Kept paragraphs
  // ---------------------------------------------------------------------------

  /** Every piece with `str.strip()` applied. */
  function Stripped(parts: seq<string>): (ps: seq<string>)
    ensures |ps| == |parts|
    ensures forall p :: p in ps ==> Trimmed(p)
  {
    seq(|parts|, k requires 0 <= k < |parts| => Trim(parts[k]))
  }

  /** The texts that are at least `min` characters long, in order. */
  function LongEnough(ps: seq<string>, min: nat): (r: seq<string>)
    ensures |r| <= |ps|
    ensures forall p :: p in r ==> p in ps && |p| >= min
    decreases |ps|
  {
    if |ps| == 0 then []
    else (if |ps[0]| >= min then [ps[0]] else []) + LongEnough(ps[1..], min)
  }

  /** The paragraphs of a cleaned document (lines 122-126): the stripped
      pieces that are at least `min` characters long. */
  function Paragraphs(clean: string, min: nat): (r: seq<string>)
    ensures |r| <= |Split(clean)|
    ensures forall p :: p in r ==> Trimmed(p) && |p| >= min
  {
    LongEnough(Stripped(Split(clean)), min)
  }

  /** `xs` is `ys` with some elements left out and the rest in their order. */
  ghost predicate Subsequence<T>(xs: seq<T>, ys: seq<T>)
    decreases |ys|
  {
    if |xs| == 0 then true
    else if |ys| == 0 then false
    else (xs[0] == ys[0] && Subsequence(xs[1..], ys[1..])) || Subsequence(xs, ys[1..])
  }

  /** Filtering keeps the survivors in their order. */
  lemma {:induction false} LongEnoughInOrder(ps: seq<string>, min: nat)
    ensures Subsequence(LongEnough(ps, min), ps)
    decreases |ps|
  {
    if |ps| > 0 {
      LongEnoughInOrder(ps[1..], min);
      var r := LongEnough(ps, min);
      if |ps[0]| >= min {
        assert r == [ps[0]] + LongEnough(ps[1..], min);
        assert r[1..] == LongEnough(ps[1..], min);
      } else {
        assert r == LongEnough(ps[1..], min);
        SubsequenceOfTail(r, ps);
      }
    }
  }

  lemma SubsequenceOfTail<T>(xs: seq<T>, ys: seq<T>)
    requires |ys| > 0 && Subsequence(xs, ys[1..])
    ensures Subsequence(xs, ys)
  {
  }

  /** The paragraphs are the long enough stripped pieces of the text, in the
      order the pieces have in it. */
  lemma {:induction false} ParagraphsInOrder(clean: string, min: nat)
    ensures Subsequence(Paragraphs(clean, min), Stripped(Split(clean)))
  {
    LongEnoughInOrder(Stripped(Split(clean)), min);
  }

  /** Nothing long enough is dropped. */
  lemma {:induction false} LongEnoughKeeps(ps: seq<string>, min: nat, p: string)
    requires p in ps && |p| >= min
    ensures p in LongEnough(ps, min)
    decreases |ps|
  {
    if ps[0] != p {
      LongEnoughKeeps(ps[1..], min, p);
    }
  }

  /** Filtering distributes over concatenation: paragraphs keep the order of
      the pieces. */
  lemma {:induction false} LongEnoughAppend(a: seq<string>, b: seq<string>, min: nat)
    ensures LongEnough(a + b, min) == LongEnough(a, min) + LongEnough(b, min)
    decreases |a|
  {
    if |a| == 0 {
      assert a + b == b;
    } else {
      assert (a + b)[0] == a[0];
      assert (a + b)[1..] == a[1..] + b;
      LongEnoughAppend(a[1..], b, min);
    }
  }

  /** When nothing is long enough, nothing is kept. */
  lemma {:induction false} NoneLongEnough(ps: seq<string>, min: nat)
    requires forall p :: p in ps ==> |p| < min
    ensures LongEnough(ps, min) == []
    decreases |ps|
  {
    if |ps| > 0 {
      assert ps[0] in ps;
      assert forall p :: p in ps[1..] ==> p in ps;
      NoneLongEnough(ps[1..], min);
    }
  }

  /** A text is kept exactly when it is long enough. */
  lemma {:induction false} LongEnoughMembers(ps: seq<string>, min: nat, p: string)
    ensures p in LongEnough(ps, min) <==> p in ps && |p| >= min
  {
    if p in ps && |p| >= min {
      LongEnoughKeeps(ps, min, p);
    }
  }

  /** A stripped piece is the stripped form of some piece. */
  lemma {:induction false} StrippedMembers(parts: seq<string>, p: string)
    ensures p in Stripped(parts) <==> exists k :: 0 <= k < |parts| && Trim(parts[k]) == p
  {
    var ps := Stripped(parts);
    if exists k :: 0 <= k < |parts| && Trim(parts[k]) == p {
      var k :| 0 <= k < |parts| && Trim(parts[k]) == p;
      assert ps[k] == p;
    }
  }

  /** A stripped piece is kept exactly when it is long enough. */
  lemma {:induction false} KeptMembers(parts: seq<string>, min: nat, p: string)
    ensures p in LongEnough(Stripped(parts), min)
        <==> |p| >= min && exists k :: 0 <= k < |parts| && Trim(parts[k]) == p
  {
    LongEnoughMembers(Stripped(parts), min, p);
    StrippedMembers(parts, p);
  }

  /** A paragraph is kept exactly when it is the stripped form of some piece
      and is long enough. */
  lemma {:induction false} ParagraphMembers(clean: string, min: nat, p: string)
    ensures p in Paragraphs(clean, min) ==> |p| >= min && exists k :: 0 <= k < |Split(clean)| && Trim(Split(clean)[k]) == p
    ensures (|p| >= min && exists k :: 0 <= k < |Split(clean)| && Trim(Split(clean)[k]) == p) ==> p in Paragraphs(clean, min)
  {
    KeptMembers(Split(clean), min, p);
  }

  /** Character-level facts about a text that every piece inherits. */
  predicate Clean(s: string) {
    '{' !in s && '}' !in s && '%' !in s && NoTab(s) && SingleSpaced(s)
  }

  lemma {:induction false} CleanInfix(s: string, lo: nat, hi: nat)
    requires lo <= hi <= |s| && Clean(s)
    ensures Clean(s[lo..hi])
    ensures forall c :: c in s[lo..hi] ==> c in s
  {
    InfixSpacing(s, lo, hi);
    InfixChars(s, lo, hi);
  }

  /** Every piece keeps the text's character-level facts and uses only its
      characters. */
  lemma {:induction false} SplitClean(s: string)
    requires Clean(s)
    ensures forall p :: p in Split(s) ==> Clean(p) && forall c :: c in p ==> c in s
    decreases |s|
  {
    match BreakAt(s)
    case None =>
    case Some(i) =>
      NewlineRun(s[i..]);
      var n := Span(s[i..], Newline);
      SplitAt(s, i, n);
      CleanInfix(s, 0, i);
      CleanInfix(s, i + n, |s|);
      assert s[i + n..] == s[i + n..|s|];
      SplitClean(s[i + n..]);
  }

  /** A stripped piece keeps the facts of the piece. */
  lemma {:induction false} TrimClean(p: string)
    requires Clean(p) && NoBlankLine(p)
    ensures Clean(Trim(p)) && NoBlankLine(Trim(p))
    ensures forall c :: c in Trim(p) ==> c in p
  {
    TrimInfix(p);
    CleanAt(p, LeadingSpace(p), Trim(p));
  }

  /** The infix `r` of `s` at `k` keeps the facts of `s`. */
  lemma {:induction false} CleanAt(s: string, k: nat, r: string)
    requires k + |r| <= |s| && r == s[k..k + |r|]
    requires Clean(s) && NoBlankLine(s)
    ensures Clean(r) && NoBlankLine(r)
    ensures forall c :: c in r ==> c in s
  {
    CleanInfix(s, k, k + |r|);
    InfixNoBlankLine(s, k, k + |r|);
  }

  /** A passage the index stores: clean, stripped, free of blank lines and
      at least `min` characters long. */
  ghost predicate Passage(p: string, min: nat) {
    Clean(p) && NoBlankLine(p) && Trimmed(p) && |p| >= min
  }

  /** Every stripped clean piece is clean, has no blank line and uses only
      the text's characters. */
  lemma {:induction false} StrippedClean(parts: seq<string>, s: string)
    requires forall p :: p in parts ==> Clean(p) && NoBlankLine(p) && forall c :: c in p ==> c in s
    ensures forall p :: p in Stripped(parts) ==> Clean(p) && NoBlankLine(p) && forall c :: c in p ==> c in s
  {
    forall p | p in Stripped(parts)
      ensures Clean(p) && NoBlankLine(p) && forall c :: c in p ==> c in s
    {
      var k :| 0 <= k < |parts| && Stripped(parts)[k] == p;
      assert parts[k] in parts;
      TrimClean(parts[k]);
    }
  }

  /** Every paragraph of a clean text is a passage made of its characters. */
  lemma {:induction false} ParagraphPassages(clean: string, min: nat)
    requires Clean(clean)
    ensures forall p :: p in Paragraphs(clean, min) ==> Passage(p, min) && forall c :: c in p ==> c in clean
  {
    SplitClean(clean);
    SplitPieces(clean);
    StrippedClean(Split(clean), clean);
  }

  /** Text shorter than the minimum yields no paragraph. */
  lemma {:induction false} ShortText(clean: string, min: nat)
    requires |clean| < min
    ensures Paragraphs(clean, min) == []
  {
    var ps := Stripped(Split(clean));
    forall p | p in ps
      ensures |p| < min
    {
      var k :| 0 <= k < |ps| && ps[k] == p;
      PieceLength(clean, Split(clean)[k]);
    }
    NoneLongEnough(ps, min);
  }

  /** No piece is longer than the text. */
  lemma {:induction false} PieceLength(s: string, p: string)
    requires p in Split(s)
    ensures |p| <= |s|
    decreases |s|
  {
    match BreakAt(s)
    case None =>
    case Some(i) =>
      NewlineRun(s[i..]);
      var n := Span(s[i..], Newline);
      SplitAt(s, i, n);
      if p != s[..i] {
        PieceLength(s[i + n..], p);
      }
  }
}
