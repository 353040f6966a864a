# Governance search index builder, modelled in Dafny

`build_search_index.py` turns the LaTeX sources of the New Doggerland
governance documents into a flat search index. This project models the two
parts of it that hold logic, and proves properties about them.

- `strip_latex` converts LaTeX into plain searchable text by running 25
  `re.sub` substitutions in a fixed order and then `str.strip()`:
  - comments;
  - environment delimiters and preamble commands;
  - headings become `## ` markers;
  - formatting commands are unwrapped;
  - list items become bullets;
  - links keep their text;
  - metadata and the remaining commands are deleted;
  - braces are deleted;
  - whitespace is normalised.
- `build_index` handles each `.tex` file in turn:
  - it skips style files;
  - it takes the file code from the name and looks up its label;
  - it strips the file;
  - it splits the text on blank lines;
  - it keeps every trimmed paragraph of at least 50 characters as one entry;
  - it records one summary per file.

  The index's metadata then adds the version, the date, the repository name,
  the entry count and the category table.

Modules, in dependency order:

- `Text` (text.dfy): Python's whitespace set, greedy character-class runs, `str.strip()`, and the shape predicates used below.
- `Rules` (rules.dfy):
  - one `Rule` per pattern the stripper uses, with a hand-written matcher (`MatchAt`) for that one pattern;
  - `Apply`, which is `re.sub`'s left-to-right, non-overlapping scan;
  - `ApplyAll`, which runs a list of rules in order.
- `Strip` (strip.dfy): the pipeline in source order, `StripLatex`, and what each stage guarantees.
- `StripExamples` (examples.dfy): what each command rule does where it matches; the worked inputs for bold text, sections, links, environments and comments; and a backslash that survives. Each is stated for all surrounding plain text, and the bold and heading inputs are also proved on their literal strings.
- `Segment` (segment.dfy): `re.split(r'\n\n+', …)`, the strip-and-filter comprehension, and its inverse `Join`.
- `Registry` (registry.dfy): `FILE_LABELS`, `CATEGORIES`, `MIN_PARAGRAPH_LENGTH` and the repository name.
- `Index` (index.dfy): file-name handling, per-file processing, the fold over the files that builds the index, and a loop version of `build_index` proved equal to the fold.

## Model

| member | source | states |
|---|---|---|
| Registry.CategoryLabelled | build_search_index.py:52-58 | every code a category lists has a label and is five characters long, the width of the prefix the builder looks up |
| Registry.LabelledCategorised | build_search_index.py:34-50 | every labelled code is listed by some category |
| Text.IsSpace | build_search_index.py:103 | the whitespace of `str.strip()`, and of `\s` on line 87, includes space, tab, newline and carriage return, and excludes the letters and the markup characters `\`, `{`, `}` and `%` |
| Text.TrimStart | build_search_index.py:103 | `str.lstrip()` removes a whitespace-only prefix, and what it returns is a suffix of the input that does not start with whitespace |
| Text.TrimEnd | build_search_index.py:103 | `str.rstrip()` removes a whitespace-only suffix, and what it returns is a prefix of the input that does not end with whitespace |
| Text.Trim | build_search_index.py:103 | `str.strip()` returns text no longer than its input that neither starts nor ends with whitespace |
| Text.TrimInfix | build_search_index.py:103 | `str.strip()` keeps exactly the infix between a whitespace-only prefix and a whitespace-only suffix |
| Rules.BracedAt | build_search_index.py:70-95 | a `\{([^}]*)\}` / `\{([^}]+)\}` group opens at `{`, closes at the first `}` after it, and with `+` is not empty |
| Rules.MatchAt | build_search_index.py:68-102 | every pattern match starts with one of the pattern's leading characters and consumes at least one character; it writes only characters it consumed or characters of the pattern's replacement text |
| Rules.LiteralMarkers | build_search_index.py:76-102 | replacement texts add nothing but newlines, `#`, spaces and the bullet |
| Rules.Apply | build_search_index.py:68-102 | `re.sub` writes only input characters and replacement characters; text without any of the pattern's leading characters comes out unchanged |
| Rules.ScanInert | build_search_index.py:68-102 | a prefix holding none of the pattern's leading characters is copied, and the rest is scanned as if alone |
| Rules.InertPrefix | build_search_index.py:68-102 | the same for a single rule: `Apply(rule, a + b) == a + Apply(rule, b)` |
| Rules.ApplyAllAppend | build_search_index.py:68-102 | running two lists of substitutions one after the other equals running their concatenation |
| Rules.CommandsInert | build_search_index.py:70-97 | text without a backslash passes every command substitution unchanged |
| Strip.StripLatex | build_search_index.py:65-103 | the result has no `{`, `}` or `%`, no tab, no two spaces in a row, no run of three newlines, and no leading or trailing whitespace; every character in it is in the input or is a newline, `#`, space or bullet |
| Strip.PipelineStages | build_search_index.py:68-102 | the pipeline is comment removal, then the command substitutions, then brace removal, then the two whitespace rules |
| Strip.StripIsPipeline | build_search_index.py:68-103 | `strip_latex` is the 25 substitutions run in source order, followed by `str.strip()` |
| Strip.NormaliseSpace | build_search_index.py:101-102 | the two whitespace rules leave no tab, no two spaces in a row and no run of three newlines, and add nothing but spaces and newlines |
| Strip.MarkupShape | build_search_index.py:68-99 | after the markup stages no brace and no `%` remains, and only markers have been added |
| Strip.CommentsRemoved | build_search_index.py:68 | no `%` survives the comment rule |
| Strip.BracesRemoved | build_search_index.py:99 | no brace survives the brace rule |
| Strip.BlanksShape | build_search_index.py:101 | after the rule for runs of spaces and tabs there is no tab and no two spaces in a row |
| Strip.BlankLinesPrefix | build_search_index.py:102 | a leading run of newlines is cut to two when it has three or more and kept otherwise |
| Strip.BlankLinesShape | build_search_index.py:102 | after the newline rule there is no run of three newlines |
| Strip.BlankLinesKeepsSpacing | build_search_index.py:102 | the newline rule keeps text single-spaced |
| Strip.BlanksIdentity | build_search_index.py:101 | text without tabs or double spaces is unchanged by the rule for runs of spaces and tabs |
| Strip.BlankLinesIdentity | build_search_index.py:102 | text without triple newlines is unchanged by the newline rule |
| Strip.NormalFixpoint | build_search_index.py:101-103 | normalised, trimmed text is a fixed point of the last three steps |
| Strip.LeadingNewline | build_search_index.py:101-103 | a newline in front of normalised, trimmed text is removed again by the last three steps |
| Strip.CommentInert | build_search_index.py:68 | text without `%` is unchanged by the comment rule |
| Strip.BraceInert | build_search_index.py:99 | text without braces is unchanged by the brace rule |
| Strip.MarkupInert | build_search_index.py:68-99 | text without `\`, `%`, `{` and `}` passes every markup stage unchanged |
| Strip.PlainTextOnlyNormalises | build_search_index.py:65-103 | on such text `strip_latex` only normalises whitespace and trims |
| Strip.StripIdempotent | build_search_index.py:65-103 | when the output has no backslash, stripping it again changes nothing |
| Strip.PlainTextIdempotent | build_search_index.py:65-103 | for input without a backslash, applying `strip_latex` twice equals applying it once |
| StripExamples.DelimiterHit | build_search_index.py:70-71 | `\begin{arg}` or `\end{arg}` with a non-empty argument is deleted, whatever follows it |
| StripExamples.LineHit | build_search_index.py:72-73 | `\documentclass` or `\usepackage` is deleted together with the rest of its line, and the newline stays |
| StripExamples.WordHit | build_search_index.py:74 | `\maketitle` alone is deleted, whatever follows it |
| StripExamples.ItemHit | build_search_index.py:87 | `\item` and all the whitespace after it become the bullet and one space |
| StripExamples.MetadataHit | build_search_index.py:91-93 | `\title{arg}`, `\author{arg}` or `\date{arg}` is deleted, also when the argument is empty |
| StripExamples.CommandHit | build_search_index.py:95 | any command of ASCII letters, an optional star and one braced argument, possibly empty, is deleted |
| StripExamples.BareHit | build_search_index.py:97 | a command of ASCII letters and an optional star is deleted when no further letter follows, nor a star unless the star is already taken |
| StripExamples.UnwrapHit | build_search_index.py:81-85 | `\name{arg}` with a non-empty argument is replaced by `arg` |
| StripExamples.HeadingHit | build_search_index.py:76-79 | `\name{arg}` and `\name*{arg}` become `\n` + depth `#`s + space + `arg` + `\n`, consuming the command, the optional star and the braced group |
| StripExamples.HrefHit | build_search_index.py:89 | `\href{target}{text}` is replaced by `text` |
| StripExamples.SectionSite | build_search_index.py:76 | the section rule turns `\section{title}` into `\n## title\n` |
| StripExamples.CommentSite | build_search_index.py:68 | a comment is deleted up to, but not including, the end of its line |
| StripExamples.NoneSkipNewline | build_search_index.py:70-97 | no command rule matches a backslash followed by a newline |
| StripExamples.BeforeBold | build_search_index.py:70-79 | none of the nine rules that run before the `\textbf` rule can match at a backslash followed by `t` |
| StripExamples.BeforeSection | build_search_index.py:70-74 | none of the five rules that run before the `\section` rule can match at a backslash followed by `s` |
| StripExamples.BeforeHref | build_search_index.py:70-87 | none of the fifteen rules that run before the `\href` rule can match at a backslash followed by `h` |
| StripExamples.BoldUnwrapped | build_search_index.py:81 | in plain text, stripping `\textbf{w}` gives what stripping `w` alone gives |
| StripExamples.BoldExact | build_search_index.py:81 | `strip_latex(a + "\textbf{" + w + "}" + b) == a + w + b` when `a + w + b` is already normal; with `a = "This is "`, `w = "important"` and `b = " text."` this gives the bold example below |
| StripExamples.BoldLiteral | build_search_index.py:65-103 | `strip_latex("This is \textbf{important} text.") == "This is important text."` |
| StripExamples.SectionHeading | build_search_index.py:76 | in plain text, stripping `\section{title}` gives what stripping `\n## title\n` gives |
| StripExamples.SectionExact | build_search_index.py:76 | `strip_latex("\section{" + title + "}" + b) == "## " + title + "\n" + b` when the right side is normal; with `title = "Intro"` and `b = "\nBody text here."` this gives the heading example below |
| StripExamples.SectionLiteral | build_search_index.py:65-103 | `strip_latex("\section{Intro}\nBody text here.") == "## Intro\n\nBody text here."` |
| StripExamples.HrefText | build_search_index.py:89 | in plain text, stripping `\href{target}{text}` gives what stripping `text` alone gives |
| StripExamples.CommentDropped | build_search_index.py:68 | a comment in plain text disappears and its line break stays |
| StripExamples.EscapedSite | build_search_index.py:68 | the comment rule also fires after a backslash, so `\%…` loses everything from `%` to the end of the line |
| StripExamples.EscapedPercent | build_search_index.py:68 | the backslash of an escaped `\%` survives the whole pipeline, followed by the line break |
| StripExamples.EnvironmentCommands | build_search_index.py:70-97 | on plain text around `\begin{e}x\end{e}`, the command substitutions delete both delimiters and keep `x` |
| StripExamples.EnvironmentKept | build_search_index.py:70-71 | `strip_latex(a + "\begin{" + e + "}" + x + "\end{" + e + "}" + b)` is `strip_latex` of `a + x + b` with only whitespace normalised and trimmed, for plain `a`, `e`, `x`, `b` |
| StripExamples.NoneSkipBrace | build_search_index.py:70-97 | no command rule matches a backslash followed by `{` |
| StripExamples.BeforeCatchAll | build_search_index.py:70-93 | a command whose first letter is none of `a b d e h i m p s t u` passes every named command rule, leaving it to lines 95 and 97 |
| StripExamples.BackslashKept | build_search_index.py:70-103 | `strip_latex("\{}" + w) == "\" + w` for a word `w` of ASCII letters: no command rule fires at `\{`, and line 99 then deletes the braces |
| StripExamples.BareCommandDropped | build_search_index.py:95-97 | `strip_latex("\" + w) == ""` for a word `w` of ASCII letters that starts no named command |
| StripExamples.StripNotIdempotent | build_search_index.py:65-103 | for such a word, `strip_latex("\{}" + w)` is `"\" + w`, and stripping that again gives the empty text: `strip_latex` is not idempotent on input with a backslash |
| Segment.BreakAt | build_search_index.py:124 | the position found starts two newlines |
| Segment.BreakAtFirst | build_search_index.py:124 | that position is the first blank line, and without one the text has no blank line |
| Segment.Split | build_search_index.py:124 | `re.split` returns at least one piece |
| Segment.SplitWhole | build_search_index.py:124 | text without a blank line is one piece |
| Segment.SplitPieces | build_search_index.py:124 | no piece contains a blank line |
| Segment.PieceLength | build_search_index.py:124 | no piece is longer than the text |
| Segment.JoinSplit | build_search_index.py:102-124 | for text without triple newlines, as line 102 leaves it, the pieces joined by `\n\n` give the text back |
| Segment.SplitJoin | build_search_index.py:124 | splitting pieces joined by `\n\n` gives the pieces back when they have no blank line and cannot merge with a separator |
| Segment.Stripped | build_search_index.py:123 | one trimmed candidate per piece |
| Segment.StrippedMembers | build_search_index.py:123 | a candidate is exactly the trim of some piece |
| Segment.LongEnough | build_search_index.py:125 | only candidates of at least the minimum length survive, and each is one of the candidates |
| Segment.LongEnoughMembers | build_search_index.py:125 | a text survives the filter if and only if it is a candidate of at least the minimum length |
| Segment.LongEnoughAppend | build_search_index.py:125 | the filter distributes over concatenation |
| Segment.NoneLongEnough | build_search_index.py:125 | when every candidate is short, nothing survives |
| Segment.LongEnoughInOrder | build_search_index.py:125 | the survivors keep their relative order |
| Segment.KeptMembers | build_search_index.py:122-126 | a text is kept if and only if it is long enough and is the trim of some piece |
| Segment.Paragraphs | build_search_index.py:122-126 | every paragraph is trimmed and at least the minimum length, and there are no more paragraphs than pieces |
| Segment.ParagraphMembers | build_search_index.py:122-126 | the same, for the paragraphs of a stripped text |
| Segment.ParagraphsInOrder | build_search_index.py:122-126 | kept paragraphs appear in the order of the pieces |
| Segment.ParagraphPassages | build_search_index.py:120-126 | every kept paragraph of stripped text is trimmed and at least the minimum length; it has no blank line, brace, `%`, tab or double space, and uses only characters of that text |
| Segment.ShortText | build_search_index.py:122-126 | a text shorter than the minimum yields no paragraph |
| Index.LastDot | build_search_index.py:113 | finds the last `.` of a name, or reports there is none |
| Index.Stem | build_search_index.py:113 | `Path.stem` is the name itself, or the part before a last dot that has characters on both sides |
| Index.StemOfSuffix | build_search_index.py:113 | the stem of `base.ext` is `base` |
| Index.Lower | build_search_index.py:113 | lower-casing keeps the length, leaves no upper-case ASCII letter, and changes a character only by moving an upper-case letter 32 code points down to its lower case |
| Index.LowerIdempotent | build_search_index.py:113 | lower-casing an already lower-cased text changes nothing |
| Index.LastDotOfLower | build_search_index.py:113 | lower-casing does not move the last dot |
| Index.IsDenied | build_search_index.py:113 | only a stem of five or seven characters is skipped, and every stem that lower-cases to `style` or to `ndstyle` is |
| Index.DeniedIgnoresCase | build_search_index.py:113 | whether a file is skipped does not depend on the case of its name |
| Index.StyleSkipped | build_search_index.py:113 | `style.tex` is skipped |
| Index.NdStyleSkipped | build_search_index.py:113 | `NDStyle.tex` is skipped |
| Index.UpperStyleSkipped | build_search_index.py:113 | `STYLE.tex` is skipped |
| Index.DocumentKept | build_search_index.py:113 | a governance document is not skipped |
| Index.OldStyleKept | build_search_index.py:113 | `style.old.tex` is kept: its stem is `style.old` |
| Index.Code | build_search_index.py:116 | the code is the first five characters of the name, or the whole of a shorter name |
| Index.LabelUnregistered | build_search_index.py:117 | a name that starts with no registered code is labelled with the name itself, the fallback of `FILE_LABELS.get(code, name)` |
| Index.LabelKnown | build_search_index.py:116-117 | a name starting with a registered code gets that code and its registered label |
| Index.DocumentNames | build_search_index.py:116-117 | a registered name gets its registry label; an unregistered one is labelled with its file name; a short name is its own code |
| Index.Passages | build_search_index.py:119-126 | every kept paragraph of a file is a clean passage of at least the minimum length, made of the characters of the stripped file |
| Index.FileEntries | build_search_index.py:128-129 | one entry per passage, each carrying the file's code and label; entry `i` holds passage `i`, so the passages' order and repetitions are kept |
| Index.Summary | build_search_index.py:131-136 | the summary carries the file's code, label and relative path, and counts exactly its entries |
| Index.Process | build_search_index.py:112-136 | a skipped file contributes nothing; any other file contributes one summary, and as many entries as that summary counts |
| Index.ProcessEntries | build_search_index.py:116-129 | every entry of a file carries the file's code and label and one of its kept paragraphs, which is a clean passage of the stripped text |
| Index.ShortLiteral | build_search_index.py:122-126 | the text `"Short."` gives no paragraph, being under the 50-character minimum |
| Index.ShortDocument | build_search_index.py:122-136 | a file whose stripped text is shorter than the minimum gives no entry and a summary counting 0 paragraphs |
| Index.TotalAppend | build_search_index.py:143 | paragraph counts add up over concatenated summaries |
| Index.FoldAppend | build_search_index.py:112-136 | processing two runs of files one after the other equals processing them together |
| Index.FoldTotal | build_search_index.py:112-136 | when each file's entries match its summaries' count, so do the accumulated ones |
| Index.FoldDocuments | build_search_index.py:110-136 | the accumulated summaries are those of the kept files, in file order |
| Index.FoldEntries | build_search_index.py:109-129 | the accumulated entries are the kept files' entries, concatenated in file order |
| Index.FoldMembers | build_search_index.py:109-129 | every accumulated entry comes from one of the files |
| Index.Collect | build_search_index.py:109-136 | at most one summary per file, and as many entries as the summaries count |
| Index.CollectAppend | build_search_index.py:112-136 | the loop's result over `a + b` is its result over `a` followed by its result over `b` |
| Index.DeniedSkipped | build_search_index.py:112-114 | a skipped file changes nothing, wherever it appears |
| Index.CollectDocuments | build_search_index.py:110-136 | the summaries are exactly those of the kept files, in order |
| Index.CollectEntries | build_search_index.py:109-129 | the entries are exactly the kept files' entries, file after file |
| Index.BuildIndex | build_search_index.py:139-148 | `total_entries` equals the number of entries and the sum of the summaries' paragraph counts; there is at most one summary per file; the repository and categories are the registry's |
| Index.IndexEntries | build_search_index.py:108-148 | every entry comes from a file that is not skipped: it carries that file's code and label and one of its paragraphs |
| Index.EmptyIndex | build_search_index.py:108-148 | no files give no entries, no summaries and a total of 0 |
| Index.AppendEntries | build_search_index.py:128-129 | the loop appends one entry per paragraph to those already collected |
| Index.AddFile | build_search_index.py:112-136 | one pass of the loop body extends the collected entries and summaries by that file's contribution |
| Index.BuildIndexLoop | build_search_index.py:108-148 | the loop with its mutable lists gives the same index as the fold |

## Left out

- `main` (lines 153-207): argument parsing, root and version detection, JSON serialisation, writing the file and console output.
- File discovery and reading (lines 112, 119, 134):
  - the files arrive as a sequence, already in `sorted(root.rglob("*.tex"))` order;
  - each file has its name, its path relative to the root as an opaque string, and its already decoded contents;
  - `errors="replace"` decoding is not modelled.
- `date.today()` (line 141) is the `today` parameter of `BuildIndex`.
- The progress `print` on line 137.
- JSON shape: the `"label"` key of an entry and of a summary is held in the `title` field of `Entry` and `DocSummary`, because `label` is a reserved word in Dafny. `CATEGORIES` is a sequence of `Category` values in the dictionary's insertion order.
- Regular expressions: there is no general regex engine. Each pattern is one hand-written matcher, and `re.sub`'s scan is modelled once for all of them. The scan also guards against zero-length matches, but no pattern here can match the empty string, so that branch never fires.
- Index.Lower: implements ASCII lower-casing, not full Unicode `str.lower()`. The only non-ASCII characters whose lower case is ASCII are U+212A KELVIN SIGN and U+0130. Neither can turn a stem into `style` or `ndstyle`, because `Kk` is not in either word and U+0130 lowers to two characters. So the skip decision is the same.

## Backslashes that survive stripping

The output of `strip_latex` can still contain a backslash:

- A backslash that no command pattern can consume survives. Examples are `\\`, `\{`, and a backslash at the end of a line. StripExamples.BackslashKept shows `strip_latex("\{}" + w) == "\" + w`.
- `%.*` also deletes an escaped `\%` and the rest of its line, leaving the backslash. StripExamples.EscapedSite and StripExamples.EscapedPercent show this.
- Strip.StripLatex therefore promises no braces and no `%`, but not the absence of `\`.
- Such a backslash can start a command once the braces after it are gone, so stripping twice can delete more: StripExamples.StripNotIdempotent shows `strip_latex(strip_latex("\{}" + w)) == ""`.
- The idempotence lemmas are therefore stated on text without a backslash, where no command rule can fire.
