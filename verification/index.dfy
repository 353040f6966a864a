/**
 The index builder (build_search_index.py:108-148): every `.tex` file that
 is not a style file is stripped of its markup, cut into paragraphs, and
 each paragraph long enough becomes one search entry labelled with the
 file's code; one summary per processed file and the run's metadata
 complete the index.

 Walking the directory tree, sorting the paths, reading and decoding the
 files and asking for today's date happen outside this module: the files
 arrive as a sequence in the order the builder visits them, each with its
 name, its path relative to the root and its decoded contents, and the
 date arrives as a string.
 */
module Index {
  import opened Text
  import opened Strip
  import opened Segment
  import opened Registry

  /** One `.tex` file found under the root. */
  datatype SourceFile = SourceFile(name: string, path: string, raw: string)

  /** One search entry: the file code, the file's label and a passage.
      The label is kept in `title` (the output's `"label"` key), since
      `label` is a reserved word in Dafny. */
  datatype Entry = Entry(id: string, title: string, text: string)

  /** The record kept for every processed file; `title` is its label. */
  datatype DocSummary = DocSummary(code: string, title: string, file: string, paragraphs: nat)

  datatype Meta = Meta(
    version: string,
    generated: string,
    repo: string,
    totalEntries: nat,
    documents: seq<DocSummary>,
    categories: seq<Category>)

  datatype SearchIndex = SearchIndex(meta: Meta, entries: seq<Entry>)

  /** What a run of the loop has produced so far. */
  datatype Batch = Batch(entries: seq<Entry>, documents: seq<DocSummary>)

  // ---------------------------------------------------------------------------
  // File names
  // ---------------------------------------------------------------------------

  /** The position of the last `.` in `name`, as `str.rfind` finds it. */
  function LastDot(name: string): (i: Option<nat>)
    ensures i.Some? ==> i.value < |name| && name[i.value] == '.' && '.' !in name[i.value + 1..]
    ensures i.None? ==> '.' !in name
    decreases |name|
  {
    if |name| == 0 then None
    else if name[|name| - 1] == '.' then Some(|name| - 1)
    else
      var j := LastDot(name[..|name| - 1]);
      assert j.Some? ==> name[j.value + 1..] == name[..|name| - 1][j.value + 1..] + [name[|name| - 1]];
      assert name == name[..|name| - 1] + [name[|name| - 1]];
      j
  }

  /** `PurePath.stem`: the name without its last suffix, where a suffix
      needs a dot that is neither the first nor the last character. */
  function Stem(name: string): (stem: string)
    ensures StartsWith(name, stem)
    ensures stem == name || (0 < |stem| < |name| - 1 && name[|stem|] == '.' && '.' !in name[|stem| + 1..])
  {
    match LastDot(name)
    case Some(i) => if 0 < i < |name| - 1 then name[..i] else name
    case None => name
  }

  function LowerChar(c: char): char {
    if 'A' <= c <= 'Z' then (c as int + 32) as char else c
  }

  /** `str.lower()` on ASCII letters; every other character is kept. No
      upper-case ASCII letter is left, and each changed character is an
      upper-case letter moved 32 code points down to its lower case. */
  function Lower(s: string): (r: string)
    ensures |r| == |s|
    ensures forall i :: 0 <= i < |r| ==> !('A' <= r[i] <= 'Z')
    ensures forall i :: 0 <= i < |s| ==> r[i] == s[i] || ('A' <= s[i] <= 'Z' && r[i] as int == s[i] as int + 32)
  {
    seq(|s|, i requires 0 <= i < |s| => LowerChar(s[i]))
  }

  /** Line 113: the style files are not indexed. A skipped name has a stem
      of five or seven characters, and the two stems themselves, in any
      case, are skipped. */
  predicate IsDenied(name: string): (denied: bool)
    ensures denied ==> |Stem(name)| == 5 || |Stem(name)| == 7
    ensures Lower(Stem(name)) == "style" ==> denied
    ensures Lower(Stem(name)) == "ndstyle" ==> denied
  {
    var stem := Lower(Stem(name));
    stem == "ndstyle" || stem == "style"
  }

  /** Line 116: the first five characters of the name. */
  function Code(name: string): (code: string)
    ensures |code| == if |name| < 5 then |name| else 5
    ensures StartsWith(name, code)
  {
    if |name| <= 5 then name else name[..5]
  }

  /** Line 117: the registry label of the code, or else the whole name;
      never a failed lookup. */
  function Label(name: string): (title: string)
    ensures title in FileLabels.Values || title == name
  {
    if Code(name) in FileLabels then FileLabels[Code(name)] else name
  }

  /** Lower-casing twice is lower-casing once. */
  lemma {:induction false} LowerIdempotent(s: string)
    ensures Lower(Lower(s)) == Lower(s)
  {
  }

  /** The last dot is found wherever it is. */
  lemma {:induction false} LastDotAt(name: string, i: nat)
    requires i < |name| && name[i] == '.' && '.' !in name[i + 1..]
    ensures LastDot(name) == Some(i)
    decreases |name|
  {
    if i < |name| - 1 {
      var last := |name| - 1;
      assert name[last] in name[i + 1..];
      var init := name[..last];
      assert init[i + 1..] == name[i + 1..last];
      LastDotAt(init, i);
    }
  }

  /** A name with a nonempty base and a dot-free extension has the base as
      its stem. */
  lemma {:induction false} StemOfSuffix(base: string, ext: string)
    requires |base| > 0 && |ext| > 0 && '.' !in ext
    ensures Stem(base + "." + ext) == base
  {
    var name := base + "." + ext;
    assert name[|base|] == '.';
    assert name[|base| + 1..] == ext;
    LastDotAt(name, |base|);
    assert name[..|base|] == base;
  }

  /** Lowering the case does not move any dot. */
  lemma {:induction false} LastDotOfLower(name: string)
    ensures LastDot(Lower(name)) == LastDot(name)
    decreases |name|
  {
    if |name| > 0 {
      var last := |name| - 1;
      assert Lower(name)[..last] == Lower(name[..last]);
      LastDotOfLower(name[..last]);
    }
  }

  /** The style-file test ignores case (line 113 lowers the stem). */
  lemma {:induction false} DeniedIgnoresCase(name: string)
    ensures IsDenied(Lower(name)) == IsDenied(name)
  {
    LastDotOfLower(name);
    var stem := Stem(name);
    assert Stem(Lower(name)) == Lower(stem) by {
      assert Lower(name)[..|stem|] == Lower(stem);
    }
    assert Lower(Lower(stem)) == Lower(stem);
  }

  /** A file named after a registered code carries that code and its label. */
  lemma {:induction false} LabelKnown(code: string, rest: string)
    requires code in FileLabels
    ensures Code(code + rest) == code
    ensures Label(code + rest) == FileLabels[code]
  {
    LabelledCategorised(code);
    var k :| 0 <= k < |Categories| && code in Categories[k].codes;
    CategoryLabelled(k);
    assert (code + rest)[..5] == code;
  }

  /** A name that starts with no registered code is labelled with itself. */
  lemma {:induction false} LabelUnregistered(name: string)
    requires forall k :: k in FileLabels ==> !StartsWith(name, k)
    ensures Label(name) == name
  {
  }

  /** The two style files are skipped whatever their case. */
  lemma StyleSkipped()
    ensures IsDenied("style.tex")
  {
    StemOfSuffix("style", "tex");
  }

  lemma NdStyleSkipped()
    ensures IsDenied("NDStyle.tex")
  {
    StemOfSuffix("NDStyle", "tex");
  }

  lemma UpperStyleSkipped()
    ensures IsDenied("STYLE.tex")
  {
    StemOfSuffix("STYLE", "tex");
  }

  /** A document is not skipped, nor is a file whose stem only begins with
      `style`. */
  lemma DocumentKept()
    ensures !IsDenied("10.00_governance.tex")
  {
    StemOfSuffix("10.00_governance", "tex");
  }

  lemma OldStyleKept()
    ensures !IsDenied("style.old.tex")
  {
    StemOfSuffix("style.old", "tex");
  }

  /** A registered document gets its code and label; an unregistered one
      is labelled with its file name. */
  lemma DocumentNames()
    ensures Code("10.00_governance.tex") == "10.00"
    ensures Label("10.00_governance.tex") == "Consolidated Governance Document"
    ensures Label("99.99_draft.tex") == "99.99_draft.tex"
    ensures Code("a.tex") == "a.tex"
  {
    LabelKnown("10.00", "_governance.tex");
    assert "10.00" + "_governance.tex" == "10.00_governance.tex";
    assert Code("99.99_draft.tex") == "99.99";
    assert "99.99" !in FileLabels;
  }

  // ---------------------------------------------------------------------------
  // One file
  // ---------------------------------------------------------------------------

  /** Lines 119-126: the passages of one file, each a clean paragraph of
      its stripped text. */
  function Passages(f: SourceFile): (ps: seq<string>)
    ensures forall p :: p in ps ==> Passage(p, MinParagraphLength)
    ensures forall p :: p in ps ==> forall c :: c in p ==> c in StripLatex(f.raw)
  {
    ParagraphPassages(StripLatex(f.raw), MinParagraphLength);
    Paragraphs(StripLatex(f.raw), MinParagraphLength)
  }

  function EntriesOf(code: string, title: string, ps: seq<string>): (es: seq<Entry>)
    ensures |es| == |ps|
    ensures forall i :: 0 <= i < |ps| ==> es[i] == Entry(code, title, ps[i])
  {
    seq(|ps|, i requires 0 <= i < |ps| => Entry(code, title, ps[i]))
  }

  /** Entry `i` holds passage `i`: the order and the repetitions of the
      passages are kept. */
  predicate TextsInOrder(es: seq<Entry>, ps: seq<string>) {
    |es| == |ps| && forall i :: 0 <= i < |es| ==> es[i].text == ps[i]
  }

  lemma {:induction false} EntriesOfInOrder(code: string, title: string, ps: seq<string>)
    ensures TextsInOrder(EntriesOf(code, title, ps), ps)
    ensures forall e :: e in EntriesOf(code, title, ps) ==> e.id == code && e.title == title && e.text in ps
  {
  }

  /** Lines 131-136: the summary counts exactly the file's entries. */
  function Summary(f: SourceFile): (d: DocSummary)
    ensures d.paragraphs == |FileEntries(f)|
    ensures d.code == Code(f.name) && d.title == Label(f.name)
    ensures d.file == f.path
  {
    DocSummary(Code(f.name), Label(f.name), f.path, |Passages(f)|)
  }

  /** Lines 112-136: what one file adds to the index. */
  function Process(f: SourceFile): (b: Batch)
    ensures IsDenied(f.name) ==> b.entries == [] && b.documents == []
    ensures !IsDenied(f.name) ==> b.documents == [Summary(f)] && |b.entries| == b.documents[0].paragraphs
  {
    if IsDenied(f.name) then Batch([], [])
    else Batch(FileEntries(f), [Summary(f)])
  }

  /** Every entry of a file carries the file's code and label and one of
      its passages: clean text, stripped, without a blank line, at least
      the minimum length and made of the cleaned file's characters. */
  lemma ProcessEntries(f: SourceFile)
    ensures forall e :: e in Process(f).entries ==>
      && e.id == Code(f.name)
      && e.title == Label(f.name)
      && e.text in Passages(f)
      && Passage(e.text, MinParagraphLength)
      && forall c :: c in e.text ==> c in StripLatex(f.raw)
  {
    if !IsDenied(f.name) {
      var ps := Passages(f);
      assert Process(f).entries == FileEntries(f);
      forall e | e in FileEntries(f)
        ensures Passage(e.text, MinParagraphLength) && forall c :: c in e.text ==> c in StripLatex(f.raw)
      {
        assert e.text in ps;
      }
    }
  }

  // ---------------------------------------------------------------------------
  // All files
  // ---------------------------------------------------------------------------

  function Then(a: Batch, b: Batch): Batch {
    Batch(a.entries + b.entries, a.documents + b.documents)
  }

  lemma ThenAssoc(a: Batch, b: Batch, c: Batch)
    ensures Then(a, Then(b, c)) == Then(Then(a, b), c)
  {
    assert a.entries + (b.entries + c.entries) == (a.entries + b.entries) + c.entries;
    assert a.documents + (b.documents + c.documents) == (a.documents + b.documents) + c.documents;
  }

  /** The loop of lines 112-136 with the body `step`: the batches of the
      files one after the other. */
  function Fold(step: SourceFile -> Batch, files: seq<SourceFile>): Batch
    decreases |files|
  {
    if |files| == 0 then Batch([], []) else Then(step(files[0]), Fold(step, files[1..]))
  }

  /** The files the loop keeps, in order. */
  function Filter(keep: SourceFile -> bool, files: seq<SourceFile>): (r: seq<SourceFile>)
    ensures |r| <= |files|
    ensures forall f :: f in r ==> f in files && keep(f)
    decreases |files|
  {
    if |files| == 0 then []
    else (if keep(files[0]) then [files[0]] else []) + Filter(keep, files[1..])
  }

  function Map<T>(g: SourceFile -> T, files: seq<SourceFile>): (r: seq<T>)
    ensures |r| == |files|
    ensures forall k :: 0 <= k < |files| ==> r[k] == g(files[k])
  {
    seq(|files|, k requires 0 <= k < |files| => g(files[k]))
  }

  function Concat(ess: seq<seq<Entry>>): seq<Entry>
    decreases |ess|
  {
    if |ess| == 0 then [] else ess[0] + Concat(ess[1..])
  }

  /** The number of passages the summaries report. */
  function Total(docs: seq<DocSummary>): nat
    decreases |docs|
  {
    if |docs| == 0 then 0 else docs[0].paragraphs + Total(docs[1..])
  }

  lemma {:induction false} TotalAppend(a: seq<DocSummary>, b: seq<DocSummary>)
    ensures Total(a + b) == Total(a) + Total(b)
    decreases |a|
  {
    if |a| == 0 {
      assert a + b == b;
    } else {
      assert (a + b)[1..] == a[1..] + b;
      TotalAppend(a[1..], b);
    }
  }

  lemma TotalSingle(d: DocSummary)
    ensures Total([d]) == d.paragraphs
  {
    assert [d][1..] == [];
  }

  /** Running the loop over two lists one after the other. */
  lemma {:induction false} FoldAppend(step: SourceFile -> Batch, a: seq<SourceFile>, b: seq<SourceFile>)
    ensures Fold(step, a + b) == Then(Fold(step, a), Fold(step, b))
    decreases |a|
  {
    if |a| == 0 {
      assert a + b == b;
    } else {
      assert (a + b)[0] == a[0];
      assert (a + b)[1..] == a[1..] + b;
      FoldAppend(step, a[1..], b);
      ThenAssoc(step(a[0]), Fold(step, a[1..]), Fold(step, b));
    }
  }

  /** A body that files at most one summary per file, with as many entries
      as the summary counts passages, keeps the total honest. */
  lemma {:induction false} FoldTotal(step: SourceFile -> Batch, files: seq<SourceFile>)
    requires forall f :: |step(f).documents| <= 1 && |step(f).entries| == Total(step(f).documents)
    ensures |Fold(step, files).documents| <= |files|
    ensures |Fold(step, files).entries| == Total(Fold(step, files).documents)
    decreases |files|
  {
    if |files| > 0 {
      FoldTotal(step, files[1..]);
      TotalAppend(step(files[0]).documents, Fold(step, files[1..]).documents);
    }
  }

  /** A body that files one summary for each kept file and none for the
      others yields the summaries of the kept files, in order. */
  lemma {:induction false} FoldDocuments(
    step: SourceFile -> Batch, keep: SourceFile -> bool, summary: SourceFile -> DocSummary,
    files: seq<SourceFile>)
    requires forall f :: step(f).documents == if keep(f) then [summary(f)] else []
    ensures Fold(step, files).documents == Map(summary, Filter(keep, files))
    decreases |files|
  {
    if |files| > 0 {
      var f := files[0];
      var rest := Filter(keep, files[1..]);
      FoldDocuments(step, keep, summary, files[1..]);
      assert Fold(step, files).documents == step(f).documents + Fold(step, files[1..]).documents;
      assert Filter(keep, files) == (if keep(f) then [f] else []) + rest;
      MapCons(summary, keep(f), f, rest);
    }
  }

  /** Mapping over a list with or without a head in front. */
  lemma MapCons<T>(g: SourceFile -> T, present: bool, f: SourceFile, rest: seq<SourceFile>)
    ensures Map(g, (if present then [f] else []) + rest) == (if present then [g(f)] else []) + Map(g, rest)
  {
    if !present {
      assert [] + rest == rest;
    }
  }

  /** A body that adds a kept file's entries and nothing for the others
      yields the kept files' entries, file after file. */
  lemma {:induction false} FoldEntries(
    step: SourceFile -> Batch, keep: SourceFile -> bool, entries: SourceFile -> seq<Entry>,
    files: seq<SourceFile>)
    requires forall f :: step(f).entries == if keep(f) then entries(f) else []
    ensures Fold(step, files).entries == Concat(Map(entries, Filter(keep, files)))
    decreases |files|
  {
    if |files| > 0 {
      var f := files[0];
      var rest := Filter(keep, files[1..]);
      FoldEntries(step, keep, entries, files[1..]);
      assert Fold(step, files).entries == step(f).entries + Fold(step, files[1..]).entries;
      assert Filter(keep, files) == (if keep(f) then [f] else []) + rest;
      MapCons(entries, keep(f), f, rest);
      if keep(f) {
        ConcatCons(entries(f), Map(entries, rest));
      } else {
        assert [] + Fold(step, files[1..]).entries == Fold(step, files[1..]).entries;
        assert [] + Map(entries, rest) == Map(entries, rest);
      }
    }
  }

  lemma ConcatCons(es: seq<Entry>, ess: seq<seq<Entry>>)
    ensures Concat([es] + ess) == es + Concat(ess)
  {
    assert ([es] + ess)[1..] == ess;
  }

  /** Every entry the loop adds is one some file's body added. */
  lemma {:induction false} FoldMembers(step: SourceFile -> Batch, files: seq<SourceFile>, e: Entry)
    requires e in Fold(step, files).entries
    ensures exists f :: f in files && e in step(f).entries
    decreases |files|
  {
    if e !in step(files[0]).entries {
      FoldMembers(step, files[1..], e);
      var f :| f in files[1..] && e in step(f).entries;
      assert f in files;
    }
  }

  // ---------------------------------------------------------------------------
  // The index
  // ---------------------------------------------------------------------------

  /** Line 113, negated: the files the loop processes. */
  predicate Indexed(f: SourceFile) {
    !IsDenied(f.name)
  }

  /** Lines 128-129: the entries of a processed file, one per passage. */
  function FileEntries(f: SourceFile): (es: seq<Entry>)
    ensures |es| == |Passages(f)|
    ensures forall e :: e in es ==> e.id == Code(f.name) && e.title == Label(f.name) && e.text in Passages(f)
    ensures TextsInOrder(es, Passages(f))
  {
    EntriesOfInOrder(Code(f.name), Label(f.name), Passages(f));
    EntriesOf(Code(f.name), Label(f.name), Passages(f))
  }



  /** Lines 112-136. */
  function Collect(files: seq<SourceFile>): (b: Batch)
    ensures |b.documents| <= |files|
    ensures |b.entries| == Total(b.documents)
  {
    forall f
      ensures |Process(f).documents| <= 1 && |Process(f).entries| == Total(Process(f).documents)
    {
      if !IsDenied(f.name) {
        TotalSingle(Summary(f));
      }
    }
    FoldTotal(Process, files);
    Fold(Process, files)
  }

  /** Lines 139-148. */
  function BuildIndex(files: seq<SourceFile>, version: string, today: string): (idx: SearchIndex)
    ensures idx.meta.totalEntries == |idx.entries| == Total(idx.meta.documents)
    ensures |idx.meta.documents| <= |files|
    ensures idx.meta.repo == Repo && idx.meta.categories == Categories
  {
    var b := Collect(files);
    SearchIndex(Meta(version, today, Repo, |b.entries|, b.documents, Categories), b.entries)
  }

  /** Processing a list of files in two halves gives the two halves'
      results one after the other. */
  lemma {:induction false} CollectAppend(a: seq<SourceFile>, b: seq<SourceFile>)
    ensures Collect(a + b) == Then(Collect(a), Collect(b))
  {
    FoldAppend(Process, a, b);
  }

  /** A style file contributes nothing wherever it appears. */
  lemma {:induction false} DeniedSkipped(a: seq<SourceFile>, f: SourceFile, b: seq<SourceFile>)
    requires IsDenied(f.name)
    ensures Collect(a + [f] + b) == Collect(a + b)
  {
    FoldAppend(Process, a + [f], b);
    FoldAppend(Process, a, [f]);
    FoldAppend(Process, a, b);
    assert [f][1..] == [];
    assert Fold(Process, [f]) == Batch([], []);
    var x := Fold(Process, a);
    assert Then(x, Batch([], [])) == x;
  }

  /** One summary per processed file, in order, and nothing else. */
  lemma {:induction false} CollectDocuments(files: seq<SourceFile>)
    ensures Collect(files).documents == Map(Summary, Filter(Indexed, files))
  {
    FoldDocuments(Process, Indexed, Summary, files);
  }

  /** The entries are the passages of the processed files, file after
      file, each labelled with its file's code and label. */
  lemma {:induction false} CollectEntries(files: seq<SourceFile>)
    ensures Collect(files).entries == Concat(Map(FileEntries, Filter(Indexed, files)))
  {
    FoldEntries(Process, Indexed, FileEntries, files);
  }

  /** `e` is one of the entries file `f` yields: a passage of the file
      under the file's code and label. */
  ghost predicate Carries(f: SourceFile, e: Entry) {
    && !IsDenied(f.name)
    && e.id == Code(f.name)
    && e.title == Label(f.name)
    && e.text in Passages(f)
    && Passage(e.text, MinParagraphLength)
  }

  /** Every entry of the index holds a passage of a processed file, under
      that file's code and label. */
  lemma {:induction false} IndexEntries(files: seq<SourceFile>, version: string, today: string)
    ensures forall e :: e in BuildIndex(files, version, today).entries ==> exists f :: f in files && Carries(f, e)
  {
    forall e | e in BuildIndex(files, version, today).entries
      ensures exists f :: f in files && Carries(f, e)
    {
      FoldMembers(Process, files, e);
      var f :| f in files && e in Process(f).entries;
      ProcessEntries(f);
      assert Carries(f, e);
    }
  }

  /** A processed document whose cleaned text is shorter than the minimum
      is still listed, with no passage. */
  lemma {:induction false} ShortDocument(f: SourceFile)
    requires !IsDenied(f.name)
    requires |StripLatex(f.raw)| < MinParagraphLength
    ensures Process(f) == Batch([], [DocSummary(Code(f.name), Label(f.name), f.path, 0)])
  {
    ShortText(StripLatex(f.raw), MinParagraphLength);
  }

  /** A text as short as `"Short."` gives no passage at all. */
  lemma {:induction false} ShortLiteral()
    ensures Paragraphs("Short.", MinParagraphLength) == []
  {
    ShortText("Short.", MinParagraphLength);
  }

  /** No file, no entry and no document. */
  lemma {:induction false} EmptyIndex(version: string, today: string)
    ensures BuildIndex([], version, today).entries == []
    ensures BuildIndex([], version, today).meta.documents == []
    ensures BuildIndex([], version, today).meta.totalEntries == 0
  {
  }

  // ---------------------------------------------------------------------------
  // The loop as written
  // ---------------------------------------------------------------------------

  /** One more turn of the loop. */
  lemma {:induction false} FoldStep(step: SourceFile -> Batch, files: seq<SourceFile>, i: nat)
    requires i < |files|
    ensures Fold(step, files[..i + 1]) == Then(Fold(step, files[..i]), step(files[i]))
  {
    var f := files[i];
    assert files[..i + 1] == files[..i] + [f];
    FoldAppend(step, files[..i], [f]);
    assert [f][1..] == [];
    var p := step(f);
    assert Then(p, Batch([], [])) == p;
  }

  /** Lines 128-129: appends one entry per passage. */
  method AppendEntries(entries: seq<Entry>, code: string, title: string, paragraphs: seq<string>)
    returns (r: seq<Entry>)
    ensures r == entries + EntriesOf(code, title, paragraphs)
  {
    r := entries;
    for j := 0 to |paragraphs|
      invariant r == entries + EntriesOf(code, title, paragraphs[..j])
    {
      assert EntriesOf(code, title, paragraphs[..j + 1])
        == EntriesOf(code, title, paragraphs[..j]) + [Entry(code, title, paragraphs[j])];
      r := r + [Entry(code, title, paragraphs[j])];
    }
    assert paragraphs[..|paragraphs|] == paragraphs;
  }

  /** Lines 112-136 for one file: the loop body. */
  method AddFile(entries: seq<Entry>, documents: seq<DocSummary>, f: SourceFile)
    returns (entries': seq<Entry>, documents': seq<DocSummary>)
    ensures Batch(entries', documents') == Then(Batch(entries, documents), Process(f))
  {
    if IsDenied(f.name) {
      return entries, documents;
    }
    var code := Code(f.name);
    var title := Label(f.name);
    var paragraphs := Passages(f);
    entries' := AppendEntries(entries, code, title, paragraphs);
    documents' := documents + [DocSummary(code, title, f.path, |paragraphs|)];
  }

  /** Lines 108-148 statement by statement: the index the builder returns. */
  method BuildIndexLoop(files: seq<SourceFile>, version: string, today: string) returns (idx: SearchIndex)
    ensures idx == BuildIndex(files, version, today)
  {
    var entries: seq<Entry> := [];
    var documents: seq<DocSummary> := [];
    for i := 0 to |files|
      invariant Batch(entries, documents) == Fold(Process, files[..i])
    {
      FoldStep(Process, files, i);
      entries, documents := AddFile(entries, documents, files[i]);
    }
    assert files[..|files|] == files;
    idx := SearchIndex(Meta(version, today, Repo, |entries|, documents, Categories), entries);
  }
}
