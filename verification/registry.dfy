/**
 The document registry and the fixed settings of the index builder
 (build_search_index.py:30-60, 142): the label of every known file code,
 the grouping of the codes into categories, the shortest passage worth
 indexing and the repository name written into the metadata.
 */
module Registry {

  /** A named group of file codes, in the order the registry lists them. */
  datatype Category = Category(name: string, codes: seq<string>)

  /** Lines 34-50: the 5-character file prefix of each known document and
      its human-readable label. */
  const FileLabels: map<string, string> := map[
    "00.00" := "External Summary",
    "05.20" := "DAF Safety & Accountability",
    "05.50" := "Grant Menu Appendix",
    "10.00" := "Consolidated Governance Document",
    "10.10" := "Schedule A \U{2014} Material Action Thresholds",
    "10.20" := "Schedule B \U{2014} Emergency Scope Registry",
    "10.30" := "Schedule C \U{2014} Delegation & Approval Matrix",
    "10.40" := "Schedule D \U{2014} Logging & Audit Integrity Policy",
    "10.90" := "Governance Schedule Index",
    "15.00" := "Founder Vision",
    "15.50" := "Governance Companion",
    "20.00" := "Operational Manual",
    "20.50" := "Operational Manual Companion",
    "30.10" := "Board Vetting Process",
    "30.20" := "Board Vetting Checklist"
  ]

  /** Lines 52-58, in their insertion order. */
  const Categories: seq<Category> := [
    Category("Summary & Assurance", ["00.00", "05.20", "05.50"]),
    Category("Governance", ["10.00", "10.10", "10.20", "10.30", "10.40", "10.90"]),
    Category("Vision & Companions", ["15.00", "15.50"]),
    Category("Operations", ["20.00", "20.50"]),
    Category("Board Vetting", ["30.10", "30.20"])
  ]

  /** Line 60. */
  const MinParagraphLength: nat := 50

  /** Line 142. */
  const Repo: string := "NewDoggerland/Core-Documents"

  /** Every code category `k` lists has a label and is five characters
      long, the length of the file-name prefix the builder looks up. */
  lemma {:induction false} CategoryLabelled(k: nat)
    requires k < |Categories|
    ensures forall c :: c in Categories[k].codes ==> c in FileLabels && |c| == 5
  {
    if k == 0 {
      assert Categories[0].codes == ["00.00", "05.20", "05.50"];
    } else if k == 1 {
      assert Categories[1].codes == ["10.00", "10.10", "10.20", "10.30", "10.40", "10.90"];
    } else if k == 2 {
      assert Categories[2].codes == ["15.00", "15.50"];
    } else if k == 3 {
      assert Categories[3].codes == ["20.00", "20.50"];
    } else {
      assert Categories[4].codes == ["30.10", "30.20"];
    }
  }

  /** Every labelled code is listed by some category. */
  lemma {:induction false} LabelledCategorised(c: string)
    requires c in FileLabels
    ensures exists k :: 0 <= k < |Categories| && c in Categories[k].codes
  {
    if c in ["00.00", "05.20", "05.50"] {
      assert c in Categories[0].codes;
    } else if c in ["10.00", "10.10", "10.20", "10.30", "10.40", "10.90"] {
      assert c in Categories[1].codes;
    } else if c in ["15.00", "15.50"] {
      assert c in Categories[2].codes;
    } else if c in ["20.00", "20.50"] {
      assert c in Categories[3].codes;
    } else {
      assert c in Categories[4].codes;
    }
  }
}
