/** The pure parts of the project-creation screen: the icon chosen for an
    uploaded file's name, and the check the Create button applies to the
    project name. */
module CreateProject {
  import opened Effects
  import opened Text

  datatype Provider = Custom | Material

  datatype FileIcon = FileIcon(icon: string, provider: Provider)

  const DefaultIcon := FileIcon("file-document-outline", Material)

  /** `getFileIcon`: lower-case the name (a missing name counts as empty) and
      test, in this order, `.psd`, `.ai`, `.fig` or containing `figma`, `.pdf`
      and `.zip`; the first test that passes picks the icon. */
  function GetFileIcon(fileName: Option<string>): (r: FileIcon)
    ensures r.provider == Custom <==> r.icon in {"ps", "ai", "figma"}
    ensures fileName.None? ==> r == DefaultIcon
  {
    var name := ToLower(OrElse(fileName, ""));
    if EndsWith(name, ".psd") then FileIcon("ps", Custom)
    else if EndsWith(name, ".ai") then FileIcon("ai", Custom)
    else if EndsWith(name, ".fig") || Contains(name, "figma") then FileIcon("figma", Custom)
    else if EndsWith(name, ".pdf") then FileIcon("file-pdf-box", Material)
    else if EndsWith(name, ".zip") then FileIcon("zip-box", Material)
    else DefaultIcon
  }

  // An independent statement of the classifier: a table of rules, each a
  // list of name patterns and the icon it selects, scanned first to last.

  datatype Pattern = Suffix(text: string) | Infix(text: string)

  datatype IconRule = IconRule(patterns: seq<Pattern>, icon: FileIcon)

  const IconRules: seq<IconRule> := [
    IconRule([Suffix(".psd")], FileIcon("ps", Custom)),
    IconRule([Suffix(".ai")], FileIcon("ai", Custom)),
    IconRule([Suffix(".fig"), Infix("figma")], FileIcon("figma", Custom)),
    IconRule([Suffix(".pdf")], FileIcon("file-pdf-box", Material)),
    IconRule([Suffix(".zip")], FileIcon("zip-box", Material))
  ]

  predicate PatternMatches(name: string, p: Pattern)
  {
    match p
    case Suffix(t) => EndsWith(name, t)
    case Infix(t) => Contains(name, t)
  }

  predicate AnyPatternMatches(name: string, ps: seq<Pattern>)
  {
    exists k :: 0 <= k < |ps| && PatternMatches(name, ps[k])
  }

  /** The icon of the first rule one of whose patterns matches, else the default. */
  function FirstMatch(rules: seq<IconRule>, name: string): (r: FileIcon)
    ensures r == DefaultIcon || exists k :: 0 <= k < |rules| && r == rules[k].icon
    ensures (forall k :: 0 <= k < |rules| ==> !AnyPatternMatches(name, rules[k].patterns)) ==> r == DefaultIcon
    ensures forall k :: 0 <= k < |rules| && AnyPatternMatches(name, rules[k].patterns)
                        && (forall j :: 0 <= j < k ==> !AnyPatternMatches(name, rules[j].patterns))
                        ==> r == rules[k].icon
  {
    if rules == [] then DefaultIcon
    else if AnyPatternMatches(name, rules[0].patterns) then rules[0].icon
    else FirstMatch(rules[1..], name)
  }

  /** `getFileIcon` is exactly first-match over the rule table, applied to
      the lower-cased name. */
  lemma GetFileIconFollowsRules(fileName: Option<string>)
    ensures GetFileIcon(fileName) == FirstMatch(IconRules, ToLower(OrElse(fileName, "")))
  {
    var name := ToLower(OrElse(fileName, ""));
    var rs := IconRules;
    assert AnyPatternMatches(name, rs[0].patterns) <==> EndsWith(name, ".psd") by {
      assert rs[0].patterns[0] == Suffix(".psd");
    }
    assert AnyPatternMatches(name, rs[1].patterns) <==> EndsWith(name, ".ai") by {
      assert rs[1].patterns[0] == Suffix(".ai");
    }
    assert AnyPatternMatches(name, rs[2].patterns) <==> EndsWith(name, ".fig") || Contains(name, "figma") by {
      assert rs[2].patterns[0] == Suffix(".fig");
      assert rs[2].patterns[1] == Infix("figma");
    }
    assert AnyPatternMatches(name, rs[3].patterns) <==> EndsWith(name, ".pdf") by {
      assert rs[3].patterns[0] == Suffix(".pdf");
    }
    assert AnyPatternMatches(name, rs[4].patterns) <==> EndsWith(name, ".zip") by {
      assert rs[4].patterns[0] == Suffix(".zip");
    }
    var rs1, rs2, rs3, rs4 := rs[1..], rs[2..], rs[3..], rs[4..];
    assert rs1[1..] == rs2 && rs2[1..] == rs3 && rs3[1..] == rs4 && rs4[1..] == [];
    if !AnyPatternMatches(name, rs[0].patterns) {
      assert FirstMatch(rs, name) == FirstMatch(rs1, name);
      if !AnyPatternMatches(name, rs[1].patterns) {
        assert FirstMatch(rs1, name) == FirstMatch(rs2, name);
        if !AnyPatternMatches(name, rs[2].patterns) {
          assert FirstMatch(rs2, name) == FirstMatch(rs3, name);
          if !AnyPatternMatches(name, rs[3].patterns) {
            assert FirstMatch(rs3, name) == FirstMatch(rs4, name);
          }
        }
      }
    }
  }

  /** The classifier ignores the case of ASCII letters. */
  lemma GetFileIconIgnoresCase(s: string)
    ensures GetFileIcon(Some(s)) == GetFileIcon(Some(ToLower(s)))
  {
    ToLowerIdempotent(s);
    if s == "" {
      assert ToLower(s) == "";
    }
  }

  /** A name ending in `.psd` gets the Photoshop badge even when it also
      mentions figma: the earlier test wins. */
  lemma PsdBeatsFigma(s: string)
    requires EndsWith(ToLower(s), ".psd")
    ensures GetFileIcon(Some(s)) == FileIcon("ps", Custom)
  {
  }

  const ValidationAlert := TitledAlert("Validation", "Project name is required")
  const CreatedAlert := TitledAlert("Project Created", "This is demo UI only — integrate backend as needed.")

  /** `handleCreate`: a project name that is empty after `trim` raises the
      validation alert and stops there; any other name raises the success
      alert and goes back. */
  function HandleCreate(projectName: string): (r: seq<Effect>)
    ensures AllWhitespace(projectName) ==> r == [ValidationAlert]
    ensures !AllWhitespace(projectName) ==> r == [CreatedAlert, GoBack]
    ensures GoBack in r <==> !AllWhitespace(projectName)
  {
    TrimEmptyIffAllWhitespace(projectName);
    if Trim(projectName) == "" then [ValidationAlert]
    else [CreatedAlert, GoBack]
  }
}
