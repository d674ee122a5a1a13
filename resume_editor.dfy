/** The resume viewer of the workspace (frontend/src/components/workspace/ResumeEditor.tsx):
    the list of expanded sections and its toggle, the raw-text preview, and what the
    skills and experience panels show. */
module ResumeEditor {
  import opened Strings
  import opened ApiTypes

  // ----- expanded sections -----

  /** Every section starts expanded. */
  const InitialExpanded: seq<string> := ["raw", "skills", "experience", "projects"]

  /** `toggleSection`: drop a present section, append an absent one. */
  function Toggled(expanded: seq<string>, section: string): (r: seq<string>)
    ensures section in r <==> section !in expanded
    ensures forall other | other != section :: other in r <==> other in expanded
    ensures section !in expanded ==> r == expanded + [section]
    ensures section in expanded ==> IsSubsequence(r, expanded)
  {
    if section in expanded then Without(expanded, section) else expanded + [section]
  }

  lemma InitialExpandedIsDistinct()
    ensures NoDuplicates(InitialExpanded)
  {
  }

  /** Toggling twice restores membership. */
  lemma ToggleTwiceRestoresMembers(expanded: seq<string>, section: string)
    ensures forall s :: s in Toggled(Toggled(expanded, section), section) <==> s in expanded
  {
  }

  /** Removing a section absent from the end changes only the end. */
  lemma {:induction false} WithoutAppended(s: seq<string>, x: string)
    requires x !in s
    ensures Without(s + [x], x) == s
    decreases |s|
  {
    if s != [] {
      assert (s + [x])[1..] == s[1..] + [x];
      WithoutAppended(s[1..], x);
    }
  }

  /** A collapsed section expanded and collapsed again leaves the list as it was. */
  lemma ToggleTwiceOnAbsent(expanded: seq<string>, section: string)
    requires section !in expanded
    ensures Toggled(Toggled(expanded, section), section) == expanded
  {
    WithoutAppended(expanded, section);
  }

  /** An expanded section collapsed and expanded again moves to the end of the list. */
  lemma ToggleTwiceOnPresent(expanded: seq<string>, section: string)
    requires section in expanded
    ensures Toggled(Toggled(expanded, section), section) == Without(expanded, section) + [section]
  {
  }

  /** Removing an element keeps a list free of duplicates. */
  lemma {:induction false} WithoutKeepsDistinct(s: seq<string>, x: string)
    requires NoDuplicates(s)
    ensures NoDuplicates(Without(s, x))
    decreases |s|
  {
    if s != [] {
      WithoutKeepsDistinct(s[1..], x);
      var rest := Without(s[1..], x);
      if s[0] != x {
        assert s[0] !in s[1..];
        assert s[0] !in rest;
        assert Without(s, x) == [s[0]] + rest;
      } else {
        assert Without(s, x) == rest;
      }
    }
  }

  /** Toggling keeps the list free of duplicates. */
  lemma ToggleKeepsDistinct(expanded: seq<string>, section: string)
    requires NoDuplicates(expanded)
    ensures NoDuplicates(Toggled(expanded, section))
  {
    if section in expanded {
      WithoutKeepsDistinct(expanded, section);
    }
  }

  // ----- panels -----

  const PreviewLength := 500

  /** `raw_text.slice(0, 500)` followed by an ellipsis, which is always appended. */
  function RawPreview(rawText: string): (p: string)
    ensures |p| <= PreviewLength + 3
    ensures EndsWith(p, "...")
    ensures p[..|p| - 3] <= rawText
    ensures |rawText| <= PreviewLength ==> p == rawText + "..."
    ensures |rawText| > PreviewLength ==> |p| == PreviewLength + 3
  {
    var shown := if |rawText| <= PreviewLength then rawText else rawText[..PreviewLength];
    var p := shown + "...";
    assert p[..|p| - 3] == shown;
    p
  }

  const NoSkillsNote := "No skills detected."
  const NoChunksNote := "No experience chunks detected."

  /** The skills panel: a chip per skill, or a note when there is none. */
  datatype SkillsPanel = SkillChips(skills: seq<string>) | NoSkills(note: string)

  function SkillsPanelOf(rc: ResumeContent): (v: SkillsPanel)
    ensures v.NoSkills? <==> rc.skills == []
    ensures v.SkillChips? ==> v.skills == rc.skills
  {
    if |rc.skills| > 0 then SkillChips(rc.skills) else NoSkills(NoSkillsNote)
  }

  /** A block of the experience panel. */
  datatype Block = ExperienceList(entries: seq<string>) | ProjectList(entries: seq<string>) | Note(text: string)

  /** The experience panel: the experience list and the project list, each only when
      non-empty, and the note only when both are empty. */
  function ExperienceBlocks(rc: ResumeContent): (bs: seq<Block>)
    ensures |bs| >= 1
    ensures Note(NoChunksNote) in bs <==> rc.experience == [] && rc.projects == []
    ensures ExperienceList(rc.experience) in bs <==> rc.experience != []
    ensures ProjectList(rc.projects) in bs <==> rc.projects != []
    ensures forall b | b in bs ::
              b == ExperienceList(rc.experience) || b == ProjectList(rc.projects) || b == Note(NoChunksNote)
  {
    (if |rc.experience| > 0 then [ExperienceList(rc.experience)] else [])
    + (if |rc.projects| > 0 then [ProjectList(rc.projects)] else [])
    + (if |rc.experience| == 0 && |rc.projects| == 0 then [Note(NoChunksNote)] else [])
  }

  // ----- the component state -----

  class Editor {
    var expandedSections: seq<string>

    predicate Valid()
      reads this
    {
      NoDuplicates(expandedSections)
    }

    constructor()
      ensures expandedSections == InitialExpanded
      ensures Valid()
    {
      expandedSections := InitialExpanded;
    }

    /** `toggleSection`, the click on a section header. */
    method ToggleSection(section: string)
      requires Valid()
      modifies this
      ensures expandedSections == Toggled(old(expandedSections), section)
      ensures Valid()
    {
      ToggleKeepsDistinct(expandedSections, section);
      if section in expandedSections {
        expandedSections := Without(expandedSections, section);
      } else {
        expandedSections := expandedSections + [section];
      }
    }
  }
}
