/** The deterministic rule engine (backend/app/rule_engine/engine.py): keyword skill
    extraction, role detection, the job-description skill fallback, job-description parsing
    and the skill-gap partition. The ontology files the source loads from disk are
    parameters here: `ontology` is the skills list and `roles` the role-to-skills table. */
module RuleEngine {
  import opened Wrappers
  import opened Strings
  import opened ApiTypes

  // ----- extract_skills_from_text -----

  /** `f" {skill} " in f" {text.lower()} "`: the extractor's space-padded test: an entry
      matches only where a space or an end of the text surrounds it. The ontology
      entry itself is not lower-cased. */
  predicate MentionsSkill(text: string, skill: string) {
    Contains(" " + Lower(text) + " ", " " + skill + " ")
  }

  /** The ontology entries that pass the space-padded test, in ontology order. */
  function Mentioned(ontology: seq<string>, text: string): seq<string>
    decreases |ontology|
  {
    if ontology == [] then []
    else
      var last := ontology[|ontology| - 1];
      Mentioned(ontology[..|ontology| - 1], text) + (if MentionsSkill(text, last) then [last] else [])
  }

  /** What `extract_skills_from_text` returns: nothing for the empty text, otherwise the
      mentioned ontology entries. */
  function ExplicitSkills(ontology: seq<string>, text: string): seq<string> {
    if text == [] then [] else Mentioned(ontology, text)
  }

  /** `extract_skills_from_text`: one pass over the ontology, appending each entry that passes
      the space-padded test. */
  method ExtractSkills(ontology: seq<string>, text: string) returns (found: seq<string>)
    ensures text == [] ==> found == []
    ensures found == ExplicitSkills(ontology, text)
  {
    if text == [] {
      return [];
    }
    found := [];
    var textLower := Lower(text);
    var i := 0;
    while i < |ontology|
      invariant 0 <= i <= |ontology|
      invariant found == Mentioned(ontology[..i], text)
    {
      var skill := ontology[i];
      if Contains(" " + textLower + " ", " " + skill + " ") {
        found := found + [skill];
      }
      assert ontology[..i + 1][..i] == ontology[..i];
      i := i + 1;
    }
    assert ontology[..|ontology|] == ontology;
  }

  /** `needle` does not start at `i` when one of its characters differs from the text. */
  lemma MismatchAt(hay: string, needle: string, i: nat, k: nat)
    requires i + |needle| <= |hay| && k < |needle| && hay[i + k] != needle[k]
    ensures !OccursAt(hay, needle, i)
  {
    assert hay[i..i + |needle|][k] == hay[i + k];
  }

  /** Punctuation next to a skill blocks the space-padded test: "SQL," does not mention
      "sql", although a word-boundary test would accept it. */
  lemma PunctuationBlocksMatch()
    ensures !MentionsSkill("SQL,", "sql")
  {
    var short := " " + Lower("SQL,") + " ";
    assert short == " sql, ";
    forall i | 0 <= i <= |short| - 5
      ensures !OccursAt(short, " sql ", i)
    {
      MismatchAt(short, " sql ", i, if i == 0 then 4 else 1);
    }
    assert " " + "sql" + " " == " sql ";
  }

  /** From "SQL, Docker" only "docker" is extracted: the comma after "SQL" blocks its match. */
  lemma PunctuatedListKeepsOnlyLast()
    ensures ExplicitSkills(["sql", "docker"], "SQL, Docker") == ["docker"]
  {
    var padded := " " + Lower("SQL, Docker") + " ";
    assert padded == " sql, docker ";
    forall i | 0 <= i <= |padded| - 5
      ensures !OccursAt(padded, " sql ", i)
    {
      MismatchAt(padded, " sql ", i, if i == 0 then 4 else 1);
    }
    assert " " + "sql" + " " == " sql " && " " + "docker" + " " == " docker ";
    assert OccursAt(padded, " docker ", 5);
    assert !MentionsSkill("SQL, Docker", "sql") && MentionsSkill("SQL, Docker", "docker");
    assert ["sql", "docker"][..1] == ["sql"] && ["sql"][..0] == [];
    assert Mentioned(["sql"], "SQL, Docker") == [];
  }

  /** An entry is extracted exactly when it is in the ontology and passes the space-padded test. */
  lemma {:induction false} MentionedMembers(ontology: seq<string>, text: string)
    ensures forall s :: s in Mentioned(ontology, text) <==> s in ontology && MentionsSkill(text, s)
    decreases |ontology|
  {
    if ontology != [] {
      var init := ontology[..|ontology| - 1];
      MentionedMembers(init, text);
      assert ontology == init + [ontology[|ontology| - 1]];
    }
  }

  /** The extracted skills keep ontology order: they are a subsequence of the ontology. */
  lemma {:induction false} MentionedIsSubsequence(ontology: seq<string>, text: string)
    ensures IsSubsequence(Mentioned(ontology, text), ontology)
    decreases |ontology|
  {
    if ontology != [] {
      var init := ontology[..|ontology| - 1];
      var last := ontology[|ontology| - 1];
      MentionedIsSubsequence(init, text);
      assert ontology == init + [last];
      if MentionsSkill(text, last) {
        assert Mentioned(ontology, text) == Mentioned(init, text) + [last];
        SubsequenceExtendBoth(Mentioned(init, text), init, last);
      } else {
        assert Mentioned(ontology, text) == Mentioned(init, text);
        SubsequenceExtend(Mentioned(init, text), init, last);
      }
    }
  }

  /** The lower-cased, padded text has no upper-case letter, so an ontology entry with an
      upper-case letter is never extracted. */
  lemma UpperCaseEntryNeverMentioned(text: string, skill: string, k: nat)
    requires k < |skill| && IsUpper(skill[k])
    ensures !MentionsSkill(text, skill)
  {
    var hay := " " + Lower(text) + " ";
    var needle := " " + skill + " ";
    assert forall c | c in hay :: !IsUpper(c);
    forall i | 0 <= i <= |hay| - |needle|
      ensures !OccursAt(hay, needle, i)
    {
      assert needle[1 + k] == skill[k];
      assert !IsUpper(hay[i + 1 + k]);
      assert hay[i..i + |needle|][1 + k] == hay[i + 1 + k];
    }
  }

  // ----- detect_role_from_jd -----

  datatype Role = AiAutomationEngineer | PythonBackendDeveloper | FrontendDeveloper | GenericSoftwareEngineer

  /** The label the role has in the source and in the roles table. */
  function RoleLabel(r: Role): string {
    match r
    case AiAutomationEngineer => "ai_automation_engineer"
    case PythonBackendDeveloper => "python_backend_developer"
    case FrontendDeveloper => "frontend_developer"
    case GenericSoftwareEngineer => "generic_software_engineer"
  }

  const AiKeywords: seq<string> := ["ai", "llm", "automation", "machine learning", "rag"]
  const BackendKeywords: seq<string> := ["backend", "fastapi", "api", "django", "server"]
  const FrontendKeywords: seq<string> := ["frontend", "react", "javascript", "ui/ux"]

  /** `detect_role_from_jd`: the first keyword group (AI, then backend, then frontend) with a
      keyword occurring as a substring of the lower-cased text, else the generic role. */
  function DetectRole(text: string): (r: Role)
    ensures r == AiAutomationEngineer <==> ContainsAny(Lower(text), AiKeywords)
    ensures r == PythonBackendDeveloper <==>
      !ContainsAny(Lower(text), AiKeywords) && ContainsAny(Lower(text), BackendKeywords)
    ensures r == FrontendDeveloper <==>
      !ContainsAny(Lower(text), AiKeywords) && !ContainsAny(Lower(text), BackendKeywords)
      && ContainsAny(Lower(text), FrontendKeywords)
    ensures r == GenericSoftwareEngineer <==>
      !ContainsAny(Lower(text), AiKeywords) && !ContainsAny(Lower(text), BackendKeywords)
      && !ContainsAny(Lower(text), FrontendKeywords)
    ensures RoleLabel(r) in ["ai_automation_engineer", "python_backend_developer",
                             "frontend_developer", "generic_software_engineer"]
  {
    var lower := Lower(text);
    if ContainsAny(lower, AiKeywords) then AiAutomationEngineer
    else if ContainsAny(lower, BackendKeywords) then PythonBackendDeveloper
    else if ContainsAny(lower, FrontendKeywords) then FrontendDeveloper
    else GenericSoftwareEngineer
  }

  /** Keywords are matched as substrings, not words: "ai" inside "maintain" selects the AI
      role even when the text also names a frontend framework. */
  lemma SubstringKeywordSelectsAiRole()
    ensures DetectRole("Maintain React apps") == AiAutomationEngineer
  {
    var lower := Lower("Maintain React apps");
    assert lower == "maintain react apps";
    assert OccursAt(lower, "ai", 1);
    assert "ai" in AiKeywords;
  }

  // ----- get_jd_skills and parse_jd -----

  /** `roles_ontology.get(role, [])`. */
  function RoleDefaults(roles: map<string, seq<string>>, role: Role): seq<string> {
    if RoleLabel(role) in roles then roles[RoleLabel(role)] else []
  }

  /** `get_jd_skills`: the explicitly mentioned skills when there are any, otherwise the
      roles-table entry of the detected role, otherwise nothing. */
  function JdSkills(ontology: seq<string>, roles: map<string, seq<string>>, text: string): (r: seq<string>)
    ensures ExplicitSkills(ontology, text) != [] ==> r == ExplicitSkills(ontology, text)
    ensures ExplicitSkills(ontology, text) == [] && RoleLabel(DetectRole(text)) in roles ==>
      r == roles[RoleLabel(DetectRole(text))]
    ensures ExplicitSkills(ontology, text) == [] && RoleLabel(DetectRole(text)) !in roles ==> r == []
  {
    var explicit := ExplicitSkills(ontology, text);
    if explicit != [] then explicit else RoleDefaults(roles, DetectRole(text))
  }

  /** Every skill the job description gets is a mentioned ontology entry or a default of the
      detected role; never both sources at once. */
  lemma JdSkillsOrigin(ontology: seq<string>, roles: map<string, seq<string>>, text: string)
    ensures var r := JdSkills(ontology, roles, text);
      (forall s | s in r :: s in ontology && MentionsSkill(text, s))
      || r == RoleDefaults(roles, DetectRole(text))
  {
    MentionedMembers(ontology, text);
  }

  /** With a complete roles table (every label mapped to a non-empty list) a job description
      always gets at least one skill. */
  lemma JdSkillsNonEmptyWithCompleteRoles(ontology: seq<string>, roles: map<string, seq<string>>, text: string)
    requires forall r: Role :: RoleLabel(r) in roles && roles[RoleLabel(r)] != []
    ensures JdSkills(ontology, roles, text) != []
  {
    var role := DetectRole(text);
    assert RoleLabel(role) in roles && roles[RoleLabel(role)] != [];
  }

  const EmptyJdError := "Job Description cannot be empty."

  /** `parse_jd`: the empty text raises; otherwise the text is kept as it is and the skills
      come from `get_jd_skills`. Whitespace-only text is not empty here. */
  function ParseJd(ontology: seq<string>, roles: map<string, seq<string>>, text: string): (r: Result<JobDescription, string>)
    ensures r.Failure? <==> text == []
    ensures r.Failure? ==> r.error == EmptyJdError
    ensures r.Success? ==> r.value.rawText == text && r.value.requiredSkills == JdSkills(ontology, roles, text)
  {
    if text == [] then Failure(EmptyJdError)
    else Success(JobDescription(text, JdSkills(ontology, roles, text)))
  }

  // ----- _analyze_skill_gap -----

  /** A job-description skill is strong when its lower-cased form is a substring of the
      lower-cased resume text. */
  predicate IsStrongMatch(resumeText: string, skill: string) {
    Contains(Lower(resumeText), Lower(skill))
  }

  function StrongOf(resumeText: string, skills: seq<string>): seq<string>
    decreases |skills|
  {
    if skills == [] then []
    else
      var last := skills[|skills| - 1];
      StrongOf(resumeText, skills[..|skills| - 1]) + (if IsStrongMatch(resumeText, last) then [last] else [])
  }

  function MissingOf(resumeText: string, skills: seq<string>): seq<string>
    decreases |skills|
  {
    if skills == [] then []
    else
      var last := skills[|skills| - 1];
      MissingOf(resumeText, skills[..|skills| - 1]) + (if IsStrongMatch(resumeText, last) then [] else [last])
  }

  /** `_analyze_skill_gap`: one pass over the job-description skills, appending each to the
      strong or to the missing list; the weak list stays empty. */
  method AnalyzeSkillGap(resumeText: string, jdSkills: seq<string>) returns (gap: SkillAnalysis)
    ensures gap.strongMatches == StrongOf(resumeText, jdSkills)
    ensures gap.missingSkills == MissingOf(resumeText, jdSkills)
    ensures gap.weakMatches == []
  {
    var strong: seq<string> := [];
    var weak: seq<string> := [];
    var missing: seq<string> := [];
    var resumeLower := Lower(resumeText);
    var i := 0;
    while i < |jdSkills|
      invariant 0 <= i <= |jdSkills|
      invariant strong == StrongOf(resumeText, jdSkills[..i])
      invariant missing == MissingOf(resumeText, jdSkills[..i])
    {
      var skill := jdSkills[i];
      if Contains(resumeLower, Lower(skill)) {
        strong := strong + [skill];
      } else {
        missing := missing + [skill];
      }
      assert jdSkills[..i + 1][..i] == jdSkills[..i];
      i := i + 1;
    }
    assert jdSkills[..|jdSkills|] == jdSkills;
    gap := SkillAnalysis(strong, weak, missing);
  }

  /** Strong and missing skills together hold every job-description skill exactly once. */
  lemma {:induction false} SkillGapPartitions(resumeText: string, jdSkills: seq<string>)
    ensures multiset(StrongOf(resumeText, jdSkills)) + multiset(MissingOf(resumeText, jdSkills)) == multiset(jdSkills)
    ensures |StrongOf(resumeText, jdSkills)| + |MissingOf(resumeText, jdSkills)| == |jdSkills|
    decreases |jdSkills|
  {
    if jdSkills != [] {
      var init := jdSkills[..|jdSkills| - 1];
      var last := jdSkills[|jdSkills| - 1];
      SkillGapPartitions(resumeText, init);
      assert jdSkills == init + [last];
      assert multiset(jdSkills) == multiset(init) + multiset{last};
      if IsStrongMatch(resumeText, last) {
        assert StrongOf(resumeText, jdSkills) == StrongOf(resumeText, init) + [last];
        assert MissingOf(resumeText, jdSkills) == MissingOf(resumeText, init);
      } else {
        assert StrongOf(resumeText, jdSkills) == StrongOf(resumeText, init);
        assert MissingOf(resumeText, jdSkills) == MissingOf(resumeText, init) + [last];
      }
    }
  }

  /** A job-description skill is strong exactly when it matches the resume, missing exactly
      when it does not. */
  lemma {:induction false} SkillGapMembers(resumeText: string, jdSkills: seq<string>)
    ensures forall s :: s in StrongOf(resumeText, jdSkills) <==> s in jdSkills && IsStrongMatch(resumeText, s)
    ensures forall s :: s in MissingOf(resumeText, jdSkills) <==> s in jdSkills && !IsStrongMatch(resumeText, s)
    decreases |jdSkills|
  {
    if jdSkills != [] {
      var init := jdSkills[..|jdSkills| - 1];
      SkillGapMembers(resumeText, init);
      assert jdSkills == init + [jdSkills[|jdSkills| - 1]];
    }
  }

  /** The strong list keeps job-description order. */
  lemma {:induction false} StrongKeepsOrder(resumeText: string, jdSkills: seq<string>)
    ensures IsSubsequence(StrongOf(resumeText, jdSkills), jdSkills)
    decreases |jdSkills|
  {
    if jdSkills != [] {
      var init := jdSkills[..|jdSkills| - 1];
      var last := jdSkills[|jdSkills| - 1];
      StrongKeepsOrder(resumeText, init);
      assert jdSkills == init + [last];
      if IsStrongMatch(resumeText, last) {
        assert StrongOf(resumeText, jdSkills) == StrongOf(resumeText, init) + [last];
        SubsequenceExtendBoth(StrongOf(resumeText, init), init, last);
      } else {
        assert StrongOf(resumeText, jdSkills) == StrongOf(resumeText, init);
        SubsequenceExtend(StrongOf(resumeText, init), init, last);
      }
    }
  }

  /** The missing list keeps job-description order. */
  lemma {:induction false} MissingKeepsOrder(resumeText: string, jdSkills: seq<string>)
    ensures IsSubsequence(MissingOf(resumeText, jdSkills), jdSkills)
    decreases |jdSkills|
  {
    if jdSkills != [] {
      var init := jdSkills[..|jdSkills| - 1];
      var last := jdSkills[|jdSkills| - 1];
      MissingKeepsOrder(resumeText, init);
      assert jdSkills == init + [last];
      if IsStrongMatch(resumeText, last) {
        assert MissingOf(resumeText, jdSkills) == MissingOf(resumeText, init);
        SubsequenceExtend(MissingOf(resumeText, init), init, last);
      } else {
        assert MissingOf(resumeText, jdSkills) == MissingOf(resumeText, init) + [last];
        SubsequenceExtendBoth(MissingOf(resumeText, init), init, last);
      }
    }
  }
}
