/** The resume segmenter (backend/app/resume_parser/parser.py): the suffix dispatch of
    `parse` and the line-by-line state machine of `_structure_text`. Text extraction from
    PDF and DOCX files is a parameter. */
module ResumeParser {
  import opened Wrappers
  import opened Strings
  import opened ApiTypes

  // ----- sections and headers -----

  datatype Section = Skills | Experience | Projects

  /** The order in which `keywords.items()` yields the sections. */
  const SectionOrder: seq<Section> := [Skills, Experience, Projects]

  function Keywords(sec: Section): seq<string> {
    match sec
    case Skills => ["skills", "technologies", "technical skills", "stack"]
    case Experience => ["experience", "work history", "employment", "internships"]
    case Projects => ["projects", "personal projects", "academic projects"]
  }

  /** Headers are only recognised on normalised lines shorter than this. */
  const MaxHeaderLength := 30

  /** `line.strip().lower()`. */
  function Normalize(line: string): (n: string)
    ensures |n| == |PyStrip(line)|
  {
    Lower(PyStrip(line))
  }

  /** The section a normalised line is a header of: the first section, in `SectionOrder`,
      with a keyword occurring in the line, provided the line is short enough. */
  function HeaderSection(normalized: string): (r: Option<Section>)
    ensures r == Some(Skills) <==>
      |normalized| < MaxHeaderLength && ContainsAny(normalized, Keywords(Skills))
    ensures r == Some(Experience) <==>
      |normalized| < MaxHeaderLength && !ContainsAny(normalized, Keywords(Skills))
      && ContainsAny(normalized, Keywords(Experience))
    ensures r == Some(Projects) <==>
      |normalized| < MaxHeaderLength && !ContainsAny(normalized, Keywords(Skills))
      && !ContainsAny(normalized, Keywords(Experience)) && ContainsAny(normalized, Keywords(Projects))
    ensures r.None? <==>
      |normalized| >= MaxHeaderLength || forall sec: Section :: !ContainsAny(normalized, Keywords(sec))
  {
    if |normalized| >= MaxHeaderLength then None
    else if ContainsAny(normalized, Keywords(Skills)) then Some(Skills)
    else if ContainsAny(normalized, Keywords(Experience)) then Some(Experience)
    else if ContainsAny(normalized, Keywords(Projects)) then Some(Projects)
    else None
  }

  /** The inner loop of `_structure_text`: try the sections in order and stop at the first one
      whose keywords occur in the short normalised line. */
  method ClassifyLine(normalized: string) returns (header: Option<Section>)
    ensures header == HeaderSection(normalized)
  {
    header := None;
    var k := 0;
    while k < |SectionOrder|
      invariant 0 <= k <= |SectionOrder|
      invariant header.None?
      invariant forall j | 0 <= j < k ::
        !(ContainsAny(normalized, Keywords(SectionOrder[j])) && |normalized| < MaxHeaderLength)
    {
      var section := SectionOrder[k];
      if ContainsAny(normalized, Keywords(section)) && |normalized| < MaxHeaderLength {
        header := Some(section);
        break;
      }
      k := k + 1;
    }
    assert SectionOrder[0] == Skills && SectionOrder[1] == Experience && SectionOrder[2] == Projects;
    assert header.None? ==> k == |SectionOrder|;
  }

  /** A short line heads the first section in `SectionOrder` whose keywords it mentions, even
      when a later section's keywords occur too: the keyword loop breaks at its first match. */
  lemma FirstSectionWins(normalized: string, i: nat, j: nat)
    requires i < j < |SectionOrder| && |normalized| < MaxHeaderLength
    requires forall k | 0 <= k < i :: !ContainsAny(normalized, Keywords(SectionOrder[k]))
    requires ContainsAny(normalized, Keywords(SectionOrder[i]))
    requires ContainsAny(normalized, Keywords(SectionOrder[j]))
    ensures HeaderSection(normalized) == Some(SectionOrder[i])
  {
    if i == 0 {
      assert SectionOrder[0] == Skills;
    } else {
      assert SectionOrder[0] == Skills && SectionOrder[1] == Experience;
    }
  }

  /** The line "technical skills and projects" heads the skills section. */
  lemma TwoSectionLineExample()
    ensures HeaderSection("technical skills and projects") == Some(Skills)
  {
    assert OccursAt("technical skills and projects", "skills", 10);
    assert "skills" in Keywords(Skills);
  }

  /** How the line loop treats a line. */
  datatype LineKind = Blank | Header(section: Section) | Content(entry: string)

  /** A blank line is skipped, a header names its section, any other line is content and is
      stored stripped. */
  function Classify(line: string): (k: LineKind)
    ensures k.Blank? <==> PyStrip(line) == []
    ensures k.Content? ==> k.entry == PyStrip(line) && HeaderSection(Lower(k.entry)).None?
  {
    var normalized := Normalize(line);
    if normalized == [] then Blank
    else match HeaderSection(normalized)
      case Some(sec) => Header(sec)
      case None => Content(PyStrip(line))
  }

  /** The classification of every line. */
  function Kinds(lines: seq<string>): (ks: seq<LineKind>)
    ensures |ks| == |lines|
    decreases |lines|
  {
    if lines == [] then [] else Kinds(lines[..|lines| - 1]) + [Classify(lines[|lines| - 1])]
  }

  lemma {:induction false} KindsAt(lines: seq<string>, i: nat)
    requires i < |lines|
    ensures Kinds(lines)[i] == Classify(lines[i])
    decreases |lines|
  {
    if i < |lines| - 1 {
      KindsAt(lines[..|lines| - 1], i);
    }
  }

  /** The section of the most recent header among the first `n` lines, if there was one. */
  function HeaderBefore(kinds: seq<LineKind>, n: nat): Option<Section>
    requires n <= |kinds|
    decreases n
  {
    if n == 0 then None
    else if kinds[n - 1].Header? then Some(kinds[n - 1].section)
    else HeaderBefore(kinds, n - 1)
  }

  /** Only the first `n` lines matter. */
  lemma {:induction false} HeaderBeforePrefix(kinds: seq<LineKind>, m: nat, n: nat)
    requires n <= m <= |kinds|
    ensures HeaderBefore(kinds[..m], n) == HeaderBefore(kinds, n)
    decreases n
  {
    if n > 0 {
      HeaderBeforePrefix(kinds, m, n - 1);
    }
  }

  // ----- the segmentation state machine -----

  /** The `sections` dictionary, one list per section. */
  datatype Sections = Sections(skills: seq<string>, experience: seq<string>, projects: seq<string>)
  {
    function Get(sec: Section): seq<string> {
      match sec
      case Skills => skills
      case Experience => experience
      case Projects => projects
    }

    /** `sections[sec].append(entry)`. */
    function Append(sec: Section, entry: string): (r: Sections)
      ensures r.Get(sec) == Get(sec) + [entry]
      ensures forall other: Section | other != sec :: r.Get(other) == Get(other)
    {
      match sec
      case Skills => this.(skills := skills + [entry])
      case Experience => this.(experience := experience + [entry])
      case Projects => this.(projects := projects + [entry])
    }

    /** The number of stored entries. */
    function Size(): nat {
      |skills| + |experience| + |projects|
    }

    predicate IsEmpty() {
      skills == [] && experience == [] && projects == []
    }
  }

  datatype ScanState = ScanState(current: Option<Section>, sections: Sections)

  const InitialScan := ScanState(None, Sections([], [], []))

  /** One iteration of the line loop: a blank line is skipped, a header switches the current
      section, a content line is stored in the current section, if there is one. */
  function Step(st: ScanState, kind: LineKind): (r: ScanState)
    ensures kind.Header? ==> r.current == Some(kind.section)
    ensures !kind.Header? ==> r.current == st.current
  {
    match kind
    case Blank => st
    case Header(sec) => st.(current := Some(sec))
    case Content(entry) =>
      if st.current.Some? then st.(sections := st.sections.Append(st.current.value, entry)) else st
  }

  /** The state after the loop has seen lines of these kinds. */
  function Scan(kinds: seq<LineKind>): (r: ScanState)
    decreases |kinds|
  {
    if kinds == [] then InitialScan else Step(Scan(kinds[..|kinds| - 1]), kinds[|kinds| - 1])
  }

  /** What `_structure_text` returns: the text unchanged and the three sections, or, when no
      line was assigned to any section, every non-blank stripped line as experience. */
  function Segmented(text: string): (r: ResumeContent)
    ensures r.rawText == text
  {
    SegmentedLines(text, Split(text, "\n"))
  }

  /** The result for the text `text` cut into `lines`. */
  function SegmentedLines(text: string, lines: seq<string>): (r: ResumeContent)
    ensures r.rawText == text
  {
    var sections := Scan(Kinds(lines)).sections;
    if sections.IsEmpty() then ResumeContent(text, [], StrippedNonEmpty(lines), [])
    else ResumeContent(text, sections.skills, sections.experience, sections.projects)
  }

  /** The classification of a non-blank line follows the header test. */
  lemma ClassifyByHeader(line: string, header: Option<Section>)
    requires Normalize(line) != [] && header == HeaderSection(Normalize(line))
    ensures Classify(line) == if header.Some? then Header(header.value) else Content(PyStrip(line))
  {
  }

  /** The loop's state after one more line. */
  lemma ScanOneMore(lines: seq<string>, i: nat, before: ScanState, after: ScanState)
    requires i < |lines| && Scan(Kinds(lines[..i])) == before
    requires after == Step(before, Classify(lines[i]))
    ensures Scan(Kinds(lines[..i + 1])) == after
  {
    assert lines[..i + 1][..i] == lines[..i];
    assert Kinds(lines[..i + 1])[..i] == Kinds(lines[..i]);
  }

  /** One pass of the loop of `_structure_text`: a header switches the current section, any
      other non-blank line is appended, stripped, to the current section if there is one. */
  method ScanLine(line: string, current: Option<Section>, skills: seq<string>,
                  experience: seq<string>, projects: seq<string>)
    returns (current': Option<Section>, skills': seq<string>, experience': seq<string>, projects': seq<string>)
    ensures ScanState(current', Sections(skills', experience', projects'))
         == Step(ScanState(current, Sections(skills, experience, projects)), Classify(line))
  {
    current', skills', experience', projects' := current, skills, experience, projects;
    var normalized := Lower(PyStrip(line));
    if normalized != [] {
      var header := ClassifyLine(normalized);
      ClassifyByHeader(line, header);
      if header.Some? {
        current' := header;
      } else if current.Some? {
        match current.value
        case Skills => skills' := skills + [PyStrip(line)];
        case Experience => experience' := experience + [PyStrip(line)];
        case Projects => projects' := projects + [PyStrip(line)];
      }
    }
  }

  /** `_structure_text`: cut the text into lines and scan them. */
  method StructureText(text: string) returns (rc: ResumeContent)
    ensures rc == Segmented(text)
  {
    var lines := Split(text, "\n");
    rc := StructureLines(text, lines);
  }

  /** The loop of `_structure_text` over `lines`, then the fallback. */
  method StructureLines(text: string, lines: seq<string>) returns (rc: ResumeContent)
    ensures rc == SegmentedLines(text, lines)
  {
    var skills: seq<string> := [];
    var experience: seq<string> := [];
    var projects: seq<string> := [];
    var current: Option<Section> := None;
    var i := 0;
    assert lines[..0] == [];
    while i < |lines|
      invariant 0 <= i <= |lines|
      invariant Scan(Kinds(lines[..i])) == ScanState(current, Sections(skills, experience, projects))
    {
      ghost var before := ScanState(current, Sections(skills, experience, projects));
      current, skills, experience, projects := ScanLine(lines[i], current, skills, experience, projects);
      ScanOneMore(lines, i, before, ScanState(current, Sections(skills, experience, projects)));
      i := i + 1;
    }
    assert lines[..|lines|] == lines;
    if skills == [] && experience == [] && projects == [] {
      experience := StrippedNonEmpty(lines);
    }
    rc := ResumeContent(text, skills, experience, projects);
  }

  // ----- properties of the state machine -----

  /** The current section is the section of the most recent header. */
  lemma {:induction false} ScanTracksLastHeader(kinds: seq<LineKind>)
    ensures Scan(kinds).current == HeaderBefore(kinds, |kinds|)
    decreases |kinds|
  {
    if kinds != [] {
      ScanTracksLastHeader(kinds[..|kinds| - 1]);
      HeaderBeforePrefix(kinds, |kinds| - 1, |kinds| - 1);
    }
  }

  /** Line `i` is a content line stored as `entry` in section `sec`. */
  predicate RecordedAt(kinds: seq<LineKind>, i: int, sec: Section, entry: string) {
    0 <= i < |kinds| && kinds[i] == Content(entry) && HeaderBefore(kinds, i) == Some(sec)
  }

  /** An entry is stored in a section exactly when it comes from a content line whose most
      recent preceding header names that section. In particular headers, blank lines and the
      lines before the first header are never stored. */
  lemma {:induction false} ScanEntries(kinds: seq<LineKind>, sec: Section)
    ensures forall entry :: entry in Scan(kinds).sections.Get(sec) <==>
      exists i :: RecordedAt(kinds, i, sec, entry)
    decreases |kinds|
  {
    if kinds != [] {
      var init := kinds[..|kinds| - 1];
      var n := |init|;
      ScanEntries(init, sec);
      ScanTracksLastHeader(init);
      HeaderBeforePrefix(kinds, n, n);
      var before := Scan(init).sections.Get(sec);
      var after := Scan(kinds).sections.Get(sec);
      var recordsLast := kinds[n].Content? && HeaderBefore(kinds, n) == Some(sec);
      assert after == before + (if recordsLast then [kinds[n].entry] else []);
      forall i, entry | 0 <= i < n
        ensures RecordedAt(kinds, i, sec, entry) <==> RecordedAt(init, i, sec, entry)
      {
        HeaderBeforePrefix(kinds, n, i);
      }
      forall entry
        ensures entry in after <==> exists i :: RecordedAt(kinds, i, sec, entry)
      {
        if exists i :: RecordedAt(kinds, i, sec, entry) {
          var i :| RecordedAt(kinds, i, sec, entry);
          if i < n {
            assert RecordedAt(init, i, sec, entry);
          }
        }
        if entry in before {
          var i :| RecordedAt(init, i, sec, entry);
          assert RecordedAt(kinds, i, sec, entry);
        } else if entry in after {
          assert RecordedAt(kinds, n, sec, entry);
        }
      }
    }
  }

  /** The reference list of section `sec` over the first `n` lines: the entries of the content
      lines whose most recent preceding header names `sec`, in line order, one per line. */
  function EntriesUnder(kinds: seq<LineKind>, sec: Section, n: nat): seq<string>
    requires n <= |kinds|
    decreases n
  {
    if n == 0 then []
    else
      var recorded := kinds[n - 1].Content? && HeaderBefore(kinds, n - 1) == Some(sec);
      EntriesUnder(kinds, sec, n - 1) + (if recorded then [kinds[n - 1].entry] else [])
  }

  /** Only the first `n` lines matter. */
  lemma {:induction false} EntriesUnderPrefix(kinds: seq<LineKind>, sec: Section, m: nat, n: nat)
    requires n <= m <= |kinds|
    ensures EntriesUnder(kinds[..m], sec, n) == EntriesUnder(kinds, sec, n)
    decreases n
  {
    if n > 0 {
      EntriesUnderPrefix(kinds, sec, m, n - 1);
      HeaderBeforePrefix(kinds, m, n - 1);
    }
  }

  /** Each section holds exactly its reference list: with multiplicity and in line order. */
  lemma {:induction false} ScanListsEntriesUnder(kinds: seq<LineKind>, sec: Section)
    ensures Scan(kinds).sections.Get(sec) == EntriesUnder(kinds, sec, |kinds|)
    decreases |kinds|
  {
    if kinds != [] {
      var init := kinds[..|kinds| - 1];
      var n := |init|;
      ScanListsEntriesUnder(init, sec);
      ScanTracksLastHeader(init);
      HeaderBeforePrefix(kinds, n, n);
      EntriesUnderPrefix(kinds, sec, n, n);
    }
  }

  /** A repeated line under one header is stored twice. */
  lemma RepeatedLineIsKept()
    ensures Scan([Header(Skills), Content("a"), Content("a")]).sections.Get(Skills) == ["a", "a"]
  {
    var kinds := [Header(Skills), Content("a"), Content("a")];
    ScanListsEntriesUnder(kinds, Skills);
    assert HeaderBefore(kinds, 1) == Some(Skills);
    assert HeaderBefore(kinds, 2) == Some(Skills);
  }

  /** Each section keeps input order: it is a subsequence of the stripped lines. */
  lemma {:induction false} ScanKeepsOrder(lines: seq<string>, sec: Section)
    ensures IsSubsequence(Scan(Kinds(lines)).sections.Get(sec), StrippedLines(lines))
    decreases |lines|
  {
    if lines != [] {
      var init := lines[..|lines| - 1];
      var last := lines[|lines| - 1];
      ScanKeepsOrder(init, sec);
      assert Kinds(lines)[..|lines| - 1] == Kinds(init);
      var before := Scan(Kinds(init)).sections.Get(sec);
      var after := Scan(Kinds(lines)).sections.Get(sec);
      if after == before + [PyStrip(last)] {
        SubsequenceExtendBoth(before, StrippedLines(init), PyStrip(last));
      } else {
        assert after == before;
        SubsequenceExtend(before, StrippedLines(init), PyStrip(last));
      }
    }
  }

  /** Each line stores at most one entry: the sections together never hold more entries
      than there are lines. */
  lemma {:induction false} ScanStoresAtMostOnePerLine(kinds: seq<LineKind>)
    ensures Scan(kinds).sections.Size() <= |kinds|
    decreases |kinds|
  {
    if kinds != [] {
      ScanStoresAtMostOnePerLine(kinds[..|kinds| - 1]);
    }
  }

  /** The stripped form of every line, in order. */
  function StrippedLines(lines: seq<string>): (r: seq<string>)
    ensures |r| == |lines|
    decreases |lines|
  {
    if lines == [] then [] else StrippedLines(lines[..|lines| - 1]) + [PyStrip(lines[|lines| - 1])]
  }

  /** Without a header line nothing is assigned to any section. */
  lemma {:induction false} NoHeaderNoEntries(kinds: seq<LineKind>)
    requires forall i | 0 <= i < |kinds| :: !kinds[i].Header?
    ensures Scan(kinds) == InitialScan
    decreases |kinds|
  {
    if kinds != [] {
      NoHeaderNoEntries(kinds[..|kinds| - 1]);
    }
  }

  /** With no header among the first `n` kinds, none of them has a header before it. */
  lemma {:induction false} NoHeaderBefore(kinds: seq<LineKind>, n: nat)
    requires n <= |kinds| && forall i | 0 <= i < n :: !kinds[i].Header?
    ensures HeaderBefore(kinds, n) == None
    decreases n
  {
    if n > 0 {
      NoHeaderBefore(kinds, n - 1);
    }
  }

  /** The lines before the first header are never stored, whatever follows them: the scan of
      that prefix records nothing, and no line of it is recorded in the whole scan. */
  lemma LinesBeforeFirstHeaderAreDropped(kinds: seq<LineKind>, n: nat)
    requires n <= |kinds| && forall i | 0 <= i < n :: !kinds[i].Header?
    ensures Scan(kinds[..n]) == InitialScan
    ensures forall i, sec, entry | 0 <= i < n :: !RecordedAt(kinds, i, sec, entry)
  {
    NoHeaderNoEntries(kinds[..n]);
    forall i, sec, entry | 0 <= i < n
      ensures !RecordedAt(kinds, i, sec, entry)
    {
      NoHeaderBefore(kinds, i);
    }
  }

  // ----- properties of the result -----

  /** Every stored entry is the stripped form of a non-blank, non-header line that comes after
      a header for its section, with no other header in between. */
  lemma LineEntryOrigin(lines: seq<string>, sec: Section, entry: string) returns (i: nat)
    requires entry in Scan(Kinds(lines)).sections.Get(sec)
    ensures i < |lines| && entry == PyStrip(lines[i]) && entry != []
      && PyStrip(entry) == entry && HeaderSection(Lower(entry)).None?
      && HeaderBefore(Kinds(lines), i) == Some(sec)
  {
    ScanEntries(Kinds(lines), sec);
    var k :| RecordedAt(Kinds(lines), k, sec, entry);
    i := k;
    KindsAt(lines, i);
    StripIdempotent(lines[i], IsPySpace);
  }

  /** The same for the lines of a text. */
  lemma SectionEntryOrigin(text: string, sec: Section, entry: string) returns (i: nat)
    requires entry in Scan(Kinds(Split(text, "\n"))).sections.Get(sec)
    ensures var lines := Split(text, "\n");
      i < |lines| && entry == PyStrip(lines[i]) && entry != []
      && PyStrip(entry) == entry && HeaderSection(Lower(entry)).None?
      && HeaderBefore(Kinds(lines), i) == Some(sec)
  {
    i := LineEntryOrigin(Split(text, "\n"), sec, entry);
  }

  /** A text without header lines falls back: experience holds every non-blank stripped line,
      skills and projects stay empty. */
  lemma NoHeaderFallback(text: string)
    requires forall line | line in Split(text, "\n") :: !Classify(line).Header?
    ensures Segmented(text) == ResumeContent(text, [], StrippedNonEmpty(Split(text, "\n")), [])
  {
    var lines := Split(text, "\n");
    forall i | 0 <= i < |lines|
      ensures !Kinds(lines)[i].Header?
    {
      KindsAt(lines, i);
      assert lines[i] in lines;
    }
    NoHeaderNoEntries(Kinds(lines));
  }

  /** In the fallback the experience list holds the stripped form of every non-blank line,
      header lines included. */
  lemma FallbackKeepsEveryLine(text: string, k: nat)
    requires Scan(Kinds(Split(text, "\n"))).sections.IsEmpty()
    requires k < |Split(text, "\n")| && PyStrip(Split(text, "\n")[k]) != []
    ensures PyStrip(Split(text, "\n")[k]) in Segmented(text).experience
  {
    var lines := Split(text, "\n");
    StrippedNonEmptyMembers(lines);
    assert lines[k] in lines;
  }

  /** Every entry of every list of the result is non-empty and has no surrounding whitespace. */
  lemma SegmentedLinesEntriesAreTrimmed(text: string, lines: seq<string>, entry: string)
    requires entry in SegmentedLines(text, lines).skills || entry in SegmentedLines(text, lines).experience
          || entry in SegmentedLines(text, lines).projects
    ensures entry != [] && PyStrip(entry) == entry
  {
    var sections := Scan(Kinds(lines)).sections;
    if sections.IsEmpty() {
      StrippedNonEmptyMembers(lines);
      var p :| p in lines && PyStrip(p) == entry;
      StripIdempotent(p, IsPySpace);
    } else if entry in sections.skills {
      var _ := LineEntryOrigin(lines, Skills, entry);
    } else if entry in sections.experience {
      var _ := LineEntryOrigin(lines, Experience, entry);
    } else {
      var _ := LineEntryOrigin(lines, Projects, entry);
    }
  }

  /** The same for the lines of a text. */
  lemma SegmentedEntriesAreTrimmed(text: string, entry: string)
    requires entry in Segmented(text).skills || entry in Segmented(text).experience
          || entry in Segmented(text).projects
    ensures entry != [] && PyStrip(entry) == entry
  {
    SegmentedLinesEntriesAreTrimmed(text, Split(text, "\n"), entry);
  }

  // ----- parse: dispatch on the file name -----

  datatype FileFormat = Pdf | Docx

  const UnsupportedFormatError := "Unsupported file format. Use PDF or DOCX."

  /** The format `parse` chooses from the lower-cased file name. */
  function FormatOf(filename: string): (r: Result<FileFormat, string>)
    ensures r == Success(Pdf) <==> EndsWith(Lower(filename), ".pdf")
    ensures r == Success(Docx) <==> !EndsWith(Lower(filename), ".pdf") && EndsWith(Lower(filename), ".docx")
    ensures r.Failure? <==> !EndsWith(Lower(filename), ".pdf") && !EndsWith(Lower(filename), ".docx")
    ensures r.Failure? ==> r.error == UnsupportedFormatError
  {
    var name := Lower(filename);
    if EndsWith(name, ".pdf") then Success(Pdf)
    else if EndsWith(name, ".docx") then Success(Docx)
    else Failure(UnsupportedFormatError)
  }

  /** The dispatch ignores the case of the file name. */
  lemma FormatOfIgnoresCase(filename: string)
    ensures FormatOf(Lower(filename)) == FormatOf(filename)
  {
    LowerIdempotent(filename);
  }

  /** Any name ending in ".PDF" is read as a PDF file. */
  lemma UpperCaseSuffixIsPdf(stem: string)
    ensures FormatOf(stem + ".PDF") == Success(Pdf)
  {
    var name := Lower(stem + ".PDF");
    assert name[|stem|..] == ".pdf";
  }

  /** `parse`: reject an unsupported file name, otherwise segment the text extracted from
      the file in the chosen format. */
  method Parse(filename: string, extract: FileFormat -> string) returns (r: Result<ResumeContent, string>)
    ensures FormatOf(filename).Failure? ==> r == Failure(UnsupportedFormatError)
    ensures FormatOf(filename).Success? ==> r == Success(Segmented(extract(FormatOf(filename).value)))
  {
    var name := Lower(filename);
    var rawText: string;
    if EndsWith(name, ".pdf") {
      rawText := extract(Pdf);
    } else if EndsWith(name, ".docx") {
      rawText := extract(Docx);
    } else {
      return Failure(UnsupportedFormatError);
    }
    var content := StructureText(rawText);
    r := Success(content);
  }
}
