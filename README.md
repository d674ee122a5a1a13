# Resume intelligence engine: a Dafny model of its rule-based core

The system compares a resume with a job description. The backend does four things:
- It extracts text from an uploaded PDF or DOCX file.
- It splits that text into skills, experience and projects with a line-by-line heuristic.
- It finds the job's required skills by keyword matching against an ontology, falling back to role defaults inferred from keywords.
- It splits those skills into strong matches and missing skills.

The frontend is a React single-page app with three screens:
- an upload screen;
- an analysing loader that animates four steps while the request runs;
- a workspace with a resume viewer and a tabbed analysis panel.

This project models the deterministic core and proves properties of it:

- `rule_engine.dfy` (module `RuleEngine`) covers `backend/app/rule_engine/engine.py`:
  - skill extraction by padded substring search;
  - role detection;
  - the explicit-or-default strategy for job-description skills;
  - `parse_jd` with its empty-text error;
  - the skill-gap split.
- `resume_parser.dfy` (module `ResumeParser`) covers `backend/app/resume_parser/parser.py`:
  - the suffix dispatch of `parse`;
  - the loop of `_structure_text`, as an imperative method proved against a scan function over classified lines, plus the fallback that puts every non-blank line into experience.
- `text_cleaning.dfy` (module `TextCleaning`) covers `backend/app/utils/text_cleaning.py`:
  - `clean_text` as a pipeline of substitutions;
  - `extract_sentences`.
- `strings.dfy` (module `Strings`) holds Python and JavaScript string primitives used by the modules above, with their lemmas:
  - `lower`, `strip`/`trim`, `split`/`join`, substring search.
- `analysis_tabs.dfy`, `resume_editor.dfy`, `upload_screen.dfy`, `analyzing_loader.dfy` and `index_page.dfy` model the state of the frontend components:
  - each component's state is a class whose methods are proved against pure transition functions;
  - the properties are lemmas about those functions.
- `api_types.dfy` and `wrappers.dfy` hold the response records of `frontend/src/types/api.ts` and the `Option`/`Result` types.

Modelling decisions:

- **The JSON files as parameters.** The skill ontology (`skills.json`) and the role defaults (`roles.json`) are parameters: `ontology: seq<string>` and `roles: map<string, seq<string>>`. File loading is not modelled.
- **Text extraction as a parameter.** PDF and DOCX extraction is a parameter `extract: FileFormat -> string` of `ResumeParser.Parse`.
- **Lower-casing.** Python's `lower()` is modelled on ASCII letters only (`Strings.LowerChar`).
- **Whitespace.** Python's `strip()` and regex `\s` use `Strings.IsPySpace`; JavaScript's `trim()` uses `Strings.IsJsSpace`. Each is a fixed set of ASCII and common Unicode space characters.
- **`clean_text`'s regex substitutions.** Each becomes `CollapseRuns(s, inRun)`: every maximal run of characters satisfying `inRun` is replaced by one space.
- **`extract_sentences`.** Its split on `[.!?\n]\s+` becomes `SentencePieces`: a break is a terminator followed by at least one whitespace character; the terminator and the whole whitespace run are dropped. `Separators` lists the text each match covers, and `Interleave` puts the pieces and separators back together.
- **`_structure_text`.** Each line is classified once as `Blank`, `Header(section)` or `Content(entry)` (`Classify`). The scan is a fold of `Step` over these kinds.
- **The analysing loader.** Interval callbacks and promise settlement become events (`StepTick`, `CheckTick`, `Resolve`, `Reject`) applied by `Next`. The `stopped` flag stands for the cleared intervals after completion. Settlement is applied once, the first time.
- **The page.** Each call to `analyzeResume` is appended to a request log, and the page's promise is the index of its request.

Where the documentation and the code differ, the code is followed:
- **Cancelling the loader.** `handleCancel` in `frontend/src/pages/Index.tsx` only drops the promise and goes back to the upload screen. It keeps the file, the job description and any earlier result (`IndexPage.CancelKeepsInputs`).
- **`clean_text` is unused.** `parser.py` imports `clean_text` but never calls it, so segmentation works on the unnormalised text.
- **"Word boundary" matching.** The documented matching is by word boundary. `extract_skills_from_text` instead uses a space-padded substring test: an entry matches only where a space or an end of the text surrounds it. Punctuation next to a skill therefore blocks the match: "SQL," does not mention "sql", so from "SQL, Docker" only "docker" is extracted (`RuleEngine.PunctuationBlocksMatch`, `RuleEngine.PunctuatedListKeepsOnlyLast`). The test also matches only ontology entries without upper-case letters (`RuleEngine.UpperCaseEntryNeverMentioned`). Role keywords are plain substrings, so "Maintain React apps" is classified as an AI role because "maintain" contains "ai" (`RuleEngine.SubstringKeywordSelectsAiRole`).
- **Single submission.** The analyse button is meant to be inert once the card starts leaving. `handleAnalyze` in `frontend/src/components/UploadScreen.tsx` has no `isExiting` guard, and the leaving card keeps its button during the 0.8 s exit. A second click can therefore schedule a second `onAnalyze`, and with it a second `analyzeResume` call in `Index.tsx` (`UploadScreen.ExitingUploadResubmits`).
- **The `projects` section.** The resume viewer lists a `projects` section in its expanded list but has no panel for it. The experience panel shows both the experience and the project entries (`ResumeEditor.ExperienceBlocks`).

## Model

| member | source | states |
|---|---|---|
| RuleEngine.ExtractSkills | backend/app/rule_engine/engine.py:32-48 | empty text gives no skills; otherwise the result is the ontology entries mentioned in the lower-cased text padded by spaces, in ontology order |
| RuleEngine.MentionedMembers | backend/app/rule_engine/engine.py:43-46 | a skill is extracted if and only if it is in the ontology and `" skill "` occurs in `" lower(text) "` |
| RuleEngine.MentionedIsSubsequence | backend/app/rule_engine/engine.py:43-48 | the extracted skills keep the ontology's order (a subsequence of it) |
| RuleEngine.PunctuationBlocksMatch | backend/app/rule_engine/engine.py:45 | a skill followed by a comma, as in "SQL,", fails the space-padded test |
| RuleEngine.PunctuatedListKeepsOnlyLast | backend/app/rule_engine/engine.py:41-48 | from "SQL, Docker" with the ontology ["sql", "docker"] only "docker" is extracted |
| RuleEngine.UpperCaseEntryNeverMentioned | backend/app/rule_engine/engine.py:41-45 | an ontology entry containing an upper-case letter is never found, since only the text is lower-cased |
| RuleEngine.DetectRole | backend/app/rule_engine/engine.py:51-64 | AI role iff an AI keyword occurs; backend iff no AI keyword but a backend keyword; frontend iff neither but a frontend keyword; generic otherwise; the label is one of the four role names |
| RuleEngine.SubstringKeywordSelectsAiRole | backend/app/rule_engine/engine.py:57-58 | keywords match as substrings: "Maintain React apps" is an AI role, not a frontend one |
| RuleEngine.JdSkills | backend/app/rule_engine/engine.py:67-88 | explicit skills when there are any; otherwise the defaults of the detected role, or nothing if the role is not in the role table |
| RuleEngine.JdSkillsOrigin | backend/app/rule_engine/engine.py:75-88 | every job-description skill is an extracted ontology entry or a default of the detected role |
| RuleEngine.JdSkillsNonEmptyWithCompleteRoles | backend/app/rule_engine/engine.py:81-88 | with non-empty defaults for every role, some skills are always required |
| RuleEngine.ParseJd | backend/app/rule_engine/engine.py:91-105 | fails, with the ValueError message, exactly on empty text; otherwise keeps the raw text and the skills of `get_jd_skills` |
| RuleEngine.AnalyzeSkillGap | backend/app/rule_engine/engine.py:162-180 | the loop's strong and missing lists equal their specification functions; weak matches are always empty |
| RuleEngine.SkillGapPartitions | backend/app/rule_engine/engine.py:169-174 | strong and missing together are a permutation of the job skills (as multisets) |
| RuleEngine.SkillGapMembers | backend/app/rule_engine/engine.py:169-174 | a skill is strong iff it is a job skill whose lower-case form occurs in the lower-cased resume; missing iff it is a job skill that does not |
| RuleEngine.StrongKeepsOrder | backend/app/rule_engine/engine.py:169-172 | strong matches keep the job-description order |
| RuleEngine.MissingKeepsOrder | backend/app/rule_engine/engine.py:169-174 | missing skills keep the job-description order |
| ResumeParser.FormatOf | backend/app/resume_parser/parser.py:20-31 | PDF iff the lower-cased name ends in ".pdf"; DOCX iff it does not but ends in ".docx"; the unsupported-format error iff neither |
| ResumeParser.FormatOfIgnoresCase | backend/app/resume_parser/parser.py:20 | the dispatch depends only on the lower-cased name |
| ResumeParser.UpperCaseSuffixIsPdf | backend/app/resume_parser/parser.py:20-27 | a name ending in ".PDF" is read as a PDF |
| ResumeParser.Parse | backend/app/resume_parser/parser.py:19-33 | an unsupported name gives the error; otherwise the result is the segmentation of the extracted text |
| ResumeParser.Normalize | backend/app/resume_parser/parser.py:77 | the normalised line has the length of the stripped line |
| ResumeParser.HeaderSection | backend/app/resume_parser/parser.py:70-87 | a normalised line shorter than 30 is a skills header iff it holds a skills keyword; an experience header iff it holds no skills keyword but an experience keyword; projects likewise after both; never a header otherwise |
| ResumeParser.ClassifyLine | backend/app/resume_parser/parser.py:82-87 | the keyword loop with its `break` computes the header section of a line |
| ResumeParser.FirstSectionWins | backend/app/resume_parser/parser.py:83-87 | a normalised line shorter than 30 heads the first section, in table order, whose keywords it holds, whatever later sections' keywords it also holds |
| ResumeParser.TwoSectionLineExample | backend/app/resume_parser/parser.py:83-87 | "technical skills and projects" heads the skills section |
| ResumeParser.Classify | backend/app/resume_parser/parser.py:77-90 | a line is blank iff it strips to nothing; a content line carries its stripped text and is not a header |
| ResumeParser.Step | backend/app/resume_parser/parser.py:76-93 | one line: a header makes its section current; any other line leaves the current section as it was |
| ResumeParser.SegmentedLines | backend/app/resume_parser/parser.py:76-103 | the scan's sections, or the fallback when they are all empty; the raw text is returned unchanged |
| ResumeParser.Sections.Append | backend/app/resume_parser/parser.py:93 | appending to one section adds the entry at its end and leaves the others unchanged |
| ResumeParser.ScanLine | backend/app/resume_parser/parser.py:76-93 | one pass of the loop body performs one `Step` of the scan on the line's kind |
| ResumeParser.StructureLines | backend/app/resume_parser/parser.py:61-103 | the loop and the fallback over the lines compute the specified segmentation |
| ResumeParser.StructureText | backend/app/resume_parser/parser.py:54-103 | `_structure_text` equals the segmentation of the text split on "\n" |
| ResumeParser.Segmented | backend/app/resume_parser/parser.py:98-99 | the raw text is returned unchanged |
| ResumeParser.ScanTracksLastHeader | backend/app/resume_parser/parser.py:82-86 | the current section after the scan is that of the last header line |
| ResumeParser.ScanEntries | backend/app/resume_parser/parser.py:89-93 | an entry is in a section iff it is the stripped text of a content line whose latest preceding header names that section |
| ResumeParser.ScanListsEntriesUnder | backend/app/resume_parser/parser.py:76-93 | each section's list is exactly its reference list: one entry per content line under a latest header for that section, with repeats, in line order |
| ResumeParser.RepeatedLineIsKept | backend/app/resume_parser/parser.py:90-93 | a line repeated under one header is stored twice |
| ResumeParser.ScanKeepsOrder | backend/app/resume_parser/parser.py:76-93 | each section's entries are a subsequence of the stripped lines, in line order |
| ResumeParser.NoHeaderNoEntries | backend/app/resume_parser/parser.py:92-93 | with no header line the scan records nothing and has no current section |
| ResumeParser.LinesBeforeFirstHeaderAreDropped | backend/app/resume_parser/parser.py:67-93 | the lines before the first header are never stored, whatever lines follow them |
| ResumeParser.NoHeaderBefore | backend/app/resume_parser/parser.py:67 | after lines none of which is a header there is no current section |
| ResumeParser.ScanStoresAtMostOnePerLine | backend/app/resume_parser/parser.py:76-93 | the sections together hold at most one entry per line |
| ResumeParser.LineEntryOrigin | backend/app/resume_parser/parser.py:76-93 | every section entry is the stripped text of a non-blank, non-header line whose latest preceding header names that section |
| ResumeParser.SectionEntryOrigin | backend/app/resume_parser/parser.py:59-93 | the same for the lines of the text split on "\n" |
| ResumeParser.NoHeaderFallback | backend/app/resume_parser/parser.py:95-96 | without header lines the result is no skills, no projects and every non-blank stripped line as experience |
| ResumeParser.FallbackKeepsEveryLine | backend/app/resume_parser/parser.py:95-96 | when the scan records nothing, every non-blank line appears stripped in experience |
| ResumeParser.SegmentedLinesEntriesAreTrimmed | backend/app/resume_parser/parser.py:78-96 | every skills, experience or projects entry is non-empty and has no surrounding whitespace |
| ResumeParser.SegmentedEntriesAreTrimmed | backend/app/resume_parser/parser.py:59-96 | the same for the result of `_structure_text` |
| TextCleaning.CleanText | backend/app/utils/text_cleaning.py:7-26 | empty text gives the empty string, and cleaning never lengthens a text (its other properties are the lemmas below) |
| TextCleaning.CollapseRuns | backend/app/utils/text_cleaning.py:21-24 | a `re.sub` of a character class's runs by one space never lengthens the text |
| TextCleaning.ReplaceNewlinesAndTabs | backend/app/utils/text_cleaning.py:18 | each newline and tab becomes a space and every other character stays |
| TextCleaning.CollapseRunsChars | backend/app/utils/text_cleaning.py:21-24 | a substitution's output holds only spaces and characters of its input that are outside the run class |
| TextCleaning.CollapseRunsKeeps | backend/app/utils/text_cleaning.py:21-24 | a character outside the run class survives the substitution |
| TextCleaning.CollapseRunsSeparated | backend/app/utils/text_cleaning.py:24 | after collapsing whitespace no two whitespace characters are adjacent |
| TextCleaning.CollapseRunsNoMatch | backend/app/utils/text_cleaning.py:21 | a text with no character of the run class is unchanged |
| TextCleaning.CollapseRunsLoneSpaces | backend/app/utils/text_cleaning.py:24 | a text whose whitespace is isolated single spaces is unchanged |
| TextCleaning.SubstitutionsNormalizeSpacing | backend/app/utils/text_cleaning.py:18-24 | after the three substitutions the text is ASCII, its only whitespace is the space, and spaces are isolated |
| TextCleaning.StripKeepsSpacing | backend/app/utils/text_cleaning.py:26 | stripping keeps those properties and leaves no space at either end |
| TextCleaning.LowerKeepsSpacing | backend/app/utils/text_cleaning.py:26 | lower-casing such a text gives a normalised text |
| TextCleaning.CleanTextIsNormalized | backend/app/utils/text_cleaning.py:7-26 | the result is ASCII, has no upper-case letters, no whitespace except isolated interior single spaces |
| TextCleaning.CleanTextHasNoNewlineOrTab | backend/app/utils/text_cleaning.py:17-26 | the result holds no newline and no tab |
| TextCleaning.CleanTextEmptyIff | backend/app/utils/text_cleaning.py:14-26 | the result is empty iff every character of the input is whitespace or non-ASCII |
| TextCleaning.CleanTextFixesNormalized | backend/app/utils/text_cleaning.py:14-26 | a normalised text is returned unchanged |
| TextCleaning.CleanTextIdempotent | backend/app/utils/text_cleaning.py:7-26 | cleaning twice equals cleaning once |
| TextCleaning.ExtractSentences | backend/app/utils/text_cleaning.py:28-36 | empty text gives no sentence, and there are never more sentences than split pieces |
| TextCleaning.SentencePieces | backend/app/utils/text_cleaning.py:35 | the split yields at least one piece |
| TextCleaning.Separators | backend/app/utils/text_cleaning.py:35 | there is one separator fewer than pieces |
| TextCleaning.SentencePiecesRebuildText | backend/app/utils/text_cleaning.py:35 | the pieces with the separators put back between them give the text: nothing is lost or reordered |
| TextCleaning.SeparatorsAreMaximalMatches | backend/app/utils/text_cleaning.py:35 | each separator is an end mark followed by one or more whitespace characters, and the next piece does not start with whitespace |
| TextCleaning.SeparatorsAreLeftmost | backend/app/utils/text_cleaning.py:35 | no match starts inside a piece, even one running on into the following separator |
| TextCleaning.ExtractSentencesMembers | backend/app/utils/text_cleaning.py:35-36 | a sentence is returned iff it is the non-empty stripped form of some piece |
| TextCleaning.SentenceHeadIsPrefix | backend/app/utils/text_cleaning.py:35 | the first piece is a prefix of the text |
| TextCleaning.SentencePieceHasNoBreak | backend/app/utils/text_cleaning.py:35 | no piece contains a terminator followed by whitespace |
| TextCleaning.ExtractSentencesAreTrimmed | backend/app/utils/text_cleaning.py:35-36 | every sentence is non-empty and has no whitespace at either end |
| TextCleaning.SentenceHasNoBreak | backend/app/utils/text_cleaning.py:35-36 | a returned sentence contains no terminator followed by whitespace |
| TextCleaning.ExtractSentencesHaveNoBreak | backend/app/utils/text_cleaning.py:35-36 | no returned sentence contains a terminator followed by whitespace |
| Strings.Strip | backend/app/resume_parser/parser.py:77 | stripping never lengthens and leaves no whitespace at either end |
| Strings.StripEmptyIff | backend/app/resume_parser/parser.py:78 | a line strips to nothing iff it is all whitespace |
| Strings.StripIsSlice | backend/app/resume_parser/parser.py:77 | the stripped text is a contiguous slice of the line |
| Strings.StripIdempotent | backend/app/resume_parser/parser.py:93 | stripping an entry again changes nothing |
| Strings.SplitJoin | backend/app/resume_parser/parser.py:59 | joining the split pieces with the separator gives the text back |
| Strings.SplitPieceLacksSeparator | backend/app/resume_parser/parser.py:59 | no piece of a split contains the separator |
| Strings.Without | frontend/src/components/workspace/ResumeEditor.tsx:17 | `filter(s => s !== section)` keeps exactly the other elements, in their order, and changes nothing when the section is absent |
| Strings.StrippedNonEmptyMembers | backend/app/resume_parser/parser.py:96 | the list comprehension's result holds exactly the stripped non-blank lines |
| Strings.StrippedNonEmptyOrigin | backend/app/utils/text_cleaning.py:36 | each kept item is the stripped form of some input piece, and non-empty |
| Strings.LowerIdempotent | backend/app/rule_engine/engine.py:41 | lower-casing twice equals lower-casing once |
| AnalysisTabs.TabIdsIdentifyTabs | frontend/src/components/workspace/AIAnalysisTabs.tsx:12-18 | the five tab ids are distinct and each names a tab |
| AnalysisTabs.ShownPanels | frontend/src/components/workspace/AIAnalysisTabs.tsx:70-290 | a panel is rendered iff its id equals the active tab |
| AnalysisTabs.NoMatchRendersNothing | frontend/src/components/workspace/AIAnalysisTabs.tsx:70-290 | when no tab has the active id, no panel renders |
| AnalysisTabs.ValidTabShowsOnePanel | frontend/src/components/workspace/AIAnalysisTabs.tsx:52-290 | selecting a tab renders exactly that tab's panel |
| AnalysisTabs.InitialRewrites | frontend/src/components/workspace/AIAnalysisTabs.tsx:24-31 | one undecided suggestion per rewritten bullet, id the position, original the placeholder |
| AnalysisTabs.WithDecision | frontend/src/components/workspace/AIAnalysisTabs.tsx:33-35 | entries with the id get the decision; every other entry is unchanged |
| AnalysisTabs.InitialIdsArePositions | frontend/src/components/workspace/AIAnalysisTabs.tsx:24-31 | initial ids equal positions |
| AnalysisTabs.DecisionKeepsIds | frontend/src/components/workspace/AIAnalysisTabs.tsx:34 | a decision keeps ids equal to positions |
| AnalysisTabs.UnknownIdIsNoOp | frontend/src/components/workspace/AIAnalysisTabs.tsx:34 | a decision for an absent id changes nothing |
| AnalysisTabs.DecisionUpdatesOneEntry | frontend/src/components/workspace/AIAnalysisTabs.tsx:33-35 | with ids as positions a decision updates exactly entry `id` |
| AnalysisTabs.LaterDecisionWins | frontend/src/components/workspace/AIAnalysisTabs.tsx:34 | two decisions on one id leave the second |
| AnalysisTabs.DecisionsCommute | frontend/src/components/workspace/AIAnalysisTabs.tsx:34 | decisions on different ids commute |
| AnalysisTabs.DecisionIsFinal | frontend/src/components/workspace/AIAnalysisTabs.tsx:232-251 | since buttons show only on undecided cards, a decided card is never changed by a click |
| AnalysisTabs.ReplayKeepsFirstDecision | frontend/src/components/workspace/AIAnalysisTabs.tsx:232-251 | after any clicks each card keeps its text and holds the first decision made on it |
| AnalysisTabs.ListOrNote | frontend/src/components/workspace/AIAnalysisTabs.tsx:147-155 | a list shows its items, or its note exactly when empty |
| AnalysisTabs.RuleEngineGapViews | frontend/src/components/workspace/AIAnalysisTabs.tsx:147-193 | for a rule-engine gap the weak list always shows its note; the strong note shows iff no job skill matches, the missing note iff all match |
| AnalysisTabs.FrameOf | frontend/src/components/workspace/AIAnalysisTabs.tsx:214-218 | a card is framed plain iff its buttons are shown |
| AnalysisTabs.Paragraphs | frontend/src/components/workspace/AIAnalysisTabs.tsx:304 | the explanation gives at least one paragraph |
| AnalysisTabs.ParagraphsRoundTrip | frontend/src/components/workspace/AIAnalysisTabs.tsx:304 | joining the paragraphs with a blank line gives the explanation back, and no paragraph holds a blank line |
| AnalysisTabs.TabsState.constructor | frontend/src/components/workspace/AIAnalysisTabs.tsx:21-31 | starts on the overview tab with the initial suggestions |
| AnalysisTabs.TabsState.SelectTab | frontend/src/components/workspace/AIAnalysisTabs.tsx:52 | sets the active tab and keeps the suggestions |
| AnalysisTabs.TabsState.HandleRewriteAction | frontend/src/components/workspace/AIAnalysisTabs.tsx:33-35 | applies the decision and keeps the tab |
| ResumeEditor.Toggled | frontend/src/components/workspace/ResumeEditor.tsx:14-20 | the toggled section's membership flips, every other section's stays; an absent section is appended, and closing a present one keeps the others in their order |
| ResumeEditor.InitialExpandedIsDistinct | frontend/src/components/workspace/ResumeEditor.tsx:12 | the initial list has no repeated section |
| ResumeEditor.ToggleTwiceRestoresMembers | frontend/src/components/workspace/ResumeEditor.tsx:14-20 | toggling twice restores which sections are open |
| ResumeEditor.ToggleTwiceOnAbsent | frontend/src/components/workspace/ResumeEditor.tsx:14-20 | opening and closing a closed section restores the list exactly |
| ResumeEditor.ToggleTwiceOnPresent | frontend/src/components/workspace/ResumeEditor.tsx:14-20 | closing and opening an open section moves it to the end |
| ResumeEditor.ToggleKeepsDistinct | frontend/src/components/workspace/ResumeEditor.tsx:15-19 | toggling keeps the list free of duplicates |
| ResumeEditor.RawPreview | frontend/src/components/workspace/ResumeEditor.tsx:61 | at most 500 characters of the raw text, a prefix of it, followed by "..." always |
| ResumeEditor.SkillsPanelOf | frontend/src/components/workspace/ResumeEditor.tsx:77-88 | skill chips of exactly the parsed skills, or the note iff there are none |
| ResumeEditor.ExperienceBlocks | frontend/src/components/workspace/ResumeEditor.tsx:104-129 | the experience list iff non-empty, the project list iff non-empty, the note iff both are empty, nothing else |
| ResumeEditor.Editor.constructor | frontend/src/components/workspace/ResumeEditor.tsx:12 | all four sections start expanded |
| ResumeEditor.Editor.ToggleSection | frontend/src/components/workspace/ResumeEditor.tsx:14-20 | the list becomes the toggled list and stays duplicate-free |
| UploadScreen.AfterDrop | frontend/src/components/UploadScreen.tsx:27-34 | a dropped PDF (by MIME type) or ".docx" (by name) replaces the file; anything else leaves it |
| UploadScreen.AfterSelect | frontend/src/components/UploadScreen.tsx:36-41 | any selected file replaces the file; no selection leaves it |
| UploadScreen.DroppedDocxIsParseable | frontend/src/components/UploadScreen.tsx:31 | a file accepted by its ".docx" name is dispatched as DOCX by the backend |
| UploadScreen.DropAcceptsUnparseableName | frontend/src/components/UploadScreen.tsx:31 | a PDF by MIME type named "resume" is accepted on drop but refused by the backend |
| UploadScreen.DropRefusesParseableName | frontend/src/components/UploadScreen.tsx:31 | "CV.DOCX" is refused on drop but accepted by the backend |
| UploadScreen.IsReady | frontend/src/components/UploadScreen.tsx:50 | ready iff a file is set and the job description holds a non-whitespace character |
| UploadScreen.Hint | frontend/src/components/UploadScreen.tsx:226-229 | no hint iff ready; otherwise the upload hint without a file and the job-description hint with one |
| UploadScreen.BlankJobDescriptionIsNotReady | frontend/src/components/UploadScreen.tsx:50 | a whitespace-only job description never enables the button |
| UploadScreen.Upload.constructor | frontend/src/components/UploadScreen.tsx:12-15 | not dragging, no file, empty job description, not exiting |
| UploadScreen.Upload.HandleDragOver | frontend/src/components/UploadScreen.tsx:17-20 | sets the drag flag only |
| UploadScreen.Upload.HandleDragLeave | frontend/src/components/UploadScreen.tsx:22-25 | clears the drag flag only |
| UploadScreen.Upload.HandleDrop | frontend/src/components/UploadScreen.tsx:27-34 | clears the drag flag and applies the drop filter |
| UploadScreen.Upload.HandleFileInput | frontend/src/components/UploadScreen.tsx:36-41 | takes any selected file |
| UploadScreen.Upload.EditJobDescription | frontend/src/components/UploadScreen.tsx:194 | sets the job description only |
| UploadScreen.Upload.HandleAnalyze | frontend/src/components/UploadScreen.tsx:43-48 | when ready, starts the exit and submits the file and the untrimmed text; otherwise does nothing |
| UploadScreen.ExitingUploadResubmits | frontend/src/components/UploadScreen.tsx:43-48 | a ready screen that is already exiting submits the same file and text again |
| AnalyzingLoader.ErrorText | frontend/src/components/AnalyzingLoader.tsx:35 | the error shown is the rejection's message, or the fallback text when it is empty; never empty |
| AnalyzingLoader.Dedup | frontend/src/components/AnalyzingLoader.tsx:60 | the set conversion keeps exactly the same members |
| AnalyzingLoader.DedupOfDistinct | frontend/src/components/AnalyzingLoader.tsx:60 | a list without duplicates is unchanged by the set conversion |
| AnalyzingLoader.Next | frontend/src/components/AnalyzingLoader.tsx:26-71 | no event changes whether there is a promise; ticks never settle the promise; settlement never moves the animation; a settled promise stays as it settled; after an error nothing changes |
| AnalyzingLoader.Fired | frontend/src/components/AnalyzingLoader.tsx:58-61 | the check hands data to `onComplete` exactly when it fires, and the data is the received data |
| AnalyzingLoader.InitialInv | frontend/src/components/AnalyzingLoader.tsx:21-24 | the initial state satisfies the invariant |
| AnalyzingLoader.NextKeepsInv | frontend/src/components/AnalyzingLoader.tsx:26-71 | every event keeps the invariant: step at most 3, completed steps are 0..step-1 while running and 0..3 after completion, never both data and error, no settlement without a promise |
| AnalyzingLoader.RejectRecordsMessage | frontend/src/components/AnalyzingLoader.tsx:34-35 | a rejection records its message, or the fallback text for an empty one |
| AnalyzingLoader.InvMeansDistinctSteps | frontend/src/components/AnalyzingLoader.tsx:46-51 | completed steps never repeat and, while running, are below the current step |
| AnalyzingLoader.NextIsMonotone | frontend/src/components/AnalyzingLoader.tsx:44-55 | the step never goes back and completed steps only grow; a tick advances by one below step 3 and holds at 3 |
| AnalyzingLoader.ErrorFreezes | frontend/src/components/AnalyzingLoader.tsx:40 | after an error no event changes anything or completes |
| AnalyzingLoader.CompletionFreezes | frontend/src/components/AnalyzingLoader.tsx:62-63 | after completion no event changes anything or completes again |
| AnalyzingLoader.RunKeepsInv | frontend/src/components/AnalyzingLoader.tsx:26-71 | the invariant holds after any sequence of events |
| AnalyzingLoader.CompletesAtMostOnce | frontend/src/components/AnalyzingLoader.tsx:58-64 | `onComplete` is called at most once, and never after completion |
| AnalyzingLoader.CompletionNeedsTicksAndData | frontend/src/components/AnalyzingLoader.tsx:44-61 | completion needs enough step ticks to reach the last step and data that was received |
| AnalyzingLoader.NullPromiseNeverSettles | frontend/src/components/AnalyzingLoader.tsx:27 | without a promise the loader never settles, never completes, and calls nothing |
| AnalyzingLoader.NoPromiseStaysUnsettled | frontend/src/components/AnalyzingLoader.tsx:27 | without a promise no sequence of events introduces one or settles the loader |
| AnalyzingLoader.NoPromiseNoOutputs | frontend/src/components/AnalyzingLoader.tsx:27 | without a promise no sequence of events calls `onComplete` |
| AnalyzingLoader.DataAndThreeTicksComplete | frontend/src/components/AnalyzingLoader.tsx:44-64 | with data received, three step ticks and a check complete the loader with that data |
| AnalyzingLoader.ScreenOf | frontend/src/components/AnalyzingLoader.tsx:79-91 | the failure screen shows iff there is an error, with that non-empty message |
| AnalyzingLoader.Loader.constructor | frontend/src/components/AnalyzingLoader.tsx:21-24 | the initial state, which is valid |
| AnalyzingLoader.Loader.OnStepTick | frontend/src/components/AnalyzingLoader.tsx:44-55 | performs the step-tick transition and keeps the invariant |
| AnalyzingLoader.Loader.OnCheckTick | frontend/src/components/AnalyzingLoader.tsx:58-65 | performs the check transition and returns the data handed to `onComplete`, if any |
| AnalyzingLoader.Loader.OnResolve | frontend/src/components/AnalyzingLoader.tsx:30-33 | records resolved data on first settlement |
| AnalyzingLoader.Loader.OnReject | frontend/src/components/AnalyzingLoader.tsx:34-36 | records the error on first settlement |
| IndexPage.Analyze | frontend/src/pages/Index.tsx:21-30 | from any state, analysing gives a valid state that renders the loader with the new request's promise |
| IndexPage.Complete | frontend/src/pages/Index.tsx:32-35 | completion keeps a valid page valid and starts no request |
| IndexPage.Cancel | frontend/src/pages/Index.tsx:37-40 | cancelling keeps a valid page valid, drops the promise and starts no request |
| IndexPage.Render | frontend/src/pages/Index.tsx:52-96 | at most one branch renders, and none exactly on the workspace screen without a result |
| IndexPage.InitialIsValid | frontend/src/pages/Index.tsx:13-19 | the page starts valid on the upload screen with no file, text or request |
| IndexPage.ExactlyOneBranch | frontend/src/pages/Index.tsx:52-96 | in a valid state exactly one screen renders, the current one |
| IndexPage.WorkspaceGuard | frontend/src/pages/Index.tsx:82 | the workspace renders iff its screen is current and a result exists, and then shows that result with the kept inputs |
| IndexPage.WorkspaceWithoutResultRendersNothing | frontend/src/pages/Index.tsx:82 | the workspace screen without a result would render nothing, and is not a valid state |
| IndexPage.AnalyzeStartsOneRequest | frontend/src/pages/Index.tsx:21-30 | analysing appends one request with the inputs, holds its promise and shows the loader |
| IndexPage.CancelKeepsInputs | frontend/src/pages/Index.tsx:37-40 | cancel drops the promise and shows the upload screen, keeping file, text, result and requests |
| IndexPage.CompleteShowsData | frontend/src/pages/Index.tsx:32-35 | completion shows the workspace with the given data |
| IndexPage.ApplyKeepsValid | frontend/src/pages/Index.tsx:21-40 | every handler keeps the page valid, and only analysing starts a request |
| IndexPage.ReplayKeepsValid | frontend/src/pages/Index.tsx:21-96 | after any handler sequence the page is valid, renders one screen, and has made one request per analyse |
| IndexPage.ScreenController.constructor | frontend/src/pages/Index.tsx:13-19 | the initial, valid page state |
| IndexPage.ScreenController.HandleAnalyze | frontend/src/pages/Index.tsx:21-30 | performs the analyse transition and keeps the page valid |
| IndexPage.ScreenController.HandleAnalysisComplete | frontend/src/pages/Index.tsx:32-35 | performs the completion transition and keeps the page valid |
| IndexPage.ScreenController.HandleCancel | frontend/src/pages/Index.tsx:37-40 | performs the cancel transition and keeps the page valid |

## Left out

- Scoring (`engine.py` 108-159), embeddings and the LLM client: floating-point similarity, `Math.round` and calls to external services.
- HTTP routes, the FastAPI application, configuration, and the `fetch` of `frontend/src/services/api.ts`: I/O.
- PDF and DOCX text extraction (`_extract_pdf`, `_extract_docx`, `parser.py` 36-51): done by foreign libraries. The extracted text is a parameter, and it cannot fail: the exceptions these functions raise on a corrupt file are not modelled.
- Loading `skills.json` and `roles.json`: file I/O. Their contents are parameters.
- Timer durations (the loader's 800 ms steps, 200 ms checks and 500 ms `setTimeout` before `onComplete`; the upload screen's 800 ms `setTimeout` before `onAnalyze`), animations and styling. Time is modelled only as the order of events.
- UploadScreen.Upload.HandleAnalyze: returns the submission at once, where `UploadScreen.tsx` 46 calls `onAnalyze` 800 ms later. The file and text are the ones at the click.
- React effect restarts on dependency changes: each restart clears and re-creates the intervals. The model treats the intervals as one stream of ticks.
- `AIWorkspace.tsx`, `BackgroundBlobs.tsx` and `JobDescriptionPanel.tsx`: layout and presentation without logic of their own beyond passing props.
- Strings.LowerChar: lower-cases ASCII letters only, not the full Unicode case mapping of Python's `lower()`.
- Strings.IsPySpace and Strings.IsJsSpace: a fixed set of characters stands for Python's and JavaScript's Unicode whitespace classes.
- ResumeEditor.RawPreview: counts characters, not the UTF-16 code units of JavaScript's `slice`.
- AnalyzingLoader.Next: a settled promise's later settlement is ignored, as for a real promise. A `Resolve` or `Reject` event after unmounting is not modelled.
- AnalyzingLoader.Next: the loader's promise is fixed for its whole life (`hasPromise` never changes). In `AnalyzingLoader.tsx` 26-37 a new `analysisPromise` while the loader is mounted re-runs the effect, and the first promise's handlers stay attached. A second settlement could then replace `apiData`, which `AnalyzingLoader.CompletesAtMostOnce` does not cover. Only the double submission described above reaches this case.
- ResumeParser.Parse: the read of the uploaded bytes is left out.
