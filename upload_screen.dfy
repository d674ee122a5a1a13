/** The upload screen (frontend/src/components/UploadScreen.tsx): the drag flag, the file
    filter of drop and file input, the readiness gate of the analyse button and its hint. */
module UploadScreen {
  import opened Wrappers
  import opened Strings
  import ResumeParser

  /** What the screen uses of a browser `File`. */
  datatype FileInfo = FileInfo(name: string, mimeType: string, size: nat)

  /** The arguments `onAnalyze` is called with. */
  datatype Submission = Submission(file: FileInfo, jobDescription: string)

  // ----- file filter -----

  /** `handleDrop` keeps a PDF by MIME type or a DOCX by (case-sensitive) name. */
  predicate DropAccepted(f: FileInfo) {
    f.mimeType == "application/pdf" || EndsWith(f.name, ".docx")
  }

  /** The file after a drop of `dropped` (`files[0]`, absent for an empty list). */
  function AfterDrop(file: Option<FileInfo>, dropped: Option<FileInfo>): (r: Option<FileInfo>)
    ensures dropped.Some? && DropAccepted(dropped.value) ==> r == dropped
    ensures !(dropped.Some? && DropAccepted(dropped.value)) ==> r == file
  {
    if dropped.Some? && DropAccepted(dropped.value) then dropped else file
  }

  /** The file after the file input reports `selected`: any selected file is taken. */
  function AfterSelect(file: Option<FileInfo>, selected: Option<FileInfo>): (r: Option<FileInfo>)
    ensures selected.Some? ==> r == selected
    ensures selected.None? ==> r == file
  {
    if selected.Some? then selected else file
  }

  /** A file the drop accepts by its ".docx" name is also one the backend can dispatch. */
  lemma DroppedDocxIsParseable(f: FileInfo)
    requires EndsWith(f.name, ".docx")
    ensures ResumeParser.FormatOf(f.name) == Success(ResumeParser.Docx)
  {
    var lower := Lower(f.name);
    var n := |f.name|;
    assert lower[n - 5..] == f.name[n - 5..];
    assert lower[n - 1] == 'x';
  }

  /** The drop filter and the backend disagree both ways. First, a PDF by MIME type need not
      have a name the backend accepts. */
  lemma DropAcceptsUnparseableName()
    ensures DropAccepted(FileInfo("resume", "application/pdf", 1))
    ensures ResumeParser.FormatOf("resume").Failure?
  {
    assert !EndsWith(Lower("resume"), ".pdf") by { assert Lower("resume")[5] == 'e'; }
    assert !EndsWith(Lower("resume"), ".docx") by { assert Lower("resume")[5] == 'e'; }
  }

  /** Second, a ".DOCX" name the backend accepts is refused on drop. */
  lemma DropRefusesParseableName()
    ensures !DropAccepted(FileInfo("CV.DOCX", "", 1))
    ensures ResumeParser.FormatOf("CV.DOCX") == Success(ResumeParser.Docx)
  {
    assert !EndsWith("CV.DOCX", ".docx") by { assert "CV.DOCX"[6] == 'X'; }
    assert Lower("CV.DOCX") == "cv.docx";
    assert !EndsWith("cv.docx", ".pdf") by { assert "cv.docx"[6] == 'x'; }
  }

  // ----- readiness -----

  /** `isReady`: a file is set and the trimmed job description is non-empty. */
  predicate IsReady(file: Option<FileInfo>, jobDescription: string)
    ensures IsReady(file, jobDescription) <==>
      file.Some? && exists i | 0 <= i < |jobDescription| :: !IsJsSpace(jobDescription[i])
  {
    StripEmptyIff(jobDescription, IsJsSpace);
    file.Some? && |JsTrim(jobDescription)| > 0
  }

  /** The text under a disabled button. */
  function Hint(file: Option<FileInfo>, jobDescription: string): (h: Option<string>)
    ensures h.None? <==> IsReady(file, jobDescription)
    ensures h.Some? && file.None? ==> h.value == "Upload your resume to continue"
    ensures h.Some? && file.Some? ==> h.value == "Enter job description to continue"
  {
    if IsReady(file, jobDescription) then None
    else if file.None? then Some("Upload your resume to continue")
    else Some("Enter job description to continue")
  }

  /** A job description of only whitespace never enables the button. */
  lemma BlankJobDescriptionIsNotReady(file: Option<FileInfo>, jobDescription: string)
    requires forall i | 0 <= i < |jobDescription| :: IsJsSpace(jobDescription[i])
    ensures !IsReady(file, jobDescription)
  {
  }

  // ----- the component state -----

  class Upload {
    var isDragging: bool
    var file: Option<FileInfo>
    var jobDescription: string
    var isExiting: bool

    constructor()
      ensures !isDragging && file.None? && jobDescription == [] && !isExiting
    {
      isDragging := false;
      file := None;
      jobDescription := [];
      isExiting := false;
    }

    method HandleDragOver()
      modifies this
      ensures isDragging
      ensures file == old(file) && jobDescription == old(jobDescription) && isExiting == old(isExiting)
    {
      isDragging := true;
    }

    method HandleDragLeave()
      modifies this
      ensures !isDragging
      ensures file == old(file) && jobDescription == old(jobDescription) && isExiting == old(isExiting)
    {
      isDragging := false;
    }

    method HandleDrop(dropped: Option<FileInfo>)
      modifies this
      ensures !isDragging && file == AfterDrop(old(file), dropped)
      ensures jobDescription == old(jobDescription) && isExiting == old(isExiting)
    {
      isDragging := false;
      if dropped.Some? && (dropped.value.mimeType == "application/pdf" || EndsWith(dropped.value.name, ".docx")) {
        file := dropped;
      }
    }

    method HandleFileInput(selected: Option<FileInfo>)
      modifies this
      ensures file == AfterSelect(old(file), selected)
      ensures isDragging == old(isDragging) && jobDescription == old(jobDescription) && isExiting == old(isExiting)
    {
      if selected.Some? {
        file := selected;
      }
    }

    /** The text area's `onChange`. */
    method EditJobDescription(text: string)
      modifies this
      ensures jobDescription == text
      ensures isDragging == old(isDragging) && file == old(file) && isExiting == old(isExiting)
    {
      jobDescription := text;
    }

    /** `handleAnalyze`: when ready, start the exit and hand the file and the untrimmed job
        description to `onAnalyze`; otherwise do nothing. */
    method HandleAnalyze() returns (submitted: Option<Submission>)
      modifies this
      ensures IsReady(old(file), old(jobDescription)) ==>
        isExiting && submitted == Some(Submission(old(file).value, old(jobDescription)))
      ensures !IsReady(old(file), old(jobDescription)) ==> submitted.None? && isExiting == old(isExiting)
      ensures isDragging == old(isDragging) && file == old(file) && jobDescription == old(jobDescription)
    {
      if file.Some? && |JsTrim(jobDescription)| > 0 {
        isExiting := true;
        submitted := Some(Submission(file.value, jobDescription));
      } else {
        submitted := None;
      }
    }
  }

  /** Nothing guards a click during the exit animation: a ready screen that is already exiting
      hands the same file and text to `onAnalyze` once more. */
  method ExitingUploadResubmits(u: Upload) returns (submitted: Option<Submission>)
    requires u.isExiting && IsReady(u.file, u.jobDescription)
    modifies u
    ensures u.isExiting && u.file.Some? && submitted == Some(Submission(u.file.value, u.jobDescription))
  {
    submitted := u.HandleAnalyze();
  }
}
