/** Text normalisation (backend/app/utils/text_cleaning.py): `clean_text` and
    `extract_sentences`, as the chain of replacements and regular-expression substitutions
    they are. */
module TextCleaning {
  import opened Strings

  predicate IsNewlineOrTab(c: char) {
    c == '\n' || c == '\t'
  }

  /** `s.replace('\n', ' ').replace('\t', ' ')`. */
  function ReplaceNewlinesAndTabs(s: string): (r: string)
    ensures |r| == |s|
    ensures forall i | 0 <= i < |s| :: r[i] == if IsNewlineOrTab(s[i]) then ' ' else s[i]
  {
    seq(|s|, i requires 0 <= i < |s| => if IsNewlineOrTab(s[i]) then ' ' else s[i])
  }

  /** `re.sub(r'[C]+', ' ', s)` for a character class `inRun`: every maximal run of
      characters of the class becomes a single space. */
  function CollapseRuns(s: string, inRun: char -> bool): (r: string)
    ensures |r| <= |s|
    decreases |s|
  {
    if s == [] then []
    else if inRun(s[0]) then " " + CollapseRuns(StripLeft(s, inRun), inRun)
    else [s[0]] + CollapseRuns(s[1..], inRun)
  }

  /** `clean_text`: newlines and tabs to spaces, runs of non-ASCII characters to one space,
      runs of whitespace to one space, then `strip()` and `lower()`. */
  function CleanText(text: string): (r: string)
    ensures text == [] ==> r == []
    ensures |r| <= |text|
  {
    if text == [] then []
    else Lower(PyStrip(CollapseRuns(CollapseRuns(ReplaceNewlinesAndTabs(text), IsNonAscii), IsPySpace)))
  }

  /** The normal form `clean_text` produces: ASCII only, no upper-case letter, the only
      whitespace is a single space between two non-space characters. */
  predicate IsNormalized(s: string) {
    && (forall i | 0 <= i < |s| :: IsAscii(s[i]) && !IsUpper(s[i]))
    && (forall i | 0 <= i < |s| :: IsPySpace(s[i]) ==> s[i] == ' ')
    && (forall i | 0 <= i < |s| - 1 :: !(IsPySpace(s[i]) && IsPySpace(s[i + 1])))
    && (s == [] || (!IsPySpace(s[0]) && !IsPySpace(s[|s| - 1])))
  }

  // ----- CollapseRuns -----

  /** Every character of the result is the inserted space or a character of `s` outside the class. */
  lemma {:induction false} CollapseRunsChars(s: string, inRun: char -> bool)
    ensures forall c | c in CollapseRuns(s, inRun) :: c == ' ' || (c in s && !inRun(c))
    decreases |s|
  {
    if s != [] {
      if inRun(s[0]) {
        var t := StripLeft(s, inRun);
        CollapseRunsChars(t, inRun);
        assert forall c | c in t :: c in s;
      } else {
        CollapseRunsChars(s[1..], inRun);
      }
    }
  }

  /** A character of `s` outside the class survives. */
  lemma {:induction false} CollapseRunsKeeps(s: string, inRun: char -> bool, c: char)
    requires c in s && !inRun(c)
    ensures c in CollapseRuns(s, inRun)
    decreases |s|
  {
    if s[0] == c {
    } else if inRun(s[0]) {
      var t := StripLeft(s, inRun);
      var k :| 0 <= k < |s| && s[k] == c;
      assert k >= |s| - |t|;
      assert t[k - (|s| - |t|)] == c;
      CollapseRunsKeeps(t, inRun, c);
    } else {
      assert c in s[1..];
      CollapseRunsKeeps(s[1..], inRun, c);
    }
  }

  /** No two adjacent characters of `s` are both in the class. */
  predicate Separated(s: string, inRun: char -> bool) {
    forall i | 0 <= i < |s| - 1 :: !(inRun(s[i]) && inRun(s[i + 1]))
  }

  /** When the inserted space is itself in the class, no two class characters are adjacent. */
  lemma {:induction false} CollapseRunsSeparated(s: string, inRun: char -> bool)
    requires inRun(' ')
    ensures Separated(CollapseRuns(s, inRun), inRun)
    decreases |s|
  {
    if s != [] {
      var r := CollapseRuns(s, inRun);
      if inRun(s[0]) {
        var t := StripLeft(s, inRun);
        CollapseRunsSeparated(t, inRun);
        var rt := CollapseRuns(t, inRun);
        assert r == " " + rt;
        forall i | 0 <= i < |r| - 1
          ensures !(inRun(r[i]) && inRun(r[i + 1]))
        {
          if i == 0 {
            assert t != [];
            assert rt == [t[0]] + CollapseRuns(t[1..], inRun);
            assert r[1] == t[0];
          } else {
            assert r[i] == rt[i - 1] && r[i + 1] == rt[i];
          }
        }
      } else {
        CollapseRunsSeparated(s[1..], inRun);
        var rt := CollapseRuns(s[1..], inRun);
        assert r == [s[0]] + rt;
        forall i | 0 <= i < |r| - 1
          ensures !(inRun(r[i]) && inRun(r[i + 1]))
        {
          if i > 0 {
            assert r[i] == rt[i - 1] && r[i + 1] == rt[i];
          }
        }
      }
    }
  }

  /** Without class characters the substitution changes nothing. */
  lemma {:induction false} CollapseRunsNoMatch(s: string, inRun: char -> bool)
    requires forall i | 0 <= i < |s| :: !inRun(s[i])
    ensures CollapseRuns(s, inRun) == s
    decreases |s|
  {
    if s != [] {
      CollapseRunsNoMatch(s[1..], inRun);
    }
  }

  /** When every class character is a lone space the substitution changes nothing. */
  lemma {:induction false} CollapseRunsLoneSpaces(s: string, inRun: char -> bool)
    requires forall i | 0 <= i < |s| :: inRun(s[i]) ==> s[i] == ' '
    requires forall i | 0 <= i < |s| - 1 :: !(inRun(s[i]) && inRun(s[i + 1]))
    ensures CollapseRuns(s, inRun) == s
    decreases |s|
  {
    if s != [] {
      CollapseRunsLoneSpaces(s[1..], inRun);
      if inRun(s[0]) {
        assert StripLeft(s, inRun) == s[1..] by {
          if |s| > 1 { assert !inRun(s[1]); }
        }
        assert s == " " + s[1..];
      }
    }
  }

  // ----- clean_text -----

  /** What the two substitutions leave: ASCII only, whitespace only as lone spaces. */
  lemma SubstitutionsNormalizeSpacing(text: string)
    ensures var s3 := CollapseRuns(CollapseRuns(ReplaceNewlinesAndTabs(text), IsNonAscii), IsPySpace);
      && (forall c | c in s3 :: IsAscii(c) && (IsPySpace(c) ==> c == ' '))
      && Separated(s3, IsPySpace)
  {
    var s1 := ReplaceNewlinesAndTabs(text);
    var s2 := CollapseRuns(s1, IsNonAscii);
    CollapseRunsChars(s1, IsNonAscii);
    assert forall c | c in s2 :: IsAscii(c);
    CollapseRunsChars(s2, IsPySpace);
    CollapseRunsSeparated(s2, IsPySpace);
  }

  /** Stripping keeps those properties and removes the surrounding whitespace. */
  lemma StripKeepsSpacing(s: string, ws: char -> bool)
    requires forall c | c in s :: IsAscii(c) && (ws(c) ==> c == ' ')
    requires Separated(s, ws)
    ensures var t := Strip(s, ws);
      && (forall c | c in t :: IsAscii(c) && (ws(c) ==> c == ' '))
      && Separated(t, ws)
      && (t == [] || (!ws(t[0]) && !ws(t[|t| - 1])))
  {
    var t := Strip(s, ws);
    StripIsSlice(s, ws);
    var k := |s| - |StripLeft(s, ws)|;
    assert forall i | 0 <= i < |t| :: t[i] == s[k + i];
    assert forall c | c in t :: c in s;
  }

  /** Lower-casing keeps those properties and removes the upper-case letters. */
  lemma LowerKeepsSpacing(t: string)
    requires forall c | c in t :: IsAscii(c) && (IsPySpace(c) ==> c == ' ')
    requires Separated(t, IsPySpace)
    requires t == [] || (!IsPySpace(t[0]) && !IsPySpace(t[|t| - 1]))
    ensures IsNormalized(Lower(t))
  {
    var r := Lower(t);
    assert forall i | 0 <= i < |t| :: IsPySpace(r[i]) <==> IsPySpace(t[i]);
    assert forall i | 0 <= i < |t| :: IsAscii(r[i]) && (IsPySpace(r[i]) ==> r[i] == ' ');
  }

  /** The output of `clean_text` is in normal form: no leading or trailing whitespace, no two
      consecutive whitespace characters, only ASCII, no upper-case letters. */
  lemma CleanTextIsNormalized(text: string)
    ensures IsNormalized(CleanText(text))
  {
    if text != [] {
      var s3 := CollapseRuns(CollapseRuns(ReplaceNewlinesAndTabs(text), IsNonAscii), IsPySpace);
      SubstitutionsNormalizeSpacing(text);
      StripKeepsSpacing(s3, IsPySpace);
      LowerKeepsSpacing(PyStrip(s3));
    }
  }

  /** Newlines and tabs never survive into the output. */
  lemma CleanTextHasNoNewlineOrTab(text: string)
    ensures forall c | c in CleanText(text) :: c != '\n' && c != '\t'
  {
    var r := CleanText(text);
    CleanTextIsNormalized(text);
    assert IsPySpace('\n') && IsPySpace('\t');
    forall i | 0 <= i < |r|
      ensures r[i] != '\n' && r[i] != '\t'
    {
      assert IsPySpace(r[i]) ==> r[i] == ' ';
    }
  }

  /** The output is empty exactly when the input holds only whitespace and non-ASCII characters. */
  lemma CleanTextEmptyIff(text: string)
    ensures CleanText(text) == [] <==> forall i | 0 <= i < |text| :: IsPySpace(text[i]) || IsNonAscii(text[i])
  {
    if text != [] {
      var s1 := ReplaceNewlinesAndTabs(text);
      var s2 := CollapseRuns(s1, IsNonAscii);
      var s3 := CollapseRuns(s2, IsPySpace);
      if forall i | 0 <= i < |text| :: IsPySpace(text[i]) || IsNonAscii(text[i]) {
        CollapseRunsChars(s1, IsNonAscii);
        assert forall c | c in s1 :: IsPySpace(c) || IsNonAscii(c);
        assert forall c | c in s2 :: IsPySpace(c);
        CollapseRunsChars(s2, IsPySpace);
        assert forall i | 0 <= i < |s3| :: IsPySpace(s3[i]);
      } else {
        var i :| 0 <= i < |text| && !IsPySpace(text[i]) && !IsNonAscii(text[i]);
        var c := text[i];
        assert s1[i] == c;
        CollapseRunsKeeps(s1, IsNonAscii, c);
        CollapseRunsKeeps(s2, IsPySpace, c);
        var k :| 0 <= k < |s3| && s3[k] == c;
        assert PyStrip(s3) != [];
      }
    }
  }

  /** A string in normal form is a fixed point of `clean_text`. */
  lemma CleanTextFixesNormalized(s: string)
    requires IsNormalized(s)
    ensures CleanText(s) == s
  {
    if s != [] {
      assert ReplaceNewlinesAndTabs(s) == s;
      CollapseRunsNoMatch(s, IsNonAscii);
      CollapseRunsLoneSpaces(s, IsPySpace);
      StripUnpadded(s, IsPySpace);
      assert Lower(s) == s;
    }
  }

  /** `clean_text` is idempotent. */
  lemma CleanTextIdempotent(text: string)
    ensures CleanText(CleanText(text)) == CleanText(text)
  {
    CleanTextIsNormalized(text);
    CleanTextFixesNormalized(CleanText(text));
  }

  // ----- extract_sentences -----

  predicate IsSentenceEnd(c: char) {
    c == '.' || c == '!' || c == '?' || c == '\n'
  }

  /** The separator pattern `[.!?\n]\s` (its shortest match) starts at index `j` of `s`. */
  predicate BreakAt(s: string, j: int) {
    0 <= j < |s| - 1 && IsSentenceEnd(s[j]) && IsPySpace(s[j + 1])
  }

  /** The pieces `re.split(r'[.!?\n]\s+', s)` returns: the leftmost match is cut out first,
      and `\s+` takes the whole run of whitespace after the end mark. */
  function SentencePieces(s: string): (parts: seq<string>)
    ensures |parts| >= 1
    decreases |s|
  {
    if |s| < 2 then [s]
    else if BreakAt(s, 0) then [[]] + SentencePieces(StripLeft(s[1..], IsPySpace))
    else
      var rest := SentencePieces(s[1..]);
      [[s[0]] + rest[0]] + rest[1..]
  }

  /** `extract_sentences`. */
  function ExtractSentences(text: string): (r: seq<string>)
    ensures text == [] ==> r == []
    ensures |r| <= |SentencePieces(text)|
  {
    StrippedNonEmpty(SentencePieces(text))
  }

  lemma {:induction false} SentenceHeadIsPrefix(s: string)
    ensures SentencePieces(s)[0] <= s
    decreases |s|
  {
    if |s| >= 2 && !BreakAt(s, 0) {
      SentenceHeadIsPrefix(s[1..]);
    }
  }

  /** No piece contains an end mark followed by whitespace. */
  lemma {:induction false} SentencePieceHasNoBreak(s: string, k: nat)
    requires k < |SentencePieces(s)|
    ensures forall j :: !BreakAt(SentencePieces(s)[k], j)
    decreases |s|
  {
    var parts := SentencePieces(s);
    if |s| < 2 {
    } else if BreakAt(s, 0) {
      if k > 0 {
        SentencePieceHasNoBreak(StripLeft(s[1..], IsPySpace), k - 1);
      }
    } else {
      var rest := SentencePieces(s[1..]);
      if k > 0 {
        SentencePieceHasNoBreak(s[1..], k);
        assert parts[k] == rest[k];
      } else {
        SentencePieceHasNoBreak(s[1..], 0);
        SentenceHeadIsPrefix(s[1..]);
        var head := [s[0]] + rest[0];
        assert parts[0] == head;
        forall j
          ensures !BreakAt(head, j)
        {
          if j == 0 && |head| > 1 {
            assert head[1] == s[1];
          } else if 0 < j {
            assert !BreakAt(rest[0], j - 1);
          }
        }
      }
    }
  }

  /** The text each match of `[.!?\n]\s+` covers, in order: `re.split` cuts these out and
      keeps what lies between them. */
  function Separators(s: string): (seps: seq<string>)
    ensures |seps| + 1 == |SentencePieces(s)|
    decreases |s|
  {
    if |s| < 2 then []
    else if BreakAt(s, 0) then
      var t := StripLeft(s[1..], IsPySpace);
      [s[..|s| - |t|]] + Separators(t)
    else Separators(s[1..])
  }

  /** `parts[0] + seps[0] + parts[1] + ... + seps[|seps| - 1] + parts[|seps|]`. */
  function Interleave(parts: seq<string>, seps: seq<string>): string
    requires |parts| == |seps| + 1
    decreases |seps|
  {
    if seps == [] then parts[0] else parts[0] + seps[0] + Interleave(parts[1..], seps[1..])
  }

  /** A match of `[.!?\n]\s+`: an end mark followed by at least one whitespace character. */
  predicate IsSeparator(c: string) {
    |c| >= 2 && IsSentenceEnd(c[0]) && forall k | 1 <= k < |c| :: IsPySpace(c[k])
  }

  lemma InterleaveConsHead(c: char, parts: seq<string>, seps: seq<string>)
    requires |parts| == |seps| + 1
    ensures Interleave([[c] + parts[0]] + parts[1..], seps) == [c] + Interleave(parts, seps)
  {
    var ps := [[c] + parts[0]] + parts[1..];
    assert ps[0] == [c] + parts[0] && ps[1..] == parts[1..];
  }

  lemma InterleaveAfterEmpty(c: string, parts: seq<string>, seps: seq<string>, t: string)
    requires |parts| == |seps| + 1 && Interleave(parts, seps) == t
    ensures Interleave([[]] + parts, [c] + seps) == c + t
  {
    assert ([[]] + parts)[1..] == parts && ([c] + seps)[1..] == seps;
  }

  /** At a break, `s` is the separator followed by the rest after the whitespace run. */
  lemma BreakSplitsText(s: string)
    requires BreakAt(s, 0)
    ensures var t := StripLeft(s[1..], IsPySpace); s == s[..|s| - |t|] + t
  {
    var t := StripLeft(s[1..], IsPySpace);
    assert t == s[1..][|s| - 1 - |t|..];
    assert t == s[|s| - |t|..];
  }

  /** The rebuild across a break at the start of `s`. */
  lemma RebuildAtBreak(s: string)
    requires BreakAt(s, 0)
    requires var t := StripLeft(s[1..], IsPySpace);
      Interleave(SentencePieces(t), Separators(t)) == t
    ensures Interleave(SentencePieces(s), Separators(s)) == s
  {
    var t := StripLeft(s[1..], IsPySpace);
    var c := s[..|s| - |t|];
    PiecesAtBreak(s);
    InterleaveAfterEmpty(c, SentencePieces(t), Separators(t), t);
    BreakSplitsText(s);
  }

  /** A break at the start gives an empty first piece and the break as first separator. */
  lemma PiecesAtBreak(s: string)
    requires BreakAt(s, 0)
    ensures var t := StripLeft(s[1..], IsPySpace);
      SentencePieces(s) == [[]] + SentencePieces(t)
      && Separators(s) == [s[..|s| - |t|]] + Separators(t)
  {
  }

  /** The rebuild across a first character that does not start a break. */
  lemma RebuildAtChar(s: string)
    requires |s| >= 2 && !BreakAt(s, 0)
    requires Interleave(SentencePieces(s[1..]), Separators(s[1..])) == s[1..]
    ensures Interleave(SentencePieces(s), Separators(s)) == s
  {
    var rest := SentencePieces(s[1..]);
    assert SentencePieces(s) == [[s[0]] + rest[0]] + rest[1..];
    assert Separators(s) == Separators(s[1..]);
    InterleaveConsHead(s[0], rest, Separators(s[1..]));
    assert s == [s[0]] + s[1..];
  }

  /** No text is lost: putting the separators back between the pieces gives the text. */
  lemma {:induction false} SentencePiecesRebuildText(s: string)
    ensures Interleave(SentencePieces(s), Separators(s)) == s
    decreases |s|
  {
    if |s| >= 2 {
      if BreakAt(s, 0) {
        SentencePiecesRebuildText(StripLeft(s[1..], IsPySpace));
        RebuildAtBreak(s);
      } else {
        SentencePiecesRebuildText(s[1..]);
        RebuildAtChar(s);
      }
    }
  }

  /** Every separator is a match of the pattern, and `\s+` is greedy: the piece after a
      separator does not start with whitespace. */
  lemma {:induction false} SeparatorsAreMaximalMatches(s: string, k: nat)
    requires k < |Separators(s)|
    ensures IsSeparator(Separators(s)[k])
    ensures SentencePieces(s)[k + 1] == [] || !IsPySpace(SentencePieces(s)[k + 1][0])
    decreases |s|
  {
    if BreakAt(s, 0) {
      var t := StripLeft(s[1..], IsPySpace);
      if k == 0 {
        var c := s[..|s| - |t|];
        assert forall i | 1 <= i < |c| :: c[i] == s[1..][i - 1];
        SentenceHeadIsPrefix(t);
      } else {
        SeparatorsAreMaximalMatches(t, k - 1);
      }
    } else {
      SeparatorsAreMaximalMatches(s[1..], k);
    }
  }

  /** The leftmost match is taken: no match of the pattern starts inside a piece, even one
      that would run on into the separator after it. */
  lemma {:induction false} SeparatorsAreLeftmost(s: string, k: nat, j: nat)
    requires k < |Separators(s)| && j < |SentencePieces(s)[k]|
    ensures !BreakAt(SentencePieces(s)[k] + Separators(s)[k], j)
    decreases |s|
  {
    if BreakAt(s, 0) {
      if k > 0 {
        SeparatorsAreLeftmost(StripLeft(s[1..], IsPySpace), k - 1, j);
      }
    } else {
      var rest := SentencePieces(s[1..]);
      var seps := Separators(s[1..]);
      if k > 0 {
        SeparatorsAreLeftmost(s[1..], k, j);
      } else {
        var w := [s[0]] + rest[0] + seps[0];
        assert SentencePieces(s)[0] + Separators(s)[0] == w;
        if j == 0 {
          SentencePiecesRebuildText(s[1..]);
          assert w[1] == s[1];
        } else {
          SeparatorsAreLeftmost(s[1..], 0, j - 1);
          SeparatorsAreMaximalMatches(s[1..], 0);
          assert w[j] == (rest[0] + seps[0])[j - 1] && w[j + 1] == (rest[0] + seps[0])[j];
        }
      }
    }
  }

  /** The sentences are exactly the non-empty stripped pieces. */
  lemma ExtractSentencesMembers(text: string)
    ensures forall x :: x in ExtractSentences(text) <==>
      x != [] && exists p | p in SentencePieces(text) :: PyStrip(p) == x
  {
    StrippedNonEmptyMembers(SentencePieces(text));
  }

  /** Every sentence is non-empty and has no surrounding whitespace. */
  lemma ExtractSentencesAreTrimmed(text: string)
    ensures forall x | x in ExtractSentences(text) :: x != [] && !IsPySpace(x[0]) && !IsPySpace(x[|x| - 1])
  {
    StrippedNonEmptyTrimmed(SentencePieces(text));
  }

  /** A slice of a string without breaks has no breaks. */
  lemma SliceHasNoBreak(p: string, off: nat, x: string)
    requires off + |x| <= |p| && x == p[off..off + |x|]
    requires forall j :: !BreakAt(p, j)
    ensures forall j :: !BreakAt(x, j)
  {
    forall j | 0 <= j < |x| - 1
      ensures !BreakAt(x, j)
    {
      assert x[j] == p[off + j] && x[j + 1] == p[off + j + 1];
      assert !BreakAt(p, off + j);
    }
  }

  /** Stripping a string without breaks leaves none. */
  lemma StripHasNoBreak(p: string)
    requires forall j :: !BreakAt(p, j)
    ensures forall j :: !BreakAt(PyStrip(p), j)
  {
    StripIsSlice(p, IsPySpace);
    SliceHasNoBreak(p, |p| - |StripLeft(p, IsPySpace)|, PyStrip(p));
  }

  /** A sentence contains no end mark followed by whitespace. */
  lemma SentenceHasNoBreak(text: string, x: string)
    requires x in ExtractSentences(text)
    ensures forall j :: !BreakAt(x, j)
  {
    var parts := SentencePieces(text);
    var k := StrippedNonEmptyOrigin(parts, x);
    SentencePieceHasNoBreak(text, k);
    StripHasNoBreak(parts[k]);
  }

  /** No sentence contains an end mark followed by whitespace: every such boundary was cut. */
  lemma ExtractSentencesHaveNoBreak(text: string)
    ensures forall x | x in ExtractSentences(text) :: forall j :: !BreakAt(x, j)
  {
    forall x | x in ExtractSentences(text)
      ensures forall j :: !BreakAt(x, j)
    {
      SentenceHasNoBreak(text, x);
    }
  }
}
