/** Character classes and string operations shared by the Python backend and the
    TypeScript frontend: the parts of `str`/`String` and `re` that the core uses. */
module Strings {

  // ----- character classes -----

  /** Whitespace as Python's `str.isspace`, `str.strip` and the `\s` class of `re` see it. */
  predicate IsPySpace(c: char) {
    c == ' ' || '\t' <= c <= '\r' || '\U{1c}' <= c <= '\U{1f}'
    || c == '\U{85}' || c == '\U{a0}' || c == '\U{1680}' || '\U{2000}' <= c <= '\U{200a}'
    || c == '\U{2028}' || c == '\U{2029}' || c == '\U{202f}' || c == '\U{205f}' || c == '\U{3000}'
  }

  /** Whitespace and line terminators as JavaScript's `String.prototype.trim` sees them. */
  predicate IsJsSpace(c: char) {
    c == ' ' || '\t' <= c <= '\r'
    || c == '\U{a0}' || c == '\U{1680}' || '\U{2000}' <= c <= '\U{200a}'
    || c == '\U{2028}' || c == '\U{2029}' || c == '\U{202f}' || c == '\U{205f}' || c == '\U{3000}'
    || c == '\U{feff}'
  }

  predicate IsAscii(c: char) {
    c as int < 0x80
  }

  predicate IsNonAscii(c: char) {
    !IsAscii(c)
  }

  predicate IsUpper(c: char) {
    'A' <= c <= 'Z'
  }

  // ----- case -----

  /** Lower-casing of one character, on the ASCII letters. */
  function LowerChar(c: char): (d: char)
    ensures !IsUpper(d)
    ensures IsUpper(c) ==> 'a' <= d <= 'z' && d as int == c as int + 32
    ensures !IsUpper(c) ==> d == c
  {
    if IsUpper(c) then (c as int + 32) as char else c
  }

  /** `s.lower()` / `s.toLowerCase()`, on the ASCII letters. */
  function Lower(s: string): (r: string)
    ensures |r| == |s|
    ensures forall i | 0 <= i < |s| :: r[i] == LowerChar(s[i])
  {
    seq(|s|, i requires 0 <= i < |s| => LowerChar(s[i]))
  }

  lemma LowerIdempotent(s: string)
    ensures Lower(Lower(s)) == Lower(s)
  {
  }

  // ----- stripping -----

  /** `s` without its leading characters that satisfy `ws`. */
  function StripLeft(s: string, ws: char -> bool): (r: string)
    ensures |r| <= |s| && r == s[|s| - |r|..]
    ensures s != [] && ws(s[0]) ==> |r| < |s|
    ensures r == [] || !ws(r[0])
    ensures forall i | 0 <= i < |s| - |r| :: ws(s[i])
    decreases |s|
  {
    if s != [] && ws(s[0]) then
      var r := StripLeft(s[1..], ws);
      assert forall i | 1 <= i < |s| - |r| :: s[i] == s[1..][i - 1];
      r
    else s
  }

  /** `s` without its trailing characters that satisfy `ws`. */
  function StripRight(s: string, ws: char -> bool): (r: string)
    ensures |r| <= |s| && r == s[..|r|]
    ensures r == [] || !ws(r[|r| - 1])
    ensures forall i | |r| <= i < |s| :: ws(s[i])
    decreases |s|
  {
    if s != [] && ws(s[|s| - 1]) then StripRight(s[..|s| - 1], ws) else s
  }

  /** `s` without leading and trailing characters that satisfy `ws`. */
  function Strip(s: string, ws: char -> bool): (r: string)
    ensures |r| <= |s|
    ensures r == [] || (!ws(r[0]) && !ws(r[|r| - 1]))
  {
    StripRight(StripLeft(s, ws), ws)
  }

  /** Stripping leaves nothing exactly when every character is stripped. */
  lemma StripEmptyIff(s: string, ws: char -> bool)
    ensures Strip(s, ws) == [] <==> forall i | 0 <= i < |s| :: ws(s[i])
  {
  }

  /** The stripped string is the slice of `s` that starts after the leading run. */
  lemma StripIsSlice(s: string, ws: char -> bool)
    ensures |s| - |StripLeft(s, ws)| + |Strip(s, ws)| <= |s|
    ensures Strip(s, ws) == s[|s| - |StripLeft(s, ws)|..|s| - |StripLeft(s, ws)| + |Strip(s, ws)|]
  {
  }

  /** Stripping a string that already has no surrounding whitespace changes nothing. */
  lemma StripUnpadded(s: string, ws: char -> bool)
    requires s == [] || (!ws(s[0]) && !ws(s[|s| - 1]))
    ensures Strip(s, ws) == s
  {
  }

  /** Stripping twice strips nothing more. */
  lemma StripIdempotent(s: string, ws: char -> bool)
    ensures Strip(Strip(s, ws), ws) == Strip(s, ws)
  {
    StripUnpadded(Strip(s, ws), ws);
  }

  /** Python's `s.strip()`. */
  function PyStrip(s: string): string {
    Strip(s, IsPySpace)
  }

  /** JavaScript's `s.trim()`. */
  function JsTrim(s: string): string {
    Strip(s, IsJsSpace)
  }

  // ----- searching -----

  /** `needle` occurs in `hay` (Python's `needle in hay`); the empty needle occurs everywhere. */
  predicate Contains(hay: string, needle: string) {
    exists i | 0 <= i <= |hay| - |needle| :: OccursAt(hay, needle, i)
  }

  /** `needle` occurs in `hay` starting at index `i`. */
  predicate OccursAt(hay: string, needle: string, i: int) {
    0 <= i <= |hay| - |needle| && hay[i..i + |needle|] == needle
  }

  /** Python's `s.endswith(suffix)` and JavaScript's `s.endsWith(suffix)`. */
  predicate EndsWith(s: string, suffix: string) {
    |suffix| <= |s| && s[|s| - |suffix|..] == suffix
  }

  /** Some word of `words` occurs in `text`: `any(w in text for w in words)`. */
  predicate ContainsAny(text: string, words: seq<string>) {
    exists w | w in words :: Contains(text, w)
  }

  // ----- splitting -----

  /** `s.split(sep)` in Python and JavaScript: cut at every occurrence of `sep`, scanning left
      to right without overlap; the empty string gives `[""]`. */
  function Split(s: string, sep: string): (parts: seq<string>)
    requires sep != []
    ensures |parts| >= 1
    decreases |s|
  {
    if |s| < |sep| then [s]
    else if s[..|sep|] == sep then [[]] + Split(s[|sep|..], sep)
    else
      var rest := Split(s[1..], sep);
      [[s[0]] + rest[0]] + rest[1..]
  }

  /** `sep.join(parts)` / `parts.join(sep)`. */
  function Join(parts: seq<string>, sep: string): string
    requires |parts| >= 1
    decreases |parts|
  {
    if |parts| == 1 then parts[0] else parts[0] + sep + Join(parts[1..], sep)
  }

  /** Putting a character in front of the first piece puts it in front of the join. */
  lemma JoinConsHead(c: char, parts: seq<string>, sep: string)
    requires |parts| >= 1
    ensures Join([[c] + parts[0]] + parts[1..], sep) == [c] + Join(parts, sep)
  {
    var cons := [[c] + parts[0]] + parts[1..];
    if |parts| > 1 {
      assert cons[1..] == parts[1..];
      assert Join(cons, sep) == ([c] + parts[0]) + sep + Join(parts[1..], sep);
    }
  }

  /** Putting an empty piece in front puts a separator in front of the join. */
  lemma JoinConsEmpty(parts: seq<string>, sep: string)
    requires |parts| >= 1
    ensures Join([[]] + parts, sep) == sep + Join(parts, sep)
  {
    assert ([[]] + parts)[1..] == parts;
  }

  /** Joining the pieces with the separator gives back the original string. */
  lemma {:induction false} SplitJoin(s: string, sep: string)
    requires sep != []
    ensures Join(Split(s, sep), sep) == s
    decreases |s|
  {
    if |s| < |sep| {
    } else if s[..|sep|] == sep {
      SplitJoin(s[|sep|..], sep);
      JoinConsEmpty(Split(s[|sep|..], sep), sep);
      assert s == sep + s[|sep|..];
    } else {
      SplitJoin(s[1..], sep);
      JoinConsHead(s[0], Split(s[1..], sep), sep);
      assert s == [s[0]] + s[1..];
    }
  }

  /** The first piece is a prefix of the string. */
  lemma {:induction false} SplitHeadIsPrefix(s: string, sep: string)
    requires sep != []
    ensures Split(s, sep)[0] <= s
    decreases |s|
  {
    if |s| >= |sep| && s[..|sep|] != sep {
      SplitHeadIsPrefix(s[1..], sep);
    }
  }

  /** No piece contains the separator. */
  lemma {:induction false} SplitPieceLacksSeparator(s: string, sep: string, k: nat)
    requires sep != [] && k < |Split(s, sep)|
    ensures !Contains(Split(s, sep)[k], sep)
    decreases |s|
  {
    var parts := Split(s, sep);
    if |s| < |sep| {
    } else if s[..|sep|] == sep {
      if k > 0 {
        SplitPieceLacksSeparator(s[|sep|..], sep, k - 1);
      }
    } else {
      var rest := Split(s[1..], sep);
      if k > 0 {
        SplitPieceLacksSeparator(s[1..], sep, k);
        assert parts[k] == rest[k];
      } else {
        SplitPieceLacksSeparator(s[1..], sep, 0);
        SplitHeadIsPrefix(s[1..], sep);
        var head := [s[0]] + rest[0];
        assert parts[0] == head;
        forall i | 0 <= i <= |head| - |sep|
          ensures !OccursAt(head, sep, i)
        {
          if i == 0 {
            assert head[..|sep|] == s[..|sep|];
          } else {
            assert rest[0][i - 1..i - 1 + |sep|] == head[i..i + |sep|];
            assert !OccursAt(rest[0], sep, i - 1);
          }
        }
      }
    }
  }

  // ----- sequences -----

  /** `a` is `b` with some elements left out, order kept. */
  predicate IsSubsequence<T(==)>(a: seq<T>, b: seq<T>)
    decreases |b|
  {
    if a == [] then true
    else if b == [] then false
    else (a[|a| - 1] == b[|b| - 1] && IsSubsequence(a[..|a| - 1], b[..|b| - 1]))
         || IsSubsequence(a, b[..|b| - 1])
  }

  /** Appending to the longer sequence keeps a subsequence. */
  lemma SubsequenceExtend<T>(a: seq<T>, b: seq<T>, x: T)
    requires IsSubsequence(a, b)
    ensures IsSubsequence(a, b + [x])
  {
    assert (b + [x])[..|b|] == b;
  }

  /** Appending the same element to both keeps a subsequence. */
  lemma SubsequenceExtendBoth<T>(a: seq<T>, b: seq<T>, x: T)
    requires IsSubsequence(a, b)
    ensures IsSubsequence(a + [x], b + [x])
  {
    assert (a + [x])[..|a|] == a;
    assert (b + [x])[..|b|] == b;
  }

  /** Putting an element in front of the longer sequence keeps a subsequence. */
  lemma {:induction false} SubsequencePrepend<T>(a: seq<T>, b: seq<T>, x: T)
    requires IsSubsequence(a, b)
    ensures IsSubsequence(a, [x] + b)
    decreases |b|
  {
    if a != [] {
      var xb := [x] + b;
      assert xb[..|xb| - 1] == [x] + b[..|b| - 1] && xb[|xb| - 1] == b[|b| - 1];
      if a[|a| - 1] == b[|b| - 1] && IsSubsequence(a[..|a| - 1], b[..|b| - 1]) {
        SubsequencePrepend(a[..|a| - 1], b[..|b| - 1], x);
      } else {
        SubsequencePrepend(a, b[..|b| - 1], x);
      }
    }
  }

  /** Putting the same element in front of both keeps a subsequence. */
  lemma {:induction false} SubsequencePrependBoth<T>(a: seq<T>, b: seq<T>, x: T)
    requires IsSubsequence(a, b)
    ensures IsSubsequence([x] + a, [x] + b)
    decreases |b|
  {
    var xa, xb := [x] + a, [x] + b;
    if b == [] {
      assert a == [] && xa[..0] == [];
    } else {
      assert xb[..|xb| - 1] == [x] + b[..|b| - 1] && xb[|xb| - 1] == b[|b| - 1];
      if a == [] {
        SubsequencePrependBoth(a, b[..|b| - 1], x);
      } else {
        assert xa[..|xa| - 1] == [x] + a[..|a| - 1] && xa[|xa| - 1] == a[|a| - 1];
        if a[|a| - 1] == b[|b| - 1] && IsSubsequence(a[..|a| - 1], b[..|b| - 1]) {
          SubsequencePrependBoth(a[..|a| - 1], b[..|b| - 1], x);
        } else {
          SubsequencePrependBoth(a, b[..|b| - 1], x);
        }
      }
    }
  }

  predicate NoDuplicates<T(==)>(s: seq<T>) {
    forall i, j | 0 <= i < j < |s| :: s[i] != s[j]
  }

  /** `s` with every occurrence of `x` removed (JavaScript's `s.filter(y => y !== x)`). */
  function Without(s: seq<string>, x: string): (r: seq<string>)
    ensures forall y :: y in r <==> y in s && y != x
    ensures x !in s ==> r == s
    ensures IsSubsequence(r, s)
    decreases |s|
  {
    if s == [] then []
    else
      var rest := Without(s[1..], x);
      assert s == [s[0]] + s[1..];
      if s[0] == x then SubsequencePrepend(rest, s[1..], s[0]); rest
      else SubsequencePrependBoth(rest, s[1..], s[0]); [s[0]] + rest
  }

  /** `[p.strip() for p in parts if p.strip()]`. */
  function StrippedNonEmpty(parts: seq<string>): (r: seq<string>)
    ensures |r| <= |parts|
    decreases |parts|
  {
    if parts == [] then []
    else (if PyStrip(parts[0]) != [] then [PyStrip(parts[0])] else []) + StrippedNonEmpty(parts[1..])
  }

  /** The elements are exactly the non-empty stripped forms of the parts. */
  lemma {:induction false} StrippedNonEmptyMembers(parts: seq<string>)
    ensures forall x :: x in StrippedNonEmpty(parts) <==> x != [] && exists p | p in parts :: PyStrip(p) == x
    decreases |parts|
  {
    if parts != [] {
      StrippedNonEmptyMembers(parts[1..]);
      forall x
        ensures x in StrippedNonEmpty(parts) <==> x != [] && exists p | p in parts :: PyStrip(p) == x
      {
        if x != [] && PyStrip(parts[0]) != x && (exists p | p in parts :: PyStrip(p) == x) {
          var p :| p in parts && PyStrip(p) == x;
          assert p in parts[1..];
        }
      }
    }
  }

  /** Every element is non-empty and has no surrounding whitespace. */
  lemma StrippedNonEmptyTrimmed(parts: seq<string>)
    ensures forall x | x in StrippedNonEmpty(parts) :: x != [] && !IsPySpace(x[0]) && !IsPySpace(x[|x| - 1])
  {
    forall x | x in StrippedNonEmpty(parts)
      ensures x != [] && !IsPySpace(x[0]) && !IsPySpace(x[|x| - 1])
    {
      var k := StrippedNonEmptyOrigin(parts, x);
    }
  }

  /** Where an element of `StrippedNonEmpty(parts)` comes from. */
  lemma {:induction false} StrippedNonEmptyOrigin(parts: seq<string>, x: string) returns (k: nat)
    requires x in StrippedNonEmpty(parts)
    ensures k < |parts| && PyStrip(parts[k]) == x && x != []
    decreases |parts|
  {
    var head := PyStrip(parts[0]);
    if head != [] && head == x {
      k := 0;
    } else {
      assert x in StrippedNonEmpty(parts[1..]);
      var k' := StrippedNonEmptyOrigin(parts[1..], x);
      k := k' + 1;
    }
  }
}
