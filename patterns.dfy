/**
 * The regular expressions of the task and card field rules, each written out
 * as a scanner over the characters with JavaScript's matching order: the
 * leftmost position wins, alternatives are tried in order, and greedy
 * repetitions try the longest run first.
 */
module Patterns {
  import opened Wrappers
  import opened Text
  import opened Cleanup

  // ----- `\b(\d{1,2}[A-D])\b`: the level code -----

  predicate IsGrade(c: char) { 'A' <= c <= 'D' }

  /** `\b` at `i`: exactly one of the characters around position `i` is an ASCII word character. */
  predicate IsBoundary(s: String, i: nat)
    requires i <= |s|
  {
    (i > 0 && IsWordChar(s[i - 1])) != (i < |s| && IsWordChar(s[i]))
  }

  /** One or two ASCII digits followed by a grade letter. */
  predicate IsLevelCode(t: String) {
    (|t| == 2 && IsDigit(t[0]) && IsGrade(t[1]))
    || (|t| == 3 && IsDigit(t[0]) && IsDigit(t[1]) && IsGrade(t[2]))
  }

  /** A level code occupying `s[i..i + n]` with a word boundary on both sides. */
  predicate LevelTokenAt(s: String, i: nat, n: nat) {
    i + n <= |s| && IsLevelCode(s[i..i + n]) && IsBoundary(s, i) && IsBoundary(s, i + n)
  }

  /**
   * The length of the level match starting at `i`: two digits are tried before
   * one. At most one token starts at a position, since its second character is
   * a digit in one case and a grade letter in the other.
   */
  function LevelLen(s: String, i: nat): (r: Option<nat>)
    requires i <= |s|
    ensures r.Some? ==> LevelTokenAt(s, i, r.value)
    ensures r.None? ==> forall n :: !LevelTokenAt(s, i, n)
    ensures forall n: nat :: LevelTokenAt(s, i, n) ==> r == Some(n)
  {
    assert forall n: nat :: LevelTokenAt(s, i, n) ==> s[i..i + n][0] == s[i] && s[i..i + n][1] == s[i + 1];
    if !IsBoundary(s, i) then None
    else if i + 3 <= |s| && IsDigit(s[i]) && IsDigit(s[i + 1]) && IsGrade(s[i + 2]) && IsBoundary(s, i + 3) then
      Some(3)
    else if i + 2 <= |s| && IsDigit(s[i]) && IsGrade(s[i + 1]) && IsBoundary(s, i + 2) then
      Some(2)
    else None
  }

  /** The leftmost position at or after `from` where the level pattern matches, with the match length. */
  function FindLevel(s: String, from: nat): (r: Option<(nat, nat)>)
    requires from <= |s|
    ensures r.Some? ==> from <= r.value.0 <= |s| && LevelLen(s, r.value.0) == Some(r.value.1)
    ensures forall i :: from <= i <= |s| && (r.None? || i < r.value.0) ==> LevelLen(s, i).None?
    decreases |s| - from
  {
    if LevelLen(s, from).Some? then Some((from, LevelLen(s, from).value))
    else if from == |s| then None
    else FindLevel(s, from + 1)
  }

  /**
   * The `level` rule: the first whole-token level code in the text, or the
   * first line with content when there is none.
   */
  function ExtractLevel(v: String): (r: String)
    ensures FindLevel(v, 0).Some? ==>
      IsLevelCode(r) && exists i :: 0 <= i <= |v| && LevelTokenAt(v, i, |r|) && v[i..i + |r|] == r
    ensures forall i: nat, n: nat :: IsLeftmostLevel(v, i, n) ==> r == v[i..i + n]
    ensures (forall i: nat, n: nat :: !LevelTokenAt(v, i, n)) ==> r == FirstLine(v)
  {
    match FindLevel(v, 0)
    case Some((p, q)) =>
      forall i: nat, n: nat | IsLeftmostLevel(v, i, n) ensures i == p && n == q {
        LevelLeftmost(v, i, n);
        assert LevelTokenAt(v, p, q);
        assert LevelLen(v, i) == Some(n);
      }
      v[p..p + q]
    case None =>
      forall i: nat, n: nat | LevelTokenAt(v, i, n) ensures false {
        LevelLeftmost(v, i, n);
      }
      FirstLine(v)
  }

  /** `s[i..i + n]` is the leftmost level token. */
  ghost predicate IsLeftmostLevel(s: String, i: nat, n: nat) {
    LevelTokenAt(s, i, n) && forall j: nat, m: nat :: j < i ==> !LevelTokenAt(s, j, m)
  }

  /**
   * Every whole-token level code in the text is found or preceded by the one
   * that is found, so the rule falls back to the first line only when the
   * text holds no level code at all.
   */
  lemma LevelLeftmost(v: String, i: nat, n: nat)
    requires LevelTokenAt(v, i, n)
    ensures FindLevel(v, 0).Some? && FindLevel(v, 0).value.0 <= i
  {
    assert LevelLen(v, i).Some?;
  }

  /** At the position that is found, the longer (two-digit) code wins. */
  lemma LevelPrefersTwoDigits(v: String)
    requires FindLevel(v, 0).Some?
    ensures var (i, n) := FindLevel(v, 0).value; LevelTokenAt(v, i, 3) ==> n == 3
  {
  }

  // ----- `(\d{1,2}\s*世紀|西元前|公元前)`: the century -----

  const CenturyWord: String := "世紀"
  const BeforeChrist: seq<String> := ["西元前", "公元前"]

  /** `\d{k}\s*世紀` matches `s[i..i + n]`: `k` digits, whitespace, and the century word. */
  predicate DigitsCenturyAt(s: String, i: nat, k: nat, n: nat) {
    i + n <= |s| && k + 2 <= n && AllDigits(s[i..i + k])
    && AllSpace(s[i + k..i + n - 2]) && s[i + n - 2..i + n] == CenturyWord
  }

  /** Some alternative of the century pattern matches `s[i..i + n]`. */
  predicate CenturyTokenAt(s: String, i: nat, n: nat) {
    || DigitsCenturyAt(s, i, 2, n)
    || DigitsCenturyAt(s, i, 1, n)
    || (n == 3 && (OccursAt(s, BeforeChrist[0], i) || OccursAt(s, BeforeChrist[1], i)))
  }

  /**
   * The first alternative with exactly `k` digits at `i`: the greedy `\s*`
   * takes the whole whitespace run, and giving any of it back cannot help
   * because `世` is not whitespace. So the match, when there is one, is the
   * only one.
   */
  function CenturyDigitsLen(s: String, i: nat, k: nat): (r: Option<nat>)
    requires i <= |s|
    ensures forall n: nat :: DigitsCenturyAt(s, i, k, n) <==> r == Some(n)
  {
    if i + k <= |s| && AllDigits(s[i..i + k]) then
      var w := LeadingSpace(s[i + k..]);
      assert s[i + k..i + k + w] == s[i + k..][..w];
      forall n | DigitsCenturyAt(s, i, k, n) ensures n == k + w + 2 {
        DigitsCenturyRun(s, i, k, n, w);
      }
      if OccursAt(s, CenturyWord, i + k + w) then Some(k + w + 2) else None
    else None
  }

  /** The whitespace of a digit match is the whole whitespace run after the digits. */
  lemma DigitsCenturyRun(s: String, i: nat, k: nat, n: nat, w: nat)
    requires DigitsCenturyAt(s, i, k, n) && w == LeadingSpace(s[i + k..])
    ensures n == k + w + 2
  {
    var t := s[i + k..];
    var d := n - 2 - k;
    forall j | 0 <= j < w ensures IsSpace(t[j]) {
      assert t[..w][j] == t[j];
    }
    forall j | 0 <= j < d ensures IsSpace(t[j]) {
      assert s[i + k..i + n - 2][j] == t[j];
    }
    assert t[d] == s[i + n - 2..i + n][0];
    assert !IsSpace(CenturyWord[0]);
  }

  /** After a one-digit match's digit comes whitespace or `世`, never a second digit. */
  lemma OneDigitFollower(s: String, i: nat, m: nat)
    requires DigitsCenturyAt(s, i, 1, m)
    ensures !IsDigit(s[i + 1])
  {
    if m == 3 {
      assert s[i + 1] == s[i + m - 2..i + m][0];
    } else {
      assert s[i + 1] == s[i + 1..i + m - 2][0];
    }
  }

  /** Neither literal alternative starts at a digit. */
  lemma NoLiteralAtDigit(s: String, i: nat)
    requires i < |s| && IsDigit(s[i])
    ensures !OccursAt(s, BeforeChrist[0], i) && !OccursAt(s, BeforeChrist[1], i)
  {
    if i + 3 <= |s| {
      assert s[i..i + 3][0] == s[i];
    }
  }

  /** Where a two-digit match starts, no one-digit match and no literal starts. */
  lemma CenturyTokenExclusive(s: String, i: nat, n: nat, m: nat)
    requires DigitsCenturyAt(s, i, 2, n)
    ensures !DigitsCenturyAt(s, i, 1, m)
    ensures !OccursAt(s, BeforeChrist[0], i) && !OccursAt(s, BeforeChrist[1], i)
  {
    assert s[i..i + 2][0] == s[i] && s[i..i + 2][1] == s[i + 1];
    if DigitsCenturyAt(s, i, 1, m) {
      OneDigitFollower(s, i, m);
    }
    NoLiteralAtDigit(s, i);
  }

  /**
   * The length of the century match starting at `i`: two digits, one digit,
   * then the two literals. A match is found exactly when some alternative
   * matches there, and it is the only match at `i`.
   */
  function CenturyLen(s: String, i: nat): (r: Option<nat>)
    requires i <= |s|
    ensures forall n: nat :: CenturyTokenAt(s, i, n) <==> r == Some(n)
  {
    forall n, m | DigitsCenturyAt(s, i, 2, n) ensures !DigitsCenturyAt(s, i, 1, m) {
      CenturyTokenExclusive(s, i, n, m);
    }
    forall n | DigitsCenturyAt(s, i, 2, n) ensures !OccursAt(s, BeforeChrist[0], i) && !OccursAt(s, BeforeChrist[1], i) {
      CenturyTokenExclusive(s, i, n, n);
    }
    forall m | DigitsCenturyAt(s, i, 1, m) ensures !OccursAt(s, BeforeChrist[0], i) && !OccursAt(s, BeforeChrist[1], i) {
      assert s[i..i + 1][0] == s[i];
      NoLiteralAtDigit(s, i);
    }
    if CenturyDigitsLen(s, i, 2).Some? then CenturyDigitsLen(s, i, 2)
    else if CenturyDigitsLen(s, i, 1).Some? then CenturyDigitsLen(s, i, 1)
    else if OccursAt(s, BeforeChrist[0], i) then Some(3)
    else if OccursAt(s, BeforeChrist[1], i) then Some(3)
    else None
  }

  function FindCentury(s: String, from: nat): (r: Option<(nat, nat)>)
    requires from <= |s|
    ensures r.Some? ==> from <= r.value.0 <= |s| && CenturyLen(s, r.value.0) == Some(r.value.1)
    ensures forall i :: from <= i <= |s| && (r.None? || i < r.value.0) ==> CenturyLen(s, i).None?
    decreases |s| - from
  {
    if CenturyLen(s, from).Some? then Some((from, CenturyLen(s, from).value))
    else if from == |s| then None
    else FindCentury(s, from + 1)
  }

  /** A century value: one or two digits and `世紀`, or one of the two literals. */
  predicate IsCenturyValue(t: String) {
    t == BeforeChrist[0] || t == BeforeChrist[1]
    || (3 <= |t| <= 4 && AllDigits(t[..|t| - 2]) && t[|t| - 2..] == CenturyWord)
  }

  /** `s[i..i + n]` is the leftmost century match. */
  ghost predicate IsLeftmostCentury(s: String, i: nat, n: nat) {
    CenturyTokenAt(s, i, n) && forall j: nat, m: nat :: j < i ==> !CenturyTokenAt(s, j, m)
  }

  /**
   * The `centuryId` rule: the leftmost century match with its whitespace
   * removed, or the first line with content when there is none.
   */
  function ExtractCentury(v: String): (r: String)
    ensures forall i: nat, n: nat :: IsLeftmostCentury(v, i, n) ==> r == RemoveSpace(v[i..i + n])
    ensures (forall i: nat, n: nat :: !CenturyTokenAt(v, i, n)) ==> r == FirstLine(v)
  {
    var found := FindCentury(v, 0);
    if found.Some? then
      var (p, q) := found.value;
      forall i: nat, n: nat | IsLeftmostCentury(v, i, n) ensures i == p && n == q {
        FoundIsLeftmost(v, i, n);
      }
      RemoveSpace(v[p..p + q])
    else
      forall i: nat, n: nat | CenturyTokenAt(v, i, n) ensures false {
        CenturyLeftmost(v, i, n);
      }
      FirstLine(v)
  }

  /** The scan finds the leftmost match and no other. */
  lemma FoundIsLeftmost(v: String, i: nat, n: nat)
    requires IsLeftmostCentury(v, i, n)
    ensures FindCentury(v, 0) == Some((i, n))
  {
    CenturyLeftmost(v, i, n);
    var (p, q) := FindCentury(v, 0).value;
    assert CenturyTokenAt(v, p, q);
    assert CenturyLen(v, i) == Some(n);
  }

  /** A match with `k` digits, whitespace removed, is the digits followed by `世紀`. */
  lemma CenturyDigitsValue(s: String, i: nat, k: nat)
    requires 1 <= k <= 2 && i <= |s| && CenturyDigitsLen(s, i, k).Some?
    ensures var n := CenturyDigitsLen(s, i, k).value;
      RemoveSpace(s[i..i + n]) == s[i..i + k] + CenturyWord
  {
    var n := CenturyDigitsLen(s, i, k).value;
    var w := LeadingSpace(s[i + k..]);
    var m := s[i..i + n];
    assert m == s[i..i + k] + s[i + k..i + k + w] + CenturyWord;
    assert AllSpace(s[i + k..i + k + w]) by {
      assert s[i + k..i + k + w] == s[i + k..][..w];
    }
    RemoveSpaceConcat(s[i..i + k] + s[i + k..i + k + w], CenturyWord);
    RemoveSpaceConcat(s[i..i + k], s[i + k..i + k + w]);
    RemoveSpaceOfAllSpace(s[i + k..i + k + w]);
    RemoveSpaceOfNoSpace(s[i..i + k]);
    RemoveSpaceOfNoSpace(CenturyWord);
  }

  /** When the text holds a century match, the value is a century value. */
  lemma CenturyFound(v: String, i: nat, n: nat)
    requires IsLeftmostCentury(v, i, n)
    ensures IsCenturyValue(ExtractCentury(v))
  {
    var r := ExtractCentury(v);
    assert r == RemoveSpace(v[i..i + n]);
    assert CenturyLen(v, i) == Some(n);
    CenturyMatchValue(v, i);
  }

  /** What the scan finds is the leftmost match. */
  lemma ScanIsLeftmost(v: String)
    requires FindCentury(v, 0).Some?
    ensures IsLeftmostCentury(v, FindCentury(v, 0).value.0, FindCentury(v, 0).value.1)
  {
    var (p, q) := FindCentury(v, 0).value;
    assert CenturyTokenAt(v, p, q);
    forall j: nat, m: nat | j < p ensures !CenturyTokenAt(v, j, m) {
      assert CenturyLen(v, j).None?;
    }
  }

  /** Any century match, whitespace removed, is a century value. */
  lemma CenturyMatchValue(s: String, i: nat)
    requires i <= |s| && CenturyLen(s, i).Some?
    ensures IsCenturyValue(RemoveSpace(s[i..i + CenturyLen(s, i).value]))
  {
    var n := CenturyLen(s, i).value;
    if CenturyDigitsLen(s, i, 2).Some? {
      assert AllDigits(s[i..i + 2]);
      CenturyDigitsValue(s, i, 2);
      DigitsCenturyValue(s[i..i + 2]);
    } else if CenturyDigitsLen(s, i, 1).Some? {
      assert AllDigits(s[i..i + 1]);
      CenturyDigitsValue(s, i, 1);
      DigitsCenturyValue(s[i..i + 1]);
    } else {
      var m := s[i..i + n];
      assert m == BeforeChrist[0] || m == BeforeChrist[1];
      BeforeChristNoSpace();
      RemoveSpaceOfNoSpace(m);
    }
  }

  lemma DigitsCenturyValue(d: String)
    requires 1 <= |d| <= 2 && AllDigits(d)
    ensures IsCenturyValue(d + CenturyWord)
  {
    var t := d + CenturyWord;
    assert t[..|t| - 2] == d && t[|t| - 2..] == CenturyWord;
  }

  lemma BeforeChristNoSpace()
    ensures forall k, i :: 0 <= k < |BeforeChrist| && 0 <= i < |BeforeChrist[k]| ==> !IsSpace(BeforeChrist[k][i])
  {
  }

  /** Any century match in the text is found or preceded by the one that is found. */
  lemma CenturyLeftmost(v: String, i: nat, n: nat)
    requires CenturyTokenAt(v, i, n)
    ensures FindCentury(v, 0).Some? && FindCentury(v, 0).value.0 <= i
  {
    assert i <= |v| && CenturyLen(v, i) == Some(n);
  }

  // ----- `^\d+\s*` and `^其他學科\s*`: index prefixes -----

  /** Number of ASCII digits at the start of `s`. */
  function LeadingDigits(s: String): (k: nat)
    ensures k <= |s| && AllDigits(s[..k])
    ensures k < |s| ==> !IsDigit(s[k])
  {
    if s == [] || !IsDigit(s[0]) then 0
    else
      var k := LeadingDigits(s[1..]);
      assert s[..1 + k] == [s[0]] + s[1..][..k];
      1 + k
  }

  // The replacement of `^\d+\s*` by nothing: a leading digit run and the
  // whitespace after it removed; without a leading digit nothing changes.
  function StripIndexPrefix(s: String): (r: String)
    ensures |r| <= |s| && s[|s| - |r|..] == r
    ensures LeadingDigits(s) == 0 ==> r == s
    ensures LeadingDigits(s) > 0 ==>
      (LeadingDigits(s) <= |s| - |r| && AllSpace(s[LeadingDigits(s)..|s| - |r|]) && (r == [] || !IsSpace(r[0])))
  {
    var k := LeadingDigits(s);
    if k == 0 then s
    else
      var t := s[k..];
      var w := LeadingSpace(t);
      assert s[k..][w..] == s[k + w..];
      assert s[k..k + w] == t[..w];
      s[k + w..]
  }

  const OtherSubjects: String := "其他學科"

  // The replacement of `^其他學科\s*` by nothing.
  function StripOtherSubjects(s: String): (r: String)
    ensures StartsWith(s, OtherSubjects) ==> r == TrimStart(s[|OtherSubjects|..])
    ensures !StartsWith(s, OtherSubjects) ==> r == s
  {
    if StartsWith(s, OtherSubjects) then TrimStart(s[|OtherSubjects|..]) else s
  }

  // ----- `/（限25字[^）]*）/g`: the length notes of mission hints -----

  /** The opening of a length note such as `（限25字以內）`. */
  const HintNoteOpen: String := "（限25字"

  /** Index of the first full-width closing bracket at or after `from`. */
  function FirstFullClose(s: String, from: nat): (r: Option<nat>)
    ensures r.Some? ==> from <= r.value < |s| && s[r.value] == '）'
    ensures forall j :: from <= j < |s| && (r.None? || j < r.value) ==> s[j] != '）'
    decreases |s| - from
  {
    if from >= |s| then None
    else if s[from] == '）' then Some(from)
    else FirstFullClose(s, from + 1)
  }

  /** `（限25字[^）]*）` matches the whole of `t`. */
  predicate IsHintNote(t: String) {
    && |HintNoteOpen| < |t| && StartsWith(t, HintNoteOpen) && t[|t| - 1] == '）'
    && forall j :: |HintNoteOpen| <= j < |t| - 1 ==> t[j] != '）'
  }

  /** The first `n` characters of `s` are one whole length note. */
  predicate HintNoteAt(s: String, n: nat) {
    n <= |s| && IsHintNote(s[..n])
  }

  /** The length of the length note that starts `s`, if one does; no other prefix is a note. */
  function HintNoteLen(s: String): (r: Option<nat>)
    ensures forall n: nat :: HintNoteAt(s, n) <==> r == Some(n)
  {
    if StartsWith(s, HintNoteOpen) then
      var c := FirstFullClose(s, |HintNoteOpen|);
      forall n: nat | HintNoteAt(s, n) ensures c == Some(n - 1) {
        assert s[..n][n - 1] == s[n - 1];
        assert forall j :: |HintNoteOpen| <= j < n - 1 ==> s[..n][j] == s[j];
      }
      match c
      case Some(j) =>
        assert s[..j + 1][..|HintNoteOpen|] == s[..|HintNoteOpen|];
        assert forall i :: |HintNoteOpen| <= i < j ==> s[..j + 1][i] == s[i];
        assert HintNoteAt(s, j + 1);
        Some(j + 1)
      case None => None
    else
      assert forall n: nat :: n <= |s| && |HintNoteOpen| <= n ==> s[..n][..|HintNoteOpen|] == s[..|HintNoteOpen|];
      None
  }

  /** The global replacement: scanning left to right, each length note is deleted and scanning resumes after it. */
  function DeleteHintNotes(s: String): (r: String)
    ensures |r| <= |s|
    decreases |s|
  {
    if s == [] then []
    else match HintNoteLen(s)
      case Some(n) => DeleteHintNotes(s[n..])
      case None => [s[0]] + DeleteHintNotes(s[1..])
  }

  /** A note starts with `（`, so text that does not starts with no note. */
  lemma NoHintNoteAt(s: String)
    requires s != [] && s[0] != '（'
    ensures HintNoteLen(s).None?
  {
    assert HintNoteOpen[0] == '（';
    assert |s| < |HintNoteOpen| || s[..|HintNoteOpen|][0] == s[0];
    assert !StartsWith(s, HintNoteOpen);
  }

  /** Text without a full-width opening bracket holds no length note and is left as it is. */
  lemma {:induction false} DeleteHintNotesNoOpen(s: String)
    requires '（' !in s
    ensures DeleteHintNotes(s) == s
    decreases |s|
  {
    if s != [] {
      assert s[0] in s;
      NoHintNoteAt(s);
      DeleteHintNotesNoOpen(s[1..]);
      assert [s[0]] + s[1..] == s;
    }
  }

  /** A length note in front of text is deleted whole. */
  lemma DeleteHintNote(note: String, rest: String)
    requires IsHintNote(note)
    ensures DeleteHintNotes(note + rest) == DeleteHintNotes(rest)
  {
    assert (note + rest)[..|note|] == note;
    assert HintNoteAt(note + rest, |note|);
    assert (note + rest)[|note|..] == rest;
  }

  /** Text before the first `（` is kept as it is. */
  lemma {:induction false} DeleteHintNotesConcat(a: String, b: String)
    requires '（' !in a
    ensures DeleteHintNotes(a + b) == a + DeleteHintNotes(b)
    decreases |a|
  {
    if a == [] {
      assert a + b == b;
    } else {
      var s := a + b;
      assert a[0] in a;
      NoHintNoteAt(s);
      assert s[1..] == a[1..] + b;
      DeleteHintNotesConcat(a[1..], b);
      calc {
        DeleteHintNotes(s);
        [a[0]] + DeleteHintNotes(a[1..] + b);
        [a[0]] + (a[1..] + DeleteHintNotes(b));
        { assert [a[0]] + a[1..] == a; }
        a + DeleteHintNotes(b);
      }
    }
  }
  /** `（` followed by `b` starts like a length note exactly when `b` starts like the rest of one. */
  lemma OpenStartsHintNote(b: String)
    ensures StartsWith(['（'] + b, HintNoteOpen) <==> StartsWith(b, HintNoteOpen[1..])
  {
    var s := ['（'] + b;
    assert HintNoteOpen[0] == '（';
    assert |HintNoteOpen| <= |s| ==> s[..|HintNoteOpen|] == ['（'] + b[..|HintNoteOpen| - 1];
    assert HintNoteOpen == [HintNoteOpen[0]] + HintNoteOpen[1..];
  }

  /**
   * A `（` that starts no length note, because the text after it does not
   * read `限25字` or holds no `）`, is kept, and the deletion goes on after it.
   */
  lemma DeleteHintNotesOpenKept(a: String, b: String)
    requires '（' !in a
    requires !StartsWith(b, HintNoteOpen[1..]) || '）' !in b
    ensures DeleteHintNotes(a + ['（'] + b) == a + ['（'] + DeleteHintNotes(b)
  {
    var s := ['（'] + b;
    OpenStartsHintNote(b);
    assert forall j :: 1 <= j < |s| ==> s[j] == b[j - 1];
    assert HintNoteLen(s).None?;
    assert s[1..] == b;
    assert a + ['（'] + b == a + s;
    DeleteHintNotesConcat(a, s);
  }

  /** `請寫出（一）的答案（限25字）` keeps the `（一）` that is no length note and loses the note at its end. */
  lemma DeleteHintNotesExample()
    ensures DeleteHintNotes("請寫出（一）的答案（限25字）") == "請寫出（一）的答案"
  {
    var note := "（限25字）";
    var mid := "一）的答案";
    SampleHintNoteParts();
    DeleteHintNote(note, []);
    DeleteHintNotesConcat(mid, note);
    DeleteHintNotesOpenKept("請寫出", mid + note);
  }

  /** Proof helper for the example above: how the sample splits around its two brackets. */
  lemma SampleHintNoteParts()
    ensures IsHintNote("（限25字）") && "（限25字）" + [] == "（限25字）"
    ensures !StartsWith("一）的答案" + "（限25字）", HintNoteOpen[1..])
    ensures "請寫出" + ['（'] + ("一）的答案" + "（限25字）") == "請寫出（一）的答案（限25字）"
    ensures "請寫出" + ['（'] + "一）的答案" == "請寫出（一）的答案"
  {
    var note := "（限25字）";
    var mid := "一）的答案";
    assert IsHintNote(note);
    assert note + [] == note;
    assert (mid + note)[0] == '一' != HintNoteOpen[1];
  }

  /**
   * The `missionHintSet*` rule: the first line that is non-empty once its
   * length notes are deleted and it is trimmed, or the empty string.
   */
  function HintLine(v: String): (r: String)
    ensures '\n' !in r && IsTrimmed(r)
    ensures forall k :: IsFirstNonEmptyAt(CleanHintLines(Split(v, '\n')), k) ==>
      r == CleanHintLines(Split(v, '\n'))[k]
  {
    var lines := Split(v, '\n');
    SplitPartsLackSep(v, '\n');
    var cleaned := CleanHintLines(lines);
    var r := FirstNonEmpty(cleaned);
    assert r != [] ==> r in cleaned;
    r
  }

  /** Every line is empty once its length notes are deleted and it is trimmed. */
  predicate AllBlankOnceCleaned(lines: seq<String>) {
    forall i :: 0 <= i < |lines| ==> Trim(DeleteHintNotes(lines[i])) == []
  }

  /** The hint value is empty exactly when every line is empty once cleaned. */
  lemma HintLineEmpty(v: String)
    ensures HintLine(v) == [] <==> AllBlankOnceCleaned(Split(v, '\n'))
  {
    var lines := Split(v, '\n');
    SplitPartsLackSep(v, '\n');
    var cleaned := CleanHintLines(lines);
    var r := FirstNonEmpty(cleaned);
    assert HintLine(v) == r;
    if r == [] {
      forall i | 0 <= i < |lines| ensures Trim(DeleteHintNotes(lines[i])) == [] {
        assert cleaned[i] == [];
      }
      assert AllBlankOnceCleaned(lines);
    } else {
      var k :| 0 <= k < |cleaned| && cleaned[k] != [];
      assert Trim(DeleteHintNotes(lines[k])) != [];
      assert !AllBlankOnceCleaned(lines);
    }
  }

  /** One line with its length notes deleted, trimmed. */
  function CleanHintLine(line: String): (r: String)
    ensures '\n' !in line ==> '\n' !in r
    ensures IsTrimmed(r)
  {
    var d := DeleteHintNotes(line);
    DeleteHintNotesSubsequence(line);
    TrimChars(d);
    Trim(d)
  }

  /** Each line with its length notes deleted, trimmed. */
  function CleanHintLines(lines: seq<String>): (r: seq<String>)
    ensures |r| == |lines|
    ensures forall i :: 0 <= i < |r| ==> r[i] == Trim(DeleteHintNotes(lines[i])) && IsTrimmed(r[i])
    ensures forall i :: 0 <= i < |r| && '\n' !in lines[i] ==> '\n' !in r[i]
  {
    seq(|lines|, i requires 0 <= i < |lines| => CleanHintLine(lines[i]))
  }

  /** Every character that survives the deletion comes from the input. */
  lemma {:induction false} DeleteHintNotesSubsequence(s: String)
    ensures forall c :: c in DeleteHintNotes(s) ==> c in s
    decreases |s|
  {
    if s != [] {
      match HintNoteLen(s)
      case Some(n) =>
        DeleteHintNotesSubsequence(s[n..]);
        assert forall c :: c in s[n..] ==> c in s;
      case None =>
        DeleteHintNotesSubsequence(s[1..]);
        assert forall c :: c in s[1..] ==> c in s;
    }
  }

  // ----- The card subject/type rule -----

  const PictureWord: String := "圖片"

  /**
   * `/^圖片.*$/i` without the `m` flag: the whole string starts with `圖片` and
   * holds no line terminator after it (`.` stops at one and `$` is the end of
   * the input). The `i` flag does not affect these characters.
   */
  predicate IsPictureCaption(s: String): (b: bool)
    ensures b <==> (
      && |s| >= 2 && s[0] == '圖' && s[1] == '片'
      && forall i :: 2 <= i < |s| ==> !IsLineTerminator(s[i]))
  {
    StartsWith(s, PictureWord) && forall i :: |PictureWord| <= i < |s| ==> !IsLineTerminator(s[i])
  }

  /** The match of `^圖片.*$` spans the whole string, so replacing it leaves nothing. */
  function DropPictureCaption(s: String): (r: String)
    ensures IsPictureCaption(s) ==> r == []
    ensures !IsPictureCaption(s) ==> r == s
  {
    if IsPictureCaption(s) then [] else s
  }

  /** The first line terminator at or after `from`, or the length. */
  function LineEnd(s: String, from: nat): (e: nat)
    requires from <= |s|
    ensures from <= e <= |s| && (e < |s| ==> IsLineTerminator(s[e]))
    ensures forall j :: from <= j < e ==> !IsLineTerminator(s[j])
    decreases |s| - from
  {
    if from == |s| || IsLineTerminator(s[from]) then from else LineEnd(s, from + 1)
  }

  /** The last full-width closing bracket in `s[lo..hi]`. */
  function LastFullClose(s: String, lo: nat, hi: nat): (r: Option<nat>)
    requires lo <= hi <= |s|
    ensures r.Some? ==> lo <= r.value < hi && s[r.value] == '）'
    ensures forall j :: lo <= j < hi && (r.None? || r.value < j) ==> s[j] != '）'
    decreases hi - lo
  {
    if lo == hi then None
    else if s[hi - 1] == '）' then Some(hi - 1)
    else LastFullClose(s, lo, hi - 1)
  }

  /**
   * The length of the match of `（.*）` at the start of `s`: the greedy `.*`
   * runs to the first line terminator and backs off to the last `）` before it.
   */
  function ParenSpanLen(s: String): (r: Option<nat>)
    ensures r.Some? ==> 2 <= r.value <= |s| && s[0] == '（' && s[r.value - 1] == '）'
    ensures r.Some? ==> (
      && |s| >= 1 && r.value <= LineEnd(s, 1)
      && (forall j :: 1 <= j < r.value ==> !IsLineTerminator(s[j]))
      && (forall j :: r.value <= j < LineEnd(s, 1) ==> s[j] != '）'))
    ensures s != [] && s[0] == '（' && r.None? ==> forall j :: 1 <= j < LineEnd(s, 1) ==> s[j] != '）'
  {
    if |s| >= 1 && s[0] == '（' then
      match LastFullClose(s, 1, LineEnd(s, 1))
      case Some(j) => Some(j + 1)
      case None => None
    else None
  }

  /** `s.replace(/（.*）/g, "")`: scanning left to right, each greedy span is deleted. */
  function DeleteParenSpans(s: String): (r: String)
    ensures |r| <= |s|
    decreases |s|
  {
    if s == [] then []
    else match ParenSpanLen(s)
      case Some(n) => DeleteParenSpans(s[n..])
      case None => [s[0]] + DeleteParenSpans(s[1..])
  }

  /** Text before the first `（` is kept as it is. */
  lemma {:induction false} DeleteParenSpansConcat(a: String, b: String)
    requires '（' !in a
    ensures DeleteParenSpans(a + b) == a + DeleteParenSpans(b)
    decreases |a|
  {
    if a == [] {
      assert a + b == b;
    } else {
      var s := a + b;
      assert s[0] == a[0] && a[0] in a;
      assert s[1..] == a[1..] + b;
      DeleteParenSpansConcat(a[1..], b);
      assert [a[0]] + a[1..] == a;
    }
  }

  /** Text without `（` holds no span and is left as it is. */
  lemma DeleteParenSpansNoOpen(s: String)
    requires '（' !in s
    ensures DeleteParenSpans(s) == s
  {
    DeleteParenSpansConcat(s, []);
    assert s + [] == s;
  }

  /** Every character that survives the deletion comes from the input. */
  lemma {:induction false} DeleteParenSpansSubsequence(s: String)
    ensures forall c :: c in DeleteParenSpans(s) ==> c in s
    decreases |s|
  {
    if s != [] {
      match ParenSpanLen(s)
      case Some(n) =>
        DeleteParenSpansSubsequence(s[n..]);
        assert forall c :: c in s[n..] ==> c in s;
      case None =>
        DeleteParenSpansSubsequence(s[1..]);
        assert forall c :: c in s[1..] ==> c in s;
    }
  }

  /** No full-width opening bracket is followed, anywhere later, by a full-width closing one. */
  predicate NoParenSpan(s: String) {
    forall i, j :: 0 <= i < j < |s| && s[i] == '（' ==> s[j] != '）'
  }

  /**
   * On a string without line terminators, the deletion leaves no bracket pair:
   * an opening bracket is kept only when no closing bracket follows it.
   */
  lemma {:induction false} DeleteParenSpansNoSpan(s: String)
    requires forall i :: 0 <= i < |s| ==> !IsLineTerminator(s[i])
    ensures NoParenSpan(DeleteParenSpans(s))
    ensures forall c :: c in DeleteParenSpans(s) ==> c in s
    decreases |s|
  {
    if s != [] {
      match ParenSpanLen(s)
      case Some(n) =>
        DeleteParenSpansNoSpan(s[n..]);
        assert forall c :: c in s[n..] ==> c in s;
      case None =>
        var rest := DeleteParenSpans(s[1..]);
        DeleteParenSpansNoSpan(s[1..]);
        assert forall c :: c in s[1..] ==> c in s;
        if s[0] == '（' {
          assert LineEnd(s, 1) == |s| by { LineEndNoTerminator(s, 1); }
          assert '）' !in s[1..] by {
            forall j | 1 <= j < |s| ensures s[j] != '）' { }
            assert forall k :: 0 <= k < |s[1..]| ==> s[1..][k] == s[k + 1];
          }
          assert '）' !in rest;
        }
        var r := [s[0]] + rest;
        forall i, j | 0 <= i < j < |r| && r[i] == '（' ensures r[j] != '）' {
          if i > 0 {
            assert r[i] == rest[i - 1] && r[j] == rest[j - 1];
          } else {
            assert r[j] == rest[j - 1];
            assert rest[j - 1] in rest;
          }
        }
    }
  }

  lemma {:induction false} LineEndNoTerminator(s: String, from: nat)
    requires from <= |s|
    requires forall i :: 0 <= i < |s| ==> !IsLineTerminator(s[i])
    ensures LineEnd(s, from) == |s|
    decreases |s| - from
  {
    if from < |s| {
      LineEndNoTerminator(s, from + 1);
    }
  }
  /** Where the line of `x + y` starts inside `y`, it ends where the line of `y` ends. */
  lemma {:induction false} LineEndOffset(x: String, y: String, k: nat)
    requires k <= |y|
    ensures LineEnd(x + y, |x| + k) == |x| + LineEnd(y, k)
    decreases |y| - k
  {
    if k < |y| {
      assert (x + y)[|x| + k] == y[k];
      LineEndOffset(x, y, k + 1);
    }
  }

  /** A stretch without line terminators does not end the line. */
  lemma {:induction false} LineEndSkip(s: String, from: nat, stop: nat)
    requires from <= stop <= |s|
    requires forall j :: from <= j < stop ==> !IsLineTerminator(s[j])
    ensures LineEnd(s, from) == LineEnd(s, stop)
    decreases stop - from
  {
    if from < stop {
      LineEndSkip(s, from + 1, stop);
    }
  }

  /**
   * A `（` whose line holds a later `）` starts a span that runs to the last
   * `）` of the line; the span is deleted and the deletion goes on after it.
   */
  lemma DeleteParenSpansSpan(a: String, m: String, b: String)
    requires '（' !in a
    requires forall j :: 0 <= j < |m| ==> !IsLineTerminator(m[j])
    requires forall j :: 0 <= j < LineEnd(b, 0) ==> b[j] != '）'
    ensures DeleteParenSpans(a + ['（'] + m + ['）'] + b) == a + DeleteParenSpans(b)
  {
    var s := ['（'] + m + ['）'] + b;
    assert a + ['（'] + m + ['）'] + b == a + s;
    assert s[|m| + 2..] == b;
    DeleteParenSpansConcat(a, s);
    ParenSpanLenClosed(m, b);
    DeleteParenSpansSkip(s, |m| + 2);
  }

  /** Proof helper: a span found at the start is dropped whole. */
  lemma DeleteParenSpansSkip(s: String, n: nat)
    requires ParenSpanLen(s) == Some(n)
    ensures DeleteParenSpans(s) == DeleteParenSpans(s[n..])
  {
  }

  /** Proof helper for the lemma above: the span ends at the `）` that closes `m`. */
  lemma ParenSpanLenClosed(m: String, b: String)
    requires forall j :: 0 <= j < |m| ==> !IsLineTerminator(m[j])
    requires forall j :: 0 <= j < LineEnd(b, 0) ==> b[j] != '）'
    ensures ParenSpanLen(['（'] + m + ['）'] + b) == Some(|m| + 2)
  {
    var x := ['（'] + m + ['）'];
    var s := x + b;
    assert forall j :: 1 <= j < |x| ==> s[j] == x[j];
    assert forall j :: 1 <= j < |m| + 1 ==> x[j] == m[j - 1];
    LineEndSkip(s, 1, |x|);
    LineEndOffset(x, b, 0);
    var e := LineEnd(s, 1);
    assert forall j :: |x| <= j < e ==> s[j] == b[j - |x|];
    LastFullCloseAt(s, 1, e, |x| - 1);
  }

  /** Proof helper: the last `）` in a range is the one with none after it. */
  lemma LastFullCloseAt(s: String, lo: nat, hi: nat, k: nat)
    requires lo <= k < hi <= |s| && s[k] == '）'
    requires forall j :: k < j < hi ==> s[j] != '）'
    ensures LastFullClose(s, lo, hi) == Some(k)
  {
  }

  /** A `（` with no `）` after it on its line is kept, and the deletion goes on after it. */
  lemma DeleteParenSpansOpenKept(a: String, b: String)
    requires '（' !in a
    requires forall j :: 0 <= j < LineEnd(b, 0) ==> b[j] != '）'
    ensures DeleteParenSpans(a + ['（'] + b) == a + ['（'] + DeleteParenSpans(b)
  {
    var s := ['（'] + b;
    LineEndOffset(['（'], b, 0);
    assert forall j :: 1 <= j < LineEnd(s, 1) ==> s[j] == b[j - 1];
    assert ParenSpanLen(s).None?;
    assert s[1..] == b;
    assert a + ['（'] + b == a + s;
    DeleteParenSpansConcat(a, s);
  }
  /** A bracketed note inside a subject is cut out and the text after it stays: `數學（國中）補充` gives `數學補充`. */
  lemma DeleteParenSpansExample()
    ensures DeleteParenSpans("數學（國中）補充") == "數學補充"
  {
    DeleteParenSpansNoOpen("補充");
    assert LineEnd("補充", 0) == 2;
    DeleteParenSpansSpan("數學", "國中", "補充");
    assert "數學" + ['（'] + "國中" + ['）'] + "補充" == "數學（國中）補充";
  }



  /**
   * The card `cardSubjectId`/`cardType` rule: the first line, emptied when it
   * is a picture caption, trimmed, with bracket spans deleted, trimmed again,
   * and with every whitespace character removed.
   */
  function NormalizeTagValue(v: String): (r: String)
    ensures forall i :: 0 <= i < |r| ==> !IsSpace(r[i])
    ensures forall c :: c in r ==> c in FirstLine(v)
    ensures IsPictureCaption(FirstLine(v)) ==> r == []
    ensures !IsPictureCaption(FirstLine(v)) && '（' !in FirstLine(v) ==> r == RemoveSpace(FirstLine(v))
  {
    var line := FirstLine(v);
    var a := Trim(DropPictureCaption(line));
    var d := DeleteParenSpans(a);
    var b := Trim(d);
    TrimChars(DropPictureCaption(line));
    DeleteParenSpansSubsequence(a);
    TrimChars(d);
    RemoveSpaceChars(b);
    TrimOfTrimmed(line);
    if !IsPictureCaption(line) && '（' !in line then
      DeleteParenSpansNoOpen(line);
      RemoveSpace(b)
    else
      RemoveSpace(b)
  }

  /**
   * A first line holding a span: the text before its `（` and the text after
   * its last `）` are kept, with their whitespace removed.
   */
  lemma NormalizeTagValueSpan(v: String, a: String, m: String, b: String)
    requires FirstLine(v) == a + "（" + m + "）" + b
    requires !IsPictureCaption(FirstLine(v))
    requires '（' !in a
    requires forall j :: 0 <= j < |m| ==> !IsLineTerminator(m[j])
    requires forall j :: 0 <= j < LineEnd(b, 0) ==> b[j] != '）'
    ensures NormalizeTagValue(v) == RemoveSpace(a + DeleteParenSpans(b))
  {
    var line := FirstLine(v);
    TrimOfTrimmed(line);
    DeleteParenSpansSpan(a, m, b);
    RemoveSpaceTrim(a + DeleteParenSpans(b));
  }

  /** When the first line holds no line terminator, no bracket span is left. */
  lemma NormalizeTagValueNoSpan(v: String)
    requires forall i :: 0 <= i < |FirstLine(v)| ==> !IsLineTerminator(FirstLine(v)[i])
    ensures NoParenSpan(NormalizeTagValue(v))
  {
    var line := FirstLine(v);
    var a := Trim(DropPictureCaption(line));
    assert forall i :: 0 <= i < |a| ==> !IsLineTerminator(a[i]) by {
      var d := DropPictureCaption(line);
      assert a == d[TrimLo(d)..TrimHi(d)];
      forall i | 0 <= i < |a| ensures !IsLineTerminator(a[i]) {
        assert a[i] == d[TrimLo(d) + i];
      }
    }
    var p := DeleteParenSpans(a);
    DeleteParenSpansNoSpan(a);
    var b := Trim(p);
    NoSpanSlice(p, TrimLo(p), TrimHi(p));
    NoSpanRemoveSpace(b);
  }

  lemma NoSpanSlice(s: String, lo: nat, hi: nat)
    requires lo <= hi <= |s| && NoParenSpan(s)
    ensures NoParenSpan(s[lo..hi])
  {
    var t := s[lo..hi];
    forall i, j | 0 <= i < j < |t| && t[i] == '（' ensures t[j] != '）' {
      assert t[i] == s[lo + i] && t[j] == s[lo + j];
    }
  }

  lemma {:induction false} NoSpanRemoveSpace(s: String)
    requires NoParenSpan(s)
    ensures NoParenSpan(RemoveSpace(s))
    ensures forall c :: c in RemoveSpace(s) ==> c in s[..]
    decreases |s|
  {
    if s != [] {
      assert NoParenSpan(s[1..]) by { NoSpanSlice(s, 1, |s|); }
      NoSpanRemoveSpace(s[1..]);
      assert forall c :: c in s[1..] ==> c in s;
      if !IsSpace(s[0]) {
        var rest := RemoveSpace(s[1..]);
        var r := [s[0]] + rest;
        if s[0] == '（' {
          assert '）' !in s[1..] by {
            forall k | 0 <= k < |s[1..]| ensures s[1..][k] != '）' {
              assert s[1..][k] == s[k + 1];
            }
          }
        }
        forall i, j | 0 <= i < j < |r| && r[i] == '（' ensures r[j] != '）' {
          assert r[j] == rest[j - 1];
          if i > 0 {
            assert r[i] == rest[i - 1];
          } else {
            assert rest[j - 1] in rest;
          }
        }
      }
    }
  }
}
