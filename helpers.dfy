/**
 * Small pure helpers: `cssEscape` (a backslash before every quote and
 * backslash), `preview` (whitespace collapsed, trimmed and cut for display)
 * and `mapDropdownValue` (translation of a field value through the dropdown
 * tables of the mapping file).
 */
module Helpers {
  import opened Wrappers
  import opened Text

  // ----- cssEscape -----

  predicate NeedsEscape(c: char) { c == '"' || c == '\\' }

  /** `String(s).replace(/["\\]/g, "\\$&")`. */
  function CssEscape(s: String): (r: String)
    ensures |r| >= |s|
    ensures r == [] <==> s == []
  {
    if s == [] then []
    else (if NeedsEscape(s[0]) then ['\\', s[0]] else [s[0]]) + CssEscape(s[1..])
  }

  /** One character: a quote or a backslash gets a backslash in front, anything else is copied. */
  lemma CssEscapeChar(c: char)
    ensures CssEscape([c]) == if NeedsEscape(c) then ['\\', c] else [c]
  {
    assert [c][1..] == [];
  }

  /** Escaping works character by character: the escape of a concatenation is the concatenation of the escapes. */
  lemma {:induction false} CssEscapeConcat(a: String, b: String)
    ensures CssEscape(a + b) == CssEscape(a) + CssEscape(b)
    decreases |a|
  {
    if a == [] {
      assert a + b == b;
    } else {
      var e := if NeedsEscape(a[0]) then ['\\', a[0]] else [a[0]];
      assert (a + b)[0] == a[0] && (a + b)[1..] == a[1..] + b;
      CssEscapeConcat(a[1..], b);
      ConcatAssoc(e, CssEscape(a[1..]), CssEscape(b));
    }
  }

  /** Reading an escaped string back: a backslash makes the next character literal. */
  function CssUnescape(r: String): String
    decreases |r|
  {
    if r == [] then []
    else if r[0] == '\\' && |r| >= 2 then [r[1]] + CssUnescape(r[2..])
    else [r[0]] + CssUnescape(r[1..])
  }

  /** Escaping loses nothing: unescaping gives the original string back. */
  lemma {:induction false} CssRoundTrip(s: String)
    ensures CssUnescape(CssEscape(s)) == s
  {
    if s != [] {
      CssRoundTrip(s[1..]);
      var r := CssEscape(s);
      if NeedsEscape(s[0]) {
        assert r[2..] == CssEscape(s[1..]);
      } else {
        assert r[1..] == CssEscape(s[1..]);
      }
    }
  }

  /** How many characters of `s` need a backslash. */
  function EscapeCount(s: String): nat {
    if s == [] then 0 else (if NeedsEscape(s[0]) then 1 else 0) + EscapeCount(s[1..])
  }

  /** Every quote and backslash gains one character, and nothing else changes length. */
  lemma {:induction false} CssEscapeLength(s: String)
    ensures |CssEscape(s)| == |s| + EscapeCount(s)
    ensures EscapeCount(s) == 0 ==> CssEscape(s) == s
  {
    if s != [] {
      CssEscapeLength(s[1..]);
      if EscapeCount(s) == 0 {
        assert CssEscape(s) == [s[0]] + s[1..];
      }
    }
  }

  // ----- preview -----

  /** Whitespace occurs only as single spaces. */
  predicate Collapsed(t: String) {
    && (forall i :: 0 <= i < |t| && IsSpace(t[i]) ==> t[i] == ' ')
    && (forall i :: 0 <= i < |t| - 1 ==> !(t[i] == ' ' && t[i + 1] == ' '))
  }

  /** `s.replace(/\s+/g, " ")`: every maximal run of whitespace becomes one space. */
  function Collapse(s: String): (r: String)
    ensures Collapsed(r)
    ensures (r != [] && r[0] == ' ') <==> (s != [] && IsSpace(s[0]))
    ensures r == [] <==> s == []
    ensures RemoveSpace(r) == RemoveSpace(s)
    decreases |s|
  {
    if s == [] then []
    else if IsSpace(s[0]) then
      var k := LeadingSpace(s);
      var rest := Collapse(s[k..]);
      assert rest == [] || rest[0] != ' ';
      RemoveSpaceSkip(s, k);
      assert (" " + rest)[1..] == rest;
      " " + rest
    else
      assert ([s[0]] + Collapse(s[1..]))[1..] == Collapse(s[1..]);
      [s[0]] + Collapse(s[1..])
  }

  /** A collapsed string is its own collapse. */
  lemma {:induction false} CollapseCollapsed(s: String)
    requires Collapsed(s)
    ensures Collapse(s) == s
    decreases |s|
  {
    if s != [] {
      assert Collapsed(s[1..]);
      CollapseCollapsed(s[1..]);
      if IsSpace(s[0]) {
        assert LeadingSpace(s) == 1 by {
          assert s[0] == ' ';
          assert |s| > 1 ==> s[1] != ' ' && !IsSpace(s[1]);
        }
      }
    }
  }

  /** A run of whitespace in front of text that starts with a non-space becomes one space. */
  lemma CollapseRun(w: String, b: String)
    requires w != [] && AllSpace(w)
    requires b == [] || !IsSpace(b[0])
    ensures Collapse(w + b) == " " + Collapse(b)
  {
    var s := w + b;
    assert s[..|w|] == w;
    LeadingSpaceUnique(s, |w|);
    assert s[0] == w[0];
    assert s[|w|..] == b;
  }

  /** Text that does not end in whitespace collapses on its own: its last run is closed. */
  lemma {:induction false} CollapseConcat(a: String, b: String)
    requires a == [] || !IsSpace(a[|a| - 1])
    ensures Collapse(a + b) == Collapse(a) + Collapse(b)
    decreases |a|
  {
    if a == [] {
      assert a + b == b;
    } else {
      var c, t := a[0], a[1..];
      assert a + b == [c] + (t + b) && a == [c] + t;
      CollapseConcat(t, b);
      if !IsSpace(c) {
        CollapseStepCopy(c, t, b);
      } else if IsSpace(t[0]) {
        CollapseStepJoin(c, t, b);
      } else {
        CollapseStepRun(c, t, b);
      }
    }
  }

  /** Proof helper for the lemma above: a non-space character in front is copied on both sides. */
  lemma CollapseStepCopy(c: char, t: String, b: String)
    requires !IsSpace(c)
    requires Collapse(t + b) == Collapse(t) + Collapse(b)
    ensures Collapse([c] + (t + b)) == Collapse([c] + t) + Collapse(b)
  {
    ConcatAssoc([c], Collapse(t), Collapse(b));
    CollapseNonSpaceCons(c, t + b);
    CollapseNonSpaceCons(c, t);
  }

  /** Proof helper for the lemma above: a space in front of a run joins it on both sides. */
  lemma CollapseStepJoin(c: char, t: String, b: String)
    requires IsSpace(c) && t != [] && IsSpace(t[0])
    requires Collapse(t + b) == Collapse(t) + Collapse(b)
    ensures Collapse([c] + (t + b)) == Collapse([c] + t) + Collapse(b)
  {
    assert (t + b)[0] == t[0];
    CollapseSpaceCons(c, t + b);
    CollapseSpaceCons(c, t);
  }

  /** Proof helper for the lemma above: a space in front of a non-space starts a run on both sides. */
  lemma CollapseStepRun(c: char, t: String, b: String)
    requires IsSpace(c) && t != [] && !IsSpace(t[0])
    requires Collapse(t + b) == Collapse(t) + Collapse(b)
    ensures Collapse([c] + (t + b)) == Collapse([c] + t) + Collapse(b)
  {
    ConcatAssoc(" ", Collapse(t), Collapse(b));
    assert (t + b)[0] == t[0];
    CollapseSpaceCons(c, t + b);
    CollapseSpaceCons(c, t);
  }

  /** Proof helper: a non-space character is copied. */
  lemma CollapseNonSpaceCons(c: char, t: String)
    requires !IsSpace(c)
    ensures Collapse([c] + t) == [c] + Collapse(t)
  {
    assert ([c] + t)[1..] == t;
  }

  /** Proof helper: a space joins the run after it, or starts a run of its own. */
  lemma CollapseSpaceCons(c: char, t: String)
    requires IsSpace(c)
    ensures t != [] && IsSpace(t[0]) ==> Collapse([c] + t) == Collapse(t)
    ensures t == [] || !IsSpace(t[0]) ==> Collapse([c] + t) == " " + Collapse(t)
  {
    var s := [c] + t;
    var k := LeadingSpace(t);
    LeadingSpaceCons(c, t);
    assert s[1 + k..] == t[k..];
  }

  /** A slice of a collapsed string is collapsed. */
  lemma CollapsedSlice(s: String, lo: nat, hi: nat)
    requires lo <= hi <= |s| && Collapsed(s)
    ensures Collapsed(s[lo..hi])
  {
    var t := s[lo..hi];
    assert forall i :: 0 <= i < |t| ==> t[i] == s[lo + i];
  }

  /** The text `preview` shows before it is cut: collapsed, then trimmed. */
  function PreviewText(s: String): (t: String)
    ensures Collapsed(t) && IsTrimmed(t)
    ensures RemoveSpace(t) == RemoveSpace(s)
  {
    var c := Collapse(s);
    CollapsedSlice(c, TrimLo(c), TrimHi(c));
    RemoveSpaceTrim(c);
    Trim(c)
  }

  /** Words are made of non-space characters. */
  predicate IsWord(s: String) {
    s != [] && forall i :: 0 <= i < |s| ==> !IsSpace(s[i])
  }

  /** A word has nothing to collapse. */
  lemma CollapseWord(a: String)
    requires IsWord(a)
    ensures Collapse(a) == a
    ensures !IsSpace(a[0]) && !IsSpace(a[|a| - 1])
  {
    CollapseCollapsed(a);
  }

  /** Whitespace between two words collapses to exactly one space. */
  lemma CollapseWords(a: String, w: String, b: String)
    requires IsWord(a) && IsWord(b) && w != [] && AllSpace(w)
    ensures Collapse(a + w + b) == a + " " + b
  {
    var x := w + b;
    assert a + w + b == a + x;
    assert a + (" " + b) == a + " " + b;
    CollapseWord(a);
    CollapseWord(b);
    CollapseRun(w, b);
    CollapseConcat(a, x);
  }


  /** Two words with whitespace between them come out joined by exactly one space. */
  lemma PreviewTextWords(a: String, w: String, b: String)
    requires IsWord(a) && IsWord(b) && w != [] && AllSpace(w)
    ensures PreviewText(a + w + b) == a + " " + b
  {
    var r := a + " " + b;
    CollapseWords(a, w, b);
    assert r[0] == a[0] && r[|r| - 1] == b[|b| - 1];
    TrimOfTrimmed(r);
  }



  /** `"a\tb"` is shown as `"a b"`. */
  lemma PreviewTextTab()
    ensures PreviewText("a\tb") == "a b"
  {
    SampleTabParts();
    PreviewTextWords("a", "\t", "b");
  }

  /** Proof helper for the example above: how the sample splits into two words and a tab. */
  lemma SampleTabParts()
    ensures "a" + "\t" + "b" == "a\tb" && "a" + " " + "b" == "a b"
    ensures IsWord("a") && IsWord("b") && AllSpace("\t")
  {
  }

  /** Normalising twice is normalising once. */
  lemma PreviewTextIdempotent(s: String)
    ensures PreviewText(PreviewText(s)) == PreviewText(s)
  {
    var t := PreviewText(s);
    CollapseCollapsed(t);
    TrimOfTrimmed(t);
  }

  /** `preview(s, n)`: the normalised text, cut to `n` characters followed by `...` when it is longer. */
  function Preview(s: String, n: nat): (r: String)
    ensures |r| <= n + 3
    ensures |PreviewText(s)| <= n ==> r == PreviewText(s)
    ensures |PreviewText(s)| > n ==> |r| == n + 3 && StartsWith(PreviewText(s), r[..n]) && r[n..] == "..."
  {
    var t := PreviewText(s);
    if |t| > n then t[..n] + "..." else t
  }

  // ----- mapDropdownValue -----

  /** The dropdown tables: table name, then displayed value to submitted value. */
  type Dropdown = map<String, map<String, String>>

  /** The table each form field is looked up in. */
  function TableOf(fieldName: String): Option<String> {
    if fieldName == "mainSubjectId" || fieldName == "cardSubjectId" then Some("subject")
    else if fieldName == "cardType" then Some("type")
    else if fieldName == "level" then Some("level")
    else if fieldName == "centuryId" then Some("century")
    else if fieldName == "syllabus" || fieldName == "cardSyllabus" then Some("syllabus")
    else if fieldName == "area" then Some("area")
    else None
  }

  /** The translation of `value` for `fieldName`, when a table has a non-empty one. */
  predicate Translates(dropdown: Option<Dropdown>, fieldName: String, value: String) {
    && dropdown.Some?
    && TableOf(fieldName).Some?
    && TableOf(fieldName).value in dropdown.value
    && value in dropdown.value[TableOf(fieldName).value]
    && dropdown.value[TableOf(fieldName).value][value] != []
  }

  /** `mapDropdownValue(fieldName, value)`. */
  function MapDropdownValue(dropdown: Option<Dropdown>, fieldName: String, value: String): (r: String)
    ensures Translates(dropdown, fieldName, value) ==>
      r == dropdown.value[TableOf(fieldName).value][value] && r != []
    ensures !Translates(dropdown, fieldName, value) ==> r == value
  {
    if dropdown.None? then value
    else
      match TableOf(fieldName)
      case None => value
      case Some(table) =>
        if table in dropdown.value && value in dropdown.value[table] && dropdown.value[table][value] != []
        then dropdown.value[table][value]
        else value
  }

  /** The main subject and the card subject share one table, and so do both syllabus fields. */
  lemma SharedTables(dropdown: Option<Dropdown>, value: String)
    ensures MapDropdownValue(dropdown, "mainSubjectId", value) == MapDropdownValue(dropdown, "cardSubjectId", value)
    ensures MapDropdownValue(dropdown, "syllabus", value) == MapDropdownValue(dropdown, "cardSyllabus", value)
  {
    assert TableOf("mainSubjectId") == TableOf("cardSubjectId") == Some("subject");
    assert TableOf("syllabus") == TableOf("cardSyllabus") == Some("syllabus");
  }

  /** A non-empty value never maps to the empty string. */
  lemma MapKeepsContent(dropdown: Option<Dropdown>, fieldName: String, value: String)
    ensures value != [] ==> MapDropdownValue(dropdown, fieldName, value) != []
  {
  }
}
