/**
 * `stripBracketNotesBlock`: the line filter used on description fields. It
 * drops lines that are one whole parenthetical or a neighbouring section
 * heading, and removes a leading parenthetical (with the whitespace after it)
 * from lines until the first line with content has been kept.
 */
module BracketNotes {
  import opened Wrappers
  import opened Text
  import opened Cleanup

  predicate IsOpen(c: char) { c == '（' || c == '(' }

  predicate IsClose(c: char) { c == '）' || c == ')' }

  /** Index of the first closing bracket at or after `from`. */
  function FirstClose(t: String, from: nat): (r: Option<nat>)
    ensures r.Some? ==> from <= r.value < |t| && IsClose(t[r.value])
    ensures forall i :: from <= i < |t| && (r.None? || i < r.value) ==> !IsClose(t[i])
    decreases |t| - from
  {
    if from >= |t| then None
    else if IsClose(t[from]) then Some(from)
    else FirstClose(t, from + 1)
  }

  /**
   * `/^[（(][^）)]+[）)]$/`: the whole string is one parenthetical, that is an
   * opening bracket, at least one other character, and a closing bracket that
   * is the first one after the opening bracket.
   */
  predicate IsWholeParen(t: String): (b: bool)
    ensures b <==> (
      && |t| >= 3 && IsOpen(t[0]) && IsClose(t[|t| - 1])
      && forall j :: 1 <= j < |t| - 1 ==> !IsClose(t[j]))
  {
    |t| >= 3 && IsOpen(t[0]) && FirstClose(t, 1) == Some(|t| - 1)
  }

  /** Looking for a closing bracket in a prefix finds the same one, if it lies inside the prefix. */
  lemma {:induction false} FirstCloseOfPrefix(t: String, n: nat, from: nat)
    requires n <= |t|
    ensures FirstClose(t[..n], from) ==
      if FirstClose(t, from).Some? && FirstClose(t, from).value < n then FirstClose(t, from) else None
    decreases |t| - from
  {
    if from < n {
      assert t[..n][from] == t[from];
      FirstCloseOfPrefix(t, n, from + 1);
    }
  }

  /**
   * `/^[（(][^）)]+[）)]/`: the length of the parenthetical `t` starts with,
   * which is a prefix of `t` that is a whole parenthetical.
   */
  function LeadParenLen(t: String): (r: Option<nat>)
    ensures r.Some? ==> 3 <= r.value <= |t| && IsWholeParen(t[..r.value])
  {
    if |t| >= 2 && IsOpen(t[0]) then
      match FirstClose(t, 1)
      case None => None
      case Some(p) =>
        if p >= 2 then
          FirstCloseOfPrefix(t, p + 1, 1);
          Some(p + 1)
        else None
    else None
  }

  /** The leading parenthetical is the only prefix of `t` that is a whole parenthetical. */
  lemma LeadParenLenComplete(t: String, n: nat)
    requires 3 <= n <= |t| && IsWholeParen(t[..n])
    ensures LeadParenLen(t) == Some(n)
  {
    FirstCloseOfPrefix(t, n, 1);
  }

  /** `line.replace(...)` of a leading parenthetical and the whitespace run after it. */
  function StripLead(line: String): (r: String)
    ensures LeadParenLen(line).None? ==> r == line
    ensures LeadParenLen(line).Some? ==> r == TrimStart(line[LeadParenLen(line).value..])
  {
    match LeadParenLen(line)
    case None => line
    case Some(n) => TrimStart(line[n..])
  }

  /** Sibling section titles that the section split can pull into a description. */
  const NeighborHeadings: seq<String> := ["多媒體補充資訊", "因材網或外部資訊", "卡片圖片", "編輯者註解", "卡片線索說明"]

  /** `/^(多媒體補充資訊|…|卡片線索說明)\s*$/`: a heading followed only by whitespace. */
  predicate IsNeighborHeading(t: String): (b: bool)
    ensures IsTrimmed(t) ==> (b <==> t in NeighborHeadings)
  {
    HeadingWithSpaceIsHeading(t);
    assert t in NeighborHeadings ==> t[|t|..] == [];
    exists k :: 0 <= k < |NeighborHeadings| && StartsWith(t, NeighborHeadings[k])
      && AllSpace(t[|NeighborHeadings[k]|..])
  }

  /** A trimmed line that is a heading followed by whitespace is the heading alone. */
  lemma HeadingWithSpaceIsHeading(t: String)
    ensures IsTrimmed(t) ==> forall k :: (
      && 0 <= k < |NeighborHeadings| && StartsWith(t, NeighborHeadings[k])
      && AllSpace(t[|NeighborHeadings[k]|..])) ==> t == NeighborHeadings[k]
  {
    forall k | 0 <= k < |NeighborHeadings| && IsTrimmed(t) && StartsWith(t, NeighborHeadings[k])
      && AllSpace(t[|NeighborHeadings[k]|..])
      ensures t == NeighborHeadings[k]
    {
      var h := NeighborHeadings[k];
      assert h != [];
      SpaceAfter(t, |h|);
      assert |t| == |h|;
      assert t == t[..|h|];
    }
  }

  /** Whitespace from `n` on, stated on the positions of `t`. */
  lemma SpaceAfter(t: String, n: nat)
    requires n <= |t| && AllSpace(t[n..])
    ensures forall i :: n <= i < |t| ==> IsSpace(t[i])
  {
    assert forall i :: n <= i < |t| ==> t[n..][i - n] == t[i];
  }

  /** A line the filter keeps (possibly after removing a leading parenthetical). */
  predicate Survives(line: String) {
    var t := Trim(line);
    !IsWholeParen(t) && !IsNeighborHeading(t)
  }

  /**
   * The lines the loop of `stripBracketNotesBlock` pushes onto `out` for the
   * remaining `lines`, when `seen` is the current `firstKeptSeen`.
   */
  function StripLines(lines: seq<String>, seen: bool): (r: seq<String>)
    ensures |r| <= |lines|
    ensures seen ==> r == Survivors(lines)
    decreases |lines|
  {
    if lines == [] then []
    else
      var t := Trim(lines[0]);
      if IsWholeParen(t) then StripLines(lines[1..], seen)
      else
        var kept := KeptLine(lines[0], seen);
        if IsNeighborHeading(t) then StripLines(lines[1..], seen)
        else [kept] + StripLines(lines[1..], seen || Trim(kept) != [])
  }

  /** Proof helper for the loop below: one unfolding of `StripLines`. */
  lemma StripLinesStep(lines: seq<String>, seen: bool)
    requires lines != []
    ensures var t := Trim(lines[0]);
      var kept := KeptLine(lines[0], seen);
      StripLines(lines, seen) ==
        if IsWholeParen(t) || IsNeighborHeading(t) then StripLines(lines[1..], seen)
        else [kept] + StripLines(lines[1..], seen || Trim(kept) != [])
  {
  }

  /** The line as pushed: without its leading parenthetical while no line with content has been kept. */
  function KeptLine(line: String, seen: bool): (r: String)
    ensures seen || LeadParenLen(Trim(line)).None? ==> r == line
    ensures r == line || r == StripLead(line)
  {
    if !seen && LeadParenLen(Trim(line)).Some? then StripLead(line) else line
  }

  /** A line without its trailing carriage return. */
  function DropCR(line: String): String {
    if |line| > 0 && line[|line| - 1] == '\r' then line[..|line| - 1] else line
  }

  /**
   * `s.split(/\r?\n/)`: split on line feeds, a carriage return before a line
   * feed going with it. A carriage return at the very end stays.
   */
  function SplitCRLF(s: String): (lines: seq<String>)
    ensures |lines| == |Split(s, '\n')|
    ensures forall i :: 0 <= i < |lines| - 1 ==> lines[i] == DropCR(Split(s, '\n')[i])
    ensures lines[|lines| - 1] == Split(s, '\n')[|lines| - 1]
  {
    DropCRs(Split(s, '\n'))
  }

  /** Every part but the last without its trailing carriage return. */
  function DropCRs(parts: seq<String>): (r: seq<String>)
    ensures |r| == |parts|
    ensures forall i :: 0 <= i < |parts| - 1 ==> r[i] == DropCR(parts[i])
    ensures parts != [] ==> r[|r| - 1] == parts[|parts| - 1]
  {
    if |parts| <= 1 then parts
    else
      var rest := DropCRs(parts[1..]);
      assert forall i :: 1 <= i < |parts| ==> parts[1..][i - 1] == parts[i];
      [DropCR(parts[0])] + rest
  }

  /** A line ended by `\r\n` is split off without either character. */
  lemma SplitCRLFCons(a: String, b: String)
    requires '\n' !in a
    ensures SplitCRLF(a + "\r\n" + b) == [a] + SplitCRLF(b)
  {
    var a' := a + ['\r'];
    assert a + "\r\n" + b == a' + ['\n'] + b;
    SplitCons(a', b, '\n');
    assert DropCR(a') == a;
    var parts := [a'] + Split(b, '\n');
    assert parts[1..] == Split(b, '\n');
  }

  /** Text without carriage returns splits exactly as at line feeds. */
  lemma SplitCRLFNoCR(s: String)
    requires '\r' !in s
    ensures SplitCRLF(s) == Split(s, '\n')
  {
    var parts := Split(s, '\n');
    SplitPartsChars(s, '\n');
    forall i | 0 <= i < |parts| - 1 ensures DropCR(parts[i]) == parts[i] {
      assert parts[i] != [] ==> parts[i][|parts[i]| - 1] in parts[i];
    }
  }

  /** `stripBracketNotesBlock` as a value. */
  function StripNotes(s: String): (r: String)
    ensures s == [] ==> r == []
    ensures IsTrimmed(r)
  {
    if s == [] then s
    else Trim(Join(StripLines(SplitCRLF(s), false), '\n'))
  }

  /** The block is the surviving lines, lead-stripped up to the first content line, rejoined and trimmed. */
  lemma StripNotesFactors(s: String)
    requires s != []
    ensures StripNotes(s) == Trim(Join(LeadStrip(Survivors(SplitCRLF(s)), false), '\n'))
  {
    StripLinesFactors(SplitCRLF(s), false);
  }

  /** `stripBracketNotesBlock`: split into lines, filter them, rejoin and trim. */
  method StripBracketNotesBlock(s: String) returns (r: String)
    ensures r == StripNotes(s)
  {
    if s == [] {
      return s;
    }
    var lines := SplitCRLF(s);
    var out := FilterNoteLines(lines);
    r := Trim(Join(out, '\n'));
  }

  /** The loop of `stripBracketNotesBlock` with its `firstKeptSeen` flag, pushing onto `out`. */
  method FilterNoteLines(lines: seq<String>) returns (out: seq<String>)
    ensures out == StripLines(lines, false)
  {
    out := [];
    var firstKeptSeen := false;
    assert lines[0..] == lines;
    for i := 0 to |lines|
      invariant out + StripLines(lines[i..], firstKeptSeen) == StripLines(lines, false)
    {
      StripLinesStep(lines[i..], firstKeptSeen);
      assert lines[i..][0] == lines[i] && lines[i..][1..] == lines[i + 1..];
      var line := lines[i];
      var trimmed := Trim(line);
      ghost var rest := StripLines(lines[i + 1..], firstKeptSeen);
      if IsWholeParen(trimmed) {
        assert StripLines(lines[i..], firstKeptSeen) == rest;
        continue;
      }
      if !firstKeptSeen && LeadParenLen(trimmed).Some? {
        line := StripLead(line);
      }
      assert line == KeptLine(lines[i], firstKeptSeen);
      if IsNeighborHeading(trimmed) {
        assert StripLines(lines[i..], firstKeptSeen) == rest;
        continue;
      }
      ghost var seen' := firstKeptSeen || Trim(line) != [];
      assert StripLines(lines[i..], firstKeptSeen) == [line] + StripLines(lines[i + 1..], seen');
      if Trim(line) != [] && !firstKeptSeen {
        firstKeptSeen := true;
      }
      assert firstKeptSeen == seen';
      ghost var tail := StripLines(lines[i + 1..], seen');
      ConcatAssoc(out, [line], tail);
      out := out + [line];
    }
    assert lines[|lines|..] == [];
  }

  // ----- Properties -----

  /** The input lines the filter keeps, in order. */
  function Survivors(lines: seq<String>): (r: seq<String>)
    ensures forall i :: 0 <= i < |r| ==> Survives(r[i]) && r[i] in lines
    ensures forall i :: 0 <= i < |lines| && Survives(lines[i]) ==> lines[i] in r
  {
    if lines == [] then []
    else
      var rest := Survivors(lines[1..]);
      forall i | 1 <= i < |lines| && Survives(lines[i]) ensures lines[i] in rest {
        assert lines[1..][i - 1] == lines[i];
      }
      if Survives(lines[0]) then [lines[0]] + rest
      else rest
  }

  /** The filter keeps the order of the lines it keeps. */
  lemma {:induction false} SurvivorsConcat(a: seq<String>, b: seq<String>)
    ensures Survivors(a + b) == Survivors(a) + Survivors(b)
    decreases |a|
  {
    if a == [] {
      assert a + b == b;
    } else {
      assert (a + b)[0] == a[0];
      assert (a + b)[1..] == a[1..] + b;
      SurvivorsConcat(a[1..], b);
    }
  }

  /** The second half of the filter: leading parentheticals removed until a line with content is kept. */
  function LeadStrip(lines: seq<String>, seen: bool): seq<String>
    decreases |lines|
  {
    if lines == [] then []
    else
      var kept := KeptLine(lines[0], seen);
      [kept] + LeadStrip(lines[1..], seen || Trim(kept) != [])
  }

  /**
   * The filter splits in two: dropping whole parentheticals and headings does
   * not depend on the flag, and dropped lines never set it.
   */
  lemma {:induction false} StripLinesFactors(lines: seq<String>, seen: bool)
    ensures StripLines(lines, seen) == LeadStrip(Survivors(lines), seen)
    decreases |lines|
  {
    if lines != [] {
      var line := lines[0];
      var kept := KeptLine(line, seen);
      StripLinesFactors(lines[1..], seen);
      StripLinesFactors(lines[1..], seen || Trim(kept) != []);
      if Survives(line) {
        assert ([line] + Survivors(lines[1..]))[1..] == Survivors(lines[1..]);
      }
    }
  }

  /** Once a line with content has been kept, every later surviving line is kept verbatim. */
  lemma {:induction false} VerbatimAfterSeen(lines: seq<String>)
    ensures LeadStrip(lines, true) == lines
    decreases |lines|
  {
    if lines != [] {
      VerbatimAfterSeen(lines[1..]);
    }
  }

  /** Index of the first string with content, or the length when there is none. */
  function FirstContent(lines: seq<String>): (k: nat)
    ensures k <= |lines|
    ensures forall i :: 0 <= i < k ==> Trim(lines[i]) == []
    ensures k < |lines| ==> Trim(lines[k]) != []
  {
    if lines == [] then 0
    else if Trim(lines[0]) != [] then 0
    else 1 + FirstContent(lines[1..])
  }

  lemma {:induction false} LeadStripLength(lines: seq<String>, seen: bool)
    ensures |LeadStrip(lines, seen)| == |lines|
    decreases |lines|
  {
    if lines != [] {
      LeadStripLength(lines[1..], seen || Trim(KeptLine(lines[0], seen)) != []);
    }
  }

  /** The `i`-th kept line is the `i`-th surviving line, possibly without its leading parenthetical. */
  lemma {:induction false} LeadStripAt(lines: seq<String>, seen: bool, i: nat)
    requires i < |lines|
    ensures |LeadStrip(lines, seen)| == |lines|
    ensures var r := LeadStrip(lines, seen)[i];
      && (r == lines[i] || r == StripLead(lines[i]))
      && (LeadParenLen(Trim(lines[i])).None? ==> r == lines[i])
    decreases i
  {
    LeadStripLength(lines, seen);
    if i > 0 {
      var seen' := seen || Trim(KeptLine(lines[0], seen)) != [];
      LeadStripAt(lines[1..], seen', i - 1);
    }
  }

  /** Kept lines after the first kept line with content are the surviving lines verbatim. */
  lemma {:induction false} LeadStripVerbatimAt(lines: seq<String>, i: nat)
    requires i < |lines|
    ensures |LeadStrip(lines, false)| == |lines|
    ensures FirstContent(LeadStrip(lines, false)) < i ==> LeadStrip(lines, false)[i] == lines[i]
    decreases i
  {
    LeadStripLength(lines, false);
    var kept := KeptLine(lines[0], false);
    if i > 0 {
      if Trim(kept) != [] {
        VerbatimAfterSeen(lines[1..]);
      } else {
        LeadStripVerbatimAt(lines[1..], i - 1);
      }
    }
  }

  /** Up to the first kept line with content, each line loses its leading parenthetical, if it has one. */
  lemma {:induction false} LeadStripStrippedAt(lines: seq<String>, i: nat)
    requires i < |lines|
    ensures |LeadStrip(lines, false)| == |lines|
    ensures i <= FirstContent(LeadStrip(lines, false)) ==> LeadStrip(lines, false)[i] == KeptLine(lines[i], false)
    decreases i
  {
    LeadStripLength(lines, false);
    var r := LeadStrip(lines, false);
    var kept := KeptLine(lines[0], false);
    if i > 0 && Trim(kept) == [] {
      assert r[1..] == LeadStrip(lines[1..], false);
      assert FirstContent(r) == 1 + FirstContent(r[1..]);
      LeadStripStrippedAt(lines[1..], i - 1);
    }
  }

  /**
   * Each surviving line is kept either verbatim or without its leading
   * parenthetical; the latter only up to the first kept line with content, and
   * only on a line whose trimmed text starts with a parenthetical.
   */
  lemma LeadStripShape(lines: seq<String>)
    ensures var r := LeadStrip(lines, false);
      && |r| == |lines|
      && (forall i :: 0 <= i < |r| ==> r[i] == lines[i] || r[i] == StripLead(lines[i]))
      && (forall i :: 0 <= i < |r| && LeadParenLen(Trim(lines[i])).None? ==> r[i] == lines[i])
      && (forall i :: FirstContent(r) < i < |r| ==> r[i] == lines[i])
      && (forall i :: 0 <= i < |r| && i <= FirstContent(r) ==> r[i] == KeptLine(lines[i], false))
  {
    LeadStripLength(lines, false);
    var r := LeadStrip(lines, false);
    forall i | 0 <= i < |lines|
      ensures r[i] == lines[i] || r[i] == StripLead(lines[i])
      ensures LeadParenLen(Trim(lines[i])).None? ==> r[i] == lines[i]
      ensures FirstContent(r) < i ==> r[i] == lines[i]
      ensures i <= FirstContent(r) ==> r[i] == KeptLine(lines[i], false)
    {
      LeadStripAt(lines, false, i);
      LeadStripVerbatimAt(lines, i);
      LeadStripStrippedAt(lines, i);
    }
  }

  /** `stripBracketNotesBlock` leaves empty input as it is. */
  lemma EmptyUnchanged()
    ensures StripNotes([]) == []
  {
  }

  /** A one-line text without carriage returns splits into itself. */
  lemma SplitCRLFOneLine(s: String)
    requires '\n' !in s && '\r' !in s
    ensures SplitCRLF(s) == [s]
  {
    SplitOneLine(s);
  }

  /** A one-line text is dropped, or kept as its filtered line, trimmed. */
  lemma StripNotesOneLine(s: String)
    requires '\n' !in s && '\r' !in s && s != []
    ensures var t := Trim(s);
      StripNotes(s) ==
        if IsWholeParen(t) || IsNeighborHeading(t) then [] else Trim(KeptLine(s, false))
  {
    SplitCRLFOneLine(s);
    assert [s][1..] == [];
  }

  /** On one line, a note glued to the start of the content is removed with the whitespace after it. */
  lemma LeadingNoteOnOneLine(s: String, n: nat)
    requires '\n' !in s && '\r' !in s && IsTrimmed(s)
    requires 3 <= n < |s| && IsWholeParen(s[..n])
    requires !IsNeighborHeading(s)
    ensures StripNotes(s) == TrimStart(s[n..])
  {
    TrimOfTrimmed(s);
    LeadingNoteKept(s, n);
    StripNotesOneLine(s);
  }

  /** A trimmed line that starts with a note is not one whole note, and is kept without the note. */
  lemma LeadingNoteKept(s: String, n: nat)
    requires IsTrimmed(s)
    requires 3 <= n < |s| && IsWholeParen(s[..n])
    ensures !IsWholeParen(s)
    ensures Trim(KeptLine(s, false)) == TrimStart(s[n..])
  {
    TrimOfTrimmed(s);
    FirstCloseOfPrefix(s, n, 1);
    assert FirstClose(s, 1) == Some(n - 1);
    var rest := s[n..];
    LeadParenLenComplete(s, n);
    assert KeptLine(s, false) == TrimStart(rest);
    assert rest[|rest| - 1] == s[|s| - 1];
    TrimStartTrimmed(rest);
    TrimOfTrimmed(TrimStart(rest));
  }

  /** On one line, a whole note vanishes. */
  lemma WholeNoteOnOneLine(s: String)
    requires '\n' !in s && '\r' !in s && s != []
    requires IsWholeParen(Trim(s))
    ensures StripNotes(s) == []
  {
    StripNotesOneLine(s);
  }

  /** Proof helper for the two examples below: the sample note is one whole parenthetical. */
  lemma SampleNoteIsWhole()
    ensures IsWholeParen("（附註）")
  {
  }

  /** Proof helper for the example below: the sample line meets what `LeadingNoteOnOneLine` asks. */
  lemma SampleLeadingNote()
    ensures var s := "（附註）正文";
      && '\n' !in s && '\r' !in s && IsTrimmed(s)
      && IsWholeParen(s[..4]) && !IsNeighborHeading(s) && TrimStart(s[4..]) == "正文"
  {
    var s := "（附註）正文";
    assert s[..4] == "（附註）";
    SampleNoteIsWhole();
    assert s[4..] == "正文";
    assert LeadingSpace("正文") == 0;
    forall k | 0 <= k < |NeighborHeadings| ensures !StartsWith(s, NeighborHeadings[k]) {
      assert s[0] != NeighborHeadings[k][0];
    }
  }

  /** A note glued to the start of the content is removed: `（附註）正文` becomes `正文`. */
  lemma LeadingNoteRemoved()
    ensures StripNotes("（附註）正文") == "正文"
  {
    SampleLeadingNote();
    LeadingNoteOnOneLine("（附註）正文", 4);
  }

  /** A note alone on its line vanishes: `（附註）` gives the empty string. */
  lemma WholeNoteDropped()
    ensures StripNotes("（附註）") == []
  {
    TrimOfTrimmed("（附註）");
    SampleNoteIsWhole();
    WholeNoteOnOneLine("（附註）");
  }
}
