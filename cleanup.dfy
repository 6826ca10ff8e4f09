/**
 * Text cleanup shared by every field rule: dropping page-number lines, cutting
 * the text at the earliest stop marker (`pruneAfterMarkers`, `cleanTextBase`)
 * and taking the first line that has content (`firstLine`).
 */
module Cleanup {
  import opened Wrappers
  import opened Text

  /** The five stop markers: the system note and the knowledge-card group headings. */
  const Markers: seq<String> := ["【系統】", "知識卡分類", "第一組知識卡", "第二組知識卡", "第三組知識卡"]

  /** Every marker has at least one character. */
  lemma MarkerNonEmpty(k: nat)
    requires k < |Markers|
    ensures |Markers[k]| > 0
  {
    if k == 0 {
      assert |Markers[0]| == 4;
    } else if k == 1 {
      assert |Markers[1]| == 5;
    } else {
      assert |Markers[k]| == 6;
    }
  }

  /**
   * The value `cut` holds in `pruneAfterMarkers` once the markers `ms` have been
   * looked at: the smallest `indexOf` among them, or the length of the text.
   */
  function CutAt(text: String, ms: seq<String>): (cut: nat)
    ensures cut <= |text|
    ensures forall k: nat, j: nat :: k < |ms| && j < cut ==> !OccursAt(text, ms[k], j)
    ensures cut < |text| ==> exists k :: 0 <= k < |ms| && OccursAt(text, ms[k], cut)
    decreases |ms|
  {
    if ms == [] then |text|
    else
      var init := ms[..|ms| - 1];
      var prev := CutAt(text, init);
      assert forall k :: 0 <= k < |init| ==> init[k] == ms[k];
      match IndexOf(text, ms[|ms| - 1])
      case None => prev
      case Some(i) => if i < prev then i else prev
  }

  /** `pruneAfterMarkers(text)` as a value: the text up to the earliest stop marker. */
  function Prune(text: String): (r: String)
    ensures |r| <= |text| && r == text[..|r|]
    ensures forall k: nat, j: nat :: k < |Markers| && OccursAt(text, Markers[k], j) ==> |r| <= j
    ensures |r| < |text| ==> exists k :: 0 <= k < |Markers| && OccursAt(text, Markers[k], |r|)
  {
    text[..CutAt(text, Markers)]
  }

  /** `pruneAfterMarkers`: the loop that keeps the minimum `indexOf` in `cut`. */
  method PruneAfterMarkers(text: String) returns (r: String)
    ensures r == Prune(text)
  {
    var cut := |text|;
    for k := 0 to |Markers|
      invariant cut == CutAt(text, Markers[..k])
    {
      assert Markers[..k + 1][..k] == Markers[..k];
      var i := IndexOf(text, Markers[k]);
      if i.Some? {
        cut := if i.value < cut then i.value else cut;
      }
    }
    assert Markers[..|Markers|] == Markers;
    r := text[..cut];
  }

  /** A page number: a line whose trimmed content is one or more ASCII digits (`/^\d+$/`). */
  predicate IsPageNumberLine(line: String) {
    var t := Trim(line);
    t != [] && AllDigits(t)
  }

  /** Digits with whitespace around them form a page-number line. */
  lemma PaddedDigitsArePageNumber(w1: String, d: String, w2: String)
    requires AllSpace(w1) && AllSpace(w2) && d != [] && AllDigits(d)
    ensures IsPageNumberLine(w1 + d + w2)
  {
    TrimPadded(w1, d, w2);
  }

  /** A page-number line is whitespace, then at least one digit, then whitespace. */
  lemma PageNumberLineShape(line: String)
    requires IsPageNumberLine(line)
    ensures var lo, hi := TrimLo(line), TrimHi(line);
      && line == line[..lo] + line[lo..hi] + line[hi..]
      && AllSpace(line[..lo]) && AllSpace(line[hi..])
      && line[lo..hi] != [] && AllDigits(line[lo..hi])
  {
    var lo, hi := TrimLo(line), TrimHi(line);
    assert line[lo..][hi - lo..] == line[hi..];
  }

  /** `lines.filter(l => !/^\d+$/.test(l.trim()))`. */
  function DropPageNumberLines(lines: seq<String>): (r: seq<String>)
    ensures |r| <= |lines|
    ensures forall i :: 0 <= i < |r| ==> !IsPageNumberLine(r[i]) && r[i] in lines
    ensures forall i :: 0 <= i < |lines| && !IsPageNumberLine(lines[i]) ==> lines[i] in r
  {
    if lines == [] then []
    else
      assert forall i :: 1 <= i < |lines| ==> lines[1..][i - 1] == lines[i];
      if IsPageNumberLine(lines[0]) then DropPageNumberLines(lines[1..])
      else [lines[0]] + DropPageNumberLines(lines[1..])
  }

  /** The page-number filter keeps the order of the lines it keeps. */
  lemma {:induction false} DropPageNumberLinesConcat(a: seq<String>, b: seq<String>)
    ensures DropPageNumberLines(a + b) == DropPageNumberLines(a) + DropPageNumberLines(b)
    decreases |a|
  {
    if a == [] {
      assert a + b == b;
    } else {
      assert (a + b)[0] == a[0];
      assert (a + b)[1..] == a[1..] + b;
      DropPageNumberLinesConcat(a[1..], b);
    }
  }

  /**
   * The first statement of `cleanTextBase`: split on `\n`, drop page numbers,
   * rejoin. A single line is dropped exactly when it is a page number, and a
   * text without page-number lines comes back whole.
   */
  function DropPageNumbers(text: String): (r: String)
    ensures '\n' !in text ==> r == if IsPageNumberLine(text) then [] else text
    ensures (forall i :: 0 <= i < |Split(text, '\n')| ==> !IsPageNumberLine(Split(text, '\n')[i])) ==> r == text
  {
    var lines := Split(text, '\n');
    DropPageNumberLinesNone(lines);
    JoinSplit(text, '\n');
    if '\n' !in text then
      SplitOneLine(text);
      Join(DropPageNumberLines(lines), '\n')
    else
      Join(DropPageNumberLines(lines), '\n')
  }


  /** A list without page-number lines passes the filter unchanged. */
  lemma {:induction false} DropPageNumberLinesNone(lines: seq<String>)
    ensures (forall i :: 0 <= i < |lines| ==> !IsPageNumberLine(lines[i])) ==> DropPageNumberLines(lines) == lines
    decreases |lines|
  {
    if lines != [] {
      var t := lines[1..];
      assert forall i :: 0 <= i < |t| ==> t[i] == lines[i + 1];
      assert [lines[0]] + t == lines;
      DropPageNumberLinesNone(t);
    }
  }

  /**
   * `cleanTextBase`: the trim of the page-number-free text cut at its earliest
   * stop marker; it holds no stop marker and no outer whitespace.
   */
  function CleanTextBase(text: String): (r: String)
    ensures IsTrimmed(r)
    ensures forall k: nat, j: nat :: k < |Markers| ==> !OccursAt(r, Markers[k], j)
  {
    var f := DropPageNumbers(text);
    PrunedNoMarker(f);
    Trim(Prune(f))
  }

  /** Proof helper for the function above: once pruned and trimmed, no stop marker is left. */
  lemma PrunedNoMarker(f: String)
    ensures forall k: nat, j: nat :: k < |Markers| ==> !OccursAt(Trim(Prune(f)), Markers[k], j)
  {
    var p := Prune(f);
    forall k: nat | k < |Markers| ensures forall j: nat :: !OccursAt(Trim(p), Markers[k], j) {
      MarkerNonEmpty(k);
      NoOccurrenceInPrefix(f, |p|, Markers[k]);
      NoOccurrenceInSlice(p, TrimLo(p), TrimHi(p), Markers[k]);
    }
  }

  /** A non-empty pattern that first occurs at or after `c` does not occur in the first `c` characters. */
  lemma NoOccurrenceInPrefix(s: String, c: nat, pat: String)
    requires c <= |s| && |pat| > 0
    requires forall j: nat :: OccursAt(s, pat, j) ==> c <= j
    ensures forall j: nat :: !OccursAt(s[..c], pat, j)
  {
    forall j: nat | OccursAt(s[..c], pat, j) ensures false {
      OccursInSlice(s, 0, c, pat, j);
    }
  }

  lemma NoOccurrenceInSlice(s: String, a: nat, b: nat, pat: String)
    requires a <= b <= |s|
    requires forall j: nat :: !OccursAt(s, pat, j)
    ensures forall j: nat :: !OccursAt(s[a..b], pat, j)
  {
    forall j: nat | OccursAt(s[a..b], pat, j) ensures false {
      OccursInSlice(s, a, b, pat, j);
    }
  }

  /** Line `k` is the first line with content: it is not blank and every line before it is. */
  predicate IsFirstNonBlankAt(lines: seq<String>, k: int) {
    0 <= k < |lines| && !AllSpace(lines[k]) && forall j :: 0 <= j < k ==> AllSpace(lines[j])
  }

  /** `lines.find(l => l.trim().length) || ""`. */
  function FirstNonBlank(lines: seq<String>): (r: String)
    ensures r == [] || r in lines
    ensures AllSpace(r) <==> forall i :: 0 <= i < |lines| ==> AllSpace(lines[i])
    ensures forall k :: IsFirstNonBlankAt(lines, k) ==> r == lines[k]
  {
    if lines == [] then []
    else if !AllSpace(lines[0]) then lines[0]
    else
      assert forall k :: IsFirstNonBlankAt(lines, k) ==> k >= 1 && IsFirstNonBlankAt(lines[1..], k - 1);
      FirstNonBlank(lines[1..])
  }

  /**
   * `firstLine`: the first line that has content, trimmed. It is a single
   * trimmed line, and empty exactly when the text is all whitespace.
   */
  function FirstLine(text: String): (r: String)
    ensures '\n' !in r
    ensures IsTrimmed(r)
    ensures r == [] <==> AllSpace(text)
    ensures forall k :: IsFirstNonBlankAt(Split(text, '\n'), k) ==> r == Trim(Split(text, '\n')[k])
  {
    var lines := Split(text, '\n');
    var line := FirstNonBlank(lines);
    JoinSplit(text, '\n');
    JoinAllSpace(lines, '\n');
    SplitPartsLackSep(text, '\n');
    assert '\n' !in line;
    Trim(line)
  }

  /** A first line with content is the one `firstLine` gives, trimmed. */
  lemma FirstLineTakesLine(a: String, b: String)
    requires '\n' !in a && !AllSpace(a)
    ensures FirstLine(a + "\n" + b) == Trim(a)
  {
    SplitCons(a, b, '\n');
    assert IsFirstNonBlankAt(Split(a + "\n" + b, '\n'), 0);
  }

  /** A blank first line is skipped. */
  lemma FirstLineSkipsBlank(a: String, b: String)
    requires '\n' !in a && AllSpace(a)
    ensures FirstLine(a + "\n" + b) == FirstLine(b)
  {
    var lines := Split(a + "\n" + b, '\n');
    SplitCons(a, b, '\n');
    assert lines == [a] + Split(b, '\n');
    assert lines[1..] == Split(b, '\n');
  }

  /** String `k` is the first non-empty one. */
  predicate IsFirstNonEmptyAt(xs: seq<String>, k: int) {
    0 <= k < |xs| && xs[k] != [] && forall j :: 0 <= j < k ==> xs[j] == []
  }

  /** `xs.filter(Boolean)[0] || ""`: the first non-empty string. */
  function FirstNonEmpty(xs: seq<String>): (r: String)
    ensures r == [] || r in xs
    ensures r == [] <==> forall i :: 0 <= i < |xs| ==> xs[i] == []
    ensures forall k :: IsFirstNonEmptyAt(xs, k) ==> r == xs[k]
  {
    if xs == [] then []
    else if xs[0] != [] then xs[0]
    else
      assert forall k :: IsFirstNonEmptyAt(xs, k) ==> k >= 1 && IsFirstNonEmptyAt(xs[1..], k - 1);
      FirstNonEmpty(xs[1..])
  }

  /** `lines.map(s => s.trim())`. */
  function TrimAll(lines: seq<String>): (r: seq<String>)
    ensures |r| == |lines|
    ensures forall i :: 0 <= i < |r| ==> r[i] == Trim(lines[i])
  {
    seq(|lines|, i requires 0 <= i < |lines| => Trim(lines[i]))
  }

  /** Trimming a list with a first element. */
  lemma TrimAllCons(x: String, xs: seq<String>)
    ensures TrimAll([x] + xs) == [Trim(x)] + TrimAll(xs)
  {
  }

  /**
   * The card description's `split("\n").map(trim).filter(Boolean)[0] || ""`
   * picks the same line as `firstLine`.
   */
  lemma {:induction false} FirstNonEmptyTrimmedIsFirstLine(lines: seq<String>)
    ensures FirstNonEmpty(TrimAll(lines)) == Trim(FirstNonBlank(lines))
    decreases |lines|
  {
    if lines != [] {
      assert TrimAll(lines)[1..] == TrimAll(lines[1..]);
      if AllSpace(lines[0]) {
        FirstNonEmptyTrimmedIsFirstLine(lines[1..]);
      }
    }
  }

  /** Splitting what was joined gives back the parts when none of them holds the separator. */
  lemma {:induction false} SplitJoin(parts: seq<String>, sep: char)
    requires |parts| >= 1
    requires forall i :: 0 <= i < |parts| ==> sep !in parts[i]
    ensures Split(Join(parts, sep), sep) == parts
    decreases |parts|, |parts[0]|
  {
    var p := parts[0];
    if p == [] {
      if |parts| > 1 {
        SplitJoin(parts[1..], sep);
        assert Join(parts, sep) == [sep] + Join(parts[1..], sep);
        assert Join(parts, sep)[1..] == Join(parts[1..], sep);
      }
    } else {
      var tail := [p[1..]] + parts[1..];
      assert tail[1..] == parts[1..];
      SplitJoin(tail, sep);
      if |parts| > 1 {
        assert Join(parts, sep) == [p[0]] + Join(tail, sep);
      } else {
        assert Join(parts, sep) == [p[0]] + Join(tail, sep);
      }
      assert Join(parts, sep)[1..] == Join(tail, sep);
      assert [p[0]] + p[1..] == p;
    }
  }

  /** After the first statement of `cleanTextBase` no line of the text is a page number. */
  lemma NoPageNumberLineLeft(text: String)
    ensures forall l <- Split(DropPageNumbers(text), '\n') :: !IsPageNumberLine(l)
  {
    var kept := DropPageNumberLines(Split(text, '\n'));
    SplitPartsLackSep(text, '\n');
    if kept != [] {
      SplitJoin(kept, '\n');
    }
  }

  /** A pattern whose first character never appears in the text does not occur in it. */
  lemma AbsentFirstChar(text: String, pat: String)
    requires |pat| > 0 && pat[0] !in text
    ensures forall j: nat :: !OccursAt(text, pat, j)
  {
    forall j: nat ensures !OccursAt(text, pat, j) {
      if j + |pat| <= |text| {
        assert text[j..j + |pat|][0] == text[j];
      }
    }
  }

  /** A text holding no marker's first character is not cut. */
  lemma PruneUntouched(text: String)
    requires forall k :: 0 <= k < |Markers| ==> Markers[k][0] !in text
    ensures Prune(text) == text
  {
    forall k: nat | k < |Markers| ensures forall j: nat :: !OccursAt(text, Markers[k], j) {
      MarkerNonEmpty(k);
      AbsentFirstChar(text, Markers[k]);
    }
    assert CutAt(text, Markers) == |text|;
  }

  // Facts about the sample text "1【系統】" and its first cleanup "1", one per lemma
  // so that each proof stays small.

  /** The sample is cut just before its system marker. */
  lemma PruneExample()
    ensures Prune("1【系統】") == "1"
  {
    var t := "1【系統】";
    assert OccursAt(t, Markers[0], 1);
    forall k: nat | 1 <= k < |Markers| ensures forall j: nat :: !OccursAt(t, Markers[k], j) {
      MarkerNonEmpty(k);
      AbsentFirstChar(t, Markers[k]);
    }
    forall j: nat | OccursAt(t, Markers[0], j) ensures 1 <= j {
      assert t[j] == '【';
    }
  }

  /** A text without a line feed is a single line. */
  lemma SplitOneLine(s: String)
    requires '\n' !in s
    ensures Split(s, '\n') == [s]
  {
    SplitJoin([s], '\n');
  }

  /** A one-line text is dropped whole when it is a page number and kept whole otherwise. */
  lemma DropOneLine(s: String)
    requires '\n' !in s
    ensures DropPageNumbers(s) == if IsPageNumberLine(s) then "" else s
  {
    SplitOneLine(s);
  }

  /** A line with a digit and a marker is not a page number. */
  lemma MarkedLineKept()
    ensures !IsPageNumberLine("1【系統】")
  {
    TrimOfTrimmed("1【系統】");
    assert !IsDigit("1【系統】"[1]);
  }

  /** A line of digits is a page number. */
  lemma DigitLineDropped()
    ensures IsPageNumberLine("1")
  {
    TrimOfTrimmed("1");
  }

  /** The sample keeps its only line. */
  lemma DropPageNumbersExample1()
    ensures DropPageNumbers("1【系統】") == "1【系統】"
  {
    DropOneLine("1【系統】");
    MarkedLineKept();
  }

  /** A text that is one page number disappears entirely. */
  lemma DropPageNumbersExample2()
    ensures DropPageNumbers("1") == ""
  {
    DropOneLine("1");
    DigitLineDropped();
  }

  lemma CleanExampleA()
    ensures CleanTextBase("1【系統】") == "1"
  {
    DropPageNumbersExample1();
    PruneExample();
    TrimOfTrimmed("1");
  }

  lemma CleanExampleB()
    ensures CleanTextBase("1") == ""
  {
    DropPageNumbersExample2();
    assert Prune("") == "";
  }

  /**
   * `cleanTextBase` is not idempotent: the cut can leave a digits-only line,
   * which a second pass removes.
   */
  lemma CleanTextBaseNotIdempotent()
    ensures var x := "1【系統】"; CleanTextBase(CleanTextBase(x)) != CleanTextBase(x)
  {
    CleanExampleA();
    CleanExampleB();
  }
}
