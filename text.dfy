/**
 * The string operations of the JavaScript runtime that the extraction engine
 * relies on, written out over `seq<char>`: the whitespace class shared by `\s`
 * and `trim`, ASCII `\d` and `\w`, `trim`, `split`/`join` on one character, and
 * `indexOf`.
 */
module Text {
  import opened Wrappers

  type String = seq<char>

  /** JavaScript's WhiteSpace and LineTerminator characters: the set that both `\s` and `trim` use. */
  predicate IsSpace(c: char) {
    c == ' ' || c == '\t' || c == '\n' || c == '\r' || c == '\U{B}' || c == '\U{C}'
    || c == '\U{A0}' || c == '\U{1680}' || ('\U{2000}' <= c <= '\U{200A}')
    || c == '\U{2028}' || c == '\U{2029}' || c == '\U{202F}' || c == '\U{205F}'
    || c == '\U{3000}' || c == '\U{FEFF}'
  }

  /** The characters `.` does not match: `\n`, `\r`, U+2028 and U+2029. */
  predicate IsLineTerminator(c: char) {
    c == '\n' || c == '\r' || c == '\U{2028}' || c == '\U{2029}'
  }

  /** `\d` without the `u` flag: ASCII digits only. */
  predicate IsDigit(c: char) { '0' <= c <= '9' }

  /** `\w`, which is what `\b` looks at: ASCII letters, ASCII digits and `_`. */
  predicate IsWordChar(c: char) { 'a' <= c <= 'z' || 'A' <= c <= 'Z' || IsDigit(c) || c == '_' }

  predicate AllSpace(s: String) { forall i :: 0 <= i < |s| ==> IsSpace(s[i]) }

  predicate AllDigits(s: String) { forall i :: 0 <= i < |s| ==> IsDigit(s[i]) }

  predicate StartsWith(s: String, prefix: String) { |prefix| <= |s| && s[..|prefix|] == prefix }

  /** Proof helper: concatenation regroups freely. */
  lemma ConcatAssoc<T>(a: seq<T>, b: seq<T>, c: seq<T>)
    ensures (a + b) + c == a + (b + c)
  {
  }

  /** Number of whitespace characters at the start of `s`. */
  function LeadingSpace(s: String): (k: nat)
    ensures k <= |s| && AllSpace(s[..k])
    ensures k < |s| ==> !IsSpace(s[k])
  {
    if s == [] || !IsSpace(s[0]) then 0
    else
      var k := LeadingSpace(s[1..]);
      assert s[..1 + k] == [s[0]] + s[1..][..k];
      1 + k
  }

  /** A whitespace character in front lengthens the leading run by one. */
  lemma LeadingSpaceCons(c: char, t: String)
    requires IsSpace(c)
    ensures LeadingSpace([c] + t) == 1 + LeadingSpace(t)
  {
    assert ([c] + t)[1..] == t;
  }

  /** The leading run is the one whitespace prefix followed by a non-space or the end. */
  lemma LeadingSpaceUnique(s: String, k: nat)
    requires k <= |s| && AllSpace(s[..k])
    requires k < |s| ==> !IsSpace(s[k])
    ensures LeadingSpace(s) == k
  {
    var l := LeadingSpace(s);
    assert forall i :: 0 <= i < k ==> s[..k][i] == s[i];
    assert forall i :: 0 <= i < l ==> s[..l][i] == s[i];
  }

  /** A leading run that stops inside `a` is not changed by what follows `a`. */
  lemma LeadingSpaceConcat(a: String, b: String)
    requires LeadingSpace(a) < |a|
    ensures LeadingSpace(a + b) == LeadingSpace(a)
  {
    var k := LeadingSpace(a);
    assert (a + b)[..k] == a[..k];
    assert (a + b)[k] == a[k];
    LeadingSpaceUnique(a + b, k);
  }

  /** Index where the run of whitespace at the end of `s` begins. */
  function TrailingStart(s: String): (k: nat)
    ensures k <= |s| && AllSpace(s[k..])
    ensures k > 0 ==> !IsSpace(s[k - 1])
  {
    if s == [] || !IsSpace(s[|s| - 1]) then |s|
    else
      var k := TrailingStart(s[..|s| - 1]);
      assert s[k..] == s[..|s| - 1][k..] + [s[|s| - 1]];
      k
  }

  /** `s.replace(/^\s+/, "")`: `s` without its leading whitespace. */
  function TrimStart(s: String): (r: String)
    ensures r == s[LeadingSpace(s)..]
    ensures r == [] || !IsSpace(r[0])
  {
    s[LeadingSpace(s)..]
  }

  /** Removing leading whitespace from a string that ends in content leaves it trimmed. */
  lemma TrimStartTrimmed(s: String)
    requires s == [] || !IsSpace(s[|s| - 1])
    ensures IsTrimmed(TrimStart(s))
  {
  }

  function TrimLo(s: String): (a: nat)
    ensures a <= |s|
  {
    LeadingSpace(s)
  }

  function TrimHi(s: String): (b: nat)
    ensures TrimLo(s) <= b <= |s|
  {
    TrimLo(s) + TrailingStart(s[TrimLo(s)..])
  }

  /** `s.trim()`: the slice of `s` between its leading and trailing whitespace. */
  function Trim(s: String): (r: String)
    ensures r == s[TrimLo(s)..TrimHi(s)]
    ensures r == [] || (!IsSpace(r[0]) && !IsSpace(r[|r| - 1]))
    ensures r == [] <==> AllSpace(s)
  {
    var a := TrimLo(s);
    var t := s[a..];
    var b := TrailingStart(t);
    assert s[a..a + b] == t[..b];
    assert b == 0 ==> s == s[..a] + t;
    assert b > 0 ==> !IsSpace(s[a]) && !IsSpace(s[a + b - 1]);
    s[a..a + b]
  }

  /** A string is trimmed when `trim` leaves it unchanged. */
  predicate IsTrimmed(s: String) { s == [] || (!IsSpace(s[0]) && !IsSpace(s[|s| - 1])) }

  /** Trimming keeps a slice, so it brings in no new character. */
  lemma TrimChars(s: String)
    ensures forall c :: c in Trim(s) ==> c in s
  {
    var t := Trim(s);
    forall c | c in t ensures c in s {
      var i :| 0 <= i < |t| && t[i] == c;
      assert s[TrimLo(s) + i] == c;
    }
  }

  lemma TrimOfTrimmed(s: String)
    requires IsTrimmed(s)
    ensures Trim(s) == s
  {
    if s != [] {
      assert LeadingSpace(s) == 0;
      assert TrailingStart(s) == |s|;
    }
  }

  /** The trailing run is the one whitespace suffix preceded by a non-space or the start. */
  lemma TrailingStartUnique(s: String, k: nat)
    requires k <= |s| && AllSpace(s[k..])
    requires k > 0 ==> !IsSpace(s[k - 1])
    ensures TrailingStart(s) == k
  {
    var l := TrailingStart(s);
    if l < k {
      assert false;
    }
    if k < l {
      assert false;
    }
  }


  /** `trim` removes exactly the whitespace padding around trimmed text. */
  lemma TrimPadded(w1: String, t: String, w2: String)
    requires AllSpace(w1) && AllSpace(w2) && IsTrimmed(t)
    ensures Trim(w1 + t + w2) == t
  {
    var s := w1 + t + w2;
    if t == [] {
      assert forall i :: 0 <= i < |s| ==> s[i] == if i < |w1| then w1[i] else w2[i - |w1|];
    } else {
      assert s[..|w1|] == w1 && s[|w1|] == t[0];
      LeadingSpaceUnique(s, |w1|);
      var u := s[|w1|..];
      assert u == t + w2 && u[|t|..] == w2 && u[|t| - 1] == t[|t| - 1];
      TrailingStartUnique(u, |t|);
      assert s[|w1|..|w1| + |t|] == t;
    }
  }

  /** `s.split(sep)` for a one-character separator: never empty, and no piece holds `sep`. */
  function Split(s: String, sep: char): (parts: seq<String>)
    ensures |parts| >= 1
    decreases |s|
  {
    if s == [] then [[]]
    else
      var rest := Split(s[1..], sep);
      if s[0] == sep then [[]] + rest else [[s[0]] + rest[0]] + rest[1..]
  }

  /** No piece of a split holds the separator. */
  lemma {:induction false} SplitPartsLackSep(s: String, sep: char)
    ensures forall i :: 0 <= i < |Split(s, sep)| ==> sep !in Split(s, sep)[i]
    decreases |s|
  {
    if s != [] {
      SplitPartsLackSep(s[1..], sep);
      var rest := Split(s[1..], sep);
      assert forall i :: 1 <= i < |rest| ==> rest[1..][i - 1] == rest[i];
    }
  }

  /** Every character of a piece comes from the text. */
  lemma {:induction false} SplitPartsChars(s: String, sep: char)
    ensures forall i, c :: 0 <= i < |Split(s, sep)| && c in Split(s, sep)[i] ==> c in s
    decreases |s|
  {
    if s != [] {
      SplitPartsChars(s[1..], sep);
      var rest := Split(s[1..], sep);
      assert forall i :: 1 <= i < |rest| ==> rest[1..][i - 1] == rest[i];
      assert forall c :: c in s[1..] ==> c in s;
    }
  }

  /** Splitting a first piece without the separator off the front of a text. */
  lemma {:induction false} SplitCons(a: String, b: String, sep: char)
    requires sep !in a
    ensures Split(a + [sep] + b, sep) == [a] + Split(b, sep)
    decreases |a|
  {
    if a == [] {
      assert a + [sep] + b == [sep] + b;
      assert ([sep] + b)[1..] == b;
    } else {
      SplitCons(a[1..], b, sep);
      assert (a + [sep] + b)[1..] == a[1..] + [sep] + b;
      assert [a[0]] + a[1..] == a;
    }
  }

  /** `parts.join(sep)` for a one-character separator. */
  function Join(parts: seq<String>, sep: char): String {
    if |parts| == 0 then []
    else if |parts| == 1 then parts[0]
    else parts[0] + [sep] + Join(parts[1..], sep)
  }

  lemma {:induction false} JoinSplit(s: String, sep: char)
    ensures Join(Split(s, sep), sep) == s
    decreases |s|
  {
    if s != [] {
      JoinSplit(s[1..], sep);
      var rest := Split(s[1..], sep);
      if s[0] != sep && |rest| > 1 {
        assert Join(rest, sep) == rest[0] + [sep] + Join(rest[1..], sep);
        assert ([s[0]] + rest[0]) + [sep] + Join(rest[1..], sep) == [s[0]] + Join(rest, sep);
      }
      assert s == [s[0]] + s[1..];
    }
  }

  /** Joining one more part onto a non-empty list of parts. */
  lemma {:induction false} JoinSnoc(parts: seq<String>, p: String, sep: char)
    requires |parts| >= 1
    ensures Join(parts + [p], sep) == Join(parts, sep) + [sep] + p
    decreases |parts|
  {
    if |parts| > 1 {
      assert (parts + [p])[1..] == parts[1..] + [p];
      JoinSnoc(parts[1..], p, sep);
    } else {
      assert (parts + [p])[1..] == [p];
    }
  }

  /** Every character of a joined string is a character of a part or the separator. */
  lemma {:induction false} JoinAllSpace(parts: seq<String>, sep: char)
    requires IsSpace(sep)
    ensures AllSpace(Join(parts, sep)) <==> forall i :: 0 <= i < |parts| ==> AllSpace(parts[i])
    decreases |parts|
  {
    if |parts| > 1 {
      JoinAllSpace(parts[1..], sep);
      var j := Join(parts[1..], sep);
      var whole := parts[0] + [sep] + j;
      if AllSpace(whole) {
        assert AllSpace(parts[0]) by {
          forall i | 0 <= i < |parts[0]| ensures IsSpace(parts[0][i]) { assert whole[i] == parts[0][i]; }
        }
        assert AllSpace(j) by {
          forall i | 0 <= i < |j| ensures IsSpace(j[i]) { assert whole[|parts[0]| + 1 + i] == j[i]; }
        }
        forall i | 0 <= i < |parts| ensures AllSpace(parts[i]) {
          if i > 0 { assert parts[i] == parts[1..][i - 1]; }
        }
      }
      if forall i :: 0 <= i < |parts| ==> AllSpace(parts[i]) {
        assert forall i :: 0 <= i < |parts| - 1 ==> AllSpace(parts[1..][i]);
      }
    }
  }

  /** `acc += (acc ? "\n" : "") + line`: appending a line to a block of lines. */
  function AppendLine(acc: String, line: String): String {
    if acc == [] then line else acc + ['\n'] + line
  }

  /** Appending line by line builds the join of the lines. */
  lemma AppendLineJoin(parts: seq<String>, line: String)
    requires forall i :: 0 <= i < |parts| ==> parts[i] != []
    ensures AppendLine(Join(parts, '\n'), line) == Join(parts + [line], '\n')
  {
    if parts == [] {
      assert parts + [line] == [line];
    } else {
      assert Join(parts, '\n') != [] by { JoinNonEmpty(parts, '\n'); }
      JoinSnoc(parts, line, '\n');
    }
  }

  lemma JoinNonEmpty(parts: seq<String>, sep: char)
    requires |parts| >= 1 && parts[0] != []
    ensures Join(parts, sep) != []
  {
    if |parts| > 1 {
      assert Join(parts, sep)[0] == parts[0][0];
    }
  }

  /** `xs.filter(Boolean)` on strings: the non-empty ones, in order. */
  function NonEmpty(lines: seq<String>): (r: seq<String>)
    ensures forall i :: 0 <= i < |r| ==> r[i] != [] && r[i] in lines
    ensures forall i :: 0 <= i < |lines| && lines[i] != [] ==> lines[i] in r
  {
    if lines == [] then []
    else
      var t := lines[|lines| - 1];
      var init := NonEmpty(lines[..|lines| - 1]);
      assert forall x :: x in lines[..|lines| - 1] ==> x in lines;
      assert forall i :: 0 <= i < |lines| - 1 ==> lines[..|lines| - 1][i] == lines[i];
      init + (if t == [] then [] else [t])
  }

  /** A slice is the slice one shorter followed by its last element. */
  lemma SliceSnoc<T>(s: seq<T>, a: nat, b: nat)
    requires a < b <= |s|
    ensures s[a..b] == s[a..b - 1] + [s[b - 1]]
  {
  }

  /** Filtering a sequence extended by one string. */
  lemma NonEmptySnoc(lines: seq<String>, x: String)
    ensures NonEmpty(lines + [x]) == NonEmpty(lines) + (if x == [] then [] else [x])
  {
    assert (lines + [x])[..|lines|] == lines;
  }

  /** Filtering one string. */
  lemma NonEmptySingle(x: String)
    ensures NonEmpty([x]) == if x == [] then [] else [x]
  {
    NonEmptySnoc([], x);
    assert [] + [x] == [x];
  }

  /** Filtering keeps the order: the filter of a concatenation is the concatenation of the filters. */
  lemma {:induction false} NonEmptyConcat(a: seq<String>, b: seq<String>)
    ensures NonEmpty(a + b) == NonEmpty(a) + NonEmpty(b)
    decreases |b|
  {
    if b == [] {
      assert a + b == a;
    } else {
      var x := b[|b| - 1];
      var init := b[..|b| - 1];
      assert a + b == (a + init) + [x];
      assert b == init + [x];
      NonEmptyConcat(a, init);
      NonEmptySnoc(a + init, x);
      NonEmptySnoc(init, x);
    }
  }

  /** `text.slice(...)` occurrence test: `pat` occurs in `text` at position `i`. */
  predicate OccursAt(text: String, pat: String, i: nat) {
    i + |pat| <= |text| && text[i..i + |pat|] == pat
  }

  /** `text.indexOf(pat, from)`: the first occurrence at or after `from`, or `None` for -1. */
  function IndexOfFrom(text: String, pat: String, from: nat): (r: Option<nat>)
    ensures r.Some? ==> from <= r.value && OccursAt(text, pat, r.value)
    ensures forall j :: from <= j && (r.None? || j < r.value) ==> !OccursAt(text, pat, j)
    decreases |text| - from
  {
    if from + |pat| > |text| then None
    else if text[from..from + |pat|] == pat then Some(from)
    else IndexOfFrom(text, pat, from + 1)
  }

  function IndexOf(text: String, pat: String): Option<nat> {
    IndexOfFrom(text, pat, 0)
  }

  predicate Contains(text: String, pat: String) { exists i :: 0 <= i <= |text| && OccursAt(text, pat, i) }

  /** An occurrence inside a slice is an occurrence in the whole string. */
  lemma OccursInSlice(s: String, a: nat, b: nat, pat: String, j: nat)
    requires a <= b <= |s|
    requires OccursAt(s[a..b], pat, j)
    ensures OccursAt(s, pat, a + j)
  {
    var n := |pat|;
    assert j + n <= b - a;
    var x, y := s[a..b][j..j + n], s[a + j..a + j + n];
    forall k | 0 <= k < n ensures x[k] == y[k] {
      assert s[a..b][j + k] == s[a + j + k];
    }
    assert x == y;
  }

  /** `s.replace(/\s+/g, "")`: every whitespace character removed. */
  function RemoveSpace(s: String): (r: String)
    ensures forall i :: 0 <= i < |r| ==> !IsSpace(r[i])
    ensures |r| <= |s|
  {
    if s == [] then []
    else if IsSpace(s[0]) then RemoveSpace(s[1..])
    else [s[0]] + RemoveSpace(s[1..])
  }

  /** Removing whitespace keeps exactly the characters that are not whitespace. */
  lemma {:induction false} RemoveSpaceChars(s: String)
    ensures forall c :: c in RemoveSpace(s) <==> c in s && !IsSpace(c)
    decreases |s|
  {
    if s != [] {
      RemoveSpaceChars(s[1..]);
      assert forall c :: c in s <==> c == s[0] || c in s[1..];
    }
  }

  lemma {:induction false} RemoveSpaceConcat(a: String, b: String)
    ensures RemoveSpace(a + b) == RemoveSpace(a) + RemoveSpace(b)
    decreases |a|
  {
    if a != [] {
      assert (a + b)[0] == a[0];
      assert (a + b)[1..] == a[1..] + b;
      RemoveSpaceConcat(a[1..], b);
      var x, y := RemoveSpace(a[1..]), RemoveSpace(b);
      if IsSpace(a[0]) {
        assert RemoveSpace(a + b) == x + y;
        assert RemoveSpace(a) == x;
      } else {
        assert RemoveSpace(a + b) == [a[0]] + (x + y);
        assert RemoveSpace(a) == [a[0]] + x;
        assert [a[0]] + (x + y) == ([a[0]] + x) + y;
      }
    } else {
      assert a + b == b;
    }
  }

  lemma {:induction false} RemoveSpaceOfAllSpace(s: String)
    requires AllSpace(s)
    ensures RemoveSpace(s) == []
    decreases |s|
  {
    if s != [] {
      RemoveSpaceOfAllSpace(s[1..]);
    }
  }

  lemma {:induction false} RemoveSpaceOfNoSpace(s: String)
    requires forall i :: 0 <= i < |s| ==> !IsSpace(s[i])
    ensures RemoveSpace(s) == s
    decreases |s|
  {
    if s != [] {
      RemoveSpaceOfNoSpace(s[1..]);
      assert [s[0]] + s[1..] == s;
    }
  }

  /** Removing whitespace skips a leading whitespace run. */
  lemma RemoveSpaceSkip(s: String, k: nat)
    requires k <= |s| && AllSpace(s[..k])
    ensures RemoveSpace(s) == RemoveSpace(s[k..])
  {
    assert s == s[..k] + s[k..];
    RemoveSpaceConcat(s[..k], s[k..]);
    RemoveSpaceOfAllSpace(s[..k]);
  }

  /** `trim` removes only whitespace. */
  lemma RemoveSpaceTrim(s: String)
    ensures RemoveSpace(Trim(s)) == RemoveSpace(s)
  {
    var a, b := TrimLo(s), TrimHi(s);
    assert s == s[..a] + s[a..b] + s[b..];
    assert s[b..] == s[a..][TrailingStart(s[a..])..];
    RemoveSpaceConcat(s[..a] + s[a..b], s[b..]);
    RemoveSpaceConcat(s[..a], s[a..b]);
    RemoveSpaceOfAllSpace(s[..a]);
    RemoveSpaceOfAllSpace(s[b..]);
    assert [] + RemoveSpace(s[a..b]) + [] == RemoveSpace(s[a..b]);
  }
}
