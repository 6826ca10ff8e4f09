/**
 * `parseTaskSections`: the task record. The document's lines are cut into
 * sections at lines that are exactly a configured section title, and every
 * configured (title, field name) entry turns its section into the value of
 * that field through the field's rule.
 */
module TaskSections {
  import opened Wrappers
  import opened Text
  import opened Cleanup
  import opened BracketNotes
  import opened Patterns

  /** One entry of the task mapping: a section title and the field it fills; an empty name stands for a missing one. */
  datatype Entry = Entry(title: String, name: String)

  /** The titles of the mapping, `new Set(Object.keys(...))`. */
  function Titles(mapping: seq<Entry>): (ts: set<String>)
    ensures forall i :: 0 <= i < |mapping| ==> mapping[i].title in ts
    ensures forall t :: t in ts ==> exists i :: 0 <= i < |mapping| && mapping[i].title == t
  {
    set i | 0 <= i < |mapping| :: mapping[i].title
  }

  // ----- The section split -----

  /** The state of the first loop: the current title (`curKey`) and the sections so far (`resultRaw`). */
  datatype SegState = SegState(cur: Option<String>, raw: map<String, String>)

  predicate SegValid(st: SegState) {
    st.cur.Some? ==> st.cur.value in st.raw
  }

  /** One iteration of the first loop, on the trimmed line. */
  function SegStep(st: SegState, line: String, titles: set<String>): (r: SegState)
    requires SegValid(st)
    ensures SegValid(r)
  {
    if line == [] then st
    else if line in titles then SegState(Some(line), st.raw[line := []])
    else match st.cur
      case None => st
      case Some(k) => SegState(st.cur, st.raw[k := AppendLine(st.raw[k], line)])
  }

  /** The state after the first loop has gone over the trimmed lines `lines`. */
  function SegFold(lines: seq<String>, titles: set<String>): (r: SegState)
    ensures SegValid(r)
  {
    if lines == [] then SegState(None, map[])
    else SegStep(SegFold(lines[..|lines| - 1], titles), lines[|lines| - 1], titles)
  }

  /** The fold over one more line is one more step. */
  lemma SegFoldSnoc(lines: seq<String>, i: nat, titles: set<String>)
    requires i < |lines|
    ensures SegFold(lines[..i + 1], titles) == SegStep(SegFold(lines[..i], titles), lines[i], titles)
  {
    assert lines[..i + 1][..i] == lines[..i];
  }

  /** The sections are keyed by the titles that occur as a whole line. */
  lemma {:induction false} SegKeys(lines: seq<String>, titles: set<String>, t: String)
    ensures t in SegFold(lines, titles).raw <==> t != [] && t in titles && t in lines
    decreases |lines|
  {
    if lines != [] {
      var init := lines[..|lines| - 1];
      SegKeys(init, titles, t);
      assert lines == init + [lines[|lines| - 1]];
    }
  }

  /** Between a title line and the next title line, the section is the lines with content seen so far. */
  lemma {:induction false} SegInSection(lines: seq<String>, titles: set<String>, i: nat, m: nat)
    requires i < m <= |lines|
    requires lines[i] != [] && lines[i] in titles
    requires forall j :: i < j < m ==> lines[j] !in titles
    ensures var st := SegFold(lines[..m], titles); var t := lines[i];
      st.cur == Some(t) && t in st.raw && st.raw[t] == Join(NonEmpty(lines[i + 1..m]), '\n')
    decreases m
  {
    SegFoldSnoc(lines, m - 1, titles);
    if m == i + 1 {
      assert lines[i + 1..m] == [];
    } else {
      SegInSection(lines, titles, i, m - 1);
      SegInSectionStep(lines, titles, i, m);
    }
  }

  /** One more line inside a section adds it to the section when it has content. */
  lemma SegInSectionStep(lines: seq<String>, titles: set<String>, i: nat, m: nat)
    requires i + 1 < m <= |lines|
    requires lines[i] != [] && lines[m - 1] !in titles
    requires var st := SegFold(lines[..m - 1], titles); var t := lines[i];
      st.cur == Some(t) && t in st.raw && st.raw[t] == Join(NonEmpty(lines[i + 1..m - 1]), '\n')
    requires SegFold(lines[..m], titles) == SegStep(SegFold(lines[..m - 1], titles), lines[m - 1], titles)
    ensures var st := SegFold(lines[..m], titles); var t := lines[i];
      st.cur == Some(t) && t in st.raw && st.raw[t] == Join(NonEmpty(lines[i + 1..m]), '\n')
  {
    var t := lines[i];
    var before := SegFold(lines[..m - 1], titles);
    var prev := NonEmpty(lines[i + 1..m - 1]);
    var x := lines[m - 1];
    assert NonEmpty(lines[i + 1..m]) == prev + (if x == [] then [] else [x]) by {
      assert lines[i + 1..m] == lines[i + 1..m - 1] + [x];
      NonEmptySnoc(lines[i + 1..m - 1], x);
    }
    if x != [] {
      assert SegFold(lines[..m], titles).raw[t] == AppendLine(before.raw[t], x);
      AppendLineJoin(prev, x);
    } else {
      assert prev + [] == prev;
    }
  }

  /** Once the cursor is off a title, that title's section stays as it is until the title's line comes back. */
  lemma {:induction false} SegUntouched(lines: seq<String>, titles: set<String>, t: String, k: nat, m: nat)
    requires k <= m <= |lines|
    requires SegFold(lines[..k], titles).cur != Some(t)
    requires forall j :: k <= j < m ==> lines[j] != t
    ensures var a, b := SegFold(lines[..k], titles), SegFold(lines[..m], titles);
      b.cur != Some(t) && (t in b.raw <==> t in a.raw) && (t in a.raw ==> b.raw[t] == a.raw[t])
    decreases m
  {
    if m > k {
      SegUntouched(lines, titles, t, k, m - 1);
      SegFoldSnoc(lines, m - 1, titles);
    }
  }

  /** A title line moves the cursor to itself and leaves every other section alone. */
  lemma SegStepOther(st: SegState, line: String, titles: set<String>, t: String)
    requires SegValid(st)
    requires line != [] && line in titles && t != line
    ensures var r := SegStep(st, line, titles);
      r.cur != Some(t) && (t in r.raw <==> t in st.raw) && (t in st.raw ==> r.raw[t] == st.raw[t])
  {
  }

  /**
   * The section of a title is made of the lines with content between its last
   * title line and the next title line (or the end), joined with line feeds.
   */
  lemma SegLastOccurrence(lines: seq<String>, titles: set<String>, i: nat, k: nat)
    requires i < k <= |lines|
    requires lines[i] != [] && lines[i] in titles
    requires forall j :: i < j < k ==> lines[j] !in titles
    requires k < |lines| ==> lines[k] != [] && lines[k] in titles
    requires forall j :: i < j < |lines| ==> lines[j] != lines[i]
    ensures var t := lines[i];
      t in SegFold(lines, titles).raw && SegFold(lines, titles).raw[t] == Join(NonEmpty(lines[i + 1..k]), '\n')
  {
    var t := lines[i];
    var body := Join(NonEmpty(lines[i + 1..k]), '\n');
    SegInSection(lines, titles, i, k);
    if k < |lines| {
      var at := SegFold(lines[..k], titles);
      SegFoldSnoc(lines, k, titles);
      assert lines[k] != t;
      SegStepOther(at, lines[k], titles, t);
      SegUntouched(lines, titles, t, k + 1, |lines|);
    }
    assert SegFold(lines[..|lines|], titles).raw[t] == body;
    assert lines[..|lines|] == lines;
  }

  // ----- The field rules -----

  /** The fields that take a single line. */
  const SingleLineFields: seq<String> := ["name", "syllabus", "area", "centuryId", "mainSubjectId", "level"]

  const MissionHintPrefix: String := "missionHintSet"

  /** The single-line rule of a field: level code, century, or first line with the subject/area prefixes removed. */
  function SingleLineValue(name: String, v: String): (r: String)
    ensures '\n' !in r
  {
    if name == "level" then
      LevelNoLineFeed(v);
      ExtractLevel(v)
    else if name == "centuryId" then
      CenturyNoLineFeed(v);
      ExtractCentury(v)
    else
      var f := FirstLine(v);
      if name == "mainSubjectId" then
        var s := StripOtherSubjects(StripIndexPrefix(f));
        assert forall c :: c in StripIndexPrefix(f) ==> c in f;
        assert forall c :: c in s ==> c in f;
        TrimChars(s);
        Trim(s)
      else if name == "area" then
        var s := StripIndexPrefix(f);
        assert forall c :: c in s ==> c in f;
        TrimChars(s);
        Trim(s)
      else f
  }

  lemma LevelNoLineFeed(v: String)
    ensures '\n' !in ExtractLevel(v)
  {
    var r := ExtractLevel(v);
    if FindLevel(v, 0).Some? {
      assert IsLevelCode(r);
      assert forall k :: 0 <= k < |r| ==> r[k] != '\n';
    }
  }

  lemma CenturyNoLineFeed(v: String)
    ensures '\n' !in ExtractCentury(v)
  {
    if FindCentury(v, 0).Some? {
      ScanIsLeftmost(v);
      CenturyFound(v, FindCentury(v, 0).value.0, FindCentury(v, 0).value.1);
      var r := ExtractCentury(v);
      if r != BeforeChrist[0] && r != BeforeChrist[1] {
        assert r == r[..|r| - 2] + CenturyWord;
      }
    }
  }

  /**
   * The value a field gets from a non-empty section: the cleaned text, then
   * the single-line rule, the hint rule or the note stripper by field name,
   * and a final trim.
   */
  function FieldValue(name: String, text: String): (r: String)
    ensures IsTrimmed(r)
  {
    var v0 := CleanTextBase(text);
    var v1 := if name in SingleLineFields then SingleLineValue(name, v0) else v0;
    var v2 := if StartsWith(name, MissionHintPrefix) then HintLine(v1) else v1;
    var v3 := if IsDescription(name) then StripNotes(v2) else v2;
    Trim(v3)
  }

  predicate IsDescription(name: String) { name == "description" || name == "answerDescription" }

  /** None of the single-line fields is a hint field or a description field. */
  lemma SingleLineFieldsApart(name: String)
    requires name in SingleLineFields
    ensures !StartsWith(name, MissionHintPrefix) && !IsDescription(name)
  {
  }

  /** The single-line fields and the hint fields never hold a line feed. */
  lemma FieldValueOneLine(name: String, text: String)
    requires name in SingleLineFields || StartsWith(name, MissionHintPrefix)
    ensures '\n' !in FieldValue(name, text)
  {
    var v0 := CleanTextBase(text);
    var v1 := if name in SingleLineFields then SingleLineValue(name, v0) else v0;
    var v2 := if StartsWith(name, MissionHintPrefix) then HintLine(v1) else v1;
    if name in SingleLineFields {
      SingleLineFieldsApart(name);
      assert v2 == v1;
    }
    assert '\n' !in v2;
    assert !IsDescription(name) by {
      if name in SingleLineFields {
        SingleLineFieldsApart(name);
      } else {
        assert name[0] == name[..|MissionHintPrefix|][0] == 'm';
        assert "description"[0] == 'd' && "answerDescription"[0] == 'a';
      }
    }
    assert FieldValue(name, text) == Trim(v2);
    TrimChars(v2);
  }

  // ----- The task record -----

  /** `if (!name || !resultRaw[title]) continue;`: the entries that give a field. */
  predicate Gives(e: Entry, raw: map<String, String>) {
    e.name != [] && e.title in raw && raw[e.title] != []
  }

  /** The record after the second loop has gone over `entries`. */
  function TaskFold(entries: seq<Entry>, raw: map<String, String>): (r: map<String, String>)
    ensures forall n :: n in r ==> n != []
    ensures |r.Keys| <= |entries|
  {
    if entries == [] then map[]
    else
      var acc := TaskFold(entries[..|entries| - 1], raw);
      var e := entries[|entries| - 1];
      if Gives(e, raw) then acc[e.name := FieldValue(e.name, raw[e.title])] else acc
  }

  /** `parseTaskSections(value)` as a value, for a mapping given as an ordered list of entries. */
  function ParseTask(value: String, mapping: seq<Entry>): (r: map<String, String>)
    ensures forall n :: n in r ==> n != [] && IsTrimmed(r[n])
    ensures |r.Keys| <= |mapping|
  {
    TaskValuesTrimmed(mapping, SegFold(TrimAll(Split(value, '\n')), Titles(mapping)).raw);
    TaskFold(mapping, SegFold(TrimAll(Split(value, '\n')), Titles(mapping)).raw)
  }

  /** Some entry of `entries` names the field `name` and has a non-empty section. */
  predicate SomeEntryGives(entries: seq<Entry>, raw: map<String, String>, name: String) {
    exists i :: 0 <= i < |entries| && entries[i].name == name && Gives(entries[i], raw)
  }

  /** One step of the fold adds the last entry's field, when it gives one, and keeps every other key. */
  lemma TaskFoldKey(entries: seq<Entry>, raw: map<String, String>, name: String)
    requires entries != []
    ensures var last := entries[|entries| - 1];
      name in TaskFold(entries, raw) <==>
      name in TaskFold(entries[..|entries| - 1], raw) || (Gives(last, raw) && last.name == name)
  {
  }

  /** An entry gives `name` in `entries` exactly when it does in all but the last entry, or the last one does. */
  lemma SomeEntryGivesSnoc(entries: seq<Entry>, raw: map<String, String>, name: String)
    requires entries != []
    ensures var last := entries[|entries| - 1];
      SomeEntryGives(entries, raw, name) <==>
      SomeEntryGives(entries[..|entries| - 1], raw, name) || (Gives(last, raw) && last.name == name)
  {
    var init := entries[..|entries| - 1];
    var last := entries[|entries| - 1];
    if SomeEntryGives(init, raw, name) {
      var i :| 0 <= i < |init| && init[i].name == name && Gives(init[i], raw);
      assert entries[i] == init[i];
    }
    if Gives(last, raw) && last.name == name {
      assert entries[|entries| - 1] == last;
    }
    if SomeEntryGives(entries, raw, name) {
      var i :| 0 <= i < |entries| && entries[i].name == name && Gives(entries[i], raw);
      if i < |init| {
        assert init[i] == entries[i];
      }
    }
  }

  /** A field is in the record exactly when some entry gives it, even if its value normalises to the empty string. */
  lemma {:induction false} TaskKeys(entries: seq<Entry>, raw: map<String, String>, name: String)
    ensures name in TaskFold(entries, raw) <==> SomeEntryGives(entries, raw, name)
    decreases |entries|
  {
    if entries != [] {
      TaskKeys(entries[..|entries| - 1], raw, name);
      TaskFoldKey(entries, raw, name);
      SomeEntryGivesSnoc(entries, raw, name);
    } else {
      assert TaskFold(entries, raw) == map[];
    }
  }

  /** The last entry, when it gives a field, stores that field's value. */
  lemma TaskFoldLast(entries: seq<Entry>, raw: map<String, String>)
    requires entries != [] && Gives(entries[|entries| - 1], raw)
    ensures var e := entries[|entries| - 1];
      e.name in TaskFold(entries, raw) && TaskFold(entries, raw)[e.name] == FieldValue(e.name, raw[e.title])
  {
  }

  /** A stored field that the last entry does not give keeps its value through the last step. */
  lemma TaskFoldOther(entries: seq<Entry>, raw: map<String, String>, name: String)
    requires entries != [] && name in TaskFold(entries[..|entries| - 1], raw)
    requires entries[|entries| - 1].name != name || !Gives(entries[|entries| - 1], raw)
    ensures name in TaskFold(entries, raw)
    ensures TaskFold(entries, raw)[name] == TaskFold(entries[..|entries| - 1], raw)[name]
  {
  }

  /** When several entries give the same field, the last of them decides its value. */
  lemma {:induction false} TaskLastWins(entries: seq<Entry>, raw: map<String, String>, i: nat)
    requires i < |entries| && Gives(entries[i], raw)
    requires forall j :: i < j < |entries| && entries[j].name == entries[i].name ==> !Gives(entries[j], raw)
    ensures var e := entries[i];
      e.name in TaskFold(entries, raw) && TaskFold(entries, raw)[e.name] == FieldValue(e.name, raw[e.title])
    decreases |entries|
  {
    var init := entries[..|entries| - 1];
    var e := entries[i];
    if i < |init| {
      assert init[i] == e;
      TaskLastWins(init, raw, i);
      var v := TaskFold(init, raw)[e.name];
      assert v == FieldValue(e.name, raw[e.title]);
      TaskFoldOther(entries, raw, e.name);
      assert TaskFold(entries, raw)[e.name] == v;
    } else {
      assert e == entries[|entries| - 1];
      TaskFoldLast(entries, raw);
      assert TaskFold(entries, raw)[e.name] == FieldValue(e.name, raw[e.title]);
    }
  }

  /** Every value of the record is trimmed. */
  lemma {:induction false} TaskValuesTrimmed(entries: seq<Entry>, raw: map<String, String>)
    ensures forall n :: n in TaskFold(entries, raw) ==> IsTrimmed(TaskFold(entries, raw)[n])
    decreases |entries|
  {
    if entries != [] {
      TaskValuesTrimmed(entries[..|entries| - 1], raw);
    }
  }

  /** The single-line fields and the hint fields never hold a line feed. */
  lemma {:induction false} TaskSingleLines(entries: seq<Entry>, raw: map<String, String>)
    ensures forall n :: n in TaskFold(entries, raw) && (n in SingleLineFields || StartsWith(n, MissionHintPrefix)) ==>
      '\n' !in TaskFold(entries, raw)[n]
    decreases |entries|
  {
    if entries != [] {
      TaskSingleLines(entries[..|entries| - 1], raw);
      var e := entries[|entries| - 1];
      if Gives(e, raw) && (e.name in SingleLineFields || StartsWith(e.name, MissionHintPrefix)) {
        FieldValueOneLine(e.name, raw[e.title]);
      }
    }
  }

  // ----- The imperative parser -----

  /** `parseTaskSections`: the section loop with its `curKey` cursor, then the loop that fills the record. */
  method ParseTaskSections(value: String, mapping: seq<Entry>) returns (taskData: map<String, String>)
    ensures taskData == ParseTask(value, mapping)
  {
    var titles := Titles(mapping);
    var lines := Split(value, '\n');
    var resultRaw := SplitSections(lines, titles);
    taskData := FillTask(mapping, resultRaw);
  }

  /** The second loop of `parseTaskSections`: every entry that gives a field stores its value. */
  method FillTask(mapping: seq<Entry>, resultRaw: map<String, String>) returns (taskData: map<String, String>)
    ensures taskData == TaskFold(mapping, resultRaw)
  {
    taskData := map[];
    for k := 0 to |mapping|
      invariant taskData == TaskFold(mapping[..k], resultRaw)
    {
      var title, name := mapping[k].title, mapping[k].name;
      assert TaskFold(mapping[..k + 1], resultRaw) ==
        if Gives(mapping[k], resultRaw) then taskData[name := FieldValue(name, resultRaw[title])] else taskData
      by {
        assert mapping[..k + 1][..k] == mapping[..k];
      }
      if name == [] || title !in resultRaw || resultRaw[title] == [] {
        continue;
      }
      var v := FieldValue(name, resultRaw[title]);
      taskData := taskData[name := v];
    }
    assert mapping[..|mapping|] == mapping;
  }

  /** The first loop of `parseTaskSections`: `curKey` and `resultRaw` over the lines. */
  method SplitSections(lines: seq<String>, titles: set<String>) returns (resultRaw: map<String, String>)
    ensures resultRaw == SegFold(TrimAll(lines), titles).raw
  {
    resultRaw := map[];
    var curKey: Option<String> := None;
    ghost var trimmed := TrimAll(lines);
    for i := 0 to |lines|
      invariant curKey == SegFold(trimmed[..i], titles).cur
      invariant resultRaw == SegFold(trimmed[..i], titles).raw
    {
      var line := Trim(lines[i]);
      ghost var next := SegStep(SegState(curKey, resultRaw), line, titles);
      SegFoldSnoc(trimmed, i, titles);
      assert trimmed[i] == line;
      if line != [] {
        if line in titles {
          curKey := Some(line);
          resultRaw := resultRaw[line := []];
        } else if curKey.Some? {
          resultRaw := resultRaw[curKey.value := AppendLine(resultRaw[curKey.value], line)];
        }
      }
      assert curKey == next.cur && resultRaw == next.raw;
    }
    assert trimmed[..|lines|] == trimmed;
  }
}
