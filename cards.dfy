/**
 * `parseCards`: the card records. The document's trimmed, non-empty lines are
 * read as a sequence of labels and content; the card title label opens a new
 * card, every label chooses the field that the following lines go to, and
 * each finished card is normalised field by field. At most twelve cards are
 * returned.
 */
module Cards {
  import opened Wrappers
  import opened Text
  import opened Cleanup
  import opened BracketNotes
  import opened Patterns

  /** An image taken from the document, attached to a card by position. */
  datatype Image = Image(contentType: String, base64Data: String, altText: String)

  /** The card fields that labels can select. */
  datatype Field = Title | Description | Subject | Type | Syllabus

  /** A card record; an empty string stands for a field the card does not have. */
  datatype Card = Card(
    cardTitle: String,
    cardDescription: String,
    cardSubjectId: String,
    cardType: String,
    syllabus: String,
    imageData: Option<Image>)

  const EmptyCard: Card := Card([], [], [], [], [], None)

  function Get(c: Card, f: Field): String {
    match f
    case Title => c.cardTitle
    case Description => c.cardDescription
    case Subject => c.cardSubjectId
    case Type => c.cardType
    case Syllabus => c.syllabus
  }

  function Set(c: Card, f: Field, v: String): (r: Card)
    ensures Get(r, f) == v
    ensures forall g :: g != f ==> Get(r, g) == Get(c, g)
    ensures r.imageData == c.imageData
  {
    match f
    case Title => c.(cardTitle := v)
    case Description => c.(cardDescription := v)
    case Subject => c.(cardSubjectId := v)
    case Type => c.(cardType := v)
    case Syllabus => c.(syllabus := v)
  }

  /** The label that opens a card: the title label itself, whatever the label list is. */
  const Sentinel: String := "卡片名稱"

  const DefaultLabels: seq<String> := ["卡片名稱", "文字內容", "學科", "類別", "課綱"]

  /** `mapping.__cardLabels || [...]`: an overriding list, even an empty one, replaces the default. */
  function Labels(override: Option<seq<String>>): seq<String> {
    match override
    case None => DefaultLabels
    case Some(ls) => ls
  }

  /** `labelToKey[line] || null`. */
  function LabelKey(line: String): Option<Field> {
    if line == "卡片名稱" then Some(Title)
    else if line == "文字內容" then Some(Description)
    else if line == "學科" then Some(Subject)
    else if line == "類別" then Some(Type)
    else if line == "課綱" then Some(Syllabus)
    else None
  }

  /** `cur && (cur.cardTitle || cur.cardDescription)`: a card worth keeping. */
  predicate HasContent(c: Card) { c.cardTitle != [] || c.cardDescription != [] }

  /** `cards.push(cur)` when the open card has content. */
  function Emit(cards: seq<Card>, cur: Option<Card>): seq<Card> {
    if cur.Some? && HasContent(cur.value) then cards + [cur.value] else cards
  }

  // ----- The card split -----

  /** The state of the line loop: `cards`, `cur` and `curField`. */
  datatype CardState = CardState(cards: seq<Card>, cur: Option<Card>, curField: Option<Field>)

  /** One iteration of the line loop. */
  function CardStep(st: CardState, line: String, labels: seq<String>): (r: CardState)
    ensures line in labels ==> r.curField == LabelKey(line)
    ensures line !in labels ==> r.curField == st.curField
    ensures line == Sentinel && Sentinel in labels ==> r.cards == Emit(st.cards, st.cur) && r.cur == Some(EmptyCard)
    ensures !(line == Sentinel && Sentinel in labels) ==> r.cards == st.cards && r.cur.Some? == st.cur.Some?
    ensures line !in labels && !(st.curField.Some? && st.cur.Some?) ==> r == st
  {
    if line in labels then
      var st1 := if line == Sentinel then CardState(Emit(st.cards, st.cur), Some(EmptyCard), st.curField) else st;
      st1.(curField := LabelKey(line))
    else if st.curField.Some? && st.cur.Some? then
      var f := st.curField.value;
      st.(cur := Some(Set(st.cur.value, f, AppendLine(Get(st.cur.value, f), line))))
    else st
  }

  /** The state after the line loop has gone over `lines`. */
  function CardFold(lines: seq<String>, labels: seq<String>): (r: CardState)
    ensures r.cur.Some? <==> Sentinel in labels && Sentinel in lines
    ensures r.cur.None? ==> r.cards == []
  {
    if lines == [] then CardState([], None, None)
    else
      var init := lines[..|lines| - 1];
      assert lines == init + [lines[|lines| - 1]];
      assert Sentinel in lines <==> Sentinel in init || lines[|lines| - 1] == Sentinel;
      CardStep(CardFold(init, labels), lines[|lines| - 1], labels)
  }

  /** The cards before normalisation: the loop's cards and the last open card. */
  function RawCards(lines: seq<String>, labels: seq<String>): seq<Card> {
    var st := CardFold(lines, labels);
    Emit(st.cards, st.cur)
  }

  /**
   * `value.split("\n").map(s => s.trim()).filter(Boolean)`: the trimmed lines
   * that have content, all of them.
   */
  function CardLines(value: String): (lines: seq<String>)
    ensures forall i :: 0 <= i < |lines| ==> lines[i] != [] && IsTrimmed(lines[i])
    ensures forall i :: 0 <= i < |lines| ==> lines[i] in TrimAll(Split(value, '\n'))
    ensures forall i :: 0 <= i < |Split(value, '\n')| && !AllSpace(Split(value, '\n')[i]) ==>
      Trim(Split(value, '\n')[i]) in lines
  {
    var trimmed := TrimAll(Split(value, '\n'));
    assert forall i :: 0 <= i < |trimmed| ==> trimmed[i] == Trim(Split(value, '\n')[i]);
    NonEmpty(trimmed)
  }

  /** The lines are taken in order: a first line is trimmed and kept when it has content, then come the rest. */
  lemma CardLinesCons(a: String, b: String)
    requires '\n' !in a
    ensures CardLines(a + "\n" + b) == (if AllSpace(a) then [] else [Trim(a)]) + CardLines(b)
  {
    var rest := TrimAll(Split(b, '\n'));
    SplitCons(a, b, '\n');
    TrimAllCons(a, Split(b, '\n'));
    NonEmptyConcat([Trim(a)], rest);
    NonEmptySingle(Trim(a));
  }

  // ----- Normalisation -----

  /** `cleaned.split("\n").map(s => s.trim()).filter(Boolean)[0] || ""` after both cleanups. */
  function DescriptionLine(d: String): String {
    FirstNonEmpty(TrimAll(Split(StripNotes(CleanTextBase(d)), '\n')))
  }

  /** `if (cur.x) cur.x = firstLine(cur.x)`: the title and the syllabus keep their first line with content. */
  function NormalizeLine(v: String): (r: String)
    ensures '\n' !in r && IsTrimmed(r)
    ensures r == [] <==> AllSpace(v)
    ensures v != [] ==> r == FirstLine(v)
  {
    if v != [] then FirstLine(v) else v
  }

  /** The subject and the type: the tag value normalisation, applied only to a value that is there. */
  function NormalizeTag(v: String): (r: String)
    ensures forall i :: 0 <= i < |r| ==> !IsSpace(r[i])
    ensures v == [] ==> r == []
    ensures forall c :: c in r ==> c in FirstLine(v)
    ensures v != [] && IsPictureCaption(FirstLine(v)) ==> r == []
    ensures v != [] && !IsPictureCaption(FirstLine(v)) && '（' !in FirstLine(v) ==> r == RemoveSpace(FirstLine(v))
    ensures v != [] ==> r == NormalizeTagValue(v)
  {
    if v != [] then NormalizeTagValue(v) else v
  }

  /** The description: its first line with content after both cleanups. */
  function NormalizeDescription(d: String): (r: String)
    ensures '\n' !in r && IsTrimmed(r)
    ensures d != [] ==> r == FirstLine(StripNotes(CleanTextBase(d)))
  {
    if d != [] then DescriptionIsFirstLine(d); DescriptionLine(d) else d
  }

  /** The in-place normalisation of one card: every text field becomes one trimmed line, the tags lose their whitespace. */
  function NormalizeCard(c: Card): (r: Card)
    ensures r.imageData == c.imageData
    ensures '\n' !in r.cardTitle && IsTrimmed(r.cardTitle)
    ensures '\n' !in r.cardDescription && IsTrimmed(r.cardDescription)
    ensures '\n' !in r.syllabus && IsTrimmed(r.syllabus)
    ensures forall i :: 0 <= i < |r.cardSubjectId| ==> !IsSpace(r.cardSubjectId[i])
    ensures forall i :: 0 <= i < |r.cardType| ==> !IsSpace(r.cardType[i])
    ensures c.cardTitle != [] ==> r.cardTitle == FirstLine(c.cardTitle)
    ensures c.syllabus != [] ==> r.syllabus == FirstLine(c.syllabus)
    ensures c.cardDescription != [] ==> r.cardDescription == FirstLine(StripNotes(CleanTextBase(c.cardDescription)))
    ensures forall ch :: ch in r.cardSubjectId ==> ch in FirstLine(c.cardSubjectId)
    ensures forall ch :: ch in r.cardType ==> ch in FirstLine(c.cardType)
    ensures r.cardSubjectId == NormalizeTag(c.cardSubjectId) && r.cardType == NormalizeTag(c.cardType)
    ensures HasContent(r) ==> HasContent(c)
  {
    c.(
      cardTitle := NormalizeLine(c.cardTitle),
      cardDescription := NormalizeDescription(c.cardDescription),
      cardSubjectId := NormalizeTag(c.cardSubjectId),
      cardType := NormalizeTag(c.cardType),
      syllabus := NormalizeLine(c.syllabus))
  }

  /** The description becomes the first line with content of the cleaned, note-stripped text. */
  lemma DescriptionIsFirstLine(d: String)
    ensures DescriptionLine(d) == FirstLine(StripNotes(CleanTextBase(d)))
    ensures '\n' !in DescriptionLine(d) && IsTrimmed(DescriptionLine(d))
  {
    var s := StripNotes(CleanTextBase(d));
    FirstNonEmptyTrimmedIsFirstLine(Split(s, '\n'));
  }

  function NormalizeAll(cards: seq<Card>): (r: seq<Card>)
    ensures |r| == |cards|
    ensures forall i :: 0 <= i < |r| ==> r[i] == NormalizeCard(cards[i])
  {
    seq(|cards|, i requires 0 <= i < |cards| => NormalizeCard(cards[i]))
  }

  lemma NormalizeAllSnoc(cards: seq<Card>, c: Card)
    ensures NormalizeAll(cards + [c]) == NormalizeAll(cards) + [NormalizeCard(c)]
  {
  }

  /** Replacing the first element after a prefix. */
  lemma UpdateAtSeam<T>(done: seq<T>, rest: seq<T>, c: T)
    requires |rest| >= 1
    ensures (done + rest)[|done| := c] == (done + [c]) + rest[1..]
  {
  }

  const MaxCards: nat := 12

  /** `cards.slice(0, 12)`. */
  function TakeCards(cards: seq<Card>): (r: seq<Card>)
    ensures |r| == if |cards| < MaxCards then |cards| else MaxCards
    ensures r == cards[..|r|]
  {
    if |cards| < MaxCards then cards else cards[..MaxCards]
  }

  /** `parseCards(value)` as a value, for the effective label list. */
  function ParseCardsSpec(value: String, labels: seq<String>): (r: seq<Card>)
    ensures var raw := RawCards(CardLines(value), labels);
      && |r| <= MaxCards
      && |r| == (if |raw| < MaxCards then |raw| else MaxCards)
      && forall j :: 0 <= j < |r| ==> r[j] == NormalizeCard(raw[j])
  {
    var raw := RawCards(CardLines(value), labels);
    var normalized := NormalizeAll(raw);
    TakeCards(normalized)
  }

  // ----- The imperative parser -----

  /** `parseCards`: the label loop, the in-place normalisation loop, and the cut to twelve cards. */
  method ParseCards(value: String, labels: seq<String>) returns (result: seq<Card>)
    ensures result == ParseCardsSpec(value, labels)
  {
    var lines := CardLines(value);
    var cards := SplitCards(lines, labels);
    var normalized := NormalizeList(cards);
    result := if |normalized| < MaxCards then normalized else normalized[..MaxCards];
  }

  /** The cards are copied into an array and normalised there, one by one. */
  method NormalizeList(cards: seq<Card>) returns (r: seq<Card>)
    ensures r == NormalizeAll(cards)
  {
    var arr := new Card[|cards|](i requires 0 <= i < |cards| => cards[i]);
    assert arr[..] == cards;
    NormalizeCards(arr);
    r := arr[..];
  }

  /** The label loop of `parseCards`, with its `cur` and `curField` state. */
  method SplitCards(lines: seq<String>, labels: seq<String>) returns (cards: seq<Card>)
    ensures cards == RawCards(lines, labels)
  {
    cards := [];
    var cur: Option<Card> := None;
    var curField: Option<Field> := None;
    for i := 0 to |lines|
      invariant CardState(cards, cur, curField) == CardFold(lines[..i], labels)
    {
      var line := lines[i];
      ghost var next := CardStep(CardState(cards, cur, curField), line, labels);
      assert CardFold(lines[..i + 1], labels) == next by {
        assert lines[..i + 1][..i] == lines[..i];
      }
      if line in labels {
        if line == Sentinel {
          if cur.Some? && HasContent(cur.value) {
            cards := cards + [cur.value];
          }
          cur := Some(EmptyCard);
        }
        curField := LabelKey(line);
        continue;
      }
      if curField.Some? && cur.Some? {
        var c := cur.value;
        var f := curField.value;
        cur := Some(Set(c, f, AppendLine(Get(c, f), line)));
      }
    }
    assert lines[..|lines|] == lines;
    if cur.Some? && HasContent(cur.value) {
      cards := cards + [cur.value];
    }
  }

  /** The normalisation loop of `parseCards`, updating every card of the array in place. */
  method NormalizeCards(a: array<Card>)
    modifies a
    ensures a[..] == NormalizeAll(old(a[..]))
  {
    ghost var before := a[..];
    for i := 0 to a.Length
      invariant a[..] == NormalizeAll(before[..i]) + before[i..]
    {
      var c := NormalizeCard(a[i]);
      ghost var done := NormalizeAll(before[..i]);
      assert NormalizeAll(before[..i + 1]) == done + [c] by {
        NormalizeAllSnoc(before[..i], before[i]);
        assert before[..i + 1] == before[..i] + [before[i]];
      }
      ghost var s := a[..];
      a[i] := c;
      assert a[..] == s[i := c];
      assert s[i := c] == (done + [c]) + before[i + 1..] by {
        assert before[i..][1..] == before[i + 1..];
        UpdateAtSeam(done, before[i..], c);
      }
    }
    assert before[..a.Length] == before;
  }

  // ----- Properties of the card split -----

  /** Every card returned before normalisation has a title or a description. */
  lemma {:induction false} CardsHaveContent(lines: seq<String>, labels: seq<String>)
    ensures forall c :: c in CardFold(lines, labels).cards ==> HasContent(c)
    ensures forall c :: c in RawCards(lines, labels) ==> HasContent(c)
    decreases |lines|
  {
    if lines != [] {
      CardsHaveContent(lines[..|lines| - 1], labels);
    }
  }

  /** Without the title label in the label list no card is ever opened, so there are no cards. */
  lemma {:induction false} NoSentinelNoCards(lines: seq<String>, labels: seq<String>)
    requires Sentinel !in labels
    ensures CardFold(lines, labels).cards == [] && CardFold(lines, labels).cur == None
    ensures RawCards(lines, labels) == []
    decreases |lines|
  {
    if lines != [] {
      NoSentinelNoCards(lines[..|lines| - 1], labels);
    }
  }

  /** How many of `lines` are exactly `x`. */
  function Count(lines: seq<String>, x: String): nat {
    if lines == [] then 0
    else Count(lines[..|lines| - 1], x) + (if lines[|lines| - 1] == x then 1 else 0)
  }

  /** Each card comes from its own title label line: there are no more cards than such lines. */
  lemma {:induction false} CardCountBound(lines: seq<String>, labels: seq<String>)
    ensures var st := CardFold(lines, labels);
      |st.cards| + (if st.cur.Some? then 1 else 0) <= Count(lines, Sentinel)
    ensures |RawCards(lines, labels)| <= Count(lines, Sentinel)
    decreases |lines|
  {
    if lines != [] {
      CardCountBound(lines[..|lines| - 1], labels);
    }
  }

  /** The field that the lines of a card block go to after `block`: the one chosen by the last label, the title at first. */
  function FieldAfter(block: seq<String>, labels: seq<String>): Option<Field> {
    if block == [] then Some(Title)
    else if block[|block| - 1] in labels then LabelKey(block[|block| - 1])
    else FieldAfter(block[..|block| - 1], labels)
  }

  /** The content lines of a card block that belong to field `f`: those whose nearest label above selects `f`. */
  function Under(block: seq<String>, f: Field, labels: seq<String>): seq<String> {
    if block == [] then []
    else
      var init := block[..|block| - 1];
      var line := block[|block| - 1];
      Under(init, f, labels) + (if line !in labels && FieldAfter(init, labels) == Some(f) then [line] else [])
  }

  /**
   * Inside the block that follows a title label line, up to the next title
   * label line, the open card holds for every field the lines under that
   * field's labels, joined with line feeds.
   */
  lemma {:induction false} CardInBlock(lines: seq<String>, labels: seq<String>, i: nat, m: nat)
    requires i < m <= |lines| && lines[i] == Sentinel && Sentinel in labels
    requires forall j :: i < j < m ==> lines[j] != Sentinel
    requires forall j :: 0 <= j < |lines| ==> lines[j] != []
    ensures BlockState(CardFold(lines[..m], labels), lines[i + 1..m], labels)
    decreases m
  {
    if m == i + 1 {
      CardFoldSnoc(lines, m, labels);
      assert lines[i + 1..m] == [];
      BlockStart(CardFold(lines[..m - 1], labels), labels);
    } else {
      CardInBlock(lines, labels, i, m - 1);
      BlockExtend(lines, labels, i, m);
    }
  }

  /** The loop state after one more line. */
  lemma CardFoldSnoc(lines: seq<String>, m: nat, labels: seq<String>)
    requires 0 < m <= |lines|
    ensures CardFold(lines[..m], labels) == CardStep(CardFold(lines[..m - 1], labels), lines[m - 1], labels)
  {
    assert lines[..m][..m - 1] == lines[..m - 1];
  }

  /** A block grows by one line that is not a title label line. */
  lemma BlockExtend(lines: seq<String>, labels: seq<String>, i: nat, m: nat)
    requires i + 1 < m <= |lines|
    requires lines[m - 1] != Sentinel
    requires forall j :: 0 <= j < |lines| ==> lines[j] != []
    requires BlockState(CardFold(lines[..m - 1], labels), lines[i + 1..m - 1], labels)
    ensures BlockState(CardFold(lines[..m], labels), lines[i + 1..m], labels)
  {
    var pblock := lines[i + 1..m - 1];
    forall k | 0 <= k < |pblock| ensures pblock[k] != [] {
      assert pblock[k] == lines[i + 1 + k];
    }
    SliceSnoc(lines, i + 1, m);
    CardFoldSnoc(lines, m, labels);
    BlockStep(CardFold(lines[..m - 1], labels), pblock, lines[m - 1], labels);
  }

  /** A title label line opens an empty card whose cursor is the title. */
  lemma BlockStart(prev: CardState, labels: seq<String>)
    requires Sentinel in labels
    ensures BlockState(CardStep(prev, Sentinel, labels), [], labels)
  {
    var st := CardStep(prev, Sentinel, labels);
    assert LabelKey(Sentinel) == Some(Title);
    assert st.cur == Some(EmptyCard);
    forall f ensures Get(st.cur.value, f) == Join(Under([], f, labels), '\n') {
      assert Get(EmptyCard, f) == [];
    }
  }

  /** The open card of a block: its fields hold the lines under their labels, and the cursor is the last label's field. */
  ghost predicate BlockState(st: CardState, block: seq<String>, labels: seq<String>) {
    && st.cur.Some?
    && st.cur.value.imageData == None
    && st.curField == FieldAfter(block, labels)
    && forall f :: Get(st.cur.value, f) == Join(Under(block, f, labels), '\n')
  }

  /** One line inside a block keeps the open card in step with the lines under each label. */
  lemma BlockStep(prev: CardState, pblock: seq<String>, line: String, labels: seq<String>)
    requires line != Sentinel && line != []
    requires forall k :: 0 <= k < |pblock| ==> pblock[k] != []
    requires BlockState(prev, pblock, labels)
    ensures BlockState(CardStep(prev, line, labels), pblock + [line], labels)
  {
    var block := pblock + [line];
    var st := CardStep(prev, line, labels);
    assert block[..|block| - 1] == pblock && block[|block| - 1] == line;
    forall g ensures Get(st.cur.value, g) == Join(Under(block, g, labels), '\n') {
      var us := Under(pblock, g, labels);
      if line !in labels && prev.curField == Some(g) {
        UnderNonEmpty(pblock, g, labels);
        AppendLineJoin(us, line);
      } else {
        assert us + [] == us;
      }
    }
  }

  /** The lines under a field are lines of the block, hence non-empty when the block's are. */
  lemma {:induction false} UnderNonEmpty(block: seq<String>, f: Field, labels: seq<String>)
    requires forall j :: 0 <= j < |block| ==> block[j] != []
    ensures forall k :: 0 <= k < |Under(block, f, labels)| ==> Under(block, f, labels)[k] != []
    decreases |block|
  {
    if block != [] {
      UnderNonEmpty(block[..|block| - 1], f, labels);
    }
  }

  /**
   * A title label line closes the open card: the card is appended when it has
   * a title or a description, and a new empty card is opened.
   */
  lemma CardClosed(lines: seq<String>, labels: seq<String>, k: nat)
    requires k < |lines| && lines[k] == Sentinel && Sentinel in labels
    ensures var before, after := CardFold(lines[..k], labels), CardFold(lines[..k + 1], labels);
      after.cards == Emit(before.cards, before.cur) && after.cur == Some(EmptyCard)
  {
    assert lines[..k + 1][..k] == lines[..k];
  }

  /**
   * What one line can do to the state: only the title label, when it is a
   * label, emits a card or opens one, and a content line changes nothing
   * unless a card and a field are both active.
   */
  lemma StepEffects(lines: seq<String>, labels: seq<String>, k: nat)
    requires k < |lines|
    ensures var before, after := CardFold(lines[..k], labels), CardFold(lines[..k + 1], labels);
      && (after.cards != before.cards ==> lines[k] == Sentinel && Sentinel in labels)
      && (lines[k] != Sentinel || Sentinel !in labels ==> after.cur.Some? == before.cur.Some?)
      && (lines[k] !in labels && !(before.curField.Some? && before.cur.Some?) ==> after == before)
      && (lines[k] !in labels ==> after.cards == before.cards && after.curField == before.curField)
  {
    assert lines[..k + 1][..k] == lines[..k];
  }

  // ----- Properties of the result -----
}
