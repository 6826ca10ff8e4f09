/**
 * The array work of `parseWord` once the text has been read: the task's
 * syllabus is copied into the cards that lack one, the document's images are
 * attached to the cards by position, and every card position has a tag such
 * as `2-3` (row and column in a grid of four columns).
 */
module PostProcess {
  import opened Wrappers
  import opened Text
  import opened TaskSections
  import opened Cards

  // ----- Syllabus propagation -----

  /** The cards after the syllabus loop: a card without a syllabus gets the task's one, when the task has one. */
  function WithSyllabus(cards: seq<Card>, syllabus: String): (r: seq<Card>)
    ensures |r| == |cards|
    ensures forall i :: 0 <= i < |r| ==>
      r[i] == if cards[i].syllabus == [] then cards[i].(syllabus := syllabus) else cards[i]
  {
    seq(|cards|, i requires 0 <= i < |cards| =>
      if cards[i].syllabus == [] then cards[i].(syllabus := syllabus) else cards[i])
  }

  /** Cards with a syllabus keep it, and with a task syllabus every card ends up with a non-empty one. */
  lemma SyllabusKept(cards: seq<Card>, syllabus: String)
    ensures forall i :: 0 <= i < |cards| && cards[i].syllabus != [] ==>
      WithSyllabus(cards, syllabus)[i].syllabus == cards[i].syllabus
    ensures syllabus != [] ==> forall i :: 0 <= i < |cards| ==> WithSyllabus(cards, syllabus)[i].syllabus != []
    ensures forall i :: 0 <= i < |cards| ==>
      WithSyllabus(cards, syllabus)[i] == cards[i].(syllabus := WithSyllabus(cards, syllabus)[i].syllabus)
  {
  }

  /** Filling is idempotent: a second pass with the same syllabus changes nothing. */
  lemma SyllabusIdempotent(cards: seq<Card>, syllabus: String)
    ensures WithSyllabus(WithSyllabus(cards, syllabus), syllabus) == WithSyllabus(cards, syllabus)
  {
    var once := WithSyllabus(cards, syllabus);
    var twice := WithSyllabus(once, syllabus);
    forall i | 0 <= i < |cards| ensures twice[i] == once[i] {
      if cards[i].syllabus == [] && syllabus == [] {
        assert once[i] == cards[i];
      }
    }
  }

  /** `if (taskData.syllabus && cardDataList.length > 0) for (const card of ...) if (!card.syllabus) ...`. */
  method PropagateSyllabus(cards: array<Card>, syllabus: String)
    modifies cards
    ensures cards[..] == if syllabus != [] then WithSyllabus(old(cards[..]), syllabus) else old(cards[..])
  {
    if syllabus != [] && cards.Length > 0 {
      for i := 0 to cards.Length
        invariant forall j :: 0 <= j < i ==> cards[j] == WithSyllabus(old(cards[..]), syllabus)[j]
        invariant forall j :: i <= j < cards.Length ==> cards[j] == old(cards[j])
      {
        if cards[i].syllabus == [] {
          cards[i] := cards[i].(syllabus := syllabus);
        }
      }
    }
  }

  // ----- Images -----

  function Min(a: nat, b: nat): nat { if a < b then a else b }

  /** The cards after the image loop: card `i` gets image `i` while both exist. */
  function WithImages(cards: seq<Card>, images: seq<Image>): (r: seq<Card>)
    ensures |r| == |cards|
    ensures forall i :: 0 <= i < |r| ==>
      r[i] == if i < |images| then cards[i].(imageData := Some(images[i])) else cards[i]
  {
    seq(|cards|, i requires 0 <= i < |cards| =>
      if i < |images| then cards[i].(imageData := Some(images[i])) else cards[i])
  }

  /** Exactly the first `min(#cards, #images)` cards carry an image, each its own, and no text field changes. */
  lemma ImagesByPosition(cards: seq<Card>, images: seq<Image>)
    ensures forall i :: 0 <= i < Min(|cards|, |images|) ==> WithImages(cards, images)[i].imageData == Some(images[i])
    ensures forall i :: Min(|cards|, |images|) <= i < |cards| ==> WithImages(cards, images)[i] == cards[i]
    ensures forall i :: 0 <= i < |cards| ==>
      WithImages(cards, images)[i].(imageData := cards[i].imageData) == cards[i]
  {
  }

  /** `for (let i = 0; i < Math.min(cardDataList.length, cardImages.length); i++) cardDataList[i].imageData = cardImages[i]`. */
  method AttachImages(cards: array<Card>, images: seq<Image>)
    modifies cards
    ensures cards[..] == WithImages(old(cards[..]), images)
  {
    var n := Min(cards.Length, |images|);
    for i := 0 to n
      invariant forall j :: 0 <= j < i ==> cards[j] == old(cards[j]).(imageData := Some(images[j]))
      invariant forall j :: i <= j < cards.Length ==> cards[j] == old(cards[j])
    {
      cards[i] := cards[i].(imageData := Some(images[i]));
    }
  }

  // ----- Card tags -----

  function Digit(d: nat): (c: char)
    requires d < 10
    ensures IsDigit(c)
  {
    ('0' as int + d) as char
  }

  function DigitValue(c: char): (d: nat)
    requires IsDigit(c)
    ensures d < 10 && Digit(d) == c
  {
    c as int - '0' as int
  }

  /** Template-literal conversion of a natural number: its decimal digits, most significant first. */
  function Decimal(n: nat): (r: String)
    ensures |r| >= 1 && AllDigits(r)
    ensures r[0] == '0' ==> n == 0
  {
    if n < 10 then [Digit(n)] else Decimal(n / 10) + [Digit(n % 10)]
  }

  /** The value of a string of decimal digits. */
  function DecimalValue(s: String): nat
    requires AllDigits(s)
  {
    if s == [] then 0 else DecimalValue(s[..|s| - 1]) * 10 + DigitValue(s[|s| - 1])
  }

  lemma {:induction false} DecimalRoundTrip(n: nat)
    ensures DecimalValue(Decimal(n)) == n
  {
    if n >= 10 {
      DecimalRoundTrip(n / 10);
      var r := Decimal(n);
      assert r[..|r| - 1] == Decimal(n / 10);
    }
  }

  /** `${Math.floor(i/4) + 1}-${(i % 4) + 1}`: row and column of card `i`, counted from one. */
  function CardTag(i: nat): (r: String)
    ensures |r| >= 3 && r[|r| - 2] == '-' && '1' <= r[|r| - 1] <= '4'
    ensures AllDigits(r[..|r| - 2])
  {
    var row := Decimal(i / 4 + 1);
    assert (row + "-" + [Digit(i % 4 + 1)])[..|row|] == row;
    Decimal(i / 4 + 1) + "-" + [Digit(i % 4 + 1)]
  }

  /** Reading a tag back: the row before the `-`, one column digit from 1 to 4 after it. */
  function TagIndex(tag: String): Option<nat> {
    if |tag| >= 3 && tag[|tag| - 2] == '-' && '1' <= tag[|tag| - 1] <= '4'
      && AllDigits(tag[..|tag| - 2]) && DecimalValue(tag[..|tag| - 2]) >= 1
    then Some((DecimalValue(tag[..|tag| - 2]) - 1) * 4 + DigitValue(tag[|tag| - 1]) - 1)
    else None
  }

  /** Every tag reads back as its own index, so different cards have different tags. */
  lemma TagRoundTrip(i: nat)
    ensures TagIndex(CardTag(i)) == Some(i)
  {
    var row := Decimal(i / 4 + 1);
    var tag := CardTag(i);
    assert tag[..|tag| - 2] == row;
    assert tag[|tag| - 2] == '-' && tag[|tag| - 1] == Digit(i % 4 + 1);
    DecimalRoundTrip(i / 4 + 1);
  }

  lemma TagInjective(i: nat, j: nat)
    requires CardTag(i) == CardTag(j)
    ensures i == j
  {
    TagRoundTrip(i);
    TagRoundTrip(j);
  }

  /** The twelve cards fill three rows of four: tags `1-1` to `3-4`. */
  lemma TagOfTwelve(i: nat)
    requires i < MaxCards
    ensures |CardTag(i)| == 3
    ensures CardTag(i)[0] == Digit(i / 4 + 1) && '1' <= CardTag(i)[0] <= '3'
  {
  }

  // ----- parseWord -----

  /** The cards after both loops of `parseWord`. */
  function Finish(cards: seq<Card>, syllabus: String, images: seq<Image>, extractImages: bool): seq<Card> {
    var filled := if syllabus != [] then WithSyllabus(cards, syllabus) else cards;
    if extractImages then WithImages(filled, images) else filled
  }

  /** The task's syllabus, `""` when the task has none. */
  function TaskSyllabus(taskData: map<String, String>): String {
    if "syllabus" in taskData then taskData["syllabus"] else []
  }

  /**
   * `parseWord` once the document has been read: `value` is its raw text and
   * `images` its images (consulted only when image extraction is on).
   */
  method ParseWord(value: String, mapping: seq<Entry>, labels: seq<String>, images: seq<Image>, extractImages: bool)
    returns (taskData: map<String, String>, cardDataList: seq<Card>)
    ensures taskData == ParseTask(value, mapping)
    ensures cardDataList == Finish(ParseCardsSpec(value, labels), TaskSyllabus(taskData), images, extractImages)
  {
    taskData := ParseTaskSections(value, mapping);
    var cards := ParseCards(value, labels);
    cardDataList := FinishCards(cards, TaskSyllabus(taskData), images, extractImages);
  }

  /** The two post-processing loops, run on the cards in an array. */
  method FinishCards(cards: seq<Card>, syllabus: String, images: seq<Image>, extractImages: bool) returns (r: seq<Card>)
    ensures r == Finish(cards, syllabus, images, extractImages)
  {
    var arr := new Card[|cards|](i requires 0 <= i < |cards| => cards[i]);
    assert arr[..] == cards;
    PropagateSyllabus(arr, syllabus);
    if extractImages && |images| > 0 {
      AttachImages(arr, images);
    } else if extractImages {
      assert arr[..] == WithImages(arr[..], images);
    }
    r := arr[..];
  }
}
