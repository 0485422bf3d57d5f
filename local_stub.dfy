/**
 * The offline backend: a summary made of the first sentences, a fixed
 * question bank cycled through the requested difficulties, grading by
 * substring match, and flashcards cut from the sentences.
 */
module LocalStub {
  import opened Common
  import opened TextUtil
  import opened RegexSplit
  import opened Provider

  /** `_sentences(text)`: pieces between a mark `.`, `!` or `?` and the
      whitespace after it, stripped, blank ones dropped. */
  function StubSentences(text: Option<string>): seq<string> {
    Sentences(PunctSpace, OrEmpty(text))
  }

  const SummaryTitle := "Content Summary"
  const SummarySentences := 6
  const FallbackChars := 600

  /** `summarize(text)`. */
  function Summarize(text: Option<string>): (r: Summary)
    ensures r.title == SummaryTitle
    ensures r.wordCount == |Words(r.summary)|
    ensures var sents := StubSentences(text);
      sents != [] ==> && r.summary == Join(" ", PyTo(sents, SummarySentences))
                      && |PyTo(sents, SummarySentences)| == Min(SummarySentences, |sents|)
                      && Words(r.summary) == WordsOfAll(PyTo(sents, SummarySentences))
    ensures var sents := StubSentences(text);
      sents == [] ==> && r.summary <= OrEmpty(text)
                      && |r.summary| == Min(FallbackChars, |OrEmpty(text)|)
                      && SpaceOrPunct(r.summary)
  {
    var sents := StubSentences(text);
    var body := if sents != [] then Join(" ", PyTo(sents, SummarySentences)) else PyTo(OrEmpty(text), FallbackChars);
    SummaryWords(text);
    Summary(SummaryTitle, body, |Words(body)|)
  }

  lemma SummaryWords(text: Option<string>)
    ensures var sents := StubSentences(text);
      sents != [] ==> Words(Join(" ", PyTo(sents, SummarySentences))) == WordsOfAll(PyTo(sents, SummarySentences))
    ensures var sents := StubSentences(text);
      sents == [] ==> SpaceOrPunct(PyTo(OrEmpty(text), FallbackChars))
  {
    var sents := StubSentences(text);
    if sents != [] {
      WordsOfJoin(PyTo(sents, SummarySentences));
    } else {
      var t := OrEmpty(text);
      SentencesEmptyPunctSpace(t);
      var b := PyTo(t, FallbackChars);
      forall i | 0 <= i < |b|
        ensures IsSpace(b[i]) || IsPunct(b[i])
      {
        assert b[i] == t[i];
      }
    }
  }

  /** A non-blank text without any mark `.`, `!` or `?` is one sentence, so
      its summary is the text stripped, with the text's word count. */
  lemma SummarizeUnmarked(text: string)
    requires forall i :: 0 <= i < |text| ==> !IsPunct(text[i])
    requires !AllSpace(text)
    ensures Summarize(Some(text)).summary == Strip(text)
    ensures Summarize(Some(text)).wordCount == |Words(text)|
  {
    forall j | 0 <= j < |text|
      ensures !Boundary(PunctSpace, text, j)
    {
    }
    NoBoundaryOneSentence(PunctSpace, text);
    assert PyTo([Strip(text)], SummarySentences) == [Strip(text)];
    WordsOfStrip(text);
  }

  /** One entry of the fixed question bank, before a difficulty is given. */
  datatype Template = Template(
    kind: string,
    prompt: string,
    options: Option<string>,
    correct: string,
    explanation: string)

  const McqTemplate := Template(
    "mcq",
    "In a dataset with varying densities, which clustering is most effective?",
    Some("A) K-Means|B) Hierarchical|C) DBSCAN|D) GMM"),
    "C",
    "DBSCAN finds arbitrary shapes and varying densities.")
  const TfTemplate := Template(
    "tf",
    "True or False: Logistic regression outputs probabilities via a sigmoid.",
    Some("A) True|B) False"),
    "A",
    "Sigmoid maps to [0,1].")
  const ShortTemplate := Template(
    "short",
    "What does a confusion matrix reveal?",
    None,
    "TP/TN/FP/FN breakdown",
    "From it you get precision/recall/F1.")
  const FillTemplate := Template(
    "fill",
    "In DBSCAN, points within the specified _____ are neighbors.",
    None,
    "epsilon (eps)",
    "Epsilon radius defines neighborhood.")

  function Item(t: Template, difficulty: string): QuizItem {
    QuizItem(t.kind, difficulty, t.prompt, t.options, t.correct, t.explanation)
  }

  /** The items one `for i in range(n)` loop appends. */
  function Block(t: Template, n: int, diffs: seq<string>): seq<QuizItem>
    requires n <= 0 || diffs != []
  {
    if n <= 0 then [] else Block(t, n - 1, diffs) + [Item(t, diffs[(n - 1) % |diffs|])]
  }

  /** `generate_quiz(text, config)`: the four blocks in order, or the
      `ZeroDivisionError` that `i % len(diffs)` raises when the difficulty
      list is empty and some block is not. The text is not read. */
  function StubQuiz(cfg: QuizConfig): Result<seq<QuizItem>> {
    var diffs := DifficultiesOf(cfg);
    var mcq, tf, short, fill := CountOf(cfg.mcq), CountOf(cfg.tf), CountOf(cfg.short), CountOf(cfg.fill);
    if diffs == [] && (mcq > 0 || tf > 0 || short > 0 || fill > 0) then Err(ZeroDivisionError)
    else Ok(Block(McqTemplate, mcq, diffs) + Block(TfTemplate, tf, diffs)
            + Block(ShortTemplate, short, diffs) + Block(FillTemplate, fill, diffs))
  }

  /** One loop of `generate_quiz`, appending to `out`. */
  method AppendBlock(out: seq<QuizItem>, t: Template, n: int, diffs: seq<string>) returns (r: Result<seq<QuizItem>>)
    ensures n > 0 && diffs == [] ==> r == Err(ZeroDivisionError)
    ensures !(n > 0 && diffs == []) ==> r == Ok(out + Block(t, n, diffs))
  {
    var acc := out;
    var i := 0;
    while i < n
      invariant 0 <= i <= Max(0, n)
      invariant i > 0 ==> diffs != []
      invariant diffs != [] ==> acc == out + Block(t, i, diffs)
      invariant diffs == [] ==> acc == out && i == 0
    {
      if |diffs| == 0 {
        return Err(ZeroDivisionError);
      }
      acc := acc + [Item(t, diffs[i % |diffs|])];
      i := i + 1;
    }
    if n <= 0 {
      assert Block(t, n, diffs) == [] && out + [] == out;
    } else {
      assert i == n;
    }
    return Ok(acc);
  }

  /** `generate_quiz(text, config)`. */
  method GenerateQuiz(text: string, cfg: QuizConfig) returns (r: Result<seq<QuizItem>>)
    ensures r == StubQuiz(cfg)
  {
    var diffs := DifficultiesOf(cfg);
    var out: seq<QuizItem> := [];
    r := AppendBlock(out, McqTemplate, CountOf(cfg.mcq), diffs);
    if r.Err? { return; }
    assert r.value == Block(McqTemplate, CountOf(cfg.mcq), diffs);
    r := AppendBlock(r.value, TfTemplate, CountOf(cfg.tf), diffs);
    if r.Err? { return; }
    r := AppendBlock(r.value, ShortTemplate, CountOf(cfg.short), diffs);
    if r.Err? { return; }
    r := AppendBlock(r.value, FillTemplate, CountOf(cfg.fill), diffs);
  }

  /** A block holds `max(0, n)` items of its kind, the `i`-th at difficulty
      `diffs[i % len(diffs)]`, so each difficulty recurs every `len(diffs)`
      items. */
  lemma {:induction false} BlockShape(t: Template, n: int, diffs: seq<string>)
    requires n <= 0 || diffs != []
    ensures |Block(t, n, diffs)| == Max(0, n)
    ensures forall i :: 0 <= i < |Block(t, n, diffs)| ==>
      Block(t, n, diffs)[i] == Item(t, diffs[i % |diffs|])
    ensures forall i :: 0 <= i < |Block(t, n, diffs)| ==>
      Block(t, n, diffs)[i].kind == t.kind && Block(t, n, diffs)[i].difficulty in diffs
    ensures forall i :: 0 <= i < |Block(t, n, diffs)| - |diffs| ==>
      Block(t, n, diffs)[i + |diffs|].difficulty == Block(t, n, diffs)[i].difficulty
  {
    if n > 0 {
      BlockShape(t, n - 1, diffs);
      var b := Block(t, n, diffs);
      forall i | 0 <= i < |b| - |diffs|
        ensures b[i + |diffs|].difficulty == b[i].difficulty
      {
        ModShift(i, |diffs|);
      }
    }
  }

  /** Every item of a block has the block's kind. */
  lemma {:induction false} BlockKinds(t: Template, n: int, diffs: seq<string>)
    requires n <= 0 || diffs != []
    ensures |Block(t, n, diffs)| == Max(0, n)
    ensures forall i :: 0 <= i < |Block(t, n, diffs)| ==> Block(t, n, diffs)[i].kind == t.kind
  {
    if n > 0 {
      BlockKinds(t, n - 1, diffs);
    }
  }

  lemma ModShift(i: nat, d: nat)
    requires d > 0
    ensures (i + d) % d == i % d
  {
    var q, r := i / d, i % d;
    assert i + d == d * (q + 1) + r;
    ModUnique(i + d, d, q + 1, r);
  }

  /** The stub fails exactly when a block is asked for with no difficulty;
      otherwise it returns `max(0, n)` items per kind, in the order
      mcq, tf, short, fill. */
  lemma StubQuizShape(cfg: QuizConfig)
    ensures var diffs := DifficultiesOf(cfg);
      StubQuiz(cfg).Err? <==>
        diffs == [] && (CountOf(cfg.mcq) > 0 || CountOf(cfg.tf) > 0 || CountOf(cfg.short) > 0 || CountOf(cfg.fill) > 0)
    ensures StubQuiz(cfg).Ok? ==>
      var items := StubQuiz(cfg).value;
      var a, b, c, d := Max(0, CountOf(cfg.mcq)), Max(0, CountOf(cfg.tf)), Max(0, CountOf(cfg.short)), Max(0, CountOf(cfg.fill));
      && |items| == a + b + c + d
      && (forall i :: 0 <= i < a ==> items[i].kind == "mcq")
      && (forall i :: a <= i < a + b ==> items[i].kind == "tf")
      && (forall i :: a + b <= i < a + b + c ==> items[i].kind == "short")
      && (forall i :: a + b + c <= i < |items| ==> items[i].kind == "fill")
  {
    var diffs := DifficultiesOf(cfg);
    if StubQuiz(cfg).Ok? {
      var b1 := Block(McqTemplate, CountOf(cfg.mcq), diffs);
      var b2 := Block(TfTemplate, CountOf(cfg.tf), diffs);
      var b3 := Block(ShortTemplate, CountOf(cfg.short), diffs);
      var b4 := Block(FillTemplate, CountOf(cfg.fill), diffs);
      BlockKinds(McqTemplate, CountOf(cfg.mcq), diffs);
      BlockKinds(TfTemplate, CountOf(cfg.tf), diffs);
      BlockKinds(ShortTemplate, CountOf(cfg.short), diffs);
      BlockKinds(FillTemplate, CountOf(cfg.fill), diffs);
      assert StubQuiz(cfg).value == b1 + b2 + b3 + b4;
      KindsInOrder(b1, b2, b3, b4, "mcq", "tf", "short", "fill");
    }
  }

  /** Four runs of items, each of one kind, put end to end. */
  lemma KindsInOrder(b1: seq<QuizItem>, b2: seq<QuizItem>, b3: seq<QuizItem>, b4: seq<QuizItem>,
                     k1: string, k2: string, k3: string, k4: string)
    requires forall i :: 0 <= i < |b1| ==> b1[i].kind == k1
    requires forall i :: 0 <= i < |b2| ==> b2[i].kind == k2
    requires forall i :: 0 <= i < |b3| ==> b3[i].kind == k3
    requires forall i :: 0 <= i < |b4| ==> b4[i].kind == k4
    ensures var items, a, b, c := b1 + b2 + b3 + b4, |b1|, |b2|, |b3|;
      && (forall i :: 0 <= i < a ==> items[i].kind == k1)
      && (forall i :: a <= i < a + b ==> items[i].kind == k2)
      && (forall i :: a + b <= i < a + b + c ==> items[i].kind == k3)
      && (forall i :: a + b + c <= i < |items| ==> items[i].kind == k4)
  {
    var items, a, b, c := b1 + b2 + b3 + b4, |b1|, |b2|, |b3|;
    forall i | 0 <= i < a ensures items[i].kind == k1 { assert items[i] == b1[i]; }
    forall i | a <= i < a + b ensures items[i].kind == k2 { assert items[i] == b2[i - a]; }
    forall i | a + b <= i < a + b + c ensures items[i].kind == k3 { assert items[i] == b3[i - a - b]; }
    forall i | a + b + c <= i < |items| ensures items[i].kind == k4 { assert items[i] == b4[i - a - b - c]; }
  }

  /** With no configuration the stub returns twenty items, five of each
      kind, their difficulties running easy, medium, hard, easy, .... */
  lemma StubQuizDefault()
    ensures var r := StubQuiz(QuizConfig(None, None, None, None, None));
      && r.Ok? && |r.value| == 20
      && r.value[0].difficulty == "easy" && r.value[1].difficulty == "medium"
      && r.value[2].difficulty == "hard" && r.value[3].difficulty == "easy"
      && r.value[5].kind == "tf" && r.value[5].difficulty == "easy"
  {
    var cfg := QuizConfig(None, None, None, None, None);
    var diffs := DifficultiesOf(cfg);
    assert |diffs| == 3;
    var b1, b2 := Block(McqTemplate, 5, diffs), Block(TfTemplate, 5, diffs);
    var b3, b4 := Block(ShortTemplate, 5, diffs), Block(FillTemplate, 5, diffs);
    BlockLength(McqTemplate, 5, diffs);
    BlockLength(TfTemplate, 5, diffs);
    BlockLength(ShortTemplate, 5, diffs);
    BlockLength(FillTemplate, 5, diffs);
    var items := StubQuiz(cfg).value;
    assert items == b1 + b2 + b3 + b4;
    BlockAt(McqTemplate, 5, diffs, 0);
    BlockAt(McqTemplate, 5, diffs, 1);
    BlockAt(McqTemplate, 5, diffs, 2);
    BlockAt(McqTemplate, 5, diffs, 3);
    BlockAt(TfTemplate, 5, diffs, 0);
    assert items[3] == b1[3] && items[5] == b2[0];
  }

  lemma {:induction false} BlockLength(t: Template, n: int, diffs: seq<string>)
    requires n <= 0 || diffs != []
    ensures |Block(t, n, diffs)| == Max(0, n)
  {
    if n > 0 {
      BlockLength(t, n - 1, diffs);
    }
  }

  /** Item `i` of a block, at difficulty `diffs[i % len(diffs)]`. */
  lemma BlockAt(t: Template, n: int, diffs: seq<string>, i: int)
    requires n <= 0 || diffs != []
    requires 0 <= i < n
    ensures i < |Block(t, n, diffs)| && Block(t, n, diffs)[i] == Item(t, diffs[i % |diffs|])
  {
    BlockShape(t, n, diffs);
  }

  /** What `grade_freeform` returns. */
  datatype Grade = Grade(correct: bool, reason: string)

  const StubReason := "Substring match (stub) \U{2014} upgrade to model for smarter judging."

  /** `(x or '').strip().lower()`. */
  function Normalize(x: Option<string>): string {
    Lower(Strip(OrEmpty(x)))
  }

  /** `grade_freeform(question, ground_truth, user_answer)`: correct when
      both answers are non-blank once stripped and lower-cased and one
      occurs in the other. The question is not read. */
  function GradeFreeform(question: Option<string>, groundTruth: Option<string>, userAnswer: Option<string>): (r: Grade)
    ensures r.reason == StubReason
    ensures r.correct ==> Normalize(groundTruth) != [] && Normalize(userAnswer) != []
  {
    var gt := Normalize(groundTruth);
    var ua := Normalize(userAnswer);
    Grade(gt != [] && ua != [] && (Contains(ua, gt) || Contains(gt, ua)), StubReason)
  }

  /** The verdict by positions: correct exactly when both normalised
      answers are non-empty and one is found at some index of the other. */
  lemma GradeFreeformOccurs(question: Option<string>, groundTruth: Option<string>, userAnswer: Option<string>)
    ensures var gt, ua := Normalize(groundTruth), Normalize(userAnswer);
      GradeFreeform(question, groundTruth, userAnswer).correct <==>
        gt != [] && ua != [] && ((exists i :: OccursAt(ua, gt, i)) || (exists i :: OccursAt(gt, ua, i)))
  {
    var gt, ua := Normalize(groundTruth), Normalize(userAnswer);
    ContainsAt(ua, gt);
    ContainsAt(gt, ua);
  }

  /** The two answers play the same part. */
  lemma GradeFreeformSymmetric(question: Option<string>, a: Option<string>, b: Option<string>)
    ensures GradeFreeform(question, a, b).correct == GradeFreeform(question, b, a).correct
  {
  }

  /** Answers that agree once stripped and lower-cased are accepted, unless
      blank. */
  lemma GradeFreeformSame(question: Option<string>, a: Option<string>, b: Option<string>)
    requires Normalize(a) == Normalize(b)
    ensures GradeFreeform(question, a, b).correct <==> Normalize(a) != []
  {
    ContainsSelf(Normalize(a));
  }

  const FrontPrefix := "Objasni ukratko: "
  const Ellipsis := "..."
  const FrontChars := 80
  const BackChars := 220

  /** The card for one sentence: the question shows its first 80
      characters; the answer is the sentence, cut at 220 characters with
      `...` added when it is not shorter. */
  function CardOf(s: string): Card {
    Card(Some(FrontPrefix + PyTo(s, FrontChars) + Ellipsis),
         Some(if |s| < BackChars then s else PyTo(s, BackChars) + Ellipsis))
  }

  /** `make_flashcards(text, n)` as a value: `min(n, max(1, len(sents)))`
      cards from the first sentences, or the `IndexError` of `sents[0]`
      when there is no sentence and a card is asked for. */
  function StubFlashcards(text: Option<string>, n: int): Result<seq<Card>> {
    var sents := StubSentences(text);
    var m := Min(n, Max(1, |sents|));
    if m > |sents| then Err(IndexError)
    else Ok(Cards(sents, Max(0, m)))
  }

  /** The cards for the first `m` sentences. */
  function Cards(sents: seq<string>, m: nat): seq<Card>
    requires m <= |sents|
  {
    if m == 0 then [] else Cards(sents, m - 1) + [CardOf(sents[m - 1])]
  }

  lemma {:induction false} CardsShape(sents: seq<string>, m: nat)
    requires m <= |sents|
    ensures |Cards(sents, m)| == m
    ensures forall i :: 0 <= i < m ==> Cards(sents, m)[i] == CardOf(sents[i])
  {
    if m > 0 {
      CardsShape(sents, m - 1);
    }
  }

  /** `make_flashcards(text, n)`. */
  method MakeFlashcards(text: Option<string>, n: int) returns (r: Result<seq<Card>>)
    ensures r == StubFlashcards(text, n)
  {
    var sents := StubSentences(text);
    r := CardLoop(sents, Min(n, Max(1, |sents|)));
  }

  /** The loop of `make_flashcards` over `range(m)`: one card per sentence,
      `IndexError` on reaching an index past the sentences. */
  method CardLoop(sents: seq<string>, m: int) returns (r: Result<seq<Card>>)
    ensures r == if m > |sents| then Err(IndexError) else Ok(Cards(sents, Max(0, m)))
  {
    var out: seq<Card> := [];
    var i := 0;
    while i < m
      invariant 0 <= i <= Max(0, m) && i <= |sents|
      invariant out == Cards(sents, i)
    {
      if i >= |sents| {
        return Err(IndexError);
      }
      out := out + [CardOf(sents[i])];
      i := i + 1;
    }
    return Ok(out);
  }

  /** The stub fails only when asked for cards from a text without
      sentences; otherwise it gives `min(n, len(sents))` cards (none for
      `n <= 0`), card `i` from sentence `i`. */
  lemma StubFlashcardsCount(text: Option<string>, n: int)
    ensures StubFlashcards(text, n).Err? <==> n >= 1 && StubSentences(text) == []
    ensures StubFlashcards(text, n).Ok? ==>
      |StubFlashcards(text, n).value| == Max(0, Min(n, |StubSentences(text)|))
    ensures StubFlashcards(text, n).Ok? ==>
      forall i :: 0 <= i < |StubFlashcards(text, n).value| ==>
        StubFlashcards(text, n).value[i] == CardOf(StubSentences(text)[i])
  {
    var sents := StubSentences(text);
    var m := Min(n, Max(1, |sents|));
    if m <= |sents| {
      CardsShape(sents, Max(0, m));
    }
  }

  /** Every side of a stub card is non-blank and short: the question at most
      100 characters, the answer at most 223, and the answer is the sentence
      itself when shorter than 220 characters, else its first 220. */
  lemma CardOfShape(s: string)
    requires s != [] && IsStripped(s)
    ensures var c := CardOf(s);
      && c.front.Some? && c.back.Some?
      && Strip(c.front.value) != [] && Strip(c.back.value) != []
      && |c.front.value| <= |FrontPrefix| + FrontChars + |Ellipsis|
      && |c.back.value| <= BackChars + |Ellipsis|
      && (|s| < BackChars ==> c.back.value == s)
      && (|s| >= BackChars ==> c.back.value == s[..BackChars] + Ellipsis)
  {
    var c := CardOf(s);
    var f := c.front.value;
    assert !IsSpace(f[0]);
    NotBlank(f, 0);
    var b := c.back.value;
    assert b[0] == s[0];
    assert !IsSpace(s[0]) by { assert IsStripped(s); }
    NotBlank(b, 0);
  }

  /** A text with a non-space character does not strip to nothing. */
  lemma NotBlank(s: string, i: int)
    requires 0 <= i < |s| && !IsSpace(s[i])
    ensures Strip(s) != []
  {
    StripEmptyIffAllSpace(s);
  }

  /** Every card the stub returns has a question and an answer that are
      non-blank once stripped. */
  lemma StubCardsNonBlank(text: Option<string>, n: int)
    ensures StubFlashcards(text, n).Ok? ==>
      var cards := StubFlashcards(text, n).value;
      forall i :: 0 <= i < |cards| ==>
        cards[i].front.Some? && cards[i].back.Some? &&
        Strip(cards[i].front.value) != [] && Strip(cards[i].back.value) != []
  {
    var sents := StubSentences(text);
    if StubFlashcards(text, n).Ok? {
      var cards := StubFlashcards(text, n).value;
      StubFlashcardsCount(text, n);
      forall i | 0 <= i < |cards|
        ensures cards[i].front.Some? && cards[i].back.Some? &&
          Strip(cards[i].front.value) != [] && Strip(cards[i].back.value) != []
      {
        CardOfShape(sents[i]);
      }
    }
  }
}
