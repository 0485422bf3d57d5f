/**
 * The data the text-generation backends exchange with the rest of the
 * application: the quiz configuration they are given, and the summaries,
 * quiz items and flashcards they return.
 */
module Provider {
  import opened Common
  import opened TextUtil

  /** What `summarize` returns: `{title, summary, word_count}`. */
  datatype Summary = Summary(title: string, summary: string, wordCount: nat)

  /** The quiz configuration dictionary; `None` is a key that is absent. */
  datatype QuizConfig = QuizConfig(
    mcq: Option<int>,
    tf: Option<int>,
    short: Option<int>,
    fill: Option<int>,
    difficulties: Option<seq<string>>)

  /** A question as the backends produce it; `options` is absent for
      short-answer and fill-in questions. */
  datatype QuizItem = QuizItem(
    kind: string,
    difficulty: string,
    prompt: string,
    options: Option<string>,
    correct: string,
    explanation: string)

  /** A flashcard dictionary; a side is `None` when its key is absent or
      holds `None`. */
  datatype Card = Card(front: Option<string>, back: Option<string>)

  const DefaultCount := 5
  const DefaultDifficulties: seq<string> := ["Easy", "Medium", "Hard"]

  /** `int(config.get(kind, 5))`. */
  function CountOf(c: Option<int>): (n: int)
    ensures c.None? ==> n == DefaultCount
    ensures c.Some? ==> n == c.value
  {
    match c
    case None => DefaultCount
    case Some(k) => k
  }

  /** `[d.lower() for d in config.get("difficulties", ["Easy", "Medium", "Hard"])]`. */
  function DifficultiesOf(cfg: QuizConfig): (ds: seq<string>)
    ensures cfg.difficulties.None? ==> ds == ["easy", "medium", "hard"]
    ensures cfg.difficulties.Some? ==>
      |ds| == |cfg.difficulties.value| &&
      forall k :: 0 <= k < |ds| ==> ds[k] == Lower(cfg.difficulties.value[k])
  {
    var given := if cfg.difficulties.Some? then cfg.difficulties.value else DefaultDifficulties;
    assert cfg.difficulties.None? ==> Lower(given[0]) == "easy" && Lower(given[1]) == "medium" && Lower(given[2]) == "hard";
    seq(|given|, k requires 0 <= k < |given| => Lower(given[k]))
  }
}
