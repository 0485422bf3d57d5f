# Study assistant core, modelled in Dafny

This project models the text-handling core of a document-study assistant.
Users upload a document and the assistant makes summaries, quizzes,
flashcards and a study plan from it, using a pluggable text-generation
backend. The model covers these parts of the Python code:

- **Retrieval** (`services/rag.py`), module `Rag`:
  - sentence splitting;
  - greedy packing of sentences into chunks of about `chunk_chars`
    characters, each new chunk seeded with the last `overlap` characters of
    the previous one;
  - the per-document index store, as a class `IndexStore` whose `entries`
    map plays the on-disk store;
  - top-k retrieval over abstract similarity scores;
  - context assembly cut to `max_chars`.
- **Hosted backend** (`ai_providers/groq_provider.py`), module `Groq`:
  - `_sanitize_json`, which strips a Markdown fence, finds the first `[` or
    `{` and returns the longest slice from there that `json.loads` accepts,
    or `"[]"`;
  - the `_chat` retry loop over a sequence of replies;
  - the request shaping and the result guards of `summarize`,
    `generate_quiz` and `grade_freeform`.
  - `json.loads` itself is a concrete recogniser and parser (module
    `Json`), so "the output always parses" is a theorem here, not an
    assumption.
- **Word-window chunker** (`services/chunker.py`), module `Chunker`: the
  sentence split, then `random_chunk`'s windows of at least `target_words`
  words, each restarting from the last `overlap` words of the window before.
  The random choices are parameters.
- **Offline backend** (`ai_providers/local_stub.py`), module `LocalStub`:
  - sentence splitting;
  - the six-sentence summary;
  - the fixed question bank cycled through the difficulties;
  - substring grading;
  - flashcards cut from the sentences.
- **Flashcard assembly** (`services/flashcards.py`), module `Flashcards`:
  - the context falls back to a prefix of the document;
  - the backend's cards are topped up from the offline backend;
  - the deck is cut to `n` cards;
  - cards with a blank side are dropped.
- **Study planner** (`services/planner.py`), module `Planner`:
  - the page estimate;
  - learn sessions on consecutive days;
  - reviews at +1, +3 and +7 days inside the window;
  - one practice quiz near the end;
  - a stable sort by date.
  - Dates are day numbers.
- **Quiz rules of the web layer** (`app.py`), module `App`:
  - the configuration `quiz_generate` builds from the form: counts default
    to 5, and the difficulties are the checked boxes, or all three;
  - the scoring loop and the percentage of `quiz_grade`.

Shared modules model the Python primitives that the code relies on:

- `Common`: `Option`, `Result`, Python's errors and round-half-even;
- `TextUtil`:
  - `str.isspace`, `strip`, `lstrip`, `rstrip` and `strip(c)`;
  - `split()` and `join`;
  - `in`, `find`, ASCII case mapping;
  - Python's clamping slices `xs[:j]` and `xs[i:]`;
- `RegexSplit`: `re.split` with the three sentence patterns, plus the
  `[p.strip() for p in parts if p.strip()]` filter that all three callers
  apply;
- `Json`: `json.loads`;
- `Provider`: the dictionaries the backends exchange.

Where the source updates state step by step, the model does too:

- `chunk_text`, `_sanitize_json`, `_chat`, `random_chunk`, `generate_quiz`,
  `make_flashcards`, `make_cards_from_rag`, `build_plan` and `quiz_grade`
  are methods with loops;
- `build_index` and `ensure_index` change the store object.

Each of these is proved equal to a function, and the properties the source
promises are proved about that function.

Two behaviours of the source are modelled as written, although they look
unintended:

- **`split_into_sentences` splits on a literal backslash.** The pattern at
  `services/chunker.py:5` is the raw string `(?<=[.!?])\\s+`. It matches a
  literal backslash followed by `s` characters, not whitespace. The model
  follows the code. `RegexSplit.NoBackslashNoSplit` shows that ordinary prose
  stays a single sentence.
- **The word-slicing branch of `random_chunk` is dead code.** The branch at
  `services/chunker.py:14-15` can never run: `Chunker.WordBranchUnreachable`
  shows that a text without sentences has no words.

The system's design description disagrees with the code in several places.
The model follows the code in each case:

- **Empty text in `chunk_text`.** The code returns exactly one chunk, the
  prefix `text[:chunk_chars]`. That chunk may be blank.
- **Text without sentences.** The code does not slice it into several
  fixed-size pieces; it returns that single prefix.
- **The overlap seed.** A new buffer is `(tail + " " + s).strip()`, not the
  tail alone.
- **Retries in `_chat`.** `_chat` retries only when a reply has no `{` or
  `[`. There is no backoff schedule, no alternate backend and no
  `GenerationFailed` error.
- **Normalisation and count enforcement.** No file implements the item
  normaliser or the count enforcer the description mentions.
- **Ties in `retrieve`.** `retrieve` uses `np.argsort(-sims)`, which does
  not promise an order for equal scores. The model breaks ties by the lower
  chunk position, as the description asks.

## Model

| member | source | states |
|---|---|---|
| Common.RoundHalfEven | services/planner.py:22 | `round(num/den)`: within half a unit of the exact quotient, and even on an exact tie |
| TextUtil.LStrip | services/rag.py:31 | `lstrip()` result is no longer than the input and starts with a non-space |
| TextUtil.LStripDropsSpace | services/rag.py:31 | `lstrip()` keeps a suffix and removes only whitespace |
| TextUtil.RStrip | services/rag.py:31 | `rstrip()` result is no longer than the input and ends with a non-space |
| TextUtil.RStripDropsSpace | services/rag.py:31 | `rstrip()` keeps a prefix and removes only whitespace |
| TextUtil.Strip | services/rag.py:31 | `strip()` leaves no whitespace at either end and never lengthens |
| TextUtil.StripIsPiece | services/rag.py:31 | what `strip()` keeps is a contiguous piece of the text with only whitespace on each side |
| TextUtil.StripKeepsChar | services/rag.py:33 | every non-whitespace character survives `strip()` |
| TextUtil.StripOfStripped | services/rag.py:33 | `strip()` is idempotent on stripped text |
| TextUtil.StripEmptyIffAllSpace | services/rag.py:33 | `s.strip()` is empty exactly when `s` is all whitespace |
| TextUtil.StripAround | app.py:247 | stripping whitespace-padded stripped text gives that text back |
| TextUtil.StripJoined | services/rag.py:45 | two non-empty stripped strings joined by a space are already stripped |
| TextUtil.StripSpaceThen | services/rag.py:45 | `(" " + s).strip()` is `s` for stripped `s` (the empty buffer case) |
| TextUtil.StripTailThen | services/rag.py:51 | `(tail + " " + s).strip()` is the left-stripped tail, a space, then `s` |
| TextUtil.LStripChar | ai_providers/groq_provider.py:28 | `lstrip(c)` result does not start with `c` |
| TextUtil.LStripCharDrops | ai_providers/groq_provider.py:28 | `lstrip(c)` keeps a suffix and removes only `c` |
| TextUtil.RStripChar | ai_providers/groq_provider.py:28 | `rstrip(c)` result does not end with `c` |
| TextUtil.RStripCharDrops | ai_providers/groq_provider.py:28 | `rstrip(c)` keeps a prefix and removes only `c` |
| TextUtil.StripChar | ai_providers/groq_provider.py:28 | `strip(c)`, used with the backtick, leaves no `c` at either end |
| TextUtil.StripCharIsPiece | ai_providers/groq_provider.py:28 | what `strip(c)` keeps is a piece of the text with only `c` around it |
| TextUtil.WordsAreWords | services/planner.py:11 | `split()` yields only non-empty words without whitespace |
| TextUtil.WordsOfSpaces | services/chunker.py:11-13 | a blank text has no words |
| TextUtil.WordsAroundSpace | services/chunker.py:21 | whitespace separates words: the words of `a c b` are those of `a` then those of `b` |
| TextUtil.WordsOfStrip | ai_providers/groq_provider.py:79-80 | stripping never changes the words of a text |
| TextUtil.JoinSnoc | services/chunker.py:25 | joining one more piece appends the separator and the piece |
| TextUtil.WordsOfJoin | ai_providers/local_stub.py:11-12 | the words of a space-joined list are the words of its pieces, in order |
| TextUtil.WordsOfJoinedWords | services/chunker.py:26-27 | words joined by single spaces split back into the same words |
| TextUtil.ContainsAt | ai_providers/local_stub.py:52 | `needle in hay` holds exactly when `needle` occurs at some position of `hay` |
| TextUtil.ContainsSelf | ai_providers/local_stub.py:52 | every text contains itself |
| TextUtil.Find | ai_providers/groq_provider.py:33 | `find(c)` is -1 exactly when `c` is absent, else the first index holding `c` |
| TextUtil.Lower | app.py:251 | `lower()` keeps the length (ASCII mapping, see Left out) |
| TextUtil.Upper | app.py:251 | `upper()` keeps the length (ASCII mapping, see Left out) |
| TextUtil.PyTo | services/flashcards.py:26 | `xs[:j]` is a prefix of length `min(j, len)` for `j >= 0`, or `max(0, len + j)` for negative `j` |
| TextUtil.PyFrom | services/rag.py:50 | `xs[i:]` has length `max(0, len - i)` for `i >= 0`, or `min(-i, len)` for negative `i` |
| TextUtil.PyFromSuffix | services/rag.py:50 | `xs[-k:]` is the suffix of its own length |
| Json.Ws | ai_providers/groq_provider.py:41 | skipping JSON whitespace leaves text that starts with a non-whitespace character |
| Json.ParseStr | ai_providers/groq_provider.py:41 | a string literal consumes at least one character |
| Json.ParseNumber | ai_providers/groq_provider.py:41 | a number literal consumes at least one character |
| Json.ParseValue | ai_providers/groq_provider.py:41 | a value consumes at least one character |
| Json.ParseArray | ai_providers/groq_provider.py:41 | an array parse yields a list value |
| Json.ParseObject | ai_providers/groq_provider.py:41 | an object parse yields an object value |
| Json.ParseItems | ai_providers/groq_provider.py:41 | the array items consume input |
| Json.ParseMembers | ai_providers/groq_provider.py:41 | the object members consume input |
| Json.LoadsEmptyList | ai_providers/groq_provider.py:45 | `json.loads("[]")` succeeds with the empty list |
| Json.LoadsBracket | ai_providers/groq_provider.py:96-97 | text starting with `[` parses only to a list, and text starting with `{` only to a dict |
| Json.LastWith | ai_providers/groq_provider.py:108 | the position of the last member with a key, or -1 when no member has it |
| Json.Get | ai_providers/groq_provider.py:108 | `dict.get(key)`: the value of the last member with that key (duplicate keys keep the last), else absent |
| RegexSplit.Cut | services/rag.py:32 | where the first match starts: no boundary before it |
| RegexSplit.Rest | services/rag.py:32 | the text after the first separator is shorter than the text |
| RegexSplit.Split | services/rag.py:32 | `re.split` yields at least one piece |
| RegexSplit.SplitStep | services/rag.py:32 | the text is the first piece, the first separator, then the rest |
| RegexSplit.SplitReassembles | services/rag.py:32 | the pieces and the separators interleaved give back the text |
| RegexSplit.SplitSeparatorShapes | services/rag.py:32 | every separator has the pattern's shape (a whitespace run, a backslash then `s` run, or a mark then whitespace) |
| RegexSplit.SplitAroundSeparators | services/rag.py:32 | around each separator the pieces look as the pattern leaves them (the mark kept or consumed) |
| RegexSplit.SplitLeftmost | services/rag.py:32 | no piece contains a match: every separator is the leftmost one |
| RegexSplit.FirstPieceStarts | services/rag.py:32 | the first piece is a prefix of the text |
| RegexSplit.SeparatorAt | services/rag.py:32 | the first separator has the pattern's shape, with the text around it as the look-behind demands |
| RegexSplit.FirstPieceClean | services/rag.py:32 | no boundary lies inside the first piece |
| RegexSplit.NoBackslashNoSplit | services/chunker.py:5 | with the raw pattern `(?<=[.!?])\\s+`, text without a backslash is never split |
| RegexSplit.NoBoundaryNoSplit | services/rag.py:32 | a text the pattern never matches is one piece |
| RegexSplit.NoBoundaryOneSentence | services/rag.py:33 | ... and, when it is not blank, one stripped sentence |
| RegexSplit.KeepNonBlank | services/rag.py:33 | the comprehension keeps at most all pieces, each stripped and non-empty |
| RegexSplit.KeepNonBlankEmpty | services/rag.py:33 | the comprehension yields nothing exactly when every piece is blank |
| RegexSplit.KeepNonBlankSnoc | services/rag.py:33 | a non-blank last piece contributes its stripped self at the end |
| RegexSplit.KeepNonBlankAllPunct | services/rag.py:33 | pieces ending in a mark all survive and still end in it |
| RegexSplit.SentencesEndInPunct | services/rag.py:32-33 | with a look-behind pattern every sentence but the last ends in `.`, `!` or `?` |
| RegexSplit.SentencesEmptyIffBlank | services/rag.py:32-33 | with a look-behind pattern there is no sentence exactly when the text is blank |
| RegexSplit.BlankPiecesPunctSpace | ai_providers/local_stub.py:6 | if every piece of the mark-consuming split is blank, the text is only marks and whitespace |
| RegexSplit.SentencesEmptyPunctSpace | ai_providers/local_stub.py:6-7 | `_sentences` is empty only for text of marks and whitespace, and is empty for blank text |
| Provider.CountOf | ai_providers/local_stub.py:15-18 | `int(config.get(kind, 5))`: 5 when absent, else the given count |
| Provider.DifficultiesOf | ai_providers/local_stub.py:19 | the configured difficulties lower-cased one by one, or `easy, medium, hard` when absent |
| Groq.UnfenceShape | ai_providers/groq_provider.py:27-31 | without a leading fence the text is untouched; with one, every backtick at either end goes, and a leading `json` tag is dropped and the rest re-stripped |
| Groq.FirstBracket | ai_providers/groq_provider.py:33 | the first position holding `[` or `{`, or -1 when there is neither |
| Groq.SanitizeJson | ai_providers/groq_provider.py:22-45 | the method (with its early returns and the shrinking loop) computes `_sanitize_json` |
| Groq.LongestParseLoop | ai_providers/groq_provider.py:38-44 | the loop from `end = len(t)` down returns what the recursive search returns, for any parser (`json.loads` in `SanitizeJson`) |
| Groq.LongestParseStep | ai_providers/groq_provider.py:38-44 | one turn: the candidate at `end` when it parses, else the search from `end - 1` |
| Groq.LastOk | ai_providers/groq_provider.py:38-44 | the last end in `(start, end]` that is accepted, with nothing accepted after it |
| Groq.LongestParseIsLast | ai_providers/groq_provider.py:38-45 | the search returns the candidate at the last accepted end, or `"[]"` when none is accepted |
| Groq.LongestParseIsLongest | ai_providers/groq_provider.py:38-45 | `"[]"` when no candidate parses; otherwise the candidate at an end after which no longer candidate parses |
| Groq.CandidateFromBracket | ai_providers/groq_provider.py:39 | a candidate starts with the first bracket and is a piece of the text from there |
| Groq.RepairAccepted | ai_providers/groq_provider.py:22-45 | for any parser that accepts `"[]"`, the repaired text is accepted |
| Groq.SanitizeParses | ai_providers/groq_provider.py:22-45 | `json.loads(_sanitize_json(x))` never raises |
| Groq.RepairResult | ai_providers/groq_provider.py:23-45 | `"[]"` for an empty reply, for no bracket and for no parsing candidate; otherwise a stripped piece starting at the first bracket, cut at the last accepted end |
| Groq.SanitizeStart | ai_providers/groq_provider.py:33-39 | a result other than `"[]"` begins with the first bracket of the unfenced reply |
| Groq.Chat | ai_providers/groq_provider.py:52-68 | at most `retries + 1` calls; the result is the first reply holding `{` or `[`, or the last reply (`""` when no call is made) |
| Groq.Summarize | ai_providers/groq_provider.py:76-81 | title `Summary`, summary the stripped reply, `word_count` its whitespace word count |
| Groq.QuizRequestOf | ai_providers/groq_provider.py:84-93 | counts default to 5, difficulties lower-cased, context the first 8000 characters of the text |
| Groq.SanitizedValue | ai_providers/groq_provider.py:96 | the repaired reply always decodes: `"[]"` to the empty list, otherwise to a list or a dict by its first bracket |
| Groq.GenerateQuizResult | ai_providers/groq_provider.py:94-99 | no items when the reply has no bracket or its first bracket opens a dict; any items returned are the decoded list |
| Groq.GradeFreeformResult | ai_providers/groq_provider.py:105-110 | `Parse error` verdict when the reply has no bracket or opens a list; on a dict, `correct` is the truthiness of its last `correct` member |
| Groq.GetLast | ai_providers/groq_provider.py:108 | `obj.get(key)` is truthy exactly when the last member with that key is truthy |
| Chunker.SplitIntoSentencesShape | services/chunker.py:4-6 | pieces are stripped and non-empty; none exactly for blank or absent text; text without a backslash is one sentence |
| Chunker.FeedWindows | services/chunker.py:20-28 | a turn emits nothing, or the buffer with the new sentence joined by spaces |
| Chunker.FeedNoWindow | services/chunker.py:20-24 | a turn that emits nothing only buffers the sentence and adds its word count |
| Chunker.FeedSentences | services/chunker.py:17-28 | the loop computes the windowing state over all sentences |
| Chunker.RandomChunk | services/chunker.py:8-31 | `random_chunk` with the choices as parameters; with sentences, the result is one of the windows |
| Chunker.WordBranchUnreachable | services/chunker.py:9-15 | a text without sentences has no words, so the slicing branch never runs |
| Chunker.WordsOfJoinSnoc | services/chunker.py:21-25 | the joined buffer gains exactly the new sentence's words, at the end |
| Chunker.WordsOfTail | services/chunker.py:26-27 | the restarted buffer holds exactly the last `overlap` words |
| Chunker.FeedCounted | services/chunker.py:20-28 | a turn keeps `count` equal to the buffer's word count and emits at most one window, of at least `target_words` words |
| Chunker.FeedAllCounted | services/chunker.py:17-28 | over the whole loop `count` is the buffer's word count and every emitted window reaches `target_words` |
| Chunker.WindowsReachTarget | services/chunker.py:24-25 | every emitted window has at least `target_words` words |
| Chunker.FeedAllBeforeFirst | services/chunker.py:17-28 | before the first window the buffer is all the sentences so far, and `count` is their word count |
| Chunker.FewWordsOneWindow | services/chunker.py:29-30 | with fewer than `target_words` words in all, the only window is all sentences joined by spaces |
| Chunker.FeedSeeded | services/chunker.py:24-28 | a turn keeps the windows overlapping and the buffer seeded with the last window's tail |
| Chunker.FeedAllSeeded | services/chunker.py:17-28 | the loop keeps the windows overlapping |
| Chunker.WindowsOverlap | services/chunker.py:26-28 | each window after the first begins, word for word, with the last `overlap` words of the one before (`[-0:]` keeping all) |
| Chunker.WindowsNonEmpty | services/chunker.py:29-31 | every window to choose from is non-empty |
| Chunker.FeedAllNonEmpty | services/chunker.py:17-28 | every emitted window is non-empty |
| Chunker.RandomChunkEmpty | services/chunker.py:9-13 | `random_chunk` returns `""` exactly when the text is absent or blank |
| LocalStub.Summarize | ai_providers/local_stub.py:9-12 | title `Content Summary`; the first `min(6, #sentences)` sentences joined by single spaces, with exactly their words, or, when there is no sentence, the prefix of exactly `min(600, len(text))` characters, made only of whitespace and marks; `word_count` its word count |
| LocalStub.SummaryWords | ai_providers/local_stub.py:11-12 | the joined summary has exactly the words of its sentences; the fallback prefix holds only marks and whitespace |
| LocalStub.SummarizeUnmarked | ai_providers/local_stub.py:5-12 | a non-blank text without `.`, `!` or `?` is summarised as itself, stripped |
| LocalStub.AppendBlock | ai_providers/local_stub.py:21-27 | one `for i in range(n)` loop appends the block, or raises `ZeroDivisionError` on an empty difficulty list |
| LocalStub.GenerateQuiz | ai_providers/local_stub.py:14-47 | the four loops compute the stub quiz |
| LocalStub.BlockShape | ai_providers/local_stub.py:21-46 | a block has `max(0, n)` items of its kind, item `i` at difficulty `diffs[i % len(diffs)]`, repeating every `len(diffs)` items |
| LocalStub.BlockKinds | ai_providers/local_stub.py:21-46 | every item of a block has the block's kind |
| LocalStub.BlockAt | ai_providers/local_stub.py:23 | item `i` of a block is the template at difficulty `diffs[i % len(diffs)]` |
| LocalStub.StubQuizShape | ai_providers/local_stub.py:14-47 | fails exactly when a positive count meets no difficulty; otherwise `max(0,mcq)+max(0,tf)+max(0,short)+max(0,fill)` items grouped mcq, tf, short, fill |
| LocalStub.StubQuizDefault | ai_providers/local_stub.py:14-47 | with no configuration: 20 items, difficulties cycling easy, medium, hard |
| LocalStub.GradeFreeform | ai_providers/local_stub.py:49-54 | the reason is constant; correct only when both normalised answers are non-empty |
| LocalStub.GradeFreeformOccurs | ai_providers/local_stub.py:50-52 | correct exactly when both trimmed, lower-cased answers are non-empty and one occurs in the other |
| LocalStub.GradeFreeformSymmetric | ai_providers/local_stub.py:52 | swapping the ground truth and the answer never changes the verdict |
| LocalStub.GradeFreeformSame | ai_providers/local_stub.py:50-52 | answers equal after trimming and lower-casing are accepted unless blank |
| LocalStub.CardsShape | ai_providers/local_stub.py:59-63 | card `i` is made from sentence `i`, one card per sentence taken |
| LocalStub.CardLoop | ai_providers/local_stub.py:59-63 | the loop over `range(m)` yields the first `m` cards, or `IndexError` when `m` exceeds the sentences |
| LocalStub.MakeFlashcards | ai_providers/local_stub.py:56-64 | the method computes `make_flashcards` |
| LocalStub.StubFlashcardsCount | ai_providers/local_stub.py:56-64 | `IndexError` exactly when `n >= 1` and there is no sentence; otherwise `max(0, min(n, #sentences))` cards, card `i` from sentence `i` |
| LocalStub.CardOfShape | ai_providers/local_stub.py:60-62 | both sides non-blank; front at most 17+80+3 characters; back the sentence under 220 characters, else its first 220 plus `...` |
| LocalStub.StubCardsNonBlank | ai_providers/local_stub.py:56-64 | every stub card has a non-blank front and back |
| Flashcards.CardContext | services/flashcards.py:24-26 | the retrieved context when non-empty, else the first 3000 characters of the text (`""` for none) |
| Flashcards.KeepFilledCards | services/flashcards.py:35-40 | the filtering loop computes the filtered deck |
| Flashcards.KeptStep | services/flashcards.py:36-40 | one more card extends the deck by what that card contributes |
| Flashcards.TopUpCards | services/flashcards.py:31-33 | the branching method equals `TopUp`, whose shape `Flashcards.TopUpShape` states |
| Flashcards.TopUpShape | services/flashcards.py:31-33 | the backend's cards come first and unchanged; with `n` or more nothing is added; otherwise the stub appends the card of sentence `i` for the first `min(n - len(cards), #sentences)` sentences, failing with `IndexError` exactly when the context has no sentence |
| Flashcards.CardsFromRagBackendFirst | services/flashcards.py:27-42 | the backend's own cards that survive `[:n]` and the blank-side filter lead the deck, in order |
| Flashcards.MakeCardsFromRag | services/flashcards.py:22-41 | the method computes `make_cards_from_rag` from the retrieved context and the backend's cards |
| Flashcards.KeptShape | services/flashcards.py:37-40 | a card contributes exactly one card, both sides stripped, when both sides are non-blank, else none |
| Flashcards.KeepFilledClean | services/flashcards.py:35-40 | the kept cards are no more than the input, each with two stripped, non-empty sides |
| Flashcards.KeepFilledAppend | services/flashcards.py:35-40 | the filter distributes over concatenation, so it keeps order |
| Flashcards.KeepFilledAll | services/flashcards.py:35-40 | when every card is filled, all are kept, stripped, in order |
| Flashcards.CardsFromRagBounded | services/flashcards.py:35-40 | the deck is clean; at most `n` cards for `n >= 0`; for negative `n`, `cards[:n]` drops cards from the end |
| Flashcards.CardsFromRagStubOnly | services/flashcards.py:28-36 | with no backend cards, the deck is the stub's: `IndexError` exactly for `n >= 1` without sentences, else `max(0, min(n, #sentences))` cards |
| Flashcards.StubDeck | services/flashcards.py:31-36 | stub cards, all filled and no more than `n`, are all kept |
| Rag.SplitSentencesShape | services/rag.py:30-33 | sentences are stripped and non-empty, all but the last end in `.`, `?` or `!`, and there is none exactly for blank text |
| Rag.ChunkText | services/rag.py:35-56 | no sentences: exactly one chunk `text[:chunk_chars]`; otherwise a non-empty list of stripped, non-empty chunks |
| Rag.PackSentences | services/rag.py:43-53 | the sentence loop computes the packing state |
| Rag.PackOne | services/rag.py:44-53 | one turn: join the buffer when `len(buf)+len(s)+1 <= chunk_chars`, else flush it and restart from the overlap seed or the sentence |
| Rag.PackStep | services/rag.py:43-53 | the state after one more sentence is one more turn |
| Rag.StepClean | services/rag.py:44-53 | a turn keeps every chunk and the buffer stripped and leaves a non-empty buffer |
| Rag.StepJoinClean | services/rag.py:44-45 | the joining branch keeps the state clean |
| Rag.StepCutClean | services/rag.py:46-53 | the flushing branch keeps the state clean |
| Rag.PackClean | services/rag.py:41-53 | the loop keeps the state clean, with a non-empty buffer once a sentence has been seen |
| Rag.ChunksOfSentences | services/rag.py:37-56 | with a sentence, the chunks are the packed state flushed |
| Rag.FlushClean | services/rag.py:54-55 | the final flush yields at least one chunk, all stripped and non-empty |
| Rag.ChunksClean | services/rag.py:41-56 | with a sentence there is a chunk, and every chunk is stripped and non-empty |
| Rag.StepBounded | services/rag.py:44-53 | a turn keeps every chunk within `max(chunk_chars, overlap + 1 + longest sentence)` (or `max(chunk_chars, longest)` without overlap) |
| Rag.PackBounded | services/rag.py:41-53 | the loop keeps the chunks and the buffer within that bound |
| Rag.FlushBounded | services/rag.py:54-55 | flushing keeps the bound |
| Rag.ChunksBounded | services/rag.py:44-53 | every chunk is at most `max(chunk_chars, overlap + 1 + longest sentence)` when `overlap > 0`, else at most `max(chunk_chars, longest sentence)` |
| Rag.SeedShape | services/rag.py:50 | the seed is a non-empty suffix of the previous chunk, at most `overlap` characters |
| Rag.StepSeeds | services/rag.py:44-53 | a turn keeps every chunk beginning with the seed of the one before |
| Rag.StepJoinSeeds | services/rag.py:44-45 | joining keeps the seeded prefix of the buffer |
| Rag.StepCutSeeds | services/rag.py:47-51 | flushing starts the new buffer with the seed of the chunk just closed |
| Rag.SeedLeads | services/rag.py:50-51 | `(chunks[-1][-overlap:] + " " + s).strip()` begins with that chunk's seed |
| Rag.PackSeeds | services/rag.py:41-53 | the loop keeps the chunks and the buffer seeded |
| Rag.FlushSeeds | services/rag.py:54-55 | after the flush every chunk after the first begins with the previous chunk's seed |
| Rag.ChunksOverlap | services/rag.py:49-51 | with `overlap > 0` every chunk after the first begins with a non-empty suffix of the previous chunk of at most `overlap` characters |
| Rag.StepJoin | services/rag.py:44-53 | without overlap, a turn adds `" " + s` to the space-joined chunks |
| Rag.StepFirst | services/rag.py:44-45 | the first sentence becomes the buffer |
| Rag.PackJoin | services/rag.py:41-53 | without overlap, the space-joined chunks are the space-joined sentences |
| Rag.ChunksPartition | services/rag.py:41-56 | without overlap the chunks partition the sentences: joined by spaces they give the sentences joined by spaces |
| Rag.IndexOf | services/rag.py:67-69 | the stored index holds the chunks of `chunk_text` and one embedding row per chunk |
| Rag.Embeddings | services/rag.py:69 | `encode(chunks)`: row `i` embeds chunk `i` |
| Rag.RankDesc | services/rag.py:102 | `argsort(-sims)`: every chunk position once, by non-increasing score |
| Rag.RankStep | services/rag.py:102 | inserting the next position into a ranking gives a ranking |
| Rag.InsertPos | services/rag.py:102 | the place for a position: after every score at least as high, before every lower one |
| Rag.InsertDescSorted | services/rag.py:102 | insertion adds exactly the new position, keeps the positions distinct and keeps the order by score |
| Rag.Scores | services/rag.py:101 | the similarity of each stored row, in order |
| Rag.TopIndices | services/rag.py:102 | the chosen positions are chunk positions |
| Rag.HitsAt | services/rag.py:104-105 | one hit per chosen position: that chunk's text and score |
| Rag.RankingPrefix | services/rag.py:102 | `[:max(1, top_k)]` of a ranking holds `min(N, m)` distinct positions by non-increasing score |
| Rag.RankingPrefixBest | services/rag.py:102 | no position left out of the prefix scores higher than one kept |
| Rag.TopHitsProperties | services/rag.py:101-105 | `min(N, max(1, top_k))` hits, each a stored chunk with its score, scores non-increasing, none left out scoring higher |
| Rag.IndexStore.constructor | services/rag.py:18-22 | a fresh store holds no index |
| Rag.IndexStore.BuildIndex | services/rag.py:65-76 | overwrites the entry for the id, and only that entry, with the chunks and their rows; then `has_index` holds; returns the chunk count |
| Rag.IndexStore.EnsureIndex | services/rag.py:82-84 | builds with 800/120 only when no index exists, else the store is unchanged; afterwards `has_index` holds |
| Rag.IndexStore.Retrieve | services/rag.py:93-106 | no index: no hits; otherwise the top hits of the stored index |
| Rag.IndexStore.RetrieveHits | services/rag.py:103-106 | the collecting loop computes `retrieve` |
| Rag.IndexStore.BuildContext | services/rag.py:108-112 | the hit texts joined by blank lines, cut to `max_chars` (Python's negative slice when negative); `""` when there are no hits |
| Rag.Texts | services/rag.py:111 | the text of each hit, in order |
| Planner.EstimatePages | services/planner.py:7-12 | at least 1; the page count when non-zero, else word count // 300 |
| Planner.Difficulty | services/planner.py:18 | clamped to `[1, 3]`, 2 when the attribute is absent |
| Planner.PagesPerDay | services/planner.py:19-22 | at least 1, and the rounded weighted pages per day |
| Planner.ReviewPages | services/planner.py:51 | `chunk // 3 or 1` is at least 1, and `chunk // 3` from 3 pages on |
| Planner.QuizOffset | services/planner.py:58 | the quiz day lies within the window |
| Planner.AddReviews | services/planner.py:40-52 | the inner loop appends the reviews of a chunk |
| Planner.ScheduleDays | services/planner.py:27-54 | the day loop appends the schedule from the start day with nothing handed out |
| Planner.ScheduleStep | services/planner.py:30-54 | one day: a learn session of `min(ppd, left)` pages, its reviews, then the following days |
| Planner.BuildPlan | services/planner.py:14-68 | the method computes `build_plan` |
| Planner.ReviewsShape | services/planner.py:40-52 | each review falls at a listed offset after the learn day, inside `[start, end]`, with `chunk // 3 or 1` pages |
| Planner.ReviewsNoLearn | services/planner.py:40-52 | reviews carry no learn pages and no learn day |
| Planner.ScheduleInWindow | services/planner.py:30-54 | every scheduled session is in the window, is no quiz, has learn pages in `[1, ppd]`, and is a review only under `1-3-7` |
| Planner.ScheduleHead | services/planner.py:30-54 | a learn day contributes its date and its chunk |
| Planner.ScheduleLearnPages | services/planner.py:28-38 | total learn pages are `min(pages left, ppd * days left)` |
| Planner.ScheduleLearnDays | services/planner.py:29-30 | learn sessions fall on consecutive days from the start, never after the end |
| Planner.LearnDaysConsecutive | services/planner.py:29-54 | the learn days are consecutive from the current day |
| Planner.LearnDaysCount | services/planner.py:29-30 | there are no more learn days than days left |
| Planner.ScheduledCounts | services/planner.py:40-52 | no quiz among scheduled sessions, and no review without the `1-3-7` strategy |
| Planner.UnsortedShape | services/planner.py:27-65 | before sorting: all dates in `[start, end]`, learn pages `min(pages, ppd * days)`, consecutive learn days, one quiz exactly when `start <= end`, nothing when the end is before the start |
| Planner.QuizAppended | services/planner.py:57-65 | appending the quiz adds one quiz in the window and changes no other count |
| Planner.InsertMultiset | services/planner.py:67 | an insertion adds exactly one session |
| Planner.InsertSum | services/planner.py:67 | an insertion adds the session's share to any sum |
| Planner.InsertOnDay | services/planner.py:67 | an insertion puts the session after all sessions of its day |
| Planner.InsertSorted | services/planner.py:67 | an insertion keeps the list sorted by date |
| Planner.SortSorted | services/planner.py:67 | `sessions.sort(key=date)` orders by date |
| Planner.SortPermutes | services/planner.py:67 | the sort is a permutation |
| Planner.SortSum | services/planner.py:67 | a sum over the sessions is the same after sorting |
| Planner.SortStable | services/planner.py:67 | the sort is stable: the sessions of each day keep their order |
| Planner.SortedWindow | services/planner.py:67 | sorting keeps the sessions in the window and sorted |
| Planner.PlanShape | services/planner.py:14-68 | `pages` is the estimate; sessions sorted, in the window, learn pages `min(pages, ppd * days)`, one quiz exactly when `start <= end`, no review without `1-3-7`, none when the end is before the start |
| App.ParseInt | app.py:191-194 | `int(s)`: whatever it accepts has at most 4300 digits, so `str` can write it back |
| App.ParseDecimal | app.py:191-194 | `int(str(n)) == n` for every integer `str` can write (at most 4300 digits) |
| App.ParseRejects | app.py:191-194 | a value with a character other than the whitespace `int` skips (not U+001C to U+001F), a sign, a digit or an underscore raises `ValueError` |
| App.ParseTooLong | app.py:191-194 | a signed or unsigned numeral of more than 4300 digits raises `ValueError` |
| App.CountField | app.py:191-194 | a count is 5 when its field is absent, else `int` of the field |
| App.Checked | app.py:195-197 | the difficulties kept are exactly those whose lower-cased box is `on` |
| App.CheckedDefaults | app.py:195-197 | the checked difficulties are Easy, Medium, Hard box by box, in that order |
| App.SelectedDifficultiesShape | app.py:195-198 | one to three difficulties: exactly the checked ones, or all three when none is, in the order Easy, Medium, Hard |
| App.QuizConfigDefaults | app.py:190-199 | an empty form asks for five of each kind at all three difficulties |
| App.QuizConfigCounts | app.py:190-199 | each count is the number the form holds, for numbers of at most 4300 digits |
| App.Answer | app.py:247 | the answer read is stripped |
| App.Judge | app.py:250-259 | mcq and tf are judged by exact match, other kinds by the backend |
| App.GradeQuiz | app.py:241-261 | the loop and the percentage: the score, the answers and details by id, `round(100*score/max(1,n))` |
| App.GradeLoop | app.py:241-259 | the loop counts the questions judged correct and records each answer and verdict under its id |
| App.GradeStep | app.py:245-259 | one more question adds 1 exactly when it is judged correct, and overwrites its id's entry |
| App.ScoreBounds | app.py:241-258 | `0 <= score <= #questions`; all correct gives `#questions`, none gives 0 |
| App.PercentBounds | app.py:261 | the percentage lies in `[0, 100]`, is 0 without questions or without correct answers, and 100 when all are correct |
| App.GradeQuizBounds | app.py:241-261 | for a whole quiz, the score is at most the number of questions, the percentage lies in `[0, 100]`, and is 0 for no questions |
| App.ExactMatchIgnoresCase | app.py:250-253 | an mcq/tf answer is correct exactly when it equals the stored answer ignoring case (absent read as `''`), and the stored answer itself is correct |
| App.AnswerIgnoresPadding | app.py:247 | whitespace around a submitted answer is ignored |
| App.StubGradedFreeform | app.py:256-257 | with the offline backend, a short or fill answer is correct exactly when one normalised answer occurs in the other |
| App.RecordedPerQuestion | app.py:248 | every question's answer and verdict are recorded under its id, only ids of questions appear, and the last question with an id wins |
| App.ByIdRecords | app.py:248 | a dictionary filled per question holds exactly the ids, each with the last value written |

## Left out

- Embeddings and similarity are parameters: `embed` gives one row per chunk
  and `sim` scores a row against the query. SentenceTransformer, numpy,
  `cosine_similarity` and floating-point vectors are not modelled.
- The `.npy` and JSON files of the index store are not modelled. The store
  is the `entries` map of `Rag.IndexStore`. `set_store_dir`, `_doc_dir`,
  `_paths` and `_load` are left out, and so is the assertion that the
  store directory is set.
- Rag.RankDesc: `np.argsort` does not promise an order among equal scores.
  The model ranks equal scores by the lower chunk position.
- The Groq SDK, the network call, the temperature and `time.sleep` are not
  modelled. `Groq.Chat` takes the replies of successive calls as a
  parameter.
- Groq.GenerateQuizResult: the items are left as decoded JSON values. The
  source passes the decoded list on unchanged, and no shown file
  normalises items or enforces counts.
- Json.ParseValue: the contracts of the parsing functions state only that
  they make progress and which kind of value they return. The grammar lives
  in their bodies, and no round trip against a serialiser is proved.
- Json: a decoded number keeps its mantissa and exponent, and only its
  truthiness is computed (`FloatIsZero` models underflow to 0.0). `NaN`,
  `Infinity` and `-Infinity` are accepted as CPython does. Integer literals
  of more than 4300 digits are refused.
- Json.ParseArray: arrays nest to any depth. CPython's decoder raises
  `RecursionError` once nesting passes the interpreter's recursion limit,
  which depends on the call stack at the time. `_sanitize_json` catches
  that error and tries a shorter candidate, so for input nested that
  deeply `Groq.Sanitize` can return a candidate where the source returns
  `"[]"`. The same holds for Json.ParseObject.
- TextUtil.Lower: ASCII case mapping only. Python's full Unicode mapping
  also changes other letters and can change lengths. The same holds for
  TextUtil.Upper.
- App.ParseInt: only ASCII digits are accepted. Python's `int` also accepts
  other Unicode decimal digits.
- App.Answer: `str(q.id)` is taken to succeed; ids of more than 4300 digits,
  for which `str` raises `ValueError`, are not modelled.
- Planner.Difficulty: a `difficulty` attribute that is present but `None`
  makes `min(3, None)` raise `TypeError`. The model's `None` stands only for
  an absent attribute, so that error is not modelled.
- Planner.PagesPerDay: the weights 0.9, 1.0 and 1.25 are exact rationals.
  The binary rounding error of 0.9 can move a result that lies exactly half
  way, and that is not modelled.
- Planner.QuizOffset: `int(0.8 * m)` is computed on the exact product as
  `4m // 5`. Floating point gives the same value for realistic windows,
  but that is argued, not proved.
- App.Percent: computed on the exact quotient with round-half-even. Python
  first divides in floating point.
- Dates are day numbers. `strptime`, `isoformat` and the string ordering of
  ISO dates are not modelled. Sorting by day number stands in for sorting
  ISO strings, which agree for four-digit years.
- `daily_minutes` is not modelled. The source does not read it either.
- The random choices of `random_chunk` are parameters: `pick` for
  `random.choice` and `offset` for `random.randint`.
- Flashcards:
  - the backend's cards are a parameter (`None` when the backend returns
    nothing), so any backend is covered;
  - the provider singleton and its environment lookup are not modelled;
  - the hosted backend has no `make_flashcards` method, and that is not
    modelled;
  - `build_context`'s result is the `retrieved` parameter.
- `LocalStub.explain_topic` is not modelled. Nothing in the modelled code
  calls it.
- App:
  - Flask routing, sessions, templates and the database are not modelled;
  - `quizzer.grade_freeform` is the `grader` parameter, and its `correct`
    field is taken as already reduced to a boolean;
  - the rest of `quiz_generate` and `quiz_grade` is not modelled.
- `ai_providers/ollama_provider.py`, `services/summarizer.py`,
  `services/coach.py`, `services/quizzer.py`, `models.py`,
  `services/extract_text.py` and `ai_providers/base.py` are not part of
  this model.
- The provider exceptions that the modelled code does not catch are
  `Err` results, for example `ZeroDivisionError`, `IndexError` and
  `ValueError`. Exceptions raised inside the network client are not
  modelled.
