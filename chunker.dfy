/**
 * The word-window chunker: sentences (cut where the raw pattern
 * `(?<=[.!?])\\s+` matches, that is at a backslash and a run of `s` after
 * `.`, `!` or `?`) are gathered into windows of at least `target_words`
 * words, each window after the first restarting from the last `overlap`
 * words of the one before, and one window is picked.
 */
module Chunker {
  import opened Common
  import opened TextUtil
  import opened RegexSplit

  const DefaultTargetWords := 300
  const DefaultOverlap := 40

  /** `split_into_sentences(text)`. */
  function SplitIntoSentences(text: Option<string>): seq<string> {
    Sentences(AfterPunctBackslashS, OrEmpty(text))
  }

  /** Every sentence is non-empty and stripped; there is none exactly when
      the text is absent or blank; and a text without a backslash is one
      sentence, its stripped self. */
  lemma SplitIntoSentencesShape(text: Option<string>)
    ensures forall k :: 0 <= k < |SplitIntoSentences(text)| ==>
      SplitIntoSentences(text)[k] != [] && IsStripped(SplitIntoSentences(text)[k])
    ensures SplitIntoSentences(text) == [] <==> AllSpace(OrEmpty(text))
    ensures '\\' !in OrEmpty(text) && !AllSpace(OrEmpty(text)) ==>
      SplitIntoSentences(text) == [Strip(OrEmpty(text))]
  {
    var t := OrEmpty(text);
    SentencesEmptyIffBlank(AfterPunctBackslashS, t);
    if '\\' !in t && !AllSpace(t) {
      NoBackslashNoSplit(t);
      StripEmptyIffAllSpace(t);
      KeepNonBlankSnoc([], t);
      assert [] + [t] == [t];
    }
  }

  /** The loop state of `random_chunk`: the windows so far, the buffered
      pieces and the running word count. */
  datatype Windowing = Windowing(windows: seq<string>, buf: seq<string>, count: int)

  /** One turn of the loop for sentence `s`. */
  function Feed(st: Windowing, s: string, targetWords: int, overlap: int): Windowing {
    var buf := st.buf + [s];
    var count := st.count + |Words(s)|;
    if count >= targetWords then
      var joined := Join(" ", buf);
      var tail := PyFrom(Words(joined), -overlap);
      Windowing(st.windows + [joined], [Join(" ", tail)], |tail|)
    else Windowing(st.windows, buf, count)
  }

  /** A turn emits nothing or the buffer with the new sentence joined. */
  lemma FeedWindows(st: Windowing, s: string, targetWords: int, overlap: int)
    ensures var ws := Feed(st, s, targetWords, overlap).windows;
      ws == st.windows || ws == st.windows + [Join(" ", st.buf + [s])]
  {
  }

  /** The loop state after the given sentences. */
  function FeedAll(sents: seq<string>, targetWords: int, overlap: int): Windowing {
    if sents == [] then Windowing([], [], 0)
    else Feed(FeedAll(sents[..|sents| - 1], targetWords, overlap), sents[|sents| - 1], targetWords, overlap)
  }

  /** The windows the loop emits. */
  function Emitted(sents: seq<string>, targetWords: int, overlap: int): seq<string> {
    FeedAll(sents, targetWords, overlap).windows
  }

  /** The windows `random_chunk` chooses from: those the loop emitted, or
      all the sentences joined when it emitted none. */
  function Windows(sents: seq<string>, targetWords: int, overlap: int): seq<string> {
    var ws := Emitted(sents, targetWords, overlap);
    if ws == [] then [Join(" ", sents)] else ws
  }

  /** `" ".join(words[start:start + target_words])` for a start drawn by
      `randint(0, max(0, len(words) - target_words))`, here `offset` reduced
      into that range. */
  function WordWindow(words: seq<string>, targetWords: int, offset: nat): string {
    var start := if |words| <= targetWords then 0 else offset % (Max(0, |words| - targetWords) + 1);
    Join(" ", PyFrom(PyTo(words, start + targetWords), start))
  }

  /** `random_chunk(text, target_words, overlap)`, with `pick` standing for
      `random.choice` and `offset` for `random.randint`. */
  function RandomChunkOf(text: Option<string>, targetWords: int, overlap: int, pick: nat, offset: nat): string {
    var sents := SplitIntoSentences(text);
    if sents == [] then
      var words := Words(OrEmpty(text));
      if words == [] then "" else WordWindow(words, targetWords, offset)
    else
      var ws := Windows(sents, targetWords, overlap);
      ws[pick % |ws|]
  }

  /** The loop of `random_chunk` over its sentences. */
  method FeedSentences(sents: seq<string>, targetWords: int, overlap: int) returns (st: Windowing)
    ensures st == FeedAll(sents, targetWords, overlap)
  {
    var windows, buf, count := [], [], 0;
    var i := 0;
    while i < |sents|
      invariant 0 <= i <= |sents|
      invariant Windowing(windows, buf, count) == FeedAll(sents[..i], targetWords, overlap)
    {
      var s := sents[i];
      var w := |Words(s)|;
      buf := buf + [s];
      count := count + w;
      if count >= targetWords {
        windows := windows + [Join(" ", buf)];
        var tailWords := PyFrom(Words(Join(" ", buf)), -overlap);
        buf := [Join(" ", tailWords)];
        count := |tailWords|;
      }
      assert sents[..i + 1][..i] == sents[..i];
      i := i + 1;
    }
    assert sents[..|sents|] == sents;
    st := Windowing(windows, buf, count);
  }

  /** `random_chunk`. */
  method RandomChunk(text: Option<string>, targetWords: int, overlap: int, pick: nat, offset: nat)
    returns (r: string)
    ensures r == RandomChunkOf(text, targetWords, overlap, pick, offset)
    ensures SplitIntoSentences(text) != [] ==> r in Windows(SplitIntoSentences(text), targetWords, overlap)
  {
    var sents := SplitIntoSentences(text);
    if sents == [] {
      var words := Words(OrEmpty(text));
      if words == [] {
        return "";
      }
      return WordWindow(words, targetWords, offset);
    }
    var st := FeedSentences(sents, targetWords, overlap);
    var windows := st.windows;
    if windows == [] {
      windows := [Join(" ", sents)];
    }
    r := windows[pick % |windows|];
  }

  /** The branch that slices the words of a text without sentences never
      runs past its first test: no sentence means no word. */
  lemma WordBranchUnreachable(text: Option<string>)
    ensures SplitIntoSentences(text) == [] ==> Words(OrEmpty(text)) == []
  {
    SplitIntoSentencesShape(text);
    if AllSpace(OrEmpty(text)) {
      WordsOfSpaces(OrEmpty(text));
    }
  }

  /** The running count is the number of words in the buffer. */
  predicate Counted(st: Windowing) {
    st.count == |Words(Join(" ", st.buf))|
  }

  lemma WordsOfJoinSnoc(buf: seq<string>, s: string)
    ensures |Words(Join(" ", buf + [s]))| == |Words(Join(" ", buf))| + |Words(s)|
    ensures Words(Join(" ", buf)) <= Words(Join(" ", buf + [s]))
  {
    WordsOfJoin(buf + [s]);
    WordsOfJoin(buf);
    WordsOfAllAppend(buf, s);
  }

  /** The words of the restarted buffer are the tail words themselves. */
  lemma WordsOfTail(joined: string, overlap: int)
    ensures var tail := PyFrom(Words(joined), -overlap);
      Words(Join(" ", [Join(" ", tail)])) == tail
  {
    var ws := Words(joined);
    var tail := PyFrom(ws, -overlap);
    WordsAreWords(joined);
    assert forall k :: 0 <= k < |tail| ==> IsWord(tail[k]) by {
      forall k | 0 <= k < |tail|
        ensures IsWord(tail[k])
      {
        assert tail[k] == ws[|ws| - |tail| + k];
      }
    }
    WordsOfJoinedWords(tail);
    assert Join(" ", [Join(" ", tail)]) == Join(" ", tail);
  }

  /** One turn keeps the count equal to the words in the buffer, and a
      window it emits has at least `target_words` words. */
  lemma FeedCounted(st: Windowing, s: string, targetWords: int, overlap: int)
    requires Counted(st)
    ensures var st2 := Feed(st, s, targetWords, overlap);
      && Counted(st2)
      && st.windows <= st2.windows
      && |st2.windows| <= |st.windows| + 1
      && (|st2.windows| == |st.windows| + 1 ==> |Words(st2.windows[|st.windows|])| >= targetWords)
  {
    WordsOfJoinSnoc(st.buf, s);
    var joined := Join(" ", st.buf + [s]);
    WordsOfTail(joined, overlap);
  }

  lemma {:induction false} FeedAllCounted(sents: seq<string>, targetWords: int, overlap: int)
    ensures Counted(FeedAll(sents, targetWords, overlap))
    ensures forall k :: 0 <= k < |Emitted(sents, targetWords, overlap)| ==>
      |Words(Emitted(sents, targetWords, overlap)[k])| >= targetWords
  {
    if sents == [] {
      assert Join(" ", []) == "";
    } else {
      var init := sents[..|sents| - 1];
      FeedAllCounted(init, targetWords, overlap);
      var st := FeedAll(init, targetWords, overlap);
      assert st.windows == Emitted(init, targetWords, overlap);
      FeedCounted(st, sents[|sents| - 1], targetWords, overlap);
      var st2 := FeedAll(sents, targetWords, overlap);
      assert st2 == Feed(st, sents[|sents| - 1], targetWords, overlap);
      FeedWindows(st, sents[|sents| - 1], targetWords, overlap);
      forall k | 0 <= k < |st2.windows|
        ensures |Words(st2.windows[k])| >= targetWords
      {
        if k < |st.windows| {
          assert st2.windows[k] == st.windows[k];
        } else {
          assert st2.windows[k] == Join(" ", st.buf + [sents[|sents| - 1]]);
        }
      }
    }
  }

  /** Every window the loop emits holds at least `target_words` words. */
  lemma WindowsReachTarget(sents: seq<string>, targetWords: int, overlap: int)
    ensures forall k :: 0 <= k < |Emitted(sents, targetWords, overlap)| ==>
      |Words(Emitted(sents, targetWords, overlap)[k])| >= targetWords
  {
    FeedAllCounted(sents, targetWords, overlap);
  }

  /** Before the first window the buffer is all the sentences so far and
      the count their words. */
  lemma {:induction false} FeedAllBeforeFirst(sents: seq<string>, targetWords: int, overlap: int)
    requires FeedAll(sents, targetWords, overlap).windows == []
    ensures FeedAll(sents, targetWords, overlap) == Windowing([], sents, |Words(Join(" ", sents))|)
  {
    if sents != [] {
      var init, s := sents[..|sents| - 1], sents[|sents| - 1];
      var st := FeedAll(init, targetWords, overlap);
      assert FeedAll(sents, targetWords, overlap) == Feed(st, s, targetWords, overlap);
      FeedWindows(st, s, targetWords, overlap);
      FeedAllBeforeFirst(init, targetWords, overlap);
      FeedNoWindow(st, s, targetWords, overlap);
      WordsOfJoinSnoc(init, s);
      assert init + [s] == sents;
    }
  }

  /** A turn that emits no window only buffers the sentence. */
  lemma FeedNoWindow(st: Windowing, s: string, targetWords: int, overlap: int)
    requires Feed(st, s, targetWords, overlap).windows == st.windows
    ensures Feed(st, s, targetWords, overlap) == Windowing(st.windows, st.buf + [s], st.count + |Words(s)|)
  {
  }

  /** When all the sentences together have fewer than `target_words` words
      no window is emitted, and the only window is the sentences joined by
      single spaces. */
  lemma {:induction false} FewWordsOneWindow(sents: seq<string>, targetWords: int, overlap: int)
    requires |Words(Join(" ", sents))| < targetWords
    ensures FeedAll(sents, targetWords, overlap).windows == []
    ensures Windows(sents, targetWords, overlap) == [Join(" ", sents)]
  {
    if sents != [] {
      var init := sents[..|sents| - 1];
      var s := sents[|sents| - 1];
      assert init + [s] == sents;
      WordsOfJoinSnoc(init, s);
      FewWordsOneWindow(init, targetWords, overlap);
      FeedAllBeforeFirst(init, targetWords, overlap);
    }
  }

  /** Every window after the first begins, word for word, with the last
      `overlap` words of the window before it (all of them when `overlap` is
      0, since `[-0:]` is the whole list). */
  predicate Overlapping(ws: seq<string>, overlap: int) {
    |ws| <= 1 ||
    (Overlapping(ws[..|ws| - 1], overlap) &&
     PyFrom(Words(ws[|ws| - 2]), -overlap) <= Words(ws[|ws| - 1]))
  }

  /** The windows overlap, and the buffer begins with the tail of the last
      window. */
  predicate Seeded(st: Windowing, overlap: int) {
    Overlapping(st.windows, overlap) &&
    (st.windows != [] ==>
       PyFrom(Words(st.windows[|st.windows| - 1]), -overlap) <= Words(Join(" ", st.buf)))
  }

  lemma FeedSeeded(st: Windowing, s: string, targetWords: int, overlap: int)
    requires Seeded(st, overlap)
    ensures Seeded(Feed(st, s, targetWords, overlap), overlap)
  {
    WordsOfJoinSnoc(st.buf, s);
    var buf := st.buf + [s];
    var joined := Join(" ", buf);
    var st2 := Feed(st, s, targetWords, overlap);
    if st.count + |Words(s)| >= targetWords {
      WordsOfTail(joined, overlap);
      var ws2 := st.windows + [joined];
      assert st2.windows == ws2;
      assert ws2[..|ws2| - 1] == st.windows;
      if st.windows != [] {
        assert ws2[|ws2| - 2] == st.windows[|st.windows| - 1];
        PrefixTrans(PyFrom(Words(st.windows[|st.windows| - 1]), -overlap),
                    Words(Join(" ", st.buf)), Words(joined));
      }
    } else if st.windows != [] {
      PrefixTrans(PyFrom(Words(st.windows[|st.windows| - 1]), -overlap),
                  Words(Join(" ", st.buf)), Words(joined));
    }
  }

  lemma {:induction false} FeedAllSeeded(sents: seq<string>, targetWords: int, overlap: int)
    ensures Seeded(FeedAll(sents, targetWords, overlap), overlap)
  {
    if sents != [] {
      var init := sents[..|sents| - 1];
      FeedAllSeeded(init, targetWords, overlap);
      FeedSeeded(FeedAll(init, targetWords, overlap), sents[|sents| - 1], targetWords, overlap);
    }
  }

  lemma {:induction false} OverlappingAll(ws: seq<string>, overlap: int)
    requires Overlapping(ws, overlap)
    ensures forall k :: 1 <= k < |ws| ==> PyFrom(Words(ws[k - 1]), -overlap) <= Words(ws[k])
  {
    if |ws| > 1 {
      var init := ws[..|ws| - 1];
      OverlappingAll(init, overlap);
      forall k | 1 <= k < |ws|
        ensures PyFrom(Words(ws[k - 1]), -overlap) <= Words(ws[k])
      {
        if k < |init| {
          assert ws[k - 1] == init[k - 1] && ws[k] == init[k];
        }
      }
    }
  }

  /** Each emitted window after the first starts with the last `overlap`
      words of the one before it. */
  lemma WindowsOverlap(sents: seq<string>, targetWords: int, overlap: int)
    ensures forall k :: 1 <= k < |Emitted(sents, targetWords, overlap)| ==>
      PyFrom(Words(Emitted(sents, targetWords, overlap)[k - 1]), -overlap) <= Words(Emitted(sents, targetWords, overlap)[k])
  {
    FeedAllSeeded(sents, targetWords, overlap);
    OverlappingAll(FeedAll(sents, targetWords, overlap).windows, overlap);
  }

  /** A window ends with a sentence, so none is empty. */
  lemma {:induction false} WindowsNonEmpty(sents: seq<string>, targetWords: int, overlap: int)
    requires forall k :: 0 <= k < |sents| ==> sents[k] != []
    ensures sents != [] ==> forall k :: 0 <= k < |Windows(sents, targetWords, overlap)| ==>
      Windows(sents, targetWords, overlap)[k] != []
  {
    if sents != [] {
      FeedAllNonEmpty(sents, targetWords, overlap);
      JoinEndsWith(sents);
      var fed := FeedAll(sents, targetWords, overlap).windows;
      if fed == [] {
        assert Windows(sents, targetWords, overlap) == [Join(" ", sents)];
      } else {
        assert Windows(sents, targetWords, overlap) == fed;
      }
    }
  }

  lemma JoinEndsWith(xs: seq<string>)
    requires xs != [] && xs[|xs| - 1] != []
    ensures Join(" ", xs) != []
  {
  }

  lemma {:induction false} FeedAllNonEmpty(sents: seq<string>, targetWords: int, overlap: int)
    requires forall k :: 0 <= k < |sents| ==> sents[k] != []
    ensures forall k :: 0 <= k < |Emitted(sents, targetWords, overlap)| ==> Emitted(sents, targetWords, overlap)[k] != []
  {
    if sents != [] {
      var init := sents[..|sents| - 1];
      var s := sents[|sents| - 1];
      FeedAllNonEmpty(init, targetWords, overlap);
      var st := FeedAll(init, targetWords, overlap);
      assert st.windows == Emitted(init, targetWords, overlap);
      JoinEndsWith(st.buf + [s]);
      var st2 := FeedAll(sents, targetWords, overlap);
      assert st2 == Feed(st, s, targetWords, overlap);
      FeedWindows(st, s, targetWords, overlap);
      forall k | 0 <= k < |st2.windows|
        ensures st2.windows[k] != []
      {
        if k < |st.windows| {
          assert st2.windows[k] == st.windows[k];
        } else {
          assert st2.windows[k] == Join(" ", st.buf + [s]);
        }
      }
    }
  }

  /** `random_chunk` returns "" exactly when the text is absent or blank. */
  lemma RandomChunkEmpty(text: Option<string>, targetWords: int, overlap: int, pick: nat, offset: nat)
    ensures RandomChunkOf(text, targetWords, overlap, pick, offset) == "" <==> AllSpace(OrEmpty(text))
  {
    SplitIntoSentencesShape(text);
    WordBranchUnreachable(text);
    var sents := SplitIntoSentences(text);
    if sents != [] {
      WindowsNonEmpty(sents, targetWords, overlap);
    }
  }
}
