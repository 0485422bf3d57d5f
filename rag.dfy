/**
 * Retrieval support: sentence splitting, greedy sentence-window chunking
 * with a character overlap, the per-document index store, top-k retrieval
 * over abstract similarity scores and bounded context assembly.
 */
module Rag {
  import opened Common
  import opened TextUtil
  import opened RegexSplit

  const DefaultChunkChars := 800
  const DefaultOverlap := 120

  /** `_split_sentences(text)`: split the stripped text at whitespace runs
      that follow `.`, `?` or `!`, then keep the stripped, non-blank pieces. */
  function SplitSentences(text: string): seq<string> {
    Sentences(AfterPunctSpace, Strip(text))
  }

  /** Every sentence is non-empty and stripped, every sentence but the last
      ends with the punctuation mark it was cut after, and a text has no
      sentence exactly when it is blank. */
  lemma SplitSentencesShape(text: string)
    ensures var r := SplitSentences(text);
      && Clean(r)
      && (forall k :: 0 <= k < |r| - 1 ==> EndsInPunct(r[k]))
      && (r == [] <==> AllSpace(text))
  {
    SentencesEndInPunct(AfterPunctSpace, Strip(text));
    SentencesEmptyIffBlank(AfterPunctSpace, Strip(text));
    StripEmptyIffAllSpace(text);
    StripEmptyIffAllSpace(Strip(text));
  }

  /** Non-empty, stripped pieces. */
  predicate Clean(xs: seq<string>) {
    forall k :: 0 <= k < |xs| ==> xs[k] != [] && IsStripped(xs[k])
  }

  /** The loop state of `chunk_text`: the chunks so far and the buffer. */
  datatype Packing = Packing(chunks: seq<string>, buf: string)

  /** One turn of the loop of `chunk_text` for sentence `s`. */
  function Step(st: Packing, s: string, chunkChars: int, overlap: int): Packing {
    if |st.buf| + |s| + 1 <= chunkChars then Packing(st.chunks, Strip(st.buf + " " + s))
    else
      var chunks := if st.buf != [] then st.chunks + [st.buf] else st.chunks;
      if overlap > 0 && chunks != [] then
        Packing(chunks, Strip(PyFrom(chunks[|chunks| - 1], -overlap) + " " + s))
      else Packing(chunks, s)
  }

  /** The loop state after the given sentences. */
  function Pack(sents: seq<string>, chunkChars: int, overlap: int): Packing {
    if sents == [] then Packing([], "")
    else Step(Pack(sents[..|sents| - 1], chunkChars, overlap), sents[|sents| - 1], chunkChars, overlap)
  }

  /** The chunks once a non-empty buffer has been flushed. */
  function Flush(st: Packing): seq<string> {
    if st.buf != [] then st.chunks + [st.buf] else st.chunks
  }

  /** What `chunk_text(text, chunk_chars, overlap)` returns. */
  function Chunks(text: string, chunkChars: int, overlap: int): seq<string> {
    var sents := SplitSentences(text);
    if sents == [] then [PyTo(text, chunkChars)] else Flush(Pack(sents, chunkChars, overlap))
  }

  /** `chunk_text`. */
  method ChunkText(text: string, chunkChars: int, overlap: int) returns (chunks: seq<string>)
    ensures chunks == Chunks(text, chunkChars, overlap)
    ensures SplitSentences(text) == [] ==> chunks == [PyTo(text, chunkChars)]
    ensures SplitSentences(text) != [] ==> chunks != [] && Clean(chunks)
  {
    var sents := SplitSentences(text);
    if sents == [] {
      return [PyTo(text, chunkChars)];
    }
    var buf;
    chunks, buf := PackSentences(sents, chunkChars, overlap);
    if buf != "" {
      chunks := chunks + [buf];
    }
    ChunksOfSentences(text, chunkChars, overlap);
    ChunksClean(text, chunkChars, overlap);
  }

  /** The loop of `chunk_text` over the sentences, before the last flush. */
  method PackSentences(sents: seq<string>, chunkChars: int, overlap: int) returns (chunks: seq<string>, buf: string)
    ensures Packing(chunks, buf) == Pack(sents, chunkChars, overlap)
  {
    chunks := [];
    buf := "";
    var i := 0;
    while i < |sents|
      invariant 0 <= i <= |sents|
      invariant Packing(chunks, buf) == Pack(sents[..i], chunkChars, overlap)
    {
      PackStep(sents, i, chunkChars, overlap);
      chunks, buf := PackOne(chunks, buf, sents[i], chunkChars, overlap);
      i := i + 1;
    }
    assert sents[..|sents|] == sents;
  }

  /** One turn of the loop of `chunk_text`. */
  method PackOne(chunks0: seq<string>, buf0: string, s: string, chunkChars: int, overlap: int)
    returns (chunks: seq<string>, buf: string)
    ensures Packing(chunks, buf) == Step(Packing(chunks0, buf0), s, chunkChars, overlap)
  {
    chunks, buf := chunks0, buf0;
    if |buf| + |s| + 1 <= chunkChars {
      buf := Strip(buf + " " + s);
    } else {
      if buf != "" {
        chunks := chunks + [buf];
      }
      if overlap > 0 && chunks != [] {
        var tail := PyFrom(chunks[|chunks| - 1], -overlap);
        buf := Strip(tail + " " + s);
      } else {
        buf := s;
      }
    }
  }

  lemma PackStep(sents: seq<string>, i: nat, chunkChars: int, overlap: int)
    requires i < |sents|
    ensures Pack(sents[..i + 1], chunkChars, overlap) == Step(Pack(sents[..i], chunkChars, overlap), sents[i], chunkChars, overlap)
  {
    assert sents[..i + 1][..i] == sents[..i];
  }

  /** The state the loop keeps: chunks and buffer stripped, and a
      non-empty buffer once there is a chunk. */
  predicate CleanState(st: Packing) {
    Clean(st.chunks) && IsStripped(st.buf) && (st.chunks != [] ==> st.buf != [])
  }

  /** One turn keeps the state clean and leaves a non-empty buffer. */
  lemma StepClean(st: Packing, s: string, chunkChars: int, overlap: int)
    requires CleanState(st) && s != [] && IsStripped(s)
    ensures CleanState(Step(st, s, chunkChars, overlap))
    ensures Step(st, s, chunkChars, overlap).buf != []
  {
    if |st.buf| + |s| + 1 <= chunkChars {
      StepJoinClean(st, s, chunkChars, overlap);
    } else {
      StepCutClean(st, s, chunkChars, overlap);
    }
  }

  /** The sentence joins the buffer. */
  lemma StepJoinClean(st: Packing, s: string, chunkChars: int, overlap: int)
    requires CleanState(st) && s != [] && IsStripped(s)
    requires |st.buf| + |s| + 1 <= chunkChars
    ensures CleanState(Step(st, s, chunkChars, overlap))
    ensures Step(st, s, chunkChars, overlap).buf != []
  {
    if st.buf == [] {
      assert st.buf + " " + s == " " + s;
      StripSpaceThen(s);
    } else {
      StripJoined(st.buf, s);
    }
  }

  /** The buffer becomes a chunk and a new buffer starts. */
  lemma StepCutClean(st: Packing, s: string, chunkChars: int, overlap: int)
    requires CleanState(st) && s != [] && IsStripped(s)
    requires |st.buf| + |s| + 1 > chunkChars
    ensures CleanState(Step(st, s, chunkChars, overlap))
    ensures Step(st, s, chunkChars, overlap).buf != []
  {
    var chunks := if st.buf != [] then st.chunks + [st.buf] else st.chunks;
    assert Clean(chunks);
    if overlap > 0 && chunks != [] {
      var last := chunks[|chunks| - 1];
      var tail := PyFrom(last, -overlap);
      assert tail[|tail| - 1] == last[|last| - 1];
      StripTailThen(tail, s);
    }
  }

  /** The loop keeps every chunk and the buffer stripped, and the buffer is
      non-empty from the first sentence on. */
  lemma {:induction false} PackClean(sents: seq<string>, chunkChars: int, overlap: int)
    requires Clean(sents)
    ensures CleanState(Pack(sents, chunkChars, overlap))
    ensures sents != [] ==> Pack(sents, chunkChars, overlap).buf != []
  {
    if sents != [] {
      var init := sents[..|sents| - 1];
      PackClean(init, chunkChars, overlap);
      StepClean(Pack(init, chunkChars, overlap), sents[|sents| - 1], chunkChars, overlap);
    }
  }

  lemma ChunksOfSentences(text: string, chunkChars: int, overlap: int)
    requires SplitSentences(text) != []
    ensures Chunks(text, chunkChars, overlap) == Flush(Pack(SplitSentences(text), chunkChars, overlap))
  {
  }

  lemma FlushClean(sents: seq<string>, chunkChars: int, overlap: int)
    requires Clean(sents) && sents != []
    ensures var r := Flush(Pack(sents, chunkChars, overlap)); r != [] && Clean(r)
  {
    PackClean(sents, chunkChars, overlap);
  }

  /** When the text has a sentence, there is a chunk and no chunk is empty
      or has whitespace at either end. */
  lemma ChunksClean(text: string, chunkChars: int, overlap: int)
    requires SplitSentences(text) != []
    ensures Chunks(text, chunkChars, overlap) != [] && Clean(Chunks(text, chunkChars, overlap))
  {
    ChunksOfSentences(text, chunkChars, overlap);
    FlushClean(SplitSentences(text), chunkChars, overlap);
  }

  /** The longest length among the pieces. */
  function Longest(xs: seq<string>): (n: nat)
    ensures forall k :: 0 <= k < |xs| ==> |xs[k]| <= n
    ensures xs != [] ==> exists k :: 0 <= k < |xs| && |xs[k]| == n
  {
    if xs == [] then 0 else Max(Longest(xs[..|xs| - 1]), |xs[|xs| - 1]|)
  }

  /** The length no chunk exceeds when the longest sentence has `longest` characters. */
  function ChunkBound(chunkChars: int, overlap: int, longest: nat): int {
    if overlap > 0 then Max(chunkChars, overlap + 1 + longest) else Max(chunkChars, longest)
  }

  /** Chunks and a non-empty buffer within the bound. */
  predicate Bounded(st: Packing, b: int) {
    && (forall k :: 0 <= k < |st.chunks| ==> |st.chunks[k]| <= b)
    && (st.buf == [] || |st.buf| <= b)
  }

  lemma StepBounded(st: Packing, s: string, chunkChars: int, overlap: int, longest: nat)
    requires Bounded(st, ChunkBound(chunkChars, overlap, longest)) && |s| <= longest
    ensures Bounded(Step(st, s, chunkChars, overlap), ChunkBound(chunkChars, overlap, longest))
  {
    var b := ChunkBound(chunkChars, overlap, longest);
    if |st.buf| + |s| + 1 > chunkChars {
      var chunks := if st.buf != [] then st.chunks + [st.buf] else st.chunks;
      assert forall k :: 0 <= k < |chunks| ==> |chunks[k]| <= b;
    }
  }

  lemma {:induction false} PackBounded(sents: seq<string>, chunkChars: int, overlap: int, longest: nat)
    requires forall k :: 0 <= k < |sents| ==> |sents[k]| <= longest
    ensures Bounded(Pack(sents, chunkChars, overlap), ChunkBound(chunkChars, overlap, longest))
  {
    if sents != [] {
      var init := sents[..|sents| - 1];
      PackBounded(init, chunkChars, overlap, longest);
      StepBounded(Pack(init, chunkChars, overlap), sents[|sents| - 1], chunkChars, overlap, longest);
    }
  }

  lemma FlushBounded(st: Packing, b: int)
    requires Bounded(st, b)
    ensures forall k :: 0 <= k < |Flush(st)| ==> |Flush(st)[k]| <= b
  {
  }

  /** A chunk is never longer than `chunk_chars`, or than the longest
      sentence (plus the overlap seed and a space when `overlap > 0`) when
      that is more. */
  lemma ChunksBounded(text: string, chunkChars: int, overlap: int)
    requires SplitSentences(text) != []
    ensures var r := Chunks(text, chunkChars, overlap);
      var b := ChunkBound(chunkChars, overlap, Longest(SplitSentences(text)));
      forall k :: 0 <= k < |r| ==> |r[k]| <= b
  {
    var sents := SplitSentences(text);
    ChunksOfSentences(text, chunkChars, overlap);
    PackBounded(sents, chunkChars, overlap, Longest(sents));
    FlushBounded(Pack(sents, chunkChars, overlap), ChunkBound(chunkChars, overlap, Longest(sents)));
  }

  /** The text a new buffer is seeded with: the last `overlap` characters of
      the previous chunk, with the leading whitespace that `strip` removes. */
  function Seed(prev: string, overlap: int): string {
    LStrip(PyFrom(prev, -overlap))
  }

  /** The seed is a non-empty suffix of the previous chunk, at most
      `overlap` characters long. */
  lemma SeedShape(prev: string, overlap: int)
    requires prev != [] && IsStripped(prev) && overlap > 0
    ensures var sd := Seed(prev, overlap);
      sd != [] && |sd| <= overlap && sd == prev[|prev| - |sd|..]
  {
    var tail := PyFrom(prev, -overlap);
    assert tail[|tail| - 1] == prev[|prev| - 1];
    LStripKeepsLast(tail);
    LStripDropsSpace(tail);
  }

  /** `rel` holds between every element and the next. */
  predicate Chained(xs: seq<string>, rel: (string, string) -> bool) {
    |xs| <= 1 || (Chained(xs[..|xs| - 1], rel) && rel(xs[|xs| - 2], xs[|xs| - 1]))
  }

  /** `c` begins with the seed taken from `prev`. */
  function LeadsWith(overlap: int): (string, string) -> bool {
    (prev, c) => Seed(prev, overlap) <= c
  }

  /** The chunks are seeded, and so is a non-empty buffer. */
  predicate Seeded(st: Packing, overlap: int) {
    Chained(st.chunks, LeadsWith(overlap)) &&
    (st.chunks != [] ==> Seed(st.chunks[|st.chunks| - 1], overlap) <= st.buf)
  }

  lemma {:induction false} ChainedAll(xs: seq<string>, rel: (string, string) -> bool)
    requires Chained(xs, rel)
    ensures forall i :: 1 <= i < |xs| ==> rel(xs[i - 1], xs[i])
  {
    if |xs| > 1 {
      var init := xs[..|xs| - 1];
      ChainedAll(init, rel);
      forall i | 1 <= i < |xs|
        ensures rel(xs[i - 1], xs[i])
      {
        if i < |init| {
          assert xs[i - 1] == init[i - 1] && xs[i] == init[i];
        }
      }
    }
  }

  lemma ChainedSnoc(xs: seq<string>, c: string, rel: (string, string) -> bool)
    requires Chained(xs, rel)
    requires xs != [] ==> rel(xs[|xs| - 1], c)
    ensures Chained(xs + [c], rel)
  {
    assert (xs + [c])[..|xs|] == xs;
  }

  lemma StepSeeds(st: Packing, s: string, chunkChars: int, overlap: int)
    requires overlap > 0 && CleanState(st) && Seeded(st, overlap) && s != [] && IsStripped(s)
    ensures Seeded(Step(st, s, chunkChars, overlap), overlap)
  {
    if |st.buf| + |s| + 1 <= chunkChars {
      StepJoinSeeds(st, s, chunkChars, overlap);
    } else if st.buf != [] {
      StepCutSeeds(st, s, chunkChars, overlap);
    }
  }

  lemma StepJoinSeeds(st: Packing, s: string, chunkChars: int, overlap: int)
    requires overlap > 0 && CleanState(st) && Seeded(st, overlap) && s != [] && IsStripped(s)
    requires |st.buf| + |s| + 1 <= chunkChars
    ensures Seeded(Step(st, s, chunkChars, overlap), overlap)
  {
    var b2 := Strip(st.buf + " " + s);
    assert Step(st, s, chunkChars, overlap) == Packing(st.chunks, b2);
    if st.chunks != [] {
      StripJoined(st.buf, s);
      PrefixTrans(Seed(st.chunks[|st.chunks| - 1], overlap), st.buf, b2);
    }
  }

  lemma StepCutSeeds(st: Packing, s: string, chunkChars: int, overlap: int)
    requires overlap > 0 && CleanState(st) && Seeded(st, overlap) && s != [] && IsStripped(s)
    requires |st.buf| + |s| + 1 > chunkChars && st.buf != []
    ensures Seeded(Step(st, s, chunkChars, overlap), overlap)
  {
    var b2 := Strip(PyFrom(st.buf, -overlap) + " " + s);
    assert Step(st, s, chunkChars, overlap) == Packing(st.chunks + [st.buf], b2);
    SeedLeads(st.buf, s, overlap);
    ChainedSnoc(st.chunks, st.buf, LeadsWith(overlap));
  }

  /** The new buffer starts with the seed of the chunk just closed. */
  lemma SeedLeads(prev: string, s: string, overlap: int)
    requires prev != [] && IsStripped(prev) && overlap > 0 && s != [] && IsStripped(s)
    ensures Seed(prev, overlap) <= Strip(PyFrom(prev, -overlap) + " " + s)
  {
    var tail := PyFrom(prev, -overlap);
    assert tail[|tail| - 1] == prev[|prev| - 1];
    StripTailThen(tail, s);
  }

  lemma {:induction false} PackSeeds(sents: seq<string>, chunkChars: int, overlap: int)
    requires Clean(sents) && overlap > 0
    ensures Seeded(Pack(sents, chunkChars, overlap), overlap)
  {
    if sents != [] {
      var init := sents[..|sents| - 1];
      PackSeeds(init, chunkChars, overlap);
      PackClean(init, chunkChars, overlap);
      StepSeeds(Pack(init, chunkChars, overlap), sents[|sents| - 1], chunkChars, overlap);
    }
  }

  lemma FlushSeeds(st: Packing, overlap: int)
    requires Seeded(st, overlap)
    ensures var r := Flush(st); forall i :: 1 <= i < |r| ==> Seed(r[i - 1], overlap) <= r[i]
  {
    var r := Flush(st);
    if st.buf != [] {
      ChainedSnoc(st.chunks, st.buf, LeadsWith(overlap));
    }
    ChainedAll(r, LeadsWith(overlap));
  }

  /** With `overlap > 0` every chunk after the first begins with the seed
      taken from the chunk before it. */
  lemma ChunksOverlap(text: string, chunkChars: int, overlap: int)
    requires overlap > 0
    ensures var r := Chunks(text, chunkChars, overlap);
      forall i :: 1 <= i < |r| ==> Seed(r[i - 1], overlap) <= r[i]
  {
    var sents := SplitSentences(text);
    if sents != [] {
      assert Clean(sents);
      ChunksOfSentences(text, chunkChars, overlap);
      PackSeeds(sents, chunkChars, overlap);
      FlushSeeds(Pack(sents, chunkChars, overlap), overlap);
    }
  }

  lemma StepJoin(st: Packing, s: string, chunkChars: int, overlap: int)
    requires overlap <= 0 && CleanState(st) && st.buf != [] && s != [] && IsStripped(s)
    ensures Join(" ", Flush(Step(st, s, chunkChars, overlap))) == Join(" ", Flush(st)) + " " + s
  {
    if |st.buf| + |s| + 1 <= chunkChars {
      StripJoined(st.buf, s);
      JoinExtendLast(" ", st.chunks, st.buf, s);
    } else {
      JoinSnoc(" ", st.chunks + [st.buf], s);
    }
  }

  lemma StepFirst(s: string, chunkChars: int, overlap: int)
    requires s != [] && IsStripped(s)
    ensures Flush(Step(Packing([], ""), s, chunkChars, overlap)) == [s]
  {
    if |s| + 1 <= chunkChars {
      assert "" + " " + s == " " + s;
      StripSpaceThen(s);
    }
  }

  lemma {:induction false} PackJoin(sents: seq<string>, chunkChars: int, overlap: int)
    requires Clean(sents) && overlap <= 0
    ensures Join(" ", Flush(Pack(sents, chunkChars, overlap))) == Join(" ", sents)
  {
    if sents != [] {
      var init := sents[..|sents| - 1];
      var s := sents[|sents| - 1];
      assert sents == init + [s];
      if init == [] {
        StepFirst(s, chunkChars, overlap);
      } else {
        PackJoin(init, chunkChars, overlap);
        PackClean(init, chunkChars, overlap);
        StepJoin(Pack(init, chunkChars, overlap), s, chunkChars, overlap);
        JoinSnoc(" ", init, s);
      }
    }
  }

  /** Without overlap the chunks partition the sentences: joined by spaces
      they give back the sentences joined by spaces. */
  lemma ChunksPartition(text: string, chunkChars: int, overlap: int)
    requires overlap <= 0 && SplitSentences(text) != []
    ensures Join(" ", Chunks(text, chunkChars, overlap)) == Join(" ", SplitSentences(text))
  {
    assert Clean(SplitSentences(text));
    ChunksOfSentences(text, chunkChars, overlap);
    PackJoin(SplitSentences(text), chunkChars, overlap);
  }

  /** An embedding row. */
  type Row = seq<real>

  /** What the store keeps for one document: its chunks and one embedding
      row per chunk. */
  datatype DocIndex = DocIndex(chunks: seq<string>, rows: seq<Row>)

  predicate WellFormed(ix: DocIndex) { |ix.rows| == |ix.chunks| }

  /** The index `build_index` writes: the chunks and their embeddings. */
  function IndexOf(text: string, embed: string -> Row, chunkChars: int, overlap: int): (ix: DocIndex)
    ensures WellFormed(ix)
    ensures ix.chunks == Chunks(text, chunkChars, overlap)
  {
    var chunks := Chunks(text, chunkChars, overlap);
    DocIndex(chunks, Embeddings(chunks, embed))
  }

  /** `model.encode(chunks)`: one row per chunk, in order. */
  function Embeddings(chunks: seq<string>, embed: string -> Row): (rows: seq<Row>)
    ensures |rows| == |chunks| && forall i :: 0 <= i < |chunks| ==> rows[i] == embed(chunks[i])
  {
    seq(|chunks|, i requires 0 <= i < |chunks| => embed(chunks[i]))
  }

  /** One retrieved chunk. */
  datatype Hit = Hit(text: string, score: real)

  /** The indices `0..n-1` ordered by descending score; equal scores keep
      index order. */
  function RankDesc(scores: seq<real>, n: nat): (r: seq<nat>)
    requires n <= |scores|
    ensures Ranking(scores, r, n)
  {
    if n == 0 then []
    else
      var prev := RankDesc(scores, n - 1);
      RankStep(scores, prev, n);
      InsertDesc(scores, prev, n - 1)
  }

  /** `r` orders the indices `0..n-1`, each once, by descending score. */
  predicate Ranking(scores: seq<real>, r: seq<nat>, n: nat) {
    && |r| == n && InRange(r, n) && Distinct(r)
    && (forall j :: 0 <= j < n ==> j in r)
    && SortedDesc(scores, r)
  }

  /** Inserting index `n - 1` into a ranking of `0..n-2` ranks `0..n-1`. */
  lemma RankStep(scores: seq<real>, prev: seq<nat>, n: nat)
    requires 0 < n <= |scores| && Ranking(scores, prev, n - 1)
    ensures InRange(prev, |scores|)
    ensures Ranking(scores, InsertDesc(scores, prev, n - 1), n)
  {
    InsertDescSorted(scores, prev, n - 1);
  }

  predicate InRange(r: seq<nat>, n: nat) { forall k :: 0 <= k < |r| ==> r[k] < n }

  predicate Distinct(r: seq<nat>) { forall p, q :: 0 <= p < q < |r| ==> r[p] != r[q] }

  predicate SortedDesc(scores: seq<real>, r: seq<nat>) {
    forall p, q :: 0 <= p < q < |r| ==> r[p] < |scores| && r[q] < |scores| && scores[r[p]] >= scores[r[q]]
  }

  /** Where index `i` goes in `order`: after every index whose score is at
      least its own, scanning from the back. */
  function InsertPos(scores: seq<real>, order: seq<nat>, i: nat): (k: nat)
    requires i < |scores| && InRange(order, |scores|)
    ensures k <= |order|
    ensures forall t :: k <= t < |order| ==> scores[order[t]] < scores[i]
    ensures k > 0 ==> scores[order[k - 1]] >= scores[i]
  {
    if order == [] then 0
    else if scores[order[|order| - 1]] >= scores[i] then |order|
    else InsertPos(scores, order[..|order| - 1], i)
  }

  /** Put index `i` at its place in `order`. */
  function InsertDesc(scores: seq<real>, order: seq<nat>, i: nat): seq<nat>
    requires i < |scores| && InRange(order, |scores|)
  {
    var k := InsertPos(scores, order, i);
    order[..k] + [i] + order[k..]
  }

  /** Inserting a new index into a ranking of the ones before it gives a
      ranking of one more index. */
  lemma InsertDescSorted(scores: seq<real>, order: seq<nat>, i: nat)
    requires i < |scores| && InRange(order, i) && Distinct(order) && SortedDesc(scores, order)
    ensures var r := InsertDesc(scores, order, i);
      && |r| == |order| + 1 && InRange(r, i + 1) && Distinct(r)
      && (forall x :: x in r <==> x in order || x == i)
      && SortedDesc(scores, r)
  {
    var k := InsertPos(scores, order, i);
    var r := InsertDesc(scores, order, i);
    SpliceAt(order, k, i);
    InsertedRange(r, order, k, i);
    InsertedMembers(r, order, k, i);
    InsertedSorted(scores, r, order, k, i);
  }

  /** `r` is `order` with `i` put at position `k`. */
  predicate InsertedAt(r: seq<nat>, order: seq<nat>, k: nat, i: nat) {
    && k <= |order| && |r| == |order| + 1
    && (forall t :: 0 <= t < |r| ==>
         (t < k ==> r[t] == order[t]) && (t == k ==> r[t] == i) && (t > k ==> r[t] == order[t - 1]))
  }

  lemma SpliceAt(order: seq<nat>, k: nat, i: nat)
    requires k <= |order|
    ensures InsertedAt(order[..k] + [i] + order[k..], order, k, i)
  {
  }

  lemma InsertedRange(r: seq<nat>, order: seq<nat>, k: nat, i: nat)
    requires InsertedAt(r, order, k, i) && InRange(order, i) && Distinct(order)
    ensures InRange(r, i + 1) && Distinct(r)
  {
    forall t | 0 <= t < |r|
      ensures r[t] < i + 1
    {
      if t < k {
        assert r[t] == order[t];
      } else if t > k {
        assert r[t] == order[t - 1];
      }
    }
    forall p, q | 0 <= p < q < |r|
      ensures r[p] != r[q]
    {
      if p != k && q != k {
        var p', q' := if p < k then p else p - 1, if q < k then q else q - 1;
        assert r[p] == order[p'] && r[q] == order[q'];
      }
    }
  }

  lemma InsertedMembers(r: seq<nat>, order: seq<nat>, k: nat, i: nat)
    requires InsertedAt(r, order, k, i)
    ensures forall x :: x in r <==> x in order || x == i
  {
    forall x
      ensures x in r <==> x in order || x == i
    {
      if x in order {
        var t :| 0 <= t < |order| && order[t] == x;
        assert r[if t < k then t else t + 1] == x;
      }
      if x == i {
        assert r[k] == x;
      }
      if x in r {
        var t :| 0 <= t < |r| && r[t] == x;
        if t != k {
          assert order[if t < k then t else t - 1] == x;
        }
      }
    }
  }

  lemma InsertedSorted(scores: seq<real>, r: seq<nat>, order: seq<nat>, k: nat, i: nat)
    requires InsertedAt(r, order, k, i) && i < |scores| && InRange(order, i) && Distinct(order)
    requires SortedDesc(scores, order)
    requires forall t :: k <= t < |order| ==> scores[order[t]] < scores[i]
    requires k > 0 ==> scores[order[k - 1]] >= scores[i]
    ensures SortedDesc(scores, r)
  {
    InsertedRange(r, order, k, i);
    forall p, q | 0 <= p < q < |r|
      ensures r[p] < |scores| && r[q] < |scores| && scores[r[p]] >= scores[r[q]]
    {
      if p < k && q == k {
        if p < k - 1 {
          assert scores[order[p]] >= scores[order[k - 1]];
        }
      } else if p < k && q > k {
        assert scores[order[q - 1]] < scores[i];
        if p < k - 1 {
          assert scores[order[p]] >= scores[order[k - 1]];
        }
      } else if p == k {
        assert scores[order[q - 1]] < scores[i];
      } else if p > k {
        assert r[p] == order[p - 1] && r[q] == order[q - 1];
      }
    }
  }

  function Scores(ix: DocIndex, sim: Row -> real): (s: seq<real>)
    ensures |s| == |ix.rows| && forall i :: 0 <= i < |ix.rows| ==> s[i] == sim(ix.rows[i])
  {
    seq(|ix.rows|, i requires 0 <= i < |ix.rows| => sim(ix.rows[i]))
  }

  /** The chunk positions `retrieve` picks: the best `max(1, top_k)`. */
  function TopIndices(ix: DocIndex, sim: Row -> real, topK: int): (idxs: seq<nat>)
    ensures InRange(idxs, |ix.rows|)
  {
    var scores := Scores(ix, sim);
    PyTo(RankDesc(scores, |scores|), Max(1, topK))
  }

  /** The hit for each chosen chunk position, in order. */
  function HitsAt(ix: DocIndex, sim: Row -> real, idxs: seq<nat>): (hits: seq<Hit>)
    requires WellFormed(ix) && InRange(idxs, |ix.chunks|)
    ensures |hits| == |idxs|
    ensures forall k :: 0 <= k < |idxs| ==> hits[k] == Hit(ix.chunks[idxs[k]], sim(ix.rows[idxs[k]]))
  {
    seq(|idxs|, k requires 0 <= k < |idxs| => Hit(ix.chunks[idxs[k]], sim(ix.rows[idxs[k]])))
  }

  /** The hits `retrieve` returns for a stored document. */
  function TopHits(ix: DocIndex, sim: Row -> real, topK: int): seq<Hit>
    requires WellFormed(ix)
  {
    HitsAt(ix, sim, TopIndices(ix, sim, topK))
  }

  /** A prefix of a ranking is a ranking of what it keeps. */
  lemma RankingPrefix(scores: seq<real>, order: seq<nat>, m: int)
    requires Ranking(scores, order, |scores|) && m >= 1
    ensures var idxs := PyTo(order, m);
      |idxs| == Min(|scores|, m) && InRange(idxs, |scores|) && Distinct(idxs) && SortedDesc(scores, idxs)
  {
    var idxs := PyTo(order, m);
    assert forall t :: 0 <= t < |idxs| ==> idxs[t] == order[t];
  }

  /** A prefix of a full ranking holds the best scores: nothing left out
      scores above anything kept. */
  lemma RankingPrefixBest(scores: seq<real>, order: seq<nat>, m: int)
    requires Ranking(scores, order, |scores|)
    ensures var idxs := PyTo(order, m);
      forall j, k :: 0 <= j < |scores| && j !in idxs && 0 <= k < |idxs| ==> scores[j] <= scores[idxs[k]]
  {
    var idxs := PyTo(order, m);
    forall j, k | 0 <= j < |scores| && j !in idxs && 0 <= k < |idxs|
      ensures scores[j] <= scores[idxs[k]]
    {
      assert j in order;
      var q :| 0 <= q < |order| && order[q] == j;
      assert q >= |idxs| by {
        assert forall t :: 0 <= t < |idxs| ==> idxs[t] == order[t];
      }
      assert order[k] == idxs[k];
    }
  }

  /** `max(1, top_k)` hits (or every chunk when there are fewer), each a
      stored chunk with its own score, no chunk twice, best score first, and
      no chunk left out scores above a chunk picked. */
  lemma TopHitsProperties(ix: DocIndex, sim: Row -> real, topK: int)
    requires WellFormed(ix)
    ensures var idxs := TopIndices(ix, sim, topK);
      var hits := TopHits(ix, sim, topK);
      var n := |ix.chunks|;
      && |hits| == |idxs| == Min(n, Max(1, topK))
      && InRange(idxs, n) && Distinct(idxs)
      && (forall k :: 0 <= k < |hits| ==>
            hits[k] == Hit(ix.chunks[idxs[k]], sim(ix.rows[idxs[k]])))
      && (forall p, q :: 0 <= p < q < |hits| ==> hits[p].score >= hits[q].score)
      && (forall j, k :: 0 <= j < n && j !in idxs && 0 <= k < |hits| ==>
            sim(ix.rows[j]) <= hits[k].score)
  {
    var scores := Scores(ix, sim);
    var order := RankDesc(scores, |scores|);
    var idxs := TopIndices(ix, sim, topK);
    assert idxs == PyTo(order, Max(1, topK));
    RankingPrefix(scores, order, Max(1, topK));
    RankingPrefixBest(scores, order, Max(1, topK));
  }

  /** The on-disk store: document id to its index. */
  class IndexStore {
    var entries: map<int, DocIndex>

    predicate Valid()
      reads this
    {
      forall d :: d in entries ==> WellFormed(entries[d])
    }

    constructor()
      ensures entries == map[] && Valid()
    {
      entries := map[];
    }

    /** `has_index`. */
    predicate HasIndex(doc: int)
      reads this
    {
      doc in entries
    }

    /** `build_index`: chunk the text, embed each chunk and overwrite the
        document's entry; returns the number of chunks. */
    method BuildIndex(doc: int, text: string, embed: string -> Row, chunkChars: int, overlap: int)
      returns (count: nat)
      requires Valid()
      modifies this
      ensures Valid() && HasIndex(doc)
      ensures entries == old(entries)[doc := IndexOf(text, embed, chunkChars, overlap)]
      ensures count == |Chunks(text, chunkChars, overlap)|
    {
      var chunks := ChunkText(text, chunkChars, overlap);
      var rows := Embeddings(chunks, embed);
      entries := entries[doc := DocIndex(chunks, rows)];
      count := |chunks|;
    }

    /** `ensure_index`: build with the default sizes only when no index exists. */
    method EnsureIndex(doc: int, text: string, embed: string -> Row)
      requires Valid()
      modifies this
      ensures Valid() && HasIndex(doc)
      ensures old(HasIndex(doc)) ==> entries == old(entries)
      ensures !old(HasIndex(doc)) ==>
        entries == old(entries)[doc := IndexOf(text, embed, DefaultChunkChars, DefaultOverlap)]
    {
      if !HasIndex(doc) {
        var _ := BuildIndex(doc, text, embed, DefaultChunkChars, DefaultOverlap);
      }
    }

    /** `retrieve(doc_id, query, top_k)`, with `sim` giving the similarity of
        the query to an embedding row. */
    function Retrieve(doc: int, sim: Row -> real, topK: int): (hits: seq<Hit>)
      reads this
      requires Valid()
      ensures !HasIndex(doc) ==> hits == []
      ensures HasIndex(doc) ==> hits == TopHits(entries[doc], sim, topK)
    {
      if doc !in entries then [] else TopHits(entries[doc], sim, topK)
    }

    /** `retrieve`: the loop that collects the hits of the chosen chunk
        positions. */
    method RetrieveHits(doc: int, sim: Row -> real, topK: int) returns (hits: seq<Hit>)
      requires Valid()
      ensures hits == Retrieve(doc, sim, topK)
    {
      if doc !in entries {
        return [];
      }
      var ix := entries[doc];
      var idxs := TopIndices(ix, sim, topK);
      hits := [];
      for t := 0 to |idxs|
        invariant |hits| == t
        invariant forall k :: 0 <= k < t ==> hits[k] == Hit(ix.chunks[idxs[k]], sim(ix.rows[idxs[k]]))
      {
        var i := idxs[t];
        hits := hits + [Hit(ix.chunks[i], sim(ix.rows[i]))];
      }
    }

    /** `build_context`: the hit texts joined by blank lines, cut to
        `max_chars` as a slice does. */
    function BuildContext(doc: int, sim: Row -> real, topK: int, maxChars: int): (r: string)
      reads this
      requires Valid()
      ensures var combined := Join("\n\n", Texts(Retrieve(doc, sim, topK)));
        && r <= combined
        && (maxChars >= 0 ==> |r| == Min(maxChars, |combined|))
        && (maxChars < 0 ==> |r| == Max(0, |combined| + maxChars))
      ensures Retrieve(doc, sim, topK) == [] ==> r == []
    {
      var combined := Join("\n\n", Texts(Retrieve(doc, sim, topK)));
      if combined == [] then [] else PyTo(combined, maxChars)
    }
  }

  function Texts(hits: seq<Hit>): (r: seq<string>)
    ensures |r| == |hits| && forall k :: 0 <= k < |hits| ==> r[k] == hits[k].text
  {
    seq(|hits|, k requires 0 <= k < |hits| => hits[k].text)
  }
}
