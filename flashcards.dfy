/**
 * Flashcards from retrieved context: the context falls back to the start of
 * the document, the backend's cards are topped up from the offline stub,
 * cut to the requested number, stripped, and the ones with a blank side
 * dropped.
 */
module Flashcards {
  import opened Common
  import opened TextUtil
  import opened Provider
  import opened LocalStub

  const ContextFallbackChars := 3000

  /** A card as the deck keeps it: both sides stripped and non-empty. */
  datatype Flashcard = Flashcard(front: string, back: string)

  /** The context the cards are made from: the retrieved context, or the
      first 3000 characters of the document when retrieval gave nothing. */
  function CardContext(retrieved: string, fullText: Option<string>): (ctx: string)
    ensures retrieved != "" ==> ctx == retrieved
    ensures retrieved == "" ==> ctx <= OrEmpty(fullText) && |ctx| == Min(ContextFallbackChars, |OrEmpty(fullText)|)
  {
    if retrieved != "" then retrieved else PyTo(OrEmpty(fullText), ContextFallbackChars)
  }

  /** `f(x)` for every `x` of `xs`, concatenated left to right. */
  function FlatMap<A, B>(xs: seq<A>, f: A -> seq<B>): seq<B> {
    if xs == [] then [] else FlatMap(xs[..|xs| - 1], f) + f(xs[|xs| - 1])
  }

  /** What one card contributes to the deck. */
  function Kept(c: Card): seq<Flashcard> {
    var f, b := Strip(OrEmpty(c.front)), Strip(OrEmpty(c.back));
    if f != [] && b != [] then [Flashcard(f, b)] else []
  }

  /** The loop over `cards[:n]`: each card stripped, kept when both sides
      are non-blank. */
  function KeepFilled(cards: seq<Card>): seq<Flashcard> {
    FlatMap(cards, Kept)
  }

  /** The backend's cards, topped up from the stub when there are fewer
      than `n`; the stub's `IndexError` passes through. */
  function TopUp(cards: seq<Card>, ctx: string, n: int): Result<seq<Card>> {
    if |cards| < n then
      var extra := StubFlashcards(Some(ctx), n - |cards|);
      if extra.Err? then Err(extra.error) else Ok(cards + extra.value)
    else Ok(cards)
  }

  /** `make_cards_from_rag(doc_id, full_text, n)` as a value, given the
      retrieved context and the backend's answer (`None` for `None`). */
  function CardsFromRag(retrieved: string, fullText: Option<string>, n: int, provided: Option<seq<Card>>): Result<seq<Flashcard>> {
    var ctx := CardContext(retrieved, fullText);
    var cards := if provided.Some? then provided.value else [];
    var all := TopUp(cards, ctx, n);
    if all.Err? then Err(all.error) else Ok(KeepFilled(PyTo(all.value, n)))
  }

  /** The filtering loop. */
  method KeepFilledCards(cards: seq<Card>) returns (out: seq<Flashcard>)
    ensures out == KeepFilled(cards)
  {
    out := [];
    var i := 0;
    while i < |cards|
      invariant 0 <= i <= |cards|
      invariant out == FlatMap(cards[..i], Kept)
    {
      var f := Strip(OrEmpty(cards[i].front));
      var b := Strip(OrEmpty(cards[i].back));
      KeptStep(cards, i);
      if f != [] && b != [] {
        out := out + [Flashcard(f, b)];
      }
      i := i + 1;
    }
    assert cards[..i] == cards;
  }

  lemma KeptStep(cards: seq<Card>, i: nat)
    requires i < |cards|
    ensures FlatMap(cards[..i + 1], Kept) == FlatMap(cards[..i], Kept) + Kept(cards[i])
  {
    assert cards[..i + 1][..i] == cards[..i];
  }

  /** The stub top-up. */
  method TopUpCards(cards: seq<Card>, ctx: string, n: int) returns (r: Result<seq<Card>>)
    ensures r == TopUp(cards, ctx, n)
  {
    if |cards| < n {
      var extra := MakeFlashcards(Some(ctx), n - |cards|);
      if extra.Err? {
        return Err(extra.error);
      }
      return Ok(cards + extra.value);
    }
    return Ok(cards);
  }

  /** `make_cards_from_rag`. */
  method MakeCardsFromRag(retrieved: string, fullText: Option<string>, n: int, provided: Option<seq<Card>>)
    returns (r: Result<seq<Flashcard>>)
    ensures r == CardsFromRag(retrieved, fullText, n, provided)
  {
    var ctx := CardContext(retrieved, fullText);
    var cards := if provided.Some? then provided.value else [];
    var all := TopUpCards(cards, ctx, n);
    if all.Err? {
      return Err(all.error);
    }
    var kept := KeepFilledCards(PyTo(all.value, n));
    return Ok(kept);
  }

  lemma FlatMapSnoc<A, B>(xs: seq<A>, x: A, f: A -> seq<B>)
    ensures FlatMap(xs + [x], f) == FlatMap(xs, f) + f(x)
  {
    assert (xs + [x])[..|xs|] == xs;
  }

  lemma SnocSplit<T>(a: seq<T>, b: seq<T>)
    requires b != []
    ensures a + b == (a + b[..|b| - 1]) + [b[|b| - 1]]
    ensures b == b[..|b| - 1] + [b[|b| - 1]]
  {
  }

  /** Concatenating the images distributes over concatenation. */
  lemma {:induction false} FlatMapAppend<A, B>(a: seq<A>, b: seq<A>, f: A -> seq<B>)
    ensures FlatMap(a + b, f) == FlatMap(a, f) + FlatMap(b, f)
    decreases |b|
  {
    if b == [] {
      assert a + b == a;
    } else {
      var b', last := b[..|b| - 1], b[|b| - 1];
      SnocSplit(a, b);
      FlatMapAppend(a, b', f);
      FlatMapSnoc(a + b', last, f);
      FlatMapSnoc(b', last, f);
    }
  }

  /** Images of at most one element give at most one element per input;
      and a property every image element has, every output element has. */
  lemma {:induction false} FlatMapEvery<A, B>(xs: seq<A>, f: A -> seq<B>, p: B -> bool)
    requires forall i :: 0 <= i < |xs| ==> |f(xs[i])| <= 1
    requires forall i, k :: 0 <= i < |xs| && 0 <= k < |f(xs[i])| ==> p(f(xs[i])[k])
    ensures |FlatMap(xs, f)| <= |xs|
    ensures forall k :: 0 <= k < |FlatMap(xs, f)| ==> p(FlatMap(xs, f)[k])
  {
    if xs != [] {
      var init, last := xs[..|xs| - 1], xs[|xs| - 1];
      assert forall i :: 0 <= i < |init| ==> init[i] == xs[i];
      FlatMapEvery(init, f, p);
      var r, head := FlatMap(xs, f), FlatMap(init, f);
      assert r == head + f(last);
      forall k | 0 <= k < |r|
        ensures p(r[k])
      {
        if k < |head| {
          assert r[k] == head[k];
        } else {
          assert r[k] == f(xs[|xs| - 1])[k - |head|];
        }
      }
    }
  }

  /** When every image is a single element, the output lines up with the
      input. */
  lemma {:induction false} FlatMapOnes<A, B>(xs: seq<A>, f: A -> seq<B>)
    requires forall i :: 0 <= i < |xs| ==> |f(xs[i])| == 1
    ensures |FlatMap(xs, f)| == |xs|
    ensures forall k :: 0 <= k < |xs| ==> FlatMap(xs, f)[k] == f(xs[k])[0]
  {
    if xs != [] {
      var init := xs[..|xs| - 1];
      assert forall i :: 0 <= i < |init| ==> init[i] == xs[i];
      FlatMapOnes(init, f);
      var r := FlatMap(xs, f);
      forall k | 0 <= k < |xs|
        ensures r[k] == f(xs[k])[0]
      {
        if k < |init| {
          assert r[k] == FlatMap(init, f)[k];
        }
      }
    }
  }

  /** A card with two stripped, non-empty sides. */
  predicate CleanCard(card: Flashcard) {
    card.front != [] && card.back != [] && IsStripped(card.front) && IsStripped(card.back)
  }

  /** Every card of the deck is clean. */
  predicate CleanDeck(deck: seq<Flashcard>) {
    forall k :: 0 <= k < |deck| ==> CleanCard(deck[k])
  }

  /** A card whose sides are both non-blank is kept, stripped. */
  predicate Filled(c: Card) {
    Strip(OrEmpty(c.front)) != [] && Strip(OrEmpty(c.back)) != []
  }

  /** One card contributes at most one clean card, and exactly one, its
      stripped sides, when it is filled. */
  lemma KeptShape(c: Card)
    ensures |Kept(c)| <= 1
    ensures |Kept(c)| == 1 <==> Filled(c)
    ensures Filled(c) ==> Kept(c)[0] == Flashcard(Strip(OrEmpty(c.front)), Strip(OrEmpty(c.back)))
    ensures forall k :: 0 <= k < |Kept(c)| ==> CleanCard(Kept(c)[k])
  {
  }

  /** Every kept card has two stripped, non-empty sides, and none is
      added. */
  lemma KeepFilledClean(cards: seq<Card>)
    ensures |KeepFilled(cards)| <= |cards|
    ensures CleanDeck(KeepFilled(cards))
  {
    forall i | 0 <= i < |cards|
      ensures |Kept(cards[i])| <= 1
      ensures forall k :: 0 <= k < |Kept(cards[i])| ==> CleanCard(Kept(cards[i])[k])
    {
      KeptShape(cards[i]);
    }
    FlatMapEvery(cards, Kept, CleanCard);
  }

  /** The filter distributes over concatenation, so order is kept. */
  lemma KeepFilledAppend(a: seq<Card>, b: seq<Card>)
    ensures KeepFilled(a + b) == KeepFilled(a) + KeepFilled(b)
  {
    FlatMapAppend(a, b, Kept);
  }

  /** When every card is filled, the filter keeps them all, in order. */
  lemma KeepFilledAll(cards: seq<Card>)
    requires forall k :: 0 <= k < |cards| ==> Filled(cards[k])
    ensures |KeepFilled(cards)| == |cards|
    ensures forall k :: 0 <= k < |cards| ==>
      KeepFilled(cards)[k] == Flashcard(Strip(OrEmpty(cards[k].front)), Strip(OrEmpty(cards[k].back)))
  {
    forall i | 0 <= i < |cards|
      ensures |Kept(cards[i])| == 1
      ensures Kept(cards[i])[0] == Flashcard(Strip(OrEmpty(cards[i].front)), Strip(OrEmpty(cards[i].back)))
    {
      KeptShape(cards[i]);
    }
    FlatMapOnes(cards, Kept);
  }

  /** The deck never holds more than `n` cards (for a negative `n`,
      `cards[:n]` drops the last `-n` of the backend's cards), and each is
      clean. */
  lemma CardsFromRagBounded(retrieved: string, fullText: Option<string>, n: int, provided: Option<seq<Card>>)
    ensures var r := CardsFromRag(retrieved, fullText, n, provided);
      r.Ok? ==> CleanDeck(r.value)
    ensures var r := CardsFromRag(retrieved, fullText, n, provided);
      r.Ok? && n >= 0 ==> |r.value| <= n
    ensures var r := CardsFromRag(retrieved, fullText, n, provided);
      var given := if provided.Some? then |provided.value| else 0;
      r.Ok? && n < 0 ==> |r.value| <= Max(0, given + n)
  {
    var ctx := CardContext(retrieved, fullText);
    var cards := if provided.Some? then provided.value else [];
    var all := TopUp(cards, ctx, n);
    if all.Ok? {
      assert n < 0 ==> all.value == cards;
      KeepFilledClean(PyTo(all.value, n));
    }
  }

  /** With no cards from the backend the deck is the stub's: one card per
      sentence of the context, up to `n`, none dropped; it fails only when
      the context has no sentence and a card is asked for. */
  lemma CardsFromRagStubOnly(retrieved: string, fullText: Option<string>, n: int)
    ensures var ctx := CardContext(retrieved, fullText);
      var r := CardsFromRag(retrieved, fullText, n, None);
      && (r.Err? <==> n >= 1 && StubSentences(Some(ctx)) == [])
      && (r.Ok? ==> |r.value| == Max(0, Min(n, |StubSentences(Some(ctx))|)))
  {
    var ctx := CardContext(retrieved, fullText);
    StubFlashcardsCount(Some(ctx), n);
    var none: seq<Card> := [];
    if n > 0 {
      var extra := StubFlashcards(Some(ctx), n);
      assert TopUp(none, ctx, n) == if extra.Err? then Err(extra.error) else Ok(none + extra.value);
      if extra.Ok? {
        StubCardsNonBlank(Some(ctx), n);
        StubDeck(extra.value, n);
      }
    } else {
      assert PyTo(none, n) == [];
    }
  }

  /** The top-up keeps the backend's cards first and unchanged; with `n` or
      more of them nothing is added, and otherwise the stub adds one card per
      sentence up to the shortfall, failing only for a context without
      sentences. */
  lemma TopUpShape(cards: seq<Card>, ctx: string, n: int)
    ensures var r := TopUp(cards, ctx, n);
      && (|cards| >= n ==> r == Ok(cards))
      && (r.Ok? ==> cards <= r.value)
    ensures var r := TopUp(cards, ctx, n);
      var sents := StubSentences(Some(ctx));
      |cards| < n ==>
        && (r.Err? <==> sents == [])
        && (r.Ok? ==> |r.value| == |cards| + Min(n - |cards|, |sents|))
        && (r.Ok? ==> forall i :: |cards| <= i < |r.value| ==> r.value[i] == CardOf(sents[i - |cards|]))
  {
    if |cards| < n {
      var k := n - |cards|;
      StubFlashcardsCount(Some(ctx), k);
      var extra := StubFlashcards(Some(ctx), k);
      if extra.Ok? {
        var all := cards + extra.value;
        assert forall i :: |cards| <= i < |all| ==> all[i] == extra.value[i - |cards|];
      }
    }
  }

  /** The backend's own cards that survive the cut and the filter lead the
      deck, in their order. */
  lemma CardsFromRagBackendFirst(retrieved: string, fullText: Option<string>, n: int, cards: seq<Card>)
    ensures var r := CardsFromRag(retrieved, fullText, n, Some(cards));
      r.Ok? ==> KeepFilled(PyTo(cards, n)) <= r.value
  {
    var ctx := CardContext(retrieved, fullText);
    var all := TopUp(cards, ctx, n);
    TopUpShape(cards, ctx, n);
    if all.Ok? {
      var a := all.value;
      var head := PyTo(cards, n);
      var whole := PyTo(a, n);
      assert whole == head + whole[|head|..] by {
        if n >= 0 {
          assert head == a[..Min(n, |cards|)];
        } else {
          assert a == cards;
        }
      }
      KeepFilledAppend(head, whole[|head|..]);
    }
  }

  /** The stub's cards, all filled and no more than asked for, are all kept. */
  lemma StubDeck(cards: seq<Card>, n: int)
    requires |cards| <= n
    requires forall i :: 0 <= i < |cards| ==>
      cards[i].front.Some? && cards[i].back.Some? &&
      Strip(cards[i].front.value) != [] && Strip(cards[i].back.value) != []
    ensures |KeepFilled(PyTo([] + cards, n))| == |cards|
  {
    assert [] + cards == cards;
    assert PyTo(cards, n) == cards;
    assert forall k :: 0 <= k < |cards| ==> Filled(cards[k]);
    KeepFilledAll(cards);
  }
}
