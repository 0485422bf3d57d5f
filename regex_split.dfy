/**
 * `re.split` with the three sentence-boundary patterns of the modelled code,
 * followed by the comprehension `[p.strip() for p in parts if p.strip()]`
 * that all three callers apply to the pieces.
 */
module RegexSplit {
  import opened TextUtil

  /** The separator patterns. */
  datatype Pattern =
    | AfterPunctSpace       // r'(?<=[\.\?\!])\s+'   whitespace run after . ? !
    | PunctSpace            // r'[\.!\?]\s+'         . ! ? and the whitespace run after it
    | AfterPunctBackslashS  // r'(?<=[.!?])\\s+'    a backslash and a run of 's' after . ! ?

  predicate IsPunct(c: char) { c == '.' || c == '!' || c == '?' }

  /** Does the pattern look behind at the punctuation (and so keep it in the piece)? */
  predicate LooksBehind(p: Pattern) { !p.PunctSpace? }

  /** The character that the pattern's `+` repeats. */
  predicate RunChar(p: Pattern, c: char) {
    if p.AfterPunctBackslashS? then c == 's' else IsSpace(c)
  }

  /** Length of the run of `RunChar`s that starts `s`. */
  function RunOf(p: Pattern, s: string): (n: nat)
    ensures n <= |s|
    ensures forall i :: 0 <= i < n ==> RunChar(p, s[i])
    ensures n == |s| || !RunChar(p, s[n])
  {
    if s == [] || !RunChar(p, s[0]) then 0 else 1 + RunOf(p, s[1..])
  }

  /** Does a match of the pattern start at index `j` of `t`?  Decided by at
      most three characters around `j`. */
  predicate Boundary(p: Pattern, t: string, j: int) {
    match p
    case AfterPunctSpace => 0 < j < |t| && IsPunct(t[j - 1]) && IsSpace(t[j])
    case PunctSpace => 0 <= j && j + 1 < |t| && IsPunct(t[j]) && IsSpace(t[j + 1])
    case AfterPunctBackslashS =>
      0 < j && j + 1 < |t| && IsPunct(t[j - 1]) && t[j] == '\\' && t[j + 1] == 's'
  }

  /** Length of the (greedy) match that starts at a boundary. */
  function MatchLen(p: Pattern, t: string, j: int): (n: nat)
    requires Boundary(p, t, j)
    ensures 0 < n <= |t| - j
  {
    match p
    case AfterPunctSpace => RunOf(p, t[j..])
    case PunctSpace => 1 + RunOf(p, t[j + 1..])
    case AfterPunctBackslashS => 1 + RunOf(p, t[j + 1..])
  }

  /** The leftmost boundary at or after `i`, or `|t|` when there is none. */
  function NextBoundary(p: Pattern, t: string, i: nat): (k: nat)
    requires i <= |t|
    ensures i <= k <= |t|
    ensures k < |t| ==> Boundary(p, t, k)
    ensures forall j :: i <= j < k ==> !Boundary(p, t, j)
    decreases |t| - i
  {
    if i == |t| then |t|
    else if Boundary(p, t, i) then i
    else NextBoundary(p, t, i + 1)
  }

  /** Where the first match starts, `|t|` when there is none. */
  function Cut(p: Pattern, t: string): (k: nat)
    ensures k <= |t|
    ensures k < |t| ==> Boundary(p, t, k)
    ensures NoBoundaryBefore(p, t, k)
  {
    NextBoundary(p, t, 0)
  }

  /** The first separator. */
  function Sep(p: Pattern, t: string): string
    requires Cut(p, t) < |t|
  {
    t[Cut(p, t)..Cut(p, t) + MatchLen(p, t, Cut(p, t))]
  }

  /** What follows the first separator. */
  function Rest(p: Pattern, t: string): (r: string)
    requires Cut(p, t) < |t|
    ensures |r| < |t|
  {
    t[Cut(p, t) + MatchLen(p, t, Cut(p, t))..]
  }

  /** `re.split(pattern, t)`.  After a match the scan resumes on the rest of
      the text; a look-behind at that point would see the last character of
      the match, never a punctuation mark, so restarting on the suffix
      changes nothing. */
  function Split(p: Pattern, t: string): (r: seq<string>)
    ensures |r| >= 1
    decreases |t|
  {
    if Cut(p, t) == |t| then [t]
    else [t[..Cut(p, t)]] + Split(p, Rest(p, t))
  }

  /** The separators `Split` removes, one between each pair of pieces. */
  function Separators(p: Pattern, t: string): seq<string>
    decreases |t|
  {
    if Cut(p, t) == |t| then []
    else [Sep(p, t)] + Separators(p, Rest(p, t))
  }

  /** Pieces and separators put back in alternation. */
  function Interleave(pieces: seq<string>, seps: seq<string>): string
    requires |pieces| == |seps| + 1
  {
    if seps == [] then pieces[0]
    else pieces[0] + seps[0] + Interleave(pieces[1..], seps[1..])
  }

  /** What one separator looks like. */
  predicate SeparatorShape(p: Pattern, sep: string) {
    match p
    case AfterPunctSpace => sep != [] && AllSpace(sep)
    case PunctSpace => |sep| >= 2 && IsPunct(sep[0]) && AllSpace(sep[1..])
    case AfterPunctBackslashS => |sep| >= 2 && sep[0] == '\\' && AllChar(sep[1..], 's')
  }

  /** No match of the pattern starts before index `n` of `s`. */
  predicate NoBoundaryBefore(p: Pattern, s: string, n: int) {
    forall j :: 0 <= j < n ==> !Boundary(p, s, j)
  }

  /** The piece before a separator and the piece after it, as the pattern
      leaves them: a look-behind pattern keeps the punctuation mark at the end
      of the piece before, and the greedy run leaves the piece after without
      a leading run character. */
  predicate AroundSeparator(p: Pattern, before: string, after: string) {
    && (LooksBehind(p) ==> before != [] && IsPunct(before[|before| - 1]))
    && (after == [] || !RunChar(p, after[0]))
  }

  /** One step of the split: the text is the first piece, the first
      separator and what follows them. */
  lemma SplitStep(p: Pattern, t: string)
    requires Cut(p, t) < |t|
    ensures t == t[..Cut(p, t)] + Sep(p, t) + Rest(p, t)
  {
    var k, m := Cut(p, t), Cut(p, t) + MatchLen(p, t, Cut(p, t));
    assert t == t[..k] + t[k..m] + t[m..];
  }

  /** The pieces and separators put back together give the text. */
  lemma {:induction false} SplitReassembles(p: Pattern, t: string)
    ensures |Split(p, t)| == |Separators(p, t)| + 1
    ensures Interleave(Split(p, t), Separators(p, t)) == t
    decreases |t|
  {
    if Cut(p, t) < |t| {
      var rest := Rest(p, t);
      SplitReassembles(p, rest);
      SplitStep(p, t);
      var ps, ss := Split(p, t), Separators(p, t);
      assert ps[1..] == Split(p, rest) && ss[1..] == Separators(p, rest);
      Regroup(t[..Cut(p, t)], Sep(p, t), rest);
    }
  }

  /** Every separator has the pattern's shape. */
  lemma {:induction false} SplitSeparatorShapes(p: Pattern, t: string)
    ensures forall i :: 0 <= i < |Separators(p, t)| ==> SeparatorShape(p, Separators(p, t)[i])
    decreases |t|
  {
    if Cut(p, t) < |t| {
      SplitSeparatorShapes(p, Rest(p, t));
      SeparatorAt(p, t);
      var ss, ss' := Separators(p, t), Separators(p, Rest(p, t));
      assert ss[1..] == ss';
      forall i | 0 <= i < |ss|
        ensures SeparatorShape(p, ss[i])
      {
        if i > 0 {
          assert ss[i] == ss'[i - 1];
        }
      }
    }
  }

  /** Around every separator the pieces look as the pattern leaves them: the
      punctuation kept before it (look-behind patterns) and no further run
      character after it. */
  lemma {:induction false} SplitAroundSeparators(p: Pattern, t: string)
    ensures |Split(p, t)| == |Separators(p, t)| + 1
    ensures forall i :: 0 <= i < |Separators(p, t)| ==>
              AroundSeparator(p, Split(p, t)[i], Split(p, t)[i + 1])
    decreases |t|
  {
    SplitReassembles(p, t);
    if Cut(p, t) < |t| {
      var rest := Rest(p, t);
      SplitAroundSeparators(p, rest);
      SeparatorAt(p, t);
      FirstPieceStarts(p, rest);
      var ps, ss, ps' := Split(p, t), Separators(p, t), Split(p, rest);
      assert ps[1..] == ps' && ps[0] == t[..Cut(p, t)];
      assert AroundSeparator(p, ps[0], ps[1]);
      forall i | 0 < i < |ss|
        ensures AroundSeparator(p, ps[i], ps[i + 1])
      {
        assert ps[i + 1] == ps'[i] && ps[i] == ps'[i - 1];
      }
    }
  }

  /** No piece has a boundary inside it, not even one that would reach into
      the separator after it: every cut is the leftmost one. */
  lemma {:induction false} SplitLeftmost(p: Pattern, t: string)
    ensures |Split(p, t)| == |Separators(p, t)| + 1
    ensures forall i :: 0 <= i < |Separators(p, t)| ==>
              NoBoundaryBefore(p, Split(p, t)[i] + Separators(p, t)[i], |Split(p, t)[i]|)
    ensures var last := Split(p, t)[|Split(p, t)| - 1]; NoBoundaryBefore(p, last, |last|)
    decreases |t|
  {
    SplitReassembles(p, t);
    if Cut(p, t) < |t| {
      var rest := Rest(p, t);
      SplitLeftmost(p, rest);
      SplitReassembles(p, rest);
      FirstPieceClean(p, t);
      var ps, ss, ps', ss' := Split(p, t), Separators(p, t), Split(p, rest), Separators(p, rest);
      assert ps[1..] == ps' && ss[1..] == ss';
      forall i | 0 < i < |ss|
        ensures NoBoundaryBefore(p, ps[i] + ss[i], |ps[i]|)
      {
        assert ps[i] == ps'[i - 1] && ss[i] == ss'[i - 1];
      }
      assert ps[|ps| - 1] == ps'[|ps'| - 1];
    }
  }

  /** The first piece starts the text. */
  lemma FirstPieceStarts(p: Pattern, t: string)
    ensures Split(p, t)[0] <= t
  {
  }

  /** The first separator has the pattern's shape, is preceded by
      punctuation when the pattern looks behind, and is not followed by
      another run character. */
  lemma SeparatorAt(p: Pattern, t: string)
    requires Cut(p, t) < |t|
    ensures SeparatorShape(p, Sep(p, t))
    ensures LooksBehind(p) ==> AroundSeparator(p, t[..Cut(p, t)], Rest(p, t))
    ensures !LooksBehind(p) ==> Rest(p, t) == [] || !RunChar(p, Rest(p, t)[0])
  {
    var k := Cut(p, t);
    var n := MatchLen(p, t, k);
    var sep := t[k..k + n];
    match p
    case AfterPunctSpace =>
      assert forall i :: 0 <= i < n ==> sep[i] == t[k..][i];
    case PunctSpace =>
      assert forall i :: 0 <= i < n - 1 ==> sep[1..][i] == t[k + 1..][i];
    case AfterPunctBackslashS =>
      assert forall i :: 0 <= i < n - 1 ==> sep[1..][i] == t[k + 1..][i];
  }

  /** A boundary is decided by characters that lie before `j + 2`. */
  lemma BoundaryLocal(p: Pattern, s: string, t: string, j: int)
    requires s <= t && j + 1 < |s|
    ensures Boundary(p, s, j) == Boundary(p, t, j)
  {
  }

  /** The first piece and separator hold no boundary before the cut. */
  lemma FirstPieceClean(p: Pattern, t: string)
    requires Cut(p, t) < |t|
    ensures NoBoundaryBefore(p, t[..Cut(p, t)] + Sep(p, t), Cut(p, t))
  {
    var k := Cut(p, t);
    var s := t[..k] + Sep(p, t);
    assert s == t[..k + MatchLen(p, t, k)];
    forall j | 0 <= j < k
      ensures !Boundary(p, s, j)
    {
      BoundaryLocal(p, s, t, j);
    }
  }

  /** Ordinary prose without a backslash is never split by the pattern with
      the doubled backslash. */
  lemma NoBackslashNoSplit(t: string)
    requires '\\' !in t
    ensures Split(AfterPunctBackslashS, t) == [t]
  {
  }

  /** `[x.strip() for x in xs if x.strip()]`: each piece stripped, the blank
      ones dropped, order kept. */
  function KeepNonBlank(xs: seq<string>): (r: seq<string>)
    ensures |r| <= |xs|
    ensures forall k :: 0 <= k < |r| ==> r[k] != [] && IsStripped(r[k])
  {
    if xs == [] then []
    else
      var s := Strip(xs[|xs| - 1]);
      KeepNonBlank(xs[..|xs| - 1]) + (if s != [] then [s] else [])
  }

  lemma {:induction false} KeepNonBlankEmpty(xs: seq<string>)
    ensures KeepNonBlank(xs) == [] <==> forall k :: 0 <= k < |xs| ==> AllSpace(xs[k])
    decreases |xs|
  {
    if xs != [] {
      KeepNonBlankEmpty(xs[..|xs| - 1]);
      StripEmptyIffAllSpace(xs[|xs| - 1]);
    }
  }

  /** The sentences a pattern yields. */
  function Sentences(p: Pattern, t: string): seq<string>
  {
    KeepNonBlank(Split(p, t))
  }

  predicate EndsInPunct(s: string) { s != [] && IsPunct(s[|s| - 1]) }

  lemma KeepNonBlankSnoc(init: seq<string>, last: string)
    requires Strip(last) != []
    ensures KeepNonBlank(init + [last]) == KeepNonBlank(init) + [Strip(last)]
  {
    assert (init + [last])[..|init|] == init;
  }

  lemma {:induction false} KeepNonBlankAllPunct(xs: seq<string>)
    requires forall k :: 0 <= k < |xs| ==> EndsInPunct(xs[k])
    ensures |KeepNonBlank(xs)| == |xs|
    ensures forall k :: 0 <= k < |xs| ==> EndsInPunct(KeepNonBlank(xs)[k])
    decreases |xs|
  {
    if xs != [] {
      var init := xs[..|xs| - 1];
      var last := xs[|xs| - 1];
      assert xs == init + [last];
      KeepNonBlankAllPunct(init);
      StripKeepsLast(last);
      KeepNonBlankSnoc(init, last);
      var r := KeepNonBlank(xs);
      var r0 := KeepNonBlank(init);
      forall k | 0 <= k < |xs|
        ensures EndsInPunct(r[k])
      {
        if k < |init| {
          assert r[k] == r0[k];
        } else {
          assert r[k] == Strip(last);
        }
      }
    }
  }

  lemma KeepNonBlankButLast(xs: seq<string>)
    requires xs != []
    requires forall k :: 0 <= k < |xs| - 1 ==> EndsInPunct(xs[k])
    ensures forall k :: 0 <= k < |KeepNonBlank(xs)| - 1 ==> EndsInPunct(KeepNonBlank(xs)[k])
  {
    var init := xs[..|xs| - 1];
    KeepNonBlankAllPunct(init);
  }

  /** With a look-behind pattern every sentence but the last keeps the
      punctuation mark it was cut after. */
  lemma SentencesEndInPunct(p: Pattern, t: string)
    requires LooksBehind(p)
    ensures var r := Sentences(p, t); forall k :: 0 <= k < |r| - 1 ==> EndsInPunct(r[k])
  {
    var ps := Split(p, t);
    SplitAroundSeparators(p, t);
    forall k | 0 <= k < |ps| - 1
      ensures EndsInPunct(ps[k])
    {
      assert AroundSeparator(p, ps[k], ps[k + 1]);
    }
    KeepNonBlankButLast(ps);
  }

  /** With a look-behind pattern the text yields no sentence exactly when it
      is blank. */
  lemma SentencesEmptyIffBlank(p: Pattern, t: string)
    requires LooksBehind(p)
    ensures Sentences(p, t) == [] <==> AllSpace(t)
  {
    var ps := Split(p, t);
    KeepNonBlankEmpty(ps);
    if Cut(p, t) == |t| {
      assert ps == [t];
    } else {
      var k := Cut(p, t);
      SeparatorAt(p, t);
      assert ps[0] == t[..k];
      assert !AllSpace(ps[0]) by { assert !IsSpace(t[..k][k - 1]); }
      assert !AllSpace(t) by { assert t[k - 1] == t[..k][k - 1]; }
    }
  }


  /** A text in which the pattern never matches is one piece. */
  lemma NoBoundaryNoSplit(p: Pattern, t: string)
    requires forall j :: 0 <= j < |t| ==> !Boundary(p, t, j)
    ensures Split(p, t) == [t]
  {
    assert Cut(p, t) == |t|;
  }

  /** ... and, when it is not blank, one sentence. */
  lemma NoBoundaryOneSentence(p: Pattern, t: string)
    requires forall j :: 0 <= j < |t| ==> !Boundary(p, t, j)
    requires !AllSpace(t)
    ensures Sentences(p, t) == [Strip(t)]
  {
    NoBoundaryNoSplit(p, t);
    StripEmptyIffAllSpace(t);
    KeepNonBlankSnoc([], t);
    assert [] + [t] == [t];
  }

  /** Only whitespace and the marks `.`, `!`, `?`. */
  predicate SpaceOrPunct(t: string) {
    forall i :: 0 <= i < |t| ==> IsSpace(t[i]) || IsPunct(t[i])
  }

  lemma {:induction false} BlankPiecesPunctSpace(t: string)
    requires forall k :: 0 <= k < |Split(PunctSpace, t)| ==> AllSpace(Split(PunctSpace, t)[k])
    ensures SpaceOrPunct(t)
    decreases |t|
  {
    var ps := Split(PunctSpace, t);
    if Cut(PunctSpace, t) == |t| {
      assert ps[0] == t;
    } else {
      var head, sep, rest := t[..Cut(PunctSpace, t)], Sep(PunctSpace, t), Rest(PunctSpace, t);
      var ps' := Split(PunctSpace, rest);
      assert ps[0] == head && ps[1..] == ps';
      forall j | 0 <= j < |ps'|
        ensures AllSpace(ps'[j])
      {
        assert ps'[j] == ps[j + 1];
      }
      BlankPiecesPunctSpace(rest);
      SeparatorAt(PunctSpace, t);
      SplitStep(PunctSpace, t);
      SpaceOrPunctJoin(head, sep, rest);
    }
  }

  lemma SpaceOrPunctJoin(head: string, sep: string, rest: string)
    requires AllSpace(head) && SeparatorShape(PunctSpace, sep) && SpaceOrPunct(rest)
    ensures SpaceOrPunct(head + sep + rest)
  {
    var t := head + sep + rest;
    forall i | 0 <= i < |t|
      ensures IsSpace(t[i]) || IsPunct(t[i])
    {
      if i < |head| {
        assert t[i] == head[i];
      } else if i == |head| {
        assert t[i] == sep[0];
      } else if i < |head| + |sep| {
        assert t[i] == sep[1..][i - |head| - 1];
      } else {
        assert t[i] == rest[i - |head| - |sep|];
      }
    }
  }

  /** With the pattern that consumes the mark, a text without sentences is
      made of whitespace and marks only; a blank text has none. (A text such
      as `"..."` has one, so the first implication does not reverse.) */
  lemma SentencesEmptyPunctSpace(t: string)
    ensures Sentences(PunctSpace, t) == [] ==> SpaceOrPunct(t)
    ensures AllSpace(t) ==> Sentences(PunctSpace, t) == []
  {
    KeepNonBlankEmpty(Split(PunctSpace, t));
    if Sentences(PunctSpace, t) == [] {
      BlankPiecesPunctSpace(t);
    }
    if AllSpace(t) {
      forall j | 0 <= j < |t|
        ensures !Boundary(PunctSpace, t, j)
      {
        assert IsSpace(t[j]);
      }
      NoBoundaryNoSplit(PunctSpace, t);
    }
  }
}
