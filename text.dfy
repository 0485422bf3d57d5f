/**
 * Python string primitives the modelled code relies on: `str.isspace`,
 * `strip`, `split()`, `sep.join`, `in`, `find`, ASCII case mapping and
 * the clamping rules of slices `xs[:j]` and `xs[i:]`.
 */
module TextUtil {
  import opened Common

  /** The characters for which Python's `str.isspace()` holds; `strip()`,
      `split()` and the regular-expression class `\s` all use this set. */
  predicate IsSpace(c: char) {
    || ('\t' <= c <= '\r')
    || ('\U{1C}' <= c <= '\U{1F}')
    || c == ' ' || c == '\U{85}' || c == '\U{A0}' || c == '\U{1680}'
    || ('\U{2000}' <= c <= '\U{200A}')
    || c == '\U{2028}' || c == '\U{2029}' || c == '\U{202F}' || c == '\U{205F}' || c == '\U{3000}'
  }

  predicate AllChar(s: string, c: char) {
    forall k :: 0 <= k < |s| ==> s[k] == c
  }

  predicate AllSpace(s: string) {
    forall i :: 0 <= i < |s| ==> IsSpace(s[i])
  }

  /** No whitespace at either end: what `strip()` produces. */
  predicate IsStripped(s: string) {
    s == [] || (!IsSpace(s[0]) && !IsSpace(s[|s| - 1]))
  }

  /** `s.lstrip()`: the suffix left after the leading whitespace. */
  function LStrip(s: string): (r: string)
    ensures |r| <= |s|
    ensures r == [] || !IsSpace(r[0])
  {
    if s != [] && IsSpace(s[0]) then LStrip(s[1..]) else s
  }

  /** `lstrip` keeps a suffix and what it removes is whitespace. */
  lemma {:induction false} LStripDropsSpace(s: string)
    ensures LStrip(s) == s[|s| - |LStrip(s)|..]
    ensures AllSpace(s[..|s| - |LStrip(s)|])
  {
    if s != [] && IsSpace(s[0]) {
      LStripDropsSpace(s[1..]);
      assert s[..|s| - |LStrip(s)|] == [s[0]] + s[1..][..|s[1..]| - |LStrip(s[1..])|];
    }
  }

  /** `s.rstrip()`: the prefix left before the trailing whitespace. */
  function RStrip(s: string): (r: string)
    ensures |r| <= |s| && (r != [] ==> r[0] == s[0])
    ensures r == [] || !IsSpace(r[|r| - 1])
  {
    if s != [] && IsSpace(s[|s| - 1]) then RStrip(s[..|s| - 1]) else s
  }

  /** `rstrip` keeps a prefix and what it removes is whitespace. */
  lemma {:induction false} RStripDropsSpace(s: string)
    ensures RStrip(s) == s[..|RStrip(s)|]
    ensures AllSpace(s[|RStrip(s)|..])
  {
    if s != [] && IsSpace(s[|s| - 1]) {
      var t := s[..|s| - 1];
      RStripDropsSpace(t);
      assert s[|RStrip(s)|..] == t[|RStrip(t)|..] + [s[|s| - 1]];
    }
  }

  /** `needle` occurs in `hay` starting at index `i`. */
  predicate OccursAt(hay: string, needle: string, i: int) {
    0 <= i <= |hay| - |needle| && hay[i..i + |needle|] == needle
  }

  /** `s.strip()`: `s` without its leading and trailing whitespace. */
  function Strip(s: string): (r: string)
    ensures IsStripped(r) && |r| <= |s|
  {
    RStrip(LStrip(s))
  }

  /** What `strip` leaves is a contiguous piece of `s`, with only whitespace
      cut away around it. */
  lemma StripIsPiece(s: string)
    ensures var r := Strip(s);
      exists i :: OccursAt(s, r, i) && AllSpace(s[..i]) && AllSpace(s[i + |r|..])
  {
    var l := LStrip(s);
    var r := RStrip(l);
    var i := |s| - |l|;
    LStripDropsSpace(s);
    RStripDropsSpace(l);
    assert OccursAt(s, r, i) && AllSpace(s[..i]) && AllSpace(s[i + |r|..]) by {
      assert s[i..] == l;
      assert s[i + |r|..] == l[|r|..];
    }
  }

  /** A character other than whitespace survives `strip`. */
  lemma StripKeepsChar(s: string, i: int) returns (k: int)
    requires 0 <= i < |s| && !IsSpace(s[i])
    ensures 0 <= k < |Strip(s)| && Strip(s)[k] == s[i]
  {
    StripIsPiece(s);
    var t := Strip(s);
    var j :| OccursAt(s, t, j) && AllSpace(s[..j]) && AllSpace(s[j + |t|..]);
    k := PieceKeepsChar(s, t, j, i);
  }

  /** A character other than whitespace lies in a piece that only
      whitespace surrounds. */
  lemma PieceKeepsChar(s: string, t: string, j: int, i: int) returns (k: int)
    requires OccursAt(s, t, j) && AllSpace(s[..j]) && AllSpace(s[j + |t|..])
    requires 0 <= i < |s| && !IsSpace(s[i])
    ensures 0 <= k < |t| && t[k] == s[i]
  {
    assert forall m :: 0 <= m < j ==> s[..j][m] == s[m];
    assert forall m :: j + |t| <= m < |s| ==> s[j + |t|..][m - j - |t|] == s[m];
    k := i - j;
    assert s[j..j + |t|][k] == s[i];
  }

  lemma StripOfStripped(s: string)
    requires IsStripped(s)
    ensures Strip(s) == s
  {
  }

  lemma StripEmptyIffAllSpace(s: string)
    ensures Strip(s) == [] <==> AllSpace(s)
  {
    var l := LStrip(s);
    LStripDropsSpace(s);
    if l != [] {
      assert !IsSpace(s[|s| - |l|]);
      assert RStrip(l) != [] by {
        RStripDropsSpace(l);
        assert l[0..] == l;
        assert !IsSpace(l[0]);
      }
    } else {
      assert s[..|s| - |l|] == s;
    }
  }

  lemma {:induction false} LStripSpaces(sp: string, y: string)
    requires AllSpace(sp) && (y == [] || !IsSpace(y[0]))
    ensures LStrip(sp + y) == y
  {
    if sp != [] {
      assert (sp + y)[1..] == sp[1..] + y;
      LStripSpaces(sp[1..], y);
    }
  }

  lemma {:induction false} RStripSpaces(y: string, sp: string)
    requires AllSpace(sp) && (y == [] || !IsSpace(y[|y| - 1]))
    ensures RStrip(y + sp) == y
  {
    if sp != [] {
      assert (y + sp)[..|y + sp| - 1] == y + sp[..|sp| - 1];
      RStripSpaces(y, sp[..|sp| - 1]);
    } else {
      assert y + sp == y;
    }
  }

  /** Stripping gives back the one stripped piece that whitespace surrounds. */
  lemma StripAround(sp: string, x: string, sp2: string)
    requires AllSpace(sp) && AllSpace(sp2) && IsStripped(x)
    ensures Strip(sp + x + sp2) == x
  {
    if x == [] {
      assert sp + x + sp2 == sp + sp2;
      StripEmptyIffAllSpace(sp + sp2);
    } else {
      assert sp + x + sp2 == sp + (x + sp2);
      LStripSpaces(sp, x + sp2);
      RStripSpaces(x, sp2);
    }
  }

  /** Two non-empty stripped strings joined by a space are already stripped. */
  lemma StripJoined(a: string, b: string)
    requires a != [] && b != [] && IsStripped(a) && IsStripped(b)
    ensures Strip(a + " " + b) == a + " " + b
  {
    StripOfStripped(a + " " + b);
  }

  /** A space and then a stripped string strip to that string. */
  lemma StripSpaceThen(b: string)
    requires IsStripped(b)
    ensures Strip(" " + b) == b
  {
    assert " " + b == " " + b + "";
    StripAround(" ", b, "");
  }

  /** Left-stripping keeps a non-space last character. */
  lemma {:induction false} LStripKeepsLast(t: string)
    requires t != [] && !IsSpace(t[|t| - 1])
    ensures LStrip(t) != [] && LStrip(t)[|LStrip(t)| - 1] == t[|t| - 1]
  {
    if IsSpace(t[0]) {
      LStripKeepsLast(t[1..]);
    }
  }

  /** Text after a non-blank string does not change where left-stripping stops. */
  lemma {:induction false} LStripAppend(t: string, y: string)
    requires LStrip(t) != []
    ensures LStrip(t + y) == LStrip(t) + y
  {
    assert t != [];
    if IsSpace(t[0]) {
      assert LStrip(t) == LStrip(t[1..]);
      assert (t + y)[1..] == t[1..] + y;
      LStripAppend(t[1..], y);
    } else {
      assert LStrip(t) == t;
      assert (t + y)[0] == t[0];
    }
  }

  /** Stripping keeps a non-space last character last. */
  lemma StripKeepsLast(t: string)
    requires t != [] && !IsSpace(t[|t| - 1])
    ensures Strip(t) != [] && Strip(t)[|Strip(t)| - 1] == t[|t| - 1]
  {
    LStripKeepsLast(t);
    var l := LStrip(t);
    assert RStrip(l) == l;
  }

  /** `(t + " " + b).strip()` where `t` ends in a non-space character. */
  lemma StripTailThen(t: string, b: string)
    requires t != [] && !IsSpace(t[|t| - 1])
    requires b != [] && IsStripped(b)
    ensures LStrip(t) != [] && Strip(t + " " + b) == LStrip(t) + " " + b
  {
    LStripKeepsLast(t);
    Regroup(t, " ", b);
    Regroup(LStrip(t), " ", b);
    StripAfter(t, " " + b);
  }

  /** Text that ends in a non-space character, after a non-blank `t`. */
  lemma StripAfter(t: string, y: string)
    requires LStrip(t) != [] && y != [] && !IsSpace(y[|y| - 1])
    ensures Strip(t + y) == LStrip(t) + y
  {
    LStripAppend(t, y);
    var x := LStrip(t) + y;
    assert x[|x| - 1] == y[|y| - 1];
    RStripNoTrail(x);
  }

  lemma RStripNoTrail(x: string)
    requires x != [] && !IsSpace(x[|x| - 1])
    ensures RStrip(x) == x
  {
  }

  lemma PrefixTrans<T>(a: seq<T>, b: seq<T>, c: seq<T>)
    requires a <= b && b <= c
    ensures a <= c
  {
  }

  lemma Regroup<T>(a: seq<T>, b: seq<T>, c: seq<T>)
    ensures a + b + c == a + (b + c)
  {
  }

  /** `s.lstrip(c)` for a single character `c`. */
  function LStripChar(s: string, c: char): (r: string)
    ensures |r| <= |s|
    ensures r == [] || r[0] != c
  {
    if s != [] && s[0] == c then LStripChar(s[1..], c) else s
  }

  /** `lstrip(c)` keeps a suffix and removes only `c`. */
  lemma {:induction false} LStripCharDrops(s: string, c: char)
    ensures LStripChar(s, c) == s[|s| - |LStripChar(s, c)|..]
    ensures AllChar(s[..|s| - |LStripChar(s, c)|], c)
  {
    if s != [] && s[0] == c {
      LStripCharDrops(s[1..], c);
      assert s[..|s| - |LStripChar(s, c)|] == [c] + s[1..][..|s[1..]| - |LStripChar(s[1..], c)|];
    }
  }

  /** `s.rstrip(c)` for a single character `c`. */
  function RStripChar(s: string, c: char): (r: string)
    ensures |r| <= |s| && (r != [] ==> r[0] == s[0])
    ensures r == [] || r[|r| - 1] != c
  {
    if s != [] && s[|s| - 1] == c then RStripChar(s[..|s| - 1], c) else s
  }

  /** `rstrip(c)` keeps a prefix and removes only `c`. */
  lemma {:induction false} RStripCharDrops(s: string, c: char)
    ensures RStripChar(s, c) == s[..|RStripChar(s, c)|]
    ensures AllChar(s[|RStripChar(s, c)|..], c)
  {
    if s != [] && s[|s| - 1] == c {
      var t := s[..|s| - 1];
      RStripCharDrops(t, c);
      assert s[|RStripChar(s, c)|..] == t[|RStripChar(t, c)|..] + [c];
    }
  }

  /** `s.strip(c)` for a single character `c`: every `c` at either end goes. */
  function StripChar(s: string, c: char): (r: string)
    ensures r == [] || (r[0] != c && r[|r| - 1] != c)
  {
    RStripChar(LStripChar(s, c), c)
  }

  /** What `strip(c)` leaves is a piece of `s` with only `c` around it. */
  lemma StripCharIsPiece(s: string, c: char)
    ensures var r := StripChar(s, c);
      exists i :: OccursAt(s, r, i) && AllChar(s[..i], c) && AllChar(s[i + |r|..], c)
  {
    var l := LStripChar(s, c);
    var r := RStripChar(l, c);
    var i := |s| - |l|;
    LStripCharDrops(s, c);
    RStripCharDrops(l, c);
    assert OccursAt(s, r, i) && AllChar(s[..i], c) && AllChar(s[i + |r|..], c) by {
      assert s[i..] == l;
      assert s[i + |r|..] == l[|r|..];
    }
  }

  /** Length of the run of non-whitespace characters that starts `s`. */
  function RunLen(s: string): (n: nat)
    ensures n <= |s|
    ensures forall i :: 0 <= i < n ==> !IsSpace(s[i])
    ensures n == |s| || IsSpace(s[n])
  {
    if s == [] || IsSpace(s[0]) then 0 else 1 + RunLen(s[1..])
  }

  predicate IsWord(w: string) {
    w != [] && forall i :: 0 <= i < |w| ==> !IsSpace(w[i])
  }

  /** `s.split()`: the maximal runs of non-whitespace characters, in order. */
  function Words(s: string): seq<string>
    decreases |s|
  {
    if s == [] then []
    else if IsSpace(s[0]) then Words(s[1..])
    else
      var n := RunLen(s);
      [s[..n]] + Words(s[n..])
  }

  /** `sep.join(xs)`. */
  function Join(sep: string, xs: seq<string>): string
  {
    if |xs| == 0 then ""
    else if |xs| == 1 then xs[0]
    else Join(sep, xs[..|xs| - 1]) + sep + xs[|xs| - 1]
  }

  lemma JoinSnoc(sep: string, xs: seq<string>, x: string)
    requires xs != []
    ensures Join(sep, xs + [x]) == Join(sep, xs) + sep + x
  {
    assert (xs + [x])[..|xs|] == xs;
  }

  /** Lengthening the last piece by `sep + y` lengthens the joined text by the same. */
  lemma JoinExtendLast(sep: string, xs: seq<string>, b: string, y: string)
    ensures Join(sep, xs + [b + sep + y]) == Join(sep, xs + [b]) + sep + y
  {
    if xs != [] {
      JoinSnoc(sep, xs, b + sep + y);
      JoinSnoc(sep, xs, b);
      assert Join(sep, xs) + sep + (b + sep + y) == (Join(sep, xs) + sep + b) + sep + y;
    }
  }

  /** All the words of the pieces, piece after piece. */
  function WordsOfAll(xs: seq<string>): seq<string>
  {
    if xs == [] then [] else WordsOfAll(xs[..|xs| - 1]) + Words(xs[|xs| - 1])
  }

  lemma {:induction false} WordsOfSpaces(s: string)
    requires AllSpace(s)
    ensures Words(s) == []
    decreases |s|
  {
    if s != [] {
      WordsOfSpaces(s[1..]);
    }
  }

  lemma {:induction false} RunLenExtend(a: string, b: string)
    ensures RunLen(a) < |a| ==> RunLen(a + b) == RunLen(a)
    ensures RunLen(a) == |a| && (b == [] || IsSpace(b[0])) ==> RunLen(a + b) == |a|
    decreases |a|
  {
    if a != [] && !IsSpace(a[0]) {
      assert (a + b)[1..] == a[1..] + b;
      RunLenExtend(a[1..], b);
    } else if a == [] {
      assert a + b == b;
    }
  }

  /** `split()` yields only non-empty, whitespace-free words. */
  lemma {:induction false} WordsAreWords(s: string)
    ensures forall k :: 0 <= k < |Words(s)| ==> IsWord(Words(s)[k])
    decreases |s|
  {
    if s != [] {
      if IsSpace(s[0]) {
        WordsAreWords(s[1..]);
      } else {
        WordsAreWords(s[RunLen(s)..]);
      }
    }
  }

  /** Unfolding `Words` at a word that starts the text. */
  lemma WordsAtRun(s: string)
    requires s != [] && !IsSpace(s[0])
    ensures Words(s) == [s[..RunLen(s)]] + Words(s[RunLen(s)..])
  {
  }

  /** Whitespace separates words: splitting `a c b` at a whitespace `c`
      gives the words of `a` followed by the words of `b`. */
  lemma {:induction false} WordsAroundSpace(a: string, c: char, b: string)
    requires IsSpace(c)
    ensures Words(a + [c] + b) == Words(a) + Words(b)
    decreases |a|, 1
  {
    if a == [] {
      assert a + [c] + b == [c] + b;
      WordsSpaceFirst(c, b);
    } else if IsSpace(a[0]) {
      var rest := a[1..] + [c] + b;
      assert a + [c] + b == [a[0]] + rest;
      assert a == [a[0]] + a[1..];
      WordsSpaceFirst(a[0], rest);
      WordsSpaceFirst(a[0], a[1..]);
      WordsAroundSpace(a[1..], c, b);
    } else {
      WordsAroundRun(a, c, b);
    }
  }

  lemma WordsSpaceFirst(c: char, x: string)
    requires IsSpace(c)
    ensures Words([c] + x) == Words(x)
  {
    assert ([c] + x)[1..] == x;
  }

  /** The case of `WordsAroundSpace` where `a` starts with a word. */
  lemma {:induction false} WordsAroundRun(a: string, c: char, b: string)
    requires IsSpace(c) && a != [] && !IsSpace(a[0])
    ensures Words(a + [c] + b) == Words(a) + Words(b)
    decreases |a|, 0
  {
    var cb := [c] + b;
    Regroup(a, [c], b);
    RunLenExtend(a, cb);
    var n := RunLen(a);
    if n == |a| {
      WordsAroundWholeRun(a, c, b);
    } else {
      var w, tail := a[..n], a[n..];
      SliceOfAppend(a, cb, n);
      Regroup(tail, [c], b);
      WordsAtRun(a + cb);
      WordsAtRun(a);
      WordsAroundSpace(tail, c, b);
      Regroup([w], Words(tail), Words(b));
    }
  }

  lemma SliceOfAppend<T>(a: seq<T>, b: seq<T>, n: nat)
    requires n <= |a|
    ensures (a + b)[..n] == a[..n] && (a + b)[n..] == a[n..] + b
  {
  }

  lemma WordsAroundWholeRun(a: string, c: char, b: string)
    requires IsSpace(c) && a != [] && RunLen(a) == |a| && RunLen(a + [c] + b) == |a|
    ensures Words(a + [c] + b) == Words(a) + Words(b)
  {
    var s := a + [c] + b;
    WordsAtRun(s);
    assert s[..|a|] == a;
    assert s[|a|..] == [c] + b;
    WordsSpaceFirst(c, b);
    WordsAtRun(a);
    assert a[..|a|] == a && a[|a|..] == [];
  }

  lemma WordsAppendSpaces(a: string, sp: string)
    requires AllSpace(sp)
    ensures Words(a + sp) == Words(a)
  {
    if sp == [] {
      assert a + sp == a;
    } else {
      assert a + sp == a + [sp[0]] + sp[1..];
      WordsAroundSpace(a, sp[0], sp[1..]);
      WordsOfSpaces(sp[1..]);
    }
  }

  lemma {:induction false} WordsPrependSpaces(sp: string, a: string)
    requires AllSpace(sp)
    ensures Words(sp + a) == Words(a)
    decreases |sp|
  {
    if sp != [] {
      assert (sp + a)[1..] == sp[1..] + a;
      WordsPrependSpaces(sp[1..], a);
    } else {
      assert sp + a == a;
    }
  }

  /** Stripping never changes the words of a text. */
  lemma WordsOfStrip(s: string)
    ensures Words(Strip(s)) == Words(s)
  {
    WordsOfLStrip(s);
    WordsOfRStrip(LStrip(s));
  }

  lemma WordsOfLStrip(s: string)
    ensures Words(LStrip(s)) == Words(s)
  {
    var l := LStrip(s);
    var lead := s[..|s| - |l|];
    LStripDropsSpace(s);
    assert s == lead + l;
    WordsPrependSpaces(lead, l);
  }

  lemma WordsOfRStrip(l: string)
    ensures Words(RStrip(l)) == Words(l)
  {
    var r := RStrip(l);
    var trail := l[|r|..];
    RStripDropsSpace(l);
    assert l == r + trail;
    WordsAppendSpaces(r, trail);
  }

  /** The words of a space-joined list are the words of its pieces. */
  lemma {:induction false} WordsOfJoin(xs: seq<string>)
    ensures Words(Join(" ", xs)) == WordsOfAll(xs)
    decreases |xs|
  {
    if |xs| == 1 {
      assert xs[..0] == [];
    } else if |xs| > 1 {
      var init := xs[..|xs| - 1];
      WordsOfJoin(init);
      assert Join(" ", xs) == Join(" ", init) + [' '] + xs[|xs| - 1];
      WordsAroundSpace(Join(" ", init), ' ', xs[|xs| - 1]);
    }
  }

  lemma WordsOfAllAppend(xs: seq<string>, x: string)
    ensures WordsOfAll(xs + [x]) == WordsOfAll(xs) + Words(x)
  {
    assert (xs + [x])[..|xs|] == xs;
  }

  /** A word is its own only word. */
  lemma WordsOfWord(w: string)
    requires IsWord(w)
    ensures Words(w) == [w]
  {
    assert RunLen(w) == |w|;
    assert w[..|w|] == w;
  }

  /** Joining words with single spaces gives them back under `split()`. */
  lemma {:induction false} WordsOfJoinedWords(ws: seq<string>)
    requires forall k :: 0 <= k < |ws| ==> IsWord(ws[k])
    ensures Words(Join(" ", ws)) == ws
    decreases |ws|
  {
    WordsOfJoin(ws);
    WordsOfAllOfWords(ws);
  }

  lemma {:induction false} WordsOfAllOfWords(ws: seq<string>)
    requires forall k :: 0 <= k < |ws| ==> IsWord(ws[k])
    ensures WordsOfAll(ws) == ws
    decreases |ws|
  {
    if ws != [] {
      WordsOfAllOfWords(ws[..|ws| - 1]);
      WordsOfWord(ws[|ws| - 1]);
    }
  }

  /** `needle in hay` for strings. */
  predicate Contains(hay: string, needle: string)
    decreases |hay|
  {
    needle <= hay || (hay != [] && Contains(hay[1..], needle))
  }

  lemma {:induction false} ContainsAt(hay: string, needle: string)
    ensures Contains(hay, needle) <==> exists i :: OccursAt(hay, needle, i)
    decreases |hay|
  {
    if needle <= hay {
      assert OccursAt(hay, needle, 0);
    }
    if hay != [] {
      ContainsAt(hay[1..], needle);
      if Contains(hay[1..], needle) {
        var i :| OccursAt(hay[1..], needle, i);
        OccursShift(hay, needle, i);
      }
      if exists i :: OccursAt(hay, needle, i) {
        var i :| OccursAt(hay, needle, i);
        if i > 0 {
          OccursUnshift(hay, needle, i);
        } else {
          assert needle <= hay;
        }
      }
    } else if exists i :: OccursAt(hay, needle, i) {
      var i :| OccursAt(hay, needle, i);
      assert needle == [];
    }
  }

  lemma OccursShift(hay: string, needle: string, i: int)
    requires hay != [] && OccursAt(hay[1..], needle, i)
    ensures OccursAt(hay, needle, i + 1)
  {
    assert hay[i + 1..i + 1 + |needle|] == hay[1..][i..i + |needle|];
  }

  lemma OccursUnshift(hay: string, needle: string, i: int)
    requires i > 0 && OccursAt(hay, needle, i)
    ensures OccursAt(hay[1..], needle, i - 1)
  {
    assert hay[1..][i - 1..i - 1 + |needle|] == hay[i..i + |needle|];
  }


  /** Every text contains itself. */
  lemma ContainsSelf(s: string)
    ensures Contains(s, s)
  {
  }

  /** `s.find(c)`: the first index of `c`, or -1. */
  function Find(s: string, c: char): (r: int)
    ensures -1 <= r < |s|
    ensures r == -1 <==> c !in s
    ensures r >= 0 ==> s[r] == c && forall i :: 0 <= i < r ==> s[i] != c
  {
    if s == [] then -1
    else if s[0] == c then 0
    else var k := Find(s[1..], c); if k == -1 then -1 else k + 1
  }

  /** ASCII case mapping; see README for what it leaves out. */
  function LowerChar(c: char): char { if 'A' <= c <= 'Z' then (c as int + 32) as char else c }
  function UpperChar(c: char): char { if 'a' <= c <= 'z' then (c as int - 32) as char else c }

  function Lower(s: string): (r: string)
    ensures |r| == |s|
  {
    seq(|s|, i requires 0 <= i < |s| => LowerChar(s[i]))
  }

  function Upper(s: string): (r: string)
    ensures |r| == |s|
  {
    seq(|s|, i requires 0 <= i < |s| => UpperChar(s[i]))
  }

  /** `x or ''` for a text that may be `None`. */
  function OrEmpty(x: Option<string>): string {
    if x.Some? then x.value else ""
  }

  /** Python `xs[:j]`: a negative `j` counts from the end; both clamp. */
  function PyTo<T>(xs: seq<T>, j: int): (r: seq<T>)
    ensures r <= xs
    ensures j >= 0 ==> |r| == Min(j, |xs|)
    ensures j < 0 ==> |r| == Max(0, |xs| + j)
  {
    if j >= 0 then xs[..Min(j, |xs|)] else xs[..Max(0, |xs| + j)]
  }

  /** Python `xs[i:]`: a negative `i` counts from the end; both clamp. */
  function PyFrom<T>(xs: seq<T>, i: int): (r: seq<T>)
    ensures |r| <= |xs|
    ensures i >= 0 ==> |r| == Max(0, |xs| - i)
    ensures i < 0 ==> |r| == Min(-i, |xs|)
  {
    if i >= 0 then xs[Min(i, |xs|)..] else xs[Max(0, |xs| + i)..]
  }

  /** `xs[i:]` is the suffix of `xs` of its own length. */
  lemma PyFromSuffix<T>(xs: seq<T>, i: int)
    ensures PyFrom(xs, i) == xs[|xs| - |PyFrom(xs, i)|..]
  {
  }
}
