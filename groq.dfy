/**
 * The hosted-model backend, minus the network: repairing a model reply into
 * parseable JSON, the retry loop over the replies, and the shaping of the
 * requests and results of `summarize`, `generate_quiz` and `grade_freeform`.
 */
module Groq {
  import opened Common
  import opened TextUtil
  import opened Json
  import opened Provider

  const Fence := "```"
  /** What `_sanitize_json` falls back to. */
  const EmptyList := "[]"
  const ContextLimit := 8000

  /** `t.lower().startswith("json")`: only the ASCII letters lower to `j`,
      `s`, `o` and `n`. */
  predicate HasJsonTag(t: string) {
    |t| >= 4 && Lower(t[..4]) == "json"
  }

  /** The fence handling of `_sanitize_json` on the stripped reply `t`: a
      leading ``` makes every leading and trailing backtick go, and then a
      leading `json` tag goes with the whitespace around what follows it. */
  function Unfence(t: string): string {
    if !(Fence <= t) then t
    else
      var u := StripChar(t, '`');
      if HasJsonTag(u) then Strip(u[4..]) else u
  }

  /** Without a fence the text is untouched; with one, what is left either
      has no backtick at either end (and no `json` tag), or is the stripped
      rest after the tag. */
  lemma UnfenceShape(t: string)
    ensures !(Fence <= t) ==> Unfence(t) == t
    ensures Fence <= t && !HasJsonTag(StripChar(t, '`')) ==>
      var r := Unfence(t);
      r == StripChar(t, '`') && (r == [] || (r[0] != '`' && r[|r| - 1] != '`'))
    ensures Fence <= t && HasJsonTag(StripChar(t, '`')) ==>
      var u := StripChar(t, '`');
      Unfence(t) == Strip(u[4..]) && IsStripped(Unfence(t))
  {
  }

  predicate IsBracket(c: char) { c == '[' || c == '{' }

  /** `min` of the positions of the first `[` and the first `{`, or -1. */
  function FirstBracket(t: string): (start: int)
    ensures start == -1 <==> forall i :: 0 <= i < |t| ==> !IsBracket(t[i])
    ensures start != -1 ==>
      0 <= start < |t| && IsBracket(t[start]) && forall i :: 0 <= i < start ==> !IsBracket(t[i])
  {
    var a := Find(t, '[');
    var b := Find(t, '{');
    if a == -1 then b else if b == -1 then a else Min(a, b)
  }

  /** `t[start:end].strip()`, the candidate cut at `end`. */
  function Candidate(t: string, start: nat, end: nat): string
    requires start <= end <= |t|
  {
    Strip(t[start..end])
  }

  /** The slice the loop of `_sanitize_json` returns, trying the ends
      `end`, `end - 1`, ..., `start + 1` in turn; `accepts` says whether
      `json.loads` returns on a text. */
  function LongestParse(t: string, start: nat, end: nat, accepts: string -> bool): string
    requires start < |t| && end <= |t|
    decreases end
  {
    if end <= start then EmptyList
    else
      var chunk := Candidate(t, start, end);
      if accepts(chunk) then chunk else LongestParse(t, start, end - 1, accepts)
  }

  /** `_sanitize_json(txt)` for the parser `accepts`. */
  function Repair(txt: string, accepts: string -> bool): string {
    if txt == [] then EmptyList
    else
      var t := Unfence(Strip(txt));
      var start := FirstBracket(t);
      if start == -1 then EmptyList else LongestParse(t, start, |t|, accepts)
  }

  /** `_sanitize_json(txt)` with `json.loads`. */
  function Sanitize(txt: string): string {
    Repair(txt, Parses)
  }

  /** `_sanitize_json`. */
  method SanitizeJson(txt: string) returns (r: string)
    ensures r == Sanitize(txt)
  {
    if txt == [] {
      return EmptyList;
    }
    var t := Strip(txt);
    t := Unfence(t);
    var start := FirstBracket(t);
    if start == -1 {
      return EmptyList;
    }
    r := LongestParseLoop(t, start, Parses);
  }

  /** The loop of `_sanitize_json` over the candidate ends, longest first;
      `accepts` is `json.loads` returning. */
  method LongestParseLoop(t: string, start: nat, accepts: string -> bool) returns (r: string)
    requires start < |t|
    ensures r == LongestParse(t, start, |t|, accepts)
  {
    var end := |t|;
    while end > start
      invariant start <= end <= |t|
      invariant LongestParse(t, start, end, accepts) == LongestParse(t, start, |t|, accepts)
      decreases end
    {
      var chunk := Candidate(t, start, end);
      var ok := accepts(chunk);
      LongestParseStep(t, start, end, accepts);
      if ok {
        return chunk;
      }
      end := end - 1;
    }
    return EmptyList;
  }

  /** One turn of the loop: the cut at `end` when it parses, else the
      shorter cuts. */
  lemma LongestParseStep(t: string, start: nat, end: nat, accepts: string -> bool)
    requires start < end <= |t|
    ensures LongestParse(t, start, end, accepts) ==
      if accepts(Candidate(t, start, end)) then Candidate(t, start, end)
      else LongestParse(t, start, end - 1, accepts)
  {
  }

  /** `e` is the last end up to `end` whose candidate the parser accepts. */
  predicate LastAccepted(t: string, start: nat, end: nat, accepts: string -> bool, e: nat)
    requires start < |t| && end <= |t|
  {
    && start < e <= end
    && accepts(Candidate(t, start, e))
    && forall e' :: e < e' <= end ==> !accepts(Candidate(t, start, e'))
  }

  /** The ends whose candidate the parser accepts. */
  function AcceptedEnds(t: string, start: nat, accepts: string -> bool): nat -> bool {
    e => start <= e <= |t| && accepts(Candidate(t, start, e))
  }

  /** The last `e` in `(lo, hi]` with `ok(e)`, or `lo` when there is none. */
  function LastOk(ok: nat -> bool, lo: nat, hi: nat): (e: nat)
    ensures lo <= e && (e == lo || (e <= hi && ok(e)))
    ensures forall e' :: e < e' <= hi ==> !ok(e')
    decreases hi
  {
    if hi <= lo then lo else if ok(hi) then hi else LastOk(ok, lo, hi - 1)
  }

  /** The loop's result is the candidate at the last accepted end. */
  lemma {:induction false} LongestParseIsLast(t: string, start: nat, end: nat, accepts: string -> bool)
    requires start < |t| && end <= |t|
    ensures var e := LastOk(AcceptedEnds(t, start, accepts), start, end);
      LongestParse(t, start, end, accepts) == if e == start then EmptyList else Candidate(t, start, e)
    decreases end
  {
    if end > start {
      LongestParseStep(t, start, end, accepts);
      LongestParseIsLast(t, start, end - 1, accepts);
    }
  }

  /** The loop returns the longest stripped candidate that parses, and the
      fallback only when none does. */
  lemma LongestParseIsLongest(t: string, start: nat, end: nat, accepts: string -> bool)
    requires start < |t| && end <= |t|
    ensures (forall e :: start < e <= end ==> !accepts(Candidate(t, start, e))) ==>
      LongestParse(t, start, end, accepts) == EmptyList
    ensures (exists e :: start < e <= end && accepts(Candidate(t, start, e))) ==>
      exists e :: LastAccepted(t, start, end, accepts, e) && LongestParse(t, start, end, accepts) == Candidate(t, start, e)
  {
    LongestParseIsLast(t, start, end, accepts);
    var ok := AcceptedEnds(t, start, accepts);
    var e := LastOk(ok, start, end);
    if e > start {
      assert ok(e);
      forall e' | e < e' <= end
        ensures !accepts(Candidate(t, start, e'))
      {
        assert !ok(e');
      }
      assert LastAccepted(t, start, end, accepts, e);
    } else {
      forall e' | start < e' <= end
        ensures !accepts(Candidate(t, start, e'))
      {
        assert !ok(e');
      }
    }
  }

  /** A candidate cut at a bracket is that bracket and what follows it, up
      to the last non-whitespace character before the cut. */
  lemma CandidateFromBracket(t: string, start: nat, end: nat)
    requires start < end <= |t| && IsBracket(t[start])
    ensures var c := Candidate(t, start, end);
      c != [] && c[0] == t[start] && c <= t[start..]
  {
    var piece := t[start..end];
    assert !IsSpace(piece[0]);
    assert LStrip(piece) == piece;
    RStripDropsSpace(piece);
  }

  /** Whatever the parser, the repaired text parses when "[]" does. */
  lemma RepairAccepted(txt: string, accepts: string -> bool)
    requires accepts(EmptyList)
    ensures accepts(Repair(txt, accepts))
  {
    if txt != [] {
      var t := Unfence(Strip(txt));
      var start := FirstBracket(t);
      if start != -1 {
        LongestParseIsLongest(t, start, |t|, accepts);
      }
    }
  }

  /** `json.loads(_sanitize_json(x))` never raises. */
  lemma SanitizeParses(txt: string)
    ensures Parses(Sanitize(txt))
  {
    LoadsEmptyList();
    RepairAccepted(txt, Parses);
  }

  /** What `_sanitize_json` returns: "[]" for an empty reply or one without
      a bracket after the fence is handled; otherwise the longest stripped
      slice from the first bracket that the parser accepts, a prefix of the
      text from that bracket, or "[]" when it accepts no slice. */
  lemma RepairResult(txt: string, accepts: string -> bool)
    ensures txt == [] ==> Repair(txt, accepts) == EmptyList
    ensures txt != [] ==>
      var t := Unfence(Strip(txt));
      && (FirstBracket(t) == -1 ==> Repair(txt, accepts) == EmptyList)
      && (FirstBracket(t) != -1 ==>
            var start := FirstBracket(t);
            && ((forall e :: start < e <= |t| ==> !accepts(Candidate(t, start, e))) ==>
                  Repair(txt, accepts) == EmptyList)
            && ((exists e :: start < e <= |t| && accepts(Candidate(t, start, e))) ==>
                  var r := Repair(txt, accepts);
                  && r != [] && r[0] == t[start] && r <= t[start..] && IsStripped(r)
                  && exists e :: LastAccepted(t, start, |t|, accepts, e) && r == Candidate(t, start, e)))
  {
    if txt != [] {
      var t := Unfence(Strip(txt));
      var start := FirstBracket(t);
      if start != -1 {
        LongestParseIsLongest(t, start, |t|, accepts);
        if exists e :: start < e <= |t| && accepts(Candidate(t, start, e)) {
          var e :| LastAccepted(t, start, |t|, accepts, e) && Repair(txt, accepts) == Candidate(t, start, e);
          CandidateFromBracket(t, start, e);
        }
      }
    }
  }

  /** A repaired text other than the fallback starts with the first bracket
      of the unfenced reply. */
  lemma SanitizeStart(txt: string)
    requires Sanitize(txt) != EmptyList
    ensures txt != [] && FirstBracket(Unfence(Strip(txt))) != -1
    ensures var t := Unfence(Strip(txt));
      Sanitize(txt) != [] && Sanitize(txt)[0] == t[FirstBracket(t)]
  {
    RepairResult(txt, Parses);
  }

  predicate HasBracket(s: string) { '{' in s || '[' in s }

  /** `_chat(system, user, retries)` over the replies the backend would give
      to successive calls (`None` for a reply without content, read as
      `content or ""`); `calls` counts the calls made. */
  method Chat(replies: nat -> Option<string>, retries: int) returns (last: string, calls: nat)
    ensures calls <= Max(0, retries + 1)
    ensures calls == 0 ==> last == ""
    ensures calls > 0 ==> last == OrEmpty(replies(calls - 1))
    ensures forall k :: 0 <= k < calls - 1 ==> !HasBracket(OrEmpty(replies(k)))
    ensures calls < retries + 1 ==> HasBracket(last)
  {
    last := "";
    calls := 0;
    var i := 0;
    while i < retries + 1
      invariant 0 <= i <= Max(0, retries + 1) && calls == i
      invariant calls == 0 ==> last == ""
      invariant calls > 0 ==> last == OrEmpty(replies(calls - 1))
      invariant forall k :: 0 <= k < calls ==> !HasBracket(OrEmpty(replies(k)))
      decreases retries + 1 - i
    {
      last := OrEmpty(replies(i));
      calls := calls + 1;
      if HasBracket(last) {
        return;
      }
      i := i + 1;
    }
  }

  /** `summarize` on the reply `resp`. */
  function Summarize(resp: string): (r: Summary)
    ensures r.title == "Summary" && r.summary == Strip(resp)
    ensures r.wordCount == |Words(r.summary)|
  {
    WordsOfStrip(resp);
    Summary("Summary", Strip(resp), |Words(resp)|)
  }

  /** The request body `generate_quiz` sends. */
  datatype QuizRequest = QuizRequest(
    mcq: int, tf: int, short: int, fill: int,
    difficulties: seq<string>,
    context: string)

  function QuizRequestOf(text: string, cfg: QuizConfig): (q: QuizRequest)
    ensures q.mcq == CountOf(cfg.mcq) && q.tf == CountOf(cfg.tf)
    ensures q.short == CountOf(cfg.short) && q.fill == CountOf(cfg.fill)
    ensures q.difficulties == DifficultiesOf(cfg)
    ensures q.context <= text && |q.context| == Min(ContextLimit, |text|)
  {
    QuizRequest(CountOf(cfg.mcq), CountOf(cfg.tf), CountOf(cfg.short), CountOf(cfg.fill),
                DifficultiesOf(cfg), PyTo(text, ContextLimit))
  }

  /** `generate_quiz` on the reply `content`: the parsed value when it is a
      list, else nothing. */
  function GenerateQuiz(content: string): seq<Value> {
    match Loads(Sanitize(content))
    case Some(Arr(items)) => items
    case _ => []
  }

  /** The repaired reply always decodes: the fallback to the empty list,
      anything else to a list or an object as its first bracket says. */
  lemma SanitizedValue(content: string)
    ensures Loads(Sanitize(content)).Some?
    ensures Sanitize(content) == EmptyList ==> Loads(Sanitize(content)).value == Arr([])
    ensures Sanitize(content) != EmptyList ==>
      content != [] &&
      var t := Unfence(Strip(content));
      var v := Loads(Sanitize(content)).value;
      FirstBracket(t) != -1 &&
      (t[FirstBracket(t)] == '[' ==> v.Arr?) && (t[FirstBracket(t)] == '{' ==> v.Obj?)
  {
    SanitizeParses(content);
    LoadsEmptyList();
    if Sanitize(content) != EmptyList {
      SanitizeStart(content);
      LoadsBracket(Sanitize(content));
    }
  }

  /** No bracket, or a first bracket that opens an object, gives no items;
      any items are the decoded list the repaired reply holds. */
  lemma GenerateQuizResult(content: string)
    ensures content == [] || FirstBracket(Unfence(Strip(content))) == -1 ==> GenerateQuiz(content) == []
    ensures content != [] ==>
      var t := Unfence(Strip(content));
      FirstBracket(t) != -1 && t[FirstBracket(t)] == '{' ==> GenerateQuiz(content) == []
    ensures GenerateQuiz(content) != [] ==> Loads(Sanitize(content)) == Some(Arr(GenerateQuiz(content)))
  {
    SanitizedValue(content);
    var v := Loads(Sanitize(content)).value;
    assert GenerateQuiz(content) == (if v.Arr? then v.items else []);
  }

  /** What `grade_freeform` returns; `reason` is whatever the reply holds
      under "reason". */
  datatype Verdict = Verdict(correct: bool, reason: Value)

  const ParseError := Verdict(false, Str(Units("Parse error")))

  /** `grade_freeform` on the reply `content`. */
  function GradeFreeform(content: string): Verdict {
    match Loads(Sanitize(content))
    case Some(Obj(ms)) =>
      var c := Get(ms, "correct");
      var why := Get(ms, "reason");
      Verdict(c.Some? && Truthy(c.value), if why.Some? then why.value else Str([]))
    case _ => ParseError
  }

  /** A reply without a bracket, or whose first bracket opens a list, is a
      parse error; when the repaired reply is an object the verdict is the
      truthiness of its last "correct" member, false when there is none. */
  lemma GradeFreeformResult(content: string)
    ensures content == [] || FirstBracket(Unfence(Strip(content))) == -1 ==> GradeFreeform(content) == ParseError
    ensures content != [] ==>
      var t := Unfence(Strip(content));
      FirstBracket(t) != -1 && t[FirstBracket(t)] == '[' ==> GradeFreeform(content) == ParseError
    ensures Loads(Sanitize(content)).Some? && Loads(Sanitize(content)).value.Obj? ==>
      var ms := Loads(Sanitize(content)).value.members;
      (GradeFreeform(content).correct <==>
         exists i :: 0 <= i < |ms| && ms[i].key == Units("correct") && Truthy(ms[i].val)
           && forall j :: i < j < |ms| ==> ms[j].key != Units("correct"))
  {
    SanitizedValue(content);
    var v := Loads(Sanitize(content)).value;
    assert !v.Obj? ==> GradeFreeform(content) == ParseError;
    if v.Obj? {
      GetLast(v.members, "correct");
    }
  }

  /** The member `get` finds is the last one with the key. */
  lemma GetLast(ms: seq<Member>, key: string)
    ensures (Get(ms, key).Some? && Truthy(Get(ms, key).value)) <==>
      exists i :: 0 <= i < |ms| && ms[i].key == Units(key) && Truthy(ms[i].val)
        && forall j :: i < j < |ms| ==> ms[j].key != Units(key)
  {
    var c := Get(ms, key);
    if exists i :: 0 <= i < |ms| && ms[i].key == Units(key) && Truthy(ms[i].val)
         && forall j :: i < j < |ms| ==> ms[j].key != Units(key) {
      var i :| 0 <= i < |ms| && ms[i].key == Units(key) && Truthy(ms[i].val)
         && forall j :: i < j < |ms| ==> ms[j].key != Units(key);
      var i2 :| 0 <= i2 < |ms| && ms[i2].key == Units(key) && ms[i2].val == c.value
         && forall j :: i2 < j < |ms| ==> ms[j].key != Units(key);
      assert i == i2;
    }
  }
}
