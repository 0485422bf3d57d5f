/**
 * The two quiz rules of the web layer: the configuration `quiz_generate`
 * builds from the submitted form, and how `quiz_grade` scores a submitted
 * quiz.
 */
module App {
  import opened Common
  import opened TextUtil
  import opened Provider
  import opened LocalStub

  /** A submitted form: field name to value; an absent field has no key. */
  type Form = map<string, string>

  /** `request.form.get(key)`. */
  function Get(form: Form, key: string): Option<string> {
    if key in form then Some(form[key]) else None
  }

  // ---------------------------------------------------------------------
  // `int(s)` on a form value, and `str(n)`

  predicate IsDigit(c: char) { '0' <= c <= '9' }

  predicate AllDigits(s: string) {
    forall i :: 0 <= i < |s| ==> IsDigit(s[i])
  }

  /** The value of a string of decimal digits. */
  function DigitsValue(s: string): nat
    requires AllDigits(s)
  {
    if s == [] then 0 else 10 * DigitsValue(s[..|s| - 1]) + (s[|s| - 1] as int - '0' as int)
  }

  /** Decimal digits, with single underscores allowed between two digits. */
  predicate Numeral(s: string) {
    && s != [] && IsDigit(s[0]) && IsDigit(s[|s| - 1])
    && (forall i :: 0 <= i < |s| ==> IsDigit(s[i]) || s[i] == '_')
    && (forall i :: 0 <= i < |s| - 1 ==> s[i] == '_' ==> s[i + 1] != '_')
  }

  /** The digits of a numeral, underscores removed. */
  function DigitsOf(s: string): (d: string)
    requires forall i :: 0 <= i < |s| ==> IsDigit(s[i]) || s[i] == '_'
    ensures AllDigits(d) && |d| <= |s|
  {
    if s == [] then []
    else DigitsOf(s[..|s| - 1]) + (if s[|s| - 1] == '_' then [] else [s[|s| - 1]])
  }

  /** U+001C to U+001F: `str.isspace()` holds for them, but `int()` does
      not skip them, so a string holding one is never an integer. */
  predicate IsInfoSeparator(c: char) { '\U{1C}' <= c <= '\U{1F}' }

  /** The whitespace `int()` skips around a number. */
  predicate IsIntSpace(c: char) { IsSpace(c) && !IsInfoSeparator(c) }

  /** `str(n)` succeeds: `n` has at most `MaxIntDigits` decimal digits. */
  predicate StrFits(n: int) {
    |Natural(if n < 0 then -n else n)| <= MaxIntDigits
  }

  /** `int(s)` for a string: surrounding whitespace other than U+001C to
      U+001F, then an optional sign, then a numeral of at most
      `MaxIntDigits` digits; anything else raises `ValueError`.  Whatever it
      accepts, `str` can write back. */
  function ParseInt(s: string): (r: Result<int>)
    ensures r.Ok? ==> StrFits(r.value)
  {
    if exists i :: 0 <= i < |s| && IsInfoSeparator(s[i]) then Err(ValueError)
    else ParseStripped(Strip(s))
  }

  /** `int(t)` for a string without surrounding whitespace. */
  function ParseStripped(t: string): (r: Result<int>)
    ensures r.Ok? ==> StrFits(r.value)
  {
    if t != [] && (t[0] == '+' || t[0] == '-') && Numeral(t[1..]) then
      WithSign(t[0] == '-', NumeralValue(t[1..]))
    else if Numeral(t) then NumeralValue(t)
    else Err(ValueError)
  }

  /** A numeral's value under a sign. */
  function WithSign(neg: bool, r: Result<nat>): (q: Result<int>)
    ensures r.Ok? ==> q == Ok(if neg then -(r.value as int) else r.value)
    ensures r.Err? ==> q == Err(r.error)
  {
    if r.Err? then Err(r.error) else if neg then Ok(-(r.value as int)) else Ok(r.value)
  }

  /** The value of a numeral, refused beyond `MaxIntDigits` digits. */
  function NumeralValue(u: string): (r: Result<nat>)
    requires Numeral(u)
    ensures r.Ok? ==> |Natural(r.value)| <= MaxIntDigits
  {
    var d := DigitsOf(u);
    if |d| > MaxIntDigits then Err(ValueError)
    else
      NaturalLen(d);
      Ok(DigitsValue(d))
  }

  /** A value written with `k` digits prints with at most `k` digits (one,
      for zero). */
  lemma {:induction false} NaturalLen(d: string)
    requires AllDigits(d)
    ensures |Natural(DigitsValue(d))| <= Max(1, |d|)
  {
    if d != [] {
      var p := d[..|d| - 1];
      NaturalLen(p);
      var v := DigitsValue(d);
      if v >= 10 {
        assert v / 10 == DigitsValue(p);
      }
    }
  }

  /** The decimal digits of `n`, most significant first. */
  function Natural(n: nat): (s: string)
    ensures s != [] && AllDigits(s)
  {
    if n < 10 then [('0' as int + n) as char]
    else Natural(n / 10) + [('0' as int + n % 10) as char]
  }

  /** `str(n)`; Python raises `ValueError` instead when `n` does not satisfy
      `StrFits`. */
  function Decimal(n: int): string {
    if n < 0 then "-" + Natural(-n) else Natural(n)
  }

  lemma {:induction false} NaturalValue(n: nat)
    ensures DigitsValue(Natural(n)) == n
  {
    if n >= 10 {
      NaturalValue(n / 10);
      var s := Natural(n);
      assert s[..|s| - 1] == Natural(n / 10);
    }
  }

  lemma {:induction false} DigitsOfDigits(s: string)
    requires AllDigits(s)
    ensures DigitsOf(s) == s
  {
    if s != [] {
      DigitsOfDigits(s[..|s| - 1]);
    }
  }

  /** The digits of `str(n)` form a numeral worth `n`. */
  lemma NaturalNumeral(n: nat)
    ensures Numeral(Natural(n)) && DigitsValue(DigitsOf(Natural(n))) == n
  {
    NaturalValue(n);
    DigitsOfDigits(Natural(n));
  }

  /** `int(str(n)) == n` whenever `str(n)` succeeds. */
  lemma ParseDecimal(n: int)
    requires StrFits(n)
    ensures ParseInt(Decimal(n)) == Ok(n)
  {
    DecimalStripped(n);
    StripOfStripped(Decimal(n));
    ParseStrippedDecimal(n);
    var t := Decimal(n);
    assert forall i :: 0 <= i < |t| ==> t[i] == '-' || IsDigit(t[i]);
  }

  lemma DecimalStripped(n: int)
    ensures IsStripped(Decimal(n))
  {
    var d := Natural(if n < 0 then -n else n);
    var t := Decimal(n);
    assert t[|t| - 1] == d[|d| - 1];
    assert t[0] == '-' || t[0] == d[0];
  }

  lemma ParseStrippedDecimal(n: int)
    requires StrFits(n)
    ensures ParseStripped(Decimal(n)) == Ok(n)
  {
    var m := if n < 0 then -n else n;
    var d := Natural(m);
    NaturalNumeral(m);
    DigitsOfDigits(d);
    assert NumeralValue(d) == Ok(m);
    var sign: string := if n < 0 then ['-'] else [];
    assert Decimal(n) == sign + d;
    ParseSigned(sign, d);
  }

  /** A string with a character other than the whitespace `int()` skips, a
      sign, a digit or an underscore is not an integer. */
  lemma ParseRejects(s: string, i: int)
    requires 0 <= i < |s| && !IsIntSpace(s[i]) && !IsDigit(s[i]) && s[i] != '_' && s[i] != '+' && s[i] != '-'
    ensures ParseInt(s) == Err(ValueError)
  {
    if !IsInfoSeparator(s[i]) {
      var k := StripKeepsChar(s, i);
      ParseStrippedRejects(Strip(s), k);
    }
  }

  lemma ParseStrippedRejects(t: string, k: int)
    requires 0 <= k < |t| && !IsDigit(t[k]) && t[k] != '_' && t[k] != '+' && t[k] != '-'
    ensures ParseStripped(t) == Err(ValueError)
  {
    if k > 0 {
      assert t[1..][k - 1] == t[k];
    }
  }

  /** A well-formed numeral with more than `MaxIntDigits` digits, signed or
      not, is refused. */
  lemma ParseTooLong(s: string, sign: string, u: string)
    requires |sign| <= 1 && (sign != [] ==> sign[0] == '+' || sign[0] == '-')
    requires Strip(s) == sign + u && Numeral(u) && |DigitsOf(u)| > MaxIntDigits
    ensures ParseInt(s) == Err(ValueError)
  {
    ParseStrippedTooLong(sign, u);
  }

  lemma ParseStrippedTooLong(sign: string, u: string)
    requires |sign| <= 1 && (sign != [] ==> sign[0] == '+' || sign[0] == '-')
    requires Numeral(u) && |DigitsOf(u)| > MaxIntDigits
    ensures ParseStripped(sign + u) == Err(ValueError)
  {
    ParseSigned(sign, u);
  }

  /** A numeral under an optional sign is read by `NumeralValue`. */
  lemma ParseSigned(sign: string, u: string)
    requires |sign| <= 1 && (sign != [] ==> sign[0] == '+' || sign[0] == '-')
    requires Numeral(u)
    ensures ParseStripped(sign + u) == WithSign(sign != [] && sign[0] == '-', NumeralValue(u))
  {
    var t := sign + u;
    if sign == [] {
      assert t == u && IsDigit(t[0]);
    } else {
      assert t[1..] == u;
    }
  }

  // ---------------------------------------------------------------------
  // The configuration of `quiz_generate`

  /** `int(request.form.get(key, 5))`. */
  function CountField(form: Form, key: string): (r: Result<int>)
    ensures key !in form ==> r == Ok(DefaultCount)
    ensures key in form ==> r == ParseInt(form[key])
  {
    if key in form then ParseInt(form[key]) else Ok(DefaultCount)
  }

  /** `request.form.get(name) == 'on'`. */
  predicate IsOn(form: Form, name: string) {
    Get(form, name) == Some("on")
  }

  /** The difficulties whose checkbox, named by the lower-cased
      difficulty, is on, in the order given. */
  function Checked(form: Form, ds: seq<string>): (r: seq<string>)
    ensures |r| <= |ds|
    ensures forall d :: d in r <==> d in ds && IsOn(form, Lower(d))
  {
    if ds == [] then []
    else
      var last := ds[|ds| - 1];
      Checked(form, ds[..|ds| - 1]) + (if IsOn(form, Lower(last)) then [last] else [])
  }

  /** `[d for d in ['Easy', 'Medium', 'Hard'] if ...] or ['Easy', 'Medium', 'Hard']`. */
  function SelectedDifficulties(form: Form): seq<string> {
    var checked := Checked(form, DefaultDifficulties);
    if checked != [] then checked else DefaultDifficulties
  }

  /** The `cfg` dictionary: the four counts, read in order, then the
      difficulties; the first count that is not an integer raises. */
  function QuizConfigOf(form: Form): Result<QuizConfig> {
    var mcq := CountField(form, "mcq");
    var tf := CountField(form, "tf");
    var short := CountField(form, "short");
    var fill := CountField(form, "fill");
    if mcq.Err? then Err(mcq.error)
    else if tf.Err? then Err(tf.error)
    else if short.Err? then Err(short.error)
    else if fill.Err? then Err(fill.error)
    else Ok(QuizConfig(Some(mcq.value), Some(tf.value), Some(short.value), Some(fill.value),
                       Some(SelectedDifficulties(form))))
  }

  /** The position of a difficulty in `['Easy', 'Medium', 'Hard']`. */
  function Rank(d: string): int {
    if d == "Easy" then 0 else if d == "Medium" then 1 else 2
  }

  lemma LowerDifficulties()
    ensures Lower("Easy") == "easy" && Lower("Medium") == "medium" && Lower("Hard") == "hard"
  {
  }

  /** The checked difficulties, box by box. */
  lemma CheckedDefaults(form: Form)
    ensures Checked(form, DefaultDifficulties) ==
      (if IsOn(form, "easy") then ["Easy"] else []) + (if IsOn(form, "medium") then ["Medium"] else [])
        + (if IsOn(form, "hard") then ["Hard"] else [])
  {
    LowerDifficulties();
    var ds := DefaultDifficulties;
    assert [ds[0]][..0] == [] && [ds[0], ds[1]][..1] == [ds[0]] && ds[..2] == [ds[0], ds[1]];
    var c1 := Checked(form, [ds[0]]);
    assert c1 == (if IsOn(form, "easy") then ["Easy"] else []);
    var c2 := Checked(form, [ds[0], ds[1]]);
    assert c2 == c1 + (if IsOn(form, "medium") then ["Medium"] else []);
    assert Checked(form, ds) == c2 + (if IsOn(form, "hard") then ["Hard"] else []);
  }

  /** The selection is never empty, holds exactly the checked difficulties
      (all three when none is checked), and keeps their order. */
  lemma SelectedDifficultiesShape(form: Form)
    ensures var r := SelectedDifficulties(form);
      var none := !IsOn(form, "easy") && !IsOn(form, "medium") && !IsOn(form, "hard");
      && 1 <= |r| <= 3
      && (forall d :: d in r <==> d in DefaultDifficulties && (none || IsOn(form, Lower(d))))
      && (forall i, j :: 0 <= i < j < |r| ==> Rank(r[i]) < Rank(r[j]))
  {
    CheckedDefaults(form);
    LowerDifficulties();
  }

  /** A form without counts and without a checked difficulty asks for five
      questions of each kind at every difficulty. */
  lemma QuizConfigDefaults(form: Form)
    requires "mcq" !in form && "tf" !in form && "short" !in form && "fill" !in form
    requires !IsOn(form, "easy") && !IsOn(form, "medium") && !IsOn(form, "hard")
    ensures QuizConfigOf(form) == Ok(QuizConfig(Some(DefaultCount), Some(DefaultCount), Some(DefaultCount),
                                                Some(DefaultCount), Some(DefaultDifficulties)))
  {
    var ds := DefaultDifficulties;
    assert Lower(ds[0]) == "easy" && Lower(ds[1]) == "medium" && Lower(ds[2]) == "hard";
    assert forall d :: d in ds ==> !IsOn(form, Lower(d));
    EmptyIfNoMember(Checked(form, ds));
  }

  lemma EmptyIfNoMember<T>(c: seq<T>)
    ensures (forall x :: x !in c) ==> c == []
  {
    if c != [] {
      assert c[0] in c;
    }
  }

  /** Each count is the form's number: `int(str(n)) == n`. */
  lemma QuizConfigCounts(form: Form, m: int, t: int, s: int, f: int)
    requires StrFits(m) && StrFits(t) && StrFits(s) && StrFits(f)
    requires Get(form, "mcq") == Some(Decimal(m)) && Get(form, "tf") == Some(Decimal(t))
    requires Get(form, "short") == Some(Decimal(s)) && Get(form, "fill") == Some(Decimal(f))
    ensures QuizConfigOf(form) == Ok(QuizConfig(Some(m), Some(t), Some(s), Some(f), Some(SelectedDifficulties(form))))
  {
    ParseDecimal(m);
    ParseDecimal(t);
    ParseDecimal(s);
    ParseDecimal(f);
  }

  // ---------------------------------------------------------------------
  // Scoring in `quiz_grade`

  /** A stored question: its id, kind, prompt and correct answer. */
  datatype Question = Question(id: int, kind: string, prompt: string, correct: Option<string>)

  /** The entry of `details` for one question. */
  datatype Verdict = Verdict(ai: bool, ok: bool, reason: string)

  /** The backend's `grade_freeform(prompt, correct, answer)`. */
  type Grader = (string, string, string) -> Grade

  const ExactMatchReason := "Exact match"

  /** `(request.form.get(f'q_{q.id}') or '').strip()`. */
  function Answer(form: Form, q: Question): (a: string)
    ensures IsStripped(a)
  {
    Strip(OrEmpty(Get(form, "q_" + Decimal(q.id))))
  }

  predicate ExactKind(kind: string) {
    kind == "mcq" || kind == "tf"
  }

  /** The verdict on one question: a case-insensitive exact match for
      multiple-choice and true/false questions, the backend's judgement
      otherwise. */
  function Judge(q: Question, user: string, grader: Grader): (v: Verdict)
    ensures v.ai == !ExactKind(q.kind)
  {
    if ExactKind(q.kind) then Verdict(false, Upper(user) == Upper(OrEmpty(q.correct)), ExactMatchReason)
    else
      var g := grader(q.prompt, OrEmpty(q.correct), user);
      Verdict(true, g.correct, g.reason)
  }

  function VerdictOf(form: Form, q: Question, grader: Grader): Verdict {
    Judge(q, Answer(form, q), grader)
  }

  /** The number of questions judged correct. */
  function Score(form: Form, qs: seq<Question>, grader: Grader): nat {
    CountOk(qs, VerdictFor(form, grader))
  }

  /** The number of questions whose verdict under `v` is correct. */
  function CountOk(qs: seq<Question>, v: Question -> Verdict): nat {
    if qs == [] then 0
    else CountOk(qs[..|qs| - 1], v) + (if v(qs[|qs| - 1]).ok then 1 else 0)
  }

  /** A dictionary filled question by question with `m[q.id] = f(q)`. */
  function ById<V>(qs: seq<Question>, f: Question -> V): map<int, V> {
    if qs == [] then map[]
    else ById(qs[..|qs| - 1], f)[qs[|qs| - 1].id := f(qs[|qs| - 1])]
  }

  function AnswerOf(form: Form): Question -> string {
    q => Answer(form, q)
  }

  /** The verdict on a question given the submitted answer. */
  function JudgeWith(grader: Grader): (Question, string) -> Verdict {
    (q, user) => Judge(q, user, grader)
  }

  /** Read the answer to a question, then judge it. */
  function Graded(answerOf: Question -> string, judge: (Question, string) -> Verdict): Question -> Verdict {
    q => judge(q, answerOf(q))
  }

  function VerdictFor(form: Form, grader: Grader): Question -> Verdict {
    Graded(AnswerOf(form), JudgeWith(grader))
  }

  /** `answers`: the last answer recorded for each question id. */
  function Answers(form: Form, qs: seq<Question>): map<int, string> {
    ById(qs, AnswerOf(form))
  }

  /** `details`: the last verdict recorded for each question id. */
  function Details(form: Form, qs: seq<Question>, grader: Grader): map<int, Verdict> {
    ById(qs, VerdictFor(form, grader))
  }

  /** `int(round(100 * correct / max(1, n)))`, on the exact quotient. */
  function Percent(correct: nat, n: nat): nat {
    RoundHalfEven(100 * correct, Max(1, n))
  }

  /** `quiz_grade`: the scoring loop, then the percentage. */
  method GradeQuiz(form: Form, qs: seq<Question>, grader: Grader)
    returns (score: nat, percent: nat, answers: map<int, string>, details: map<int, Verdict>)
    ensures score == Score(form, qs, grader)
    ensures answers == Answers(form, qs) && details == Details(form, qs, grader)
    ensures percent == Percent(score, |qs|)
  {
    score, answers, details := GradeLoop(qs, AnswerOf(form), JudgeWith(grader));
    percent := Percent(score, |qs|);
  }

  /** The loop of `quiz_grade` over the questions: read the answer, record
      it, judge it, record the verdict and count it when correct. */
  method GradeLoop(qs: seq<Question>, answerOf: Question -> string, judge: (Question, string) -> Verdict)
    returns (score: nat, answers: map<int, string>, details: map<int, Verdict>)
    ensures score == CountOk(qs, Graded(answerOf, judge))
    ensures answers == ById(qs, answerOf) && details == ById(qs, Graded(answerOf, judge))
  {
    score := 0;
    answers := map[];
    details := map[];
    var i := 0;
    while i < |qs|
      invariant 0 <= i <= |qs|
      invariant score == CountOk(qs[..i], Graded(answerOf, judge))
      invariant answers == ById(qs[..i], answerOf) && details == ById(qs[..i], Graded(answerOf, judge))
    {
      var q := qs[i];
      var user := answerOf(q);
      answers := answers[q.id := user];
      var verdict := judge(q, user);
      details := details[q.id := verdict];
      if verdict.ok {
        score := score + 1;
      }
      GradeStep(qs, answerOf, Graded(answerOf, judge), i);
      GradeStep(qs, Graded(answerOf, judge), Graded(answerOf, judge), i);
      i := i + 1;
    }
    assert qs[..i] == qs;
  }

  /** One more question: its verdict is added to the count and its value
      is recorded under its id. */
  lemma GradeStep<V>(qs: seq<Question>, f: Question -> V, v: Question -> Verdict, i: int)
    requires 0 <= i < |qs|
    ensures CountOk(qs[..i + 1], v) == CountOk(qs[..i], v) + (if v(qs[i]).ok then 1 else 0)
    ensures ById(qs[..i + 1], f) == ById(qs[..i], f)[qs[i].id := f(qs[i])]
  {
    assert qs[..i + 1][..i] == qs[..i];
  }

  /** The score counts questions, so it is at most their number; it is
      their number when every verdict is correct and 0 when none is. */
  lemma {:induction false} ScoreBounds(form: Form, qs: seq<Question>, grader: Grader)
    ensures Score(form, qs, grader) <= |qs|
    ensures (forall i :: 0 <= i < |qs| ==> VerdictOf(form, qs[i], grader).ok) ==> Score(form, qs, grader) == |qs|
    ensures (forall i :: 0 <= i < |qs| ==> !VerdictOf(form, qs[i], grader).ok) ==> Score(form, qs, grader) == 0
  {
    if qs != [] {
      var init := qs[..|qs| - 1];
      ScoreBounds(form, init, grader);
      assert forall i :: 0 <= i < |init| ==> init[i] == qs[i];
    }
  }

  /** The percentage lies in `[0, 100]`, is 0 for a quiz without
      questions or without a correct answer, and 100 when all are correct. */
  lemma PercentBounds(correct: nat, n: nat)
    requires correct <= n
    ensures 0 <= Percent(correct, n) <= 100
    ensures n == 0 || correct == 0 ==> Percent(correct, n) == 0
    ensures 0 < n && correct == n ==> Percent(correct, n) == 100
  {
    var p, den := Percent(correct, n), Max(1, n);
    assert 200 * correct - den <= 2 * p * den <= 200 * correct + den;
    AtMostHundred(p, den, correct);
    if correct == 0 {
      NothingRight(p, den);
    }
    if 0 < n && correct == n {
      AllRight(p, den);
    }
  }

  lemma AtMostHundred(p: nat, den: int, c: int)
    requires den > 0 && c <= den && 2 * p * den <= 200 * c + den
    ensures p <= 100
  {
    if p >= 101 {
      MulLe(101, p, den);
    }
  }

  lemma NothingRight(p: nat, den: int)
    requires den > 0 && 2 * p * den <= den
    ensures p == 0
  {
    if p >= 1 {
      MulLe(1, p, den);
    }
  }

  lemma AllRight(p: nat, den: int)
    requires den > 0 && 200 * den - den <= 2 * p * den <= 200 * den + den
    ensures p == 100
  {
    if p <= 99 {
      MulLe(p, 99, den);
    } else if p >= 101 {
      MulLe(101, p, den);
    }
  }

  lemma MulLe(a: int, b: int, d: int)
    requires a <= b && d >= 0
    ensures a * d <= b * d
  {
  }

  /** The grade of a whole quiz: `0 <= score <= n` and the percentage in
      `[0, 100]`. */
  lemma GradeQuizBounds(form: Form, qs: seq<Question>, grader: Grader)
    ensures Score(form, qs, grader) <= |qs|
    ensures 0 <= Percent(Score(form, qs, grader), |qs|) <= 100
    ensures qs == [] ==> Percent(Score(form, qs, grader), |qs|) == 0
  {
    ScoreBounds(form, qs, grader);
    PercentBounds(Score(form, qs, grader), |qs|);
  }

  lemma UpperLower(s: string)
    ensures Upper(Lower(s)) == Upper(s)
  {
  }

  /** A multiple-choice or true/false answer is judged without regard to
      ASCII case, or to whitespace around it. */
  lemma ExactMatchIgnoresCase(q: Question, user: string, grader: Grader)
    requires ExactKind(q.kind)
    ensures Judge(q, Lower(user), grader) == Judge(q, user, grader)
    ensures Judge(q, user, grader).ok <==> Upper(user) == Upper(OrEmpty(q.correct))
    ensures Judge(q, OrEmpty(q.correct), grader).ok
  {
    UpperLower(user);
  }

  /** Only whitespace around a submitted answer: the same verdict. */
  lemma AnswerIgnoresPadding(form: Form, q: Question, sp: string, x: string, sp2: string)
    requires AllSpace(sp) && AllSpace(sp2) && IsStripped(x)
    requires Get(form, "q_" + Decimal(q.id)) == Some(sp + x + sp2)
    ensures Answer(form, q) == x
  {
    StripAround(sp, x, sp2);
  }

  /** With the offline backend, a short or fill-in answer is correct iff
      the normalised answer and the normalised correct answer are both
      non-empty and one occurs in the other; an answer equal to the correct
      one up to case and surrounding whitespace is accepted unless blank. */
  lemma StubGradedFreeform(q: Question, user: string)
    requires !ExactKind(q.kind)
    ensures var stub := (p: string, t: string, u: string) => GradeFreeform(Some(p), Some(t), Some(u));
      var a, b := Normalize(Some(OrEmpty(q.correct))), Normalize(Some(user));
      && (Judge(q, user, stub).ok <==>
           a != [] && b != [] && ((exists i :: OccursAt(b, a, i)) || (exists i :: OccursAt(a, b, i))))
      && (a == b ==> (Judge(q, user, stub).ok <==> a != []))
  {
    GradeFreeformOccurs(Some(q.prompt), Some(OrEmpty(q.correct)), Some(user));
    if Normalize(Some(OrEmpty(q.correct))) == Normalize(Some(user)) {
      GradeFreeformSame(Some(q.prompt), Some(OrEmpty(q.correct)), Some(user));
    }
  }

  /** Every question's answer and verdict are recorded under its id; a
      later question with the same id overwrites an earlier one. */
  lemma RecordedPerQuestion(form: Form, qs: seq<Question>, grader: Grader)
    ensures forall i :: 0 <= i < |qs| ==> qs[i].id in Answers(form, qs) && qs[i].id in Details(form, qs, grader)
    ensures forall id :: id in Answers(form, qs) ==> exists i :: 0 <= i < |qs| && qs[i].id == id
    ensures forall i :: 0 <= i < |qs| && (forall j :: i < j < |qs| ==> qs[j].id != qs[i].id) ==>
      Answers(form, qs)[qs[i].id] == Answer(form, qs[i]) && Details(form, qs, grader)[qs[i].id] == VerdictOf(form, qs[i], grader)
  {
    ByIdRecords(qs, AnswerOf(form));
    ByIdRecords(qs, VerdictFor(form, grader));
  }

  /** The keys of `ById` are the ids, and each id holds the value of the
      last question that has it. */
  lemma ByIdRecords<V>(qs: seq<Question>, f: Question -> V)
    ensures forall i :: 0 <= i < |qs| ==> qs[i].id in ById(qs, f)
    ensures forall id :: id in ById(qs, f) ==> exists i :: 0 <= i < |qs| && qs[i].id == id
    ensures forall i :: 0 <= i < |qs| && (forall j :: i < j < |qs| ==> qs[j].id != qs[i].id) ==>
      ById(qs, f)[qs[i].id] == f(qs[i])
  {
    ByIdKeys(qs, f);
    ByIdValues(qs, f);
  }

  lemma {:induction false} ByIdKeys<V>(qs: seq<Question>, f: Question -> V)
    ensures forall i :: 0 <= i < |qs| ==> qs[i].id in ById(qs, f)
    ensures forall id :: id in ById(qs, f) ==> exists i :: 0 <= i < |qs| && qs[i].id == id
  {
    if qs != [] {
      var init, last := qs[..|qs| - 1], qs[|qs| - 1];
      ByIdKeys(init, f);
      assert ById(qs, f) == ById(init, f)[last.id := f(last)];
      forall id | id in ById(qs, f)
        ensures exists i :: 0 <= i < |qs| && qs[i].id == id
      {
        if id != last.id {
          assert id in ById(init, f);
          var i :| 0 <= i < |init| && init[i].id == id;
          assert qs[i].id == id;
        } else {
          assert qs[|qs| - 1].id == id;
        }
      }
      forall i | 0 <= i < |qs|
        ensures qs[i].id in ById(qs, f)
      {
        if i < |init| {
          assert init[i] == qs[i];
        }
      }
    }
  }

  lemma {:induction false} ByIdValues<V>(qs: seq<Question>, f: Question -> V)
    ensures forall i :: 0 <= i < |qs| && (forall j :: i < j < |qs| ==> qs[j].id != qs[i].id) ==>
      qs[i].id in ById(qs, f) && ById(qs, f)[qs[i].id] == f(qs[i])
  {
    if qs != [] {
      var init, last := qs[..|qs| - 1], qs[|qs| - 1];
      ByIdKeys(qs, f);
      ByIdValues(init, f);
      assert ById(qs, f) == ById(init, f)[last.id := f(last)];
      forall i | 0 <= i < |qs| && (forall j :: i < j < |qs| ==> qs[j].id != qs[i].id)
        ensures qs[i].id in ById(qs, f) && ById(qs, f)[qs[i].id] == f(qs[i])
      {
        if i < |init| {
          assert init[i] == qs[i];
          assert qs[i].id != last.id;
          assert forall j :: i < j < |init| ==> init[j] == qs[j];
        }
      }
    }
  }
}
