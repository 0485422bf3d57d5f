/**
 * The study planner: how many pages a document has, and a day-by-day
 * schedule of learn sessions between two dates, spaced reviews after each
 * learn day, one practice quiz near the end, sorted by date. Dates are day
 * numbers.
 */
module Planner {
  import opened Common
  import opened TextUtil

  /** The attributes of a stored document the planner reads.  For
      `pageCount` and `content`, `None` is an attribute that is absent or
      `None`, which the source treats alike; for `difficulty` it is an
      absent attribute only. */
  datatype Doc = Doc(pageCount: Option<int>, content: Option<string>, difficulty: Option<int>)

  /** The learner's preferred time window, as it is written into sessions. */
  datatype Profile = Profile(prefStart: string, prefEnd: string)

  datatype Kind = Learn | Review | Quiz

  datatype Session = Session(date: int, window: string, topic: string, kind: Kind, targetPages: int)

  datatype Plan = Plan(pages: int, sessions: seq<Session>)

  const WordsPerPage := 300
  const DefaultDifficulty := 2
  const SpacedStrategy := "1-3-7"
  const SpacedOffsets: seq<int> := [1, 3, 7]

  /** The topics the sessions carry. */
  const LearnTopic := "New material"
  const ReviewTopic := "Review"
  const QuizTopic := "Practice Quiz"

  /** `estimate_pages(doc)`: the page count when it is non-zero, else one
      page per 300 words of the content; at least 1 either way. */
  function EstimatePages(doc: Doc): (pages: int)
    ensures pages >= 1
    ensures doc.pageCount.Some? && doc.pageCount.value != 0 ==> pages == Max(1, doc.pageCount.value)
    ensures !(doc.pageCount.Some? && doc.pageCount.value != 0) ==>
      pages == Max(1, |Words(OrEmpty(doc.content))| / WordsPerPage) &&
      (pages - 1) * WordsPerPage <= |Words(OrEmpty(doc.content))|
  {
    if doc.pageCount.Some? && doc.pageCount.value != 0 then Max(1, doc.pageCount.value)
    else Max(1, |Words(OrEmpty(doc.content))| / WordsPerPage)
  }

  /** `max(1, min(3, getattr(doc, 'difficulty', 2)))`. */
  function Difficulty(doc: Doc): (d: int)
    ensures 1 <= d <= 3
    ensures doc.difficulty.None? ==> d == DefaultDifficulty
    ensures doc.difficulty.Some? && 1 <= doc.difficulty.value <= 3 ==> d == doc.difficulty.value
  {
    var given := if doc.difficulty.Some? then doc.difficulty.value else DefaultDifficulty;
    Max(1, Min(3, given))
  }

  /** The weights 0.9, 1.0 and 1.25 in twentieths. */
  function WeightTwentieths(diff: int): int
    requires 1 <= diff <= 3
  {
    if diff == 1 then 18 else if diff == 2 then 20 else 25
  }

  /** `max(1, int(round(pages * weight / max(1, days))))`. */
  function PagesPerDay(pages: nat, diff: int, days: int): (ppd: int)
    requires 1 <= diff <= 3
    ensures ppd >= 1
    ensures var num, den := pages * WeightTwentieths(diff), 20 * Max(1, days);
      ppd == 1 || 2 * num - den <= 2 * ppd * den <= 2 * num + den
  {
    Max(1, RoundHalfEven(pages * WeightTwentieths(diff), 20 * Max(1, days)))
  }

  /** `chunk // 3 or 1`. */
  function ReviewPages(chunk: int): (p: int)
    requires chunk >= 1
    ensures p >= 1 && (chunk >= 3 ==> p == chunk / 3)
  {
    if chunk / 3 != 0 then chunk / 3 else 1
  }

  function Offsets(strategy: string): seq<int> {
    if strategy == SpacedStrategy then SpacedOffsets else []
  }

  /** The review sessions for a chunk learned on day `cur`, one per offset
      that lands inside `[sd, ed]`. */
  function Reviews(cur: int, chunk: int, offs: seq<int>, sd: int, ed: int, window: string): seq<Session>
    requires chunk >= 1
  {
    if offs == [] then []
    else
      var rday := cur + offs[|offs| - 1];
      Reviews(cur, chunk, offs[..|offs| - 1], sd, ed, window)
        + (if sd <= rday <= ed then [Session(rday, window, ReviewTopic, Review, ReviewPages(chunk))] else [])
  }

  /** The sessions the loop appends from day `cur` on, with `handed`
      pages already given out. */
  function Schedule(sd: int, ed: int, pages: int, ppd: int, window: string, offs: seq<int>, cur: int, handed: int): seq<Session>
    requires ppd >= 1
    decreases Max(0, pages - handed)
  {
    if cur <= ed && handed < pages then
      var chunk := Min(ppd, pages - handed);
      [Session(cur, window, LearnTopic, Learn, chunk)]
        + Reviews(cur, chunk, offs, sd, ed, window)
        + Schedule(sd, ed, pages, ppd, window, offs, cur + 1, handed + chunk)
    else []
  }

  /** `int(0.8 * max(1, days - 1))`, on the exact product. */
  function QuizOffset(days: int): (k: int)
    ensures days >= 1 ==> 0 <= k <= days - 1
  {
    4 * Max(1, days - 1) / 5
  }

  /** The sessions before sorting: the schedule, then the quiz when the
      schedule is not empty. */
  function Unsorted(sd: int, ed: int, pages: int, ppd: int, window: string, offs: seq<int>): seq<Session>
    requires ppd >= 1
  {
    var s := Schedule(sd, ed, pages, ppd, window, offs, sd, 0);
    if s != [] then s + [Session(sd + QuizOffset(ed - sd + 1), window, QuizTopic, Quiz, 0)] else s
  }

  function Window(profile: Profile): string {
    profile.prefStart + "-" + profile.prefEnd
  }

  /** `build_plan(doc, profile, start_date, end_date, daily_minutes, strategy)`
      as a value. */
  function PlanOf(doc: Doc, profile: Profile, sd: int, ed: int, strategy: string): Plan {
    var pages := EstimatePages(doc);
    var ppd := PagesPerDay(pages, Difficulty(doc), ed - sd + 1);
    Plan(pages, SortByDate(Unsorted(sd, ed, pages, ppd, Window(profile), Offsets(strategy))))
  }

  /** Stable insertion of `x` into a list: after every session not later
      than it. */
  function InsertByDate(x: Session, s: seq<Session>): seq<Session> {
    if s == [] then [x]
    else if s[|s| - 1].date <= x.date then s + [x]
    else InsertByDate(x, s[..|s| - 1]) + [s[|s| - 1]]
  }

  /** `sessions.sort(key=date)`: Python's sort is stable. */
  function SortByDate(s: seq<Session>): seq<Session> {
    if s == [] then [] else InsertByDate(s[|s| - 1], SortByDate(s[..|s| - 1]))
  }

  /** The inner loop: the reviews for one chunk, appended. */
  method AddReviews(sessions: seq<Session>, cur: int, chunk: int, offs: seq<int>, sd: int, ed: int, window: string)
    returns (out: seq<Session>)
    requires chunk >= 1
    ensures out == sessions + Reviews(cur, chunk, offs, sd, ed, window)
  {
    out := sessions;
    var j := 0;
    while j < |offs|
      invariant 0 <= j <= |offs|
      invariant out == sessions + Reviews(cur, chunk, offs[..j], sd, ed, window)
    {
      var rday := cur + offs[j];
      assert offs[..j + 1][..j] == offs[..j];
      if sd <= rday <= ed {
        out := out + [Session(rday, window, ReviewTopic, Review, ReviewPages(chunk))];
      }
      j := j + 1;
    }
    assert offs[..j] == offs;
  }

  /** The day loop of `build_plan`. */
  method ScheduleDays(sd: int, ed: int, pages: int, ppd: int, window: string, offs: seq<int>)
    returns (sessions: seq<Session>)
    requires ppd >= 1
    ensures sessions == Schedule(sd, ed, pages, ppd, window, offs, sd, 0)
  {
    sessions := [];
    var handed := 0;
    var cur := sd;
    while cur <= ed && handed < pages
      invariant sessions + Schedule(sd, ed, pages, ppd, window, offs, cur, handed)
             == Schedule(sd, ed, pages, ppd, window, offs, sd, 0)
      decreases pages - handed
    {
      var chunk := Min(ppd, pages - handed);
      ghost var before := sessions;
      ghost var reviews := Reviews(cur, chunk, offs, sd, ed, window);
      ghost var rest := Schedule(sd, ed, pages, ppd, window, offs, cur + 1, handed + chunk);
      ScheduleStep(sd, ed, pages, ppd, window, offs, cur, handed);
      sessions := sessions + [Session(cur, window, LearnTopic, Learn, chunk)];
      sessions := AddReviews(sessions, cur, chunk, offs, sd, ed, window);
      Regroup3(before, [Session(cur, window, LearnTopic, Learn, chunk)], reviews, rest);
      handed := handed + chunk;
      cur := cur + 1;
    }
    assert sessions + [] == sessions;
  }

  lemma ScheduleStep(sd: int, ed: int, pages: int, ppd: int, window: string, offs: seq<int>, cur: int, handed: int)
    requires ppd >= 1 && cur <= ed && handed < pages
    ensures var chunk := Min(ppd, pages - handed);
      Schedule(sd, ed, pages, ppd, window, offs, cur, handed)
        == [Session(cur, window, LearnTopic, Learn, chunk)] + Reviews(cur, chunk, offs, sd, ed, window)
           + Schedule(sd, ed, pages, ppd, window, offs, cur + 1, handed + chunk)
  {
  }

  lemma Regroup3<T>(a: seq<T>, b: seq<T>, c: seq<T>, d: seq<T>)
    ensures (a + b + c) + d == a + (b + c + d)
  {
  }

  /** `build_plan(doc, profile, start_date, end_date, daily_minutes, strategy)`;
      `daily_minutes` is not read. */
  method BuildPlan(doc: Doc, profile: Profile, sd: int, ed: int, strategy: string) returns (plan: Plan)
    ensures plan == PlanOf(doc, profile, sd, ed, strategy)
  {
    var days := ed - sd + 1;
    var pages := EstimatePages(doc);
    var diff := Difficulty(doc);
    var ppd := PagesPerDay(pages, diff, days);
    var window := Window(profile);
    var sessions := ScheduleDays(sd, ed, pages, ppd, window, Offsets(strategy));
    if sessions != [] {
      sessions := sessions + [Session(sd + QuizOffset(days), window, QuizTopic, Quiz, 0)];
    }
    assert sessions == Unsorted(sd, ed, pages, ppd, window, Offsets(strategy));
    sessions := SortByDate(sessions);
    plan := Plan(pages, sessions);
  }

  // ---------------------------------------------------------------------
  // Sums and filters over session lists

  /** The sum of `f` over the sessions. */
  function SumOf(s: seq<Session>, f: Session -> int): int {
    if s == [] then 0 else SumOf(s[..|s| - 1], f) + f(s[|s| - 1])
  }

  lemma {:induction false} SumOfAppend(a: seq<Session>, b: seq<Session>, f: Session -> int)
    ensures SumOf(a + b, f) == SumOf(a, f) + SumOf(b, f)
    decreases |b|
  {
    if b == [] {
      assert a + b == a;
    } else {
      SumOfAppend(a, b[..|b| - 1], f);
      assert (a + b)[..|a + b| - 1] == a + b[..|b| - 1];
    }
  }

  function LearnPagesOf(x: Session): int { if x.kind == Learn then x.targetPages else 0 }
  function QuizOne(x: Session): int { if x.kind == Quiz then 1 else 0 }
  function ReviewOne(x: Session): int { if x.kind == Review then 1 else 0 }

  /** The days of the learn sessions, in list order. */
  function LearnDays(s: seq<Session>): seq<int> {
    if s == [] then []
    else LearnDays(s[..|s| - 1]) + (if s[|s| - 1].kind == Learn then [s[|s| - 1].date] else [])
  }

  lemma {:induction false} LearnDaysAppend(a: seq<Session>, b: seq<Session>)
    ensures LearnDays(a + b) == LearnDays(a) + LearnDays(b)
    decreases |b|
  {
    if b == [] {
      assert a + b == a;
    } else {
      LearnDaysAppend(a, b[..|b| - 1]);
      assert (a + b)[..|a + b| - 1] == a + b[..|b| - 1];
    }
  }

  /** `[a, a + 1, ..., a + n - 1]`. */
  predicate ConsecutiveFrom(days: seq<int>, a: int) {
    forall i :: 0 <= i < |days| ==> days[i] == a + i
  }

  /** What every scheduled session satisfies: it lies in `[sd, ed]`, it is
      not a quiz, a learn session covers between 1 and `ppd` pages, and a
      review, which only the spaced strategy makes, at least 1. */
  predicate Scheduled(x: Session, sd: int, ed: int, ppd: int, spaced: bool) {
    && sd <= x.date <= ed
    && x.kind != Quiz
    && (x.kind == Learn ==> 1 <= x.targetPages <= ppd)
    && (x.kind == Review ==> spaced && x.targetPages >= 1)
  }

  predicate AllScheduled(s: seq<Session>, sd: int, ed: int, ppd: int, spaced: bool) {
    forall i :: 0 <= i < |s| ==> Scheduled(s[i], sd, ed, ppd, spaced)
  }

  // ---------------------------------------------------------------------
  // The schedule

  /** Each review falls on the learn day plus one of the offsets, inside
      `[sd, ed]`, and covers `chunk // 3 or 1` pages. */
  lemma {:induction false} ReviewsShape(cur: int, chunk: int, offs: seq<int>, sd: int, ed: int, window: string)
    requires chunk >= 1
    ensures var r := Reviews(cur, chunk, offs, sd, ed, window);
      && |r| <= |offs|
      && forall i :: 0 <= i < |r| ==>
           r[i].kind == Review && sd <= r[i].date <= ed && r[i].date - cur in offs
           && r[i].targetPages == ReviewPages(chunk)
  {
    if offs != [] {
      var init := offs[..|offs| - 1];
      ReviewsShape(cur, chunk, init, sd, ed, window);
      var r0 := Reviews(cur, chunk, init, sd, ed, window);
      var r := Reviews(cur, chunk, offs, sd, ed, window);
      forall i | 0 <= i < |r|
        ensures r[i].kind == Review && sd <= r[i].date <= ed && r[i].date - cur in offs
          && r[i].targetPages == ReviewPages(chunk)
      {
        if i < |r0| {
          assert r[i] == r0[i];
          assert r0[i].date - cur in init;
        }
      }
    }
  }

  /** Reviews hold no learn session. */
  lemma ReviewsNoLearn(cur: int, chunk: int, offs: seq<int>, sd: int, ed: int, window: string)
    requires chunk >= 1
    ensures SumOf(Reviews(cur, chunk, offs, sd, ed, window), LearnPagesOf) == 0
    ensures LearnDays(Reviews(cur, chunk, offs, sd, ed, window)) == []
  {
    ReviewsShape(cur, chunk, offs, sd, ed, window);
    NoLearn(Reviews(cur, chunk, offs, sd, ed, window));
  }

  lemma {:induction false} NoLearn(s: seq<Session>)
    requires forall i :: 0 <= i < |s| ==> s[i].kind != Learn
    ensures SumOf(s, LearnPagesOf) == 0
    ensures LearnDays(s) == []
  {
    if s != [] {
      NoLearn(s[..|s| - 1]);
    }
  }

  /** The first day's learn session, alone. */
  lemma LearnSession(x: Session)
    requires x.kind == Learn
    ensures SumOf([x], LearnPagesOf) == x.targetPages
    ensures LearnDays([x]) == [x.date]
  {
    assert [x][..0] == [];
  }

  /** Every session the loop appends is scheduled: in the window, no quiz,
      learn chunks between 1 and `ppd` pages, reviews of at least 1 page and
      only with offsets. */
  lemma {:induction false} ScheduleInWindow(sd: int, ed: int, pages: int, ppd: int, window: string, offs: seq<int>, cur: int, handed: int)
    requires ppd >= 1 && sd <= cur
    ensures AllScheduled(Schedule(sd, ed, pages, ppd, window, offs, cur, handed), sd, ed, ppd, offs != [])
    decreases Max(0, pages - handed)
  {
    if cur <= ed && handed < pages {
      var chunk := Min(ppd, pages - handed);
      var learn := [Session(cur, window, LearnTopic, Learn, chunk)];
      var reviews := Reviews(cur, chunk, offs, sd, ed, window);
      var rest := Schedule(sd, ed, pages, ppd, window, offs, cur + 1, handed + chunk);
      ScheduleStep(sd, ed, pages, ppd, window, offs, cur, handed);
      ScheduleInWindow(sd, ed, pages, ppd, window, offs, cur + 1, handed + chunk);
      ReviewsShape(cur, chunk, offs, sd, ed, window);
      assert AllScheduled(learn, sd, ed, ppd, offs != []);
      assert AllScheduled(reviews, sd, ed, ppd, offs != []) by {
        if offs == [] { assert reviews == []; }
      }
      AllScheduledAppend(learn, reviews, sd, ed, ppd, offs != []);
      AllScheduledAppend(learn + reviews, rest, sd, ed, ppd, offs != []);
    }
  }

  lemma AllScheduledAppend(a: seq<Session>, b: seq<Session>, sd: int, ed: int, ppd: int, spaced: bool)
    requires AllScheduled(a, sd, ed, ppd, spaced) && AllScheduled(b, sd, ed, ppd, spaced)
    ensures AllScheduled(a + b, sd, ed, ppd, spaced)
  {
    forall i | 0 <= i < |a + b|
      ensures Scheduled((a + b)[i], sd, ed, ppd, spaced)
    {
      if i >= |a| {
        assert (a + b)[i] == b[i - |a|];
      }
    }
  }

  /** A learn day contributes its own day and chunk, and its reviews
      nothing, to the learn days and learn pages. */
  lemma ScheduleHead(sd: int, ed: int, pages: int, ppd: int, window: string, offs: seq<int>, cur: int, handed: int)
    requires ppd >= 1 && cur <= ed && handed < pages
    ensures var chunk := Min(ppd, pages - handed);
      var s := Schedule(sd, ed, pages, ppd, window, offs, cur, handed);
      var rest := Schedule(sd, ed, pages, ppd, window, offs, cur + 1, handed + chunk);
      && LearnDays(s) == [cur] + LearnDays(rest)
      && SumOf(s, LearnPagesOf) == chunk + SumOf(rest, LearnPagesOf)
  {
    var chunk := Min(ppd, pages - handed);
    var x := Session(cur, window, LearnTopic, Learn, chunk);
    var reviews := Reviews(cur, chunk, offs, sd, ed, window);
    var rest := Schedule(sd, ed, pages, ppd, window, offs, cur + 1, handed + chunk);
    ScheduleStep(sd, ed, pages, ppd, window, offs, cur, handed);
    ReviewsNoLearn(cur, chunk, offs, sd, ed, window);
    DayParts(x, reviews, rest);
  }

  /** A learn session, sessions without learning, then the rest. */
  lemma DayParts(x: Session, reviews: seq<Session>, rest: seq<Session>)
    requires x.kind == Learn
    requires SumOf(reviews, LearnPagesOf) == 0 && LearnDays(reviews) == []
    ensures LearnDays([x] + reviews + rest) == [x.date] + LearnDays(rest)
    ensures SumOf([x] + reviews + rest, LearnPagesOf) == x.targetPages + SumOf(rest, LearnPagesOf)
  {
    LearnDaysAppend([x] + reviews, rest);
    LearnDaysAppend([x], reviews);
    SumOfAppend([x] + reviews, rest, LearnPagesOf);
    SumOfAppend([x], reviews, LearnPagesOf);
    LearnSession(x);
  }

  /** The learn pages handed out from day `cur` on: everything left, or
      `ppd` a day for the days left, whichever is less. */
  lemma {:induction false} ScheduleLearnPages(sd: int, ed: int, pages: int, ppd: int, window: string, offs: seq<int>, cur: int, handed: int)
    requires ppd >= 1 && handed <= pages
    ensures SumOf(Schedule(sd, ed, pages, ppd, window, offs, cur, handed), LearnPagesOf)
      == Min(pages - handed, ppd * Max(0, ed - cur + 1))
    decreases Max(0, pages - handed)
  {
    if cur <= ed && handed < pages {
      var chunk := Min(ppd, pages - handed);
      ScheduleHead(sd, ed, pages, ppd, window, offs, cur, handed);
      ScheduleLearnPages(sd, ed, pages, ppd, window, offs, cur + 1, handed + chunk);
      LearnTotalStep(pages - handed, ppd, ed - cur + 1);
    } else if cur <= ed {
      assert handed == pages;
    }
  }

  /** The learn sessions fall on consecutive days from `cur`, never after
      `ed`. */
  lemma ScheduleLearnDays(sd: int, ed: int, pages: int, ppd: int, window: string, offs: seq<int>, cur: int, handed: int)
    requires ppd >= 1
    ensures var days := LearnDays(Schedule(sd, ed, pages, ppd, window, offs, cur, handed));
      ConsecutiveFrom(days, cur) && |days| <= Max(0, ed - cur + 1)
  {
    LearnDaysConsecutive(sd, ed, pages, ppd, window, offs, cur, handed);
    LearnDaysCount(sd, ed, pages, ppd, window, offs, cur, handed);
  }

  lemma {:induction false} LearnDaysConsecutive(sd: int, ed: int, pages: int, ppd: int, window: string, offs: seq<int>, cur: int, handed: int)
    requires ppd >= 1
    ensures ConsecutiveFrom(LearnDays(Schedule(sd, ed, pages, ppd, window, offs, cur, handed)), cur)
    decreases Max(0, pages - handed)
  {
    if cur <= ed && handed < pages {
      var chunk := Min(ppd, pages - handed);
      ScheduleHead(sd, ed, pages, ppd, window, offs, cur, handed);
      LearnDaysConsecutive(sd, ed, pages, ppd, window, offs, cur + 1, handed + chunk);
      ConsecutiveCons(cur, LearnDays(Schedule(sd, ed, pages, ppd, window, offs, cur + 1, handed + chunk)));
    } else {
      NoLearnDays(sd, ed, pages, ppd, window, offs, cur, handed);
    }
  }

  lemma {:induction false} LearnDaysCount(sd: int, ed: int, pages: int, ppd: int, window: string, offs: seq<int>, cur: int, handed: int)
    requires ppd >= 1
    ensures |LearnDays(Schedule(sd, ed, pages, ppd, window, offs, cur, handed))| <= Max(0, ed - cur + 1)
    decreases Max(0, pages - handed)
  {
    if cur <= ed && handed < pages {
      var chunk := Min(ppd, pages - handed);
      ScheduleHead(sd, ed, pages, ppd, window, offs, cur, handed);
      LearnDaysCount(sd, ed, pages, ppd, window, offs, cur + 1, handed + chunk);
    } else {
      NoLearnDays(sd, ed, pages, ppd, window, offs, cur, handed);
    }
  }

  lemma NoLearnDays(sd: int, ed: int, pages: int, ppd: int, window: string, offs: seq<int>, cur: int, handed: int)
    requires ppd >= 1 && !(cur <= ed && handed < pages)
    ensures LearnDays(Schedule(sd, ed, pages, ppd, window, offs, cur, handed)) == []
  {
  }

  lemma ConsecutiveCons(a: int, rest: seq<int>)
    requires ConsecutiveFrom(rest, a + 1)
    ensures ConsecutiveFrom([a] + rest, a)
  {
  }

  /** One learn day of `min(ppd, left)` pages, then the rest of the days. */
  lemma LearnTotalStep(left: int, ppd: int, days: int)
    requires left >= 1 && ppd >= 1 && days >= 1
    ensures Min(ppd, left) + Min(left - Min(ppd, left), ppd * Max(0, days - 1)) == Min(left, ppd * Max(0, days))
  {
    assert ppd * days == ppd + ppd * (days - 1);
    MulMono(ppd, days);
    if days > 1 {
      MulMono(ppd, days - 1);
    }
  }

  /** No quiz among scheduled sessions, and no review without offsets. */
  lemma {:induction false} ScheduledCounts(s: seq<Session>, sd: int, ed: int, ppd: int, spaced: bool)
    requires AllScheduled(s, sd, ed, ppd, spaced)
    ensures SumOf(s, QuizOne) == 0
    ensures !spaced ==> SumOf(s, ReviewOne) == 0
  {
    if s != [] {
      assert Scheduled(s[|s| - 1], sd, ed, ppd, spaced);
      ScheduledCounts(s[..|s| - 1], sd, ed, ppd, spaced);
    }
  }

  /** The sessions before sorting: all in `[sd, ed]`; the learn sessions on
      consecutive days from `sd`, covering `min(pages, ppd * days)` pages;
      reviews only with offsets; exactly one quiz when the window has a day,
      and no session at all when it has none. */
  lemma UnsortedShape(sd: int, ed: int, pages: int, ppd: int, window: string, offs: seq<int>)
    requires ppd >= 1 && pages >= 1
    ensures var u := Unsorted(sd, ed, pages, ppd, window, offs);
      && (forall i :: 0 <= i < |u| ==> sd <= u[i].date <= ed)
      && SumOf(u, LearnPagesOf) == Min(pages, ppd * Max(0, ed - sd + 1))
      && ConsecutiveFrom(LearnDays(u), sd)
      && (offs == [] ==> SumOf(u, ReviewOne) == 0)
      && SumOf(u, QuizOne) == (if sd <= ed then 1 else 0)
      && (ed < sd ==> u == [])
  {
    var s := Schedule(sd, ed, pages, ppd, window, offs, sd, 0);
    ScheduleInWindow(sd, ed, pages, ppd, window, offs, sd, 0);
    ScheduleLearnPages(sd, ed, pages, ppd, window, offs, sd, 0);
    ScheduleLearnDays(sd, ed, pages, ppd, window, offs, sd, 0);
    ScheduledCounts(s, sd, ed, ppd, offs != []);
    if sd <= ed {
      QuizAppended(s, sd, ed, ppd, offs != [], window);
    }
  }

  /** Appending the quiz to a non-empty schedule. */
  lemma QuizAppended(s: seq<Session>, sd: int, ed: int, ppd: int, spaced: bool, window: string)
    requires sd <= ed && AllScheduled(s, sd, ed, ppd, spaced)
    ensures var q := Session(sd + QuizOffset(ed - sd + 1), window, QuizTopic, Quiz, 0);
      && (forall i :: 0 <= i < |s + [q]| ==> sd <= (s + [q])[i].date <= ed)
      && SumOf(s + [q], LearnPagesOf) == SumOf(s, LearnPagesOf)
      && SumOf(s + [q], ReviewOne) == SumOf(s, ReviewOne)
      && SumOf(s + [q], QuizOne) == SumOf(s, QuizOne) + 1
      && LearnDays(s + [q]) == LearnDays(s)
  {
    var q := Session(sd + QuizOffset(ed - sd + 1), window, QuizTopic, Quiz, 0);
    assert (s + [q])[..|s|] == s;
    forall i | 0 <= i < |s + [q]|
      ensures sd <= (s + [q])[i].date <= ed
    {
      if i < |s| {
        assert (s + [q])[i] == s[i];
        assert Scheduled(s[i], sd, ed, ppd, spaced);
      }
    }
  }

  // ---------------------------------------------------------------------
  // The stable sort

  predicate SortedByDate(s: seq<Session>) {
    forall i, j :: 0 <= i < j < |s| ==> s[i].date <= s[j].date
  }

  predicate NotAfter(s: seq<Session>, d: int) {
    forall i :: 0 <= i < |s| ==> s[i].date <= d
  }

  /** The sessions on day `d`, in list order. */
  function OnDay(s: seq<Session>, d: int): seq<Session> {
    if s == [] then []
    else OnDay(s[..|s| - 1], d) + (if s[|s| - 1].date == d then [s[|s| - 1]] else [])
  }

  /** Inserting goes back past the later sessions only. */
  lemma InsertStep(x: Session, s: seq<Session>)
    requires s != [] && x.date < s[|s| - 1].date
    ensures InsertByDate(x, s) == InsertByDate(x, s[..|s| - 1]) + [s[|s| - 1]]
  {
  }

  lemma Snoc(s: seq<Session>, y: Session)
    ensures (s + [y])[..|s|] == s && (s + [y])[|s|] == y
  {
  }

  lemma MultisetSnoc(s: seq<Session>)
    requires s != []
    ensures multiset(s) == multiset(s[..|s| - 1]) + multiset{s[|s| - 1]}
  {
    assert s == s[..|s| - 1] + [s[|s| - 1]];
  }

  lemma {:induction false} InsertMultiset(x: Session, s: seq<Session>)
    ensures multiset(InsertByDate(x, s)) == multiset(s) + multiset{x}
  {
    if s != [] && x.date < s[|s| - 1].date {
      var t := InsertByDate(x, s[..|s| - 1]);
      InsertMultiset(x, s[..|s| - 1]);
      InsertStep(x, s);
      MultisetSnoc(s);
      MultisetSnoc(t + [s[|s| - 1]]);
      Snoc(t, s[|s| - 1]);
    }
  }

  lemma {:induction false} InsertSum(x: Session, s: seq<Session>, f: Session -> int)
    ensures SumOf(InsertByDate(x, s), f) == SumOf(s, f) + f(x)
  {
    if s == [] {
      assert [x][..0] == [];
    } else if x.date < s[|s| - 1].date {
      var t := InsertByDate(x, s[..|s| - 1]);
      InsertSum(x, s[..|s| - 1], f);
      InsertStep(x, s);
      Snoc(t, s[|s| - 1]);
    } else {
      Snoc(s, x);
    }
  }

  lemma {:induction false} InsertOnDay(x: Session, s: seq<Session>, d: int)
    ensures OnDay(InsertByDate(x, s), d) == OnDay(s, d) + (if x.date == d then [x] else [])
  {
    if s == [] {
      assert [x][..0] == [];
    } else if x.date < s[|s| - 1].date {
      var t := InsertByDate(x, s[..|s| - 1]);
      InsertOnDay(x, s[..|s| - 1], d);
      InsertStep(x, s);
      Snoc(t, s[|s| - 1]);
    } else {
      Snoc(s, x);
    }
  }

  lemma {:induction false} InsertNotAfter(x: Session, s: seq<Session>, d: int)
    requires NotAfter(s, d) && x.date <= d
    ensures NotAfter(InsertByDate(x, s), d)
  {
    if s != [] && x.date < s[|s| - 1].date {
      var init := s[..|s| - 1];
      assert NotAfter(init, d) by {
        forall i | 0 <= i < |init| ensures init[i].date <= d { assert init[i] == s[i]; }
      }
      InsertNotAfter(x, init, d);
      InsertStep(x, s);
    }
  }

  lemma {:induction false} InsertSorted(x: Session, s: seq<Session>)
    requires SortedByDate(s)
    ensures SortedByDate(InsertByDate(x, s))
  {
    if s != [] {
      var init, last := s[..|s| - 1], s[|s| - 1];
      if last.date <= x.date {
        var r := s + [x];
        forall i, j | 0 <= i < j < |r|
          ensures r[i].date <= r[j].date
        {
          if j == |s| {
            assert s[i].date <= last.date;
          }
        }
      } else {
        assert SortedByDate(init);
        InsertSorted(x, init);
        assert NotAfter(init, last.date);
        InsertNotAfter(x, init, last.date);
        InsertStep(x, s);
        var t := InsertByDate(x, init);
        var r := t + [last];
        forall i, j | 0 <= i < j < |r|
          ensures r[i].date <= r[j].date
        {
          assert r[i] == t[i];
          if j < |t| {
            assert r[j] == t[j];
          }
        }
      }
    }
  }

  /** `sessions.sort(key=date)` orders by date. */
  lemma {:induction false} SortSorted(s: seq<Session>)
    ensures SortedByDate(SortByDate(s))
  {
    if s != [] {
      SortSorted(s[..|s| - 1]);
      InsertSorted(s[|s| - 1], SortByDate(s[..|s| - 1]));
    }
  }

  /** The sort keeps every session: a permutation. */
  lemma {:induction false} SortPermutes(s: seq<Session>)
    ensures multiset(SortByDate(s)) == multiset(s)
  {
    if s != [] {
      var init, last := s[..|s| - 1], s[|s| - 1];
      SortPermutes(init);
      InsertMultiset(last, SortByDate(init));
      MultisetSnoc(s);
    }
  }

  /** A sum over the sessions is the same after sorting. */
  lemma {:induction false} SortSum(s: seq<Session>, f: Session -> int)
    ensures SumOf(SortByDate(s), f) == SumOf(s, f)
  {
    if s != [] {
      SortSum(s[..|s| - 1], f);
      InsertSum(s[|s| - 1], SortByDate(s[..|s| - 1]), f);
    }
  }

  /** The sort is stable: the sessions of each day keep their order. */
  lemma {:induction false} SortStable(s: seq<Session>, d: int)
    ensures OnDay(SortByDate(s), d) == OnDay(s, d)
  {
    if s != [] {
      SortStable(s[..|s| - 1], d);
      InsertOnDay(s[|s| - 1], SortByDate(s[..|s| - 1]), d);
    }
  }

  // ---------------------------------------------------------------------
  // The plan

  /** What `build_plan` promises: the page estimate; sessions sorted by
      date, all inside `[start, end]`; learn pages totalling
      `min(pages, pages_per_day * days)`; one quiz exactly when the window
      has a day; no session at all when the end is before the start; no
      review unless the strategy is `"1-3-7"`. */
  lemma PlanShape(doc: Doc, profile: Profile, sd: int, ed: int, strategy: string)
    ensures var plan := PlanOf(doc, profile, sd, ed, strategy);
      var ppd := PagesPerDay(EstimatePages(doc), Difficulty(doc), ed - sd + 1);
      && plan.pages == EstimatePages(doc)
      && SortedByDate(plan.sessions)
      && (forall i :: 0 <= i < |plan.sessions| ==> sd <= plan.sessions[i].date <= ed)
      && SumOf(plan.sessions, LearnPagesOf) == Min(plan.pages, ppd * Max(0, ed - sd + 1))
      && SumOf(plan.sessions, QuizOne) == (if sd <= ed then 1 else 0)
      && (strategy != SpacedStrategy ==> SumOf(plan.sessions, ReviewOne) == 0)
      && (ed < sd ==> plan.sessions == [])
  {
    var pages := EstimatePages(doc);
    var ppd := PagesPerDay(pages, Difficulty(doc), ed - sd + 1);
    var u := Unsorted(sd, ed, pages, ppd, Window(profile), Offsets(strategy));
    UnsortedShape(sd, ed, pages, ppd, Window(profile), Offsets(strategy));
    SortedWindow(u, sd, ed);
    SortSum(u, LearnPagesOf);
    SortSum(u, QuizOne);
    SortSum(u, ReviewOne);
  }

  /** Sorting keeps the sessions inside the window, and sorts them. */
  lemma SortedWindow(u: seq<Session>, sd: int, ed: int)
    requires forall i :: 0 <= i < |u| ==> sd <= u[i].date <= ed
    ensures SortedByDate(SortByDate(u))
    ensures forall i :: 0 <= i < |SortByDate(u)| ==> sd <= SortByDate(u)[i].date <= ed
    ensures u == [] ==> SortByDate(u) == []
  {
    SortSorted(u);
    SortPermutes(u);
    var r := SortByDate(u);
    forall i | 0 <= i < |r|
      ensures sd <= r[i].date <= ed
    {
      assert r[i] in multiset(u);
    }
  }
}
