/** The dashboard and by-date queries. The store's queries become filters
    over a sequence of records: a record belongs to a day when its date is
    that day number. */
module Dashboard {
  import opened Wrappers
  import opened JsNumbers
  import opened Workouts

  datatype DashboardError = MissingUserId | UserNotFound

  /** The HTTP status each failure is reported with. */
  function Status(e: DashboardError): (code: nat)
    ensures 400 <= code < 500
  {
    match e
    case MissingUserId => 400
    case UserNotFound => 404
  }

  /** The records of `user` dated `day`, in store order (the match stage). */
  function OnDay(records: seq<WorkoutRecord>, user: UserId, day: Day): (ws: seq<WorkoutRecord>)
    ensures |ws| <= |records|
    ensures forall w :: w in ws <==> w in records && w.user == user && w.date == day
    decreases |records|
  {
    if records == [] then []
    else
      var last := records[|records| - 1];
      assert records == records[..|records| - 1] + [last];
      OnDay(records[..|records| - 1], user, day) + (if last.user == user && last.date == day then [last] else [])
  }

  /** The day filter keeps every matching record as often as the store holds
      it, and no other: so its length is the count `countDocuments` reports. */
  lemma {:induction false} OnDayCounts(records: seq<WorkoutRecord>, user: UserId, day: Day)
    ensures forall w :: multiset(OnDay(records, user, day))[w]
                     == if w.user == user && w.date == day then multiset(records)[w] else 0
    decreases |records|
  {
    if records != [] {
      var last := records[|records| - 1];
      var front := records[..|records| - 1];
      assert records == front + [last];
      assert multiset(records) == multiset(front) + multiset{last};
      var kept := if last.user == user && last.date == day then [last] else [];
      OnDayCounts(front, user, day);
      assert OnDay(records, user, day) == OnDay(front, user, day) + kept;
      assert multiset(OnDay(records, user, day)) == multiset(OnDay(front, user, day)) + multiset(kept);
    }
  }

  /** The `$sum` of `caloriesBurned` over some records. */
  function TotalCalories(ws: seq<WorkoutRecord>): real
    decreases |ws|
  {
    if ws == [] then 0.0 else TotalCalories(ws[..|ws| - 1]) + ws[|ws| - 1].caloriesBurned
  }

  /** The reduce of `getWorkoutByDate`: a left fold from `total`. */
  function Reduce(total: real, ws: seq<WorkoutRecord>): real
    decreases |ws|
  {
    if ws == [] then total else Reduce(total + ws[0].caloriesBurned, ws[1..])
  }

  lemma {:induction false} TotalAppend(a: seq<WorkoutRecord>, b: seq<WorkoutRecord>)
    ensures TotalCalories(a + b) == TotalCalories(a) + TotalCalories(b)
    decreases |b|
  {
    if b == [] {
      assert a + b == a;
    } else {
      var b' := b[..|b| - 1];
      assert (a + b)[..|a + b| - 1] == a + b';
      TotalAppend(a, b');
    }
  }

  /** The left fold computes the same total as the store's `$sum`. */
  lemma {:induction false} ReduceIsTotal(total: real, ws: seq<WorkoutRecord>)
    ensures Reduce(total, ws) == total + TotalCalories(ws)
    decreases |ws|
  {
    if ws != [] {
      ReduceIsTotal(total + ws[0].caloriesBurned, ws[1..]);
      assert ws == [ws[0]] + ws[1..];
      TotalAppend([ws[0]], ws[1..]);
      assert [ws[0]][..0] == [];
    }
  }

  /** With no negative estimate, no total is negative. */
  lemma {:induction false} TotalNonNegative(ws: seq<WorkoutRecord>)
    requires forall k :: 0 <= k < |ws| ==> ws[k].caloriesBurned >= 0.0
    ensures TotalCalories(ws) >= 0.0
    decreases |ws|
  {
    if ws != [] {
      TotalNonNegative(ws[..|ws| - 1]);
    }
  }

  /** The result of a `$group` on `_id: null`: no document when no record
      matched, else one document holding the sum. */
  function DayAggregate(records: seq<WorkoutRecord>, user: UserId, day: Day): (g: seq<real>)
    ensures |g| <= 1
    ensures g == [] <==> OnDay(records, user, day) == []
    ensures g != [] ==> g[0] == TotalCalories(OnDay(records, user, day))
  {
    var ws := OnDay(records, user, day);
    if ws == [] then [] else [TotalCalories(ws)]
  }

  /** A day's total as the response reports it: the sum, or 0 for no document. */
  function DayTotal(records: seq<WorkoutRecord>, user: UserId, day: Day): real {
    var g := DayAggregate(records, user, day);
    if |g| > 0 then g[0] else 0.0
  }

  /** The reported day total is the sum over the day's records, 0 for an
      empty day, and the by-date fold gives the same number. */
  lemma DayTotalIsSum(records: seq<WorkoutRecord>, user: UserId, day: Day)
    ensures DayTotal(records, user, day) == TotalCalories(OnDay(records, user, day))
    ensures DayTotal(records, user, day) == Reduce(0.0, OnDay(records, user, day))
    ensures OnDay(records, user, day) == [] ==> DayTotal(records, user, day) == 0.0
  {
    ReduceIsTotal(0.0, OnDay(records, user, day));
  }

  /** The mean estimate per workout, 0 when there is no workout. */
  function Average(total: real, count: nat): (avg: real)
    ensures count > 0 ==> avg * count as real == total
    ensures count == 0 ==> avg == 0.0
  {
    if count > 0 then total / count as real else 0.0
  }

  /** Every workout's estimate of a day bounds the average from above and below. */
  lemma {:induction false} TotalBounds(ws: seq<WorkoutRecord>, lo: real, hi: real)
    requires forall k :: 0 <= k < |ws| ==> lo <= ws[k].caloriesBurned <= hi
    ensures lo * |ws| as real <= TotalCalories(ws) <= hi * |ws| as real
    decreases |ws|
  {
    if ws != [] {
      TotalBounds(ws[..|ws| - 1], lo, hi);
    }
  }

  lemma QuotientBounds(avg: real, n: real, total: real, lo: real, hi: real)
    requires n > 0.0 && avg * n == total && lo * n <= total <= hi * n
    ensures lo <= avg <= hi
  {
  }

  /** The average lies between the least and the greatest estimate of the day. */
  lemma AverageBounds(ws: seq<WorkoutRecord>, lo: real, hi: real)
    requires ws != []
    requires forall k :: 0 <= k < |ws| ==> lo <= ws[k].caloriesBurned <= hi
    ensures lo <= Average(TotalCalories(ws), |ws|) <= hi
  {
    var total, n := TotalCalories(ws), |ws|;
    TotalBounds(ws, lo, hi);
    assert lo * n as real <= total <= hi * n as real;
    var avg := Average(total, n);
    assert avg * n as real == total;
    QuotientBounds(avg, n as real, total, lo, hi);
  }

  // ---- group by category ----

  predicate Distinct(cs: seq<string>) {
    forall i, j :: 0 <= i < j < |cs| ==> cs[i] != cs[j]
  }

  ghost predicate HasCategory(ws: seq<WorkoutRecord>, c: string) {
    exists w :: w in ws && w.category == c
  }

  /** The categories of some records, each once, in the order first seen. */
  function Categories(ws: seq<WorkoutRecord>): (cs: seq<string>)
    ensures Distinct(cs)
    ensures forall c :: c in cs <==> HasCategory(ws, c)
    decreases |ws|
  {
    if ws == [] then []
    else
      var last := ws[|ws| - 1];
      var cs := Categories(ws[..|ws| - 1]);
      assert ws == ws[..|ws| - 1] + [last];
      assert forall c :: HasCategory(ws, c) <==> HasCategory(ws[..|ws| - 1], c) || c == last.category;
      if last.category in cs then cs else cs + [last.category]
  }

  /** The records of one category, in store order. */
  function OfCategory(ws: seq<WorkoutRecord>, c: string): (rs: seq<WorkoutRecord>)
    ensures forall w :: w in rs <==> w in ws && w.category == c
    decreases |ws|
  {
    if ws == [] then []
    else
      var last := ws[|ws| - 1];
      assert ws == ws[..|ws| - 1] + [last];
      OfCategory(ws[..|ws| - 1], c) + (if last.category == c then [last] else [])
  }

  /** The `$sum` of one category's group. */
  function CategoryTotal(ws: seq<WorkoutRecord>, c: string): real {
    TotalCalories(OfCategory(ws, c))
  }

  datatype Group = Group(category: string, totalCaloriesBurnt: real)

  /** One group per category in `cats`. */
  function GroupsFor(cats: seq<string>, ws: seq<WorkoutRecord>): (gs: seq<Group>)
    ensures |gs| == |cats|
    ensures forall k :: 0 <= k < |cats| ==> gs[k] == Group(cats[k], CategoryTotal(ws, cats[k]))
    decreases |cats|
  {
    if cats == [] then []
    else
      var c := cats[|cats| - 1];
      GroupsFor(cats[..|cats| - 1], ws) + [Group(c, CategoryTotal(ws, c))]
  }

  /** The result of the `$group` on `"$category"` (its order is the store's;
      the model takes the order first seen). */
  function CategoryGroups(ws: seq<WorkoutRecord>): seq<Group> {
    GroupsFor(Categories(ws), ws)
  }

  function GroupSum(gs: seq<Group>): real
    decreases |gs|
  {
    if gs == [] then 0.0 else GroupSum(gs[..|gs| - 1]) + gs[|gs| - 1].totalCaloriesBurnt
  }

  lemma {:induction false} CategoryTotalSnoc(p: seq<WorkoutRecord>, x: WorkoutRecord, c: string)
    ensures CategoryTotal(p + [x], c) == CategoryTotal(p, c) + (if x.category == c then x.caloriesBurned else 0.0)
  {
    var ws := p + [x];
    assert ws[..|ws| - 1] == p;
    var q := OfCategory(p, c);
    if x.category == c {
      assert OfCategory(ws, c) == q + [x];
      assert (q + [x])[..|q|] == q;
    } else {
      assert OfCategory(ws, c) == q;
    }
  }

  lemma {:induction false} GroupsOfEmpty(cats: seq<string>)
    ensures GroupSum(GroupsFor(cats, [])) == 0.0
    decreases |cats|
  {
    if cats != [] {
      var gs := GroupsFor(cats, []);
      assert gs[..|gs| - 1] == GroupsFor(cats[..|cats| - 1], []);
      GroupsOfEmpty(cats[..|cats| - 1]);
    }
  }

  lemma GroupsForSnoc(q: seq<string>, c: string, ws: seq<WorkoutRecord>)
    ensures GroupSum(GroupsFor(q + [c], ws)) == GroupSum(GroupsFor(q, ws)) + CategoryTotal(ws, c)
  {
    var cats := q + [c];
    assert cats[..|cats| - 1] == q;
    var gs := GroupsFor(cats, ws);
    assert gs[..|gs| - 1] == GroupsFor(q, ws);
  }

  lemma DistinctSnoc(q: seq<string>, c: string)
    requires Distinct(q + [c])
    ensures Distinct(q) && c !in q
  {
    var cats := q + [c];
    forall i, j | 0 <= i < j < |q| ensures q[i] != q[j] {
      assert cats[i] == q[i] && cats[j] == q[j];
    }
    forall i | 0 <= i < |q| ensures q[i] != c {
      assert cats[i] == q[i] && cats[|q|] == c;
    }
  }

  /** One more record adds its estimate to exactly the group of its category. */
  lemma {:induction false} GroupsSnoc(cats: seq<string>, p: seq<WorkoutRecord>, x: WorkoutRecord)
    requires Distinct(cats)
    ensures GroupSum(GroupsFor(cats, p + [x]))
         == GroupSum(GroupsFor(cats, p)) + (if x.category in cats then x.caloriesBurned else 0.0)
    decreases |cats|
  {
    if cats != [] {
      var q := cats[..|cats| - 1];
      var c := cats[|cats| - 1];
      assert cats == q + [c];
      DistinctSnoc(q, c);
      GroupsForSnoc(q, c, p + [x]);
      GroupsForSnoc(q, c, p);
      GroupsSnoc(q, p, x);
      CategoryTotalSnoc(p, x, c);
      assert x.category in cats <==> x.category in q || x.category == c;
    }
  }

  /** Groups over distinct categories covering every record account for the
      whole total. */
  lemma {:induction false} GroupsCover(cats: seq<string>, ws: seq<WorkoutRecord>)
    requires Distinct(cats)
    requires forall c :: HasCategory(ws, c) ==> c in cats
    ensures GroupSum(GroupsFor(cats, ws)) == TotalCalories(ws)
    decreases |ws|
  {
    if ws == [] {
      GroupsOfEmpty(cats);
    } else {
      var p, x := ws[..|ws| - 1], ws[|ws| - 1];
      assert ws == p + [x];
      assert x in ws;
      forall c | HasCategory(p, c) ensures c in cats {
        var w :| w in p && w.category == c;
        assert w in ws;
      }
      GroupsCover(cats, p);
      GroupsSnoc(cats, p, x);
    }
  }

  /** The category groups partition the day: they sum to its total. */
  lemma CategoryGroupsSum(ws: seq<WorkoutRecord>)
    ensures GroupSum(CategoryGroups(ws)) == TotalCalories(ws)
  {
    GroupsCover(Categories(ws), ws);
  }

  /** A pie slice `{ id, value, label }` (`label` is a keyword here). */
  datatype Slice = Slice(id: nat, value: real, sliceLabel: string)

  /** The pie chart: one slice per group, numbered by position. */
  function PieChart(gs: seq<Group>): (pie: seq<Slice>)
    ensures |pie| == |gs|
  {
    seq(|gs|, k requires 0 <= k < |gs| => Slice(k, gs[k].totalCaloriesBurnt, gs[k].category))
  }

  function PieTotal(pie: seq<Slice>): real
    decreases |pie|
  {
    if pie == [] then 0.0 else PieTotal(pie[..|pie| - 1]) + pie[|pie| - 1].value
  }

  lemma {:induction false} PieTotalIsGroupSum(gs: seq<Group>)
    ensures PieTotal(PieChart(gs)) == GroupSum(gs)
    decreases |gs|
  {
    if gs != [] {
      var pie := PieChart(gs);
      var q := gs[..|gs| - 1];
      assert pie[..|pie| - 1] == PieChart(q);
      PieTotalIsGroupSum(q);
    }
  }

  /** Slice k of a day's pie chart is numbered k and carries the k-th
      category present and that category's sum. */
  lemma PieSlices(ws: seq<WorkoutRecord>)
    ensures var pie := PieChart(CategoryGroups(ws));
            |pie| == |Categories(ws)| &&
            forall k :: 0 <= k < |pie| ==>
              pie[k] == Slice(k, CategoryTotal(ws, Categories(ws)[k]), Categories(ws)[k])
  {
  }

  lemma PieValues(ws: seq<WorkoutRecord>)
    ensures var pie := PieChart(CategoryGroups(ws));
            forall k :: 0 <= k < |pie| ==> pie[k].id == k && pie[k].value == CategoryTotal(ws, pie[k].sliceLabel)
  {
    PieSlices(ws);
  }

  lemma PieLabelsDistinct(ws: seq<WorkoutRecord>)
    ensures var pie := PieChart(CategoryGroups(ws));
            forall i, j :: 0 <= i < j < |pie| ==> pie[i].sliceLabel != pie[j].sliceLabel
  {
    PieSlices(ws);
    assert Distinct(Categories(ws));
  }

  lemma PieLabelsCover(ws: seq<WorkoutRecord>)
    ensures var pie := PieChart(CategoryGroups(ws));
            forall c :: HasCategory(ws, c) <==> exists k :: 0 <= k < |pie| && pie[k].sliceLabel == c
  {
    var cats := Categories(ws);
    var pie := PieChart(CategoryGroups(ws));
    PieSlices(ws);
    forall c | HasCategory(ws, c) ensures exists k :: 0 <= k < |pie| && pie[k].sliceLabel == c {
      var k :| 0 <= k < |cats| && cats[k] == c;
      assert pie[k].sliceLabel == c;
    }
  }

  lemma PieTotalOfDay(ws: seq<WorkoutRecord>)
    ensures PieTotal(PieChart(CategoryGroups(ws))) == TotalCalories(ws)
  {
    CategoryGroupsSum(ws);
    PieTotalIsGroupSum(CategoryGroups(ws));
  }

  /** The pie chart of a day: slices numbered 0, 1, …; one slice per category
      present and no other label; each slice's value is its category's sum;
      and the values add up to the day's total. */
  lemma PieChartOfDay(ws: seq<WorkoutRecord>)
    ensures var pie := PieChart(CategoryGroups(ws));
            && (forall k :: 0 <= k < |pie| ==> pie[k].id == k && pie[k].value == CategoryTotal(ws, pie[k].sliceLabel))
            && (forall i, j :: 0 <= i < j < |pie| ==> pie[i].sliceLabel != pie[j].sliceLabel)
            && (forall c :: HasCategory(ws, c) <==> exists k :: 0 <= k < |pie| && pie[k].sliceLabel == c)
            && PieTotal(pie) == TotalCalories(ws)
  {
    PieValues(ws);
    PieLabelsDistinct(ws);
    PieLabelsCover(ws);
    PieTotalOfDay(ws);
  }

  // ---- weekly trend ----

  /** The trend label of a day of the month: the number followed by "th". */
  function DayLabel(dayOfMonth: nat): string {
    NatToString(dayOfMonth) + "th"
  }

  /** parseInt reads a day label back to its day of the month, so distinct
      days of the month get distinct labels. */
  lemma DayLabelReadsBack(n: nat)
    ensures ParseInt(DayLabel(n)) == Some(n)
  {
    ParseIntPrefix(n, "th");
  }

  lemma DayLabelInjective(m: nat, n: nat)
    requires DayLabel(m) == DayLabel(n)
    ensures m == n
  {
    DayLabelReadsBack(m);
    DayLabelReadsBack(n);
  }

  /** The trend loop: the labels and one aggregate per day, oldest (six days
      ago) first, then the totals read off the aggregates in that order. */
  method WeeklyTrend(records: seq<WorkoutRecord>, user: UserId, today: Day, dayOfMonth: Day -> nat)
    returns (weeks: seq<string>, caloriesBurnt: seq<real>)
    ensures |weeks| == 7 && |caloriesBurnt| == 7
    ensures forall k :: 0 <= k < 7 ==> weeks[k] == DayLabel(dayOfMonth(today - 6 + k))
    ensures forall k :: 0 <= k < 7 ==> caloriesBurnt[k] == TotalCalories(OnDay(records, user, today - 6 + k))
  {
    var daysData;
    weeks, daysData := WeekDays(today, dayOfMonth);
    var weekData := AwaitAll(records, user, daysData);
    caloriesBurnt := DayTotals(weekData);
    ReportedTotals(records, user, today, daysData, weekData, caloriesBurnt);
  }

  /** The totals read off the awaited queries of the week are the sums of the
      records of its days. */
  lemma ReportedTotals(records: seq<WorkoutRecord>, user: UserId, today: Day, daysData: seq<Day>,
                       weekData: seq<seq<real>>, caloriesBurnt: seq<real>)
    requires |daysData| == 7 && forall k :: 0 <= k < 7 ==> daysData[k] == today - 6 + k
    requires weekData == AwaitAll(records, user, daysData) && |caloriesBurnt| == 7
    requires forall k :: 0 <= k < 7 ==> caloriesBurnt[k] == (if |weekData[k]| > 0 then weekData[k][0] else 0.0)
    ensures forall k :: 0 <= k < 7 ==> caloriesBurnt[k] == TotalCalories(OnDay(records, user, today - 6 + k))
  {
    forall k | 0 <= k < 7
      ensures caloriesBurnt[k] == TotalCalories(OnDay(records, user, today - 6 + k))
    {
      var day := today - 6 + k;
      assert daysData[k] == day;
      assert weekData[k] == DayAggregate(records, user, day);
      ReportedDay(records, user, day, weekData[k], caloriesBurnt[k]);
    }
  }

  lemma ReportedDay(records: seq<WorkoutRecord>, user: UserId, day: Day, g: seq<real>, c: real)
    requires g == DayAggregate(records, user, day) && c == (if |g| > 0 then g[0] else 0.0)
    ensures c == TotalCalories(OnDay(records, user, day))
  {
    DayTotalIsSum(records, user, day);
  }

  /** The `for` loop from six days ago to today: the label of each day and
      the aggregate query issued for it, oldest first. A query is pending
      until `Promise.all`; it is represented by the day it asks about. */
  method WeekDays(today: Day, dayOfMonth: Day -> nat) returns (weeks: seq<string>, daysData: seq<Day>)
    ensures |weeks| == 7 && |daysData| == 7
    ensures forall k :: 0 <= k < 7 ==> weeks[k] == DayLabel(dayOfMonth(today - 6 + k))
    ensures forall k :: 0 <= k < 7 ==> daysData[k] == today - 6 + k
  {
    weeks := [];
    daysData := [];
    var i := 6;
    while i >= 0
      invariant -1 <= i <= 6
      invariant |weeks| == |daysData| == 6 - i
      invariant forall k :: 0 <= k < |weeks| ==> weeks[k] == DayLabel(dayOfMonth(today - 6 + k))
      invariant forall k :: 0 <= k < |daysData| ==> daysData[k] == today - 6 + k
    {
      var date := today - i;
      weeks := weeks + [DayLabel(dayOfMonth(date))];
      daysData := daysData + [date];
      i := i - 1;
    }
  }

  /** `Promise.all` over the pending queries: the result of each, in order. */
  function AwaitAll(records: seq<WorkoutRecord>, user: UserId, days: seq<Day>): (weekData: seq<seq<real>>)
    ensures |weekData| == |days|
    ensures forall k :: 0 <= k < |days| ==> weekData[k] == DayAggregate(records, user, days[k])
  {
    seq(|days|, k requires 0 <= k < |days| => DayAggregate(records, user, days[k]))
  }

  /** The `forEach` over the awaited aggregates: each day's sum, or 0 for a
      day with no document. */
  method DayTotals(weekData: seq<seq<real>>) returns (caloriesBurnt: seq<real>)
    ensures |caloriesBurnt| == |weekData|
    ensures forall k :: 0 <= k < |weekData| ==>
              caloriesBurnt[k] == (if |weekData[k]| > 0 then weekData[k][0] else 0.0)
  {
    caloriesBurnt := [];
    var index := 0;
    while index < |weekData|
      invariant 0 <= index <= |weekData|
      invariant |caloriesBurnt| == index
      invariant forall k :: 0 <= k < index ==>
                  caloriesBurnt[k] == (if |weekData[k]| > 0 then weekData[k][0] else 0.0)
    {
      var data := weekData[index];
      caloriesBurnt := caloriesBurnt + [if |data| > 0 then data[0] else 0.0];
      index := index + 1;
    }
  }

  datatype WeekTrend = WeekTrend(weeks: seq<string>, caloriesBurned: seq<real>)

  datatype DashboardData = DashboardData(
    totalCaloriesBurnt: real,
    totalWorkouts: nat,
    avgCaloriesBurntPerWorkout: real,
    totalWeeksCaloriesBurnt: WeekTrend,
    pieChartData: seq<Slice>)

  /** The dashboard of `userId` on `today`. `users` are the ids the store
      knows; `dayOfMonth` is the calendar. */
  method UserDashboard(userId: Option<UserId>, users: set<UserId>, records: seq<WorkoutRecord>,
                       today: Day, dayOfMonth: Day -> nat)
    returns (r: Result<DashboardData, DashboardError>)
    ensures userId.None? ==> r == Err(MissingUserId)
    ensures userId.Some? && userId.value !in users ==> r == Err(UserNotFound)
    ensures userId.Some? && userId.value in users ==> r.Ok?
    ensures r.Ok? ==>
      var ws := OnDay(records, userId.value, today);
      && r.value.totalCaloriesBurnt == TotalCalories(ws)
      && r.value.totalWorkouts == |ws|
      && r.value.avgCaloriesBurntPerWorkout == Average(TotalCalories(ws), |ws|)
      && r.value.pieChartData == PieChart(CategoryGroups(ws))
      && |r.value.totalWeeksCaloriesBurnt.weeks| == 7
      && |r.value.totalWeeksCaloriesBurnt.caloriesBurned| == 7
      && r.value.totalWeeksCaloriesBurnt.caloriesBurned[6] == r.value.totalCaloriesBurnt
      && (forall k :: 0 <= k < 7 ==>
            r.value.totalWeeksCaloriesBurnt.weeks[k] == DayLabel(dayOfMonth(today - 6 + k))
            && r.value.totalWeeksCaloriesBurnt.caloriesBurned[k] == TotalCalories(OnDay(records, userId.value, today - 6 + k)))
  {
    if userId.None? {
      return Err(MissingUserId);
    }
    var user := userId.value;
    if user !in users {
      return Err(UserNotFound);
    }
    var totalCaloriesBurnt := DayAggregate(records, user, today);
    var totalWorkouts := |OnDay(records, user, today)|;
    var avgCaloriesBurntPerWorkout :=
      if totalWorkouts > 0 then Average(if |totalCaloriesBurnt| > 0 then totalCaloriesBurnt[0] else 0.0, totalWorkouts) else 0.0;
    var pieChartData := PieChart(CategoryGroups(OnDay(records, user, today)));
    var weeks, caloriesBurnt := WeeklyTrend(records, user, today, dayOfMonth);
    r := Ok(DashboardData(
      if |totalCaloriesBurnt| > 0 then totalCaloriesBurnt[0] else 0.0,
      totalWorkouts,
      avgCaloriesBurntPerWorkout,
      WeekTrend(weeks, caloriesBurnt),
      pieChartData));
  }

  datatype DayWorkouts = DayWorkouts(todaysWorkouts: seq<WorkoutRecord>, totalCaloriesBurnt: real)

  /** The workouts of one day, `date` when the query names one and `today`
      otherwise, with their total. A missing id finds no user. */
  function WorkoutsByDate(userId: Option<UserId>, users: set<UserId>, records: seq<WorkoutRecord>,
                          date: Option<Day>, today: Day): (r: Result<DayWorkouts, DashboardError>)
    ensures r.Err? <==> userId.None? || userId.value !in users
    ensures r.Err? ==> r.error == UserNotFound
    ensures r.Ok? ==>
      && r.value.todaysWorkouts == OnDay(records, userId.value, date.GetOr(today))
      && r.value.totalCaloriesBurnt == TotalCalories(r.value.todaysWorkouts)
  {
    if userId.None? || userId.value !in users then Err(UserNotFound)
    else
      var todaysWorkouts := OnDay(records, userId.value, date.GetOr(today));
      ReduceIsTotal(0.0, todaysWorkouts);
      Ok(DayWorkouts(todaysWorkouts, Reduce(0.0, todaysWorkouts)))
  }

  /** For a known user, the by-date total of today agrees with the
      dashboard's total of today. */
  lemma ByDateAgreesWithDashboard(user: UserId, users: set<UserId>, records: seq<WorkoutRecord>, today: Day)
    requires user in users
    ensures WorkoutsByDate(Some(user), users, records, None, today).Ok?
    ensures WorkoutsByDate(Some(user), users, records, None, today).value.totalCaloriesBurnt
         == DayTotal(records, user, today)
  {
    DayTotalIsSum(records, user, today);
  }
}
