/**
 * getUserDashboard and getWorkoutsByDate: the one-day total, count and
 * average, the per-category pie data, the seven-day trend and the by-date
 * listing with its reduce. A day is an integer index; a record lies in the
 * window of day `d` when its `date` is `d`. A calorie amount of `None` is
 * NaN.
 */
module Dashboard {
  import opened Wrappers
  import opened JsNumber
  import opened WorkoutStore

  /** Number addition: NaN on either side gives NaN. */
  function Plus(a: Option<real>, b: Option<real>): Option<real>
  {
    if a.Some? && b.Some? then Some(a.value + b.value) else None
  }

  predicate OnDay(r: Record, user: UserId, day: int) {
    r.user == user && r.date == day
  }

  /** `$match: { user, date: { $gte: startOfDay, $lt: endOfDay } }`, in store order. */
  function DayRecords(records: seq<Record>, user: UserId, day: int): (rs: seq<Record>)
  {
    if |records| == 0 then []
    else
      (if OnDay(records[0], user, day) then [records[0]] else []) + DayRecords(records[1..], user, day)
  }

  /**
   * The day's records are exactly the user's records of that day, each kept
   * as often as the store holds it and every other record dropped.
   */
  lemma {:induction false} DayRecordsMembers(records: seq<Record>, user: UserId, day: int)
    ensures forall r :: r in DayRecords(records, user, day) <==> r in records && OnDay(r, user, day)
    ensures forall r ::
      multiset(DayRecords(records, user, day))[r] == if OnDay(r, user, day) then multiset(records)[r] else 0
    decreases |records|
  {
    if |records| > 0 {
      DayRecordsMembers(records[1..], user, day);
      assert records == [records[0]] + records[1..];
    }
  }

  /** The `$match` of a concatenated store is the concatenation of the two matches. */
  lemma {:induction false} DayRecordsAppend(a: seq<Record>, b: seq<Record>, user: UserId, day: int)
    ensures DayRecords(a + b, user, day) == DayRecords(a, user, day) + DayRecords(b, user, day)
    decreases |a|
  {
    if |a| > 0 {
      DayRecordsAppend(a[1..], b, user, day);
      assert (a + b)[1..] == a[1..] + b;
    } else {
      assert a + b == b;
    }
  }

  /** `$sum: "$caloriesBurned"` over a group; an empty sum is 0. */
  function GroupSum(rs: seq<Record>): Option<real>
  {
    if |rs| == 0 then Some(0.0) else Plus(rs[0].caloriesBurned, GroupSum(rs[1..]))
  }

  /** `reduce((total, workout) => total + workout.caloriesBurned, 0)`. */
  function ReduceCalories(rs: seq<Record>): Option<real>
  {
    if |rs| == 0 then Some(0.0) else Plus(ReduceCalories(rs[..|rs| - 1]), rs[|rs| - 1].caloriesBurned)
  }

  predicate HasNaN(rs: seq<Record>) {
    exists i :: 0 <= i < |rs| && rs[i].caloriesBurned.None?
  }

  /** A sum is NaN exactly when one of its terms is. */
  lemma {:induction false} GroupSumNaN(rs: seq<Record>)
    ensures GroupSum(rs).None? <==> HasNaN(rs)
    decreases |rs|
  {
    if |rs| > 0 {
      GroupSumNaN(rs[1..]);
      if HasNaN(rs[1..]) {
        var i :| 0 <= i < |rs| - 1 && rs[1..][i].caloriesBurned.None?;
        assert rs[i + 1] == rs[1..][i];
      }
      if HasNaN(rs) && rs[0].caloriesBurned.Some? {
        var i :| 0 <= i < |rs| && rs[i].caloriesBurned.None?;
        assert rs[1..][i - 1] == rs[i];
      }
    }
  }

  lemma {:induction false} GroupSumSnoc(rs: seq<Record>)
    requires |rs| > 0
    ensures GroupSum(rs) == Plus(GroupSum(rs[..|rs| - 1]), rs[|rs| - 1].caloriesBurned)
    decreases |rs|
  {
    if |rs| > 1 {
      GroupSumSnoc(rs[1..]);
      assert rs[1..][..|rs| - 2] == rs[..|rs| - 1][1..];
    }
  }

  /** The reduce in getWorkoutsByDate and the $sum of the dashboard agree. */
  lemma {:induction false} ReduceIsGroupSum(rs: seq<Record>)
    ensures ReduceCalories(rs) == GroupSum(rs)
    decreases |rs|
  {
    if |rs| > 0 {
      ReduceIsGroupSum(rs[..|rs| - 1]);
      GroupSumSnoc(rs);
    }
  }

  // ---------------------------------------------------------------------
  // Today's figures

  /** `totalCaloriesBurnt.length > 0 ? totalCaloriesBurnt[0].totalCaloriesBurnt : 0`. */
  function DailyTotal(records: seq<Record>, user: UserId, day: int): Option<real>
  {
    var matched := DayRecords(records, user, day);
    if |matched| > 0 then GroupSum(matched) else Some(0.0)
  }

  /** `countDocuments` over the same window. */
  function WorkoutCount(records: seq<Record>, user: UserId, day: int): nat
  {
    |DayRecords(records, user, day)|
  }

  /**
   * `countDocuments` counts each of the user's records of that day once and
   * no other record: an empty store counts 0, a single record 1 exactly when
   * it lies in the window, and the counts of two parts of the store add up.
   */
  lemma WorkoutCountCounts(a: seq<Record>, b: seq<Record>, r: Record, user: UserId, day: int)
    ensures WorkoutCount([], user, day) == 0
    ensures WorkoutCount([r], user, day) == if OnDay(r, user, day) then 1 else 0
    ensures WorkoutCount(a + b, user, day) == WorkoutCount(a, user, day) + WorkoutCount(b, user, day)
  {
    assert [r][1..] == [];
    DayRecordsAppend(a, b, user, day);
  }

  /** The average, guarded by the aggregate being non-empty. */
  function AverageCalories(records: seq<Record>, user: UserId, day: int): Option<real>
  {
    var matched := DayRecords(records, user, day);
    if |matched| > 0 then
      match GroupSum(matched)
      case Some(total) => Some(total / (|matched| as real))
      case None => None
    else Some(0.0)
  }

  /**
   * The total is the $sum of the day's records: NaN exactly when one of
   * them is, 0 when there are none.
   */
  lemma DailyTotalIsSum(records: seq<Record>, user: UserId, day: int)
    ensures DailyTotal(records, user, day) == GroupSum(DayRecords(records, user, day))
    ensures DailyTotal(records, user, day).None? <==> HasNaN(DayRecords(records, user, day))
    ensures WorkoutCount(records, user, day) == 0 ==> DailyTotal(records, user, day) == Some(0.0)
  {
    GroupSumNaN(DayRecords(records, user, day));
  }

  /**
   * No division by zero: without records the average is 0; otherwise it is
   * NaN exactly when the total is, and times the count it gives the total.
   */
  lemma AverageTimesCount(records: seq<Record>, user: UserId, day: int)
    ensures var n := WorkoutCount(records, user, day);
      var total := DailyTotal(records, user, day);
      var avg := AverageCalories(records, user, day);
      && (n == 0 ==> avg == Some(0.0))
      && (n > 0 ==> (avg.Some? <==> total.Some?))
      && (n > 0 && avg.Some? ==> avg.value * (n as real) == total.value)
  {
  }

  // ---------------------------------------------------------------------
  // Pie chart

  /** A slice of the pie data; `category` is what the source sends as `label`. */
  datatype Slice = Slice(id: nat, value: Option<real>, category: string)

  /** The records of one category, in order. */
  function OfCategory(rs: seq<Record>, c: string): seq<Record>
  {
    if |rs| == 0 then []
    else (if rs[0].category == c then [rs[0]] else []) + OfCategory(rs[1..], c)
  }

  /** The records of every other category, in order. */
  function OtherCategories(rs: seq<Record>, c: string): seq<Record>
  {
    if |rs| == 0 then []
    else (if rs[0].category != c then [rs[0]] else []) + OtherCategories(rs[1..], c)
  }

  /** OtherCategories keeps exactly the records of the other categories. */
  lemma {:induction false} OtherCategoriesMembers(rs: seq<Record>, c: string)
    ensures forall r :: r in OtherCategories(rs, c) <==> r in rs && r.category != c
    decreases |rs|
  {
    if |rs| > 0 {
      OtherCategoriesMembers(rs[1..], c);
      assert rs == [rs[0]] + rs[1..];
    }
  }

  /**
   * `order` is what `$group: { _id: "$category" }` returns, in whatever
   * order the server chooses: each category of the records once.
   */
  predicate Lists(order: seq<string>, rs: seq<Record>) {
    && (forall i, j :: 0 <= i < j < |order| ==> order[i] != order[j])
    && (forall r :: r in rs ==> r.category in order)
    && (forall c :: c in order ==> HasCategory(rs, c))
  }

  /** Some record has category `c`. */
  predicate HasCategory(rs: seq<Record>, c: string) {
    exists k :: 0 <= k < |rs| && rs[k].category == c
  }

  /** `categoryCalories.map((category, index) => ({ id: index, value, label }))`. */
  function PieChart(rs: seq<Record>, order: seq<string>): seq<Slice>
  {
    seq(|order|, i requires 0 <= i < |order| => Slice(i, GroupSum(OfCategory(rs, order[i])), order[i]))
  }

  /** The sum of the slice values. */
  function SliceTotal(slices: seq<Slice>): Option<real>
  {
    if |slices| == 0 then Some(0.0) else Plus(slices[0].value, SliceTotal(slices[1..]))
  }

  /**
   * One slice per distinct category of the records, numbered 0 to n-1,
   * each holding the $sum of its category.
   */
  lemma PieChartShape(rs: seq<Record>, order: seq<string>)
    requires Lists(order, rs)
    ensures var slices := PieChart(rs, order);
      && |slices| == |order|
      && (forall i :: 0 <= i < |slices| ==> slices[i].id == i)
      && (forall i, j :: 0 <= i < j < |slices| ==> slices[i].category != slices[j].category)
      && (forall r :: r in rs ==> exists i :: 0 <= i < |slices| && slices[i].category == r.category)
      && (forall i :: 0 <= i < |slices| ==> HasCategory(rs, slices[i].category))
      && (forall i :: 0 <= i < |slices| ==> slices[i].value == GroupSum(OfCategory(rs, slices[i].category)))
  {
    var slices := PieChart(rs, order);
    forall r | r in rs ensures exists i :: 0 <= i < |slices| && slices[i].category == r.category {
      var i :| 0 <= i < |order| && order[i] == r.category;
      assert slices[i].category == r.category;
    }
    forall i | 0 <= i < |slices| ensures HasCategory(rs, slices[i].category) {
      assert slices[i].category == order[i] && order[i] in order;
    }
  }

  lemma PlusAssoc(a: Option<real>, b: Option<real>, c: Option<real>)
    ensures Plus(Plus(a, b), c) == Plus(a, Plus(b, c))
  {
  }

  /** Splitting off one category splits the sum. */
  lemma {:induction false} SplitSum(rs: seq<Record>, c: string)
    ensures GroupSum(rs) == Plus(GroupSum(OfCategory(rs, c)), GroupSum(OtherCategories(rs, c)))
    decreases |rs|
  {
    if |rs| > 0 {
      SplitSum(rs[1..], c);
      var x := rs[0].caloriesBurned;
      var of, others := OfCategory(rs[1..], c), OtherCategories(rs[1..], c);
      var a, b := GroupSum(of), GroupSum(others);
      if rs[0].category == c {
        var s := [rs[0]] + of;
        assert OfCategory(rs, c) == s && OtherCategories(rs, c) == others;
        assert s[0] == rs[0] && s[1..] == of;
        assert GroupSum(s) == Plus(x, a);
        PlusAssoc(x, a, b);
      } else {
        var s := [rs[0]] + others;
        assert OtherCategories(rs, c) == s && OfCategory(rs, c) == of;
        assert s[0] == rs[0] && s[1..] == others;
        assert GroupSum(s) == Plus(x, b);
        PlusAssoc(a, x, b);
        PlusAssoc(x, a, b);
        assert Plus(a, x) == Plus(x, a);
      }
    }
  }

  /** Removing another category leaves a category's records as they were. */
  lemma {:induction false} OfCategoryOfOthers(rs: seq<Record>, c: string, d: string)
    requires c != d
    ensures OfCategory(OtherCategories(rs, c), d) == OfCategory(rs, d)
    decreases |rs|
  {
    if |rs| > 0 {
      OfCategoryOfOthers(rs[1..], c, d);
      var rest := OtherCategories(rs[1..], c);
      if rs[0].category != c {
        var others := [rs[0]] + rest;
        assert OtherCategories(rs, c) == others;
        assert others[0] == rs[0] && others[1..] == rest;
      } else {
        assert OtherCategories(rs, c) == rest;
      }
    }
  }

  /** The slices after the first are the pie chart of the remaining order, renumbered. */
  lemma {:induction false} SliceTotalPeel(rs: seq<Record>, sub: seq<Record>, order: seq<string>)
    requires |order| > 0
    requires forall i :: 1 <= i < |order| ==> OfCategory(sub, order[i]) == OfCategory(rs, order[i])
    ensures SliceTotal(PieChart(rs, order)) ==
      Plus(GroupSum(OfCategory(rs, order[0])), SliceTotal(PieChart(sub, order[1..])))
  {
    var whole := PieChart(rs, order);
    var rest := PieChart(sub, order[1..]);
    SliceTotalValues(whole[1..], rest);
  }

  /** Slice lists with the same values, position by position, have the same total. */
  lemma {:induction false} SliceTotalValues(a: seq<Slice>, b: seq<Slice>)
    requires |a| == |b| && forall i :: 0 <= i < |a| ==> a[i].value == b[i].value
    ensures SliceTotal(a) == SliceTotal(b)
    decreases |a|
  {
    if |a| > 0 {
      SliceTotalValues(a[1..], b[1..]);
    }
  }

  /** The slice values add up to the day's total; NaN in one slice is NaN in both. */
  lemma {:induction false} PieChartSums(rs: seq<Record>, order: seq<string>)
    requires Lists(order, rs)
    ensures SliceTotal(PieChart(rs, order)) == GroupSum(rs)
    decreases |order|
  {
    if |order| > 0 {
      var c := order[0];
      var tail := order[1..];
      var others := OtherCategories(rs, c);
      OtherCategoriesMembers(rs, c);
      assert Lists(tail, others) by {
        forall r | r in others ensures r.category in tail {
          var k :| 0 <= k < |order| && order[k] == r.category;
          assert k != 0;
          assert tail[k - 1] == order[k];
        }
        forall d | d in tail ensures HasCategory(others, d) {
          var k :| 0 <= k < |tail| && tail[k] == d;
          assert order[k + 1] == d && order[k + 1] in order;
          var j :| 0 <= j < |rs| && rs[j].category == d;
          assert rs[j] in rs;
          assert rs[j] in others;
          var m :| 0 <= m < |others| && others[m] == rs[j];
        }
      }
      PieChartSums(others, tail);
      forall i | 1 <= i < |order| ensures OfCategory(others, order[i]) == OfCategory(rs, order[i]) {
        OfCategoryOfOthers(rs, c, order[i]);
      }
      SliceTotalPeel(rs, others, order);
      SplitSum(rs, c);
    }
  }

  // ---------------------------------------------------------------------
  // Seven-day trend

  /** `weekData[0]?.totalCaloriesBurnt ? weekData[0]?.totalCaloriesBurnt : 0`. */
  function TrendValue(records: seq<Record>, user: UserId, day: int): real
  {
    var week := DayRecords(records, user, day);
    if |week| > 0 then
      match GroupSum(week)
      case Some(v) => if v != 0.0 then v else 0.0
      case None => 0.0
    else 0.0
  }

  /** `${date.getDate()}th`; the day of the month is a function of the day. */
  function DayLabel(dayOfMonth: int -> nat, day: int): string
  {
    NatToString(dayOfMonth(day)) + "th"
  }

  /** The labels of the seven days ending today, oldest first. */
  function TrendLabels(dayOfMonth: int -> nat, today: int): (weeks: seq<string>)
    ensures |weeks| == 7 && forall k :: 0 <= k < 7 ==> weeks[k] == DayLabel(dayOfMonth, today - 6 + k)
  {
    seq(7, k requires 0 <= k < 7 => DayLabel(dayOfMonth, today - 6 + k))
  }

  /** The values of the seven days ending today, oldest first. */
  function TrendValues(records: seq<Record>, user: UserId, today: int): (values: seq<real>)
    ensures |values| == 7 && forall k :: 0 <= k < 7 ==> values[k] == TrendValue(records, user, today - 6 + k)
  {
    seq(7, k requires 0 <= k < 7 => TrendValue(records, user, today - 6 + k))
  }

  /**
   * The trend loop, `i` from 6 down to 0, pushing a label and a value per
   * day; `dayLabel` formats a day and `dayValue` is the per-day query.
   */
  method WeeklyTrend(dayLabel: int -> string, dayValue: int -> real, today: int)
    returns (weeks: seq<string>, caloriesBurnt: seq<real>)
    ensures |weeks| == 7 && forall k :: 0 <= k < 7 ==> weeks[k] == dayLabel(today - 6 + k)
    ensures |caloriesBurnt| == 7 && forall k :: 0 <= k < 7 ==> caloriesBurnt[k] == dayValue(today - 6 + k)
  {
    weeks := [];
    caloriesBurnt := [];
    var i := 6;
    while i >= 0
      invariant -1 <= i <= 6
      invariant |weeks| == 6 - i && |caloriesBurnt| == 6 - i
      invariant forall k :: 0 <= k < |weeks| ==> weeks[k] == dayLabel(today - 6 + k)
      invariant forall k :: 0 <= k < |caloriesBurnt| ==> caloriesBurnt[k] == dayValue(today - 6 + k)
    {
      var date := today - i;
      weeks := weeks + [dayLabel(date)];
      caloriesBurnt := caloriesBurnt + [dayValue(date)];
      i := i - 1;
    }
  }

  /** The trend loop with the dashboard's labels and per-day totals. */
  method UserTrend(records: seq<Record>, user: UserId, today: int, dayOfMonth: int -> nat)
    returns (weeks: seq<string>, caloriesBurnt: seq<real>)
    ensures weeks == TrendLabels(dayOfMonth, today)
    ensures caloriesBurnt == TrendValues(records, user, today)
  {
    weeks, caloriesBurnt := WeeklyTrend(d => DayLabel(dayOfMonth, d), d => TrendValue(records, user, d), today);
    AreTrendLabels(weeks, dayOfMonth, today);
    AreTrendValues(caloriesBurnt, records, user, today);
  }

  /** Seven labels, one per day of the week ending today, are the trend labels. */
  lemma AreTrendLabels(weeks: seq<string>, dayOfMonth: int -> nat, today: int)
    requires |weeks| == 7 && forall k :: 0 <= k < 7 ==> weeks[k] == DayLabel(dayOfMonth, today - 6 + k)
    ensures weeks == TrendLabels(dayOfMonth, today)
  {
  }

  /** Seven values, one per day of the week ending today, are the trend values. */
  lemma AreTrendValues(values: seq<real>, records: seq<Record>, user: UserId, today: int)
    requires |values| == 7 && forall k :: 0 <= k < 7 ==> values[k] == TrendValue(records, user, today - 6 + k)
    ensures values == TrendValues(records, user, today)
  {
  }

  /**
   * A day contributes its sum, and 0 when it has no records, when the sum
   * is 0 or when it is NaN. The last entry uses today's window: it is
   * today's total unless that is NaN.
   */
  lemma TrendMeaning(records: seq<Record>, user: UserId, today: int)
    ensures var values := TrendValues(records, user, today);
      && (forall k :: 0 <= k < 7 && WorkoutCount(records, user, today - 6 + k) == 0 ==> values[k] == 0.0)
      && (forall k :: 0 <= k < 7 && DailyTotal(records, user, today - 6 + k).None? ==> values[k] == 0.0)
      && (forall k :: 0 <= k < 7 && DailyTotal(records, user, today - 6 + k).Some? ==>
            values[k] == DailyTotal(records, user, today - 6 + k).value)
      && (DailyTotal(records, user, today).Some? ==> values[6] == DailyTotal(records, user, today).value)
  {
  }

  // ---------------------------------------------------------------------
  // The two handlers

  datatype Reply<T> = NotFound | Ok(body: T)

  datatype DashboardData = DashboardData(
    totalCaloriesBurnt: Option<real>,
    totalWorkouts: nat,
    avgCaloriesBurntPerWorkout: Option<real>,
    weeks: seq<string>,
    caloriesBurned: seq<real>,
    pieChartData: seq<Slice>)

  /**
   * getUserDashboard for `user` on day `today`; `users` are the registered
   * users, `order` the category groups as the server returns them.
   */
  method GetUserDashboard(records: seq<Record>, users: set<UserId>, user: UserId, today: int,
                          dayOfMonth: int -> nat, order: seq<string>)
    returns (reply: Reply<DashboardData>)
    ensures user !in users <==> reply.NotFound?
    ensures reply.Ok? ==> reply.body == DashboardData(
      DailyTotal(records, user, today), WorkoutCount(records, user, today),
      AverageCalories(records, user, today), TrendLabels(dayOfMonth, today),
      TrendValues(records, user, today), PieChart(DayRecords(records, user, today), order))
  {
    if user !in users {
      return NotFound;
    }
    var totalCaloriesBurnt := DailyTotal(records, user, today);
    var totalWorkouts := WorkoutCount(records, user, today);
    var avgCaloriesBurntPerWorkout := AverageCalories(records, user, today);
    var pieChartData := PieChart(DayRecords(records, user, today), order);
    var weeks, caloriesBurnt := UserTrend(records, user, today, dayOfMonth);
    return Ok(DashboardData(totalCaloriesBurnt, totalWorkouts, avgCaloriesBurntPerWorkout,
                            weeks, caloriesBurnt, pieChartData));
  }

  datatype ByDate = ByDate(todaysWorkouts: seq<Record>, totalCaloriesBurnt: Option<real>)

  /**
   * getWorkoutsByDate: the user's records of the requested day (today when
   * no date is given) and the reduce of their calories.
   */
  function WorkoutsByDate(records: seq<Record>, users: set<UserId>, user: UserId, date: Option<int>, today: int): (reply: Reply<ByDate>)
    ensures reply.Ok? <==> user in users
    ensures reply.Ok? ==> var day := if date.Some? then date.value else today;
      && reply.body.todaysWorkouts == DayRecords(records, user, day)
      && reply.body.totalCaloriesBurnt == GroupSum(reply.body.todaysWorkouts)
      && reply.body.totalCaloriesBurnt == DailyTotal(records, user, day)
  {
    if user !in users then NotFound
    else
      var day := if date.Some? then date.value else today;
      var todaysWorkouts := DayRecords(records, user, day);
      ReduceIsGroupSum(todaysWorkouts);
      Ok(ByDate(todaysWorkouts, ReduceCalories(todaysWorkouts)))
  }
}
