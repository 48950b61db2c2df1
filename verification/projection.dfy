/**
 * Savings projection of the battery calculator's `update` (src/script.js).
 *
 * From the energy saved per year, the price per kWh, the installation cost,
 * the yearly price increase and the lifespan, `update` builds a yearly and a
 * monthly series of cumulative savings, escalates the price once a year,
 * records the first month whose cumulative savings reach the installation
 * cost, and compares the final yearly cumulative with that cost.
 *
 * This module states the projection functionally: one recursive definition
 * per quantity, indexed by year or month, and the `Outcome` assembled from
 * them. The loop the source runs is in module ProjectionLoop.
 *
 * The model follows the code as written:
 * - the price-increase field is divided by 100 when parsed and again in the
 *   escalation, so the yearly price factor is 1 + pct/10000;
 * - month 0 is never checked for payback and `monthCount` stays 0 when no
 *   month reaches the cost;
 * - profitability reads the yearly cumulative, seeded with a whole year of
 *   savings, while payback reads the monthly cumulative, seeded with one
 *   twelfth of it.
 */
module Projection {

  /** The parsed inputs the projection reads; `profitKwh` comes from the derivation. */
  datatype Params = Params(
    profitKwh: real,
    price: real,
    installCost: real,
    priceIncPct: real,
    life: nat)

  datatype YearRecord = YearRecord(year: nat, priceKwh: real, yearly: real, cumul: real)

  datatype MonthRecord = MonthRecord(month: nat, priceKwh: real, monthly: real, cumul: real)

  /** What `update` hands to the chart, the table and the summary. */
  datatype Outcome = Outcome(
    yearly: seq<YearRecord>,
    monthly: seq<MonthRecord>,
    monthCount: nat,
    totalProfit: real,
    isProfitable: bool)

  // ---------------------------------------------------------------------
  // The functional specification
  // ---------------------------------------------------------------------

  /** The increase as parsed: the field divided by 100 once. */
  function Inc(p: Params): real {
    p.priceIncPct / 100.0
  }

  /** One year's price escalation, with the second division by 100. */
  function Escalate(prev: real, inc: real): real {
    prev * inc / 100.0 + prev
  }

  /** What an amount of energy is worth at a price per kWh. */
  function Worth(price: real, energy: real): real {
    price * energy
  }

  /** Savings of the seed year: the energy saved at the starting price. */
  function Base(p: Params): real {
    p.profitKwh * p.price
  }

  /** Price per kWh in year `y`. */
  function PriceAt(p: Params, y: nat): real {
    if y == 0 then p.price else Escalate(PriceAt(p, y - 1), Inc(p))
  }

  /** Savings of year `y`. */
  function YearSaving(p: Params, y: nat): real {
    if y == 0 then Base(p) else Worth(PriceAt(p, y), p.profitKwh)
  }

  /** Cumulative savings through year `y`, seeded with the whole seed year. */
  function YearCumul(p: Params, y: nat): real {
    if y == 0 then Base(p) else YearCumul(p, y - 1) + YearSaving(p, y)
  }

  /** The year a month belongs to: month 0 is the seed, months 1..12 are year 1, and so on. */
  function YearOf(m: nat): nat {
    if m == 0 then 0 else (m - 1) / 12 + 1
  }

  /** Savings of month `m`: a twelfth of its year's savings. */
  function MonthSaving(p: Params, m: nat): real {
    YearSaving(p, YearOf(m)) / 12.0
  }

  /** Cumulative savings through month `m`, seeded with one twelfth of the seed year and never reset. */
  function MonthCumul(p: Params, m: nat): real {
    if m == 0 then MonthSaving(p, 0) else MonthCumul(p, m - 1) + MonthSaving(p, m)
  }

  function YearRec(p: Params, y: nat): YearRecord {
    YearRecord(y, PriceAt(p, y), YearSaving(p, y), YearCumul(p, y))
  }

  function MonthRec(p: Params, m: nat): MonthRecord {
    MonthRecord(m, PriceAt(p, YearOf(m)), MonthSaving(p, m), MonthCumul(p, m))
  }

  /** Years 0..n of the yearly series, built one year at a time. */
  function YearSeries(p: Params, n: nat): (s: seq<YearRecord>)
    ensures |s| == n + 1
  {
    if n == 0 then [YearRec(p, 0)] else YearSeries(p, n - 1) + [YearRec(p, n)]
  }

  /** Months 0..n of the monthly series, built one month at a time. */
  function MonthSeries(p: Params, n: nat): (s: seq<MonthRecord>)
    ensures |s| == n + 1
  {
    if n == 0 then [MonthRec(p, 0)] else MonthSeries(p, n - 1) + [MonthRec(p, n)]
  }

  lemma {:induction false} YearSeriesAt(p: Params, n: nat)
    ensures forall y :: 0 <= y <= n ==> YearSeries(p, n)[y] == YearRec(p, y)
  {
    if n > 0 {
      YearSeriesAt(p, n - 1);
    }
  }

  lemma {:induction false} MonthSeriesAt(p: Params, n: nat)
    ensures forall m :: 0 <= m <= n ==> MonthSeries(p, n)[m] == MonthRec(p, m)
  {
    if n > 0 {
      MonthSeriesAt(p, n - 1);
    }
  }

  /**
   * The payback month after checking months 1..last of the monthly series in
   * order, as the loop's `keepCounting` flag does it: an earlier payback
   * month is kept, otherwise the month is taken if its cumulative reaches
   * the cost, and 0 means none did. Month 0 is never checked.
   */
  function Payback(monthly: seq<MonthRecord>, cost: real, last: nat): (m: nat)
    requires last < |monthly|
    ensures m <= last
    decreases last
  {
    if last == 0 then 0
    else
      var earlier := Payback(monthly, cost, last - 1);
      if earlier != 0 then earlier
      else if monthly[last].cumul >= cost then last
      else 0
  }

  /** The payback month is the first month after month 0 whose cumulative reaches the cost, or 0 when there is none. */
  lemma {:induction false} PaybackFirstCrossing(monthly: seq<MonthRecord>, cost: real, last: nat)
    requires last < |monthly|
    ensures var m := Payback(monthly, cost, last);
      && (m == 0 <==> forall k :: 1 <= k <= last ==> monthly[k].cumul < cost)
      && (m != 0 ==> 1 <= m && monthly[m].cumul >= cost)
      && (forall k :: 1 <= k < m ==> monthly[k].cumul < cost)
  {
    if last > 0 {
      PaybackFirstCrossing(monthly, cost, last - 1);
    }
  }

  /** The projection half of `update`. */
  function Project(p: Params): (r: Outcome)
    ensures Satisfies(p, r)
  {
    YearOfBound(p.life);
    SeriesFollow(p);
    var yearly := YearSeries(p, p.life);
    var monthly := MonthSeries(p, 12 * p.life);
    YearSeriesAt(p, p.life);
    MonthSeriesAt(p, 12 * p.life);
    var total := YearCumul(p, p.life) - p.installCost;
    PaybackFirstCrossing(monthly, p.installCost, 12 * p.life);
    Outcome(yearly, monthly, Payback(monthly, p.installCost, 12 * p.life), total, total > 0.0)
  }

  /** The outcome's series, read index by index. */
  lemma ProjectAt(p: Params)
    ensures forall y :: 0 <= y <= p.life ==> Project(p).yearly[y] == YearRec(p, y)
    ensures forall m :: 0 <= m <= 12 * p.life ==> Project(p).monthly[m] == MonthRec(p, m)
    ensures Project(p).totalProfit == YearCumul(p, p.life) - p.installCost
  {
    YearSeriesAt(p, p.life);
    MonthSeriesAt(p, 12 * p.life);
  }

  // ---------------------------------------------------------------------
  // The same projection stated declaratively, over the series themselves
  // ---------------------------------------------------------------------

  /** Record `cur` follows record `prev` as year `y`. */
  predicate YearStep(p: Params, prev: YearRecord, cur: YearRecord, y: nat) {
    && cur.year == y
    && cur.priceKwh == Escalate(prev.priceKwh, Inc(p))
    && cur.yearly == Worth(cur.priceKwh, p.profitKwh)
    && cur.cumul == prev.cumul + cur.yearly
  }

  /** Record `cur` follows record `prev` as month `m` of the year described by `owner`. */
  predicate MonthStep(owner: YearRecord, prev: MonthRecord, cur: MonthRecord, m: nat) {
    && cur.month == m
    && cur.priceKwh == owner.priceKwh
    && cur.monthly == owner.yearly / 12.0
    && cur.cumul == prev.cumul + cur.monthly
  }

  /** `mc` is the first month after month 0 whose cumulative reaches `cost`, or 0 if there is none. */
  predicate FirstCrossing(monthly: seq<MonthRecord>, cost: real, mc: nat) {
    && mc < |monthly|
    && (mc == 0 <==> forall k :: 1 <= k < |monthly| ==> monthly[k].cumul < cost)
    && (mc != 0 ==> monthly[mc].cumul >= cost)
    && (forall k :: 1 <= k < mc ==> monthly[k].cumul < cost)
  }

  /** Everything `update` promises about its series, its payback month and its profit. */
  predicate Satisfies(p: Params, r: Outcome) {
    && |r.yearly| == p.life + 1
    && |r.monthly| == 12 * p.life + 1
    && r.yearly[0] == YearRecord(0, p.price, Base(p), Base(p))
    && r.monthly[0] == MonthRecord(0, p.price, Base(p) / 12.0, Base(p) / 12.0)
    && (forall y :: 1 <= y <= p.life ==> YearStep(p, r.yearly[y - 1], r.yearly[y], y))
    && (forall m :: 1 <= m <= 12 * p.life ==>
          YearOf(m) <= p.life && MonthStep(r.yearly[YearOf(m)], r.monthly[m - 1], r.monthly[m], m))
    && FirstCrossing(r.monthly, p.installCost, r.monthCount)
    && r.totalProfit == r.yearly[p.life].cumul - p.installCost
    && (r.isProfitable <==> r.totalProfit > 0.0)
  }

  // ---------------------------------------------------------------------
  // Lemmas
  // ---------------------------------------------------------------------

  /** Months 12(y-1)+1 .. 12y belong to year y. */
  lemma YearOfMonth(y: nat, k: nat)
    requires 1 <= y && 1 <= k <= 12
    ensures YearOf(12 * (y - 1) + k) == y
  {
  }

  /** Each year's record follows the previous year's record. */
  lemma YearFollows(p: Params, y: nat)
    requires y >= 1
    ensures YearStep(p, YearRec(p, y - 1), YearRec(p, y), y)
  {
  }

  /** Month m of year y, as the loop builds it from the month before. */
  lemma NextMonth(p: Params, y: nat, m: nat, prev: MonthRecord, price: real, saving: real)
    requires 1 <= m && YearOf(m) == y
    requires prev == MonthRec(p, m - 1)
    requires price == PriceAt(p, y) && saving == YearSaving(p, y)
    ensures MonthRec(p, m) == MonthRecord(m, price, saving / 12.0, prev.cumul + saving / 12.0)
  {
  }

  lemma SeriesFollow(p: Params)
    ensures forall y: nat :: 1 <= y ==> YearStep(p, YearRec(p, y - 1), YearRec(p, y), y)
    ensures forall m: nat :: 1 <= m ==> MonthStep(YearRec(p, YearOf(m)), MonthRec(p, m - 1), MonthRec(p, m), m)
  {
  }

  /** Every month of the series belongs to a year of the series. */
  lemma YearOfBound(life: nat)
    ensures forall m :: 0 <= m <= 12 * life ==> YearOf(m) <= life
  {
  }

  /** Two outcomes meeting the declarative description for the same inputs are the same outcome. */
  lemma SatisfiesUnique(p: Params, r: Outcome, q: Outcome)
    requires Satisfies(p, r) && Satisfies(p, q)
    ensures r == q
  {
    YearlyDetermined(p, r, p.life);
    YearlyDetermined(p, q, p.life);
    MonthlyDetermined(p, r, 12 * p.life);
    MonthlyDetermined(p, q, 12 * p.life);
    assert r.yearly == q.yearly;
    assert r.monthly == q.monthly;
    FirstCrossingUnique(r.monthly, p.installCost, r.monthCount, q.monthCount);
  }

  /** The declarative description pins the outcome down: `Project` is the only outcome meeting it. */
  lemma SatisfiesDeterminesOutcome(p: Params, r: Outcome)
    requires Satisfies(p, r)
    ensures r == Project(p)
  {
    SatisfiesUnique(p, r, Project(p));
  }

  lemma {:induction false} YearlyDetermined(p: Params, r: Outcome, n: nat)
    requires Satisfies(p, r) && n <= p.life
    ensures forall y :: 0 <= y <= n ==> r.yearly[y] == YearRec(p, y)
  {
    if n > 0 {
      YearlyDetermined(p, r, n - 1);
      assert YearStep(p, r.yearly[n - 1], r.yearly[n], n);
    }
  }

  lemma {:induction false} MonthlyDetermined(p: Params, r: Outcome, n: nat)
    requires Satisfies(p, r) && n <= 12 * p.life
    ensures forall m :: 0 <= m <= n ==> r.monthly[m] == MonthRec(p, m)
  {
    if n > 0 {
      MonthlyDetermined(p, r, n - 1);
      YearlyDetermined(p, r, p.life);
      assert YearOf(n) <= p.life;
      assert MonthStep(r.yearly[YearOf(n)], r.monthly[n - 1], r.monthly[n], n);
    }
  }

  /** At most one month is the first crossing. */
  lemma FirstCrossingUnique(monthly: seq<MonthRecord>, cost: real, a: nat, b: nat)
    requires FirstCrossing(monthly, cost, a) && FirstCrossing(monthly, cost, b)
    ensures a == b
  {
  }

  /** Once a payback month is found it is never overwritten by a later crossing. */
  lemma {:induction false} PaybackStable(monthly: seq<MonthRecord>, cost: real, a: nat, b: nat)
    requires a <= b < |monthly| && Payback(monthly, cost, a) != 0
    ensures Payback(monthly, cost, b) == Payback(monthly, cost, a)
    decreases b
  {
    if a < b {
      PaybackStable(monthly, cost, a, b - 1);
    }
  }

  /** The payback month among months 1..last reads nothing past month last. */
  lemma {:induction false} PaybackExtends(s: seq<MonthRecord>, t: seq<MonthRecord>, cost: real, last: nat)
    requires last < |s| <= |t| && s == t[..|s|]
    ensures Payback(t, cost, last) == Payback(s, cost, last)
  {
    assert s[last] == t[last];
    if last > 0 {
      PaybackExtends(s, t, cost, last - 1);
    }
  }

  /** Checking one more month keeps an earlier payback month, or takes the new month if it is the first to reach the cost. */
  lemma PaybackNext(s: seq<MonthRecord>, x: MonthRecord, cost: real)
    requires |s| >= 1
    ensures var earlier := Payback(s, cost, |s| - 1);
      Payback(s + [x], cost, |s|) == if earlier != 0 then earlier else if x.cumul >= cost then |s| else 0
  {
    PaybackExtends(s, s + [x], cost, |s| - 1);
  }

  /** Month 0 is never checked: with no later month the payback month is 0 whatever the seed. */
  lemma SeedMonthSkipped(p: Params)
    requires p.life == 0
    ensures Project(p).monthCount == 0
    ensures |Project(p).monthly| == 1
  {
  }

  /**
   * Because month 0 is never checked, a cost already covered by the seed
   * month is reported as paid back in month 1, so the month before the
   * payback month need not lie below the cost.
   */
  lemma PaybackIgnoresSeed(p: Params)
    requires NonNegativeInputs(p) && p.life >= 1 && p.installCost <= Base(p) / 12.0
    ensures Project(p).monthCount == 1
    ensures Project(p).monthly[0].cumul >= p.installCost
  {
    ProjectAt(p);
    MonthCumulMonotone(p, 0, 1);
  }

  /** x to the power n. */
  function Pow(x: real, n: nat): real {
    if n == 0 then 1.0 else x * Pow(x, n - 1)
  }

  /** With the double division by 100, the price compounds by 1 + pct/10000 a year. */
  lemma {:induction false} PriceClosedForm(p: Params, y: nat)
    ensures PriceAt(p, y) == p.price * Pow(1.0 + p.priceIncPct / 10000.0, y)
  {
    if y > 0 {
      var f := 1.0 + p.priceIncPct / 10000.0;
      var prev := PriceAt(p, y - 1);
      PriceClosedForm(p, y - 1);
      assert Escalate(prev, Inc(p)) == prev * f;
      calc {
        PriceAt(p, y);
        prev * f;
        p.price * Pow(f, y - 1) * f;
        { assert Pow(f, y) == f * Pow(f, y - 1); }
        p.price * Pow(f, y);
      }
    }
  }

  /** Inputs under which every saving is non-negative. */
  predicate NonNegativeInputs(p: Params) {
    p.profitKwh >= 0.0 && p.price >= 0.0 && p.priceIncPct >= -10000.0
  }

  lemma {:induction false} PriceNonNegative(p: Params, y: nat)
    requires p.price >= 0.0 && p.priceIncPct >= -10000.0
    ensures PriceAt(p, y) >= 0.0
  {
    if y > 0 {
      var prev := PriceAt(p, y - 1);
      PriceNonNegative(p, y - 1);
      var f := 1.0 + p.priceIncPct / 10000.0;
      assert f >= 0.0;
      assert Escalate(prev, Inc(p)) == prev * f;
    }
  }

  lemma YearSavingNonNegative(p: Params, y: nat)
    requires NonNegativeInputs(p)
    ensures YearSaving(p, y) >= 0.0
  {
    PriceNonNegative(p, y);
  }

  lemma {:induction false} YearCumulMonotone(p: Params, i: nat, j: nat)
    requires NonNegativeInputs(p) && i <= j
    ensures YearCumul(p, i) <= YearCumul(p, j)
  {
    if i < j {
      YearCumulMonotone(p, i, j - 1);
      YearSavingNonNegative(p, j);
    }
  }

  lemma {:induction false} MonthCumulMonotone(p: Params, i: nat, j: nat)
    requires NonNegativeInputs(p) && i <= j
    ensures MonthCumul(p, i) <= MonthCumul(p, j)
  {
    if i < j {
      MonthCumulMonotone(p, i, j - 1);
      YearSavingNonNegative(p, YearOf(j));
    }
  }

  /** With non-negative energy saved and price, and a price that cannot go negative, the yearly cumulative never decreases. */
  lemma YearlyCumulNonDecreasing(p: Params)
    requires NonNegativeInputs(p)
    ensures forall i, j :: 0 <= i <= j <= p.life ==> Project(p).yearly[i].cumul <= Project(p).yearly[j].cumul
  {
    var r := Project(p);
    ProjectAt(p);
    forall i: nat, j: nat | i <= j <= p.life
      ensures r.yearly[i].cumul <= r.yearly[j].cumul
    {
      YearCumulMonotone(p, i, j);
    }
  }

  /** Under the same inputs the monthly cumulative never decreases either. */
  lemma MonthlyCumulNonDecreasing(p: Params)
    requires NonNegativeInputs(p)
    ensures forall i, j :: 0 <= i <= j <= 12 * p.life ==> Project(p).monthly[i].cumul <= Project(p).monthly[j].cumul
  {
    var r := Project(p);
    ProjectAt(p);
    forall i: nat, j: nat | i <= j <= 12 * p.life
      ensures r.monthly[i].cumul <= r.monthly[j].cumul
    {
      MonthCumulMonotone(p, i, j);
    }
  }

  /** k twelfths of an amount. */
  function Twelfths(k: nat, amount: real): real {
    (k as real) * amount / 12.0
  }

  /** Within year y the monthly cumulative grows by a twelfth of that year's savings each month. */
  lemma {:induction false} WithinYear(p: Params, y: nat, k: nat)
    requires 1 <= y && k <= 12
    ensures MonthCumul(p, 12 * (y - 1) + k) == MonthCumul(p, 12 * (y - 1)) + Twelfths(k, YearSaving(p, y))
  {
    if k > 0 {
      var s := YearSaving(p, y);
      WithinYear(p, y, k - 1);
      YearOfMonth(y, k);
      TwelfthsStep(k, s);
    }
  }

  lemma TwelfthsStep(k: nat, a: real)
    requires k >= 1
    ensures Twelfths(k - 1, a) + a / 12.0 == Twelfths(k, a)
  {
    var c := (k - 1) as real;
    assert (k as real) == c + 1.0;
    assert (c + 1.0) * a == c * a + a;
  }

  /**
   * At the end of every year the monthly cumulative lags the yearly one by
   * eleven twelfths of the seed year: the two seeds differ, the later
   * savings agree.
   */
  lemma {:induction false} MonthlyLagsYearly(p: Params, y: nat)
    ensures MonthCumul(p, 12 * y) == YearCumul(p, y) - 11.0 * Base(p) / 12.0
  {
    if y > 0 {
      MonthlyLagsYearly(p, y - 1);
      WithinYear(p, y, 12);
      assert 12 * (y - 1) + 12 == 12 * y;
    }
  }

  /** Under non-negative inputs, a payback month means the installation at least breaks even. */
  lemma PaybackImpliesBreakEven(p: Params)
    requires NonNegativeInputs(p) && Project(p).monthCount != 0
    ensures Project(p).totalProfit >= 0.0
  {
    var mc := Project(p).monthCount;
    ProjectAt(p);
    MonthCumulMonotone(p, mc, 12 * p.life);
    MonthlyLagsYearly(p, p.life);
    YearSavingNonNegative(p, 0);
  }

  /**
   * The converse fails. Under non-negative inputs and a lifespan of at least
   * one year, the installation is profitable without any payback month
   * exactly when the cost lies in a window just below the final yearly
   * cumulative, of width eleven twelfths of the seed year's savings.
   */
  lemma ProfitableWithoutPaybackWindow(p: Params)
    requires NonNegativeInputs(p) && p.life >= 1
    ensures var r := Project(p);
      (r.isProfitable && r.monthCount == 0)
        <==> r.yearly[p.life].cumul - 11.0 * Base(p) / 12.0 < p.installCost < r.yearly[p.life].cumul
  {
    var last := 12 * p.life;
    ProjectAt(p);
    MonthlyLagsYearly(p, p.life);
    if MonthCumul(p, last) < p.installCost {
      forall k | 1 <= k <= last
        ensures MonthCumul(p, k) < p.installCost
      {
        MonthCumulMonotone(p, k, last);
      }
    }
  }

  /** With no energy saved every saving is zero: profitable only for a negative cost, paid back only for a non-positive one. */
  lemma NoEnergySaved(p: Params)
    requires p.profitKwh == 0.0
    ensures forall y :: 0 <= y <= p.life ==> Project(p).yearly[y].yearly == 0.0 && Project(p).yearly[y].cumul == 0.0
    ensures forall m :: 0 <= m <= 12 * p.life ==> Project(p).monthly[m].monthly == 0.0 && Project(p).monthly[m].cumul == 0.0
    ensures Project(p).isProfitable <==> p.installCost < 0.0
    ensures Project(p).monthCount == 0 <==> p.life == 0 || p.installCost > 0.0
  {
    ProjectAt(p);
    forall y: nat | y <= p.life
      ensures YearCumul(p, y) == 0.0
    {
      YearCumulZero(p, y);
    }
    forall m: nat | m <= 12 * p.life
      ensures MonthCumul(p, m) == 0.0
    {
      MonthCumulZero(p, m);
    }
    if p.life > 0 && p.installCost <= 0.0 {
      MonthCumulZero(p, 1);
    }
  }

  lemma {:induction false} YearCumulZero(p: Params, y: nat)
    requires p.profitKwh == 0.0
    ensures YearCumul(p, y) == 0.0
  {
    if y > 0 {
      YearCumulZero(p, y - 1);
    }
  }

  lemma {:induction false} MonthCumulZero(p: Params, m: nat)
    requires p.profitKwh == 0.0
    ensures MonthCumul(p, m) == 0.0
  {
    if m > 0 {
      MonthCumulZero(p, m - 1);
    }
  }
}
