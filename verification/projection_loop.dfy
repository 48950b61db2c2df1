/**
 * The projection as `update` (src/script.js) runs it: an outer loop over the
 * years and an inner loop over the twelve months of each year, appending to
 * both series and reading each new record's inputs from the record before it.
 * The inner loop is its own method here so that each loop is verified on its
 * own; the state it shares with the outer loop (the monthly series, the
 * month counter, `monthCount` and `keepCounting`) is passed in and out.
 */
module ProjectionLoop {
  import opened Projection

  /** Builds both series with the source's nested loops; the outcome is the functional projection. */
  method ProjectLoop(p: Params) returns (r: Outcome)
    ensures |r.yearly| == p.life + 1 && |r.monthly| == 12 * p.life + 1
    ensures r == Project(p)
  {
    var base := p.profitKwh * p.price;
    var inc := Inc(p);
    var dataYearly := [YearRecord(0, p.price, base, base)];
    var dataMonthly := [MonthRecord(0, p.price, base / 12.0, base / 12.0)];
    var keepCounting := true;
    var month: nat := 1;
    var monthCount: nat := 0;
    var y: nat := 1;
    assert YearRec(p, 0) == dataYearly[0];
    while y <= p.life
      invariant 1 <= y <= p.life + 1
      invariant |dataYearly| == y
      invariant month == 12 * (y - 1) + 1
      invariant dataYearly == YearSeries(p, y - 1)
      invariant MonthsThrough(p, month - 1, dataMonthly, monthCount, keepCounting)
    {
      var prevPriceKwh := dataYearly[y - 1].priceKwh;
      var prevCumul := dataYearly[y - 1].cumul;
      var newPriceKwh := Escalate(prevPriceKwh, inc);
      var yearBase := Worth(newPriceKwh, p.profitKwh);
      YearFollows(p, y);
      dataYearly := dataYearly + [YearRecord(y, newPriceKwh, yearBase, prevCumul + yearBase)];
      dataMonthly, month, monthCount, keepCounting :=
        MonthsOfYear(p, y, newPriceKwh, yearBase, dataMonthly, month, monthCount, keepCounting);
      y := y + 1;
    }
    var totalProfit := dataYearly[p.life].cumul - p.installCost;
    r := Outcome(dataYearly, dataMonthly, monthCount, totalProfit, totalProfit > 0.0);
  }

  /** Months 0..n are built, and the payback month and the flag are as the source leaves them after month n. */
  predicate MonthsThrough(p: Params, n: nat, monthly: seq<MonthRecord>, count: nat, keep: bool) {
    && monthly == MonthSeries(p, n)
    && count == Payback(monthly, p.installCost, n)
    && (keep <==> count == 0)
  }

  /** The inner loop: appends the twelve months of year `y` and tests each for payback. */
  method MonthsOfYear(p: Params, y: nat, newPriceKwh: real, yearBase: real,
                      dataMonthly: seq<MonthRecord>, month: nat, monthCount: nat, keepCounting: bool)
    returns (monthly: seq<MonthRecord>, curMonth: nat, count: nat, keep: bool)
    requires 1 <= y
    requires newPriceKwh == YearRec(p, y).priceKwh && yearBase == YearRec(p, y).yearly
    requires month == |dataMonthly|
    requires MonthsThrough(p, 12 * (y - 1), dataMonthly, monthCount, keepCounting)
    ensures curMonth == month + 12
    ensures MonthsThrough(p, curMonth - 1, monthly, count, keep)
  {
    monthly, curMonth, count, keep := dataMonthly, month, monthCount, keepCounting;
    var i := 1;
    while i <= 12
      invariant 1 <= i <= 13
      invariant curMonth == month + i - 1 == |monthly|
      invariant MonthsThrough(p, curMonth - 1, monthly, count, keep)
    {
      YearOfMonth(y, i);
      NextMonth(p, y, curMonth, monthly[curMonth - 1], newPriceKwh, yearBase);
      var prevMonthCumul := monthly[curMonth - 1].cumul;
      var thisMonthProfit := yearBase / 12.0;
      var cumul := prevMonthCumul + thisMonthProfit;
      var record := MonthRecord(curMonth, newPriceKwh, yearBase / 12.0, cumul);
      assert monthly + [record] == MonthSeries(p, curMonth);
      FlagStep(monthly, record, p.installCost, count, keep);
      monthly := monthly + [record];
      if cumul >= p.installCost && keep {
        count := curMonth;
        keep := false;
      }
      curMonth := curMonth + 1;
      i := i + 1;
    }
  }

  /** One month of the source's flag logic tracks the payback month of the series extended by that month. */
  lemma FlagStep(s: seq<MonthRecord>, x: MonthRecord, cost: real, count: nat, keep: bool)
    requires |s| >= 1 && count == Payback(s, cost, |s| - 1) && (keep <==> count == 0)
    ensures var count' := if x.cumul >= cost && keep then |s| else count;
      && count' == Payback(s + [x], cost, |s|)
      && (keep && x.cumul < cost <==> count' == 0)
  {
    PaybackNext(s, x, cost);
  }
}
