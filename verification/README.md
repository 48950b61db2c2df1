# Battery profit calculator — Dafny model of `update`

The calculator estimates whether a home battery pays for itself. Each time a
form field changes, `update` (src/script.js) does two things:

1. **Derivation.** It re-derives the dependent fields:
   - power above 10000 W is clamped, except that a yield edit derives the
     power as yield / 0.9 without a clamp;
   - power and yield are put in the 0.9 ratio when either one is edited;
   - in each self-consumption pair (percentage and kWh/year) an edited
     absolute value is kept and its percentage derived from it; otherwise
     the absolute value is derived from the percentage;
   - the energy saved per year is the new self-consumption minus the old one.
2. **Projection.** It turns the energy saved into two series:
   - a yearly series of savings, with the price escalated once a year;
   - a monthly series, with a twelfth of the year's savings each month.

   From these it records the first month whose cumulative savings reach the
   installation cost. It also compares the final yearly cumulative with that
   cost.

The project has four modules:

- `Derivation` (derivation.dfy) models the field derivation.
- `Projection` (projection.dfy) states the projection functionally:
  - one recursive definition per quantity;
  - a declarative description (`Satisfies`) that pins the outcome down;
  - the lemmas about payback and profitability.
- `ProjectionLoop` (projection_loop.dfy) runs the source's nested year and
  month loops and proves that they compute `Projection.Project`.
- `Calculator` (calculator.dfy) composes the two halves the way `update`
  does.

Quantities are modelled as mathematical reals and the lifespan as a natural
number.

## Behaviour worth knowing

The model keeps each of these behaviours of the code:

- **Price increase.** The price-increase field is divided by 100 when it is
  parsed (line 56) and again in the escalation (line 116). The yearly price
  factor is therefore 1 + pct/10000: a field value of 4 raises the price by
  0.04% a year. `PriceClosedForm` states this.
- **Payback month when not profitable.** The code keeps the month it found
  even when the installation is not profitable. Only the summary text
  (lines 161-165) and the chart's payback marker (lines 238-254) hide it.
- **Two different seeds.** Profitability reads the yearly cumulative, which is
  seeded with a whole year of savings. Payback reads the monthly cumulative,
  which is seeded with one twelfth of it. As a result:
  - an installation can be profitable without ever being paid back
    (`ProfitableWithoutPaybackWindow`);
  - the monthly series lags the yearly one by eleven twelfths of the seed
    year (`MonthlyLagsYearly`).
- **Month 0.** Month 0 is never compared with the cost. Under non-negative
  inputs the month before the payback month can therefore already reach the
  cost (`PaybackIgnoresSeed`), and with no crossing the payback month is 0.
- **Zero yield.** Editing an absolute self-consumption with a zero yield
  divides by zero and writes a non-finite percentage back to the form. That
  value never reaches the energy saved; `Derivation.Percent.NonFinite`
  models it.

## Model

| member | source | states |
|---|---|---|
| Derivation.ClampPower | src/script.js:59-64 | the power never exceeds the 10000 W maximum or the entered value, and is one of the two |
| Derivation.SyncPowerYield | src/script.js:66-73 | editing power sets yield to 0.9 × the clamped power; editing yield keeps it and derives a power that gives it back at 0.9; otherwise only the clamp applies |
| Derivation.PercentOf | src/script.js:79-81 | the derived percentage is finite exactly when the yield is non-zero, and then gives back the edited absolute value |
| Derivation.SyncShare | src/script.js:75-85 | an edited absolute value is kept and its percentage derived; otherwise the percentage is kept; a finite percentage always matches the absolute value |
| Derivation.Sync | src/script.js:59-100 | the derived power is the clamped entered power unless yield was edited, when it is the power that gives the yield back at 0.9; the derived state keeps the 0.9 ratio when power or yield was edited, and both pairs consistent; a percentage is non-finite only when its absolute field was edited with zero yield; the energy saved is new minus old self-consumption |
| Derivation.Shown | src/script.js:75-96 | the self-consumption fields written back after a derivation with finite percentages are consistent with the yield, and with a non-zero yield each percentage is derived back from its absolute value |
| Derivation.PercentRoundTrip | src/script.js:76-81 | with a non-zero yield, deriving the absolute value from a percentage and the percentage back from it returns the percentage |
| Derivation.ProfitFromPercentages | src/script.js:99-100 | when neither absolute field was edited, the energy saved is the yield times the difference of the two percentages |
| Derivation.SyncIdempotent | src/script.js:66-97 | deriving again from the fields the derivation wrote back, for the same edited field, changes nothing |
| Projection.Payback | src/script.js:109-142 | the `monthCount`/`keepCounting` logic over months 1..last; its result is never past the last month checked, and `PaybackFirstCrossing` characterises it fully |
| Projection.PaybackFirstCrossing | src/script.js:138-142 | the payback month is the first month after month 0 whose cumulative reaches the cost, and 0 exactly when no such month exists |
| Projection.PaybackStable | src/script.js:138-142 | once a payback month is recorded, checking later months never changes it |
| Projection.PaybackNext | src/script.js:138-142 | checking one more month keeps an earlier payback month, else takes the new month if it reaches the cost |
| Projection.Project | src/script.js:104-151 | the outcome has life+1 yearly and 12·life+1 monthly records, the seeds, each year escalating the price and adding its savings, each month adding a twelfth of its year, the first crossing as payback month, and total profit and profitability from the final yearly cumulative |
| Projection.SatisfiesUnique | src/script.js:106-151 | two outcomes meeting `Satisfies` for the same inputs are equal: the lengths, seeds, steps, first crossing and profit leave no freedom |
| Projection.SatisfiesDeterminesOutcome | src/script.js:106-151 | any outcome meeting `Satisfies` (the lengths, seeds, yearly and monthly steps, first crossing and profit of `update`) is the projection's outcome: `Satisfies` determines it uniquely |
| Projection.SeedMonthSkipped | src/script.js:109-112 | with a lifespan of 0 only the seed month exists and the payback month is 0 whatever the cost |
| Projection.PaybackIgnoresSeed | src/script.js:107-110 | under non-negative inputs and a lifespan of at least one year, when the seed month already covers the cost, month 1 is reported as the payback month |
| Projection.PriceClosedForm | src/script.js:116 | the price in year y is the starting price times (1 + pct/10000) to the power y |
| Projection.YearlyCumulNonDecreasing | src/script.js:116-124 | with non-negative energy and price and an increase of at least -10000, the yearly cumulative never decreases from one year to any later one |
| Projection.MonthlyCumulNonDecreasing | src/script.js:126-136 | under the same inputs the monthly cumulative never decreases from one month to any later one, across year boundaries |
| Projection.WithinYear | src/script.js:126-136 | within a year the monthly cumulative grows by a twelfth of that year's savings per month |
| Projection.MonthlyLagsYearly | src/script.js:106-136 | at the end of each year the monthly cumulative is the yearly cumulative minus eleven twelfths of the seed year's savings |
| Projection.PaybackImpliesBreakEven | src/script.js:138-150 | under non-negative inputs a recorded payback month implies a total profit of at least 0 |
| Projection.ProfitableWithoutPaybackWindow | src/script.js:150-151 | under non-negative inputs and a lifespan of at least one year, the installation is profitable with no payback month exactly when the cost lies within eleven twelfths of the seed year below the final yearly cumulative |
| Projection.NoEnergySaved | src/script.js:104-151 | with no energy saved all savings and cumulatives are 0; the installation is profitable exactly for a negative cost and paid back exactly for a positive lifespan and a non-positive cost |
| ProjectionLoop.ProjectLoop | src/script.js:109-150 | the source's nested loops build series of the expected lengths and compute exactly the functional projection |
| ProjectionLoop.MonthsOfYear | src/script.js:126-145 | the inner loop appends the twelve months of the year to the monthly series and keeps the payback month equal to the first crossing so far |
| ProjectionLoop.FlagStep | src/script.js:138-142 | one month of the `keepCounting` flag logic leaves the payback month equal to the first crossing over the series extended by that month, and the flag still set exactly when none has been found |
| Calculator.Update | src/script.js:46-151 | one call derives the fields and projects from the derived energy saved; the outcome meets `Satisfies` for the energy saved that the derivation produced |
| Calculator.DefaultScenario | src/script.js:9-18 | the default form saves 1620 kWh a year and 664.2 in the seed year |
| Calculator.EqualSelfConsumption | src/script.js:83-100 | equal old and new percentages save nothing: profitable exactly for a negative cost, paid back exactly for a positive lifespan and a non-positive cost |

## Left out

- Reading the form (`+x || 0`): the model starts from parsed numbers. The coercion of an empty or non-numeric field to 0 is not modelled, nor are the DOM write-backs other than the derived values themselves.
- Rounding (`rnd`) of the values written back to the form: the model uses exact reals, so a later call sees the exact derived value rather than the rounded one.
- Floating point: 0.9, 0.41, the divisions by 12 and by 100 and the non-finite results are exact reals or the explicit `NonFinite` case. NaN and the two infinities are not told apart.
- The write-back of the energy saved into the new self-consumption field (line 101): the model keeps the derived self-consumption there, so a later edit of that field does not start from the energy saved as it does in the source.
- Derivation.SyncIdempotent: re-derives from the derived self-consumption rather than the energy saved that line 101 writes over it, because that overwrite is not modelled.
- Negative or fractional lifespans: the lifespan is a natural number. For a negative or fractional value the source reads `dataYearly[life]`, which is undefined, and throws a TypeError on its `.cumul` (line 150).
- The summary text, the average yearly saving and its division by zero at lifespan 0, and the colour choice: presentation only.
- `drawChart`, `drawTable`, the event listeners, `initDefaults` (other than the defaults used in `DefaultScenario`), `console.log`: rendering, I/O and logging. The error toast for an exceeded power (line 61) is commented out in the source.
- webpack.config.js: build configuration.
