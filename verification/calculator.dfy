/**
 * The whole of `update` (src/script.js) without the page: the derivation of
 * the energy fields followed by the projection of the savings, with the
 * energy saved per year handed from one to the other.
 */
module Calculator {
  import opened Derivation
  import opened Projection

  /** Every form field `update` reads, already parsed. */
  datatype Inputs = Inputs(
    fields: Fields,
    price: real,
    installCost: real,
    priceIncPct: real,
    life: nat)

  /** The derived fields and the projection built from them. */
  datatype View = View(synced: Synced, outcome: Outcome)

  /** The projection inputs once the energy saved per year is known. */
  function ParamsOf(s: Synced, i: Inputs): Params {
    Params(s.profitKwh, i.price, i.installCost, i.priceIncPct, i.life)
  }

  /** One call of `update` after the field `changed` was edited. */
  function Update(changed: Field, i: Inputs): (v: View)
    ensures v.synced == Sync(changed, i.fields)
    ensures Satisfies(ParamsOf(v.synced, i), v.outcome)
  {
    var s := Sync(changed, i.fields);
    View(s, Project(ParamsOf(s, i)))
  }

  /**
   * The default form: 3600 kWh/year of yield, 30% and 75% self-consumption
   * at 0.41 per kWh save 1620 kWh and 664.2 in the seed year. On the first
   * call the power and the two absolute fields do not enter the energy saved.
   */
  lemma DefaultScenario(i: Inputs)
    requires i.fields.yieldKwh == 3600.0 && i.fields.selfOldPct == 30.0 && i.fields.selfNewPct == 75.0
    requires i.price == 0.41
    ensures Update(Initial, i).synced.profitKwh == 1620.0
    ensures Update(Initial, i).outcome.yearly[0].cumul == 664.2
  {
  }

  /**
   * Equal old and new self-consumption percentages save nothing: the
   * installation is profitable exactly when the cost is negative, and it is
   * paid back exactly when the lifespan is at least one year and the cost
   * is not positive.
   */
  lemma EqualSelfConsumption(changed: Field, i: Inputs)
    requires changed != SelfOld && changed != SelfNew
    requires i.fields.selfOldPct == i.fields.selfNewPct
    ensures Update(changed, i).synced.profitKwh == 0.0
    ensures Update(changed, i).outcome.isProfitable <==> i.installCost < 0.0
    ensures Update(changed, i).outcome.monthCount == 0 <==> i.life == 0 || i.installCost > 0.0
  {
    var s := Sync(changed, i.fields);
    ProfitFromPercentages(changed, i.fields);
    NoEnergySaved(ParamsOf(s, i));
  }
}
