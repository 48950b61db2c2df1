/**
 * Input derivation of the battery calculator's `update` (src/script.js).
 *
 * When the user edits one form field, the calculator re-derives the other
 * fields. Power above the installation maximum is clamped, except that a
 * yield edit derives the power as yield / 0.9 without a clamp. Power and
 * yield are put in the 0.9 ratio when either one is edited. In each
 * self-consumption pair (percentage, absolute kWh/year) an edited absolute
 * value is kept and its percentage derived from it; otherwise the absolute
 * value is derived from the percentage. The energy saved per year is the
 * new self-consumption minus the old one.
 */
module Derivation {

  /** The ids of the form fields; `Initial` is the first call, made with no id. */
  datatype Field =
    | Power | Yield
    | SelfOldPct | SelfOld | SelfNewPct | SelfNew
    | Profit | PriceKwh | InstallCost | PriceInc | Lifespan
    | Initial

  /** Largest installation power the form accepts, in W. */
  const MaxPower: real := 10000.0

  /** Yearly yield per W of power (kWh/year). */
  const YieldFactor: real := 0.9

  /** The six energy fields of the form, already parsed. */
  datatype Fields = Fields(
    power: real,
    yieldKwh: real,
    selfOldPct: real,
    selfOld: real,
    selfNewPct: real,
    selfNew: real)

  /**
   * A percentage derived by division. Dividing by a zero yield gives NaN or
   * an infinity in the source; that value is only written back to the form
   * and never enters the energy saved, so it is kept as an explicit case.
   */
  datatype Percent = Finite(value: real) | NonFinite

  /** One self-consumption pair after derivation. */
  datatype Share = Share(pct: Percent, amount: real)

  /** The consistent state `update` works with after the derivation. */
  datatype Synced = Synced(
    power: real,
    yieldKwh: real,
    selfOld: Share,
    selfNew: Share,
    profitKwh: real)

  /** Absolute self-consumption for a percentage of the yield. */
  function ShareOf(yieldKwh: real, pct: real): real {
    yieldKwh * pct / 100.0
  }

  /** Percentage of the yield an absolute self-consumption represents. */
  function PercentOf(amount: real, yieldKwh: real): (r: Percent)
    ensures r.Finite? <==> yieldKwh != 0.0
    ensures r.Finite? ==> ShareOf(yieldKwh, r.value) == amount
  {
    if yieldKwh == 0.0 then NonFinite else Finite(amount / yieldKwh * 100.0)
  }

  /** The source's power limit: larger values are replaced by the maximum. */
  function ClampPower(p: real): (r: real)
    ensures r <= MaxPower && r <= p
    ensures r == p || r == MaxPower
  {
    if p > MaxPower then MaxPower else p
  }

  /** Power and yield after the power limit and the power/yield sync. */
  function SyncPowerYield(changed: Field, power: real, yieldKwh: real): (r: (real, real))
    ensures changed == Power ==> r.0 == ClampPower(power) && r.1 == YieldFactor * r.0
    ensures changed == Yield ==> r.1 == yieldKwh && r.0 * YieldFactor == yieldKwh
    ensures changed != Power && changed != Yield ==> r == (ClampPower(power), yieldKwh)
  {
    var p := ClampPower(power);
    if changed == Power then (p, p * YieldFactor)
    else if changed == Yield then (yieldKwh / YieldFactor, yieldKwh)
    else (p, yieldKwh)
  }

  /**
   * One self-consumption pair: when the absolute field was edited the
   * percentage is derived from it, otherwise the absolute value is derived
   * from the percentage.
   */
  function SyncShare(amountEdited: bool, yieldKwh: real, pct: real, amount: real): (r: Share)
    ensures amountEdited ==> r.amount == amount && (r.pct.Finite? <==> yieldKwh != 0.0)
    ensures !amountEdited ==> r.pct == Finite(pct)
    ensures r.pct.Finite? ==> r.amount == ShareOf(yieldKwh, r.pct.value)
  {
    if amountEdited then Share(PercentOf(amount, yieldKwh), amount)
    else Share(Finite(pct), ShareOf(yieldKwh, pct))
  }

  /** A pair whose absolute value is its percentage of the yield, when that is defined. */
  predicate ShareConsistent(s: Share, yieldKwh: real) {
    s.pct.Finite? ==> s.amount == ShareOf(yieldKwh, s.pct.value)
  }

  /** The derivation half of `update`: from the edited field and the parsed fields to a consistent state. */
  function Sync(changed: Field, f: Fields): (s: Synced)
    ensures changed != Yield ==> s.power == ClampPower(f.power) && s.power <= MaxPower
    ensures changed == Yield ==> s.power * YieldFactor == f.yieldKwh
    ensures changed == Power || changed == Yield ==> s.yieldKwh == YieldFactor * s.power
    ensures changed != Power ==> s.yieldKwh == f.yieldKwh
    ensures ShareConsistent(s.selfOld, s.yieldKwh) && ShareConsistent(s.selfNew, s.yieldKwh)
    ensures changed == SelfOld ==> s.selfOld.amount == f.selfOld
    ensures changed != SelfOld ==> s.selfOld.pct == Finite(f.selfOldPct)
    ensures changed == SelfNew ==> s.selfNew.amount == f.selfNew
    ensures changed != SelfNew ==> s.selfNew.pct == Finite(f.selfNewPct)
    ensures s.selfOld.pct.NonFinite? <==> changed == SelfOld && f.yieldKwh == 0.0
    ensures s.selfNew.pct.NonFinite? <==> changed == SelfNew && f.yieldKwh == 0.0
    ensures s.profitKwh == s.selfNew.amount - s.selfOld.amount
  {
    var (power, yieldKwh) := SyncPowerYield(changed, f.power, f.yieldKwh);
    var selfOld := SyncShare(changed == SelfOld, yieldKwh, f.selfOldPct, f.selfOld);
    var selfNew := SyncShare(changed == SelfNew, yieldKwh, f.selfNewPct, f.selfNew);
    Synced(power, yieldKwh, selfOld, selfNew, selfNew.amount - selfOld.amount)
  }

  /**
   * The fields the form shows after a derivation whose percentages are
   * finite. Both pairs written back are consistent, so with a non-zero yield
   * deriving either percentage again from its absolute value gives it back.
   */
  function Shown(s: Synced): (f: Fields)
    requires s.selfOld.pct.Finite? && s.selfNew.pct.Finite?
    requires ShareConsistent(s.selfOld, s.yieldKwh) && ShareConsistent(s.selfNew, s.yieldKwh)
    ensures f.selfOld == ShareOf(f.yieldKwh, f.selfOldPct) && f.selfNew == ShareOf(f.yieldKwh, f.selfNewPct)
    ensures f.yieldKwh != 0.0 ==> PercentOf(f.selfOld, f.yieldKwh) == Finite(f.selfOldPct)
    ensures f.yieldKwh != 0.0 ==> PercentOf(f.selfNew, f.yieldKwh) == Finite(f.selfNewPct)
  {
    Fields(s.power, s.yieldKwh, s.selfOld.pct.value, s.selfOld.amount, s.selfNew.pct.value, s.selfNew.amount)
  }

  /** Editing a percentage and then the matching absolute field gives the percentage back. */
  lemma PercentRoundTrip(yieldKwh: real, pct: real)
    requires yieldKwh != 0.0
    ensures PercentOf(ShareOf(yieldKwh, pct), yieldKwh) == Finite(pct)
  {
  }

  /**
   * When neither absolute field was edited, the energy saved is the yield
   * times the difference of the two percentages.
   */
  lemma ProfitFromPercentages(changed: Field, f: Fields)
    requires changed != SelfOld && changed != SelfNew
    ensures Sync(changed, f).profitKwh == ShareOf(Sync(changed, f).yieldKwh, f.selfNewPct - f.selfOldPct)
  {
  }

  /**
   * The derivation is a projection: deriving again, for the same edited
   * field, from the fields it produced changes nothing.
   */
  lemma SyncIdempotent(changed: Field, f: Fields)
    requires Sync(changed, f).selfOld.pct.Finite? && Sync(changed, f).selfNew.pct.Finite?
    ensures Sync(changed, Shown(Sync(changed, f))) == Sync(changed, f)
  {
  }
}
