/**
 * The cost normalisation of a `Subscription` row (app.py): the per-month and
 * per-year figures computed from an amount and a Portuguese recurrence tag,
 * and the dashboard's monthly total.
 *
 * Amounts are `real`: the model ignores floating-point rounding.
 */
module Subscriptions {

  /** Recurrence tags the cost tables know; any other string falls to an `else` branch. */
  const Mensal := "mensal"
  const Anual := "anual"
  const Semanal := "semanal"
  const Semestral := "semestral"

  /** Average number of weeks per month used by the weekly row of `monthly_cost`. */
  const WeeksPerMonth: real := 4.33

  /** A stored subscription. The recurrence is free text: nothing validates it. */
  datatype Subscription = Subscription(
    name: string,
    amount: real,
    currency: string,
    nextPayment: string,
    recurrence: string)

  /**
   * `monthly_cost`: what the subscription costs per month. A yearly payment is
   * spread over twelve months, a half-yearly one over six, a weekly one is
   * charged 4.33 times a month; `mensal` and every unknown tag are taken as
   * already monthly.
   */
  function MonthlyCost(s: Subscription): (r: real)
    ensures s.recurrence == Anual ==> 12.0 * r == s.amount
    ensures s.recurrence == Semestral ==> 6.0 * r == s.amount
    ensures s.recurrence == Semanal ==> r == WeeksPerMonth * s.amount
    ensures s.recurrence !in {Anual, Semanal, Semestral} ==> r == s.amount
    ensures 0.0 <= s.amount ==> 0.0 <= r
  {
    if s.recurrence == Anual then s.amount / 12.0
    else if s.recurrence == Semanal then s.amount * WeeksPerMonth
    else if s.recurrence == Semestral then s.amount / 6.0
    else s.amount
  }

  /**
   * `annual_cost`: what the subscription costs per year. A monthly payment is
   * paid twelve times, a weekly one 52 times, a half-yearly one twice; `anual`
   * and every unknown tag are taken as already yearly.
   */
  function AnnualCost(s: Subscription): (r: real)
    ensures s.recurrence == Mensal ==> r == 12.0 * s.amount
    ensures s.recurrence == Semanal ==> r == 52.0 * s.amount
    ensures s.recurrence == Semestral ==> r == 2.0 * s.amount
    ensures s.recurrence !in {Mensal, Semanal, Semestral} ==> r == s.amount
    ensures 0.0 <= s.amount ==> 0.0 <= r
  {
    if s.recurrence == Mensal then s.amount * 12.0
    else if s.recurrence == Semanal then s.amount * 52.0
    else if s.recurrence == Semestral then s.amount * 2.0
    else s.amount
  }

  /**
   * The two tables agree (a year is twelve months) exactly for `mensal`,
   * `anual` and `semestral`, or for a zero amount. A weekly subscription's
   * year is 52 weeks but its twelve months are 51.96 weeks; an unknown tag is
   * read as monthly by one table and as yearly by the other.
   */
  lemma AnnualIsTwelveMonths(s: Subscription)
    ensures AnnualCost(s) == 12.0 * MonthlyCost(s)
            <==> s.recurrence in {Mensal, Anual, Semestral} || s.amount == 0.0
    ensures s.recurrence == Semanal ==> AnnualCost(s) - 12.0 * MonthlyCost(s) == s.amount / 25.0
    ensures s.recurrence !in {Mensal, Anual, Semanal, Semestral} ==>
              AnnualCost(s) == MonthlyCost(s) == s.amount
  {
    if s.recurrence == Semanal {
      assert 12.0 * MonthlyCost(s) == 51.96 * s.amount;
    }
  }

  /** Both costs are linear in the amount: scaling and adding amounts commute with them. */
  lemma CostsAreLinear(s: Subscription, k: real, extra: real)
    ensures MonthlyCost(s.(amount := k * s.amount + extra))
            == k * MonthlyCost(s) + MonthlyCost(s.(amount := extra))
    ensures AnnualCost(s.(amount := k * s.amount + extra))
            == k * AnnualCost(s) + AnnualCost(s.(amount := extra))
  {
  }

  /**
   * `total_mensal` on the dashboard: `sum(sub.monthly_cost for sub in subs)`,
   * added from 0 in list order. With no negative amount the total is not
   * negative either.
   */
  function TotalMonthly(subs: seq<Subscription>): (r: real)
    ensures subs == [] ==> r == 0.0
    ensures (forall i :: 0 <= i < |subs| ==> 0.0 <= subs[i].amount) ==> 0.0 <= r
  {
    if |subs| == 0 then 0.0
    else TotalMonthly(subs[..|subs| - 1]) + MonthlyCost(subs[|subs| - 1])
  }

  /** The total of a concatenation is the sum of the totals. */
  lemma {:induction false} TotalMonthlyAppend(a: seq<Subscription>, b: seq<Subscription>)
    ensures TotalMonthly(a + b) == TotalMonthly(a) + TotalMonthly(b)
    decreases |b|
  {
    if |b| == 0 {
      assert a + b == a;
    } else {
      var front := b[..|b| - 1];
      assert (a + b)[..|a + b| - 1] == a + front;
      TotalMonthlyAppend(a, front);
    }
  }

  /**
   * Summing from the first subscription instead of the last gives the same
   * dashboard total.
   */
  lemma {:induction false} TotalMonthlyFromFront(subs: seq<Subscription>)
    requires |subs| > 0
    ensures TotalMonthly(subs) == MonthlyCost(subs[0]) + TotalMonthly(subs[1..])
  {
    assert subs == [subs[0]] + subs[1..];
    TotalMonthlyAppend([subs[0]], subs[1..]);
    assert [subs[0]][..0] == [];
  }
}
