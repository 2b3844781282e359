/** The Payment Analysis page: the share of each common payment method,
    and the average payment value per method. */
module Payments {
  import opened Tables
  import opened Keys
  import opened Ranking
  import opened Aggregates
  import opened Schema

  /** A method needs more rows than this to get a slice of the pie
      (line 538). */
  const PieThreshold: nat := 1000

  /** The placeholder payment type left out of the averages (line 554). */
  const NotDefined: string := "not_defined"

  function PaymentType(p: Payment): string { p.paymentType }

  function Above(n: nat): Tally<string> -> bool { (t: Tally<string>) => t.n > n }

  /** Lines 537-538: `value_counts()` of the payment types, keeping the
      types with more than PieThreshold rows. */
  function PaymentDistribution(payments: seq<Payment>): seq<Tally<string>>
  {
    Filter(ValueCounts(Map(payments, PaymentType)), Above(PieThreshold))
  }

  /** The pie: one slice per payment type with more than PieThreshold rows,
      and none for any other type, each with its number of rows, largest
      first. */
  lemma PaymentDistributionFacts(payments: seq<Payment>)
    ensures var types := Map(payments, PaymentType);
      var d := PaymentDistribution(payments);
      && SortedDesc(d, TallyCount)
      && (forall t :: t in d ==> t.n == multiset(types)[t.key] && t.n > PieThreshold)
      && forall k :: multiset(types)[k] > PieThreshold <==> Tally(k, multiset(types)[k]) in d
  {
    var types := Map(payments, PaymentType);
    FilterSortedDesc(ValueCounts(types), Above(PieThreshold), TallyCount);
  }

  function PaymentObs(p: Payment): Obs { Obs(p.paymentType, Some(p.value)) }

  function PaymentValue(p: Payment): real { p.value }

  function OfType(k: string): Payment -> bool { (p: Payment) => p.paymentType == k }

  function GroupNot(k: string): Group -> bool { (g: Group) => g.key != k }

  function ObsNot(k: string): Obs -> bool { (o: Obs) => o.key != k }

  /** Lines 553-554: the mean payment value per payment type, in type
      order, without the 'not_defined' type. */
  function AveragePurchase(payments: seq<Payment>): seq<Group>
  {
    Filter(GroupBy(Map(payments, PaymentObs)), GroupNot(NotDefined))
  }

  /** The values grouped under a type are the values of that type's
      payments, in row order. */
  lemma {:induction false} PaymentValues(payments: seq<Payment>, k: string)
    ensures Values(Map(payments, PaymentObs), k) == Map(Filter(payments, OfType(k)), PaymentValue)
  {
    if payments != [] {
      PaymentValues(payments[1..], k);
      assert Map(payments, PaymentObs)[1..] == Map(payments[1..], PaymentObs);
      var h := if payments[0].paymentType == k then [payments[0]] else [];
      MapConcat(h, Filter(payments[1..], OfType(k)), PaymentValue);
    }
  }

  /** The averages: one bar per payment type other than 'not_defined' that
      occurs, in type order. */
  lemma AveragePurchaseKeys(payments: seq<Payment>)
    ensures StrictlySorted(GroupKeys(AveragePurchase(payments)))
    ensures forall k :: k in GroupKeys(AveragePurchase(payments)) <==> k in Map(payments, PaymentType) && k != NotDefined
  {
    var obs := Map(payments, PaymentObs);
    assert Labels(obs) == Map(payments, PaymentType);
    AverageKeys(GroupBy(obs), AveragePurchase(payments));
  }

  /** A type's bar is the mean of that type's payment values. */
  lemma AverageOfType(payments: seq<Payment>, g: Group)
    requires g in AveragePurchase(payments)
    ensures var vs := Map(Filter(payments, OfType(g.key)), PaymentValue);
      vs != [] && g.mean == Some(Sum(vs) / (|vs| as real))
  {
    PaymentValues(payments, g.key);
    CountIsSize(Map(payments, PaymentObs), g.key);
  }

  lemma AverageKeys(g: seq<Group>, a: seq<Group>)
    requires StrictlySorted(GroupKeys(g))
    requires a == Filter(g, GroupNot(NotDefined))
    ensures StrictlySorted(GroupKeys(a))
    ensures forall k :: k in GroupKeys(a) <==> k in GroupKeys(g) && k != NotDefined
  {
    forall k ensures k in GroupKeys(a) <==> k in GroupKeys(g) && k != NotDefined {
      if k in GroupKeys(a) {
        var x := MapWitness(a, GroupKey, k);
        MapMember(g, GroupKey, x);
      }
      if k in GroupKeys(g) && k != NotDefined {
        var x := MapWitness(g, GroupKey, k);
        MapMember(a, GroupKey, x);
      }
    }
    MapFilterSorted(g, GroupNot(NotDefined), GroupKey);
  }

  /** Dropping 'not_defined' after grouping gives the groups of the
      payments of every other type. */
  lemma NotDefinedBeforeGrouping(payments: seq<Payment>)
    ensures AveragePurchase(payments) == GroupBy(Filter(Map(payments, PaymentObs), ObsNot(NotDefined)))
  {
    var obs := Map(payments, PaymentObs);
    var S := set k | k in Labels(obs) && k != NotDefined;
    GroupByFilter(obs, S);
    GroupsNot(GroupBy(obs), Labels(obs), S);
    ObsNotIn(obs, S);
  }

  lemma GroupsNot(g: seq<Group>, labels: seq<string>, S: set<string>)
    requires forall k :: k in GroupKeys(g) <==> k in labels
    requires S == set k | k in labels && k != NotDefined
    ensures Filter(g, GroupNot(NotDefined)) == Filter(g, GroupIn(S))
  {
    forall x | x in g ensures GroupNot(NotDefined)(x) == GroupIn(S)(x) {
      MapMember(g, GroupKey, x);
    }
    FilterSameOn(g, GroupNot(NotDefined), GroupIn(S));
  }

  lemma ObsNotIn(obs: seq<Obs>, S: set<string>)
    requires S == set k | k in Labels(obs) && k != NotDefined
    ensures Filter(obs, ObsNot(NotDefined)) == Filter(obs, LabelIn(S))
  {
    forall o | o in obs ensures ObsNot(NotDefined)(o) == LabelIn(S)(o) {
      MapMember(obs, Label, o);
    }
    FilterSameOn(obs, ObsNot(NotDefined), LabelIn(S));
  }

}
