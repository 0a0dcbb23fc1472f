/** The rate table: time-of-day intervals with their fees, and the seed the store starts with. */
module TaxRates {
  import opened Clock
  import opened Repository

  /** `TaxRate`: an interval of clock times and its fee (its id is carried by `Identified`). */
  datatype TaxRate = TaxRate(startTime: SecondOfDay, endTime: SecondOfDay, amount: int) {

    /** The rate-lookup filter: the gate time lies strictly after the start and strictly before the end. */
    predicate Applies(gateTime: SecondOfDay) {
      startTime < gateTime < endTime
    }
  }

  /** The ten intervals the repository is seeded with, in insertion order. */
  const SeedRates: seq<TaxRate> := [
    TaxRate(TimeOf(6, 0), TimeOf(6, 29), 8),
    TaxRate(TimeOf(6, 30), TimeOf(6, 59), 13),
    TaxRate(TimeOf(7, 0), TimeOf(7, 59), 18),
    TaxRate(TimeOf(8, 0), TimeOf(8, 29), 13),
    TaxRate(TimeOf(8, 30), TimeOf(14, 59), 8),
    TaxRate(TimeOf(15, 0), TimeOf(15, 29), 13),
    TaxRate(TimeOf(15, 30), TimeOf(16, 59), 18),
    TaxRate(TimeOf(17, 0), TimeOf(17, 59), 13),
    TaxRate(TimeOf(18, 0), TimeOf(18, 29), 8),
    TaxRate(TimeOf(18, 30), TimeOf(5, 59), 0)
  ]

  /** The seed as `findAll` lists it after construction: ids 1 to 10 in insertion order. */
  const SeedRateTable: seq<Identified<TaxRate>> := [
    Identified(1, SeedRates[0]), Identified(2, SeedRates[1]), Identified(3, SeedRates[2]),
    Identified(4, SeedRates[3]), Identified(5, SeedRates[4]), Identified(6, SeedRates[5]),
    Identified(7, SeedRates[6]), Identified(8, SeedRates[7]), Identified(9, SeedRates[8]),
    Identified(10, SeedRates[9])
  ]

  /** The seeded table numbers the seed rates 1 to 10 in order. */
  lemma SeedTableNumbersSeedRates()
    ensures |SeedRateTable| == |SeedRates|
    ensures forall i :: 0 <= i < |SeedRateTable| ==> SeedRateTable[i] == Identified(i + 1, SeedRates[i])
    ensures Entities(SeedRateTable) == SeedRates
  {
  }

  /** `SeedRateTable` is what ten successive appends to an empty listing build. */
  lemma SeedTableByAppends()
    ensures SeedRateTable ==
      []
      + [Identified(1, SeedRates[0])]
      + [Identified(2, SeedRates[1])]
      + [Identified(3, SeedRates[2])]
      + [Identified(4, SeedRates[3])]
      + [Identified(5, SeedRates[4])]
      + [Identified(6, SeedRates[5])]
      + [Identified(7, SeedRates[6])]
      + [Identified(8, SeedRates[7])]
      + [Identified(9, SeedRates[8])]
      + [Identified(10, SeedRates[9])]
  {
  }

  /** No clock time lies in the open intervals of two different rates. */
  ghost predicate OpenIntervalsDisjoint(rates: seq<TaxRate>) {
    forall i, j, t: SecondOfDay :: 0 <= i < j < |rates| && rates[i].Applies(t) ==> !rates[j].Applies(t)
  }

  /** The seeded amounts, in order. */
  lemma SeedAmounts()
    ensures |SeedRates| == 10
    ensures forall i :: 0 <= i < 10 ==> SeedRates[i].amount == [8, 13, 18, 13, 8, 13, 18, 13, 8, 0][i]
  {
  }

  /** The first nine intervals are proper (start before end) and follow one another. */
  lemma SeedIntervalsAscend()
    ensures forall i :: 0 <= i < 9 ==> SeedRates[i].startTime < SeedRates[i].endTime
    ensures forall i, j :: 0 <= i < j < 9 ==> SeedRates[i].endTime < SeedRates[j].startTime
  {
  }

  /** The last, overnight interval 18:30 -> 05:59 has its start after its end, so it applies to no time. */
  lemma OvernightRateNeverApplies(t: SecondOfDay)
    ensures SeedRates[9].startTime > SeedRates[9].endTime
    ensures !SeedRates[9].Applies(t)
  {
  }

  /** The seeded intervals are pairwise disjoint, so table order cannot change a lookup. */
  lemma {:induction false} SeedIntervalsDisjoint()
    ensures OpenIntervalsDisjoint(SeedRates)
  {
    SeedIntervalsAscend();
    forall i, j, t: SecondOfDay | 0 <= i < j < |SeedRates| && SeedRates[i].Applies(t)
      ensures !SeedRates[j].Applies(t)
    {
      OvernightRateNeverApplies(t);
      if j < 9 {
        assert SeedRates[i].endTime < SeedRates[j].startTime;
      }
    }
  }

  /** `TaxRateRepository`: an `InMemoryRepository<TaxRate>` that starts with the seed table. */
  class TaxRateRepository {
    const store: InMemoryRepository<TaxRate>

    ghost predicate Valid()
      reads this, store
    {
      store.Valid()
    }

    /** Ten `save` calls, one per seeded interval, giving them ids 1 to 10 in order. */
    constructor ()
      ensures Valid() && fresh(store)
      ensures store.FindAll() == SeedRateTable
      ensures store.idGenerator == |SeedRates| + 1
    {
      store := new InMemoryRepository<TaxRate>();
      new;
      var saved := store.Save(SeedRates[0]);
      saved := store.Save(SeedRates[1]);
      saved := store.Save(SeedRates[2]);
      saved := store.Save(SeedRates[3]);
      saved := store.Save(SeedRates[4]);
      saved := store.Save(SeedRates[5]);
      saved := store.Save(SeedRates[6]);
      saved := store.Save(SeedRates[7]);
      saved := store.Save(SeedRates[8]);
      saved := store.Save(SeedRates[9]);
      SeedTableByAppends();
    }
  }
}
