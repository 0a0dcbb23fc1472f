/** The exempted vehicle types: a store of labels that never holds one label twice. */
module ExemptedVehicles {
  import opened Wrappers
  import opened Repository

  /** `TaxExemptedVehicle`: a vehicle-type label (its id is carried by `Identified`). */
  datatype TaxExemptedVehicle = TaxExemptedVehicle(vehicle: string)

  /** The labels the repository is seeded with, in insertion order. */
  const SeedLabels: seq<string> := ["Motorcycle", "Tractor", "Emergency", "Diplomat", "Foreign", "Military"]

  /** The `anyMatch` over stored labels: exact, case-sensitive string equality. */
  function HasLabel(vehicles: seq<Identified<TaxExemptedVehicle>>, vehicleType: string): (found: bool)
    ensures found <==> exists i :: 0 <= i < |vehicles| && vehicles[i].entity.vehicle == vehicleType
  {
    if vehicles == [] then false
    else vehicles[0].entity.vehicle == vehicleType || HasLabel(vehicles[1..], vehicleType)
  }

  /** No label occurs twice. */
  ghost predicate DistinctLabels(vehicles: seq<Identified<TaxExemptedVehicle>>) {
    forall i, j :: 0 <= i < j < |vehicles| ==> vehicles[i].entity.vehicle != vehicles[j].entity.vehicle
  }

  /** The seed as `findAll` lists it after construction: ids 1 to 6 in insertion order. */
  const SeedVehicleTable: seq<Identified<TaxExemptedVehicle>> := [
    Identified(1, TaxExemptedVehicle(SeedLabels[0])), Identified(2, TaxExemptedVehicle(SeedLabels[1])),
    Identified(3, TaxExemptedVehicle(SeedLabels[2])), Identified(4, TaxExemptedVehicle(SeedLabels[3])),
    Identified(5, TaxExemptedVehicle(SeedLabels[4])), Identified(6, TaxExemptedVehicle(SeedLabels[5]))
  ]

  /** The seeded table numbers the seed labels 1 to 6 in order. */
  lemma SeedTableNumbersSeedLabels()
    ensures |SeedVehicleTable| == |SeedLabels|
    ensures forall i :: 0 <= i < |SeedVehicleTable| ==> SeedVehicleTable[i] == Identified(i + 1, TaxExemptedVehicle(SeedLabels[i]))
  {
  }

  /** The seeded labels are pairwise distinct, so each seeding `save` adds its label. */
  lemma {:induction false} SeedLabelIsNew(k: nat)
    requires k < |SeedLabels|
    ensures !HasLabel(SeedVehicleTable[..k], SeedLabels[k])
    ensures SeedVehicleTable[..k] + [Identified(k + 1, TaxExemptedVehicle(SeedLabels[k]))] == SeedVehicleTable[..k + 1]
  {
    forall i | 0 <= i < k
      ensures SeedLabels[i] != SeedLabels[k]
    {
      assert SeedLabels[i][0] != SeedLabels[k][0] || SeedLabels[i][1] != SeedLabels[k][1];
    }
  }

  /** Every prefix of the seed table holds distinct labels. */
  lemma SeedPrefixDistinct(k: nat)
    requires k <= |SeedLabels|
    ensures DistinctLabels(SeedVehicleTable[..k])
  {
    forall i, j | 0 <= i < j < k
      ensures SeedLabels[i] != SeedLabels[j]
    {
      assert SeedLabels[i][0] != SeedLabels[j][0] || SeedLabels[i][1] != SeedLabels[j][1];
    }
  }

  /** After the last seeding step the prefix built so far is the whole table. */
  lemma SeedTableComplete()
    ensures SeedVehicleTable[..|SeedLabels|] == SeedVehicleTable
  {
  }

  /** `TaxExemptedVehicleRepository`: an `InMemoryRepository<TaxExemptedVehicle>` whose `save` skips known labels. */
  class TaxExemptedVehicleRepository {
    const store: InMemoryRepository<TaxExemptedVehicle>

    ghost predicate Valid()
      reads this, store
    {
      store.Valid() && DistinctLabels(store.FindAll())
    }

    /** Six `save` calls, one per seeded label, giving them ids 1 to 6 in order. */
    constructor ()
      ensures Valid() && fresh(store)
      ensures store.FindAll() == SeedVehicleTable
      ensures store.idGenerator == |SeedLabels| + 1
    {
      store := new InMemoryRepository<TaxExemptedVehicle>();
      new;
      SeedPrefixDistinct(0);
      // `k` counts the seeding saves done so far.
      var k := 0;
      SeedNext(k); k := k + 1;
      SeedNext(k); k := k + 1;
      SeedNext(k); k := k + 1;
      SeedNext(k); k := k + 1;
      SeedNext(k); k := k + 1;
      SeedNext(k); k := k + 1;
      SeedTableComplete();
    }

    /** After `k` seeding calls the store lists the first `k` seeded labels under ids 1 to `k`. */
    ghost predicate SeededUpTo(k: nat)
      reads this, store
    {
      k <= |SeedLabels| && Valid() && store.FindAll() == SeedVehicleTable[..k] && store.idGenerator == k + 1
    }

    /** One seeding call of the constructor: the k-th label is new, so it is stored under id k + 1. */
    method SeedNext(k: nat)
      requires k < |SeedLabels| && SeededUpTo(k)
      modifies store
      ensures SeededUpTo(k + 1)
    {
      SeedPrefixDistinct(k + 1);
      SeedLabelIsNew(k);
      var saved, newId := Save(TaxExemptedVehicle(SeedLabels[k]));
    }

    /**
     * `save`: a label already stored leaves the store and its counter as they were, and the
     * argument comes back without a new id. A new label is stored through the base `save`,
     * which gives the argument the counter's value as its id.
     */
    method Save(vehicle: TaxExemptedVehicle) returns (saved: TaxExemptedVehicle, newId: Option<int>)
      requires Valid()
      modifies store
      ensures Valid()
      ensures saved == vehicle
      ensures newId == if HasLabel(old(store.FindAll()), vehicle.vehicle) then None else Some(old(store.idGenerator))
      ensures store.idGenerator == old(store.idGenerator) + (if HasLabel(old(store.FindAll()), vehicle.vehicle) then 0 else 1)
      ensures store.FindAll() == if HasLabel(old(store.FindAll()), vehicle.vehicle) then old(store.FindAll())
                                 else old(store.FindAll()) + [Identified(old(store.idGenerator), vehicle)]
    {
      var isPresent := HasLabel(store.FindAll(), vehicle.vehicle);
      newId := None;
      if !isPresent {
        var stored := store.Save(vehicle);
        newId := Some(stored.id);
      }
      saved := vehicle;
    }
  }
}
