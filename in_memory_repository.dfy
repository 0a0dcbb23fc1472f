/**
 * The generic in-memory store behind the rate table, the exempted-vehicle list and the
 * toll-pass history: a map from id to entity and an id counter that starts at 1.
 */
module Repository {

  /** An entity together with the id its store gave it (`BaseEntity.setId`). */
  datatype Identified<T> = Identified(id: int, entity: T)

  /** Ids strictly increase along `s`; in particular no id occurs twice. */
  ghost predicate IdsIncreasing<T>(s: seq<Identified<T>>) {
    forall i, j :: 0 <= i < j < |s| ==> s[i].id < s[j].id
  }

  /** The entities of `s`, ids dropped, in the same order. */
  function Entities<T>(s: seq<Identified<T>>): (r: seq<T>)
    ensures |r| == |s|
    ensures forall i :: 0 <= i < |s| ==> r[i] == s[i].entity
  {
    if s == [] then [] else [s[0].entity] + Entities(s[1..])
  }

  /** The entries of `storage` whose ids lie in `[lo, hi)`, in increasing id order. */
  function Listing<T>(storage: map<int, T>, lo: int, hi: int): (s: seq<Identified<T>>)
    decreases hi - lo
    ensures forall i :: 0 <= i < |s| ==> lo <= s[i].id < hi && s[i].id in storage && s[i].entity == storage[s[i].id]
    ensures forall id :: lo <= id < hi && id in storage ==> Identified(id, storage[id]) in s
    ensures IdsIncreasing(s)
  {
    if hi <= lo then []
    else
      var rest := Listing(storage, lo + 1, hi);
      if lo in storage then [Identified(lo, storage[lo])] + rest else rest
  }

  /** `s` without the entries whose id is `id`. */
  function Without<T>(s: seq<Identified<T>>, id: int): (r: seq<Identified<T>>)
    ensures forall i :: 0 <= i < |r| ==> r[i] in s && r[i].id != id
    ensures forall j :: 0 <= j < |s| && s[j].id != id ==> s[j] in r
  {
    if s == [] then []
    else if s[0].id == id then Without(s[1..], id)
    else [s[0]] + Without(s[1..], id)
  }

  /** Storing a new largest id appends its entry to the listing. */
  lemma {:induction false} ListingAfterInsert<T>(storage: map<int, T>, lo: int, n: int, x: T)
    requires lo <= n
    requires forall id :: id in storage ==> id < n
    ensures Listing(storage[n := x], lo, n + 1) == Listing(storage, lo, n) + [Identified(n, x)]
    decreases n - lo
  {
    if lo < n {
      ListingAfterInsert(storage, lo + 1, n, x);
    }
  }

  /** Removing a key from the storage removes its entry from the listing. */
  lemma {:induction false} ListingAfterRemove<T>(storage: map<int, T>, id: int, lo: int, hi: int)
    ensures Listing(storage - {id}, lo, hi) == Without(Listing(storage, lo, hi), id)
    decreases hi - lo
  {
    if lo < hi {
      ListingAfterRemove(storage, id, lo + 1, hi);
      var rest := Listing(storage, lo + 1, hi);
      if lo in storage {
        assert ([Identified(lo, storage[lo])] + rest)[1..] == rest;
      }
    }
  }

  /** `InMemoryRepository`: entities under the ids `save` gave them. */
  class InMemoryRepository<T> {
    var storage: map<int, T>
    var idGenerator: int

    /** The counter is at least 1 and above every id in use. */
    ghost predicate Valid()
      reads this
    {
      1 <= idGenerator && forall id :: id in storage ==> 1 <= id < idGenerator
    }

    constructor ()
      ensures Valid()
      ensures storage == map[] && idGenerator == 1
    {
      storage := map[];
      idGenerator := 1;
    }

    /** `findAll`: every stored entity with its id, each once, in id order. */
    function FindAll(): (all: seq<Identified<T>>)
      reads this
      requires Valid()
      ensures forall i :: 0 <= i < |all| ==> all[i].id in storage && all[i].entity == storage[all[i].id]
      ensures forall id :: id in storage ==> Identified(id, storage[id]) in all
      ensures IdsIncreasing(all)
    {
      Listing(storage, 1, idGenerator)
    }

    /** `generateId`: hand out the counter's value and advance it. */
    method GenerateId() returns (id: int)
      modifies this`idGenerator
      ensures id == old(idGenerator) && idGenerator == id + 1
    {
      id := idGenerator;
      idGenerator := idGenerator + 1;
    }

    /** `save`: store `entity` under a fresh id, the counter's old value. */
    method Save(entity: T) returns (saved: Identified<T>)
      requires Valid()
      modifies this
      ensures Valid()
      ensures saved == Identified(old(idGenerator), entity)
      ensures saved.id !in old(storage)
      ensures storage == old(storage)[saved.id := entity]
      ensures |storage| == |old(storage)| + 1
      ensures idGenerator == old(idGenerator) + 1
      ensures FindAll() == old(FindAll()) + [saved]
    {
      ListingAfterInsert(storage, 1, idGenerator, entity);
      var id := GenerateId();
      storage := storage[id := entity];
      saved := Identified(id, entity);
    }

    /** `deleteById`: drop the entry under `id`, if any; the counter keeps its value. */
    method DeleteById(id: int)
      requires Valid()
      modifies this`storage
      ensures Valid()
      ensures storage == old(storage) - {id}
      ensures FindAll() == Without(old(FindAll()), id)
    {
      ListingAfterRemove(storage, id, 1, idGenerator);
      storage := storage - {id};
    }
  }
}
