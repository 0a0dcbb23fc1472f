/** The toll-pass history: charged passages and the plate/time-window query over them. */
module TollPasses {
  import opened Clock
  import opened Repository

  /** `TollPass`: a charged passage (its id is carried by `Identified`). */
  datatype TollPass = TollPass(plateNumber: string, passDateTime: DateTime, tollAmount: int)

  /** `isWithinDateTimeRange`: `start <= dateTime <= end`, both ends inclusive. */
  predicate IsWithinDateTimeRange(dateTime: DateTime, start: DateTime, end: DateTime) {
    !IsBefore(dateTime, start) && !IsAfter(dateTime, end)
  }

  /** `isMatchingTollPass`: same plate, exact string equality, and inside the window. */
  predicate IsMatchingTollPass(pass: TollPass, plateNumber: string, start: DateTime, end: DateTime) {
    plateNumber == pass.plateNumber && IsWithinDateTimeRange(pass.passDateTime, start, end)
  }

  /** `r` is `s` with some elements left out, the rest kept in order. */
  ghost predicate SubsequenceOf<T>(r: seq<T>, s: seq<T>)
    decreases |s|
  {
    if r == [] then true
    else if s == [] then false
    else (r[0] == s[0] && SubsequenceOf(r[1..], s[1..])) || SubsequenceOf(r, s[1..])
  }

  /** The stream filter of `findAllByPlateNumberAndDateTime`. */
  function MatchingPasses(passes: seq<Identified<TollPass>>, plateNumber: string,
                          start: DateTime, end: DateTime): (r: seq<Identified<TollPass>>)
    ensures forall i :: 0 <= i < |r| ==> r[i] in passes && IsMatchingTollPass(r[i].entity, plateNumber, start, end)
    ensures forall j :: 0 <= j < |passes| && IsMatchingTollPass(passes[j].entity, plateNumber, start, end) ==> passes[j] in r
  {
    if passes == [] then []
    else
      var rest := MatchingPasses(passes[1..], plateNumber, start, end);
      if IsMatchingTollPass(passes[0].entity, plateNumber, start, end) then [passes[0]] + rest else rest
  }

  /** The filter keeps the order of the history it reads. */
  lemma {:induction false} MatchingPassesKeepOrder(passes: seq<Identified<TollPass>>, plateNumber: string,
                                                   start: DateTime, end: DateTime)
    ensures SubsequenceOf(MatchingPasses(passes, plateNumber, start, end), passes)
  {
    if passes != [] {
      var rest := MatchingPasses(passes[1..], plateNumber, start, end);
      MatchingPassesKeepOrder(passes[1..], plateNumber, start, end);
      if IsMatchingTollPass(passes[0].entity, plateNumber, start, end) {
        assert ([passes[0]] + rest)[1..] == rest;
      } else {
        SubsequenceSkip(rest, passes);
      }
    }
  }

  /** A subsequence of the tail is a subsequence of the whole. */
  lemma SubsequenceSkip<T>(r: seq<T>, s: seq<T>)
    requires s != [] && SubsequenceOf(r, s[1..])
    ensures SubsequenceOf(r, s)
  {
  }

  /** An empty window (`start` after `end`) matches no passage. */
  lemma {:induction false} EmptyWindowMatchesNothing(passes: seq<Identified<TollPass>>, plateNumber: string,
                                                     start: DateTime, end: DateTime)
    requires IsAfter(start, end)
    ensures MatchingPasses(passes, plateNumber, start, end) == []
  {
    if passes != [] {
      EmptyWindowMatchesNothing(passes[1..], plateNumber, start, end);
      assert !IsWithinDateTimeRange(passes[0].entity.passDateTime, start, end);
    }
  }

  /** `TollPassRepository`: an `InMemoryRepository<TollPass>` with a range query. */
  class TollPassRepository {
    const store: InMemoryRepository<TollPass>

    ghost predicate Valid()
      reads this, store
    {
      store.Valid()
    }

    constructor ()
      ensures Valid() && fresh(store)
      ensures store.storage == map[] && store.idGenerator == 1
    {
      store := new InMemoryRepository<TollPass>();
    }

    /**
     * `findAllByPlateNumberAndDateTime`: the stored passes of `plateNumber` whose time lies
     * in `[start, end]`, all of them, in the order of `findAll`.
     */
    function FindAllByPlateNumberAndDateTime(plateNumber: string, start: DateTime, end: DateTime)
      : (r: seq<Identified<TollPass>>)
      reads this, store
      requires Valid()
      ensures forall i :: 0 <= i < |r| ==> r[i].entity.plateNumber == plateNumber
      ensures forall i :: 0 <= i < |r| ==> IsWithinDateTimeRange(r[i].entity.passDateTime, start, end)
      ensures forall i :: 0 <= i < |r| ==> r[i].id in store.storage && store.storage[r[i].id] == r[i].entity
      ensures forall id :: id in store.storage && IsMatchingTollPass(store.storage[id], plateNumber, start, end)
                ==> Identified(id, store.storage[id]) in r
      ensures SubsequenceOf(r, store.FindAll())
      ensures IsAfter(start, end) ==> r == []
    {
      var all := store.FindAll();
      MatchingPassesKeepOrder(all, plateNumber, start, end);
      if IsAfter(start, end) then
        EmptyWindowMatchesNothing(all, plateNumber, start, end);
        MatchingPasses(all, plateNumber, start, end)
      else
        MatchingPasses(all, plateNumber, start, end)
    }
  }
}
