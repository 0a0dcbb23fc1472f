/** The exempted-date store: one bucket per tag and one id counter shared by all buckets. */
module ExemptedDateStore {
  import opened Clock
  import opened ExemptedDates

  /** The order in which `findAll` and `deleteById` visit the buckets (the tags' declaration order). */
  const TypeOrder: seq<DateType> := [DayOfWeekType, HolidayDateType, MonthType]

  /** What `findAll` lists right after construction. */
  const SeedDates: seq<ExemptedDate> := [OfDayOfWeek(1, Saturday), OfDayOfWeek(2, Sunday), OfMonth(3, July)]

  /** The seeded buckets satisfy the store's invariant with the counter at 4. */
  lemma SeedBucketsValid()
    ensures ValidBuckets([OfDayOfWeek(1, Saturday), OfDayOfWeek(2, Sunday)], [], [OfMonth(3, July)], 4)
  {
  }

  /** Some entry of `s` carries `id`. */
  ghost predicate HasId(s: seq<ExemptedDate>, id: int) {
    exists i :: 0 <= i < |s| && s[i].id == id
  }

  /** No id occurs in both `a` and `b`. */
  ghost predicate DisjointIds(a: seq<ExemptedDate>, b: seq<ExemptedDate>) {
    forall i, j :: 0 <= i < |a| && 0 <= j < |b| ==> a[i].id != b[j].id
  }

  /** Every entry carries tag `t`. */
  ghost predicate TaggedAs(s: seq<ExemptedDate>, t: DateType) {
    forall i :: 0 <= i < |s| ==> s[i].Type() == t
  }

  /** Ids strictly increase along `s` (so a bucket never holds one id twice). */
  ghost predicate IdsAscending(s: seq<ExemptedDate>) {
    forall i, j :: 0 <= i < j < |s| ==> s[i].id < s[j].id
  }

  /** Every id was handed out by a counter that started at 1 and now stands at `next`. */
  ghost predicate IdsBelow(s: seq<ExemptedDate>, next: int) {
    forall i :: 0 <= i < |s| ==> 1 <= s[i].id < next
  }

  ghost predicate IdsDistinct(s: seq<ExemptedDate>) {
    forall i, j :: 0 <= i < j < |s| ==> s[i].id != s[j].id
  }

  /** A bucket of tag `t` under a counter standing at `next`. */
  ghost predicate WellFormedBucket(s: seq<ExemptedDate>, t: DateType, next: int) {
    TaggedAs(s, t) && IdsAscending(s) && IdsBelow(s, next)
  }

  /**
   * The store's invariant over its weekday, holiday and month buckets: each bucket well formed
   * under the counter `next`, and no id in two buckets.
   */
  ghost predicate ValidBuckets(d: seq<ExemptedDate>, h: seq<ExemptedDate>, m: seq<ExemptedDate>, next: int) {
    && 1 <= next
    && WellFormedBucket(d, DayOfWeekType, next)
    && WellFormedBucket(h, HolidayDateType, next)
    && WellFormedBucket(m, MonthType, next)
    && DisjointIds(d, h) && DisjointIds(d, m) && DisjointIds(h, m)
  }

  /** The bucket of tag `t` after `save` put `e` at the end of the bucket for `e`'s tag. */
  function AddTo(s: seq<ExemptedDate>, t: DateType, e: ExemptedDate): seq<ExemptedDate> {
    if e.Type() == t then s + [e] else s
  }

  /** `removeIf` on one bucket: drops every entry carrying the id; the length tells whether it removed anything. */
  function RemoveId(s: seq<ExemptedDate>, id: int): (r: seq<ExemptedDate>)
    ensures !HasId(r, id)
    ensures !HasId(s, id) ==> r == s
    ensures HasId(s, id) <==> |r| < |s|
  {
    if s == [] then []
    else if s[0].id == id then RemoveId(s[1..], id)
    else [s[0]] + RemoveId(s[1..], id)
  }

  /** `RemoveId` keeps exactly the entries whose id differs. */
  lemma {:induction false} RemoveIdMembers(s: seq<ExemptedDate>, id: int)
    ensures forall i :: 0 <= i < |RemoveId(s, id)| ==> RemoveId(s, id)[i] in s
    ensures forall j :: 0 <= j < |s| && s[j].id != id ==> s[j] in RemoveId(s, id)
  {
    if s != [] {
      RemoveIdMembers(s[1..], id);
    }
  }

  /** Removing from a concatenation removes from each part. */
  lemma {:induction false} RemoveIdDistributes(a: seq<ExemptedDate>, b: seq<ExemptedDate>, id: int)
    ensures RemoveId(a + b, id) == RemoveId(a, id) + RemoveId(b, id)
  {
    if a == [] {
      assert a + b == b;
    } else {
      assert (a + b)[0] == a[0];
      assert (a + b)[1..] == a[1..] + b;
      RemoveIdDistributes(a[1..], b, id);
      if a[0].id != id {
        assert [a[0]] + (RemoveId(a[1..], id) + RemoveId(b, id)) == ([a[0]] + RemoveId(a[1..], id)) + RemoveId(b, id);
      }
    }
  }

  /** Appending an entry carrying the counter's value keeps a bucket well formed. */
  lemma AppendFresh(s: seq<ExemptedDate>, e: ExemptedDate, t: DateType, next: int)
    requires 1 <= next && WellFormedBucket(s, t, next) && e.id == next
    ensures WellFormedBucket(AddTo(s, t, e), t, next + 1)
    ensures !HasId(s, next)
  {
  }

  /** An entry carrying the counter's value shares no id with a bucket issued below it. */
  lemma AppendKeepsDisjoint(a: seq<ExemptedDate>, b: seq<ExemptedDate>, ta: DateType, tb: DateType, e: ExemptedDate, next: int)
    requires IdsBelow(a, next) && IdsBelow(b, next) && DisjointIds(a, b) && e.id == next
    ensures DisjointIds(AddTo(a, ta, e), AddTo(b, tb, e)) || ta == tb
  {
  }

  /** `save` keeps the invariant. */
  lemma SaveKeepsValid(d: seq<ExemptedDate>, h: seq<ExemptedDate>, m: seq<ExemptedDate>, next: int, e: ExemptedDate)
    requires ValidBuckets(d, h, m, next) && e.id == next
    ensures ValidBuckets(AddTo(d, DayOfWeekType, e), AddTo(h, HolidayDateType, e), AddTo(m, MonthType, e), next + 1)
  {
    AppendFresh(d, e, DayOfWeekType, next);
    AppendFresh(h, e, HolidayDateType, next);
    AppendFresh(m, e, MonthType, next);
    AppendKeepsDisjoint(d, h, DayOfWeekType, HolidayDateType, e, next);
    AppendKeepsDisjoint(d, m, DayOfWeekType, MonthType, e, next);
    AppendKeepsDisjoint(h, m, HolidayDateType, MonthType, e, next);
  }

  /** The id `save` hands out is held by no stored entry. */
  lemma SavedIdIsFresh(d: seq<ExemptedDate>, h: seq<ExemptedDate>, m: seq<ExemptedDate>, next: int)
    requires ValidBuckets(d, h, m, next)
    ensures !HasId(d + h + m, next)
  {
    var all := d + h + m;
    forall i | 0 <= i < |all|
      ensures all[i].id < next
    {
      if i < |d| {
        assert all[i] == d[i];
      } else if i < |d| + |h| {
        assert all[i] == h[i - |d|];
      } else {
        assert all[i] == m[i - |d| - |h|];
      }
    }
  }

  /** `save` adds exactly one entry to the flattened listing. */
  lemma SaveAddsOne(d: seq<ExemptedDate>, h: seq<ExemptedDate>, m: seq<ExemptedDate>, e: ExemptedDate)
    ensures multiset(AddTo(d, DayOfWeekType, e) + AddTo(h, HolidayDateType, e) + AddTo(m, MonthType, e))
            == multiset(d + h + m) + multiset{e}
  {
    match e.Type()
    case DayOfWeekType =>
      assert AddTo(d, DayOfWeekType, e) + AddTo(h, HolidayDateType, e) + AddTo(m, MonthType, e) == d + [e] + h + m;
    case HolidayDateType =>
      assert AddTo(d, DayOfWeekType, e) + AddTo(h, HolidayDateType, e) + AddTo(m, MonthType, e) == d + h + [e] + m;
    case MonthType =>
      assert AddTo(d, DayOfWeekType, e) + AddTo(h, HolidayDateType, e) + AddTo(m, MonthType, e) == d + h + m + [e];
  }

  /** Removing an id from two buckets keeps them id-disjoint. */
  lemma RemoveKeepsDisjoint(a: seq<ExemptedDate>, b: seq<ExemptedDate>, id: int)
    requires DisjointIds(a, b)
    ensures DisjointIds(RemoveId(a, id), RemoveId(b, id))
  {
    RemoveIdMembers(a, id);
    RemoveIdMembers(b, id);
  }

  /** Removing an id keeps a lower bound on the ids. */
  lemma {:induction false} RemoveKeepsLowerBound(s: seq<ExemptedDate>, id: int, bound: int)
    requires forall i :: 0 <= i < |s| ==> bound < s[i].id
    ensures forall i :: 0 <= i < |RemoveId(s, id)| ==> bound < RemoveId(s, id)[i].id
  {
    if s != [] {
      RemoveKeepsLowerBound(s[1..], id, bound);
    }
  }

  /** Removing an id keeps ids ascending. */
  lemma {:induction false} RemoveKeepsAscending(s: seq<ExemptedDate>, id: int)
    requires IdsAscending(s)
    ensures IdsAscending(RemoveId(s, id))
  {
    if s != [] {
      RemoveKeepsAscending(s[1..], id);
      if s[0].id != id {
        var rest := RemoveId(s[1..], id);
        RemoveKeepsLowerBound(s[1..], id, s[0].id);
        assert RemoveId(s, id) == [s[0]] + rest;
      }
    }
  }

  /** Removing an id from one bucket keeps it well formed. */
  lemma RemoveKeepsWellFormed(s: seq<ExemptedDate>, t: DateType, next: int, id: int)
    requires WellFormedBucket(s, t, next)
    ensures WellFormedBucket(RemoveId(s, id), t, next)
  {
    RemoveIdMembers(s, id);
    RemoveKeepsAscending(s, id);
  }

  /** `deleteById` keeps the invariant. */
  lemma DeleteKeepsValid(d: seq<ExemptedDate>, h: seq<ExemptedDate>, m: seq<ExemptedDate>, next: int, id: int)
    requires ValidBuckets(d, h, m, next)
    ensures ValidBuckets(RemoveId(d, id), RemoveId(h, id), RemoveId(m, id), next)
    ensures RemoveId(d + h + m, id) == RemoveId(d, id) + RemoveId(h, id) + RemoveId(m, id)
  {
    RemoveKeepsWellFormed(d, DayOfWeekType, next, id);
    RemoveKeepsWellFormed(h, HolidayDateType, next, id);
    RemoveKeepsWellFormed(m, MonthType, next, id);
    RemoveKeepsDisjoint(d, h, id);
    RemoveKeepsDisjoint(d, m, id);
    RemoveKeepsDisjoint(h, m, id);
    RemoveIdDistributes(d, h, id);
    RemoveIdDistributes(d + h, m, id);
  }

  /** An id found in one bucket is in no other bucket, so removing it there leaves those as they were. */
  lemma FoundInOneBucket(a: seq<ExemptedDate>, b: seq<ExemptedDate>, id: int)
    requires DisjointIds(a, b)
    ensures HasId(a, id) ==> RemoveId(b, id) == b
    ensures HasId(b, id) ==> RemoveId(a, id) == a
  {
  }

  /** `ExemptedDateRepository`. */
  class ExemptedDateRepository {
    var dateEntries: map<DateType, seq<ExemptedDate>>
    var idGenerator: int

    /** The bucket for tag `t`. */
    function Bucket(t: DateType): seq<ExemptedDate>
      reads this
    {
      if t in dateEntries then dateEntries[t] else []
    }

    /** Every tag has a bucket, and the buckets and the counter keep `ValidBuckets`. */
    ghost predicate Valid()
      reads this
    {
      && DayOfWeekType in dateEntries && HolidayDateType in dateEntries && MonthType in dateEntries
      && ValidBuckets(Bucket(DayOfWeekType), Bucket(HolidayDateType), Bucket(MonthType), idGenerator)
    }

    /** `findAll`: the buckets flattened in tag order. */
    function FindAll(): (all: seq<ExemptedDate>)
      reads this
      ensures |all| == |Bucket(DayOfWeekType)| + |Bucket(HolidayDateType)| + |Bucket(MonthType)|
      ensures forall e :: e in all <==> e in Bucket(DayOfWeekType) || e in Bucket(HolidayDateType) || e in Bucket(MonthType)
    {
      Bucket(DayOfWeekType) + Bucket(HolidayDateType) + Bucket(MonthType)
    }

    /** Seeds Saturday and Sunday as weekday rules and July as a month rule; no holidays. */
    constructor ()
      ensures Valid()
      ensures FindAll() == SeedDates
      ensures Bucket(HolidayDateType) == []
      ensures idGenerator == 4
    {
      dateEntries := map[DayOfWeekType := [], HolidayDateType := [], MonthType := []];
      idGenerator := 1;
      new;
      var id := GenerateId();
      dateEntries := dateEntries[DayOfWeekType := dateEntries[DayOfWeekType] + [OfDayOfWeek(id, Saturday)]];
      id := GenerateId();
      dateEntries := dateEntries[DayOfWeekType := dateEntries[DayOfWeekType] + [OfDayOfWeek(id, Sunday)]];
      id := GenerateId();
      dateEntries := dateEntries[MonthType := dateEntries[MonthType] + [OfMonth(id, July)]];
      assert Bucket(DayOfWeekType) == [OfDayOfWeek(1, Saturday), OfDayOfWeek(2, Sunday)];
      assert Bucket(MonthType) == [OfMonth(3, July)];
      SeedBucketsValid();
    }

    /** `generateId`: hands out the counter's value and advances it. */
    method GenerateId() returns (id: int)
      modifies this`idGenerator
      ensures id == old(idGenerator) && idGenerator == id + 1
    {
      id := idGenerator;
      idGenerator := idGenerator + 1;
    }

    /** `save`: a copy of `entry` with a fresh id goes at the end of the bucket for its tag. */
    method Save(entry: ExemptedDate) returns (saved: ExemptedDate)
      requires Valid()
      modifies this
      ensures Valid()
      ensures saved == entry.WithId(old(idGenerator))
      ensures idGenerator == old(idGenerator) + 1
      ensures forall t: DateType :: Bucket(t) == AddTo(old(Bucket(t)), t, saved)
      ensures !HasId(old(FindAll()), saved.id)
      ensures multiset(FindAll()) == multiset(old(FindAll())) + multiset{saved}
    {
      var d, h, m := dateEntries[DayOfWeekType], dateEntries[HolidayDateType], dateEntries[MonthType];
      var id := GenerateId();
      saved := entry.WithId(id);
      SavedIdIsFresh(d, h, m, id);
      var t := entry.Type();
      dateEntries := dateEntries[t := dateEntries[t] + [saved]];
      forall u: DateType
        ensures Bucket(u) == AddTo(old(Bucket(u)), u, saved)
      {
        match u
        case DayOfWeekType =>
        case HolidayDateType =>
        case MonthType =>
      }
      SavedInItsBucket(this, d, h, m, saved);
    }

    /**
     * `deleteById`: visits the buckets in tag order and stops after the first one that
     * lost an entry. Since no id sits in two buckets, this removes the id everywhere.
     */
    method DeleteById(id: int)
      requires Valid()
      modifies this`dateEntries
      ensures Valid()
      ensures forall t: DateType :: Bucket(t) == RemoveId(old(Bucket(t)), id)
      ensures FindAll() == RemoveId(old(FindAll()), id)
    {
      ghost var d, h, m := Bucket(DayOfWeekType), Bucket(HolidayDateType), Bucket(MonthType);
      var k := 0;
      var removed := false;
      while k < |TypeOrder| && !removed
        invariant 0 <= k <= |TypeOrder|
        invariant DayOfWeekType in dateEntries && HolidayDateType in dateEntries && MonthType in dateEntries
        invariant Bucket(DayOfWeekType) == if 0 < k then RemoveId(d, id) else d
        invariant Bucket(HolidayDateType) == if 1 < k then RemoveId(h, id) else h
        invariant Bucket(MonthType) == if 2 < k then RemoveId(m, id) else m
        invariant !removed ==> (0 < k ==> !HasId(d, id)) && (1 < k ==> !HasId(h, id))
        invariant removed ==> (k == 1 && HasId(d, id)) || (k == 2 && HasId(h, id)) || (k == 3 && HasId(m, id))
      {
        var bucket := dateEntries[TypeOrder[k]];
        var kept := RemoveId(bucket, id);
        removed := |kept| < |bucket|;
        dateEntries := dateEntries[TypeOrder[k] := kept];
        k := k + 1;
      }
      FoundInOneBucket(d, h, id);
      FoundInOneBucket(d, m, id);
      FoundInOneBucket(h, m, id);
      DeletedEverywhere(this, d, h, m, id);
      forall t: DateType
        ensures Bucket(t) == RemoveId(old(Bucket(t)), id)
      {
        match t
        case DayOfWeekType =>
        case HolidayDateType =>
        case MonthType =>
      }
    }
  }

  /** Once `saved` sits in the bucket of its tag, the store is valid again and lists one entry more. */
  lemma SavedInItsBucket(r: ExemptedDateRepository, d: seq<ExemptedDate>, h: seq<ExemptedDate>, m: seq<ExemptedDate>,
                         saved: ExemptedDate)
    requires DayOfWeekType in r.dateEntries && HolidayDateType in r.dateEntries && MonthType in r.dateEntries
    requires ValidBuckets(d, h, m, saved.id) && r.idGenerator == saved.id + 1
    requires r.Bucket(DayOfWeekType) == AddTo(d, DayOfWeekType, saved)
    requires r.Bucket(HolidayDateType) == AddTo(h, HolidayDateType, saved)
    requires r.Bucket(MonthType) == AddTo(m, MonthType, saved)
    ensures r.Valid()
    ensures multiset(r.FindAll()) == multiset(d + h + m) + multiset{saved}
  {
    SaveKeepsValid(d, h, m, saved.id, saved);
    SaveAddsOne(d, h, m, saved);
  }

  /** Once every bucket has lost `id`, the store is valid again and lists the old entries less `id`. */
  lemma DeletedEverywhere(r: ExemptedDateRepository, d: seq<ExemptedDate>, h: seq<ExemptedDate>, m: seq<ExemptedDate>, id: int)
    requires DayOfWeekType in r.dateEntries && HolidayDateType in r.dateEntries && MonthType in r.dateEntries
    requires ValidBuckets(d, h, m, r.idGenerator)
    requires r.Bucket(DayOfWeekType) == RemoveId(d, id)
    requires r.Bucket(HolidayDateType) == RemoveId(h, id)
    requires r.Bucket(MonthType) == RemoveId(m, id)
    ensures r.Valid()
    ensures r.FindAll() == RemoveId(d + h + m, id)
  {
    DeleteKeepsValid(d, h, m, r.idGenerator, id);
  }

  /** In a valid store no two listed entries share an id, so `equals` tells entries apart exactly. */
  lemma EntriesDeterminedById(r: ExemptedDateRepository)
    requires r.Valid()
    ensures IdsDistinct(r.FindAll())
    ensures forall i, j :: 0 <= i < |r.FindAll()| && 0 <= j < |r.FindAll()| ==>
              (r.FindAll()[i].Equals(r.FindAll()[j]) <==> i == j)
  {
    var d, h, m := r.Bucket(DayOfWeekType), r.Bucket(HolidayDateType), r.Bucket(MonthType);
    var all := r.FindAll();
    forall i, j | 0 <= i < j < |all|
      ensures all[i].id != all[j].id
    {
      if j < |d| {
        assert all[i] == d[i] && all[j] == d[j];
      } else if j < |d| + |h| {
        if i < |d| {
          assert all[i] == d[i] && all[j] == h[j - |d|];
        } else {
          assert all[i] == h[i - |d|] && all[j] == h[j - |d|];
        }
      } else if i < |d| {
        assert all[i] == d[i] && all[j] == m[j - |d| - |h|];
      } else if i < |d| + |h| {
        assert all[i] == h[i - |d|] && all[j] == m[j - |d| - |h|];
      } else {
        assert all[i] == m[i - |d| - |h|] && all[j] == m[j - |d| - |h|];
      }
    }
  }
}
