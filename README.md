# Congestion tax calculator — a Dafny model

This project models the toll-fee engine of the congestion tax calculator, together with the
in-memory stores it reads and writes. For one vehicle passage (type, plate, date-time), the
engine works as follows:

- It returns 0 and records nothing when the vehicle type is a stored exempted label, or when
  the date matches a stored weekday, holiday or month rule.
- Otherwise it looks up the base fee of the clock time in the rate table. The first rate whose
  open interval holds the time wins, and the fee is 0 when none does.
- It fetches the same plate's passes of that calendar day and keeps those within one hour of
  the passage. It charges the highest of their amounts, or the base fee when none is left.
- It caps the charge at 60 and appends the passage, with the charge, to the toll-pass history.

The stores are modelled as classes whose methods update their fields:

- `InMemoryRepository<T>` (a map from id to entity, plus an id counter starting at 1), which
  the rate table, the exempted-vehicle list and the toll-pass history each hold one of.
- `ExemptedDateRepository`: per-tag buckets of exempted dates sharing one id counter.

Files, one module each:

- `clock.dfy` — date-times at second resolution (a day index and the seconds since midnight).
  Month and weekday come from a `Calendar` value.
- `wrappers.dfy` — the `Option` produced by stream `max()` and `findFirst()`.
- `in_memory_repository.dfy` — `InMemoryRepository`.
- `toll_pass_repository.dfy` — `TollPass` and the plate/time-window query.
- `tax_rate_repository.dfy` — `TaxRate` and the ten seeded intervals.
- `tax_exempted_vehicle_repository.dfy` — the de-duplicating label store.
- `exempted_date.dfy` — the three-way tagged `ExemptedDate` record.
- `exempted_date_repository.dfy` — the bucketed date store.
- `tax_rate_calculator.dfy` — the engine, `TaxRateCalculator`. The pure helpers are functions.
  `calculate` is a method proved against the specification function `Charge`.

Modelling choices:

- Amounts are integers.
- The Java class hierarchy `TollPassRepository extends InMemoryRepository` becomes composition:
  each store class holds a `const store: InMemoryRepository<T>`.
- `setId` on an entity becomes the pair `Identified(id, entity)`.
- `findAll` of an `InMemoryRepository` lists entries in id order.
- `findAll` of the date store lists its buckets in tag order, each in insertion order. Insertion
  order is id order, since every added id is fresh.

## Model

| member | source | states |
|---|---|---|
| Clock.DayWindowIsOneDay | src/main/java/com/peter/solution/service/TaxRateCalculatorImpl.java:49-51 | A date-time lies in `[atStartOfDay, atTime(23,59,59)]` of a date exactly when its date is that date |
| Clock.IsBeforeIsInstantOrder | src/main/java/com/peter/solution/repository/tollpass/TollPassRepository.java:64-68 | `isBefore` on date-times agrees with the order of the instants they denote |
| Repository.Listing | src/main/java/com/peter/solution/repository/InMemoryRepository.java:26-28 | The listing holds exactly the stored entries of the id range, each with its stored entity, ids strictly increasing |
| Repository.Entities | src/main/java/com/peter/solution/service/TaxRateCalculatorImpl.java:86-88 | Dropping ids keeps length, order and entities |
| Repository.Without | src/main/java/com/peter/solution/repository/InMemoryRepository.java:50-52 | The result holds exactly the entries of the input whose id differs from the removed one |
| Repository.ListingAfterInsert | src/main/java/com/peter/solution/repository/InMemoryRepository.java:37-41 | Storing under a new largest id appends exactly that entry to the listing |
| Repository.ListingAfterRemove | src/main/java/com/peter/solution/repository/InMemoryRepository.java:50-52 | Removing a key from the map removes exactly its entry from the listing |
| Repository.InMemoryRepository.constructor | src/main/java/com/peter/solution/repository/InMemoryRepository.java:17-18 | The store starts empty with the counter at 1 |
| Repository.InMemoryRepository.FindAll | src/main/java/com/peter/solution/repository/InMemoryRepository.java:26-28 | Every stored entity appears with its id, nothing else appears, and ids strictly increase |
| Repository.InMemoryRepository.GenerateId | src/main/java/com/peter/solution/repository/InMemoryRepository.java:59-61 | Returns the counter's value and advances the counter by one |
| Repository.InMemoryRepository.Save | src/main/java/com/peter/solution/repository/InMemoryRepository.java:37-41 | Stores the entity under the old counter value, a fresh id. The map grows by exactly that entry, the counter advances by one, `findAll` gains exactly that entry at its end, and the entity comes back with its id |
| Repository.InMemoryRepository.DeleteById | src/main/java/com/peter/solution/repository/InMemoryRepository.java:50-52 | Removes only that key, and an absent id changes nothing. The counter keeps its value, so no id is handed out twice |
| TollPasses.MatchingPasses | src/main/java/com/peter/solution/repository/tollpass/TollPassRepository.java:33-39 | Sound: every result has the plate and lies in the window. Complete: every matching input element is kept |
| TollPasses.MatchingPassesKeepOrder | src/main/java/com/peter/solution/repository/tollpass/TollPassRepository.java:36-38 | The filter result is a subsequence of its input, order kept |
| TollPasses.EmptyWindowMatchesNothing | src/main/java/com/peter/solution/repository/tollpass/TollPassRepository.java:64-68 | When start is after end, no pass matches |
| TollPasses.TollPassRepository.constructor | src/main/java/com/peter/solution/repository/tollpass/TollPassRepository.java:23 | The history starts empty with the counter at 1 |
| TollPasses.TollPassRepository.FindAllByPlateNumberAndDateTime | src/main/java/com/peter/solution/repository/tollpass/TollPassRepository.java:33-68 | Every result has exactly the queried plate and start ≤ time ≤ end, both ends inclusive. Every stored pass meeting both conditions is returned. The result is a subsequence of `findAll`, and it is empty when start > end. As a function it cannot change the store |
| TaxRates.SeedTableNumbersSeedRates | src/main/java/com/peter/solution/repository/taxrate/TaxRateRepository.java:20-31 | The seeded listing holds the ten rates with ids 1..10 in insertion order |
| TaxRates.SeedTableByAppends | src/main/java/com/peter/solution/repository/taxrate/TaxRateRepository.java:20-31 | The seeded listing is what ten appends, one per `save`, build |
| TaxRates.SeedAmounts | src/main/java/com/peter/solution/repository/taxrate/TaxRateRepository.java:21-30 | The seeded amounts are 8, 13, 18, 13, 8, 13, 18, 13, 8, 0 in that order |
| TaxRates.SeedIntervalsAscend | src/main/java/com/peter/solution/repository/taxrate/TaxRateRepository.java:21-29 | The first nine intervals have start < end, and each ends before the next one starts |
| TaxRates.OvernightRateNeverApplies | src/main/java/com/peter/solution/repository/taxrate/TaxRateRepository.java:30 | The 18:30 → 05:59 interval has start > end, so no clock time is strictly inside it |
| TaxRates.SeedIntervalsDisjoint | src/main/java/com/peter/solution/repository/taxrate/TaxRateRepository.java:21-30 | No clock time lies strictly inside two different seeded intervals |
| TaxRates.TaxRateRepository.constructor | src/main/java/com/peter/solution/repository/taxrate/TaxRateRepository.java:20-31 | After the ten saves, `findAll` is the seeded listing and the counter is at 11 |
| ExemptedVehicles.HasLabel | src/main/java/com/peter/solution/repository/vehicle/TaxExemptedVehicleRepository.java:31-33 | True exactly when some stored label is equal, as an exact case-sensitive string, to the given one |
| ExemptedVehicles.SeedTableNumbersSeedLabels | src/main/java/com/peter/solution/repository/vehicle/TaxExemptedVehicleRepository.java:14-21 | The seeded listing holds Motorcycle, Tractor, Emergency, Diplomat, Foreign and Military, with ids 1..6 in that order |
| ExemptedVehicles.SeedLabelIsNew | src/main/java/com/peter/solution/repository/vehicle/TaxExemptedVehicleRepository.java:14-21 | Each seeded label is absent from the labels seeded before it, so its `save` appends it |
| ExemptedVehicles.SeedPrefixDistinct | src/main/java/com/peter/solution/repository/vehicle/TaxExemptedVehicleRepository.java:14-21 | The labels seeded so far are pairwise distinct |
| ExemptedVehicles.TaxExemptedVehicleRepository.constructor | src/main/java/com/peter/solution/repository/vehicle/TaxExemptedVehicleRepository.java:14-21 | After the six saves, `findAll` is the seeded listing, the counter is at 7, and the labels are distinct |
| ExemptedVehicles.TaxExemptedVehicleRepository.SeedNext | src/main/java/com/peter/solution/repository/vehicle/TaxExemptedVehicleRepository.java:15-20 | One seeding `save` extends the seeded prefix by its label under the next id |
| ExemptedVehicles.TaxExemptedVehicleRepository.Save | src/main/java/com/peter/solution/repository/vehicle/TaxExemptedVehicleRepository.java:30-36 | A label already stored leaves the listing and the counter unchanged and reports no new id. A new label is appended under the old counter value, that id is reported, and the counter advances by one. The argument always comes back, and labels stay pairwise distinct |
| ExemptedDates.ExemptedDate.Type | src/main/java/com/peter/solution/repository/dates/ExemptedDate.java:41-65 | Each factory yields its own tag, and a tag is carried by that factory's records only. There are exactly three tags |
| ExemptedDates.ExemptedDate.WithId | src/main/java/com/peter/solution/repository/dates/ExemptedDateRepository.java:57-61 | The copy `save` makes carries the new id and the same tag |
| ExemptedDates.CopyKeepsPayload | src/main/java/com/peter/solution/repository/dates/ExemptedDateRepository.java:57-61 | The copy keeps tag and payload: stamping the old id back gives the original. A copy equals the original exactly when the id is unchanged |
| ExemptedDateStore.RemoveId | src/main/java/com/peter/solution/repository/dates/ExemptedDateRepository.java:74 | `removeIf` on id leaves no entry with that id. An absent id changes nothing, and the bucket shrinks exactly when the id was present |
| ExemptedDateStore.RemoveIdMembers | src/main/java/com/peter/solution/repository/dates/ExemptedDateRepository.java:74 | After `removeIf`, an entry remains exactly when it was there and has another id |
| ExemptedDateStore.RemoveIdDistributes | src/main/java/com/peter/solution/repository/dates/ExemptedDateRepository.java:43-47 | Removing an id from the concatenated buckets is removing it from each bucket |
| ExemptedDateStore.AppendFresh | src/main/java/com/peter/solution/repository/dates/ExemptedDateRepository.java:62 | Appending an entry with the counter's id to the bucket of its tag keeps the bucket well formed under the advanced counter |
| ExemptedDateStore.AppendKeepsDisjoint | src/main/java/com/peter/solution/repository/dates/ExemptedDateRepository.java:62 | A fresh entry added to the bucket of its tag keeps different buckets id-disjoint |
| ExemptedDateStore.SaveKeepsValid | src/main/java/com/peter/solution/repository/dates/ExemptedDateRepository.java:56-64 | `save` keeps every entry in the bucket of its tag, ids ascending below the counter, and buckets id-disjoint |
| ExemptedDateStore.SavedIdIsFresh | src/main/java/com/peter/solution/repository/dates/ExemptedDateRepository.java:56-64 | The id `save` hands out is held by no stored entry |
| ExemptedDateStore.SaveAddsOne | src/main/java/com/peter/solution/repository/dates/ExemptedDateRepository.java:62 | Adding to the bucket of the entry's tag adds exactly one entry to the flattened listing |
| ExemptedDateStore.SeedBucketsValid | src/main/java/com/peter/solution/repository/dates/ExemptedDateRepository.java:27-35 | The seeded buckets satisfy the store invariant with the counter at 4 |
| ExemptedDateStore.RemoveKeepsDisjoint | src/main/java/com/peter/solution/repository/dates/ExemptedDateRepository.java:72-76 | Removing an id keeps buckets id-disjoint |
| ExemptedDateStore.RemoveKeepsLowerBound | src/main/java/com/peter/solution/repository/dates/ExemptedDateRepository.java:74 | Removing an id keeps every remaining id strictly above any bound all ids were above |
| ExemptedDateStore.RemoveKeepsAscending | src/main/java/com/peter/solution/repository/dates/ExemptedDateRepository.java:74 | Removing an id keeps the remaining ids ascending |
| ExemptedDateStore.RemoveKeepsWellFormed | src/main/java/com/peter/solution/repository/dates/ExemptedDateRepository.java:74 | Removing an id keeps a bucket well formed: right tag, ascending ids below the counter |
| ExemptedDateStore.DeleteKeepsValid | src/main/java/com/peter/solution/repository/dates/ExemptedDateRepository.java:72-76 | Removing an id from all three buckets keeps the store invariant and removes it from the flattened listing |
| ExemptedDateStore.FoundInOneBucket | src/main/java/com/peter/solution/repository/dates/ExemptedDateRepository.java:73-74 | With id-disjoint buckets, an id found in one bucket is absent from the other |
| ExemptedDateStore.ExemptedDateRepository.FindAll | src/main/java/com/peter/solution/repository/dates/ExemptedDateRepository.java:43-47 | The listing is exactly the union of the three buckets, and its length is the sum of theirs |
| ExemptedDateStore.ExemptedDateRepository.constructor | src/main/java/com/peter/solution/repository/dates/ExemptedDateRepository.java:27-35 | Saturday (id 1) and Sunday (id 2) are weekday rules and July (id 3) a month rule. The holiday bucket is empty, and the counter is at 4 |
| ExemptedDateStore.ExemptedDateRepository.GenerateId | src/main/java/com/peter/solution/repository/dates/ExemptedDateRepository.java:83-85 | Returns the shared counter's value and advances it by one |
| ExemptedDateStore.ExemptedDateRepository.Save | src/main/java/com/peter/solution/repository/dates/ExemptedDateRepository.java:56-64 | Returns a copy with the old counter value as id and the input's tag and payload. That id is held by no stored entry. The copy is appended to the bucket of its tag, the other buckets are unchanged, and the listing gains exactly that entry. The counter advances by one and the invariant is kept |
| ExemptedDateStore.ExemptedDateRepository.DeleteById | src/main/java/com/peter/solution/repository/dates/ExemptedDateRepository.java:72-76 | The loop stops at the first bucket holding the id. Since ids are in one bucket at most, every bucket and the listing lose exactly the entries with that id. An unknown id changes nothing, and the invariant is kept |
| ExemptedDateStore.SavedInItsBucket | src/main/java/com/peter/solution/repository/dates/ExemptedDateRepository.java:62 | Once the copy sits in the bucket of its tag, the store is valid and lists exactly one entry more |
| ExemptedDateStore.DeletedEverywhere | src/main/java/com/peter/solution/repository/dates/ExemptedDateRepository.java:72-76 | Once every bucket has lost the id, the store is valid and lists the old entries less that id |
| ExemptedDateStore.EntriesDeterminedById | src/main/java/com/peter/solution/repository/dates/ExemptedDate.java:67-78 | In a valid store no two listed entries share an id, so two listed records are `equals` exactly when they are the same entry |
| TollEngine.Min | src/main/java/com/peter/solution/service/TaxRateCalculatorImpl.java:59 | `Math.min`: the result is one of the two, and at most both |
| TollEngine.WithinOneHourMeaning | src/main/java/com/peter/solution/service/TaxRateCalculatorImpl.java:73-76 | The rule holds exactly when the two instants are less than 61 minutes apart, because truncation to whole minutes is ≤ 60. It is symmetric in the two instants |
| TollEngine.BaseFee | src/main/java/com/peter/solution/service/TaxRateCalculatorImpl.java:84-91 | The fee is the amount of the first rate with start < time < end, both strict, and 0 when no rate applies |
| TollEngine.DisjointTableFee | src/main/java/com/peter/solution/repository/taxrate/TaxRateRepository.java:21-30 | On a table of disjoint intervals, the fee is the amount of whichever rate applies |
| TollEngine.FeeOfApplyingRate | src/main/java/com/peter/solution/service/TaxRateCalculatorImpl.java:84-91 | When some rate applies to the gate time, the fee looked up is the amount of one that applies |
| TollEngine.LookupIgnoresOrder | src/main/java/com/peter/solution/service/TaxRateCalculatorImpl.java:84-91 | Two orderings of the same table of disjoint intervals give the same fee at every gate time |
| TollEngine.SeedLookupIgnoresOrder | src/main/java/com/peter/solution/repository/taxrate/TaxRateRepository.java:20-31 | Listing the seeded rates in any order gives the same fee at every gate time |
| TollEngine.SeedFees | src/main/java/com/peter/solution/service/TaxRateCalculatorImpl.java:84-91 | With the seeded table: 06:20 → 8, 06:27 → 8, 14:35 → 8, 17:20 → 13, 19:25 → 0 |
| TollEngine.NoFeeOutsideSeedIntervals | src/main/java/com/peter/solution/service/TaxRateCalculatorImpl.java:87-90 | A clock time in none of the nine proper seeded intervals costs 0 |
| TollEngine.SeedBoundariesAreFree | src/main/java/com/peter/solution/repository/taxrate/TaxRateRepository.java:21-30 | The start and end times of every seeded interval (06:00, 06:29, 06:30, …) cost 0 |
| TollEngine.GapAfterFirstIntervalIsFree | src/main/java/com/peter/solution/repository/taxrate/TaxRateRepository.java:21-22 | Every time from 06:29 to 06:30, the half minute between included, costs 0 |
| TollEngine.IsDateExempted | src/main/java/com/peter/solution/service/TaxRateCalculatorImpl.java:122-141 | A date is exempt exactly when some stored record matches it by its own tag: month, weekday, or exact date |
| TollEngine.DateExemptionIgnoresTime | src/main/java/com/peter/solution/service/TaxRateCalculatorImpl.java:134-141 | Two date-times on the same date are exempt alike |
| TollEngine.SeedDatesExemption | src/main/java/com/peter/solution/service/TaxRateCalculatorImpl.java:122-141 | With the seeded records, a date is exempt exactly when it is a Saturday, a Sunday or in July |
| TollEngine.SeedVehiclesExemption | src/main/java/com/peter/solution/service/TaxRateCalculatorImpl.java:110-114 | With the seeded labels, a vehicle type is exempt exactly when it is one of the six seeded labels |
| TollEngine.AmountsWithinOneHour | src/main/java/com/peter/solution/service/TaxRateCalculatorImpl.java:53-55 | Exactly the amounts of the passes within one hour survive the filter. It is empty exactly when no pass is within the hour |
| TollEngine.Highest | src/main/java/com/peter/solution/service/TaxRateCalculatorImpl.java:56 | `max()` is empty exactly for no amounts. Otherwise it is one of the amounts and at least every one of them |
| TollEngine.SameDayCharge | src/main/java/com/peter/solution/service/TaxRateCalculatorImpl.java:53-59 | The charge never exceeds 60 |
| TollEngine.ChargeWithoutNearbyPass | src/main/java/com/peter/solution/service/TaxRateCalculatorImpl.java:53-59 | With no pass within the hour, the charge is min(base fee, 60) |
| TollEngine.ChargeWithNearbyPasses | src/main/java/com/peter/solution/service/TaxRateCalculatorImpl.java:53-59 | With passes within the hour, the charge is the capped amount of one of them, and at least the capped amount of each. The base fee plays no part, even when it is higher |
| TollEngine.TodaysPasses | src/main/java/com/peter/solution/service/TaxRateCalculatorImpl.java:48-51 | The history query keeps the order of the history |
| TollEngine.TodaysPassesAreSameDay | src/main/java/com/peter/solution/service/TaxRateCalculatorImpl.java:48-51 | The query returns exactly the passes with the plate and the date of the passage |
| TollEngine.OtherPassesAreIgnored | src/main/java/com/peter/solution/service/TaxRateCalculatorImpl.java:48-51 | A pass of another plate or another date, such as the previous evening, never changes what the query returns |
| TollEngine.Charge | src/main/java/com/peter/solution/service/TaxRateCalculatorImpl.java:41-64 | The result of `calculate` never exceeds 60, and an exempt passage is charged 0 |
| TollEngine.ChargeIsInRange | src/main/java/com/peter/solution/service/TaxRateCalculatorImpl.java:41-64 | With non-negative rates and stored amounts, every result lies in [0, 60] |
| TollEngine.NonNegativeFee | src/main/java/com/peter/solution/service/TaxRateCalculatorImpl.java:84-91 | A table of non-negative rates gives a non-negative fee |
| TollEngine.CarOnWorkingDayIsCharged | src/main/java/com/peter/solution/service/TaxRateCalculatorImpl.java:44 | With the seeded stores, a car on a day that is not a Saturday, a Sunday or in July is not exempt |
| TollEngine.MotorcycleIsFree | src/main/java/com/peter/solution/service/TaxRateCalculatorImpl.java:44 | With the seeded labels, a motorcycle pays 0, whatever the date, rates and history |
| TollEngine.JulyIsFree | src/main/java/com/peter/solution/service/TaxRateCalculatorImpl.java:44 | With the seeded dates, any passage on a July day pays 0 |
| TollEngine.FirstPassOfTheDay | src/main/java/com/peter/solution/service/TaxRateCalculatorImpl.java:46-59 | With the seeded stores and an empty history, a car on a working day pays 8 at 06:20, 13 at 17:20 and 0 at 19:25 |
| TollEngine.EarlierPassWithinTheHour | src/main/java/com/peter/solution/service/TaxRateCalculatorImpl.java:53-59 | A pass charged 13 three minutes before 06:27 sets the charge to 13, above the base fee 8 |
| TollEngine.HighestPassWithinTheHour | src/main/java/com/peter/solution/service/TaxRateCalculatorImpl.java:53-59 | Passes charged 13 and 18 within the hour before 14:35 give 18 |
| TollEngine.HighPassesAreCapped | src/main/java/com/peter/solution/service/TaxRateCalculatorImpl.java:59 | Passes charged 65 and 75 within the hour before 15:29 give 60 |
| TollEngine.PreviousDayIsNotCounted | src/main/java/com/peter/solution/service/TaxRateCalculatorImpl.java:50-51 | A pass at 23:50 of the previous day does not count at 00:10, which then pays its base fee, 0 |
| TollEngine.TaxRateCalculator.constructor | src/main/java/com/peter/solution/service/TaxRateCalculatorImpl.java:29-32 | The calculator holds the four given stores, each valid |
| TollEngine.TaxRateCalculator.Calculate | src/main/java/com/peter/solution/service/TaxRateCalculatorImpl.java:41-64 | Returns `Charge` of what the stores list, at most 60. An exempt passage returns 0 and leaves the history untouched. Any other appends exactly one pass (plate, passage time, returned amount) under the old counter value and advances the counter by one, and all stores stay valid |
| TollEngine.TaxRateCalculator.IsVehicleExempted | src/main/java/com/peter/solution/service/TaxRateCalculatorImpl.java:110-114 | True exactly when some stored label equals the vehicle type |
| TollEngine.TaxRateCalculator.SaveTollPass | src/main/java/com/peter/solution/service/TaxRateCalculatorImpl.java:99-102 | Appends exactly the pass (plate, passage time, amount) under the old counter value and advances the counter by one |

## Left out

- The HTTP controllers, the Spring wiring and the `VehicleDTO.taxAmount` field are outside the engine.
- The `LocalDateTime.now()` default of `VehicleDTO` reads the system clock. The passage time is always an explicit input here.
- Concurrency is not modelled: `ConcurrentHashMap`, `AtomicLong`, and the race between the history read and the append in `calculate`. All stores are sequential.
- The Gregorian calendar is not modelled. Month and weekday of a date are given by a `Calendar` value, a pair of total functions of the day index.
- Time is kept to whole seconds; nanoseconds of `LocalDateTime` are not modelled. Every comparison and the minute truncation are otherwise as in `java.time`. In Java the day window ends at 23:59:59 exactly, so a passage in the last fractional second of a day (23:59:59.5, say) falls outside it; `Clock.DayWindowIsOneDay` and `TollEngine.TodaysPassesAreSameDay` hold only for whole-second times.
- `double` amounts are integers, and `Long` ids are unbounded integers, so the 64-bit overflow of the id counter is not modelled.
- Iteration order of `ConcurrentHashMap.values()` and `HashSet` is not specified in Java; `findAll` is modelled in id order, and a date bucket in insertion order. `EnumMap` iterates in the declaration order of its keys, and the date store reproduces it as tag order. `TollEngine.LookupIgnoresOrder` shows that the rate lookup gives the same fee for any ordering of a table of disjoint intervals, and `TollEngine.SeedLookupIgnoresOrder` applies it to the seeded table.
- Null vehicle types, null payloads and null tags are not modelled. Strings are never null, and `ExemptedDate` is a sum type whose constructors carry only their own payload.
- Holiday dates are day indices, compared by equality with the passage's date.
- `TollEngine.SameDayCharge`: its own contract states only the cap. The max-or-base-fee choice is stated in `ChargeWithoutNearbyPass` and `ChargeWithNearbyPasses`.
- `TollEngine.Charge`: its own contract states the cap and that an exempt passage is charged 0 (so does `TaxRateCalculator.Calculate`). The base fee and the one-hour rule are stated by `FirstPassOfTheDay`, `EarlierPassWithinTheHour`, `HighestPassWithinTheHour` and `PreviousDayIsNotCounted`.
