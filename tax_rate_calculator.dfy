/** The toll engine: exemptions, the base fee, the one-hour rule, the daily cap and the recorded pass. */
module TollEngine {
  import opened Wrappers
  import opened Clock
  import opened Repository
  import opened TollPasses
  import opened TaxRates
  import opened ExemptedVehicles
  import opened ExemptedDates
  import opened ExemptedDateStore

  /** The ceiling `calculateToll` clamps every charge to. */
  const MaximumToll := 60

  /** The one-hour rule's bound, in whole minutes. */
  const OneHourInMinutes := 60

  /** `VehicleDTO`: the vehicle type, its plate and the moment it passed the gate. */
  datatype Vehicle = Vehicle(vehicleType: string, plateNumber: string, tollPassDateTime: DateTime)

  function Abs(x: int): nat {
    if x < 0 then -x else x
  }

  function Min(a: int, b: int): (m: int)
    ensures m <= a && m <= b && (m == a || m == b)
  {
    if a <= b then a else b
  }

  // ---------------------------------------------------------------------------------------------
  // The one-hour rule

  /**
   * `isWithinOneHour`: the absolute gap between the two instants, truncated to whole minutes,
   * is at most 60.
   */
  predicate IsWithinOneHour(passTime: DateTime, entryTime: DateTime) {
    Abs(EpochSecond(entryTime) - EpochSecond(passTime)) / SecondsPerMinute <= OneHourInMinutes
  }

  /**
   * Truncation to minutes makes the rule reach just short of 61 minutes either way, and the
   * rule does not care which instant comes first.
   */
  lemma WithinOneHourMeaning(a: DateTime, b: DateTime)
    ensures IsWithinOneHour(a, b) <==> -3660 < EpochSecond(b) - EpochSecond(a) < 3660
    ensures IsWithinOneHour(a, b) <==> IsWithinOneHour(b, a)
  {
    var gap := Abs(EpochSecond(b) - EpochSecond(a));
    assert Abs(EpochSecond(a) - EpochSecond(b)) == gap;
    if gap < 3660 {
      assert gap / 60 <= 60;
    } else {
      assert gap / 60 >= 61;
    }
  }

  // ---------------------------------------------------------------------------------------------
  // The base fee

  /** No rate before index `k` applies at `gateTime`. */
  ghost predicate NoneAppliesBefore(rates: seq<TaxRate>, k: int, gateTime: SecondOfDay)
    requires 0 <= k <= |rates|
  {
    forall j :: 0 <= j < k ==> !rates[j].Applies(gateTime)
  }

  /**
   * `calculateToll`: the amount of the first rate whose open interval holds the clock time of
   * the passage, or 0 when none does.
   */
  function BaseFee(rates: seq<TaxRate>, gateTime: SecondOfDay): (fee: int)
    ensures forall i :: 0 <= i < |rates| && rates[i].Applies(gateTime) && NoneAppliesBefore(rates, i, gateTime) ==>
              fee == rates[i].amount
    ensures NoneAppliesBefore(rates, |rates|, gateTime) ==> fee == 0
  {
    if rates == [] then 0
    else if rates[0].Applies(gateTime) then rates[0].amount
    else
      var rest := BaseFee(rates[1..], gateTime);
      assert forall i :: 1 <= i <= |rates| && NoneAppliesBefore(rates, i, gateTime) ==>
               NoneAppliesBefore(rates[1..], i - 1, gateTime);
      rest
  }

  /** On a table of disjoint intervals the fee is that of whichever rate applies. */
  lemma DisjointTableFee(rates: seq<TaxRate>, i: int, gateTime: SecondOfDay)
    requires OpenIntervalsDisjoint(rates)
    requires 0 <= i < |rates| && rates[i].Applies(gateTime)
    ensures BaseFee(rates, gateTime) == rates[i].amount
  {
    forall j | 0 <= j < i
      ensures !rates[j].Applies(gateTime)
    {
    }
  }

  /** When some rate applies, the fee is the amount of one of the applying rates. */
  lemma {:induction false} FeeOfApplyingRate(rates: seq<TaxRate>, gateTime: SecondOfDay)
    ensures (exists k :: 0 <= k < |rates| && rates[k].Applies(gateTime)) ==>
              exists k :: 0 <= k < |rates| && rates[k].Applies(gateTime) && BaseFee(rates, gateTime) == rates[k].amount
  {
    if rates != [] {
      if rates[0].Applies(gateTime) {
        assert BaseFee(rates, gateTime) == rates[0].amount;
      } else {
        FeeOfApplyingRate(rates[1..], gateTime);
        if exists k :: 0 <= k < |rates| && rates[k].Applies(gateTime) {
          var k :| 0 <= k < |rates| && rates[k].Applies(gateTime);
          assert rates[1..][k - 1] == rates[k];
          var n :| 0 <= n < |rates| - 1 && rates[1..][n].Applies(gateTime) && BaseFee(rates[1..], gateTime) == rates[1..][n].amount;
          assert rates[n + 1] == rates[1..][n];
        }
      }
    }
  }

  /**
   * A table of disjoint intervals gives the same fee in any order: the lookup does not depend
   * on the order in which `findAll` lists the rates.
   */
  lemma LookupIgnoresOrder(listed: seq<TaxRate>, rates: seq<TaxRate>, gateTime: SecondOfDay)
    requires OpenIntervalsDisjoint(rates)
    requires multiset(listed) == multiset(rates)
    ensures BaseFee(listed, gateTime) == BaseFee(rates, gateTime)
  {
    if exists j :: 0 <= j < |rates| && rates[j].Applies(gateTime) {
      var j :| 0 <= j < |rates| && rates[j].Applies(gateTime);
      forall m | 0 <= m < |rates| && rates[m].Applies(gateTime)
        ensures m == j
      {
      }
      assert rates[j] in multiset(listed);
      FeeOfApplyingRate(rates, gateTime);
      FeeOfApplyingRate(listed, gateTime);
      var k :| 0 <= k < |listed| && listed[k].Applies(gateTime) && BaseFee(listed, gateTime) == listed[k].amount;
      assert listed[k] in multiset(rates);
    } else {
      forall k | 0 <= k < |listed|
        ensures !listed[k].Applies(gateTime)
      {
        assert listed[k] in multiset(rates);
      }
      assert NoneAppliesBefore(listed, |listed|, gateTime);
      assert NoneAppliesBefore(rates, |rates|, gateTime);
    }
  }

  /** Any listing order of the seeded rates gives the fee of the table in insertion order. */
  lemma SeedLookupIgnoresOrder(listed: seq<TaxRate>, gateTime: SecondOfDay)
    requires multiset(listed) == multiset(SeedRates)
    ensures BaseFee(listed, gateTime) == BaseFee(SeedRates, gateTime)
  {
    SeedIntervalsDisjoint();
    LookupIgnoresOrder(listed, SeedRates, gateTime);
  }

  /** Fees of the seeded table: 06:20 costs 8, 17:20 costs 13, 19:25 is free. */
  lemma SeedFees()
    ensures BaseFee(SeedRates, TimeOf(6, 20)) == 8
    ensures BaseFee(SeedRates, TimeOf(6, 27)) == 8
    ensures BaseFee(SeedRates, TimeOf(14, 35)) == 8
    ensures BaseFee(SeedRates, TimeOf(17, 20)) == 13
    ensures BaseFee(SeedRates, TimeOf(19, 25)) == 0
  {
    NoFeeOutsideSeedIntervals(TimeOf(19, 25));
  }

  /** A clock time in no seeded open interval is free. */
  lemma NoFeeOutsideSeedIntervals(gateTime: SecondOfDay)
    requires forall i :: 0 <= i < 9 ==> !SeedRates[i].Applies(gateTime)
    ensures BaseFee(SeedRates, gateTime) == 0
  {
    OvernightRateNeverApplies(gateTime);
  }

  /**
   * Both interval ends are excluded: the start and the end of every seeded interval (06:00,
   * 06:29, 06:30, ...) are free.
   */
  lemma SeedBoundariesAreFree(i: int, gateTime: SecondOfDay)
    requires 0 <= i < |SeedRates|
    requires gateTime == SeedRates[i].startTime || gateTime == SeedRates[i].endTime
    ensures BaseFee(SeedRates, gateTime) == 0
  {
    SeedIntervalsAscend();
    forall j | 0 <= j < 9
      ensures !SeedRates[j].Applies(gateTime)
    {
      if i == 9 {
        assert SeedRates[j].startTime >= TimeOf(6, 0) && SeedRates[j].endTime <= TimeOf(18, 29);
      }
    }
    NoFeeOutsideSeedIntervals(gateTime);
  }

  /** The whole minute from 06:29 to 06:30, between the first two intervals, is free. */
  lemma GapAfterFirstIntervalIsFree(gateTime: SecondOfDay)
    requires TimeOf(6, 29) <= gateTime <= TimeOf(6, 30)
    ensures BaseFee(SeedRates, gateTime) == 0
  {
    SeedIntervalsAscend();
    NoFeeOutsideSeedIntervals(gateTime);
  }

  // ---------------------------------------------------------------------------------------------
  // Exemptions

  /** `isDateExemptedForType`: a record matches by its own tag only. */
  predicate IsDateExemptedForType(exemptedDate: ExemptedDate, calendar: Calendar, dateTime: DateTime) {
    match exemptedDate
    case OfMonth(_, month) => month == calendar.monthOf(dateTime.day)
    case OfDayOfWeek(_, dayOfWeek) => dayOfWeek == calendar.dayOfWeekOf(dateTime.day)
    case OfHolidayDate(_, holidayDate) => holidayDate == dateTime.day
  }

  /** `isDateExempted`: some stored record matches the date. */
  function IsDateExempted(exemptedDates: seq<ExemptedDate>, calendar: Calendar, dateTime: DateTime): (exempted: bool)
    ensures exempted <==> exists i :: 0 <= i < |exemptedDates| && IsDateExemptedForType(exemptedDates[i], calendar, dateTime)
  {
    if exemptedDates == [] then false
    else IsDateExemptedForType(exemptedDates[0], calendar, dateTime) || IsDateExempted(exemptedDates[1..], calendar, dateTime)
  }

  /** Date exemption looks at the date only, never at the clock time. */
  lemma DateExemptionIgnoresTime(exemptedDates: seq<ExemptedDate>, calendar: Calendar, a: DateTime, b: DateTime)
    requires a.day == b.day
    ensures IsDateExempted(exemptedDates, calendar, a) == IsDateExempted(exemptedDates, calendar, b)
  {
    assert forall i :: 0 <= i < |exemptedDates| ==>
             IsDateExemptedForType(exemptedDates[i], calendar, a) == IsDateExemptedForType(exemptedDates[i], calendar, b);
  }

  /** With the seeded records a date is exempt exactly on Saturdays, Sundays and in July. */
  lemma SeedDatesExemption(calendar: Calendar, dateTime: DateTime)
    ensures IsDateExempted(SeedDates, calendar, dateTime) <==>
              calendar.dayOfWeekOf(dateTime.day) == Saturday || calendar.dayOfWeekOf(dateTime.day) == Sunday
              || calendar.monthOf(dateTime.day) == July
  {
    assert IsDateExemptedForType(SeedDates[0], calendar, dateTime) <==> calendar.dayOfWeekOf(dateTime.day) == Saturday;
    assert IsDateExemptedForType(SeedDates[1], calendar, dateTime) <==> calendar.dayOfWeekOf(dateTime.day) == Sunday;
    assert IsDateExemptedForType(SeedDates[2], calendar, dateTime) <==> calendar.monthOf(dateTime.day) == July;
  }

  /** With the seeded labels, exactly the six listed vehicle types are exempt. */
  lemma SeedVehiclesExemption(vehicleType: string)
    ensures HasLabel(SeedVehicleTable, vehicleType) <==> vehicleType in SeedLabels
  {
    if vehicleType in SeedLabels {
      var k :| 0 <= k < |SeedLabels| && SeedLabels[k] == vehicleType;
      assert SeedVehicleTable[k].entity.vehicle == vehicleType;
    }
  }

  // ---------------------------------------------------------------------------------------------
  // The one-hour rule over the day's passes and the cap

  /** The amounts of the passes within one hour of `dateTime`, in listing order. */
  function AmountsWithinOneHour(passes: seq<Identified<TollPass>>, dateTime: DateTime): (amounts: seq<int>)
    ensures forall i :: 0 <= i < |passes| && IsWithinOneHour(passes[i].entity.passDateTime, dateTime) ==>
              passes[i].entity.tollAmount in amounts
    ensures amounts != [] <==> HasNearbyPass(passes, dateTime)
    ensures forall a :: a in amounts ==> exists i :: 0 <= i < |passes| && IsWithinOneHour(passes[i].entity.passDateTime, dateTime)
                                                     && passes[i].entity.tollAmount == a
  {
    if passes == [] then []
    else
      var rest := AmountsWithinOneHour(passes[1..], dateTime);
      if IsWithinOneHour(passes[0].entity.passDateTime, dateTime) then [passes[0].entity.tollAmount] + rest else rest
  }

  /** The stream maximum of the amounts: nothing for an empty stream, else its greatest element. */
  function Highest(amounts: seq<int>): (h: Option<int>)
    ensures h.None? <==> amounts == []
    ensures h.Some? ==> h.value in amounts && forall a :: a in amounts ==> a <= h.value
  {
    if amounts == [] then None
    else
      var rest := Highest(amounts[1..]);
      assert amounts == [amounts[0]] + amounts[1..];
      if rest.None? || amounts[0] >= rest.value then Some(amounts[0]) else rest
  }

  /**
   * The charge for a passage given the day's passes of the same plate and the base fee: the
   * highest amount charged within the hour, or the base fee when there is none, capped at 60.
   */
  function SameDayCharge(passesToday: seq<Identified<TollPass>>, dateTime: DateTime, baseFee: int): (toll: int)
    ensures toll <= MaximumToll
  {
    Min(Highest(AmountsWithinOneHour(passesToday, dateTime)).GetOr(baseFee), MaximumToll)
  }

  /** Some pass in the list lies within one hour of `dateTime`. */
  ghost predicate HasNearbyPass(passesToday: seq<Identified<TollPass>>, dateTime: DateTime) {
    exists i :: 0 <= i < |passesToday| && IsWithinOneHour(passesToday[i].entity.passDateTime, dateTime)
  }

  /** With no pass within the hour the charge is the base fee, capped at 60. */
  lemma ChargeWithoutNearbyPass(passesToday: seq<Identified<TollPass>>, dateTime: DateTime, baseFee: int)
    requires !HasNearbyPass(passesToday, dateTime)
    ensures SameDayCharge(passesToday, dateTime, baseFee) == Min(baseFee, MaximumToll)
  {
  }

  /**
   * With passes within the hour the charge is the highest of their amounts, capped at 60; the
   * base fee of the new passage plays no part, even when it is higher.
   */
  lemma ChargeWithNearbyPasses(passesToday: seq<Identified<TollPass>>, dateTime: DateTime, baseFee: int, otherFee: int)
    requires HasNearbyPass(passesToday, dateTime)
    ensures exists i :: 0 <= i < |passesToday| && IsWithinOneHour(passesToday[i].entity.passDateTime, dateTime)
                        && SameDayCharge(passesToday, dateTime, baseFee) == Min(passesToday[i].entity.tollAmount, MaximumToll)
    ensures forall i :: 0 <= i < |passesToday| && IsWithinOneHour(passesToday[i].entity.passDateTime, dateTime) ==>
              Min(passesToday[i].entity.tollAmount, MaximumToll) <= SameDayCharge(passesToday, dateTime, baseFee)
    ensures SameDayCharge(passesToday, dateTime, baseFee) == SameDayCharge(passesToday, dateTime, otherFee)
  {
    var amounts := AmountsWithinOneHour(passesToday, dateTime);
    var i :| 0 <= i < |passesToday| && IsWithinOneHour(passesToday[i].entity.passDateTime, dateTime);
    assert passesToday[i].entity.tollAmount in amounts;
    var top := Highest(amounts).value;
    var k :| 0 <= k < |passesToday| && IsWithinOneHour(passesToday[k].entity.passDateTime, dateTime)
             && passesToday[k].entity.tollAmount == top;
  }

  // ---------------------------------------------------------------------------------------------
  // The whole calculation over the stores' listings

  /** The passes of `plateNumber` in the window `[00:00:00, 23:59:59]` of `day`: the history query of `calculate`. */
  function TodaysPasses(history: seq<Identified<TollPass>>, plateNumber: string, day: int): (r: seq<Identified<TollPass>>)
    ensures SubsequenceOf(r, history)
  {
    MatchingPassesKeepOrder(history, plateNumber, StartOfDay(day), EndOfDay(day));
    MatchingPasses(history, plateNumber, StartOfDay(day), EndOfDay(day))
  }

  /** The window of the history query is exactly one calendar day: passes of that plate and that date, all of them. */
  lemma TodaysPassesAreSameDay(history: seq<Identified<TollPass>>, plateNumber: string, day: int)
    ensures forall i :: 0 <= i < |TodaysPasses(history, plateNumber, day)| ==>
              TodaysPasses(history, plateNumber, day)[i].entity.plateNumber == plateNumber &&
              TodaysPasses(history, plateNumber, day)[i].entity.passDateTime.day == day
    ensures forall j :: (0 <= j < |history| && history[j].entity.plateNumber == plateNumber
                         && history[j].entity.passDateTime.day == day) ==> history[j] in TodaysPasses(history, plateNumber, day)
  {
    var r := TodaysPasses(history, plateNumber, day);
    forall i | 0 <= i < |r|
      ensures r[i].entity.passDateTime.day == day
    {
      DayWindowIsOneDay(r[i].entity.passDateTime, day);
    }
    forall j | 0 <= j < |history| && history[j].entity.plateNumber == plateNumber && history[j].entity.passDateTime.day == day
      ensures history[j] in r
    {
      DayWindowIsOneDay(history[j].entity.passDateTime, day);
    }
  }

  /** A pass of another plate or another date added to the history changes nothing in the query. */
  lemma {:induction false} OtherPassesAreIgnored(history: seq<Identified<TollPass>>, pass: Identified<TollPass>,
                                                 plateNumber: string, day: int)
    requires pass.entity.plateNumber != plateNumber || pass.entity.passDateTime.day != day
    ensures TodaysPasses(history + [pass], plateNumber, day) == TodaysPasses(history, plateNumber, day)
  {
    DayWindowIsOneDay(pass.entity.passDateTime, day);
    if history == [] {
      assert [] + [pass] == [pass];
      assert [pass][1..] == [];
    } else {
      assert (history + [pass])[1..] == history[1..] + [pass];
      OtherPassesAreIgnored(history[1..], pass, plateNumber, day);
    }
  }

  /** The exemption short-circuit: the vehicle type is a stored label, or the date matches a stored record. */
  predicate IsExempt(exemptedVehicles: seq<Identified<TaxExemptedVehicle>>, exemptedDates: seq<ExemptedDate>,
                     calendar: Calendar, vehicle: Vehicle) {
    HasLabel(exemptedVehicles, vehicle.vehicleType) || IsDateExempted(exemptedDates, calendar, vehicle.tollPassDateTime)
  }

  /**
   * What `calculate` returns for `vehicle`, given what the four stores list: 0 when exempt, else
   * the same-day charge over today's passes of the plate with the base fee of the gate time.
   */
  function Charge(exemptedVehicles: seq<Identified<TaxExemptedVehicle>>, exemptedDates: seq<ExemptedDate>,
                  rates: seq<Identified<TaxRate>>, history: seq<Identified<TollPass>>,
                  calendar: Calendar, vehicle: Vehicle): (toll: int)
    ensures toll <= MaximumToll
    ensures IsExempt(exemptedVehicles, exemptedDates, calendar, vehicle) ==> toll == 0
  {
    if IsExempt(exemptedVehicles, exemptedDates, calendar, vehicle) then 0
    else
      var dateTime := vehicle.tollPassDateTime;
      SameDayCharge(TodaysPasses(history, vehicle.plateNumber, dateTime.day), dateTime,
                    BaseFee(Entities(rates), dateTime.time))
  }

  /** With non-negative rates and a history of non-negative amounts, every charge lies in `[0, 60]`. */
  lemma ChargeIsInRange(exemptedVehicles: seq<Identified<TaxExemptedVehicle>>, exemptedDates: seq<ExemptedDate>,
                        rates: seq<Identified<TaxRate>>, history: seq<Identified<TollPass>>,
                        calendar: Calendar, vehicle: Vehicle)
    requires forall i :: 0 <= i < |rates| ==> rates[i].entity.amount >= 0
    requires forall i :: 0 <= i < |history| ==> history[i].entity.tollAmount >= 0
    ensures 0 <= Charge(exemptedVehicles, exemptedDates, rates, history, calendar, vehicle) <= MaximumToll
  {
    if !IsExempt(exemptedVehicles, exemptedDates, calendar, vehicle) {
      var dateTime := vehicle.tollPassDateTime;
      var today := TodaysPasses(history, vehicle.plateNumber, dateTime.day);
      var table := Entities(rates);
      var fee := BaseFee(table, dateTime.time);
      NonNegativeFee(table, dateTime.time);
      if HasNearbyPass(today, dateTime) {
        ChargeWithNearbyPasses(today, dateTime, fee, fee);
        var i :| 0 <= i < |today| && IsWithinOneHour(today[i].entity.passDateTime, dateTime)
                 && SameDayCharge(today, dateTime, fee) == Min(today[i].entity.tollAmount, MaximumToll);
        assert today[i] in history;
      } else {
        ChargeWithoutNearbyPass(today, dateTime, fee);
      }
    }
  }

  /** A table of non-negative rates gives a non-negative fee. */
  lemma {:induction false} NonNegativeFee(rates: seq<TaxRate>, gateTime: SecondOfDay)
    requires forall i :: 0 <= i < |rates| ==> rates[i].amount >= 0
    ensures BaseFee(rates, gateTime) >= 0
  {
    if rates != [] && !rates[0].Applies(gateTime) {
      NonNegativeFee(rates[1..], gateTime);
    }
  }

  // ---------------------------------------------------------------------------------------------
  // The calculator's examples, over the seeded stores

  /** A day that is neither a Saturday, a Sunday nor in July: no seeded date record matches it. */
  ghost predicate IsWorkingDay(calendar: Calendar, day: int) {
    calendar.dayOfWeekOf(day) != Saturday && calendar.dayOfWeekOf(day) != Sunday && calendar.monthOf(day) != July
  }

  /** The seeded stores exempt neither a car nor a working day. */
  lemma CarOnWorkingDayIsCharged(calendar: Calendar, plateNumber: string, dateTime: DateTime)
    requires IsWorkingDay(calendar, dateTime.day)
    ensures !IsExempt(SeedVehicleTable, SeedDates, calendar, Vehicle("Car", plateNumber, dateTime))
  {
    SeedVehiclesExemption("Car");
    SeedDatesExemption(calendar, dateTime);
  }

  /** A motorcycle is exempt with the seeded labels, whatever the date and the history. */
  lemma MotorcycleIsFree(rates: seq<Identified<TaxRate>>, history: seq<Identified<TollPass>>,
                         calendar: Calendar, plateNumber: string, dateTime: DateTime)
    ensures Charge(SeedVehicleTable, SeedDates, rates, history, calendar, Vehicle("Motorcycle", plateNumber, dateTime)) == 0
  {
    SeedVehiclesExemption("Motorcycle");
  }

  /** Any vehicle passing on a July day is exempt with the seeded dates. */
  lemma JulyIsFree(rates: seq<Identified<TaxRate>>, history: seq<Identified<TollPass>>,
                   calendar: Calendar, vehicle: Vehicle)
    requires calendar.monthOf(vehicle.tollPassDateTime.day) == July
    ensures Charge(SeedVehicleTable, SeedDates, rates, history, calendar, vehicle) == 0
  {
    SeedDatesExemption(calendar, vehicle.tollPassDateTime);
  }

  /** Without a history a car on a working day pays the seeded base fee: 06:20 costs 8, 17:20 costs 13, 19:25 nothing. */
  lemma FirstPassOfTheDay(calendar: Calendar, day: int)
    requires IsWorkingDay(calendar, day)
    ensures Charge(SeedVehicleTable, SeedDates, SeedRateTable, [], calendar, Vehicle("Car", "XYZ999", DateTime(day, TimeOf(6, 20)))) == 8
    ensures Charge(SeedVehicleTable, SeedDates, SeedRateTable, [], calendar, Vehicle("Car", "XYZ999", DateTime(day, TimeOf(17, 20)))) == 13
    ensures Charge(SeedVehicleTable, SeedDates, SeedRateTable, [], calendar, Vehicle("Car", "XYZ999", DateTime(day, TimeOf(19, 25)))) == 0
  {
    SeedTableNumbersSeedRates();
    SeedFees();
    CarOnWorkingDayIsCharged(calendar, "XYZ999", DateTime(day, TimeOf(6, 20)));
    CarOnWorkingDayIsCharged(calendar, "XYZ999", DateTime(day, TimeOf(17, 20)));
    CarOnWorkingDayIsCharged(calendar, "XYZ999", DateTime(day, TimeOf(19, 25)));
  }

  /** A pass charged 13 three minutes earlier sets the charge at 06:27, above the base fee 8. */
  lemma EarlierPassWithinTheHour(calendar: Calendar, day: int)
    requires IsWorkingDay(calendar, day)
    ensures Charge(SeedVehicleTable, SeedDates, SeedRateTable,
                   [Identified(1, TollPass("XYZ999", DateTime(day, TimeOf(6, 24)), 13))],
                   calendar, Vehicle("Car", "XYZ999", DateTime(day, TimeOf(6, 27)))) == 13
  {
    CarOnWorkingDayIsCharged(calendar, "XYZ999", DateTime(day, TimeOf(6, 27)));
  }

  /** Of two passes within the hour (13 and 18) the higher sets the charge at 14:35. */
  lemma HighestPassWithinTheHour(calendar: Calendar, day: int)
    requires IsWorkingDay(calendar, day)
    ensures Charge(SeedVehicleTable, SeedDates, SeedRateTable,
                   [Identified(1, TollPass("XYZ999", DateTime(day, TimeOf(14, 15)), 13)),
                    Identified(2, TollPass("XYZ999", DateTime(day, TimeOf(14, 5)), 18))],
                   calendar, Vehicle("Car", "XYZ999", DateTime(day, TimeOf(14, 35)))) == 18
  {
    var history := [Identified(1, TollPass("XYZ999", DateTime(day, TimeOf(14, 15)), 13)),
                    Identified(2, TollPass("XYZ999", DateTime(day, TimeOf(14, 5)), 18))];
    var dateTime := DateTime(day, TimeOf(14, 35));
    CarOnWorkingDayIsCharged(calendar, "XYZ999", dateTime);
    assert history[1..] == [history[1]] && history[1..][1..] == [];
    DayWindowIsOneDay(history[0].entity.passDateTime, day);
    DayWindowIsOneDay(history[1].entity.passDateTime, day);
    assert MatchingPasses(history[1..], "XYZ999", StartOfDay(day), EndOfDay(day)) == [history[1]];
    assert [history[0]] + [history[1]] == history;
    assert TodaysPasses(history, "XYZ999", day) == history;
    assert AmountsWithinOneHour(history, dateTime) == [13, 18];
    assert Highest([13, 18]) == Some(18);
  }

  /** Passes charged 65 and 75 within the hour are capped: the charge at 15:29 is 60. */
  lemma HighPassesAreCapped(calendar: Calendar, day: int)
    requires IsWorkingDay(calendar, day)
    ensures Charge(SeedVehicleTable, SeedDates, SeedRateTable,
                   [Identified(1, TollPass("XYZ999", DateTime(day, TimeOf(15, 19)), 65)),
                    Identified(2, TollPass("XYZ999", DateTime(day, TimeOf(15, 14)), 75))],
                   calendar, Vehicle("Car", "XYZ999", DateTime(day, TimeOf(15, 29)))) == 60
  {
    CarOnWorkingDayIsCharged(calendar, "XYZ999", DateTime(day, TimeOf(15, 29)));
  }

  /** A pass of the previous evening, 23:50, is not counted at 00:10: the charge is the base fee of 00:10, nothing. */
  lemma PreviousDayIsNotCounted(calendar: Calendar, day: int)
    requires IsWorkingDay(calendar, day)
    ensures Charge(SeedVehicleTable, SeedDates, SeedRateTable,
                   [Identified(1, TollPass("XYZ999", DateTime(day - 1, TimeOf(23, 50)), 18))],
                   calendar, Vehicle("Car", "XYZ999", DateTime(day, TimeOf(0, 10)))) == 0
  {
    var dateTime := DateTime(day, TimeOf(0, 10));
    var previous := Identified(1, TollPass("XYZ999", DateTime(day - 1, TimeOf(23, 50)), 18));
    CarOnWorkingDayIsCharged(calendar, "XYZ999", dateTime);
    OtherPassesAreIgnored([], previous, "XYZ999", day);
    assert [] + [previous] == [previous];
    assert TodaysPasses([previous], "XYZ999", day) == [];
    SeedTableNumbersSeedRates();
    NoFeeOutsideSeedIntervals(TimeOf(0, 10));
    ChargeWithoutNearbyPass([], dateTime, 0);
  }

  // ---------------------------------------------------------------------------------------------
  // The calculator

  /** `TaxRateCalculatorImpl`: the four stores it reads, and the calendar `java.time` supplies. */
  class TaxRateCalculator {
    const exemptedDateRepository: ExemptedDateRepository
    const taxRateRepository: TaxRateRepository
    const exemptedVehicleRepository: TaxExemptedVehicleRepository
    const tollPassRepository: TollPassRepository
    const calendar: Calendar

    ghost predicate Valid()
      reads this, exemptedDateRepository, taxRateRepository, taxRateRepository.store,
            exemptedVehicleRepository, exemptedVehicleRepository.store, tollPassRepository, tollPassRepository.store
    {
      exemptedDateRepository.Valid() && taxRateRepository.Valid() && exemptedVehicleRepository.Valid()
      && tollPassRepository.Valid()
    }

    constructor (exemptedDateRepository: ExemptedDateRepository, taxRateRepository: TaxRateRepository,
                 exemptedVehicleRepository: TaxExemptedVehicleRepository, tollPassRepository: TollPassRepository,
                 calendar: Calendar)
      requires exemptedDateRepository.Valid() && taxRateRepository.Valid()
      requires exemptedVehicleRepository.Valid() && tollPassRepository.Valid()
      ensures Valid()
      ensures this.exemptedDateRepository == exemptedDateRepository && this.taxRateRepository == taxRateRepository
      ensures this.exemptedVehicleRepository == exemptedVehicleRepository
      ensures this.tollPassRepository == tollPassRepository && this.calendar == calendar
    {
      this.exemptedDateRepository := exemptedDateRepository;
      this.taxRateRepository := taxRateRepository;
      this.exemptedVehicleRepository := exemptedVehicleRepository;
      this.tollPassRepository := tollPassRepository;
      this.calendar := calendar;
    }

    /**
     * `calculate`: the charge `Charge` gives over what the stores list. An exempt passage writes
     * nothing; any other appends exactly one pass of the plate, at the passage time, with the charge.
     */
    method Calculate(vehicle: Vehicle) returns (toll: int)
      requires Valid()
      modifies tollPassRepository.store
      ensures Valid()
      ensures toll == Charge(exemptedVehicleRepository.store.FindAll(), exemptedDateRepository.FindAll(),
                             taxRateRepository.store.FindAll(), old(tollPassRepository.store.FindAll()), calendar, vehicle)
      ensures toll <= MaximumToll
      ensures IsExempt(exemptedVehicleRepository.store.FindAll(), exemptedDateRepository.FindAll(), calendar, vehicle) ==>
                toll == 0 && unchanged(tollPassRepository.store)
      ensures !IsExempt(exemptedVehicleRepository.store.FindAll(), exemptedDateRepository.FindAll(), calendar, vehicle) ==>
                tollPassRepository.store.FindAll() == old(tollPassRepository.store.FindAll())
                      + [Identified(old(tollPassRepository.store.idGenerator),
                                    TollPass(vehicle.plateNumber, vehicle.tollPassDateTime, toll))]
                && tollPassRepository.store.idGenerator == old(tollPassRepository.store.idGenerator) + 1
    {
      var dateTime := vehicle.tollPassDateTime;
      if IsVehicleExempted(vehicle) || IsDateExempted(exemptedDateRepository.FindAll(), calendar, dateTime) {
        return 0;
      }
      var fee := BaseFee(Entities(taxRateRepository.store.FindAll()), dateTime.time);
      var passesToday := tollPassRepository.FindAllByPlateNumberAndDateTime(
        vehicle.plateNumber, StartOfDay(dateTime.day), EndOfDay(dateTime.day));
      var highestToll := Highest(AmountsWithinOneHour(passesToday, dateTime)).GetOr(fee);
      toll := Min(highestToll, MaximumToll);
      SaveTollPass(vehicle, toll);
    }

    /** `isVehicleExempted`: some stored label equals the vehicle type exactly. */
    function IsVehicleExempted(vehicle: Vehicle): (exempted: bool)
      reads this, exemptedVehicleRepository, exemptedVehicleRepository.store
      requires exemptedVehicleRepository.Valid()
      ensures exempted <==> exists i :: 0 <= i < |exemptedVehicleRepository.store.FindAll()| &&
                                         exemptedVehicleRepository.store.FindAll()[i].entity.vehicle == vehicle.vehicleType
    {
      HasLabel(exemptedVehicleRepository.store.FindAll(), vehicle.vehicleType)
    }

    /** `saveTollPass`: record the passage with the charged amount through the store's `save`. */
    method SaveTollPass(vehicle: Vehicle, toll: int)
      requires Valid()
      modifies tollPassRepository.store
      ensures Valid()
      ensures tollPassRepository.store.FindAll() == old(tollPassRepository.store.FindAll())
                + [Identified(old(tollPassRepository.store.idGenerator),
                              TollPass(vehicle.plateNumber, vehicle.tollPassDateTime, toll))]
      ensures tollPassRepository.store.idGenerator == old(tollPassRepository.store.idGenerator) + 1
    {
      var saved := tollPassRepository.store.Save(TollPass(vehicle.plateNumber, vehicle.tollPassDateTime, toll));
    }
  }
}
