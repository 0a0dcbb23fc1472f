/** Exempted-date records: a calendar rule tagged by the kind of date it names. */
module ExemptedDates {
  import opened Clock

  /** The three tags, in declaration order. */
  datatype DateType = DayOfWeekType | HolidayDateType | MonthType

  /**
   * `ExemptedDate`: one constructor per factory (`ofDayOfWeek`, `ofHolidayDate`, `ofMonth`).
   * Each carries the id and only the payload its tag uses; a holiday is a day index.
   */
  datatype ExemptedDate =
    | OfDayOfWeek(id: int, dayOfWeek: DayOfWeek)
    | OfHolidayDate(id: int, holidayDate: int)
    | OfMonth(id: int, month: Month)
  {
    /** `getType()`: every factory has its own tag, and no other record carries that tag. */
    function Type(): (t: DateType)
      ensures t == DayOfWeekType <==> this.OfDayOfWeek?
      ensures t == HolidayDateType <==> this.OfHolidayDate?
      ensures t == MonthType <==> this.OfMonth?
    {
      match this
      case OfDayOfWeek(_, _) => DayOfWeekType
      case OfHolidayDate(_, _) => HolidayDateType
      case OfMonth(_, _) => MonthType
    }

    /** The copy `save` makes: same tag and payload, a new id. */
    function WithId(newId: int): (r: ExemptedDate)
      ensures r.id == newId
      ensures r.Type() == Type()
    {
      match this
      case OfDayOfWeek(_, d) => OfDayOfWeek(newId, d)
      case OfHolidayDate(_, h) => OfHolidayDate(newId, h)
      case OfMonth(_, m) => OfMonth(newId, m)
    }

    /** `equals`: records are compared by id alone. */
    predicate Equals(other: ExemptedDate) {
      id == other.id
    }
  }

  /** Re-stamping a copy with the original id gives the record back: `save` keeps tag and payload. */
  lemma CopyKeepsPayload(e: ExemptedDate, n: int)
    ensures e.WithId(n).WithId(e.id) == e
    ensures e.WithId(n) == e <==> n == e.id
  {
  }
}
