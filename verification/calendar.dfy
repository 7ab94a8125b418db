/** Calendar dates as the database stores them (a DATE column). Parsing and
    formatting of date text are not part of this model. */
module Calendar {
  /** `month` counts from 1, as `EXTRACT(MONTH FROM ...)` does. */
  datatype Date = Date(year: int, month: int, day: int)
}
