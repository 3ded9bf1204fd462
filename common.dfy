/** The genealogy records the three reports read, and the host library
    calls they make.  Records are values: no report changes them. */
module Common {

  datatype Option<T> = None | Some(value: T)

  datatype Sex = Male | Female | Unknown

  /** A calendar date.  Only its construction from a year is used by the
      reports; how two dates compare is the host library's business. */
  datatype Date = Date(year: int, month: int, day: int)

  /** An entry of an individual's NAME property list.  The list may hold
      properties that are not name properties; a name property may lack its
      full name or its last name. */
  datatype NameProp =
    | OtherProp
    | PropertyName(name: Option<string>, lastName: Option<string>)

  /** An individual: its id, its display name (`getName`), its NAME
      properties in file order, its sex and its birth and death dates. */
  datatype Person = Person(
    id: string,
    name: string,
    names: seq<NameProp>,
    sex: Sex,
    birth: Option<Date>,
    death: Option<Date>)

  /** A family: its id and its description (`toString`), typically the
      husband's and the wife's names, or a text starting with "FAM" when
      neither is named. */
  datatype Family = Family(id: string, desc: string)

  /** The library calls the reports depend on but whose code is not part of
      this model: message formatting, date display, date comparison and the
      partner lookup of an individual. */
  datatype Host = Host(
    i18n: (string, seq<string>) -> string,
    dateText: Date -> string,
    compare: (Date, Date) -> int,
    partners: Person -> seq<Person>)

  /** Date comparisons that only ever answer -1, 0 or 1. */
  ghost predicate SignValued(compare: (Date, Date) -> int)
  {
    forall a: Date, b: Date :: -1 <= compare(a, b) <= 1
  }

  /** One comparison of that kind: chronological order on (year, month, day). */
  function Chronological(a: Date, b: Date): (r: int)
    ensures -1 <= r <= 1
    ensures r == 0 <==> a == b
  {
    if a.year != b.year then (if a.year < b.year then -1 else 1)
    else if a.month != b.month then (if a.month < b.month then -1 else 1)
    else if a.day != b.day then (if a.day < b.day then -1 else 1)
    else 0
  }
}
