# Genealogy reports: dates, surnames and marriages

A Dafny model of three read-only reports over a GEDCOM genealogy file:

- **Dates report** (`Dates`). Given a year Y, it is meant to list the
  individuals alive during Y (default mode), or those who died in Y or later
  (death mode). It builds the boundary dates "1 Jan Y" and "31 Dec Y", and
  skips individuals without a birth date. It tests the rest with the test
  described below, which accepts more than that, and writes one line per
  match. The line holds the id, a names column and the
  birth and death columns.
- **Surnames report** (`Surnames`). Given a last name, it lists each
  individual with a NAME property carrying that last name. It also lists each
  woman one of whose partners passes the same check. The line always shows
  the listed individual's own id and name.
- **Marriages report** (`Marriages`). It lists the families, sorted by
  description with Java string order. Families whose description starts with
  "FAM" are left out.

Individuals and families are values (`Common`). Each report loop is a method
that returns the lines it writes, in order. The method is proved equal to
`Seqs.Emitted`: keep the entities a predicate accepts, in input order, and
map each one to its line. The library calls the reports make are fields of
`Common.Host`: message formatting (`i18n`), date display, date comparison
and the partner lookup. Each stays uninterpreted.

Behaviour of the code that the model keeps as written:

- The death-side test of the dates report is `compare(...) <= 1`. For a
  comparison that answers only -1, 0 or 1, that test always holds. So
  someone who died before Y is still reported in both modes, and death mode
  lists everyone with both dates (`Dates.SignValuedIgnoresDeathTest`,
  `Dates.DeadBeforeYearReported`). `Dates.Overlaps` is the inclusive overlap
  of the lifespan with the year; the report accepts every such individual
  (`Dates.OverlapIsReported`).
- The marriages report drops exactly the families whose description starts
  with "FAM".
- The surname check recurses into a woman's partners with no depth limit.
  If two women are each other's only partner and neither has the name, it
  never returns (`Surnames.FemalePairNeverReturns`). A woman whose female
  partner has the name is still listed after one level
  (`Surnames.FemalePartnerWithNameReturns`). On every input, the check
  returns within one level of partners when no woman has a woman among her
  partners (`Surnames.OneLevelSuffices`).
- The year is taken as given; the code checks nothing about it.

## Model

| member | source | states |
|---|---|---|
| Dates.Reported | ReportDates.java:87-114 | no birth date means never reported, in either mode; a default-mode report implies 31 Dec Y is not before the birth; a death-mode report implies a death date |
| Dates.NoDeathDefaultMode | ReportDates.java:106-109 | with no death date, default mode reports iff 31 Dec Y is not before the birth date |
| Dates.SignValuedIgnoresDeathTest | ReportDates.java:105-114 | when compare answers only -1/0/1, default mode reduces to the birth test and death mode to "birth and death dates present" |
| Dates.DeadBeforeYearReported | ReportDates.java:105-114 | with chronological comparison, someone born and dead before Y is reported in both modes |
| Dates.OverlapIsReported | ReportDates.java:105-109 | every lifespan that overlaps the year (inclusive, open-ended when there is no death) is reported in default mode |
| Dates.OnlyFirstIsPrimary | ReportDates.java:118-139 | only a full name at property index 0 is formatted with "fmtName"; every other piece uses "fmtAliases", so with no full name at index 0 no piece uses "fmtName" |
| Dates.EntriesAreFullNames | ReportDates.java:118-139 | the names column holds one piece per name property with a full name, in property order; other properties and null names add nothing |
| Dates.RenderStep | ReportDates.java:119-138 | each property appends only its own piece to the names column |
| Dates.FormatNames | ReportDates.java:116-139 | the loop's string is the rendering of the name pieces, in order |
| Dates.ReportedDatesShown | ReportDates.java:142-150 | a reported line's birth column is the birth date's text, and in death mode its death column is the death date's text, never "(unknown)" |
| Dates.DatesReport | ReportDates.java:75-159 | exactly one line per reported individual, in input order, with its id, names column and date columns; nothing for the others |
| Surnames.FirstMatch | ReportSurnames.java:99-119 | the scan finds the first NAME property whose last name equals the target exactly; when it finds none, no property matches; properties that are not names or lack a last name never match |
| Surnames.MatchIgnoresOrder | ReportSurnames.java:100-117 | whether a direct match exists does not depend on the order of the name properties |
| Surnames.CheckNames | ReportSurnames.java:98-139 | any success carries the line built from the checked individual's own id and name; a direct match always succeeds; an individual who is not a woman and has no direct match yields no line whatever their partners |
| Surnames.ScanPartners | ReportSurnames.java:129-136 | a success in the partner loop is attributed to the woman, not to the partner |
| Surnames.ScanPartnersFirstSuccess | ReportSurnames.java:129-136 | the partner loop succeeds iff some partner's check succeeds and every earlier partner returned no line |
| Surnames.FemaleMatchesThroughPartner | ReportSurnames.java:120-136 | a woman with no direct match succeeds iff, in partner order, some partner's check succeeds before any partner's check fails to return |
| Surnames.FemalePairNeverReturns | ReportSurnames.java:120-130 | two women who are each other's only partner, neither with the name: the check on either never returns, for any depth |
| Surnames.ScanNonFemalePartners | ReportSurnames.java:129-136 | over partners who are not women, the loop succeeds iff some partner has a direct match |
| Surnames.OneLevelSuffices | ReportSurnames.java:120-138 | if no woman has a woman as partner, the check returns after one level of partners; it succeeds iff the individual has the name or is a woman with a partner who has it |
| Surnames.FuelMono | ReportSurnames.java:98-139 | once the depth-bounded check gives an answer other than "out of fuel", every larger depth gives the same answer |
| Surnames.ScanMono | ReportSurnames.java:129-136 | the same for the partner loop |
| Surnames.FemalePartnerWithNameReturns | ReportSurnames.java:120-134 | a woman whose only partner is a woman with the name is listed, under her own id and name, after one level |
| Surnames.SurnamesReport | ReportSurnames.java:65-76 | for any individuals on which the check returns, at most one line per individual, in input order, exactly for those the check accepts, each line that individual's own |
| Surnames.OneLevelReport | ReportSurnames.java:65-76 | when no woman has a woman as partner, depth 1 serves every list of individuals and the report lists exactly those with the name or, for a woman, a partner with it |
| Marriages.MarriageCompare | ReportMarriages.java:148-159 | the comparator is zero iff the two descriptions are equal, and negative iff the reverse comparison is positive |
| Marriages.MarriageCompareAntisymmetric | ReportMarriages.java:156-158 | swapping the families negates the result |
| Marriages.MarriageCompareTransitive | ReportMarriages.java:156-158 | "compares at most equal" is transitive, so the comparator is a total preorder |
| Marriages.PrefixFamilyFirst | ReportMarriages.java:156-158 | a family whose description is a proper prefix of another's sorts first |
| Marriages.ChainSortedPair | ReportMarriages.java:42 | families sorted pair by neighbouring pair are in order at every distance |
| Marriages.ChainSortedIsSorted | ReportMarriages.java:42 | a list sorted by neighbours is sorted for every pair |
| Marriages.ListedStaySorted | ReportMarriages.java:61-83 | dropping the "FAM" families from a sorted list leaves it sorted |
| Marriages.MarriagesReport | ReportMarriages.java:61-83 | a family is skipped iff its description starts with "FAM"; every other family gets exactly one line, formatted from (id, description), in input order |
| JavaStrings.CompareZeroIff | ReportMarriages.java:158 | `compareTo` is zero iff the strings are equal |
| JavaStrings.CompareAntisymmetric | ReportMarriages.java:158 | `compareTo(a, b) == -compareTo(b, a)` |
| JavaStrings.CompareTransitive | ReportMarriages.java:158 | `compareTo(a, b) <= 0` and `compareTo(b, c) <= 0` give `compareTo(a, c) <= 0` |
| JavaStrings.CompareStrictTransitive | ReportMarriages.java:158 | the same for strict order |
| JavaStrings.ProperPrefixIsLess | ReportMarriages.java:158 | a proper prefix compares less, by the difference of the lengths |
| Seqs.EmittedAppend | ReportSurnames.java:65-76 | the lines for a concatenation are the lines for each part: each entity is decided alone and lines keep input order (shared by all three report loops) |
| Seqs.EmittedSingle | ReportMarriages.java:61-83 | one entity yields its line iff it is kept, otherwise nothing (shared by all three report loops) |
| Seqs.FilterSorted | ReportMarriages.java:61-83 | filtering a sorted sequence keeps it sorted |

## Left out

- Output plumbing is not modelled. That covers the temporary file name built
  from system properties and the clock, the output stream, the HTML header
  and footer, the write-error handlers, and starting the browser. A report
  method returns the lines it writes between header and footer.
- Prompting for the year or last name, and the abort when the prompt is
  cancelled, are user interaction and are not modelled.
- Date parsing and date internals belong to the host library.
  `PropertyDate.setValue` (parsing "1 Jan Y" from the user's text),
  `PropertyDate.compareTo` with its handling of partial dates, and
  `PropertyDate.toString` stay abstract. The year is an integer, and the two
  dates go to `Host.compare`.
- `i18n`, `getPartners`, `getName`, `getId` and `toString` are uninterpreted.
  `i18n` is a total function returning a string, so the null test at
  ReportMarriages.java:75 always passes. `getName`, `getId` and `toString`
  are record fields.
- The order of the entity arrays comes from `Gedcom.getEntities`, whose
  sorting (and its stability) is not visible. The ordered sequence is an
  input; ReportMarriages.java:42 contributes only the assumption that it is
  sorted by the comparator.
- DEBUG printing is left out; it never affects what is written.
- The metadata getters are left out (`getVersion`, `getName`, `getInfo`,
  `getAuthor`, `usesStandardOut`, `isReadOnly`). They return constants.
- JavaStrings.CompareTo compares Dafny characters (Unicode scalar values).
  Java compares UTF-16 code units, so results differ only for characters
  outside the Basic Multilingual Plane.
- Surnames.CheckNames: the unbounded recursion is bounded by fuel. A call
  that needs more depth yields `OutOfFuel`; one that never returns yields it
  at every depth (`Surnames.FemalePairNeverReturns`). An answer other than
  `OutOfFuel` is the same at every larger depth (`Surnames.FuelMono`). The
  stack overflow the source would hit is not modelled.
- Surnames.SurnamesReport takes a depth and requires that the check returns
  within it for every individual. Lists on which the source's check never
  returns get no report.
