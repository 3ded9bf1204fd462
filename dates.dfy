/** The dates report, meant to list the individuals living during a given
    year (default mode) or dying in it or later (death mode).  What it lists
    is decided by the test in `Matches`: a birth date up to 31 Dec of the
    year, and a death-side comparison accepted up to 1, which a comparison
    answering -1, 0 or 1 always passes.  One line each, in the order the
    individuals are supplied. */
module Dates {
  import opened Common
  import opened Seqs

  /** The boundary dates "1 Jan Y" and "31 Dec Y". */
  function YearStart(year: int): Date { Date(year, 1, 1) }
  function YearEnd(year: int): Date { Date(year, 12, 31) }

  /** The report's test for an individual with a birth date, as the report
      writes it.  The death-side comparisons accept any result up to 1, not
      up to 0. */
  predicate Matches(compare: (Date, Date) -> int, dateStart: Date, dateEnd: Date,
                    deathMode: bool, birth: Date, death: Option<Date>)
  {
    || (!deathMode && compare(dateEnd, birth) >= 0 &&
        (death.None? || compare(dateStart, death.value) <= 1))
    || (deathMode && death.Some? && compare(dateStart, death.value) <= 1)
  }

  /** Whether the report writes a line for `p`: individuals without a birth
      date are skipped before the test, in either mode. */
  predicate Reported(h: Host, year: int, deathMode: bool, p: Person): (r: bool)
    ensures p.birth.None? ==> !r
    ensures r && !deathMode ==> h.compare(YearEnd(year), p.birth.value) >= 0
    ensures r && deathMode ==> p.death.Some?
  {
    p.birth.Some? &&
    Matches(h.compare, YearStart(year), YearEnd(year), deathMode, p.birth.value, p.death)
  }

  /** In default mode, someone with no death date is reported exactly when
      31 Dec Y is not before the birth date. */
  lemma NoDeathDefaultMode(h: Host, year: int, p: Person)
    requires p.death.None?
    ensures Reported(h, year, false, p) <==>
              p.birth.Some? && h.compare(YearEnd(year), p.birth.value) >= 0
  {
  }

  /** When the comparison only answers -1, 0 or 1 the death-side test always
      holds: the default mode is the birth test alone and the death mode only
      asks for a death date. */
  lemma SignValuedIgnoresDeathTest(h: Host, year: int, p: Person)
    requires SignValued(h.compare)
    ensures Reported(h, year, false, p) <==>
              p.birth.Some? && h.compare(YearEnd(year), p.birth.value) >= 0
    ensures Reported(h, year, true, p) <==> p.birth.Some? && p.death.Some?
  {
  }

  /** With chronological comparison, someone born and dead before the year is
      still reported in both modes. */
  lemma DeadBeforeYearReported(h: Host, year: int, p: Person)
    requires h.compare == Chronological
    requires p.birth.Some? && p.birth.value.year < year
    requires p.death.Some? && p.death.value.year < year
    ensures Reported(h, year, false, p) && Reported(h, year, true, p)
  {
  }

  /** The inclusive overlap of [birth, death or forever] with the year. */
  predicate Overlaps(compare: (Date, Date) -> int, year: int, p: Person)
  {
    p.birth.Some? && compare(YearEnd(year), p.birth.value) >= 0 &&
    (p.death.None? || compare(YearStart(year), p.death.value) <= 0)
  }

  /** The report's default mode accepts every overlapping lifespan (and, by
      the lemma above, more). */
  lemma OverlapIsReported(h: Host, year: int, p: Person)
    requires Overlaps(h.compare, year, p)
    ensures Reported(h, year, false, p)
  {
  }

  /** One piece of the names column: a message template and the name it
      formats. */
  datatype NameEntry = NameEntry(template: string, name: string)

  predicate HasFullName(prop: NameProp)
  {
    prop.PropertyName? && prop.name.Some?
  }

  /** The piece contributed by the property at index `j`: none for a
      property that is not a name or has no name, "fmtName" for index 0 and
      "fmtAliases" for every other index. */
  function EntryAt(props: seq<NameProp>, j: nat): seq<NameEntry>
    requires j < |props|
  {
    match props[j]
    case PropertyName(Some(n), _) => [NameEntry(if j == 0 then "fmtName" else "fmtAliases", n)]
    case _ => []
  }

  /** The pieces contributed by the first `n` properties. */
  function EntriesUpTo(props: seq<NameProp>, n: nat): seq<NameEntry>
    requires n <= |props|
  {
    if n == 0 then [] else EntriesUpTo(props, n - 1) + EntryAt(props, n - 1)
  }

  function NameEntries(props: seq<NameProp>): seq<NameEntry>
  {
    EntriesUpTo(props, |props|)
  }

  /** Only a full name at index 0 is formatted with "fmtName"; when index 0
      holds no full name, every piece uses "fmtAliases". */
  lemma {:induction false} OnlyFirstIsPrimary(props: seq<NameProp>, n: nat)
    requires n <= |props|
    ensures n > 0 && HasFullName(props[0]) ==> |EntriesUpTo(props, n)| > 0
    ensures forall k :: 0 <= k < |EntriesUpTo(props, n)| ==>
              EntriesUpTo(props, n)[k].template ==
                if k == 0 && HasFullName(props[0]) then "fmtName" else "fmtAliases"
  {
    if n > 0 {
      OnlyFirstIsPrimary(props, n - 1);
      var e := EntriesUpTo(props, n - 1);
      assert EntriesUpTo(props, n) == e + EntryAt(props, n - 1);
      if n - 1 == 0 {
        assert e == [];
      }
    }
  }

  /** The pieces are the full names of the name properties, in order: a
      property that is not a name, or has no name, contributes nothing. */
  lemma {:induction false} EntriesAreFullNames(props: seq<NameProp>, n: nat)
    requires n <= |props|
    ensures |EntriesUpTo(props, n)| == |Filter(props[..n], HasFullName)|
    ensures forall k :: 0 <= k < |EntriesUpTo(props, n)| ==>
              EntriesUpTo(props, n)[k].name == Filter(props[..n], HasFullName)[k].name.value
  {
    if n > 0 {
      EntriesAreFullNames(props, n - 1);
      FilterPrefixStep(props, n - 1, HasFullName);
      assert EntriesUpTo(props, n) == EntriesUpTo(props, n - 1) + EntryAt(props, n - 1);
    }
  }

  /** The names column: each piece formatted by the message catalogue,
      concatenated in order. */
  function Render(i18n: (string, seq<string>) -> string, es: seq<NameEntry>): string
  {
    if es == [] then ""
    else Render(i18n, es[..|es| - 1]) + i18n(es[|es| - 1].template, [es[|es| - 1].name])
  }

  /** The text property `j` adds to the names column: the rendering of its
      piece `EntryAt(props, j)`, written out (empty when there is none). */
  function PieceAt(i18n: (string, seq<string>) -> string, props: seq<NameProp>, j: nat): string
    requires j < |props|
  {
    if HasFullName(props[j])
    then i18n(if j == 0 then "fmtName" else "fmtAliases", [props[j].name.value])
    else ""
  }

  /** Each property adds its own piece at the end of the names column. */
  lemma RenderStep(i18n: (string, seq<string>) -> string, props: seq<NameProp>, j: nat)
    requires j < |props|
    ensures Render(i18n, EntriesUpTo(props, j + 1)) ==
            Render(i18n, EntriesUpTo(props, j)) + PieceAt(i18n, props, j)
  {
    var before := EntriesUpTo(props, j);
    if HasFullName(props[j]) {
      var e := NameEntry(if j == 0 then "fmtName" else "fmtAliases", props[j].name.value);
      assert EntriesUpTo(props, j + 1) == before + [e];
      assert (before + [e])[..|before|] == before;
    } else {
      assert EntriesUpTo(props, j + 1) == before;
    }
  }

  /** The loop that builds the names column of a line. */
  method FormatNames(i18n: (string, seq<string>) -> string, props: seq<NameProp>)
    returns (strNames: string)
    ensures strNames == Render(i18n, NameEntries(props))
  {
    strNames := "";
    for j := 0 to |props|
      invariant strNames == Render(i18n, EntriesUpTo(props, j))
    {
      RenderStep(i18n, props, j);
      if props[j].PropertyName? {
        var pn := props[j];
        var name := pn.name;
        if name.None? {
          continue;
        }
        var fmtargs := [name.value];
        if j == 0 {
          strNames := strNames + i18n("fmtName", fmtargs);
        } else {
          strNames := strNames + i18n("fmtAliases", fmtargs);
        }
      }
    }
  }

  /** A date column: the date's text, or "(unknown)" when it is absent. */
  function DateText(h: Host, d: Option<Date>): string
  {
    if d.None? then "(unknown)" else h.dateText(d.value)
  }

  /** A reported individual's birth column always shows the birth date, and
      in death mode the death column always shows the death date. */
  lemma ReportedDatesShown(h: Host, year: int, deathMode: bool, p: Person)
    requires Reported(h, year, deathMode, p)
    ensures DateText(h, p.birth) == h.dateText(p.birth.value)
    ensures deathMode ==> DateText(h, p.death) == h.dateText(p.death.value)
  {
  }

  /** The line for an individual: the "format" message over its id, its
      names column and its two date columns. */
  function DateLine(h: Host, p: Person): string
  {
    h.i18n("format", [p.id, Render(h.i18n, NameEntries(p.names)),
                      DateText(h, p.birth), DateText(h, p.death)]) + "\n"
  }

  function ReportedBy(h: Host, year: int, deathMode: bool): Person -> bool
  {
    (p: Person) => Reported(h, year, deathMode, p)
  }

  function LineOf(h: Host): Person -> string
  {
    (p: Person) => DateLine(h, p)
  }

  /** The report body: walk the individuals in the order given and write
      one line for each one the test accepts. */
  method DatesReport(h: Host, year: int, deathMode: bool, indis: seq<Person>)
    returns (lines: seq<string>)
    ensures lines == Emitted(indis, ReportedBy(h, year, deathMode), LineOf(h))
  {
    var dateStart, dateEnd := YearStart(year), YearEnd(year);
    lines := [];
    for i := 0 to |indis|
      invariant lines == Emitted(indis[..i], ReportedBy(h, year, deathMode), LineOf(h))
    {
      EmittedPrefixStep(indis, i, ReportedBy(h, year, deathMode), LineOf(h));
      var indi := indis[i];
      if indi.birth.None? {
        continue;
      }
      if Matches(h.compare, dateStart, dateEnd, deathMode, indi.birth.value, indi.death) {
        var strNames := FormatNames(h.i18n, indi.names);
        var msgargs := [indi.id, strNames, DateText(h, indi.birth), DateText(h, indi.death)];
        var strOut := h.i18n("format", msgargs) + "\n";
        lines := lines + [strOut];
      }
    }
    assert indis[..|indis|] == indis;
  }
}
