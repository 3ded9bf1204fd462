/** The marriages report: every family whose description does not start
    with "FAM", one line each, in the order the families are supplied
    (sorted by the marriage comparator). */
module Marriages {
  import opened Common
  import opened Seqs
  import opened JavaStrings

  /** `MarriageComparator.compare`: Java string order on the families'
      descriptions. */
  function MarriageCompare(f1: Family, f2: Family): (r: int)
    ensures r == 0 <==> f1.desc == f2.desc
    ensures r < 0 <==> CompareTo(f2.desc, f1.desc) > 0
  {
    CompareZeroIff(f1.desc, f2.desc);
    CompareAntisymmetric(f1.desc, f2.desc);
    CompareTo(f1.desc, f2.desc)
  }

  /** Swapping the families gives the opposite sign. */
  lemma MarriageCompareAntisymmetric(f1: Family, f2: Family)
    ensures MarriageCompare(f1, f2) == -MarriageCompare(f2, f1)
  {
    CompareAntisymmetric(f1.desc, f2.desc);
  }

  /** The comparator is transitive, so it is a total preorder on families. */
  lemma MarriageCompareTransitive(f1: Family, f2: Family, f3: Family)
    requires MarriageCompare(f1, f2) <= 0 && MarriageCompare(f2, f3) <= 0
    ensures MarriageCompare(f1, f3) <= 0
  {
    CompareTransitive(f1.desc, f2.desc, f3.desc);
  }

  /** A family whose description is a proper prefix of another's sorts first. */
  lemma PrefixFamilyFirst(f1: Family, f2: Family)
    requires f1.desc < f2.desc
    ensures MarriageCompare(f1, f2) < 0
  {
    ProperPrefixIsLess(f1.desc, f2.desc);
  }

  /** A family is listed unless its description starts with "FAM", which is
      how an unnamed family describes itself. */
  predicate Listed(f: Family)
  {
    !("FAM" <= f.desc)
  }

  /** The line written for a listed family: the "format" message with the
      family's id and description. */
  function LineOf(i18n: (string, seq<string>) -> string): Family -> string
  {
    (f: Family) => i18n("format", [f.id, f.desc]) + "\n"
  }

  /** Neighbouring families in order. */
  predicate ChainSorted(fams: seq<Family>)
  {
    forall i :: 0 < i < |fams| ==> MarriageCompare(fams[i - 1], fams[i]) <= 0
  }

  /** Because the comparator is transitive, neighbours in order means any
      two families in order. */
  lemma {:induction false} ChainSortedPair(fams: seq<Family>, i: nat, j: nat)
    requires ChainSorted(fams)
    requires i < j < |fams|
    ensures MarriageCompare(fams[i], fams[j]) <= 0
    decreases j - i
  {
    if i + 1 < j {
      ChainSortedPair(fams, i, j - 1);
      MarriageCompareTransitive(fams[i], fams[j - 1], fams[j]);
    }
  }

  lemma ChainSortedIsSorted(fams: seq<Family>)
    requires ChainSorted(fams)
    ensures Sorted(fams, MarriageCompare)
  {
    forall i, j | 0 <= i < j < |fams|
      ensures MarriageCompare(fams[i], fams[j]) <= 0
    {
      ChainSortedPair(fams, i, j);
    }
  }

  /** Leaving out the unnamed families keeps a sorted list sorted. */
  lemma ListedStaySorted(fams: seq<Family>)
    requires ChainSorted(fams)
    ensures Sorted(Filter(fams, Listed), MarriageCompare)
  {
    ChainSortedIsSorted(fams);
    FilterSorted(fams, Listed, MarriageCompare);
  }

  /** The report body: walk the families in the order given and write one
      line for each listed family. */
  method MarriagesReport(i18n: (string, seq<string>) -> string, fams: seq<Family>)
    returns (lines: seq<string>)
    ensures lines == Emitted(fams, Listed, LineOf(i18n))
  {
    lines := [];
    for i := 0 to |fams|
      invariant lines == Emitted(fams[..i], Listed, LineOf(i18n))
    {
      EmittedPrefixStep(fams, i, Listed, LineOf(i18n));
      var fam := fams[i];
      var famdesc := fam.desc;
      if "FAM" <= famdesc {
        continue;
      }
      var result := i18n("format", [fam.id, famdesc]);
      lines := lines + [result + "\n"];
    }
    assert fams[..|fams|] == fams;
  }
}
