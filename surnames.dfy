/** The surnames report: the individuals with a NAME property whose last
    name is the one asked for, and the women one of whose partners has it
    (a woman is assumed to be recorded under her maiden name). */
module Surnames {
  import opened Common
  import opened Seqs

  /** A name property whose last name is exactly `lastname` (case-sensitive).
      Properties that are not names, or have no last name, never qualify. */
  predicate LastNameIs(prop: NameProp, lastname: string)
  {
    prop.PropertyName? && prop.lastName == Some(lastname)
  }

  /** The scan over an individual's NAME properties: the index of the first
      one whose last name matches, if any. */
  function FirstMatch(props: seq<NameProp>, lastname: string): (r: Option<nat>)
    ensures r.Some? ==> r.value < |props| && LastNameIs(props[r.value], lastname)
    ensures r.Some? ==> forall k :: 0 <= k < r.value ==> !LastNameIs(props[k], lastname)
    ensures r.None? ==> forall k :: 0 <= k < |props| ==> !LastNameIs(props[k], lastname)
  {
    if props == [] then None
    else if LastNameIs(props[0], lastname) then Some(0)
    else match FirstMatch(props[1..], lastname)
      case None => None
      case Some(k) => Some(k + 1)
  }

  /** Whether a name matches depends only on which properties there are, not
      on their order. */
  lemma MatchIgnoresOrder(props: seq<NameProp>, other: seq<NameProp>, lastname: string)
    requires multiset(props) == multiset(other)
    ensures FirstMatch(props, lastname).Some? <==> FirstMatch(other, lastname).Some?
  {
    if FirstMatch(props, lastname).Some? {
      var x := props[FirstMatch(props, lastname).value];
      assert x in multiset(other);
      var k :| 0 <= k < |other| && other[k] == x;
    }
    if FirstMatch(other, lastname).Some? {
      var x := other[FirstMatch(other, lastname).value];
      assert x in multiset(props);
      var k :| 0 <= k < |props| && props[k] == x;
    }
  }

  /** The outcome of `checkNames`, with the recursion bounded by fuel:
      the formatted line, no line (null), or fuel exhausted. */
  datatype Resolution = Match(line: string) | NoMatch | OutOfFuel

  /** The "format" message over an individual's own id and name. */
  function FormatLine(h: Host, p: Person): string
  {
    h.i18n("format", [p.id, p.name])
  }

  /** `checkNames(p, lastname)`.  A direct match answers at once; failing
      that, a woman's partners are tried in order, each by the same check,
      and a partner's success is reported under her own id and name.  Each
      descent into partners spends one unit of fuel. */
  function CheckNames(h: Host, p: Person, lastname: string, fuel: nat): (r: Resolution)
    ensures r.Match? ==> r.line == FormatLine(h, p)
    ensures FirstMatch(p.names, lastname).Some? ==> r.Match?
    ensures FirstMatch(p.names, lastname).None? && p.sex != Female ==> r == NoMatch
    decreases fuel, 0, 0
  {
    if FirstMatch(p.names, lastname).Some? then Match(FormatLine(h, p))
    else if p.sex != Female then NoMatch
    else if fuel == 0 then OutOfFuel
    else ScanPartners(h, p, h.partners(p), lastname, fuel - 1)
  }

  /** The loop over the partners of `p`: the first partner whose check
      succeeds makes `p` a match; a partner whose check does not return
      stops the loop. */
  function ScanPartners(h: Host, p: Person, partners: seq<Person>, lastname: string, fuel: nat)
    : (r: Resolution)
    ensures r.Match? ==> r.line == FormatLine(h, p)
    decreases fuel, 1, |partners|
  {
    if partners == [] then NoMatch
    else match CheckNames(h, partners[0], lastname, fuel)
      case Match(_) => Match(FormatLine(h, p))
      case NoMatch => ScanPartners(h, p, partners[1..], lastname, fuel)
      case OutOfFuel => OutOfFuel
  }

  /** The partner at index `k` is the first whose check succeeds, and every
      partner before it returned no line. */
  predicate SucceedsAt(h: Host, partners: seq<Person>, lastname: string, fuel: nat, k: nat)
    requires k < |partners|
  {
    && CheckNames(h, partners[k], lastname, fuel).Match?
    && forall j :: 0 <= j < k ==> CheckNames(h, partners[j], lastname, fuel) == NoMatch
  }

  /** Dropping the first partner shifts the index of the first success. */
  lemma SucceedsAtShift(h: Host, partners: seq<Person>, lastname: string, fuel: nat, k: nat)
    requires 0 < k < |partners|
    ensures SucceedsAt(h, partners, lastname, fuel, k) <==>
              CheckNames(h, partners[0], lastname, fuel) == NoMatch &&
              SucceedsAt(h, partners[1..], lastname, fuel, k - 1)
  {
    var rest := partners[1..];
    assert forall j :: 0 <= j < k - 1 ==> rest[j] == partners[j + 1];
    assert rest[k - 1] == partners[k];
    if CheckNames(h, partners[0], lastname, fuel) == NoMatch &&
       SucceedsAt(h, rest, lastname, fuel, k - 1) {
      forall j | 0 <= j < k
        ensures CheckNames(h, partners[j], lastname, fuel) == NoMatch
      {
        if j > 0 { assert partners[j] == rest[j - 1]; }
      }
    }
  }

  /** The partner loop succeeds exactly when some partner's check succeeds
      and every partner before it returned no line. */
  lemma {:induction false} ScanPartnersFirstSuccess(h: Host, p: Person, partners: seq<Person>,
                                                    lastname: string, fuel: nat)
    ensures ScanPartners(h, p, partners, lastname, fuel).Match? <==>
              exists k :: 0 <= k < |partners| && SucceedsAt(h, partners, lastname, fuel, k)
    decreases |partners|
  {
    if partners != [] {
      var rest := partners[1..];
      var r0 := CheckNames(h, partners[0], lastname, fuel);
      if r0.Match? {
        assert SucceedsAt(h, partners, lastname, fuel, 0);
      } else if r0.OutOfFuel? {
        forall k | 0 <= k < |partners|
          ensures !SucceedsAt(h, partners, lastname, fuel, k)
        {
          if k > 0 {
            assert CheckNames(h, partners[0], lastname, fuel) != NoMatch;
          }
        }
      } else {
        ScanPartnersFirstSuccess(h, p, rest, lastname, fuel);
        assert ScanPartners(h, p, partners, lastname, fuel) == ScanPartners(h, p, rest, lastname, fuel);
        if ScanPartners(h, p, rest, lastname, fuel).Match? {
          var k :| 0 <= k < |rest| && SucceedsAt(h, rest, lastname, fuel, k);
          SucceedsAtShift(h, partners, lastname, fuel, k + 1);
        }
        if exists k :: 0 <= k < |partners| && SucceedsAt(h, partners, lastname, fuel, k) {
          var k :| 0 <= k < |partners| && SucceedsAt(h, partners, lastname, fuel, k);
          assert k > 0;
          SucceedsAtShift(h, partners, lastname, fuel, k);
        }
      }
    }
  }

  /** A woman without a matching name of her own matches exactly when, in
      partner order, some partner matches before any partner fails to
      return; the line is still hers. */
  lemma FemaleMatchesThroughPartner(h: Host, p: Person, lastname: string, fuel: nat)
    requires p.sex == Female && FirstMatch(p.names, lastname).None?
    ensures CheckNames(h, p, lastname, fuel + 1).Match? <==>
              exists k :: 0 <= k < |h.partners(p)| &&
                SucceedsAt(h, h.partners(p), lastname, fuel, k)
  {
    ScanPartnersFirstSuccess(h, p, h.partners(p), lastname, fuel);
  }

  /** Two women who are each other's only partner and carry no matching
      name: the check on either never returns, however much fuel it has. */
  lemma {:induction false} FemalePairNeverReturns(h: Host, a: Person, b: Person,
                                                  lastname: string, fuel: nat)
    requires a.sex == Female && b.sex == Female
    requires h.partners(a) == [b] && h.partners(b) == [a]
    requires FirstMatch(a.names, lastname).None? && FirstMatch(b.names, lastname).None?
    ensures CheckNames(h, a, lastname, fuel) == OutOfFuel
    ensures CheckNames(h, b, lastname, fuel) == OutOfFuel
  {
    if fuel > 0 {
      FemalePairNeverReturns(h, a, b, lastname, fuel - 1);
    }
  }

  /** A woman whose partner is a woman with the name is listed after one
      level of partners, though the pair breaks `NoFemalePartnerOfFemale`. */
  lemma FemalePartnerWithNameReturns(h: Host, a: Person, b: Person, lastname: string)
    requires a.sex == Female && b.sex == Female && h.partners(a) == [b]
    requires FirstMatch(a.names, lastname).None? && FirstMatch(b.names, lastname).Some?
    ensures CheckNames(h, a, lastname, 1) == Match(FormatLine(h, a))
  {
  }

  /** No woman has a woman among her partners. */
  ghost predicate NoFemalePartnerOfFemale(partners: Person -> seq<Person>)
  {
    forall p: Person, q: Person :: p.sex == Female && q in partners(p) ==> q.sex != Female
  }

  /** The one-level reading of the check: a matching name of one's own, or,
      for a woman, a partner with a matching name of their own. */
  predicate Carries(h: Host, p: Person, lastname: string)
  {
    || FirstMatch(p.names, lastname).Some?
    || (p.sex == Female &&
        exists q :: q in h.partners(p) && FirstMatch(q.names, lastname).Some?)
  }

  /** The partner loop over partners who are not women. */
  lemma {:induction false} ScanNonFemalePartners(h: Host, p: Person, partners: seq<Person>,
                                                 lastname: string, fuel: nat)
    requires forall q :: q in partners ==> q.sex != Female
    ensures ScanPartners(h, p, partners, lastname, fuel) ==
              if exists q :: q in partners && FirstMatch(q.names, lastname).Some?
              then Match(FormatLine(h, p)) else NoMatch
    decreases |partners|
  {
    if partners != [] {
      ScanNonFemalePartners(h, p, partners[1..], lastname, fuel);
      assert forall q :: q in partners <==> q == partners[0] || q in partners[1..];
    }
  }

  /** When no woman has a woman as partner, the check returns after one
      level of partners whatever the fuel, and it matches exactly when the
      one-level reading holds. */
  lemma OneLevelSuffices(h: Host, p: Person, lastname: string, fuel: nat)
    requires NoFemalePartnerOfFemale(h.partners)
    requires fuel >= 1
    ensures CheckNames(h, p, lastname, fuel) ==
              if Carries(h, p, lastname) then Match(FormatLine(h, p)) else NoMatch
  {
    if FirstMatch(p.names, lastname).None? && p.sex == Female {
      ScanNonFemalePartners(h, p, h.partners(p), lastname, fuel - 1);
    }
  }

  /** More fuel never changes an answer the check has already given: a
      result other than `OutOfFuel` is the source's own result. */
  lemma {:induction false} FuelMono(h: Host, p: Person, lastname: string, f: nat, g: nat)
    requires f <= g && CheckNames(h, p, lastname, f) != OutOfFuel
    ensures CheckNames(h, p, lastname, g) == CheckNames(h, p, lastname, f)
    decreases f, 0, 0
  {
    if FirstMatch(p.names, lastname).None? && p.sex == Female {
      ScanMono(h, p, h.partners(p), lastname, f - 1, g - 1);
    }
  }

  /** The same for the partner loop. */
  lemma {:induction false} ScanMono(h: Host, p: Person, partners: seq<Person>, lastname: string,
                                    f: nat, g: nat)
    requires f <= g && ScanPartners(h, p, partners, lastname, f) != OutOfFuel
    ensures ScanPartners(h, p, partners, lastname, g) == ScanPartners(h, p, partners, lastname, f)
    decreases f, 1, |partners|
  {
    if partners != [] {
      FuelMono(h, partners[0], lastname, f, g);
      if CheckNames(h, partners[0], lastname, f).NoMatch? {
        ScanMono(h, p, partners[1..], lastname, f, g);
      }
    }
  }

  function CarriesName(h: Host, lastname: string): Person -> bool
  {
    (p: Person) => Carries(h, p, lastname)
  }

  function MatchesWith(h: Host, lastname: string, fuel: nat): Person -> bool
  {
    (p: Person) => CheckNames(h, p, lastname, fuel).Match?
  }

  function LineOf(h: Host): Person -> string
  {
    (p: Person) => FormatLine(h, p) + "\n"
  }

  /** The report body: check each individual in the order given and write
      the line the check returns, if any.  It covers every list of
      individuals on which the check returns within the given depth; by
      `FuelMono` a larger depth writes the same lines. */
  method SurnamesReport(h: Host, lastname: string, indis: seq<Person>, fuel: nat)
    returns (lines: seq<string>)
    requires forall i :: 0 <= i < |indis| ==> CheckNames(h, indis[i], lastname, fuel) != OutOfFuel
    ensures lines == Emitted(indis, MatchesWith(h, lastname, fuel), LineOf(h))
  {
    lines := [];
    for i := 0 to |indis|
      invariant lines == Emitted(indis[..i], MatchesWith(h, lastname, fuel), LineOf(h))
    {
      EmittedPrefixStep(indis, i, MatchesWith(h, lastname, fuel), LineOf(h));
      var indi := indis[i];
      var result := CheckNames(h, indi, lastname, fuel);
      if result.Match? {
        lines := lines + [result.line + "\n"];
      }
    }
    assert indis[..|indis|] == indis;
  }

  /** When no woman has a woman as partner, depth 1 serves every list of
      individuals, and the report lists exactly those the one-level reading
      accepts. */
  lemma OneLevelReport(h: Host, lastname: string, indis: seq<Person>)
    requires NoFemalePartnerOfFemale(h.partners)
    ensures forall i :: 0 <= i < |indis| ==> CheckNames(h, indis[i], lastname, 1) != OutOfFuel
    ensures Emitted(indis, MatchesWith(h, lastname, 1), LineOf(h)) ==
            Emitted(indis, CarriesName(h, lastname), LineOf(h))
  {
    forall i | 0 <= i < |indis|
      ensures CheckNames(h, indis[i], lastname, 1) != OutOfFuel
      ensures MatchesWith(h, lastname, 1)(indis[i]) == CarriesName(h, lastname)(indis[i])
    {
      OneLevelSuffices(h, indis[i], lastname, 1);
    }
    EmittedSameKeep(indis, MatchesWith(h, lastname, 1), CarriesName(h, lastname), LineOf(h));
  }
}
