/** Java's string ordering, `String.compareTo`, on which the marriages
    report's comparator rests. */
module JavaStrings {

  /** `a.compareTo(b)`: at the first position where the two strings differ,
      the difference of their characters; when one is a prefix of the other,
      the difference of their lengths. */
  function CompareTo(a: string, b: string): int
  {
    if a == [] || b == [] then |a| - |b|
    else if a[0] != b[0] then a[0] as int - b[0] as int
    else CompareTo(a[1..], b[1..])
  }

  /** Two strings compare as equal exactly when they are the same string. */
  lemma {:induction false} CompareZeroIff(a: string, b: string)
    ensures CompareTo(a, b) == 0 <==> a == b
  {
    if a != [] && b != [] && a[0] == b[0] {
      CompareZeroIff(a[1..], b[1..]);
      assert a == [a[0]] + a[1..] && b == [b[0]] + b[1..];
    }
  }

  /** Swapping the operands negates the result, so the signs are opposite. */
  lemma {:induction false} CompareAntisymmetric(a: string, b: string)
    ensures CompareTo(a, b) == -CompareTo(b, a)
  {
    if a != [] && b != [] && a[0] == b[0] {
      CompareAntisymmetric(a[1..], b[1..]);
    }
  }

  /** "Compares at most equal" is transitive. */
  lemma {:induction false} CompareTransitive(a: string, b: string, c: string)
    requires CompareTo(a, b) <= 0 && CompareTo(b, c) <= 0
    ensures CompareTo(a, c) <= 0
  {
    if a != [] && b != [] && c != [] && a[0] == b[0] == c[0] {
      CompareTransitive(a[1..], b[1..], c[1..]);
    }
  }

  /** "Compares less" is transitive. */
  lemma {:induction false} CompareStrictTransitive(a: string, b: string, c: string)
    requires CompareTo(a, b) < 0 && CompareTo(b, c) < 0
    ensures CompareTo(a, c) < 0
  {
    if a != [] && b != [] && c != [] && a[0] == b[0] == c[0] {
      CompareStrictTransitive(a[1..], b[1..], c[1..]);
    }
  }

  /** A proper prefix compares less than the longer string, by the
      difference of the lengths. */
  lemma {:induction false} ProperPrefixIsLess(a: string, b: string)
    requires a < b
    ensures CompareTo(a, b) == |a| - |b| < 0
  {
    if a != [] {
      assert a[1..] < b[1..];
      ProperPrefixIsLess(a[1..], b[1..]);
    }
  }
}
