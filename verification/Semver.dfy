/** Version precedence as the semver library provides it: section 11 of Semantic Versioning 2.0.0. */
module Semver {
  import opened Strings
  import opened Wrappers

  /** Build metadata takes no part in precedence and is not kept. */
  datatype Ver = Ver(major: nat, minor: nat, patch: nat, pre: string)

  /** Numeric identifiers compare as numbers, others as text, and a number is lower than text. */
  function CompareIdentifier(a: string, b: string): int
  {
    if AllDigits(a) && AllDigits(b) then CompareNat(DigitsValue(a), DigitsValue(b))
    else if AllDigits(a) then -1
    else if AllDigits(b) then 1
    else CompareStrings(a, b)
  }

  /** Field by field; when one list runs out, the longer one is higher. */
  function CompareIdentifiers(a: seq<string>, b: seq<string>): int
  {
    if a == [] && b == [] then 0
    else if a == [] then -1
    else if b == [] then 1
    else
      var first := CompareIdentifier(a[0], b[0]);
      if first != 0 then first else CompareIdentifiers(a[1..], b[1..])
  }

  /** A version without a prerelease is higher than one with. */
  function ComparePre(a: string, b: string): int
  {
    if a == b then 0
    else if a == "" then 1
    else if b == "" then -1
    else CompareIdentifiers(Split(a, '.'), Split(b, '.'))
  }

  function Compare(a: Ver, b: Ver): int
  {
    if a.major != b.major then CompareNat(a.major, b.major)
    else if a.minor != b.minor then CompareNat(a.minor, b.minor)
    else if a.patch != b.patch then CompareNat(a.patch, b.patch)
    else ComparePre(a.pre, b.pre)
  }

  predicate GreaterThan(a: Ver, b: Ver) { Compare(a, b) > 0 }

  lemma {:induction false} IdentifiersAntisymmetric(a: seq<string>, b: seq<string>)
    ensures CompareIdentifiers(a, b) == -CompareIdentifiers(b, a)
  {
    if a != [] && b != [] {
      CompareStringsAntisymmetric(a[0], b[0]);
      IdentifiersAntisymmetric(a[1..], b[1..]);
    }
  }

  lemma IdentifierTransitive(a: string, b: string, c: string)
    requires CompareIdentifier(a, b) <= 0 && CompareIdentifier(b, c) <= 0
    ensures CompareIdentifier(a, c) <= 0
    ensures CompareIdentifier(a, c) == 0 ==> CompareIdentifier(a, b) == 0 && CompareIdentifier(b, c) == 0
  {
    if !AllDigits(a) && !AllDigits(b) && !AllDigits(c) {
      CompareStringsTransitive(a, b, c);
      if a == c { CompareStringsAntisymmetric(a, b); }
    }
  }

  lemma {:induction false} IdentifiersTransitive(a: seq<string>, b: seq<string>, c: seq<string>)
    requires CompareIdentifiers(a, b) <= 0 && CompareIdentifiers(b, c) <= 0
    ensures CompareIdentifiers(a, c) <= 0
  {
    if a != [] && b != [] && c != [] {
      IdentifierTransitive(a[0], b[0], c[0]);
      if CompareIdentifier(a[0], c[0]) == 0 { IdentifiersTransitive(a[1..], b[1..], c[1..]); }
    }
  }

  lemma Antisymmetric(a: Ver, b: Ver)
    ensures Compare(a, b) == -Compare(b, a)
  {
    if a.pre != b.pre && a.pre != "" && b.pre != "" {
      IdentifiersAntisymmetric(Split(a.pre, '.'), Split(b.pre, '.'));
    }
  }

  /** Precedence is a total preorder, so sorting by it makes sense. */
  lemma Transitive(a: Ver, b: Ver, c: Ver)
    requires Compare(a, b) <= 0 && Compare(b, c) <= 0
    ensures Compare(a, c) <= 0
  {
    if a.pre != b.pre && b.pre != c.pre && a.pre != "" && b.pre != "" && c.pre != "" {
      var x, y, z := Split(a.pre, '.'), Split(b.pre, '.'), Split(c.pre, '.');
      if CompareIdentifiers(x, y) <= 0 && CompareIdentifiers(y, z) <= 0 {
        IdentifiersTransitive(x, y, z);
        if a.pre == c.pre { IdentifiersAntisymmetric(x, y); }
      }
    }
  }

  // ---------------------------------------------------------------- what the order is

  /** Numbers by value, text in text order, and a number before any text. */
  ghost predicate IdentifierPrecedes(a: string, b: string)
  {
    if AllDigits(a) then (AllDigits(b) ==> DigitsValue(a) < DigitsValue(b)) else !AllDigits(b) && TextBefore(a, b)
  }

  predicate SameIdentifier(a: string, b: string)
  {
    a == b || (AllDigits(a) && AllDigits(b) && DigitsValue(a) == DigitsValue(b))
  }

  lemma IdentifierIff(a: string, b: string)
    ensures CompareIdentifier(a, b) < 0 <==> IdentifierPrecedes(a, b)
    ensures CompareIdentifier(a, b) == 0 <==> SameIdentifier(a, b)
  {
    CompareStringsIff(a, b);
  }

  /** They agree up to some place, where b goes on and a does not, or a's identifier precedes b's. */
  ghost predicate ListPrecedes(a: seq<string>, b: seq<string>)
  {
    exists k :: DiffersAt(a, b, k)
  }

  ghost predicate DiffersAt(a: seq<string>, b: seq<string>, k: nat)
  {
    && k <= |a| && k < |b| && (forall j :: 0 <= j < k ==> SameIdentifier(a[j], b[j]))
    && (k < |a| ==> IdentifierPrecedes(a[k], b[k]))
  }

  lemma {:induction false} IdentifiersIff(a: seq<string>, b: seq<string>)
    ensures CompareIdentifiers(a, b) < 0 <==> ListPrecedes(a, b)
  {
    if b != [] && (a == [] || CompareIdentifier(a[0], b[0]) != 0) {
      if a != [] { IdentifierIff(a[0], b[0]); }
      assert DiffersAt(a, b, 0) <==> CompareIdentifiers(a, b) < 0;
      if k: nat :| k > 0 && DiffersAt(a, b, k) { AgreesFirst(a, b, k); }
    } else if b != [] {
      IdentifierIff(a[0], b[0]);
      IdentifiersIff(a[1..], b[1..]);
      if k: nat :| DiffersAt(a[1..], b[1..], k) { DiffersLater(a, b, k); }
      if k: nat :| DiffersAt(a, b, k) {
        assert !DiffersAt(a, b, 0) && k > 0;
        DiffersLater(a, b, k - 1);
      }
    }
  }

  lemma AgreesFirst(a: seq<string>, b: seq<string>, k: nat)
    requires k > 0 && DiffersAt(a, b, k)
    ensures a != [] && SameIdentifier(a[0], b[0])
  {
  }

  lemma DiffersLater(a: seq<string>, b: seq<string>, k: nat)
    requires a != [] && b != [] && SameIdentifier(a[0], b[0])
    ensures DiffersAt(a, b, k + 1) <==> DiffersAt(a[1..], b[1..], k)
  {
    if DiffersAt(a, b, k + 1) {
      forall j | 0 <= j < k ensures SameIdentifier(a[1..][j], b[1..][j]) {
        assert SameIdentifier(a[j + 1], b[j + 1]);
      }
    }
    if DiffersAt(a[1..], b[1..], k) {
      forall j | 0 <= j < k + 1 ensures SameIdentifier(a[j], b[j]) {
        if j > 0 { assert SameIdentifier(a[1..][j - 1], b[1..][j - 1]); }
      }
    }
  }

  /** Major, minor and patch decide in this order; then a prerelease comes before the release itself and is
      otherwise compared identifier by identifier. */
  ghost predicate Precedes(a: Ver, b: Ver)
  {
    || a.major < b.major
    || (a.major == b.major && a.minor < b.minor)
    || (a.major == b.major && a.minor == b.minor && a.patch < b.patch)
    || (a.major == b.major && a.minor == b.minor && a.patch == b.patch && a.pre != "" &&
        (b.pre == "" || ListPrecedes(Split(a.pre, '.'), Split(b.pre, '.'))))
  }

  /** The comparison is the precedence of section 11, in both directions. */
  lemma CompareIsPrecedence(a: Ver, b: Ver)
    ensures Compare(a, b) < 0 <==> Precedes(a, b)
    ensures Compare(a, b) > 0 <==> Precedes(b, a)
  {
    Antisymmetric(a, b);
    IdentifiersIff(Split(a.pre, '.'), Split(b.pre, '.'));
    IdentifiersIff(Split(b.pre, '.'), Split(a.pre, '.'));
    if a.pre == b.pre { IdentifiersAntisymmetric(Split(a.pre, '.'), Split(b.pre, '.')); }
  }
}
