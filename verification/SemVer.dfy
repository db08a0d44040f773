/** Version precedence as in section 11 of Semantic Versioning 2.0.0, which plugin
    consolidation relies on. */
module SemVer {
  import opened Strings

  datatype PreRelease = Numeric(n: nat) | Alphanumeric(s: string)

  datatype Version = Version(major: nat, minor: nat, patch: nat, pre: seq<PreRelease>, build: seq<string>)

  type Sign = s: int | -1 <= s <= 1

  function CompareInts(a: int, b: int): Sign {
    if a < b then -1 else if a > b then 1 else 0
  }

  function CompareStrings(a: string, b: string): Sign {
    if a == b then 0 else if Le(a, b) then -1 else 1
  }

  /** Numeric identifiers are lower than alphanumeric ones. */
  function CompareIdentifiers(a: PreRelease, b: PreRelease): Sign {
    match (a, b)
    case (Numeric(m), Numeric(n)) => CompareInts(m, n)
    case (Numeric(_), Alphanumeric(_)) => -1
    case (Alphanumeric(_), Numeric(_)) => 1
    case (Alphanumeric(s), Alphanumeric(t)) => CompareStrings(s, t)
  }

  /** Identifier by identifier; with equal beginnings the longer list is higher. */
  function ComparePreReleases(a: seq<PreRelease>, b: seq<PreRelease>): Sign {
    if a == [] && b == [] then 0
    else if a == [] then -1
    else if b == [] then 1
    else
      var c := CompareIdentifiers(a[0], b[0]);
      if c != 0 then c else ComparePreReleases(a[1..], b[1..])
  }

  /** Build metadata does not count; a version without pre-release is the highest. */
  function Compare(v: Version, w: Version): Sign {
    if v.major != w.major then CompareInts(v.major, w.major)
    else if v.minor != w.minor then CompareInts(v.minor, w.minor)
    else if v.patch != w.patch then CompareInts(v.patch, w.patch)
    else if v.pre == [] && w.pre == [] then 0
    else if v.pre == [] then 1
    else if w.pre == [] then -1
    else ComparePreReleases(v.pre, w.pre)
  }

  lemma CompareIdentifiersOrder(a: PreRelease, b: PreRelease, c: PreRelease)
    ensures CompareIdentifiers(a, b) == -CompareIdentifiers(b, a)
    ensures CompareIdentifiers(a, b) == 0 <==> a == b
    ensures CompareIdentifiers(a, b) <= 0 && CompareIdentifiers(b, c) <= 0 ==> CompareIdentifiers(a, c) <= 0
  {
    if a.Alphanumeric? && b.Alphanumeric? {
      LeTotal(a.s, b.s);
      if Le(a.s, b.s) && Le(b.s, a.s) { LeAntisymmetric(a.s, b.s); }
      if c.Alphanumeric? && CompareIdentifiers(a, b) <= 0 && CompareIdentifiers(b, c) <= 0 {
        LeTotal(b.s, c.s);
        if a.s != b.s && b.s != c.s { LeTransitive(a.s, b.s, c.s); }
      }
    }
  }

  lemma {:induction false} ComparePreReleasesOrder(a: seq<PreRelease>, b: seq<PreRelease>, c: seq<PreRelease>)
    ensures ComparePreReleases(a, b) == -ComparePreReleases(b, a)
    ensures ComparePreReleases(a, b) == 0 <==> a == b
    ensures ComparePreReleases(a, b) <= 0 && ComparePreReleases(b, c) <= 0 ==> ComparePreReleases(a, c) <= 0
  {
    if a != [] && b != [] {
      CompareIdentifiersOrder(a[0], b[0], if c == [] then a[0] else c[0]);
      assert a == [a[0]] + a[1..] && b == [b[0]] + b[1..];
      ComparePreReleasesOrder(a[1..], b[1..], if c == [] then [] else c[1..]);
      if c != [] {
        CompareIdentifiersOrder(b[0], c[0], a[0]);
        CompareIdentifiersOrder(a[0], c[0], b[0]);
      }
    }
  }

  /** The parts of a version that count. */
  function Core(v: Version): Version { v.(build := []) }

  /** MAIN: precedence is a total preorder, and ties are exactly the versions that differ in
      build metadata only. */
  lemma ComparePreorder(u: Version, v: Version, w: Version)
    ensures Compare(u, v) == -Compare(v, u)
    ensures Compare(u, v) == 0 <==> Core(u) == Core(v)
    ensures Compare(u, v) <= 0 && Compare(v, w) <= 0 ==> Compare(u, w) <= 0
  {
    ComparePreReleasesOrder(u.pre, v.pre, w.pre);
  }

  // The direction of the order

  /** MAIN: a higher major, minor or patch number makes a higher version, whatever follows it. */
  lemma NumbersDecide(v: Version, w: Version)
    requires || v.major < w.major || (v.major == w.major && v.minor < w.minor)
             || (v.major == w.major && v.minor == w.minor && v.patch < w.patch)
    ensures Compare(v, w) == -1 && Compare(w, v) == 1
  {
  }

  /** MAIN: a version with pre-release identifiers is below the one without. */
  lemma PreReleaseIsLower(v: Version, build: seq<string>)
    requires v.pre != []
    ensures Compare(v, v.(pre := [], build := build)) == -1 && Compare(v.(pre := [], build := build), v) == 1
  {
  }

  /** The identifier b is higher than a: a higher number, an alphanumeric one after a number, or one
      that is bytewise larger. */
  predicate Raises(a: PreRelease, b: PreRelease) {
    match (a, b)
    case (Numeric(m), Numeric(n)) => m < n
    case (Numeric(_), Alphanumeric(_)) => true
    case (Alphanumeric(_), Numeric(_)) => false
    case (Alphanumeric(s), Alphanumeric(t)) => Le(s, t) && s != t
  }

  lemma {:induction false} FirstDifferenceDecides(p: seq<PreRelease>, a: seq<PreRelease>, b: seq<PreRelease>)
    requires b != [] && (a == [] || Raises(a[0], b[0]))
    ensures ComparePreReleases(p + a, p + b) == -1 && ComparePreReleases(p + b, p + a) == 1
  {
    if p == [] {
      assert p + a == a && p + b == b;
      if a != [] {
        CompareIdentifiersOrder(a[0], b[0], a[0]);
      }
    } else {
      assert (p + a)[1..] == p[1..] + a && (p + b)[1..] == p[1..] + b;
      CompareIdentifiersOrder(p[0], p[0], p[0]);
      FirstDifferenceDecides(p[1..], a, b);
    }
  }

  /** MAIN: among versions with the same numbers the first different identifier decides, whatever
      follows it; and further identifiers make a nonempty list higher. */
  lemma IdentifiersDecide(v: Version, w: Version, p: seq<PreRelease>, a: seq<PreRelease>, b: seq<PreRelease>)
    requires v.major == w.major && v.minor == w.minor && v.patch == w.patch
    requires v.pre == p + a && w.pre == p + b && b != []
    requires (a == [] && p != []) || (a != [] && Raises(a[0], b[0]))
    ensures Compare(v, w) == -1 && Compare(w, v) == 1
  {
    FirstDifferenceDecides(p, a, b);
  }

  /** In particular for alphanumeric identifiers whose first different byte is larger, or of which one
      begins the other. */
  lemma LargerTextRaises(p: string, a: string, b: string)
    requires b != "" && (a == "" || a[0] < b[0])
    ensures Raises(Alphanumeric(p + a), Alphanumeric(p + b))
  {
    LeIsBytewise(p, a, b);
  }
}
