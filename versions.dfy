/** Vulkan API versions as the vulkanalia crate exposes them: a
    (major, minor, patch) triple. The crate derives its ordering from the
    field order, which makes it lexicographic; the crate is not part of this
    model, so that ordering is stated here as the assumed definition. */
module Versions {

  datatype Version = Version(major: nat, minor: nat, patch: nat)

  /** `a <= b` on versions: lexicographic on (major, minor, patch). */
  predicate LessEq(a: Version, b: Version) {
    a.major < b.major
    || (a.major == b.major && a.minor < b.minor)
    || (a.major == b.major && a.minor == b.minor && a.patch <= b.patch)
  }

  /** Three-way comparison; the reference definition that LessEq agrees with. */
  function Compare(a: Version, b: Version): (c: int)
    ensures -1 <= c <= 1
    ensures c == 0 <==> a == b
  {
    if a.major != b.major then (if a.major < b.major then -1 else 1)
    else if a.minor != b.minor then (if a.minor < b.minor then -1 else 1)
    else if a.patch != b.patch then (if a.patch < b.patch then -1 else 1)
    else 0
  }

  lemma LessEqIsCompare(a: Version, b: Version)
    ensures LessEq(a, b) <==> Compare(a, b) <= 0
  {}

  lemma LessEqReflexive(a: Version)
    ensures LessEq(a, a)
  {}

  lemma LessEqAntisymmetric(a: Version, b: Version)
    requires LessEq(a, b) && LessEq(b, a)
    ensures a == b
  {}

  lemma LessEqTransitive(a: Version, b: Version, c: Version)
    requires LessEq(a, b) && LessEq(b, c)
    ensures LessEq(a, c)
  {}

  lemma LessEqTotal(a: Version, b: Version)
    ensures LessEq(a, b) || LessEq(b, a)
  {}
}
