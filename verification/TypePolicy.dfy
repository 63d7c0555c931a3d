/** Compatibility policy for type changes. */
module TypePolicy {
  import opened Options
  import opened Models

  datatype Assessment = Assessment(severity: Severity, reason: string)

  function IntegerRank(name: string): Option<int> {
    if name == "smallint" then Some(0)
    else if name == "integer" then Some(1)
    else if name == "bigint" then Some(2)
    else None
  }

  const VARCHAR := "character varying"

  function ClassifyTypeChange(before: CanonicalType, after: CanonicalType): Assessment {
    if before == after then Assessment(Info, "unchanged")
    else if IntegerRank(before.name).Some? && IntegerRank(after.name).Some? then
      if IntegerRank(after.name).value > IntegerRank(before.name).value
      then Assessment(Warning, "integer widened")
      else Assessment(Breaking, "integer narrowed")
    else if before.name == after.name == VARCHAR then
      if after.length.None? || (before.length.Some? && after.length.value >= before.length.value)
      then Assessment(Warning, "character capacity widened")
      else Assessment(Breaking, "character capacity narrowed")
    else if before.name == VARCHAR && after.name == "text" then
      Assessment(Warning, "character capacity widened")
    else if before.name == "text" && after.name == VARCHAR then
      Assessment(Breaking, "character capacity constrained")
    else if before.name == after.name == "numeric" then
      if after.precision.None? then Assessment(Warning, "numeric constraint removed")
      else if before.precision.None? then Assessment(Breaking, "numeric constraint added")
      else if before.scale == after.scale && after.precision.value >= before.precision.value
      then Assessment(Warning, "numeric precision widened")
      else Assessment(Breaking, "numeric precision or scale narrowed")
    else Assessment(Breaking, "incompatible type families")
  }

  predicate Compatible(before: CanonicalType, after: CanonicalType) {
    !ClassifyTypeChange(before, after).severity.Breaking?
  }

  // ---------- an order on types ----------

  /** A chain of types, each step of which the policy accepts. */
  ghost predicate CompatibleChain(chain: seq<CanonicalType>) {
    forall i :: 0 <= i < |chain| - 1 ==> Compatible(chain[i], chain[i + 1])
  }

  lemma CompatibleTransitive(a: CanonicalType, b: CanonicalType, c: CanonicalType)
    requires Compatible(a, b) && Compatible(b, c)
    ensures Compatible(a, c)
  {
  }

  /** Same family and same declared capacity, possibly with stray other modifiers. */
  predicate SameCapacity(a: CanonicalType, b: CanonicalType) {
    a.name == b.name &&
    ((a.name == VARCHAR && a.length == b.length) ||
     (a.name == "numeric" && a.precision == b.precision && (a.precision.Some? ==> a.scale == b.scale)))
  }

  /** Exactly when the policy accepts a change in both directions. */
  lemma MutuallyCompatibleIff(a: CanonicalType, b: CanonicalType)
    ensures Compatible(a, b) && Compatible(b, a) <==> a == b || SameCapacity(a, b)
  {
  }

  predicate LengthTyped(name: string) {
    name in {"character", "character varying", "bit", "bit varying"}
  }

  /** Modifiers only where the type syntax has them, and no scale without a precision. */
  predicate Canonical(t: CanonicalType) {
    (t.length.Some? ==> LengthTyped(t.name)) &&
    (t.precision.Some? ==> t.name == "numeric") &&
    (t.scale.Some? ==> t.precision.Some?)
  }

  /** On canonical types "not BREAKING" is a partial order; only antisymmetry needs the shape. */
  lemma CompatibleIsPartialOrder()
    ensures forall a :: Compatible(a, a)
    ensures forall a, b, c :: Compatible(a, b) && Compatible(b, c) ==> Compatible(a, c)
    ensures forall a, b :: Canonical(a) && Canonical(b) && Compatible(a, b) && Compatible(b, a) ==> a == b
  {
    forall a, b | Canonical(a) && Canonical(b) && Compatible(a, b) && Compatible(b, a) ensures a == b {
      MutuallyCompatibleIff(a, b);
    }
    forall a, b, c | Compatible(a, b) && Compatible(b, c) ensures Compatible(a, c) {
      CompatibleTransitive(a, b, c);
    }
  }

  /** Without the canonical shape two different types can be accepted both ways. */
  lemma AntisymmetryNeedsCanonicalShape()
    ensures exists a, b :: a != b && Compatible(a, b) && Compatible(b, a)
  {
    var a := CanonicalType("numeric", None, None, None);
    var b := CanonicalType("numeric", None, None, Some(2));
    assert a != b && Compatible(a, b) && Compatible(b, a);
  }
}
