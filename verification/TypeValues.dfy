/**
 What the type policy means for the stored values.

 `ValueOf` is an independent account of which SQL values a type holds.  The policy
 never looks at values; the lemmas relate the two.
 */
module TypeValues {
  import opened Options
  import opened Models
  import opened TypePolicy

  // ---------- values ----------

  /** `Number(u, k)` is u * 10^-k; `Specific` stands for the values of every other type. */
  datatype SqlValue = Number(unscaled: int, places: nat) | Text(content: string) | Specific(of: CanonicalType)

  function Pow10(n: nat): (r: nat)
    ensures r >= 1
  {
    if n == 0 then 1 else 10 * Pow10(n - 1)
  }

  function Positive(n: int): nat {
    if n > 0 then n else 0
  }

  /** m units of size 10^-scale make up exactly u * 10^-places. */
  predicate Denotes(m: int, scale: int, u: int, places: nat) {
    m * Pow10(places + Positive(-scale)) == u * Pow10(Positive(scale))
  }

  /** The multiples of 10^-scale from `low` to `high` units. */
  datatype Grid = Grid(scale: int, low: int, high: int)

  ghost predicate OnGrid(v: SqlValue, g: Grid) {
    v.Number? && exists m :: g.low <= m <= g.high && Denotes(m, g.scale, v.unscaled, v.places)
  }

  /** One more than the largest value of an integer type. */
  function IntegerTop(name: string): int {
    if name == "smallint" then 0x8000
    else if name == "integer" then 0x8000_0000
    else 0x8000_0000_0000_0000
  }

  function ScaleOf(t: CanonicalType): int {
    if t.scale.Some? then t.scale.value else 0
  }

  /** numeric(p,s) holds at most p decimal digits, counted in units of 10^-s. */
  function NumericGrid(precision: int, scale: int): Grid {
    if precision < 0 then Grid(scale, 0, -1) else Grid(scale, 1 - Pow10(precision), Pow10(precision) - 1)
  }

  function GridOf(t: CanonicalType): Option<Grid> {
    if IntegerRank(t.name).Some? then Some(Grid(0, -IntegerTop(t.name), IntegerTop(t.name) - 1))
    else if t.name == "numeric" && t.precision.Some? then Some(NumericGrid(t.precision.value, ScaleOf(t)))
    else None
  }

  predicate Textual(t: CanonicalType) {
    t.name == VARCHAR || t.name == "text"
  }

  ghost predicate ValueOf(v: SqlValue, t: CanonicalType) {
    if GridOf(t).Some? then OnGrid(v, GridOf(t).value)
    else if t.name == VARCHAR then v.Text? && (t.length.Some? ==> |v.content| <= t.length.value)
    else if t.name == "text" then v.Text?
    else if t.name == "numeric" then v.Number?
    else v == Specific(t)
  }

  ghost predicate KeepsValues(before: CanonicalType, after: CanonicalType) {
    forall v :: ValueOf(v, before) ==> ValueOf(v, after)
  }

  // ---------- powers of ten ----------

  lemma {:induction false} Pow10Add(m: nat, n: nat)
    ensures Pow10(m + n) == Pow10(m) * Pow10(n)
  {
    if m > 0 {
      Pow10Add(m - 1, n);
      assert Pow10(m + n) == 10 * Pow10(m - 1 + n);
      assert 10 * (Pow10(m - 1) * Pow10(n)) == (10 * Pow10(m - 1)) * Pow10(n);
    }
  }

  lemma {:induction false} Pow10Monotone(m: nat, n: nat)
    requires m <= n
    ensures Pow10(m) <= Pow10(n)
    ensures m < n ==> 10 * Pow10(m) <= Pow10(n)
  {
    if m < n {
      Pow10Monotone(m, n - 1);
    }
  }

  lemma ProductMonotone(x: int, y: int, u: int)
    requires x <= y && u >= 0
    ensures x * u <= y * u
  {
    assert (y - x) * u >= 0;
  }

  lemma NonzeroProduct(d: int, u: int)
    requires u >= 1 && d != 0
    ensures d * u != 0
  {
  }

  lemma CancelUnits(m: int, n: int, u: int)
    requires u >= 1 && m * u == n * u
    ensures m == n
  {
    if m != n {
      NonzeroProduct(m - n, u);
    }
  }

  /** A number x of d digits, t places further left, has at most q digits exactly when d + t <= q. */
  lemma ShiftedFits(x: int, d: nat, t: nat, q: nat)
    requires d >= 1 && Pow10(d - 1) <= x < Pow10(d)
    ensures x * Pow10(t) < Pow10(q) <==> d + t <= q
  {
    Pow10Add(d, t);
    Pow10Add(d - 1, t);
    ProductMonotone(Pow10(d - 1), x, Pow10(t));
    ProductMonotone(x, Pow10(d) - 1, Pow10(t));
    assert (Pow10(d) - 1) * Pow10(t) == Pow10(d) * Pow10(t) - Pow10(t);
    if d + t <= q {
      Pow10Monotone(d + t, q);
    } else {
      Pow10Monotone(q, d - 1 + t);
    }
  }

  // ---------- grids ----------

  lemma MulAssoc(a: int, b: int, c: int)
    ensures a * b * c == a * (b * c) && a * b * c == a * c * b
  {
  }

  /** Counting in finer units. */
  lemma Refine(m: int, s: int, t: int, u: int, places: nat)
    requires s <= t && Denotes(m, s, u, places)
    ensures Denotes(m * Pow10(t - s), t, u, places)
  {
    var x := Positive(t) - Positive(s);
    var a, b := places + Positive(-s), places + Positive(-t);
    assert (t - s) + b == a + x;
    Pow10Add(t - s, b);
    Pow10Add(a, x);
    Pow10Add(Positive(s), x);
    MulAssoc(m, Pow10(t - s), Pow10(b));
    MulAssoc(m, Pow10(a), Pow10(x));
    MulAssoc(u, Pow10(Positive(s)), Pow10(x));
  }

  lemma DenotesOnce(m: int, n: int, s: int, u: int, places: nat)
    requires Denotes(m, s, u, places) && Denotes(n, s, u, places)
    ensures m == n
  {
    CancelUnits(m, n, Pow10(places + Positive(-s)));
  }

  function ValueAt(m: int, s: int): SqlValue {
    if s >= 0 then Number(m, s) else Number(m * Pow10(-s), 0)
  }

  lemma ValueAtDenotes(m: int, s: int)
    ensures var v := ValueAt(m, s); Denotes(m, s, v.unscaled, v.places)
  {
  }

  /** A grid without points, the grid of zero alone, or one that has zero and the first unit above. */
  predicate Usual(g: Grid) {
    g.low > g.high || g.low == 0 == g.high || g.low <= 0 < g.high
  }

  /** Every point of g is a point of h. */
  predicate GridWithin(g: Grid, h: Grid) {
    g.low > g.high || (g.low == 0 == g.high && h.low <= 0 <= h.high) ||
    (g.scale <= h.scale &&
     h.low <= g.low * Pow10(h.scale - g.scale) && g.high * Pow10(h.scale - g.scale) <= h.high)
  }

  lemma ZeroOnGrid(h: Grid, u: int, places: nat, s: int)
    requires Denotes(0, s, u, places) && h.low <= 0 <= h.high
    ensures OnGrid(Number(u, places), h)
  {
    if u != 0 { NonzeroProduct(u, Pow10(Positive(s))); }
    assert Denotes(0, h.scale, u, places);
  }

  lemma WithinIncludes(g: Grid, h: Grid, v: SqlValue)
    requires GridWithin(g, h) && OnGrid(v, g)
    ensures OnGrid(v, h)
  {
    var m :| g.low <= m <= g.high && Denotes(m, g.scale, v.unscaled, v.places);
    if g.scale <= h.scale && h.low <= g.low * Pow10(h.scale - g.scale) && g.high * Pow10(h.scale - g.scale) <= h.high {
      Refine(m, g.scale, h.scale, v.unscaled, v.places);
      ProductMonotone(g.low, m, Pow10(h.scale - g.scale));
      ProductMonotone(m, g.high, Pow10(h.scale - g.scale));
    } else {
      ZeroOnGrid(h, v.unscaled, v.places, g.scale);
    }
  }

  lemma UnitIsNoMultiple(n: int, d: nat)
    requires d >= 1
    ensures n * Pow10(d) != 1
  {
    assert n * (10 * Pow10(d - 1)) == 10 * (n * Pow10(d - 1));
  }

  /** A point of g that also lies on h is a point of h in h's units. */
  lemma PointOnBoth(m: int, g: Grid, h: Grid)
    requires g.low <= m <= g.high && OnGrid(ValueAt(m, g.scale), h)
    ensures g.scale <= h.scale ==> h.low <= m * Pow10(h.scale - g.scale) <= h.high
    ensures g.scale > h.scale ==> m != 1
  {
    var v := ValueAt(m, g.scale);
    var n :| h.low <= n <= h.high && Denotes(n, h.scale, v.unscaled, v.places);
    ValueAtDenotes(m, g.scale);
    if g.scale <= h.scale {
      Refine(m, g.scale, h.scale, v.unscaled, v.places);
      DenotesOnce(n, m * Pow10(h.scale - g.scale), h.scale, v.unscaled, v.places);
    } else {
      Refine(n, h.scale, g.scale, v.unscaled, v.places);
      DenotesOnce(m, n * Pow10(g.scale - h.scale), g.scale, v.unscaled, v.places);
      UnitIsNoMultiple(n, g.scale - h.scale);
    }
  }

  lemma PointOf(m: int, g: Grid)
    requires g.low <= m <= g.high
    ensures OnGrid(ValueAt(m, g.scale), g)
  {
    ValueAtDenotes(m, g.scale);
  }

  /** Inclusion of grids is inclusion of ranges in the finer units. */
  lemma GridInclusion(g: Grid, h: Grid)
    requires Usual(g)
    ensures (forall v :: OnGrid(v, g) ==> OnGrid(v, h)) <==> GridWithin(g, h)
  {
    if GridWithin(g, h) {
      forall v | OnGrid(v, g) ensures OnGrid(v, h) { WithinIncludes(g, h, v); }
    } else if forall v :: OnGrid(v, g) ==> OnGrid(v, h) {
      PointOf(g.low, g);
      PointOf(g.high, g);
      PointOnBoth(g.low, g, h);
      PointOnBoth(g.high, g, h);
      if g.scale > h.scale && g.low < g.high {
        PointOf(1, g);
        PointOnBoth(1, g, h);
      } else if g.low == g.high {
        ZeroMultiple(g, h);
      }
      assert false;
    }
  }

  lemma ZeroMultiple(g: Grid, h: Grid)
    requires g.low == 0 == g.high && OnGrid(ValueAt(0, g.scale), h)
    ensures h.low <= 0 <= h.high
  {
    var v := ValueAt(0, g.scale);
    var n :| h.low <= n <= h.high && Denotes(n, h.scale, v.unscaled, v.places);
    assert v.unscaled == 0;
    if n != 0 { NonzeroProduct(n, Pow10(v.places + Positive(-h.scale))); }
  }

  // ---------- inclusion of types ----------

  /** The bound on the length of a text, if there is one. */
  function Capacity(t: CanonicalType): Option<int> {
    if t.name == VARCHAR then t.length else None
  }

  /** Every value of a is a value of b, as far as names and modifiers tell. */
  predicate Contained(a: CanonicalType, b: CanonicalType) {
    if GridOf(a).Some? then
      if GridOf(b).Some? then GridWithin(GridOf(a).value, GridOf(b).value)
      else GridOf(a).value.low > GridOf(a).value.high || b.name == "numeric"
    else if a.name == "numeric" then b.name == "numeric" && b.precision.None?
    else if Textual(a) then
      (Capacity(a).Some? && Capacity(a).value < 0) ||
      (Textual(b) && (Capacity(b).None? || (Capacity(a).Some? && Capacity(a).value <= Capacity(b).value)))
    else a == b
  }

  lemma GridsAreUsual(t: CanonicalType)
    requires GridOf(t).Some?
    ensures Usual(GridOf(t).value)
  {
    if t.name == "numeric" && t.precision.Some? && t.precision.value > 0 {
      Pow10Monotone(0, t.precision.value);
    }
  }

  /** A number beyond the grid. */
  lemma BeyondGrid(g: Grid)
    ensures !OnGrid(ValueAt(g.high + 1, g.scale), g)
  {
    var v := ValueAt(g.high + 1, g.scale);
    ValueAtDenotes(g.high + 1, g.scale);
    if OnGrid(v, g) {
      var n :| g.low <= n <= g.high && Denotes(n, g.scale, v.unscaled, v.places);
      DenotesOnce(n, g.high + 1, g.scale, v.unscaled, v.places);
    }
  }

  function TextOf(n: nat): SqlValue {
    Text(seq(n, i => 'x'))
  }

  /** A value of a that b lacks, when a is no grid. */
  function Outsider(a: CanonicalType, b: CanonicalType): SqlValue {
    if a.name == "numeric" then
      if GridOf(b).Some? then ValueAt(GridOf(b).value.high + 1, GridOf(b).value.scale) else Number(0, 0)
    else if Textual(a) then
      if Capacity(a).Some? then TextOf(Positive(Capacity(a).value))
      else TextOf(if Capacity(b).Some? then Positive(Capacity(b).value + 1) else 0)
    else Specific(a)
  }

  lemma OutsiderIsOutside(a: CanonicalType, b: CanonicalType)
    requires GridOf(a).None? && !Contained(a, b)
    ensures ValueOf(Outsider(a, b), a) && !ValueOf(Outsider(a, b), b)
  {
    if a.name == "numeric" && GridOf(b).Some? {
      BeyondGrid(GridOf(b).value);
    }
  }

  lemma GridAgainstOther(a: CanonicalType, b: CanonicalType)
    requires GridOf(a).Some? && GridOf(b).None? && KeepsValues(a, b)
    ensures Contained(a, b)
  {
    var g := GridOf(a).value;
    if g.low <= g.high {
      PointOf(g.low, g);
      assert ValueOf(ValueAt(g.low, g.scale), b);
    }
  }

  lemma GridsDecide(a: CanonicalType, b: CanonicalType)
    requires GridOf(a).Some? && GridOf(b).Some?
    ensures KeepsValues(a, b) <==> forall v :: OnGrid(v, GridOf(a).value) ==> OnGrid(v, GridOf(b).value)
  {
    if KeepsValues(a, b) {
      forall v | OnGrid(v, GridOf(a).value) ensures OnGrid(v, GridOf(b).value) {
        assert ValueOf(v, a);
      }
    }
  }

  /** Names and modifiers tell exactly when every value of one type is a value of another. */
  lemma KeepsValuesIff(a: CanonicalType, b: CanonicalType)
    ensures KeepsValues(a, b) <==> Contained(a, b)
  {
    if GridOf(a).Some? {
      GridsAreUsual(a);
      if GridOf(b).Some? {
        GridInclusion(GridOf(a).value, GridOf(b).value);
        GridsDecide(a, b);
      } else if KeepsValues(a, b) {
        GridAgainstOther(a, b);
      }
    } else if !Contained(a, b) {
      OutsiderIsOutside(a, b);
    }
  }

  // ---------- the policy against the values ----------

  /** Decimal digits of the largest magnitude of an integer type. */
  function IntegerDigits(name: string): nat {
    if name == "smallint" then 5 else if name == "integer" then 10 else 19
  }

  lemma TopDigits(name: string)
    ensures Pow10(IntegerDigits(name) - 1) <= IntegerTop(name) < Pow10(IntegerDigits(name))
    ensures Pow10(IntegerDigits(name) - 1) <= IntegerTop(name) - 1
  {
    assert Pow10(4) == 10000 && Pow10(5) == 100000;
    assert Pow10(9) == 1000000000 && Pow10(10) == 10000000000;
    assert Pow10(18) == 1000000000000000000 && Pow10(19) == 10000000000000000000;
  }

  lemma NinesDigits(p: nat)
    requires p >= 1
    ensures Pow10(p - 1) <= Pow10(p) - 1 < Pow10(p)
  {
  }

  lemma Negated(x: int, y: int)
    ensures (-x) * y == -(x * y)
  {
  }

  /** An integer type inside numeric(q,t): enough digits before the decimal point. */
  lemma IntegerInNumeric(a: CanonicalType, b: CanonicalType)
    requires IntegerRank(a.name).Some? && b.name == "numeric" && b.precision.Some?
    ensures Contained(a, b) <==> ScaleOf(b) >= 0 && IntegerDigits(a.name) + ScaleOf(b) <= b.precision.value
  {
    var q, t, top := b.precision.value, ScaleOf(b), IntegerTop(a.name);
    TopDigits(a.name);
    if q >= 0 && t >= 0 {
      ShiftedFits(top, IntegerDigits(a.name), t, q);
      ProductMonotone(top - 1, top, Pow10(t));
      Negated(top, Pow10(t));
    } else if t >= 0 {
      NonzeroProduct(top, Pow10(t));
      Negated(top, Pow10(t));
      ProductMonotone(0, top, Pow10(t));
    }
  }

  /** numeric(p,s) inside an integer type: no decimals, and the largest value in range. */
  lemma NumericInInteger(a: CanonicalType, b: CanonicalType)
    requires a.name == "numeric" && a.precision.Some? && a.precision.value >= 1 && IntegerRank(b.name).Some?
    ensures Contained(a, b) <==>
      ScaleOf(a) <= 0 && (Pow10(a.precision.value) - 1) * Pow10(Positive(-ScaleOf(a))) < IntegerTop(b.name)
  {
    var p, s := a.precision.value, ScaleOf(a);
    Pow10Monotone(0, p);
    if s <= 0 { Negated(Pow10(p) - 1, Pow10(-s)); }
  }

  /** numeric(p,s) inside numeric(q,t): no fewer digits on either side of the decimal point. */
  lemma NumericInNumeric(a: CanonicalType, b: CanonicalType)
    requires a.name == "numeric" && b.name == "numeric" && a.precision.Some? && b.precision.Some?
    requires a.precision.value >= 1
    ensures Contained(a, b) <==>
      ScaleOf(a) <= ScaleOf(b) && a.precision.value + ScaleOf(b) <= b.precision.value + ScaleOf(a)
  {
    var p, q, d := a.precision.value, b.precision.value, ScaleOf(b) - ScaleOf(a);
    Pow10Monotone(0, p);
    if d >= 0 {
      Negated(Pow10(p) - 1, Pow10(d));
      if q >= 0 {
        NinesDigits(p);
        ShiftedFits(Pow10(p) - 1, p, d, q);
      } else {
        NonzeroProduct(Pow10(p) - 1, Pow10(d));
        ProductMonotone(0, Pow10(p) - 1, Pow10(d));
      }
    }
  }

  /** A change the policy does not call BREAKING loses no stored value. */
  lemma CompatibleKeepsValues(before: CanonicalType, after: CanonicalType)
    requires Compatible(before, after)
    ensures KeepsValues(before, after)
  {
    if before.name == after.name == "numeric" && before.precision.Some? && after.precision.Some? {
      if 0 <= before.precision.value <= after.precision.value {
        Pow10Monotone(before.precision.value, after.precision.value);
      }
    }
    assert before != after ==> Contained(before, after);
    KeepsValuesIff(before, after);
  }

  /** Any number of accepted steps amounts to one accepted step, and no value is lost. */
  lemma {:induction false} ChainsStayCompatible(chain: seq<CanonicalType>)
    requires |chain| > 0 && CompatibleChain(chain)
    ensures Compatible(chain[0], chain[|chain| - 1])
    ensures KeepsValues(chain[0], chain[|chain| - 1])
  {
    if |chain| > 1 {
      ChainsStayCompatible(chain[1..]);
      CompatibleTransitive(chain[0], chain[1], chain[|chain| - 1]);
    }
    CompatibleKeepsValues(chain[0], chain[|chain| - 1]);
  }

  /** Among the integer types the policy is exact. */
  lemma IntegerPolicyExact(a: CanonicalType, b: CanonicalType)
    requires IntegerRank(a.name).Some? && IntegerRank(b.name).Some?
    requires Canonical(a) && Canonical(b)
    ensures Compatible(a, b) <==> KeepsValues(a, b)
  {
    KeepsValuesIff(a, b);
  }

  /** Among the `character varying` types the policy is exact, apart from lengths below zero. */
  lemma VarcharPolicyExact(a: CanonicalType, b: CanonicalType)
    requires a.name == VARCHAR && b.name == VARCHAR
    ensures KeepsValues(a, b) <==> Compatible(a, b) || (a.length.Some? && a.length.value < 0)
  {
    KeepsValuesIff(a, b);
  }

  /** numeric(p,s) and numeric(q,t): exactly when no value is lost, and exactly when the policy sees it that way. */
  lemma NumericPolicyExact(a: CanonicalType, b: CanonicalType)
    requires a.name == "numeric" && b.name == "numeric" && a.precision.Some? && b.precision.Some?
    requires a.precision.value >= 1
    ensures KeepsValues(a, b) <==>
      ScaleOf(a) <= ScaleOf(b) && a.precision.value + ScaleOf(b) <= b.precision.value + ScaleOf(a)
    ensures Canonical(a) && Canonical(b) ==>
      ((Compatible(a, b) <==> KeepsValues(a, b)) <==> a.scale == b.scale || !KeepsValues(a, b))
  {
    KeepsValuesIff(a, b);
    NumericInNumeric(a, b);
  }

  /** A declared length or precision below what PostgreSQL admits, leaving no value at all. */
  predicate HoldsNothing(t: CanonicalType) {
    (t.name == VARCHAR && t.length.Some? && t.length.value < 0) ||
    (t.name == "numeric" && t.precision.Some? && t.precision.value < 0)
  }

  predicate HoldsZeroOnly(t: CanonicalType) {
    t.name == "numeric" && t.precision == Some(0)
  }

  predicate HoldsZero(t: CanonicalType) {
    IntegerRank(t.name).Some? || (t.name == "numeric" && (t.precision.None? || t.precision.value >= 0))
  }

  /** Changes the policy refuses although they lose nothing. */
  predicate LosslessAnyway(a: CanonicalType, b: CanonicalType) {
    HoldsNothing(a) || (HoldsZeroOnly(a) && HoldsZero(b)) ||
    (a.name == "text" && b.name == VARCHAR && b.length.None?) ||
    (IntegerRank(a.name).Some? && b.name == "numeric" &&
     (b.precision.None? || (ScaleOf(b) >= 0 && IntegerDigits(a.name) + ScaleOf(b) <= b.precision.value))) ||
    (a.name == "numeric" && a.precision.Some? && a.precision.value >= 1 && IntegerRank(b.name).Some? &&
     ScaleOf(a) <= 0 && (Pow10(a.precision.value) - 1) * Pow10(Positive(-ScaleOf(a))) < IntegerTop(b.name)) ||
    (a.name == b.name == "numeric" && a.precision.Some? && a.precision.value >= 1 && b.precision.Some? &&
     ScaleOf(a) <= ScaleOf(b) && a.precision.value + ScaleOf(b) <= b.precision.value + ScaleOf(a))
  }

  lemma ZeroGridWithin(a: CanonicalType, b: CanonicalType)
    requires HoldsZeroOnly(a) && GridOf(b).Some?
    ensures Contained(a, b) <==> HoldsZero(b)
  {
    if b.name == "numeric" && b.precision.value >= 0 {
      Pow10Monotone(0, b.precision.value);
    }
  }

  /** Exactly which BREAKING changes between canonical types lose no value. */
  lemma BreakingLosesNothingIff(a: CanonicalType, b: CanonicalType)
    requires Canonical(a) && Canonical(b) && !Compatible(a, b)
    ensures KeepsValues(a, b) <==> LosslessAnyway(a, b)
  {
    KeepsValuesIff(a, b);
    if GridOf(a).Some? && GridOf(b).Some? && !HoldsNothing(a) {
      if HoldsZeroOnly(a) {
        ZeroGridWithin(a, b);
      } else if a.name == "numeric" && b.name == "numeric" {
        NumericInNumeric(a, b);
      } else if a.name == "numeric" {
        NumericInInteger(a, b);
      } else if b.name == "numeric" {
        IntegerInNumeric(a, b);
      }
    }
  }

  /** Widening the scale along with the precision is one of them. */
  lemma ScaleWideningIsBreaking()
    ensures var a, b := CanonicalType("numeric", None, Some(10), Some(2)),
      CanonicalType("numeric", None, Some(12), Some(4));
      KeepsValues(a, b) && !Compatible(a, b)
  {
    var a, b := CanonicalType("numeric", None, Some(10), Some(2)), CanonicalType("numeric", None, Some(12), Some(4));
    NumericPolicyExact(a, b);
  }
}
