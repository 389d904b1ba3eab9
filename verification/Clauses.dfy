/**
 * Concrete clauses on which the compiler does not do what its documentation promises
 * (src/pipeline/norm_spec.py), one for each half of the exact conditions.
 */
module Clauses {
  import opened Wrappers
  import opened NormSpecs
  import opened Strictest
  import opened Exactness
  import opened Entailment
  import opened NormCompile
  import opened Readings
  import opened Unconditional
  import opened Fingerprints

  // --- a catalog that knows every name, and a clause that states its direction -----------------

  const PLAIN := Context(
    (name: string, kind: Option<EntityType>) => Some(Side(name, kind.GetOr(PhysicalObject))),
    (x: real) => true, false, false, (x: real) => false, false, true, false, false, [],
    (e: SpecEntity) => e == RESIDENTIAL_BUILDING, (e: SpecEntity) => false,
    (op: Option<Operator>, labels: seq<string>, distance: Option<real>) => [], 300.0)

  const NO_WORDS := Wording(false, false, false, false, false, false, false)
  const METRES := Unit(Metre, NO_WORDS)
  const MINUTES := Unit(Minute, NO_WORDS)
  const AREA := Unit(SquareMetre, NO_WORDS)
  const FLOORS := Unit(Floor, NO_WORDS)
  const PER_THOUSAND := Unit(Other, Wording(false, false, true, false, true, true, false))

  const SCHOOL := SpecEntity("Школа", PhysicalObject)
  const CLINIC := SpecEntity("Поликлиника", Service)

  function Simple(t: Template, checked: Option<SpecEntity>, other: Option<SpecEntity>, op: Operator, value: real, unit: Unit): NormSpec {
    NormSpec(true, t, checked, other, Some(op), Some(value), Some(unit), None, None, None, None, {}, None, None, false, [])
  }

  /** A school at least, or more than, so far from dwellings. */
  function Apart(op: Operator, value: real): NormSpec {
    Simple(MinDistance, Some(SCHOOL), Some(RESIDENTIAL_BUILDING), op, value, METRES)
  }

  /** A dwelling at most so far from a school. */
  function Near(value: real): NormSpec {
    Simple(MaxDistance, Some(RESIDENTIAL_BUILDING), Some(SCHOOL), Le, value, METRES)
  }

  /** An attribute of dwellings of at most so much. */
  function AtMost(a: Attribute, value: real, unit: Unit): NormSpec {
    Simple(AttributeLimit, Some(RESIDENTIAL_BUILDING), None, Le, value, unit).(attribute := Some(a))
  }

  /** Places in clinics per 1000 residents. */
  function Places(value: real): NormSpec {
    Simple(Provision, None, Some(CLINIC), Ge, value, PER_THOUSAND)
  }

  function Within(spec: NormSpec, access: real, unit: Unit): NormSpec {
    spec.(accessValue := Some(access), accessUnit := Some(unit))
  }

  function Dwelling(role: Role): Layer {
    Layer(role, Side(RESIDENTIAL_BUILDING.entity, PhysicalObject))
  }

  function School(role: Role): Layer {
    Layer(role, Side(SCHOOL.entity, PhysicalObject))
  }

  /** A distance between a school and dwellings is not refused early, from either side. */
  lemma DistanceReads(spec: NormSpec, checked: SpecEntity, other: SpecEntity)
    requires spec.template == MinDistance || spec.template == MaxDistance
    requires spec.value.Some? && spec.objectsCount == None && checked.kind != FunctionalZone
    ensures EarlyReasons(spec, Some(checked), Some(other), PLAIN) == [] && ValueReasons(spec, PLAIN) == []
  {
  }

  lemma ApartCompiles(op: Operator, value: real, variants: seq<Variant>, unconditional: bool)
    requires (op == Ge || op == Gt) && 0.0 < value <= 100000.0
    ensures CompileOne(Apart(op, value).(variants := variants, unconditional := unconditional), PLAIN)
            == Compiled(Plan(DistanceFromSource(Some(value)), [Dwelling(Source), School(Targets)], None, None, false))
  {
    hide EarlyReasons, ValueReasons, Dedup;
    DistanceReads(Apart(op, value).(variants := variants, unconditional := unconditional), SCHOOL, RESIDENTIAL_BUILDING);
  }

  lemma NearCompiles(value: real, housing: set<Housing>)
    requires 0.0 < value <= 100000.0
    ensures CompileOne(Near(value).(housing := housing), PLAIN)
            == Compiled(Plan(PresenceWithin(value), [Dwelling(Objects), School(Neighbors)], None, None, false))
  {
    hide EarlyReasons, ValueReasons, Dedup;
    DistanceReads(Near(value).(housing := housing), RESIDENTIAL_BUILDING, SCHOOL);
  }

  lemma AtMostReads(spec: NormSpec, a: Attribute, value: real, unit: Unit)
    requires spec == AtMost(a, value, unit).(housing := spec.housing)
    ensures EarlyReasons(spec, Some(RESIDENTIAL_BUILDING), None, PLAIN) == [] && ValueReasons(spec, PLAIN) == []
  {
  }

  lemma AtMostBuilds(spec: NormSpec, a: Attribute, value: real, unit: Unit, mode: Option<Mode>)
    requires spec == AtMost(a, value, unit).(housing := spec.housing)
    requires (a == Floors && unit == FLOORS) || ((a == BuildingArea || a == PlotArea) && unit == AREA)
    ensures Build(spec, Some(Side(RESIDENTIAL_BUILDING.entity, PhysicalObject)), None, unit, mode, PLAIN)
            == Built(ObjectAttributeThreshold(Le, value), None)
  {
  }

  lemma AtMostCompiles(a: Attribute, value: real, unit: Unit, housing: set<Housing>)
    requires -1000000000.0 <= value <= 1000000000.0
    requires (a == Floors && unit == FLOORS) || ((a == BuildingArea || a == PlotArea) && unit == AREA)
    ensures CompileOne(AtMost(a, value, unit).(housing := housing), PLAIN)
            == Compiled(Plan(ObjectAttributeThreshold(Le, value), [Dwelling(Objects)], Some(a), None, false))
  {
    hide EarlyReasons, ValueReasons, Build, AccessMode, Dedup;
    var spec := AtMost(a, value, unit).(housing := housing);
    AtMostReads(spec, a, value, unit);
    AtMostBuilds(spec, a, value, unit, AccessMode(spec, PLAIN));
  }

  function Clinics(access: Option<Limit>, value: real): Plan {
    Plan(ServiceProvision(Some(value), None, access, Walk), [Layer(Services, Side(CLINIC.entity, Service))], None, None, false)
  }

  lemma PlacesRead(spec: NormSpec, value: real)
    requires spec.(variants := [], accessValue := None, accessUnit := None) == Places(value)
    ensures EarlyReasons(spec, None, Some(CLINIC), PLAIN) == [] && ValueReasons(spec, PLAIN) == []
  {
  }

  lemma PlacesCompile(value: real, variants: seq<Variant>)
    requires 0.0 < value <= 100000.0
    ensures CompileOne(Places(value).(variants := variants), PLAIN) == Compiled(Clinics(None, value))
  {
    hide EarlyReasons, ValueReasons, Dedup;
    PlacesRead(Places(value).(variants := variants), value);
  }

  lemma WithinPathCompiles(value: real, access: real, variants: seq<Variant>)
    requires 0.0 < value <= 100000.0 && 0.0 < access <= 100000.0
    ensures CompileOne(Within(Places(value), access, METRES).(variants := variants), PLAIN)
            == Compiled(Clinics(Some(PathLimit(access)), value))
  {
    hide EarlyReasons, ValueReasons, Dedup;
    PlacesRead(Within(Places(value), access, METRES).(variants := variants), value);
  }

  lemma WithinTimeCompiles(value: real, access: real, variants: seq<Variant>)
    requires 0.0 < value <= 100000.0 && 0.0 < access <= 240.0
    ensures CompileOne(Within(Places(value), access, MINUTES).(variants := variants), PLAIN)
            == Compiled(Clinics(Some(TimeLimit(access)), value))
  {
    hide EarlyReasons, ValueReasons, Build, AccessMode, ProvisionAccess, Dedup;
    var spec := Within(Places(value), access, MINUTES).(variants := variants);
    PlacesRead(spec, value);
    WithinTimeReadable(spec, value, access);
    BuildsPlaces(spec, value, access);
  }

  lemma WithinTimeReadable(spec: NormSpec, value: real, access: real)
    requires spec == Within(Places(value), access, MINUTES).(variants := spec.variants)
    requires 0.0 < value <= 100000.0 && 0.0 < access <= 240.0
    ensures ProvisionAccess(spec, Some(Walk), PLAIN) == Some(Some(TimeLimit(access))) && AccessMode(spec, PLAIN) == Some(Walk)
  {
    AccessDepends(spec, MINUTES, access, Some(Walk), PLAIN);
  }

  lemma BuildsPlaces(spec: NormSpec, value: real, access: real)
    requires spec == Within(Places(value), access, MINUTES).(variants := spec.variants)
    requires ProvisionAccess(spec, Some(Walk), PLAIN) == Some(Some(TimeLimit(access)))
    ensures Build(spec, None, Some(Side(CLINIC.entity, Service)), PER_THOUSAND, Some(Walk), PLAIN)
            == Built(ServiceProvision(Some(value), None, Some(TimeLimit(access)), Walk), None)
  {
  }

  // --- a plan of a strict bound is met at the bound ----------------------------------------------

  /** "More than 50 m" is met at 50 m. */
  lemma StrictBoundIsReached() returns (p: Plan)
    ensures CompileOne(Apart(Gt, 50.0), PLAIN) == Compiled(p)
    ensures Satisfies(Lone(50.0), p) && !Says(Apart(Gt, 50.0), PLAIN, 50.0)
  {
    p := Plan(DistanceFromSource(Some(50.0)), [Dwelling(Source), School(Targets)], None, None, false);
    ApartCompiles(Gt, 50.0, [], false);
    assert Apart(Gt, 50.0).(variants := [], unconditional := false) == Apart(Gt, 50.0);
    PlanSaysTheReading(Apart(Gt, 50.0), PLAIN, p, 50.0);
  }

  // --- an unconditional clause passes over its variants --------------------------------------------

  /** "Unconditionally" 50 m, with a variant that states another distance. */
  function Regardless(value: real): NormSpec {
    Apart(Ge, 50.0).(unconditional := true, variants := [JustValue(value, None)])
  }

  function ApartPlan(value: real): Plan {
    Plan(DistanceFromSource(Some(value)), [Dwelling(Source), School(Targets)], None, None, false)
  }

  /** The plan asks for 50 m only; a variant of 100 m goes unchecked. */
  lemma VariantIgnored(value: real)
    requires 0.0 < value <= 100000.0
    ensures CompileVariants(Regardless(value), Regardless(value).variants, PLAIN) == Compiled(ApartPlan(50.0))
    ensures CompileOne(Overridden(Regardless(value), Regardless(value).variants[0]), PLAIN) == Compiled(ApartPlan(value))
    ensures Entails(ApartPlan(50.0), ApartPlan(value)) <==> 50.0 >= value
  {
    hide CompileOne, CompileVariants, Entails;
    var variants := Regardless(value).variants;
    MainReading(value);
    OtherReading(value);
    OtherValueCovered(Regardless(value), variants, 0, value, PLAIN, ApartPlan(50.0), ApartPlan(value));
  }

  lemma MainReading(value: real)
    ensures CompileVariants(Regardless(value), Regardless(value).variants, PLAIN) == Compiled(ApartPlan(50.0))
  {
    ApartCompiles(Ge, 50.0, [JustValue(value, None)], true);
  }

  lemma OtherReading(value: real)
    requires 0.0 < value <= 100000.0
    ensures CompileOne(Overridden(Regardless(value), Regardless(value).variants[0]), PLAIN) == Compiled(ApartPlan(value))
  {
    var variants := [JustValue(value, None)];
    ApartCompiles(Ge, value, variants, true);
    assert Overridden(Regardless(value), variants[0]) == Apart(Ge, value).(variants := variants, unconditional := true);
  }

  // --- provision clauses that mix their terms --------------------------------------------------------

  function OtherAccess(access: real, unit: Unit): Variant {
    Variant(None, None, None, Some(access), Some(unit), None, {})
  }

  const SOMETIMES := Places(50.0).(variants := [OtherAccess(500.0, METRES)])

  /** 50 places per 1000 residents, in one case within 500 m. */
  lemma SometimesStated() returns (plan: Plan)
    ensures Kept(SOMETIMES, SOMETIMES.variants, PLAIN, [Clinics(None, 50.0), Clinics(Some(PathLimit(500.0)), 50.0)], plan)
    ensures !Conservative(plan, [Clinics(None, 50.0), Clinics(Some(PathLimit(500.0)), 50.0)])
  {
    var v := OtherAccess(500.0, METRES);
    PlacesCompile(50.0, [v]);
    WithinPathCompiles(50.0, 500.0, [v]);
    assert Overridden(SOMETIMES, v) == Within(Places(50.0), 500.0, METRES).(variants := [v]);
    plan := TwoKept(SOMETIMES, v, Clinics(None, 50.0), Clinics(Some(PathLimit(500.0)), 50.0));
    SometimesMixed(plan);
  }

  lemma SometimesMixed(plan: Plan)
    requires Kept(SOMETIMES, SOMETIMES.variants, PLAIN, [Clinics(None, 50.0), Clinics(Some(PathLimit(500.0)), 50.0)], plan)
    ensures !Conservative(plan, [Clinics(None, 50.0), Clinics(Some(PathLimit(500.0)), 50.0)])
  {
    MixedStated();
    ProvisionConservativeExactly(SOMETIMES, SOMETIMES.variants, PLAIN, [Clinics(None, 50.0), Clinics(Some(PathLimit(500.0)), 50.0)], plan);
  }

  lemma MixedStated()
    ensures !SameTerms(Candidates(SOMETIMES, SOMETIMES.variants), PLAIN)
  {
    var c := Candidates(SOMETIMES, SOMETIMES.variants);
    assert AccessStated(c[0], PLAIN) == Unstated && AccessStated(c[1], PLAIN) == Access.InMetres;
  }

  lemma TwoCompiled(c: seq<NormSpec>, one: NormSpec -> Compiled, p: Plan, q: Plan)
    requires |c| == 2 && one(c[0]) == Compiled(p) && one(c[1]) == Compiled(q)
    ensures CompileAll(c, one) == CompiledAll([p, q])
  {
    assert c[1..][1..] == [] && CompileAll(c[1..], one) == CompiledAll([q] + []);
    assert [p] + ([q] + []) == [p, q];
  }

  /** The plan kept of two readings with the same capacity. */
  lemma TwoKept(spec: NormSpec, v: Variant, p: Plan, q: Plan) returns (plan: Plan)
    requires !spec.unconditional && CompileOne(spec, PLAIN) == Compiled(p) && CompileOne(Overridden(spec, v), PLAIN) == Compiled(q)
    requires p.params.ServiceProvision? && q.params.ServiceProvision? && Strictness(p) == Strictness(q) != None
    ensures Kept(spec, [v], PLAIN, [p, q], plan)
    ensures plan == TightestAccessibility(p, [p, q]).(strictest := true)
  {
    TwoCompiled(Candidates(spec, [v]), Reader(PLAIN), p, q);
    FirstOfTwo(p, q);
    plan := TightestAccessibility(p, [p, q]).(strictest := true);
  }

  lemma FirstOfTwo(p: Plan, q: Plan)
    requires Strictness(p) == Strictness(q) != None
    ensures Comparable([p, q]) && Best([p, q]) == 0
  {
    assert [p, q][..1] == [p];
  }

  /**
   * Within 10 minutes, in one case within 700 m: the path is kept, being 8.75 minutes at 80 m a
   * minute. Where residents walk 50 m a minute, 700 m takes them longer than 10 minutes.
   */
  lemma SlowWalkers() returns (plan: Plan, w: World)
    ensures var spec := Within(Places(50.0), 10.0, MINUTES).(variants := [OtherAccess(700.0, METRES)]);
      var timed, path := Clinics(Some(TimeLimit(10.0)), 50.0), Clinics(Some(PathLimit(700.0)), 50.0);
      && Kept(spec, spec.variants, PLAIN, [timed, path], plan) && plan == path.(strictest := true)
      && Sensible(w) && w.pace == 50.0 && Satisfies(w, plan) && !Satisfies(w, timed)
  {
    var variants := [OtherAccess(700.0, METRES)];
    var spec := Within(Places(50.0), 10.0, MINUTES).(variants := variants);
    var timed, path := Clinics(Some(TimeLimit(10.0)), 50.0), Clinics(Some(PathLimit(700.0)), 50.0);
    WithinTimeCompiles(50.0, 10.0, variants);
    WithinPathCompiles(50.0, 700.0, variants);
    assert Overridden(spec, variants[0]) == Within(Places(50.0), 700.0, METRES).(variants := variants);
    plan := TwoKept(spec, variants[0], timed, path);
    PathIsTighter(timed, path);
    w := SlowTerritory(timed, path);
    SameMeaning(w, plan, path);
  }

  lemma PathIsTighter(timed: Plan, path: Plan)
    requires timed == Clinics(Some(TimeLimit(10.0)), 50.0) && path == Clinics(Some(PathLimit(700.0)), 50.0)
    ensures TightestAccessibility(timed, [timed, path]) == path
  {
    assert [timed, path][..1] == [timed] && [timed][..0] == [];
    assert StatedLimits([timed]) == [] + [TimeLimit(10.0)];
    assert StatedLimits([timed, path]) == [TimeLimit(10.0)] + [PathLimit(700.0)];
    assert [TimeLimit(10.0), PathLimit(700.0)][..1] == [TimeLimit(10.0)];
    assert TightestLimit([TimeLimit(10.0), PathLimit(700.0)]) == PathLimit(700.0);
  }

  lemma SlowTerritory(timed: Plan, path: Plan) returns (w: World)
    requires timed == Clinics(Some(TimeLimit(10.0)), 50.0) && path == Clinics(Some(PathLimit(700.0)), 50.0)
    ensures Sensible(w) && w.pace == 50.0 && Satisfies(w, path) && !Satisfies(w, timed)
  {
    var side := Side(CLINIC.entity, Service);
    w := Remote(600.0, 1.0, 0.05, 50.0, 0.0);
    assert Demand(w, side, path.params, 0) == 0.05 && Reach(w, side, timed.params.accessibility) == 500.0;
    RemoteServed(path, w, side);
    RemoteUnserved(timed, w, side);
  }

  // --- votes with one fingerprint that check different things -----------------------------------------

  lemma WholeClause(spec: NormSpec, p: Plan)
    requires spec.territorial && spec.template != NoTemplate && spec.variants == [] && !spec.unconditional
    requires CompileOne(spec, PLAIN) == Compiled(p) && Strictness(p).Some? && !p.params.ServiceProvision?
    ensures CompileVariants(spec, spec.variants, PLAIN) == Compiled(p.(strictest := true))
    ensures ReadingOf(spec, PLAIN) == spec && Concerning(spec.variants, spec.housing) == []
    ensures spec.housing == {} ==> Compile(spec, PLAIN) == Compiled(p.(strictest := true))
    ensures spec.housing != {} && Scoped(p.(strictest := true), spec.housing).InScopeOf? ==>
              Compile(spec, PLAIN) == Compiled(Scoped(p.(strictest := true), spec.housing).plan)
  {
    var c := Candidates(spec, []);
    assert c == [spec] && c[1..] == [];
    assert CompileAll(c, Reader(PLAIN)) == CompiledAll([p] + []);
    assert [p] + [] == [p];
  }

  /** At most 500 square metres of building, and of plot. */
  lemma SameFingerprintOtherArea() returns (p: Plan, q: Plan)
    ensures Compile(AtMost(BuildingArea, 500.0, AREA), PLAIN) == Compiled(p)
    ensures Compile(AtMost(PlotArea, 500.0, AREA), PLAIN) == Compiled(q)
    ensures FingerprintOf(p) == FingerprintOf(q) && !ChecksAlike(p, q)
  {
    var building := Plan(ObjectAttributeThreshold(Le, 500.0), [Dwelling(Objects)], Some(BuildingArea), None, false);
    var plot := building.(attribute := Some(PlotArea));
    p, q := building.(strictest := true), plot.(strictest := true);
    AreaClause(BuildingArea, building);
    AreaClause(PlotArea, plot);
    TwoAreas(building, plot);
  }

  lemma TwoAreas(p: Plan, q: Plan)
    requires p.attribute == Some(BuildingArea) && q == p.(attribute := Some(PlotArea))
    ensures var a, b := p.(strictest := true), q.(strictest := true);
      FingerprintOf(a) == FingerprintOf(b) && !ChecksAlike(a, b)
  {
  }

  lemma AreaClause(a: Attribute, p: Plan)
    requires a == BuildingArea || a == PlotArea
    requires p == Plan(ObjectAttributeThreshold(Le, 500.0), [Dwelling(Objects)], Some(a), None, false)
    ensures Compile(AtMost(a, 500.0, AREA), PLAIN) == Compiled(p.(strictest := true))
  {
    hide CompileOne, Compile;
    AtMostCompiles(a, 500.0, AREA, {});
    assert AtMost(a, 500.0, AREA).(housing := {}) == AtMost(a, 500.0, AREA);
    WholeClause(AtMost(a, 500.0, AREA), p);
  }

  /** The scope of the low houses. */
  function Low(p: Plan, h: Housing): Plan {
    p.(strictest := true, scope := Some(Scope(Objects, None, AsReal(FloorsOf(h).high))))
  }

  lemma LowIsScoped(p: Plan, h: Housing)
    requires (h == Individual || h == LowRise) && CheckedRole(p.params) == Some(Objects) && ChecksDwellings(p)
    ensures Scoped(p.(strictest := true), {h}) == InScopeOf(Low(p, h))
  {
    assert RangesOf({h}) == [FloorsOf(h)];
  }

  lemma NearClause(p: Plan)
    requires p == Plan(PresenceWithin(500.0), [Dwelling(Objects), School(Neighbors)], None, None, false)
    ensures Compile(Near(500.0), PLAIN) == Compiled(p.(strictest := true))
  {
    NearCompiles(500.0, {});
    assert Near(500.0).(housing := {}) == Near(500.0);
    WholeClause(Near(500.0), p);
  }

  lemma NearHouses(p: Plan)
    requires p == Plan(PresenceWithin(500.0), [Dwelling(Objects), School(Neighbors)], None, None, false)
    ensures Compile(Near(500.0).(housing := {Individual}), PLAIN) == Compiled(Low(p, Individual))
  {
    NearCompiles(500.0, {Individual});
    LowIsScoped(p, Individual);
    WholeClause(Near(500.0).(housing := {Individual}), p);
  }

  lemma FloorsClause(p: Plan, h: Housing)
    requires h == Individual || h == LowRise
    requires p == Plan(ObjectAttributeThreshold(Le, 9.0), [Dwelling(Objects)], Some(Floors), None, false)
    ensures Compile(AtMost(Floors, 9.0, FLOORS).(housing := {h}), PLAIN) == Compiled(Low(p, h))
  {
    hide CompileOne, Compile, Scoped;
    AtMostCompiles(Floors, 9.0, FLOORS, {h});
    LowIsScoped(p, h);
    WholeClause(AtMost(Floors, 9.0, FLOORS).(housing := {h}), p);
  }

  /** Dwellings within 500 m of a school: all of them, and the individual houses. */
  lemma SameFingerprintFewerHouses() returns (p: Plan, q: Plan)
    ensures Compile(Near(500.0), PLAIN) == Compiled(p)
    ensures Compile(Near(500.0).(housing := {Individual}), PLAIN) == Compiled(q)
    ensures FingerprintOf(p) == FingerprintOf(q) && p.attribute == q.attribute && !ChecksAlike(p, q)
  {
    var base := Plan(PresenceWithin(500.0), [Dwelling(Objects), School(Neighbors)], None, None, false);
    p, q := base.(strictest := true), Low(base, Individual);
    NearClause(base);
    NearHouses(base);
  }

  /** Up to 9 floors, of individual and of low-rise houses: neither can have more. */
  lemma OtherScopeSameChecks() returns (p: Plan, q: Plan)
    ensures Compile(AtMost(Floors, 9.0, FLOORS).(housing := {Individual}), PLAIN) == Compiled(p)
    ensures Compile(AtMost(Floors, 9.0, FLOORS).(housing := {LowRise}), PLAIN) == Compiled(q)
    ensures FingerprintOf(p) == FingerprintOf(q) && p.scope != q.scope && ChecksAlike(p, q)
  {
    var base := Plan(ObjectAttributeThreshold(Le, 9.0), [Dwelling(Objects)], Some(Floors), None, false);
    p, q := Low(base, Individual), Low(base, LowRise);
    FloorsClause(base, Individual);
    FloorsClause(base, LowRise);
    NineFloors(base);
  }

  lemma NineFloors(p: Plan)
    requires p == Plan(ObjectAttributeThreshold(Le, 9.0), [Dwelling(Objects)], Some(Floors), None, false)
    ensures var a, b := Low(p, Individual), Low(p, LowRise);
      FingerprintOf(a) == FingerprintOf(b) && a.scope != b.scope && ChecksAlike(a, b)
  {
  }
}
