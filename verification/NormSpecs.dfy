/**
 * NormSpec and its compilation into check plans (src/pipeline/norm_spec.py). Recognition of
 * Russian wording, the catalog and the precision guards are parameters (`Context`); the
 * branches, unit conversions and refusals are the compiler's.
 */
module NormSpecs {
  import opened Wrappers

  datatype EntityType = Service | PhysicalObject | FunctionalZone

  datatype SpecEntity = SpecEntity(entity: string, kind: EntityType)

  datatype Template =
    | MinDistance | ProhibitedWithin | MaxDistance | Accessibility
    | AttributeLimit | ZoneAttributeLimit | ZoneShare | Provision | NoTemplate

  datatype Operator = Lt | Le | Gt | Ge | Eq

  datatype Mode = Walk | Transport

  datatype Housing = Individual | LowRise | MidRise | MultiStorey

  datatype Attribute = Floors | Height | BuildingArea | PlotArea

  datatype Basis = PlacesPer1000 | ResidentsPerObject

  /** The unit tables, and what the patterns say about the wording of a provision unit. */
  datatype Measure = Metre | Kilometre | Minute | Hour | SquareMetre | Hectare | Floor | Percent | Other

  datatype Wording = Wording(
    area: bool, onlyPlaces: bool, places: bool, leadsWithResidents: bool, residents: bool, perThousand: bool, thousands: bool)

  datatype Unit = Unit(measure: Measure, words: Wording)

  const NO_UNIT := Unit(Other, Wording(false, false, false, false, false, false, false))

  /** Case-dependent values of a clause. */
  datatype Variant = Variant(
    value: Option<real>, unit: Option<Unit>, objectsCount: Option<real>,
    accessValue: Option<real>, accessUnit: Option<Unit>, accessMode: Option<Mode>,
    housing: set<Housing>)

  datatype NormSpec = NormSpec(
    territorial: bool, template: Template, checked: Option<SpecEntity>, other: Option<SpecEntity>,
    operator: Option<Operator>, value: Option<real>, unit: Option<Unit>, attribute: Option<Attribute>,
    accessValue: Option<real>, accessUnit: Option<Unit>, accessMode: Option<Mode>,
    housing: set<Housing>, basis: Option<Basis>, objectsCount: Option<real>,
    unconditional: bool, variants: seq<Variant>)

  function Prefer<T>(a: Option<T>, b: Option<T>): Option<T> {
    if a.Some? then a else b
  }

  /** `spec.model_copy(update=variant.overrides())`. */
  function Overridden(spec: NormSpec, v: Variant): NormSpec {
    spec.(value := Prefer(v.value, spec.value), unit := Prefer(v.unit, spec.unit),
          objectsCount := Prefer(v.objectsCount, spec.objectsCount),
          accessValue := Prefer(v.accessValue, spec.accessValue), accessUnit := Prefer(v.accessUnit, spec.accessUnit),
          accessMode := Prefer(v.accessMode, spec.accessMode))
  }

  /** A catalog entry an entity resolved to. */
  datatype Side = Side(name: string, kind: EntityType)

  /** What the compiler reads off the clause, the catalog and its configuration. */
  datatype Context = Context(
    resolve: (string, Option<EntityType>) -> Option<Side>,
    grounded: real -> bool,
    provisionTable: bool,
    perCapita: bool,
    relative: real -> bool,
    aboutAccessibility: bool,
    direction: bool,
    transportWording: bool,
    walkingWording: bool,
    ranges: seq<(real, real, Unit)>,
    residence: SpecEntity -> bool,
    genericBuilding: SpecEntity -> bool,
    precision: (Option<Operator>, seq<string>, Option<real>) -> seq<string>,
    transportSpeed: real)

  // --- plans ------------------------------------------------------------------------------

  datatype Limit = TimeLimit(minutes: real) | PathLimit(meters: real)

  datatype Params =
    | DistanceFromSource(distance: Option<real>)
    | PresenceWithin(within: real)
    | AccessibilityWithin(limit: Limit, speed: real, mode: Mode)
    | ObjectAttributeThreshold(operator: Operator, threshold: real)
    | ZonalAttributeThreshold(operator: Operator, threshold: real)
    | ZonalRatio(operator: Operator, threshold: real)
    | ServiceProvision(capacityPer1000: Option<real>, residentsPerService: Option<real>,
                       accessibility: Option<Limit>, accessMode: Mode)

  datatype Role = Source | Targets | Objects | Neighbors | Zones | Numerator | Services

  datatype Layer = Layer(role: Role, entity: Side)

  /** Only checked objects with a number of floors in the range. */
  datatype Scope = Scope(role: Role, min: Option<real>, max: Option<real>)

  datatype Plan = Plan(params: Params, layers: seq<Layer>, attribute: Option<Attribute>, scope: Option<Scope>, strictest: bool)

  datatype Compiled = Compiled(plan: Plan) | Refused(reasons: seq<string>)

  // --- units and constants ------------------------------------------------------------------

  const WALKING_SPEED: real := 80.0
  const DETOUR_FACTOR: real := 1.3
  const RESIDENTIAL_BUILDING := SpecEntity("Жилой дом", PhysicalObject)

  function LengthScale(u: Unit): Option<real> {
    match u.measure
    case Metre => Some(1.0)
    case Kilometre => Some(1000.0)
    case _ => None
  }

  function TimeScale(u: Unit): Option<real> {
    match u.measure
    case Minute => Some(1.0)
    case Hour => Some(60.0)
    case _ => None
  }

  function AreaScale(u: Unit): Option<real> {
    match u.measure
    case SquareMetre => Some(1.0)
    case Hectare => Some(10000.0)
    case _ => None
  }

  function UnitOf(u: Option<Unit>): Unit {
    u.GetOr(NO_UNIT)
  }

  // --- sides --------------------------------------------------------------------------------

  predicate IsResidence(e: Option<SpecEntity>, ctx: Context) {
    e.Some? && ctx.residence(e.value)
  }

  predicate IsAccess(t: Template) {
    t == Accessibility || t == MaxDistance
  }

  /** Which entity is checked and which is the other side; depends on no stated value. */
  function Sides(t: Template, checked: Option<SpecEntity>, other: Option<SpecEntity>, ctx: Context): (Option<SpecEntity>, Option<SpecEntity>) {
    var (c1, o1) := if t == Provision && other == None then (None, checked) else (checked, other);
    var (c2, o2) :=
      if IsAccess(t) && o1 == None && c1.Some? && c1.value.kind == Service then (Some(RESIDENTIAL_BUILDING), c1) else (c1, o1);
    if IsAccess(t) && IsResidence(o2, ctx) && !IsResidence(c2, ctx) then (o2, c2) else (c2, o2)
  }

  function Ground(item: Option<SpecEntity>, ctx: Context): Option<Side> {
    if item == None then None
    else
      var e := item.value;
      var direct := ctx.resolve(e.entity, Some(e.kind));
      if direct.Some? || e.kind == FunctionalZone then direct
      else
        // Looked up once more without its kind.
        var fallback := ctx.resolve(e.entity, None);
        if fallback.Some? && fallback.value.kind != FunctionalZone then fallback else None
  }

  function GroundReasons(item: Option<SpecEntity>, role: string, ctx: Context): seq<string> {
    if item == None then ["rewrite_missing_" + role]
    else if Ground(item, ctx) == None then ["entity_not_in_catalog"]
    else []
  }

  function When(condition: bool, reason: string): seq<string> {
    if condition then [reason] else []
  }

  function Dedup(reasons: seq<string>): seq<string> {
    if reasons == [] then []
    else
      var n := |reasons| - 1;
      var rest := Dedup(reasons[..n]);
      if reasons[n] in reasons[..n] then rest else rest + [reasons[n]]
  }

  function AccessMode(spec: NormSpec, ctx: Context): Option<Mode> {
    if spec.template != Accessibility && spec.accessValue == None then spec.accessMode
    else if ctx.transportWording && !ctx.walkingWording then Some(Transport)
    else if ctx.walkingWording && !ctx.transportWording then Some(Walk)
    else Some(spec.accessMode.GetOr(Walk))
  }

  /** Reasons found before a builder is tried, in the order they are reported. */
  function EarlyReasons(spec: NormSpec, checked: Option<SpecEntity>, other: Option<SpecEntity>, ctx: Context): seq<string> {
    var t := spec.template;
    var attributeNorm := t == AttributeLimit || t == ZoneAttributeLimit;
    When(attributeNorm && ctx.provisionTable, "provision_norm_not_attribute")
    + When(attributeNorm && ctx.perCapita, "per_capita_norm_not_attribute")
    + When(spec.value.Some? && ctx.relative(spec.value.value), "relative_value_not_supported")
    + When(t == MinDistance && (IsResidence(checked, ctx) || IsResidence(other, ctx)) && ctx.aboutAccessibility,
           "accessibility_not_min_distance")
    + When(t == ProhibitedWithin && other.Some? && ctx.genericBuilding(other.value), "generic_building_type")
    + When(IsAccess(t) && checked.Some? && checked.value.kind == FunctionalZone, "zone_as_checked_object")
    + (if t == Provision then [] else GroundReasons(checked, "checked", ctx))
    + (if t == AttributeLimit then [] else GroundReasons(other, "other", ctx))
  }

  function ValueReasons(spec: NormSpec, ctx: Context): seq<string> {
    (if spec.template == ProhibitedWithin then []
     else if spec.value == None then ["rewrite_missing_value"]
     else When(!ctx.grounded(spec.value.value), "value_not_in_source"))
    + When(spec.objectsCount.Some? && spec.objectsCount.value != 1.0 && !ctx.grounded(spec.objectsCount.value), "value_not_in_source")
  }

  // --- builders -------------------------------------------------------------------------------

  /** Parameters with the distance the precision guards look at, or the reason to refuse. */
  datatype Built = Built(params: Params, guarded: Option<real>) | Unbuilt(reason: string)

  function Distance(unit: Unit, value: real): Option<real> {
    if LengthScale(unit) == None then None else Some(value * LengthScale(unit).value)
  }

  function DistanceRefusal(unit: Unit, value: real): Option<string> {
    if LengthScale(unit) == None then Some("measurement_unit_mismatch")
    else if !(0.0 < value * LengthScale(unit).value <= 100000.0) then Some("distance_out_of_range")
    else None
  }

  function BuildMinDistance(spec: NormSpec, unit: Unit, value: real): Built {
    if spec.operator != Some(Ge) && spec.operator != Some(Gt) then Unbuilt("operator_direction_conflict")
    else if DistanceRefusal(unit, value).Some? then Unbuilt(DistanceRefusal(unit, value).value)
    else Built(DistanceFromSource(Distance(unit, value)), Distance(unit, value))
  }

  function BuildMaxDistance(spec: NormSpec, unit: Unit, value: real): Built {
    if spec.operator == Some(Lt) then Unbuilt("strict_distance_not_supported")
    else if spec.operator != Some(Le) then Unbuilt("operator_direction_conflict")
    else if DistanceRefusal(unit, value).Some? then Unbuilt(DistanceRefusal(unit, value).value)
    else Built(PresenceWithin(value * LengthScale(unit).value), Distance(unit, value))
  }

  function SpeedOf(mode: Option<Mode>, ctx: Context): real {
    if mode == Some(Transport) then ctx.transportSpeed else WALKING_SPEED
  }

  function BuildAccessibility(spec: NormSpec, unit: Unit, value: real, mode: Option<Mode>, ctx: Context): Built {
    if spec.operator != Some(Le) && spec.operator != Some(Lt) then Unbuilt("operator_direction_conflict")
    else
      var planMode := if mode == Some(Transport) then Transport else Walk;
      if TimeScale(unit).Some? then
        var minutes := value * TimeScale(unit).value;
        if !(0.0 < minutes <= 240.0) then Unbuilt("accessibility_out_of_range")
        else Built(AccessibilityWithin(TimeLimit(minutes), SpeedOf(mode, ctx), planMode), None)
      else if DistanceRefusal(unit, value).Some? then Unbuilt(DistanceRefusal(unit, value).value)
      else Built(AccessibilityWithin(PathLimit(value * LengthScale(unit).value), SpeedOf(mode, ctx), planMode), Distance(unit, value))
  }

  /** The threshold of an attribute in its own unit. */
  function Threshold(attribute: Attribute, unit: Unit, value: real): Option<real> {
    match attribute
    case Floors => if unit.measure == Floor then Some(value) else None
    case Height => if LengthScale(unit).Some? then Some(value * LengthScale(unit).value) else None
    case _ => if AreaScale(unit).Some? then Some(value * AreaScale(unit).value) else None
  }

  function AttributeRefusal(spec: NormSpec, unit: Unit, value: real): Option<string> {
    if spec.operator == None then Some("rewrite_missing_operator")
    else if spec.attribute == None then Some("rewrite_missing_attribute")
    else if Threshold(spec.attribute.value, unit, value) == None then Some("measurement_unit_mismatch")
    else None
  }

  function BuildAttributeLimit(spec: NormSpec, checked: Side, unit: Unit, value: real): Built {
    if checked.kind == FunctionalZone then Unbuilt("attribute_on_zone_not_supported")
    else if AttributeRefusal(spec, unit, value).Some? then Unbuilt(AttributeRefusal(spec, unit, value).value)
    else Built(ObjectAttributeThreshold(spec.operator.value, Threshold(spec.attribute.value, unit, value).value), None)
  }

  function BuildZoneAttributeLimit(spec: NormSpec, checked: Side, other: Side, unit: Unit, value: real): Built {
    if other.kind != FunctionalZone || checked.kind == FunctionalZone then Unbuilt("zone_roles_not_verified")
    else if AttributeRefusal(spec, unit, value).Some? then Unbuilt(AttributeRefusal(spec, unit, value).value)
    else Built(ZonalAttributeThreshold(spec.operator.value, Threshold(spec.attribute.value, unit, value).value), None)
  }

  function BuildZoneShare(spec: NormSpec, checked: Side, other: Side, unit: Unit, value: real): Built {
    if unit.measure != Percent then Unbuilt("measurement_unit_mismatch")
    else if spec.operator == None then Unbuilt("rewrite_missing_operator")
    else if !(0.0 <= value <= 100.0) then Unbuilt("ratio_out_of_range")
    else if other.kind != FunctionalZone || checked.kind == FunctionalZone then Unbuilt("ratio_basis_not_supported")
    else Built(ZonalRatio(spec.operator.value, value), None)
  }

  function Tenth(x: real): real {
    (x * 10.0 + 0.5).Floor as real / 10.0
  }

  /** The straight line covered in `minutes` at `speed`. */
  function Crow(minutes: real, speed: real): real {
    Tenth(minutes * speed / DETOUR_FACTOR)
  }

  /** Places per 1000 residents, or residents per object; `None` is a unit mismatch. */
  function Capacity(spec: NormSpec, unit: Unit, value: real): Option<(Option<real>, Option<real>)> {
    var w := unit.words;
    var basis :=
      if spec.basis.Some? then spec.basis.value
      else if !w.places && w.leadsWithResidents then ResidentsPerObject
      else PlacesPer1000;
    if basis == PlacesPer1000 then (if w.perThousand then Some((Some(value), None)) else None)
    else if w.places || !w.residents then None
    else
      var objects := if spec.objectsCount.Some? && spec.objectsCount.value != 0.0 then spec.objectsCount.value else 1.0;
      Some((None, Some(value * (if w.thousands then 1000.0 else 1.0) / objects)))
  }

  /** The stated accessibility of a provision norm; `None` inside is none stated. */
  function ProvisionAccess(spec: NormSpec, mode: Option<Mode>, ctx: Context): Option<Option<Limit>> {
    if spec.accessValue == None then Some(None)
    else
      var unit, value := UnitOf(spec.accessUnit), spec.accessValue.value;
      if TimeScale(unit).Some? && mode == Some(Transport) then
        // Minutes by transport become metres.
        Some(Some(PathLimit(Crow(value * TimeScale(unit).value, ctx.transportSpeed))))
      else if TimeScale(unit).Some? then Some(Some(TimeLimit(value * TimeScale(unit).value)))
      else if LengthScale(unit).Some? then Some(Some(PathLimit(value * LengthScale(unit).value)))
      else None
  }

  function BuildProvision(spec: NormSpec, other: Side, unit: Unit, value: real, mode: Option<Mode>, ctx: Context): Built {
    if other.kind != Service then Unbuilt("provision_requires_service")
    else if spec.operator.Some? && spec.operator.value != Ge && spec.operator.value != Gt then Unbuilt("operator_direction_conflict")
    else if Capacity(spec, unit, value) == None || ProvisionAccess(spec, mode, ctx) == None then Unbuilt("measurement_unit_mismatch")
    else
      var capacity, access := Capacity(spec, unit, value).value, ProvisionAccess(spec, mode, ctx).value;
      Built(ServiceProvision(capacity.0, capacity.1, access, if mode == Some(Transport) && access.Some? then Transport else Walk), None)
  }

  function Build(spec: NormSpec, checked: Option<Side>, other: Option<Side>, unit: Unit, mode: Option<Mode>, ctx: Context): Built
    requires spec.template != Provision ==> checked.Some?
    requires spec.template != AttributeLimit ==> other.Some?
    requires spec.template != ProhibitedWithin ==> spec.value.Some?
  {
    match spec.template
    case MinDistance => BuildMinDistance(spec, unit, spec.value.value)
    case ProhibitedWithin => Built(DistanceFromSource(None), None)
    case MaxDistance => BuildMaxDistance(spec, unit, spec.value.value)
    case Accessibility => BuildAccessibility(spec, unit, spec.value.value, mode, ctx)
    case AttributeLimit => BuildAttributeLimit(spec, checked.value, unit, spec.value.value)
    case ZoneAttributeLimit => BuildZoneAttributeLimit(spec, checked.value, other.value, unit, spec.value.value)
    case ZoneShare => BuildZoneShare(spec, checked.value, other.value, unit, spec.value.value)
    case Provision => BuildProvision(spec, other.value, unit, spec.value.value, mode, ctx)
    case NoTemplate => Unbuilt("rewrite_no_template")
  }

  /** The layers of a plan: its template and its two sides. */
  function LayersOf(t: Template, checked: Option<Side>, other: Option<Side>): seq<Layer>
    requires t != Provision ==> checked.Some?
    requires t != AttributeLimit ==> other.Some?
  {
    match t
    case MinDistance => [Layer(Source, other.value), Layer(Targets, checked.value)]
    case ProhibitedWithin => [Layer(Source, other.value), Layer(Targets, checked.value)]
    case MaxDistance => [Layer(Objects, checked.value), Layer(Neighbors, other.value)]
    case Accessibility => [Layer(Objects, checked.value), Layer(Neighbors, other.value)]
    case AttributeLimit => [Layer(Objects, checked.value)]
    case ZoneAttributeLimit => [Layer(Objects, checked.value), Layer(Zones, other.value)]
    case ZoneShare => [Layer(Zones, other.value), Layer(Numerator, checked.value)]
    case Provision => [Layer(Services, other.value)]
    case NoTemplate => []
  }

  predicate LimitInRange(limit: Limit) {
    match limit
    case TimeLimit(m) => 0.0 < m <= 240.0
    case PathLimit(m) => 0.0 < m <= 100000.0
  }

  /** `validate_check_plan` on the parameters a builder can produce. */
  predicate InRange(p: Params) {
    match p
    case DistanceFromSource(d) => d.Some? ==> 0.0 < d.value <= 100000.0
    case PresenceWithin(d) => 0.0 < d <= 100000.0
    case AccessibilityWithin(limit, speed, _) => LimitInRange(limit) && 0.0 < speed <= 1000.0
    case ObjectAttributeThreshold(_, t) => -1000000000.0 <= t <= 1000000000.0
    case ZonalAttributeThreshold(_, t) => -1000000000.0 <= t <= 1000000000.0
    case ZonalRatio(_, t) => 0.0 <= t <= 100.0
    case ServiceProvision(c, r, a, _) =>
      && (c.Some? ==> 0.0 < c.value <= 100000.0)
      && (r.Some? ==> 0.0 < r.value <= 10000000.0)
      && (a.Some? ==> LimitInRange(a.value))
      && (c == None || r == None)
  }

  /** The provision unit, completed by the title of a table per 1000 residents. */
  function ProvisionUnit(spec: NormSpec, ctx: Context): Unit {
    var unit := UnitOf(spec.unit);
    if spec.template == Provision && unit.words.onlyPlaces && ctx.provisionTable
    then unit.(words := unit.words.(onlyPlaces := false, residents := true, perThousand := true))
    else unit
  }

  function Labels(checked: Option<Side>, other: Option<Side>): seq<string> {
    (if checked.Some? then [checked.value.name] else []) + (if other.Some? then [other.value.name] else [])
  }

  /** `_compile_one`: one reading of the clause becomes a plan or a refusal. */
  function CompileOne(spec: NormSpec, ctx: Context): Compiled {
    var (checkedEntity, otherEntity) := Sides(spec.template, spec.checked, spec.other, ctx);
    var checked := if spec.template == Provision then None else Ground(checkedEntity, ctx);
    var other := if spec.template == AttributeLimit then None else Ground(otherEntity, ctx);
    var sides := EarlyReasons(spec, checkedEntity, otherEntity, ctx)
                 + When(checked.Some? && other.Some? && checked == other
                        && spec.template != ZoneAttributeLimit && spec.template != ZoneShare, "same_entity_spacing_not_supported");
    var unit := ProvisionUnit(spec, ctx);
    if spec.template == Provision && UnitOf(spec.unit).words.area then Refused(["provision_area_not_in_data"])
    else
      var early := sides + ValueReasons(spec, ctx);
      if early != [] then Refused(Dedup(early))
      else if !Prepared(spec, checked, other) then Refused(["rewrite_no_template"])
      else
        match Build(spec, checked, other, unit, AccessMode(spec, ctx), ctx)
        case Unbuilt(reason) => Refused([reason])
        case Built(params, guarded) =>
          var late := ctx.precision(spec.operator, Labels(checked, other), guarded);
          var undirected := (spec.template == MinDistance || IsAccess(spec.template)) && !ctx.direction;
          if late != [] then Refused(Dedup(late))
          else if undirected then Refused(["direction_not_in_source"])
          else if !InRange(params) then Refused(["invalid_plan_parameters"])
          else Compiled(Plan(params, LayersOf(spec.template, checked, other),
                             if spec.template == AttributeLimit || spec.template == ZoneAttributeLimit then spec.attribute else None,
                             None, false))
  }

  /** What a builder can rely on once no early reason was found. */
  predicate Prepared(spec: NormSpec, checked: Option<Side>, other: Option<Side>) {
    && spec.template != NoTemplate
    && (spec.template != Provision ==> checked.Some?)
    && (spec.template != AttributeLimit ==> other.Some?)
    && (spec.template != ProhibitedWithin ==> spec.value.Some?)
  }

  /** Without an early reason both sides are grounded and the value is there. */
  lemma NoEarlyReasonPrepares(spec: NormSpec, ctx: Context)
    requires spec.template != NoTemplate
    requires var (c, o) := Sides(spec.template, spec.checked, spec.other, ctx);
      EarlyReasons(spec, c, o, ctx) == [] && ValueReasons(spec, ctx) == []
    ensures var (c, o) := Sides(spec.template, spec.checked, spec.other, ctx);
      Prepared(spec, if spec.template == Provision then None else Ground(c, ctx), if spec.template == AttributeLimit then None else Ground(o, ctx))
  {
    var (c, o) := Sides(spec.template, spec.checked, spec.other, ctx);
    assert spec.template != Provision ==> GroundReasons(c, "checked", ctx) == [];
    assert spec.template != AttributeLimit ==> GroundReasons(o, "other", ctx) == [];
  }

  // --- strictness -------------------------------------------------------------------------------

  datatype Kind =
    | Prohibited | MinDistanceKind | MaxDistanceKind | AccessKind
    | AttributeKind(op: Operator) | ZoneAttributeKind(op: Operator) | ShareKind(op: Operator)
    | ResidentsKind | CapacityKind | UrbanApiKind

  function Signed(op: Operator, value: real): Option<real> {
    match op
    case Eq => None
    case Lt => Some(value)
    case Le => Some(value)
    case _ => Some(-value)
  }

  function AccessMeters(limit: Limit, speed: real): real {
    match limit
    case TimeLimit(m) => m * speed
    case PathLimit(m) => m
  }

  function Keyed(kind: Kind, key: Option<real>): Option<(Kind, real)> {
    if key == None then None else Some((kind, key.value))
  }

  /** What kind of bound a plan states and how tight it is, by a key that falls as the bound tightens. */
  function Strictness(p: Plan): Option<(Kind, real)> {
    match p.params
    case DistanceFromSource(d) => if d == None then Some((Prohibited, 0.0)) else Some((MinDistanceKind, -d.value))
    case PresenceWithin(d) => Some((MaxDistanceKind, d))
    case AccessibilityWithin(limit, speed, _) => Some((AccessKind, AccessMeters(limit, speed)))
    case ObjectAttributeThreshold(op, t) => Keyed(AttributeKind(op), Signed(op, t))
    case ZonalAttributeThreshold(op, t) => Keyed(ZoneAttributeKind(op), Signed(op, t))
    case ZonalRatio(op, t) => Keyed(ShareKind(op), Signed(op, t))
    case ServiceProvision(c, r, _, _) =>
      if r.Some? && r.value != 0.0 then Some((ResidentsKind, r.value))
      else if c.Some? && c.value != 0.0 then Some((CapacityKind, -c.value))
      else Some((UrbanApiKind, 0.0))
  }

  /** The first plan with the smallest key. */
  function Best(plans: seq<Plan>): (i: nat)
    requires plans != [] && forall k :: 0 <= k < |plans| ==> Strictness(plans[k]).Some?
    ensures i < |plans|
    ensures forall k :: 0 <= k < |plans| ==> Strictness(plans[i]).value.1 <= Strictness(plans[k]).value.1
    ensures forall k :: 0 <= k < i ==> Strictness(plans[i]).value.1 < Strictness(plans[k]).value.1
  {
    var n := |plans| - 1;
    if n == 0 then 0
    else
      var i := Best(plans[..n]);
      if Strictness(plans[n]).value.1 < Strictness(plans[i]).value.1 then n else i
  }

  function StatedLimits(plans: seq<Plan>): (r: seq<Limit>)
    ensures forall l :: l in r <==> exists k :: 0 <= k < |plans| && plans[k].params.ServiceProvision? && plans[k].params.accessibility == Some(l)
  {
    if plans == [] then []
    else
      var n := |plans| - 1;
      var p := plans[n].params;
      StatedLimits(plans[..n]) + (if p.ServiceProvision? && p.accessibility.Some? then [p.accessibility.value] else [])
  }

  /** The first of the limits with the shortest walk. */
  function TightestLimit(limits: seq<Limit>): (l: Limit)
    requires limits != []
    ensures l in limits
    ensures forall m :: m in limits ==> AccessMeters(l, WALKING_SPEED) <= AccessMeters(m, WALKING_SPEED)
  {
    var n := |limits| - 1;
    if n == 0 then limits[0]
    else
      var l := TightestLimit(limits[..n]);
      assert forall m :: m in limits <==> m in limits[..n] || m == limits[n];
      if AccessMeters(limits[n], WALKING_SPEED) < AccessMeters(l, WALKING_SPEED) then limits[n] else l
  }

  /** A provision plan with the tightest limit stated by any of the plans. */
  function TightestAccessibility(plan: Plan, plans: seq<Plan>): Plan {
    if !plan.params.ServiceProvision? || StatedLimits(plans) == [] then plan
    else plan.(params := plan.params.(accessibility := Some(TightestLimit(StatedLimits(plans)))))
  }

  datatype CompiledAll = CompiledAll(plans: seq<Plan>) | RefusedOne(reasons: seq<string>)

  /** Compiling single readings, in the context of a clause. */
  function Reader(ctx: Context): NormSpec -> Compiled {
    s => CompileOne(s, ctx)
  }

  /** Every candidate must compile on its own; the first refusal is the answer. */
  function CompileAll(candidates: seq<NormSpec>, one: NormSpec -> Compiled): (r: CompiledAll)
    ensures r.CompiledAll? ==> |r.plans| == |candidates|
    ensures r.CompiledAll? ==> forall k :: 0 <= k < |candidates| ==> one(candidates[k]) == Compiled(r.plans[k])
  {
    if candidates == [] then CompiledAll([])
    else
      match one(candidates[0])
      case Refused(reasons) => RefusedOne(reasons)
      case Compiled(p) =>
        match CompileAll(candidates[1..], one)
        case RefusedOne(reasons) => RefusedOne(reasons)
        case CompiledAll(rest) => CompiledAll([p] + rest)
  }

  function Candidates(spec: NormSpec, variants: seq<Variant>): (r: seq<NormSpec>)
    ensures |r| == |variants| + 1 && r[0] == spec
    ensures forall k :: 0 <= k < |variants| ==> r[k + 1] == Overridden(spec, variants[k])
  {
    [spec] + seq(|variants|, k requires 0 <= k < |variants| => Overridden(spec, variants[k]))
  }

  predicate Comparable(plans: seq<Plan>) {
    && (forall k :: 0 <= k < |plans| ==> Strictness(plans[k]).Some?)
    && (forall j, k :: 0 <= j < |plans| && 0 <= k < |plans| ==> Strictness(plans[j]).value.0 == Strictness(plans[k]).value.0)
  }

  /** The strictest of the readings of a clause, each compiled by `one`. */
  function KeepStrictest(spec: NormSpec, variants: seq<Variant>, one: NormSpec -> Compiled): Compiled {
    if spec.unconditional then one(spec)
    else
      match CompileAll(Candidates(spec, variants), one)
      case RefusedOne(reasons) => Refused(reasons)
      case CompiledAll(plans) =>
        if !Comparable(plans) then Refused(["variants_not_comparable"])
        else Compiled(TightestAccessibility(plans[Best(plans)], plans).(strictest := true))
  }

  /** `_compile_variants`. */
  function CompileVariants(spec: NormSpec, variants: seq<Variant>, ctx: Context): Compiled {
    KeepStrictest(spec, variants, Reader(ctx))
  }
}
