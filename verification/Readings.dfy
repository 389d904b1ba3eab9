/**
 * What a compiled plan says about the reading it comes from (src/pipeline/norm_spec.py): it
 * is grounded in the clause and the catalog, and it asks for the stated relation to the
 * stated quantity, in whatever unit that is written.
 */
module Readings {
  import opened Wrappers
  import opened NormSpecs
  import opened Strictest
  import opened Exactness

  // --- units -----------------------------------------------------------------------------------

  /** One of the larger unit is `scale` of the smaller. */
  predicate Multiple(big: Measure, small: Measure, scale: real) {
    || (big == Kilometre && small == Metre && scale == 1000.0)
    || (big == Hour && small == Minute && scale == 60.0)
    || (big == Hectare && small == SquareMetre && scale == 10000.0)
  }

  function Restated(spec: NormSpec, value: real): NormSpec {
    spec.(value := Some(value))
  }

  /** A quantity compiles to the same parameters in either of two units. */
  lemma {:induction false} UnitsAgree(
    spec: NormSpec, checked: Option<Side>, other: Option<Side>, big: Measure, small: Measure, scale: real, words: Wording, value: real,
    mode: Option<Mode>, ctx: Context)
    requires Multiple(big, small, scale) && spec.template != Provision && Prepared(Restated(spec, value), checked, other)
    ensures Build(Restated(spec, value), checked, other, Unit(big, words), mode, ctx)
            == Build(Restated(spec, value * scale), checked, other, Unit(small, words), mode, ctx)
  {
    match spec.template
    case MinDistance => DistancesAgree(spec, big, small, scale, words, value, mode, ctx);
    case MaxDistance => DistancesAgree(spec, big, small, scale, words, value, mode, ctx);
    case Accessibility => DistancesAgree(spec, big, small, scale, words, value, mode, ctx);
    case AttributeLimit => AttributesAgree(spec, big, small, scale, words, value);
    case ZoneAttributeLimit => AttributesAgree(spec, big, small, scale, words, value);
    case _ =>
  }

  lemma DistancesAgree(
    spec: NormSpec, big: Measure, small: Measure, scale: real, words: Wording, value: real, mode: Option<Mode>, ctx: Context)
    requires Multiple(big, small, scale)
    ensures BuildMinDistance(Restated(spec, value), Unit(big, words), value)
            == BuildMinDistance(Restated(spec, value * scale), Unit(small, words), value * scale)
    ensures BuildMaxDistance(Restated(spec, value), Unit(big, words), value)
            == BuildMaxDistance(Restated(spec, value * scale), Unit(small, words), value * scale)
    ensures BuildAccessibility(Restated(spec, value), Unit(big, words), value, mode, ctx)
            == BuildAccessibility(Restated(spec, value * scale), Unit(small, words), value * scale, mode, ctx)
  {
    ScalesAgree(big, small, scale, words, value);
  }

  lemma ScalesAgree(big: Measure, small: Measure, scale: real, words: Wording, value: real)
    requires Multiple(big, small, scale)
    ensures Distance(Unit(big, words), value) == Distance(Unit(small, words), value * scale)
    ensures DistanceRefusal(Unit(big, words), value) == DistanceRefusal(Unit(small, words), value * scale)
    ensures TimeScale(Unit(big, words)).Some? == TimeScale(Unit(small, words)).Some?
    ensures TimeScale(Unit(big, words)).Some? ==>
              value * TimeScale(Unit(big, words)).value == value * scale * TimeScale(Unit(small, words)).value
  {
  }

  lemma AttributesAgree(spec: NormSpec, big: Measure, small: Measure, scale: real, words: Wording, value: real)
    requires Multiple(big, small, scale)
    ensures spec.attribute.Some? ==>
              Threshold(spec.attribute.value, Unit(big, words), value) == Threshold(spec.attribute.value, Unit(small, words), value * scale)
    ensures AttributeRefusal(spec, Unit(big, words), value) == AttributeRefusal(spec, Unit(small, words), value * scale)
  {
  }

  // --- grounding -----------------------------------------------------------------------------------

  /** The entry of an entity: of the stated kind, else, where there is none and no zone is asked for, any that is no zone. */
  predicate InCatalog(side: Side, item: SpecEntity, ctx: Context) {
    var own, any := ctx.resolve(item.entity, Some(item.kind)), ctx.resolve(item.entity, None);
    own == Some(side) || (own == None && item.kind != FunctionalZone && side.kind != FunctionalZone && any == Some(side))
  }

  /** The distance in metres that a plan asks for. */
  function StatedDistance(p: Params): Option<real> {
    match p
    case DistanceFromSource(d) => d
    case PresenceWithin(d) => Some(d)
    case AccessibilityWithin(PathLimit(d), _, _) => Some(d)
    case _ => None
  }

  /** The operator means what the template checks. */
  predicate OperatorFits(t: Template, op: Option<Operator>) {
    match t
    case MinDistance => op == Some(Ge) || op == Some(Gt)
    case MaxDistance => op == Some(Le)
    case Accessibility => op == Some(Le) || op == Some(Lt)
    case Provision => op == None || op == Some(Ge) || op == Some(Gt)
    case ProhibitedWithin => true
    case _ => op.Some?
  }

  /**
   * No plan is guessed: the numbers occur in the clause, every layer is a catalog entry one of
   * the two named entities resolved to, the operator fits the template, the precision guards
   * pass the distance asked for, and a distance norm states its direction.
   */
  lemma CompiledIsGrounded(spec: NormSpec, ctx: Context, p: Plan)
    requires CompileOne(spec, ctx) == Compiled(p)
    ensures spec.template != ProhibitedWithin ==> spec.value.Some? && ctx.grounded(spec.value.value)
    ensures spec.objectsCount.Some? && spec.objectsCount.value != 1.0 ==> ctx.grounded(spec.objectsCount.value)
    ensures OperatorFits(spec.template, spec.operator)
    ensures spec.template == MinDistance || IsAccess(spec.template) ==> ctx.direction
    ensures var (c, o) := Sides(spec.template, spec.checked, spec.other, ctx);
      var checked := if spec.template == Provision then None else Ground(c, ctx);
      var other := if spec.template == AttributeLimit then None else Ground(o, ctx);
      ctx.precision(spec.operator, Labels(checked, other), StatedDistance(p.params)) == []
  {
    ReasonsAbsent(spec, ctx, p);
    CompiledOperator(spec, ctx, p);
    PrecisionPassed(spec, ctx, p);
  }

  lemma ReasonsAbsent(spec: NormSpec, ctx: Context, p: Plan)
    requires CompileOne(spec, ctx) == Compiled(p)
    ensures ValueReasons(spec, ctx) == []
    ensures spec.template == MinDistance || IsAccess(spec.template) ==> ctx.direction
  {
    var (c, o) := Sides(spec.template, spec.checked, spec.other, ctx);
    NothingToDedup(EarlyReasons(spec, c, o, ctx) + ValueReasons(spec, ctx));
  }

  lemma PrecisionPassed(spec: NormSpec, ctx: Context, p: Plan)
    requires CompileOne(spec, ctx) == Compiled(p)
    ensures var (c, o) := Sides(spec.template, spec.checked, spec.other, ctx);
      var checked := if spec.template == Provision then None else Ground(c, ctx);
      var other := if spec.template == AttributeLimit then None else Ground(o, ctx);
      ctx.precision(spec.operator, Labels(checked, other), StatedDistance(p.params)) == []
  {
    var (c, o) := Sides(spec.template, spec.checked, spec.other, ctx);
    var checked := if spec.template == Provision then None else Ground(c, ctx);
    var other := if spec.template == AttributeLimit then None else Ground(o, ctx);
    GuardsTheDistance(spec, checked, other, ProvisionUnit(spec, ctx), AccessMode(spec, ctx), ctx);
    NothingToDedup(ctx.precision(spec.operator, Labels(checked, other), StatedDistance(p.params)));
  }

  lemma GuardsTheDistance(spec: NormSpec, checked: Option<Side>, other: Option<Side>, unit: Unit, mode: Option<Mode>, ctx: Context)
    requires Prepared(spec, checked, other)
    ensures var b := Build(spec, checked, other, unit, mode, ctx); b.Built? ==> b.guarded == StatedDistance(b.params)
  {
    var b := Build(spec, checked, other, unit, mode, ctx);
    if b.Built? && b.guarded.Some? {
      assert b.guarded.value == spec.value.value * LengthScale(unit).value;
      assert StatedDistance(b.params).Some? && StatedDistance(b.params).value == spec.value.value * LengthScale(unit).value;
    }
  }

  lemma NothingToDedup(reasons: seq<string>)
    ensures Dedup(reasons) == [] <==> reasons == []
  {
    if reasons != [] {
      var n := |reasons| - 1;
      if n > 0 {
        NothingToDedup(reasons[..n]);
      }
    }
  }

  lemma CompiledOperator(spec: NormSpec, ctx: Context, p: Plan)
    requires CompileOne(spec, ctx) == Compiled(p)
    ensures OperatorFits(spec.template, spec.operator)
  {
  }

  /** The roles that layers of the checked entity have. */
  predicate ChecksRole(role: Role) {
    role == Targets || role == Objects || role == Numerator
  }

  /**
   * Every layer is a catalog entry of its own side: the checked objects of the checked entity,
   * the source, neighbours, zones or services of the other.
   */
  lemma LayersInCatalog(spec: NormSpec, ctx: Context, p: Plan, i: nat)
    requires CompileOne(spec, ctx) == Compiled(p) && i < |p.layers|
    ensures var (c, o) := Sides(spec.template, spec.checked, spec.other, ctx);
      var side := if ChecksRole(p.layers[i].role) then c else o;
      side.Some? && InCatalog(p.layers[i].entity, side.value, ctx)
  {
    CompiledSubject(spec, ctx, p);
  }

  /** An access norm between dwellings and something else checks the dwellings, however it names the two. */
  lemma ResidentsAreChecked(t: Template, checked: Option<SpecEntity>, other: Option<SpecEntity>, ctx: Context)
    requires IsAccess(t) && ctx.residence(RESIDENTIAL_BUILDING)
    ensures var (c, o) := Sides(t, checked, other, ctx);
      && (IsResidence(checked, ctx) || IsResidence(other, ctx) ==> IsResidence(c, ctx))
      && (other == None && checked.Some? && checked.value.kind == Service ==> o == checked && IsResidence(c, ctx))
      && (checked.Some? && other.Some? && IsResidence(checked, ctx) != IsResidence(other, ctx) ==> Sides(t, other, checked, ctx) == (c, o))
  {
  }

  /** A provision norm with the given accessibility. */
  function Reaching(spec: NormSpec, value: real, unit: Unit): NormSpec {
    spec.(accessValue := Some(value), accessUnit := Some(unit))
  }

  /** A stated accessibility of a provision norm is the same in either of two units. */
  lemma {:induction false} ProvisionUnitsAgree(
    spec: NormSpec, big: Measure, small: Measure, scale: real, words: Wording, value: real, mode: Option<Mode>, ctx: Context)
    requires Multiple(big, small, scale)
    ensures ProvisionAccess(Reaching(spec, value, Unit(big, words)), mode, ctx)
            == ProvisionAccess(Reaching(spec, value * scale, Unit(small, words)), mode, ctx)
  {
    var u, v := Unit(big, words), Unit(small, words);
    ScalesAgree(big, small, scale, words, value);
    AccessDepends(Reaching(spec, value, u), u, value, mode, ctx);
    AccessDepends(Reaching(spec, value * scale, v), v, value * scale, mode, ctx);
  }

  /** The accessibility of a provision norm in metres or minutes. */
  function AccessRead(minutes: Option<real>, meters: Option<real>, mode: Option<Mode>, ctx: Context): Option<Option<Limit>> {
    if minutes.Some? then
      if mode == Some(Transport) then Some(Some(PathLimit(Crow(minutes.value, ctx.transportSpeed)))) else Some(Some(TimeLimit(minutes.value)))
    else if meters.Some? then Some(Some(PathLimit(meters.value)))
    else None
  }

  function Minutes(unit: Unit, value: real): Option<real> {
    if TimeScale(unit).Some? then Some(value * TimeScale(unit).value) else None
  }

  lemma AccessDepends(spec: NormSpec, unit: Unit, value: real, mode: Option<Mode>, ctx: Context)
    requires spec.accessValue == Some(value) && spec.accessUnit == Some(unit)
    ensures ProvisionAccess(spec, mode, ctx) == AccessRead(Minutes(unit, value), Distance(unit, value), mode, ctx)
  {
    match unit.measure
    case Minute => assert Minutes(unit, value) == Some(value);
    case Hour => assert Minutes(unit, value) == Some(value * 60.0);
    case Metre => assert Distance(unit, value) == Some(value);
    case Kilometre => assert Distance(unit, value) == Some(value * 1000.0);
    case _ =>
  }

  // --- meaning -------------------------------------------------------------------------------------------

  datatype Dimension = Length | Duration | Area | Count | Share

  /** A quantity in metres, minutes, square metres, floors or percent. */
  function Quantity(unit: Unit, value: real): Option<(Dimension, real)> {
    match unit.measure
    case Metre => Some((Length, value))
    case Kilometre => Some((Length, value * 1000.0))
    case Minute => Some((Duration, value))
    case Hour => Some((Duration, value * 60.0))
    case SquareMetre => Some((Area, value))
    case Hectare => Some((Area, value * 10000.0))
    case Floor => Some((Count, value))
    case Percent => Some((Share, value))
    case Other => None
  }

  function In(q: Option<(Dimension, real)>, d: Dimension): Option<real> {
    if q.Some? && q.value.0 == d then Some(q.value.1) else None
  }

  /** What an attribute is measured in. */
  function DimensionOf(a: Attribute): Dimension {
    match a
    case Floors => Count
    case Height => Length
    case BuildingArea => Area
    case PlotArea => Area
  }

  /** The stated quantity in the dimension its template asks for; a duration is as long as the way made in it. */
  function Stated(spec: NormSpec, unit: Unit, value: real, speed: real): Option<real> {
    var q := Quantity(unit, value);
    match spec.template
    case MinDistance => In(q, Length)
    case MaxDistance => In(q, Length)
    case Accessibility => if In(q, Duration).Some? then Some(In(q, Duration).value * speed) else In(q, Length)
    case AttributeLimit => if spec.attribute.Some? then In(q, DimensionOf(spec.attribute.value)) else None
    case ZoneAttributeLimit => if spec.attribute.Some? then In(q, DimensionOf(spec.attribute.value)) else None
    case ZoneShare => In(q, Share)
    case _ => None
  }

  /** Only transport is worded, or the wording does not decide and the reading says transport. */
  predicate ByTransport(spec: NormSpec, ctx: Context) {
    || (ctx.transportWording && !ctx.walkingWording)
    || (ctx.transportWording == ctx.walkingWording && spec.accessMode == Some(Transport))
  }

  /** Metres a minute of the worded way of going. */
  function Pace(spec: NormSpec, ctx: Context): real {
    if ByTransport(spec, ctx) then ctx.transportSpeed else 80.0
  }

  /** What is compared with it: the way of an access norm is 1.3 times the straight line. */
  function Measured(t: Template, x: real): real {
    if t == Accessibility then x * 1.3 else x
  }

  /** The measured is in the stated relation to the stated quantity. */
  predicate SaysIn(spec: NormSpec, stated: Option<real>, x: real) {
    spec.template == ProhibitedWithin
    || (spec.operator.Some? && stated.Some? && Compare(spec.operator.value, Measured(spec.template, x), stated.value))
  }

  /** A strict bound on a distance or a way is compiled as one that may be reached. */
  predicate ReachesIn(spec: NormSpec, stated: Option<real>, x: real) {
    && (spec.template == MinDistance || spec.template == Accessibility) && (spec.operator == Some(Gt) || spec.operator == Some(Lt))
    && stated == Some(Measured(spec.template, x))
  }

  function StatedBy(spec: NormSpec, ctx: Context): Option<real> {
    Stated(spec, spec.unit.GetOr(NO_UNIT), spec.value.GetOr(0.0), Pace(spec, ctx))
  }

  lemma StatedAtSpeed(spec: NormSpec, ctx: Context)
    ensures StatedBy(spec, ctx) == Stated(spec, UnitOf(spec.unit), spec.value.GetOr(0.0), SpeedOf(AccessMode(spec, ctx), ctx))
    ensures spec.template == Accessibility || spec.accessValue.Some? ==> (AccessMode(spec, ctx) == Some(Transport) <==> ByTransport(spec, ctx))
  {
  }

  /** An accessibility plan goes the worded way, at the speed of it, for the stated time or way. */
  lemma AccessIsWorded(spec: NormSpec, ctx: Context, p: Plan)
    requires CompileOne(spec, ctx) == Compiled(p) && spec.template == Accessibility
    ensures p.params.AccessibilityWithin? && spec.value.Some?
    ensures p.params.mode == (if ByTransport(spec, ctx) then Transport else Walk) && p.params.speed == Pace(spec, ctx)
    ensures var q := Quantity(spec.unit.GetOr(NO_UNIT), spec.value.value);
      && p.params.limit == (if In(q, Duration).Some? then TimeLimit(In(q, Duration).value) else PathLimit(In(q, Length).GetOr(0.0)))
      && (In(q, Duration).Some? ==> 0.0 < In(q, Duration).value <= 240.0)
      && (In(q, Duration).None? ==> In(q, Length).Some? && 0.0 < In(q, Length).value <= 100000.0)
  {
    hide EarlyReasons, ValueReasons, Dedup, Ground, LayersOf;
    StatedAtSpeed(spec, ctx);
    CompiledSubject(spec, ctx, p);
    var b := BuiltParams(spec, ctx, p);
  }

  /** The words of a provision unit; bare places of a table are per 1000 residents. */
  function ProvisionWords(spec: NormSpec, ctx: Context): Wording {
    var w := spec.unit.GetOr(NO_UNIT).words;
    if w.onlyPlaces && ctx.provisionTable then w.(onlyPlaces := false, residents := true, perThousand := true) else w
  }

  /** Places per 1000 residents rather than residents per object. */
  predicate CountsPlaces(spec: NormSpec, ctx: Context) {
    var w := ProvisionWords(spec, ctx);
    spec.basis == Some(PlacesPer1000) || (spec.basis == None && (w.places || !w.leadsWithResidents))
  }

  /**
   * A provision plan asks for the stated places per 1000 residents, or for an object per so many
   * residents that the stated number of objects serves the stated number of residents.
   */
  lemma ProvisionIsWorded(spec: NormSpec, ctx: Context, p: Plan)
    requires CompileOne(spec, ctx) == Compiled(p) && spec.template == Provision
    ensures p.params.ServiceProvision? && spec.value.Some?
    ensures var w, value := ProvisionWords(spec, ctx), spec.value.value;
      var objects := if spec.objectsCount.Some? && spec.objectsCount.value != 0.0 then spec.objectsCount.value else 1.0;
      && (CountsPlaces(spec, ctx) ==>
            w.perThousand && p.params.capacityPer1000 == Some(value) && p.params.residentsPerService == None)
      && (!CountsPlaces(spec, ctx) ==>
            w.residents && !w.places && p.params.capacityPer1000 == None && p.params.residentsPerService.Some?
            && p.params.residentsPerService.value * objects == (if w.thousands then value * 1000.0 else value))
  {
    hide CompileOne;
    ProvisionBuilt(spec, ctx, p);
  }

  lemma ProvisionBuilt(spec: NormSpec, ctx: Context, p: Plan)
    requires CompileOne(spec, ctx) == Compiled(p) && spec.template == Provision
    ensures p.params.ServiceProvision? && spec.value.Some?
    ensures Capacity(spec, ProvisionUnit(spec, ctx), spec.value.value) == Some((p.params.capacityPer1000, p.params.residentsPerService))
    ensures ProvisionAccess(spec, AccessMode(spec, ctx), ctx) == Some(p.params.accessibility)
    ensures p.params.accessMode == Transport <==> AccessMode(spec, ctx) == Some(Transport) && p.params.accessibility.Some?
  {
    hide EarlyReasons, ValueReasons, Dedup, Ground, LayersOf;
    CompiledSubject(spec, ctx, p);
  }

  /**
   * Its accessibility is the stated way or time; a time by transport is the straight line of
   * the way made in it, to the nearest tenth of a metre.
   */
  lemma ProvisionAccessIsWorded(spec: NormSpec, ctx: Context, p: Plan)
    requires CompileOne(spec, ctx) == Compiled(p) && spec.template == Provision
    ensures p.params.ServiceProvision?
    ensures spec.accessValue == None ==> p.params.accessibility == None && p.params.accessMode == Walk
    ensures spec.accessValue.Some? ==>
              var q := Quantity(spec.accessUnit.GetOr(NO_UNIT), spec.accessValue.value);
              && (p.params.accessMode == Transport <==> ByTransport(spec, ctx))
              && (In(q, Duration).None? ==> In(q, Length).Some? && p.params.accessibility == Some(PathLimit(In(q, Length).value)))
              && (In(q, Duration).Some? && !ByTransport(spec, ctx) ==> p.params.accessibility == Some(TimeLimit(In(q, Duration).value)))
              && (In(q, Duration).Some? && ByTransport(spec, ctx) ==>
                    && p.params.accessibility.Some? && p.params.accessibility.value.PathLimit?
                    && var line := In(q, Duration).value * ctx.transportSpeed / 1.3;
                       -0.05 <= p.params.accessibility.value.meters - line <= 0.05)
  {
    hide CompileOne, Crow, AccessMode, Capacity;
    StatedAtSpeed(spec, ctx);
    ProvisionBuilt(spec, ctx, p);
    if spec.accessValue.Some? {
      ClockedAccess(spec, AccessMode(spec, ctx), ctx);
      CrowIsNear(In(Quantity(UnitOf(spec.accessUnit), spec.accessValue.value), Duration).GetOr(0.0), ctx.transportSpeed);
    }
  }

  lemma ClockedAccess(spec: NormSpec, mode: Option<Mode>, ctx: Context)
    requires spec.accessValue.Some? && ProvisionAccess(spec, mode, ctx).Some?
    ensures var q, access := Quantity(spec.accessUnit.GetOr(NO_UNIT), spec.accessValue.value), ProvisionAccess(spec, mode, ctx).value;
      && (In(q, Duration).None? ==> In(q, Length).Some? && access == Some(PathLimit(In(q, Length).value)))
      && (In(q, Duration).Some? && mode != Some(Transport) ==> access == Some(TimeLimit(In(q, Duration).value)))
      && (In(q, Duration).Some? && mode == Some(Transport) ==> access == Some(PathLimit(Crow(In(q, Duration).value, ctx.transportSpeed))))
  {
  }

  lemma CrowIsNear(minutes: real, speed: real)
    ensures var line := minutes * speed / 1.3; -0.05 <= Crow(minutes, speed) - line <= 0.05
  {
    TenthIsNear(minutes * speed / 1.3);
  }

  lemma TenthIsNear(x: real)
    ensures -0.05 <= Tenth(x) - x <= 0.05
  {
  }

  /** A stated value takes the place of the old one. */
  predicate Replaces<T(==)>(now: Option<T>, stated: Option<T>, before: Option<T>) {
    (stated.Some? ==> now == stated) && (stated == None ==> now == before)
  }

  /** The reading of a variant states what the variant does, and for the rest what the clause does. */
  lemma VariantStates(spec: NormSpec, v: Variant)
    ensures var r := Overridden(spec, v);
      && Replaces(r.value, v.value, spec.value) && Replaces(r.unit, v.unit, spec.unit) && Replaces(r.objectsCount, v.objectsCount, spec.objectsCount)
      && Replaces(r.accessValue, v.accessValue, spec.accessValue) && Replaces(r.accessUnit, v.accessUnit, spec.accessUnit)
      && Replaces(r.accessMode, v.accessMode, spec.accessMode)
      && r.template == spec.template && r.checked == spec.checked && r.other == spec.other && r.operator == spec.operator
      && r.attribute == spec.attribute && r.basis == spec.basis && r.housing == spec.housing
  {
  }

  /** What the reading says about one object at distance, with the attribute or share, `x`. */
  predicate Says(spec: NormSpec, ctx: Context, x: real) {
    SaysIn(spec, StatedBy(spec, ctx), x)
  }

  /**
   * The compiled plan holds of one object exactly when the reading does, or when the object is
   * just at a strict bound of a minimum distance or an accessibility.
   */
  lemma PlanSaysTheReading(spec: NormSpec, ctx: Context, p: Plan, x: real)
    requires CompileOne(spec, ctx) == Compiled(p) && spec.template != Provision
    ensures Satisfies(Lone(x), p) <==> Says(spec, ctx, x) || ReachesIn(spec, StatedBy(spec, ctx), x)
  {
    CompiledSubject(spec, ctx, p);
    CompiledIsComplete(spec, ctx, p);
    LoneMeets(x, p);
    var b := BuiltParams(spec, ctx, p);
    MeetsWhatIsSaid(spec, ctx, b, x);
  }

  /** The parameters are those of the template's builder. */
  lemma BuiltParams(spec: NormSpec, ctx: Context, p: Plan) returns (b: Params)
    requires CompileOne(spec, ctx) == Compiled(p) && spec.template != Provision
    ensures b == p.params
    ensures exists checked, other, guarded :: Prepared(spec, checked, other)
              && Build(spec, checked, other, UnitOf(spec.unit), AccessMode(spec, ctx), ctx) == Built(b, guarded)
  {
    b := p.params;
  }

  lemma MeetsWhatIsSaid(spec: NormSpec, ctx: Context, b: Params, x: real)
    requires spec.template != Provision
    requires exists checked, other, guarded :: Prepared(spec, checked, other)
               && Build(spec, checked, other, UnitOf(spec.unit), AccessMode(spec, ctx), ctx) == Built(b, guarded)
    ensures Meets(b, x) <==> Says(spec, ctx, x) || ReachesIn(spec, StatedBy(spec, ctx), x)
  {
    var checked, other, guarded :| Prepared(spec, checked, other)
      && Build(spec, checked, other, UnitOf(spec.unit), AccessMode(spec, ctx), ctx) == Built(b, guarded);
    StatedAtSpeed(spec, ctx);
    BuiltSays(spec, checked, other, UnitOf(spec.unit), spec.value.GetOr(0.0), AccessMode(spec, ctx), ctx, b, guarded, x);
  }

  lemma BuiltSays(
    spec: NormSpec, checked: Option<Side>, other: Option<Side>, unit: Unit, value: real, mode: Option<Mode>, ctx: Context, b: Params,
    guarded: Option<real>, x: real)
    requires spec.template != Provision && Prepared(spec, checked, other)
    requires spec.value.Some? ==> spec.value.value == value
    requires Build(spec, checked, other, unit, mode, ctx) == Built(b, guarded)
    ensures var stated := Stated(spec, unit, value, SpeedOf(mode, ctx));
      Meets(b, x) <==> SaysIn(spec, stated, x) || ReachesIn(spec, stated, x)
  {
    match spec.template
    case Accessibility => AccessSays(spec, unit, value, mode, ctx, b, guarded, x);
    case AttributeLimit => AttributeSays(spec, unit, value, checked.value, other, SpeedOf(mode, ctx), b, guarded, x);
    case ZoneAttributeLimit => AttributeSays(spec, unit, value, checked.value, other, SpeedOf(mode, ctx), b, guarded, x);
    case _ =>
  }

  lemma AccessSays(
    spec: NormSpec, unit: Unit, value: real, mode: Option<Mode>, ctx: Context, b: Params, guarded: Option<real>, x: real)
    requires spec.template == Accessibility && BuildAccessibility(spec, unit, value, mode, ctx) == Built(b, guarded)
    ensures var stated := Stated(spec, unit, value, SpeedOf(mode, ctx));
      Meets(b, x) <==> SaysIn(spec, stated, x) || ReachesIn(spec, stated, x)
  {
    RadiusMeaning(AccessMeters(b.limit, b.speed), x);
  }

  lemma AttributeSays(
    spec: NormSpec, unit: Unit, value: real, checked: Side, other: Option<Side>, speed: real, b: Params, guarded: Option<real>, x: real)
    requires spec.template == AttributeLimit || (spec.template == ZoneAttributeLimit && other.Some?)
    requires if spec.template == AttributeLimit then BuildAttributeLimit(spec, checked, unit, value) == Built(b, guarded)
             else BuildZoneAttributeLimit(spec, checked, other.value, unit, value) == Built(b, guarded)
    ensures Meets(b, x) <==> SaysIn(spec, Stated(spec, unit, value, speed), x)
  {
  }

  lemma RadiusMeaning(meters: real, x: real)
    ensures x <= meters / DETOUR_FACTOR <==> x * DETOUR_FACTOR <= meters
  {
  }
}
