/**
 * Which readings of a clause have a plan, and what a refusal says (src/pipeline/norm_spec.py):
 * a reading is refused exactly for a fault it has, and every reported reason is one.
 */
module Refusals {
  import opened Wrappers
  import opened NormSpecs
  import opened Strictest
  import opened Readings
  import opened NormCompile

  // --- whom a norm is about -----------------------------------------------------------------------

  lemma GroundExactly(item: Option<SpecEntity>, ctx: Context, side: Side)
    ensures Ground(item, ctx) == Some(side) <==> item.Some? && InCatalog(side, item.value, ctx)
  {
  }

  /** An access norm that names a service alone is about the residents' way to it. */
  predicate OnlyService(spec: NormSpec) {
    IsAccess(spec.template) && spec.other == None && spec.checked.Some? && spec.checked.value.kind == Service
  }

  /** An access norm that names its dwellings second. */
  predicate NamesResidentsLast(spec: NormSpec, ctx: Context) {
    IsAccess(spec.template) && IsResidence(spec.other, ctx) && !IsResidence(spec.checked, ctx)
  }

  /** Whom a norm checks, where it checks anyone but residents in general. */
  function CheckedOf(spec: NormSpec, ctx: Context): Option<SpecEntity> {
    if OnlyService(spec) then Some(RESIDENTIAL_BUILDING)
    else if NamesResidentsLast(spec, ctx) then spec.other
    else spec.checked
  }

  /** The other side; a provision norm may name its service in either place. */
  function OtherOf(spec: NormSpec, ctx: Context): Option<SpecEntity> {
    if OnlyService(spec) || NamesResidentsLast(spec, ctx) || (spec.template == Provision && spec.other == None) then spec.checked
    else spec.other
  }

  lemma SidesExactly(spec: NormSpec, ctx: Context)
    requires ctx.residence(RESIDENTIAL_BUILDING)
    ensures var (c, o) := Sides(spec.template, spec.checked, spec.other, ctx);
      o == OtherOf(spec, ctx) && (c == CheckedOf(spec, ctx) || (spec.template == Provision && spec.other == None && c == None))
  {
  }

  function CheckedSide(spec: NormSpec, ctx: Context): Option<Side> {
    if spec.template == Provision then None else Ground(CheckedOf(spec, ctx), ctx)
  }

  function OtherSide(spec: NormSpec, ctx: Context): Option<Side> {
    if spec.template == AttributeLimit then None else Ground(OtherOf(spec, ctx), ctx)
  }

  // --- faults ---------------------------------------------------------------------------------------

  predicate IsAttributeNorm(t: Template) {
    t == AttributeLimit || t == ZoneAttributeLimit
  }

  predicate IsZone(side: Option<Side>) {
    side.Some? && side.value.kind == FunctionalZone
  }

  /** The stated quantity in its dimension. */
  function QuantityOf(spec: NormSpec): Option<(Dimension, real)> {
    Quantity(spec.unit.GetOr(NO_UNIT), spec.value.GetOr(0.0))
  }

  /** The wording says that the value is no size of one object. */
  predicate SizeFault(reason: string, spec: NormSpec, ctx: Context) {
    || (reason == "provision_norm_not_attribute" && IsAttributeNorm(spec.template) && ctx.provisionTable)
    || (reason == "per_capita_norm_not_attribute" && IsAttributeNorm(spec.template) && ctx.perCapita)
    || (reason == "relative_value_not_supported" && spec.value.Some? && ctx.relative(spec.value.value))
  }

  /** Faults of the wording, given whom the norm checks against whom. */
  predicate WordingFault(reason: string, spec: NormSpec, c: Option<SpecEntity>, o: Option<SpecEntity>, ctx: Context) {
    var t := spec.template;
    || SizeFault(reason, spec, ctx)
    || (reason == "accessibility_not_min_distance" && t == MinDistance && ctx.aboutAccessibility && (IsResidence(c, ctx) || IsResidence(o, ctx)))
    || (reason == "generic_building_type" && t == ProhibitedWithin && o.Some? && ctx.genericBuilding(o.value))
    || (reason == "zone_as_checked_object" && IsAccess(t) && c.Some? && c.value.kind == FunctionalZone)
  }

  /** Faults of the entities. */
  predicate EntityFault(reason: string, spec: NormSpec, ctx: Context) {
    var t, c, o := spec.template, CheckedOf(spec, ctx), OtherOf(spec, ctx);
    || (reason == "rewrite_missing_checked" && t != Provision && c == None)
    || (reason == "rewrite_missing_other" && t != AttributeLimit && o == None)
    || (reason == "entity_not_in_catalog" && t != Provision && c.Some? && CheckedSide(spec, ctx) == None)
    || (reason == "entity_not_in_catalog" && t != AttributeLimit && o.Some? && OtherSide(spec, ctx) == None)
    || (reason == "same_entity_spacing_not_supported" && t != ZoneAttributeLimit && t != ZoneShare
        && CheckedSide(spec, ctx).Some? && CheckedSide(spec, ctx) == OtherSide(spec, ctx))
  }

  /** Faults of where the numbers come from. */
  predicate ValueFault(reason: string, spec: NormSpec, ctx: Context) {
    || (reason == "rewrite_missing_value" && spec.template != ProhibitedWithin && spec.value == None)
    || (reason == "value_not_in_source" && spec.template != ProhibitedWithin && spec.value.Some? && !ctx.grounded(spec.value.value))
    || (reason == "value_not_in_source" && spec.objectsCount.Some? && spec.objectsCount.value != 1.0 && !ctx.grounded(spec.objectsCount.value))
  }

  predicate EarlyFault(reason: string, spec: NormSpec, ctx: Context) {
    WordingFault(reason, spec, CheckedOf(spec, ctx), OtherOf(spec, ctx), ctx) || EntityFault(reason, spec, ctx) || ValueFault(reason, spec, ctx)
  }

  /** A provision norm in square metres or hectares. */
  predicate AsksForArea(spec: NormSpec) {
    spec.template == Provision && spec.unit.Some? && spec.unit.value.words.area
  }

  predicate Misdirected(spec: NormSpec, ok: set<Operator>) {
    spec.operator == None || spec.operator.value !in ok
  }

  /** More than zero and at most `high`. */
  predicate Reachable(x: real, high: real) {
    0.0 < x <= high
  }

  /** A length is neither stated nor in range. */
  predicate LengthFault(reason: string, q: Option<(Dimension, real)>) {
    || (reason == "measurement_unit_mismatch" && In(q, Length) == None)
    || (reason == "distance_out_of_range" && In(q, Length).Some? && !Reachable(In(q, Length).value, 100000.0))
  }

  predicate AttributeFault(reason: string, spec: NormSpec) {
    || (reason == "rewrite_missing_operator" && spec.operator == None)
    || (reason == "rewrite_missing_attribute" && spec.attribute == None)
    || (reason == "measurement_unit_mismatch" && spec.attribute.Some? && In(QuantityOf(spec), DimensionOf(spec.attribute.value)) == None)
  }

  predicate ShareFault(reason: string, spec: NormSpec) {
    var share := In(QuantityOf(spec), Share);
    || (reason == "measurement_unit_mismatch" && share == None)
    || (reason == "rewrite_missing_operator" && spec.operator == None)
    || (reason == "ratio_out_of_range" && share.Some? && !(0.0 <= share.value <= 100.0))
  }

  /** The unit counts neither places per 1000 residents nor residents per object. */
  predicate Uncounted(spec: NormSpec, ctx: Context) {
    var w := ProvisionWords(spec, ctx);
    if CountsPlaces(spec, ctx) then !w.perThousand else w.places || !w.residents
  }

  /** The stated reach is neither a time nor a way. */
  predicate Unreached(spec: NormSpec) {
    spec.accessValue.Some? &&
    var q := Quantity(spec.accessUnit.GetOr(NO_UNIT), spec.accessValue.value);
    In(q, Length) == None && In(q, Duration) == None
  }

  /** Faults of the relation and the quantity, template by template. */
  predicate UnfitFault(reason: string, spec: NormSpec, ctx: Context) {
    var q, c, o := QuantityOf(spec), CheckedSide(spec, ctx), OtherSide(spec, ctx);
    match spec.template
    case NoTemplate => reason == "rewrite_no_template"
    case ProhibitedWithin => false
    case MinDistance => (reason == "operator_direction_conflict" && Misdirected(spec, {Ge, Gt})) || LengthFault(reason, q)
    case MaxDistance =>
      || (reason == "strict_distance_not_supported" && spec.operator == Some(Lt))
      || (reason == "operator_direction_conflict" && Misdirected(spec, {Le, Lt}))
      || LengthFault(reason, q)
    case Accessibility =>
      || (reason == "operator_direction_conflict" && Misdirected(spec, {Le, Lt}))
      || (if In(q, Duration) == None then LengthFault(reason, q)
          else reason == "accessibility_out_of_range" && !Reachable(In(q, Duration).value, 240.0))
    case AttributeLimit => (reason == "attribute_on_zone_not_supported" && IsZone(c)) || AttributeFault(reason, spec)
    case ZoneAttributeLimit => (reason == "zone_roles_not_verified" && (!IsZone(o) || IsZone(c))) || AttributeFault(reason, spec)
    case ZoneShare => (reason == "ratio_basis_not_supported" && (!IsZone(o) || IsZone(c))) || ShareFault(reason, spec)
    case Provision =>
      || (reason == "provision_requires_service" && o.Some? && o.value.kind != Service)
      || (reason == "operator_direction_conflict" && spec.operator.Some? && Misdirected(spec, {Ge, Gt}))
      || (reason == "measurement_unit_mismatch" && (Uncounted(spec, ctx) || Unreached(spec)))
  }

  /** What the precision guards say about the operator, the catalog names and the distance. */
  function Imprecisions(spec: NormSpec, ctx: Context): seq<string> {
    ctx.precision(spec.operator, Labels(CheckedSide(spec, ctx), OtherSide(spec, ctx)),
                  if spec.template == MinDistance || IsAccess(spec.template) then In(QuantityOf(spec), Length) else None)
  }

  predicate Undirected(spec: NormSpec, ctx: Context) {
    (spec.template == MinDistance || IsAccess(spec.template)) && !ctx.direction
  }

  /** Residents per object, where the norm counts them. */
  function Served(spec: NormSpec, ctx: Context): real {
    var objects := if spec.objectsCount.Some? && spec.objectsCount.value != 0.0 then spec.objectsCount.value else 1.0;
    spec.value.GetOr(0.0) * (if ProvisionWords(spec, ctx).thousands then 1000.0 else 1.0) / objects
  }

  /** A stated reach can be checked; minutes by transport as the straight line of the way. */
  predicate ReachInRange(spec: NormSpec, ctx: Context) {
    spec.accessValue.Some? ==>
      var q := Quantity(spec.accessUnit.GetOr(NO_UNIT), spec.accessValue.value);
      && (In(q, Length).Some? ==> Reachable(In(q, Length).value, 100000.0))
      && (In(q, Duration).Some? ==>
            if ByTransport(spec, ctx) then Reachable(Crow(In(q, Duration).value, ctx.transportSpeed), 100000.0)
            else Reachable(In(q, Duration).value, 240.0))
  }

  /** A size of at most a milliard, either way. */
  predicate SizeInRange(spec: NormSpec) {
    spec.attribute.Some? && In(QuantityOf(spec), DimensionOf(spec.attribute.value)).Some? ==>
      -1000000000.0 <= In(QuantityOf(spec), DimensionOf(spec.attribute.value)).value <= 1000000000.0
  }

  /** A plan may have the parameters asked for. */
  predicate Checkable(spec: NormSpec, ctx: Context) {
    match spec.template
    case Accessibility => Reachable(Pace(spec, ctx), 1000.0)
    case AttributeLimit => SizeInRange(spec)
    case ZoneAttributeLimit => SizeInRange(spec)
    case Provision =>
      && (if CountsPlaces(spec, ctx) then Reachable(spec.value.GetOr(0.0), 100000.0) else Reachable(Served(spec, ctx), 10000000.0))
      && ReachInRange(spec, ctx)
    case _ => true
  }

  // --- building -------------------------------------------------------------------------------------

  ghost predicate Sound(spec: NormSpec, ctx: Context) {
    forall r :: !UnfitFault(r, spec, ctx)
  }

  /** What a builder answers for a prepared reading. */
  ghost predicate BuildsExactly(spec: NormSpec, ctx: Context, b: Built) {
    match b
    case Unbuilt(r) => UnfitFault(r, spec, ctx)
    case Built(params, guarded) =>
      && Sound(spec, ctx) && (InRange(params) <==> Checkable(spec, ctx))
      && guarded == if spec.template == MinDistance || IsAccess(spec.template) then In(QuantityOf(spec), Length) else None
  }

  predicate Ready(spec: NormSpec, ctx: Context) {
    Prepared(spec, CheckedSide(spec, ctx), OtherSide(spec, ctx))
  }

  function Tried(spec: NormSpec, ctx: Context): Built
    requires Ready(spec, ctx)
  {
    Build(spec, CheckedSide(spec, ctx), OtherSide(spec, ctx), ProvisionUnit(spec, ctx), AccessMode(spec, ctx), ctx)
  }

  lemma {:induction false} BuildExactly(spec: NormSpec, ctx: Context)
    requires Ready(spec, ctx)
    ensures BuildsExactly(spec, ctx, Tried(spec, ctx))
  {
    hide CheckedSide, OtherSide, BuildsExactly;
    match spec.template
    case MinDistance => DistanceExactly(spec, ctx);
    case MaxDistance => DistanceExactly(spec, ctx);
    case Accessibility => AccessExactly(spec, ctx);
    case Provision => ProvisionExactly(spec, ctx);
    case ProhibitedWithin => ProhibitedExactly(spec, ctx);
    case _ => LimitExactly(spec, ctx);
  }

  lemma ReadUnits(unit: Unit, value: real)
    ensures Distance(unit, value) == In(Quantity(unit, value), Length)
    ensures Minutes(unit, value) == In(Quantity(unit, value), Duration)
    ensures In(Quantity(unit, value), Share) == if unit.measure == Percent then Some(value) else None
    ensures forall a :: Threshold(a, unit, value) == In(Quantity(unit, value), DimensionOf(a))
  {
    forall a ensures Threshold(a, unit, value) == In(Quantity(unit, value), DimensionOf(a)) {
      ReadAttribute(a, unit, value);
    }
  }

  lemma ReadAttribute(a: Attribute, unit: Unit, value: real)
    ensures Threshold(a, unit, value) == In(Quantity(unit, value), DimensionOf(a))
  {
    match unit.measure
    case Metre =>
    case Kilometre =>
    case SquareMetre =>
    case Hectare =>
    case _ =>
  }

  lemma ProhibitedExactly(spec: NormSpec, ctx: Context)
    requires spec.template == ProhibitedWithin
    ensures BuildsExactly(spec, ctx, Built(DistanceFromSource(None), None))
  {
  }

  lemma DistanceExactly(spec: NormSpec, ctx: Context)
    requires Ready(spec, ctx)
    ensures spec.template == MinDistance ==> BuildsExactly(spec, ctx, BuildMinDistance(spec, UnitOf(spec.unit), spec.value.value))
    ensures spec.template == MaxDistance ==> BuildsExactly(spec, ctx, BuildMaxDistance(spec, UnitOf(spec.unit), spec.value.value))
  {
    hide CheckedSide, OtherSide;
  }

  lemma AccessExactly(spec: NormSpec, ctx: Context)
    requires Ready(spec, ctx) && spec.template == Accessibility
    ensures BuildsExactly(spec, ctx, BuildAccessibility(spec, UnitOf(spec.unit), spec.value.value, AccessMode(spec, ctx), ctx))
  {
    hide CheckedSide, OtherSide, AccessMode, ByTransport;
    StatedAtSpeed(spec, ctx);
    ReadUnits(UnitOf(spec.unit), spec.value.value);
  }

  lemma LimitExactly(spec: NormSpec, ctx: Context)
    requires Ready(spec, ctx)
    ensures spec.template == AttributeLimit ==>
              BuildsExactly(spec, ctx, BuildAttributeLimit(spec, CheckedSide(spec, ctx).value, UnitOf(spec.unit), spec.value.value))
    ensures spec.template == ZoneAttributeLimit ==>
              var c, o := CheckedSide(spec, ctx).value, OtherSide(spec, ctx).value;
              BuildsExactly(spec, ctx, BuildZoneAttributeLimit(spec, c, o, UnitOf(spec.unit), spec.value.value))
    ensures spec.template == ZoneShare ==>
              var c, o := CheckedSide(spec, ctx).value, OtherSide(spec, ctx).value;
              BuildsExactly(spec, ctx, BuildZoneShare(spec, c, o, UnitOf(spec.unit), spec.value.value))
  {
    hide CheckedSide, OtherSide, Threshold, Quantity;
    ReadUnits(UnitOf(spec.unit), spec.value.GetOr(0.0));
  }

  /** The unit is a mismatch, or what is asked for is counted in it. */
  lemma CapacityExactly(spec: NormSpec, ctx: Context)
    requires spec.template == Provision && spec.value.Some?
    ensures var w := ProvisionWords(spec, ctx);
      Capacity(spec, ProvisionUnit(spec, ctx), spec.value.value) ==
      if CountsPlaces(spec, ctx) then (if w.perThousand then Some((spec.value, None)) else None)
      else if w.places || !w.residents then None
      else Some((None, Some(Served(spec, ctx))))
  {
  }

  lemma ReachExactly(spec: NormSpec, ctx: Context)
    requires spec.template == Provision
    ensures var access := ProvisionAccess(spec, AccessMode(spec, ctx), ctx);
      && (access == None <==> Unreached(spec))
      && (access.Some? ==> ((access.value.Some? ==> LimitInRange(access.value.value)) <==> ReachInRange(spec, ctx)))
  {
    hide Crow, AccessMode, ByTransport;
    StatedAtSpeed(spec, ctx);
    if spec.accessValue.Some? {
      ReadUnits(UnitOf(spec.accessUnit), spec.accessValue.value);
    }
  }

  lemma ProvisionExactly(spec: NormSpec, ctx: Context)
    requires Ready(spec, ctx) && spec.template == Provision
    ensures var built := BuildProvision(spec, OtherSide(spec, ctx).value, ProvisionUnit(spec, ctx), spec.value.value, AccessMode(spec, ctx), ctx);
      BuildsExactly(spec, ctx, built)
  {
    hide CheckedSide, OtherSide, Capacity, ProvisionAccess, ProvisionUnit, AccessMode, ReachInRange, Served, CountsPlaces, LimitInRange, Unreached;
    CapacityExactly(spec, ctx);
    ReachExactly(spec, ctx);
  }

  // --- compiling ------------------------------------------------------------------------------------

  predicate NoTwice(reasons: seq<string>) {
    forall i, j :: 0 <= i < j < |reasons| ==> reasons[i] != reasons[j]
  }

  lemma {:induction false} DedupExactly(reasons: seq<string>)
    ensures NoTwice(Dedup(reasons)) && forall r :: r in Dedup(reasons) <==> r in reasons
  {
    if reasons != [] {
      var n := |reasons| - 1;
      DedupExactly(reasons[..n]);
      assert reasons == reasons[..n] + [reasons[n]];
    }
  }

  /** The reasons found before a builder is tried. */
  function Early(spec: NormSpec, ctx: Context): seq<string> {
    var (c, o) := Sides(spec.template, spec.checked, spec.other, ctx);
    var checked := if spec.template == Provision then None else Ground(c, ctx);
    var other := if spec.template == AttributeLimit then None else Ground(o, ctx);
    EarlyReasons(spec, c, o, ctx)
    + When(checked.Some? && other.Some? && checked == other && spec.template != ZoneAttributeLimit && spec.template != ZoneShare,
           "same_entity_spacing_not_supported")
    + ValueReasons(spec, ctx)
  }

  lemma Whens(r: string)
    ensures forall c, reason :: r in When(c, reason) <==> c && r == reason
  {
  }

  lemma GroundsExactly(item: Option<SpecEntity>, ctx: Context, r: string)
    ensures r in GroundReasons(item, "checked", ctx) <==>
            (r == "rewrite_missing_checked" && item == None) || (r == "entity_not_in_catalog" && item.Some? && Ground(item, ctx) == None)
    ensures r in GroundReasons(item, "other", ctx) <==>
            (r == "rewrite_missing_other" && item == None) || (r == "entity_not_in_catalog" && item.Some? && Ground(item, ctx) == None)
  {
    hide Ground;
    assert "rewrite_missing_" + "checked" == "rewrite_missing_checked";
    assert "rewrite_missing_" + "other" == "rewrite_missing_other";
  }

  lemma ValuesExactly(spec: NormSpec, ctx: Context, r: string)
    ensures r in ValueReasons(spec, ctx) <==> ValueFault(r, spec, ctx)
  {
    hide When;
    Whens(r);
  }

  lemma WordingOfSides(spec: NormSpec, ctx: Context, r: string)
    requires ctx.residence(RESIDENTIAL_BUILDING)
    ensures var (c, o) := Sides(spec.template, spec.checked, spec.other, ctx);
      WordingFault(r, spec, c, o, ctx) <==> WordingFault(r, spec, CheckedOf(spec, ctx), OtherOf(spec, ctx), ctx)
  {
    hide CheckedOf, OtherOf, Sides;
    SidesExactly(spec, ctx);
  }

  lemma SizesExactly(spec: NormSpec, ctx: Context, r: string)
    ensures
      var t := spec.template;
      SizeFault(r, spec, ctx) <==>
      || r in When(IsAttributeNorm(t) && ctx.provisionTable, "provision_norm_not_attribute")
      || r in When(IsAttributeNorm(t) && ctx.perCapita, "per_capita_norm_not_attribute")
      || r in When(spec.value.Some? && ctx.relative(spec.value.value), "relative_value_not_supported")
  {
    hide When, IsAttributeNorm;
    Whens(r);
  }

  lemma WordsExactly(spec: NormSpec, c: Option<SpecEntity>, o: Option<SpecEntity>, ctx: Context, r: string)
    ensures
      var t := spec.template;
      WordingFault(r, spec, c, o, ctx) <==>
      || SizeFault(r, spec, ctx)
      || r in When(t == MinDistance && (IsResidence(c, ctx) || IsResidence(o, ctx)) && ctx.aboutAccessibility, "accessibility_not_min_distance")
      || r in When(t == ProhibitedWithin && o.Some? && ctx.genericBuilding(o.value), "generic_building_type")
      || r in When(IsAccess(t) && c.Some? && c.value.kind == FunctionalZone, "zone_as_checked_object")
  {
    hide When, IsResidence, SizeFault;
    Whens(r);
  }

  lemma EntitiesExactly(spec: NormSpec, c: Option<SpecEntity>, o: Option<SpecEntity>, ctx: Context, r: string)
    ensures r in EarlyReasons(spec, c, o, ctx)
            <==> WordingFault(r, spec, c, o, ctx)
                 || (spec.template != Provision && r in GroundReasons(c, "checked", ctx))
                 || (spec.template != AttributeLimit && r in GroundReasons(o, "other", ctx))
  {
    hide When, GroundReasons, IsResidence, WordingFault, SizeFault;
    SizesExactly(spec, ctx, r);
    WordsExactly(spec, c, o, ctx, r);
  }

  lemma EarlyExactly(spec: NormSpec, ctx: Context, r: string)
    requires ctx.residence(RESIDENTIAL_BUILDING)
    ensures r in Early(spec, ctx) <==> EarlyFault(r, spec, ctx)
  {
    hide When, GroundReasons, CheckedOf, OtherOf, Sides, EarlyReasons, ValueReasons, ValueFault, WordingFault, Ground;
    SidesExactly(spec, ctx);
    Whens(r);
    GroundsExactly(CheckedOf(spec, ctx), ctx, r);
    GroundsExactly(OtherOf(spec, ctx), ctx, r);
    ValuesExactly(spec, ctx, r);
    var (c, o) := Sides(spec.template, spec.checked, spec.other, ctx);
    EntitiesExactly(spec, c, o, ctx, r);
    WordingOfSides(spec, ctx, r);
  }

  ghost predicate NoFault(spec: NormSpec, ctx: Context) {
    && !AsksForArea(spec) && (forall r :: !EarlyFault(r, spec, ctx)) && Sound(spec, ctx)
    && Imprecisions(spec, ctx) == [] && !Undirected(spec, ctx) && Checkable(spec, ctx)
  }

  /** What is reported: the faults of the first kind there is one of. */
  ghost predicate Reports(spec: NormSpec, ctx: Context, rs: seq<string>) {
    if AsksForArea(spec) then rs == ["provision_area_not_in_data"]
    else if exists r :: EarlyFault(r, spec, ctx) then forall r :: r in rs <==> EarlyFault(r, spec, ctx)
    else if !Sound(spec, ctx) then |rs| == 1 && UnfitFault(rs[0], spec, ctx)
    else if Imprecisions(spec, ctx) != [] then forall r :: r in rs <==> r in Imprecisions(spec, ctx)
    else if Undirected(spec, ctx) then rs == ["direction_not_in_source"]
    else rs == ["invalid_plan_parameters"]
  }

  /** Nothing early stands in the way, and the rest is the builder's. */
  lemma PastEarly(spec: NormSpec, ctx: Context)
    requires ctx.residence(RESIDENTIAL_BUILDING) && Early(spec, ctx) == []
    ensures if spec.template == NoTemplate then UnfitFault("rewrite_no_template", spec, ctx) else Ready(spec, ctx)
  {
    hide When, Ground, CheckedOf, OtherOf, CompileOne;
    SidesExactly(spec, ctx);
    if spec.template != NoTemplate {
      NoEarlyReasonPrepares(spec, ctx);
    }
  }

  /** What is left to refuse once a builder was tried. */
  function Late(spec: NormSpec, ctx: Context, b: Built): Option<seq<string>> {
    match b
    case Unbuilt(r) => Some([r])
    case Built(params, guarded) =>
      var late := ctx.precision(spec.operator, Labels(CheckedSide(spec, ctx), OtherSide(spec, ctx)), guarded);
      if late != [] then Some(Dedup(late))
      else if Undirected(spec, ctx) then Some(["direction_not_in_source"])
      else if !InRange(params) then Some(["invalid_plan_parameters"])
      else None
  }

  lemma CompileUnfolds(spec: NormSpec, ctx: Context)
    requires ctx.residence(RESIDENTIAL_BUILDING)
    ensures var one := CompileOne(spec, ctx);
      if AsksForArea(spec) then one == Refused(["provision_area_not_in_data"])
      else if Early(spec, ctx) != [] then one == Refused(Dedup(Early(spec, ctx)))
      else if !Ready(spec, ctx) then one == Refused(["rewrite_no_template"])
      else
        var late := Late(spec, ctx, Tried(spec, ctx));
        if late.Some? then one == Refused(late.value) else one.Compiled?
  {
    hide Build, AccessMode, ProvisionUnit, Dedup, InRange, LayersOf, Ground, CheckedOf, OtherOf, EarlyReasons, ValueReasons, When, Sides;
    SidesExactly(spec, ctx);
  }

  lemma LateExactly(spec: NormSpec, ctx: Context)
    requires ctx.residence(RESIDENTIAL_BUILDING) && Ready(spec, ctx) && !AsksForArea(spec) && forall r :: !EarlyFault(r, spec, ctx)
    ensures var late := Late(spec, ctx, Tried(spec, ctx));
      && (late == None <==> NoFault(spec, ctx))
      && (late.Some? ==> late.value != [] && NoTwice(late.value) && Reports(spec, ctx, late.value))
  {
    hide EarlyFault, UnfitFault, Tried, Checkable, Dedup, InRange, AsksForArea, Undirected, CheckedSide, OtherSide, QuantityOf;
    BuildExactly(spec, ctx);
    DedupExactly(Imprecisions(spec, ctx));
    if Imprecisions(spec, ctx) != [] {
      assert Imprecisions(spec, ctx)[0] in Dedup(Imprecisions(spec, ctx));
    }
  }

  /** A reading has a plan exactly when it has no fault; a refusal reports faults, each once. */
  lemma RefusedExactly(spec: NormSpec, ctx: Context)
    requires ctx.residence(RESIDENTIAL_BUILDING)
    ensures CompileOne(spec, ctx).Compiled? <==> NoFault(spec, ctx)
    ensures var c := CompileOne(spec, ctx); c.Refused? ==> c.reasons != [] && NoTwice(c.reasons) && Reports(spec, ctx, c.reasons)
  {
    hide EarlyFault, UnfitFault, Tried, Imprecisions, Checkable, Dedup, InRange, CompileOne, Early, AsksForArea, Undirected, CheckedSide, OtherSide;
    CompileUnfolds(spec, ctx);
    forall r ensures r in Early(spec, ctx) <==> EarlyFault(r, spec, ctx) {
      EarlyExactly(spec, ctx, r);
    }
    DedupExactly(Early(spec, ctx));
    if Early(spec, ctx) != [] {
      assert EarlyFault(Early(spec, ctx)[0], spec, ctx);
      assert Early(spec, ctx)[0] in Dedup(Early(spec, ctx));
    } else if !AsksForArea(spec) {
      PastEarly(spec, ctx);
      if Ready(spec, ctx) {
        LateExactly(spec, ctx);
      }
    }
  }

  // --- conditional clauses ----------------------------------------------------------------------------

  /** The kind of bound a compiled reading states; an equality states none. */
  function KindOf(spec: NormSpec, ctx: Context): Option<Kind> {
    match spec.template
    case MinDistance => Some(MinDistanceKind)
    case ProhibitedWithin => Some(Prohibited)
    case MaxDistance => Some(MaxDistanceKind)
    case Accessibility => Some(AccessKind)
    case AttributeLimit => if spec.operator == Some(Eq) then None else Some(AttributeKind(spec.operator.GetOr(Eq)))
    case ZoneAttributeLimit => if spec.operator == Some(Eq) then None else Some(ZoneAttributeKind(spec.operator.GetOr(Eq)))
    case ZoneShare => if spec.operator == Some(Eq) then None else Some(ShareKind(spec.operator.GetOr(Eq)))
    case Provision => Some(if CountsPlaces(spec, ctx) then CapacityKind else ResidentsKind)
    case NoTemplate => None
  }

  lemma KindOfPlan(spec: NormSpec, ctx: Context, p: Plan)
    requires CompileOne(spec, ctx) == Compiled(p)
    ensures KindOf(spec, ctx) == if Strictness(p).Some? then Some(Strictness(p).value.0) else None
  {
    hide CompileOne, CountsPlaces;
    CompiledSubject(spec, ctx, p);
    if spec.template == Provision {
      ProvisionIsWorded(spec, ctx, p);
    } else {
      KindBuilt(spec, ctx, p);
    }
  }

  lemma KindBuilt(spec: NormSpec, ctx: Context, p: Plan)
    requires CompileOne(spec, ctx) == Compiled(p) && spec.template != Provision
    ensures KindOf(spec, ctx) == if Strictness(p).Some? then Some(Strictness(p).value.0) else None
  {
    hide EarlyReasons, ValueReasons, Dedup, Ground, AccessMode, LayersOf, Threshold, Sides;
  }

  lemma {:induction false} AllCompile(candidates: seq<NormSpec>, one: NormSpec -> Compiled)
    ensures CompileAll(candidates, one).CompiledAll? <==> forall k :: 0 <= k < |candidates| ==> one(candidates[k]).Compiled?
  {
    if candidates != [] {
      AllCompile(candidates[1..], one);
      assert forall k :: 1 <= k < |candidates| ==> candidates[k] == candidates[1..][k - 1];
      match one(candidates[0])
      case Refused(_) =>
      case Compiled(_) =>
        if CompileAll(candidates[1..], one).CompiledAll? {
          assert forall k :: 0 <= k < |candidates| ==> one(candidates[k]).Compiled?;
        } else {
          var k :| 0 <= k < |candidates| - 1 && !one(candidates[1..][k]).Compiled?;
          assert !one(candidates[k + 1]).Compiled?;
        }
    }
  }

  /** No reading has a fault, and all of them state one kind of bound. */
  ghost predicate Comparably(candidates: seq<NormSpec>, ctx: Context) {
    && (forall k :: 0 <= k < |candidates| ==> NoFault(candidates[k], ctx))
    && OneKind(candidates, ctx)
  }

  predicate OneKind(candidates: seq<NormSpec>, ctx: Context) {
    forall k :: 0 <= k < |candidates| ==> KindOf(candidates[k], ctx).Some? && KindOf(candidates[k], ctx) == KindOf(candidates[0], ctx)
  }

  ghost predicate Answerable(spec: NormSpec, variants: seq<Variant>, ctx: Context) {
    if spec.unconditional then NoFault(spec, ctx) else Comparably(Candidates(spec, variants), ctx)
  }

  lemma ComparableExactly(candidates: seq<NormSpec>, plans: seq<Plan>, ctx: Context)
    requires |candidates| == |plans| != 0
    requires forall k :: 0 <= k < |plans| ==> CompileOne(candidates[k], ctx) == Compiled(plans[k])
    ensures Comparable(plans) <==> OneKind(candidates, ctx)
  {
    hide CompileOne, KindOf, Strictness;
    forall k | 0 <= k < |plans|
      ensures KindOf(candidates[k], ctx) == if Strictness(plans[k]).Some? then Some(Strictness(plans[k]).value.0) else None
    {
      KindOfPlan(candidates[k], ctx, plans[k]);
    }
    if OneKind(candidates, ctx) {
      forall j, k | 0 <= j < |plans| && 0 <= k < |plans|
        ensures Strictness(plans[j]).Some? && Strictness(plans[k]).Some? && Strictness(plans[j]).value.0 == Strictness(plans[k]).value.0
      {
        assert KindOf(candidates[j], ctx) == KindOf(candidates[0], ctx) == KindOf(candidates[k], ctx);
      }
    }
  }

  /**
   * A conditional clause has a plan exactly when no reading of it has a fault and all state one
   * kind of bound; an unconditional one when its main reading has no fault.
   */
  lemma VariantsCompileExactly(spec: NormSpec, variants: seq<Variant>, ctx: Context)
    requires ctx.residence(RESIDENTIAL_BUILDING)
    ensures CompileVariants(spec, variants, ctx).Compiled? <==> Answerable(spec, variants, ctx)
  {
    hide CompileOne, NoFault, OneKind, Comparable;
    var candidates := Candidates(spec, variants);
    forall s ensures CompileOne(s, ctx).Compiled? <==> NoFault(s, ctx) {
      RefusedExactly(s, ctx);
    }
    AllCompile(candidates, Reader(ctx));
    match CompileAll(candidates, Reader(ctx))
    case RefusedOne(_) =>
    case CompiledAll(plans) => ComparableExactly(candidates, plans, ctx);
  }

  // --- norms ------------------------------------------------------------------------------------------

  /** The norm checks dwellings, by a template whose checked objects can be told apart by their floors. */
  predicate CountsFloors(spec: NormSpec, ctx: Context) {
    && (spec.template == MinDistance || spec.template == ProhibitedWithin || IsAccess(spec.template) || spec.template == AttributeLimit)
    && CheckedSide(spec, ctx).Some? && CheckedSide(spec, ctx).value.name == RESIDENTIAL_BUILDING.entity
  }

  lemma ReadingChecksDwellings(spec: NormSpec, ctx: Context, p: Plan)
    requires ctx.residence(RESIDENTIAL_BUILDING) && CompileOne(spec, ctx) == Compiled(p)
    ensures ChecksDwellings(p) <==> CountsFloors(spec, ctx)
  {
    hide Ground, CheckedOf, OtherOf, CompileOne;
    SidesExactly(spec, ctx);
    CompiledSubject(spec, ctx, p);
    TemplateOfParams(spec, ctx, p);
    if CheckedRole(p.params).Some? {
      CheckedLayer(spec.template, CheckedSide(spec, ctx), OtherSide(spec, ctx));
    }
  }

  /** The layer of the checked objects. */
  lemma CheckedLayer(t: Template, checked: Option<Side>, other: Option<Side>)
    requires (t != Provision ==> checked.Some?) && (t != AttributeLimit ==> other.Some?)
    ensures t == MinDistance || t == ProhibitedWithin ==> SideOf(LayersOf(t, checked, other), Targets) == checked
    ensures IsAccess(t) || t == AttributeLimit ==> SideOf(LayersOf(t, checked, other), Objects) == checked
  {
    var layers := LayersOf(t, checked, other);
    if t == MinDistance || t == ProhibitedWithin {
      assert SideOf(layers[1..], Targets) == Some(layers[1].entity);
    }
  }

  lemma TemplateOfParams(spec: NormSpec, ctx: Context, p: Plan)
    requires CompileOne(spec, ctx) == Compiled(p)
    ensures CheckedRole(p.params) ==
            match spec.template
            case MinDistance => Some(Targets)
            case ProhibitedWithin => Some(Targets)
            case MaxDistance => Some(Objects)
            case Accessibility => Some(Objects)
            case AttributeLimit => Some(Objects)
            case _ => None
  {
    hide EarlyReasons, ValueReasons, Dedup, Ground, AccessMode, LayersOf, Threshold, Sides, Capacity, ProvisionAccess;
  }

  lemma PlanChecksDwellings(spec: NormSpec, variants: seq<Variant>, ctx: Context, p: Plan)
    requires ctx.residence(RESIDENTIAL_BUILDING) && CompileVariants(spec, variants, ctx) == Compiled(p)
    ensures ChecksDwellings(p) <==> CountsFloors(spec, ctx)
  {
    hide CompileOne, ChecksDwellings, CountsFloors;
    if spec.unconditional {
      ReadingChecksDwellings(spec, ctx, p);
    } else {
      var candidates, plans := Candidates(spec, variants), CompileAll(Candidates(spec, variants), Reader(ctx)).plans;
      var best := Best(plans);
      assert CompileOne(candidates[best], ctx) == Compiled(plans[best]);
      ReadingChecksDwellings(candidates[best], ctx, plans[best]);
      CandidateCountsFloors(spec, variants, ctx, best);
      TightenedChecksDwellings(plans[best], plans);
    }
  }

  lemma CandidateCountsFloors(spec: NormSpec, variants: seq<Variant>, ctx: Context, k: nat)
    requires k <= |variants|
    ensures CountsFloors(Candidates(spec, variants)[k], ctx) <==> CountsFloors(spec, ctx)
  {
    hide Ground;
    if k > 0 {
      assert Candidates(spec, variants)[k] == Overridden(spec, variants[k - 1]);
    }
  }

  lemma TightenedChecksDwellings(p: Plan, plans: seq<Plan>)
    ensures ChecksDwellings(TightestAccessibility(p, plans).(strictest := true)) <==> ChecksDwellings(p)
  {
  }

  /** Some buildings of the kinds have fewer floors, some more, and none so many. */
  ghost predicate Gap(housing: set<Housing>) {
    exists f, g, h :: f <= g <= h && OfKinds(housing, f) && OfKinds(housing, h) && !OfKinds(housing, g)
  }

  /**
   * `compile` gives a plan exactly for a territorial norm with a template whose readings are
   * answerable: those that concern its buildings, which then have no gap between them, or all
   * where it is not about particular dwellings.
   */
  lemma CompileExactly(original: NormSpec, ctx: Context)
    requires ctx.residence(RESIDENTIAL_BUILDING)
    ensures var spec := ReadingOf(original, ctx);
      Compile(original, ctx).Compiled? <==>
      && original.territorial && original.template != NoTemplate
      && (spec.housing == {} ==> Answerable(spec, spec.variants, ctx))
      && (spec.housing != {} ==>
            && Answerable(spec, Concerning(spec.variants, spec.housing), ctx)
            && (if CountsFloors(spec, ctx) then !Gap(spec.housing) else Answerable(spec, spec.variants, ctx)))
  {
    hide CompileVariants, Answerable, CountsFloors, ReadingOf, ChecksDwellings;
    var spec := ReadingOf(original, ctx);
    VariantsCompileExactly(spec, spec.variants, ctx);
    if spec.housing != {} {
      var concerning := Concerning(spec.variants, spec.housing);
      VariantsCompileExactly(spec, concerning, ctx);
      match CompileVariants(spec, concerning, ctx)
      case Refused(_) =>
      case Compiled(p) =>
        PlanChecksDwellings(spec, concerning, ctx, p);
        ScopedExactly(p, spec.housing);
    }
  }

  lemma ScopedExactly(p: Plan, housing: set<Housing>)
    requires housing != {}
    ensures Scoped(p, housing).NotResidential? <==> !ChecksDwellings(p)
    ensures ChecksDwellings(p) ==> (Scoped(p, housing).ScopeRefused? <==> Gap(housing))
  {
    if ChecksDwellings(p) {
      ScopeRefusedExactly(p, housing);
    }
    var some :| some in housing;
    var at := IndexOf(housing, some);
  }
}
