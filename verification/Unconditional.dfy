/**
 * A clause marked unconditional is compiled by its main reading alone
 * (src/pipeline/norm_spec.py). Whether its plan covers a variant stated with it is decided by
 * the stated quantities.
 */
module Unconditional {
  import opened Wrappers
  import opened NormSpecs
  import opened Strictest
  import opened Exactness
  import opened Entailment
  import opened Readings

  // --- what a compiled plan takes over from its reading ----------------------------------------

  /** The quantity the parameters ask for. */
  function StatedIn(p: Params): Option<real> {
    match p
    case DistanceFromSource(d) => d
    case PresenceWithin(d) => Some(d)
    case AccessibilityWithin(limit, speed, _) => Some(AccessMeters(limit, speed))
    case ObjectAttributeThreshold(_, t) => Some(t)
    case ZonalAttributeThreshold(_, t) => Some(t)
    case ZonalRatio(_, t) => Some(t)
    case ServiceProvision(_, _, _, _) => None
  }

  lemma BuiltStated(
    spec: NormSpec, checked: Option<Side>, other: Option<Side>, unit: Unit, value: real, mode: Option<Mode>, ctx: Context, b: Params,
    guarded: Option<real>)
    requires spec.template != Provision && spec.template != ProhibitedWithin && Prepared(spec, checked, other)
    requires spec.value == Some(value) && Build(spec, checked, other, unit, mode, ctx) == Built(b, guarded)
    ensures StatedIn(b).Some? && Stated(spec, unit, value, SpeedOf(mode, ctx)).Some?
    ensures StatedIn(b).value == Stated(spec, unit, value, SpeedOf(mode, ctx)).value
    ensures OperatorFits(spec.template, spec.operator) && spec.operator.Some?
  {
    match spec.template
    case Accessibility => AccessBuilt(spec, unit, value, mode, ctx, b, guarded);
    case _ =>
  }

  lemma AccessBuilt(spec: NormSpec, unit: Unit, value: real, mode: Option<Mode>, ctx: Context, b: Params, guarded: Option<real>)
    requires spec.template == Accessibility && BuildAccessibility(spec, unit, value, mode, ctx) == Built(b, guarded)
    ensures StatedIn(b).Some? && Stated(spec, unit, value, SpeedOf(mode, ctx)).Some?
    ensures StatedIn(b).value == Stated(spec, unit, value, SpeedOf(mode, ctx)).value
  {
    assert b.speed == SpeedOf(mode, ctx);
    if TimeScale(unit).Some? {
      assert b.limit.TimeLimit? && b.limit.minutes == value * TimeScale(unit).value;
    } else {
      assert b.limit.PathLimit? && b.limit.meters == value * LengthScale(unit).value;
    }
  }

  lemma PlanStates(spec: NormSpec, ctx: Context, p: Plan)
    requires CompileOne(spec, ctx) == Compiled(p) && spec.template != Provision && spec.template != ProhibitedWithin
    ensures StatedIn(p.params) == StatedBy(spec, ctx) != None && spec.operator.Some?
    ensures OperatorFits(spec.template, spec.operator)
  {
    CompiledSubject(spec, ctx, p);
    var b := BuiltParams(spec, ctx, p);
    var checked, other, guarded :| Prepared(spec, checked, other)
      && Build(spec, checked, other, UnitOf(spec.unit), AccessMode(spec, ctx), ctx) == Built(b, guarded);
    StatedAtSpeed(spec, ctx);
    BuiltStated(spec, checked, other, UnitOf(spec.unit), spec.value.value, AccessMode(spec, ctx), ctx, b, guarded);
  }

  /** The capacity and accessibility that a provision reading states, in places, residents, minutes and metres. */
  function ProvisionStated(spec: NormSpec, ctx: Context): Option<Params> {
    var capacity, access := Capacity(spec, ProvisionUnit(spec, ctx), spec.value.GetOr(0.0)), ProvisionAccess(spec, AccessMode(spec, ctx), ctx);
    if capacity == None || access == None then None
    else Some(ServiceProvision(capacity.value.0, capacity.value.1, access.value, Walk))
  }

  lemma ProvisionPlanStates(spec: NormSpec, ctx: Context, p: Plan)
    requires CompileOne(spec, ctx) == Compiled(p) && spec.template == Provision
    ensures p.params.ServiceProvision? && ProvisionStated(spec, ctx) == Some(p.params.(accessMode := Walk))
  {
    CompiledSubject(spec, ctx, p);
  }

  // --- which readings cover which -----------------------------------------------------------------

  /** The first bound is at least as tight as the second. */
  predicate NoLaxer(op: Option<Operator>, a: Option<real>, b: Option<real>) {
    && op.Some? && a.Some? && b.Some?
    && match op.value
       case Lt => a.value <= b.value
       case Le => a.value <= b.value
       case Ge => a.value >= b.value
       case Gt => a.value >= b.value
       case Eq => a.value == b.value
  }

  /** Of two readings of one clause the first states at least as much as the second. */
  predicate StatesAsMuch(s: NormSpec, t: NormSpec, ctx: Context) {
    match s.template
    case ProhibitedWithin => true
    case Provision =>
      var a, b := ProvisionStated(s, ctx), ProvisionStated(t, ctx);
      && a.Some? && b.Some? && OneCapacity(a.value) && OneCapacity(b.value)
      && AsMuchCapacity(a.value, b.value) && NoFarther(a.value.accessibility, b.value.accessibility)
    case _ => NoLaxer(s.operator, StatedBy(s, ctx), StatedBy(t, ctx))
  }

  /** The plans of two readings of one clause, and what they are about. */
  ghost predicate TwoReadings(s: NormSpec, t: NormSpec, ctx: Context, p: Plan, q: Plan) {
    && CompileOne(s, ctx) == Compiled(p) && CompileOne(t, ctx) == Compiled(q)
    && s.template == t.template && s.operator == t.operator && SameSubject(p, q)
  }

  /** The kind of a compiled plan's key is its template's, and the key is the signed quantity. */
  lemma KeyOfStated(spec: NormSpec, ctx: Context, p: Plan)
    requires CompileOne(spec, ctx) == Compiled(p) && spec.template != Provision && spec.template != ProhibitedWithin
    requires spec.operator != Some(Eq)
    ensures spec.operator.Some? && StatedBy(spec, ctx).Some? && Strictness(p).Some?
    ensures Strictness(p).value.1 == Signed(spec.operator.value, StatedBy(spec, ctx).value).value
    ensures Strictness(p).value.0 == KindOfPlan(p.params)
  {
    PlanStates(spec, ctx, p);
    CompiledSubject(spec, ctx, p);
    ParamsOfTemplate(spec, ctx, p);
  }

  function KindOfPlan(p: Params): Kind {
    match p
    case DistanceFromSource(d) => if d == None then Prohibited else MinDistanceKind
    case PresenceWithin(_) => MaxDistanceKind
    case AccessibilityWithin(_, _, _) => AccessKind
    case ObjectAttributeThreshold(op, _) => AttributeKind(op)
    case ZonalAttributeThreshold(op, _) => ZoneAttributeKind(op)
    case ZonalRatio(op, _) => ShareKind(op)
    case ServiceProvision(_, _, _, _) => CapacityKind
  }

  /** Each template has its own parameters. */
  lemma ParamsOfTemplate(spec: NormSpec, ctx: Context, p: Plan)
    requires CompileOne(spec, ctx) == Compiled(p)
    ensures match spec.template
      case MinDistance => p.params.DistanceFromSource? && p.params.distance.Some?
      case ProhibitedWithin => p.params == DistanceFromSource(None)
      case MaxDistance => p.params.PresenceWithin?
      case Accessibility => p.params.AccessibilityWithin?
      case AttributeLimit => p.params.ObjectAttributeThreshold?
      case ZoneAttributeLimit => p.params.ZonalAttributeThreshold?
      case ZoneShare => p.params.ZonalRatio?
      case Provision => p.params.ServiceProvision?
      case NoTemplate => false
  {
  }

  /** Plans with an equality are met by their threshold only. */
  lemma EqualityEntails(s: NormSpec, t: NormSpec, ctx: Context, p: Plan, q: Plan)
    requires TwoReadings(s, t, ctx, p, q) && s.operator == Some(Eq)
    requires s.template != Provision && s.template != ProhibitedWithin
    ensures Entails(p, q) <==> StatedBy(s, ctx) == StatedBy(t, ctx)
  {
    hide CompileOne, Stated, ByTransport, Strictness;
    PlanStates(s, ctx, p);
    PlanStates(t, ctx, q);
    CompiledSubject(s, ctx, p);
    CompiledSubject(t, ctx, q);
    CompiledIsComplete(s, ctx, p);
    CompiledIsComplete(t, ctx, q);
    ParamsOfTemplate(s, ctx, p);
    ParamsOfTemplate(t, ctx, q);
    var x := StatedBy(s, ctx).value;
    LoneIsSensible(x);
    LoneMeets(x, p);
    LoneMeets(x, q);
    if StatedBy(s, ctx) == StatedBy(t, ctx) {
      forall w: World | Satisfies(w, p)
        ensures Satisfies(w, q)
      {
        SameMeaning(w, p, q);
      }
    } else {
      assert Satisfies(Lone(x), p) && !Satisfies(Lone(x), q);
    }
  }

  lemma ProvisionReadings(s: NormSpec, t: NormSpec, ctx: Context, p: Plan, q: Plan)
    requires TwoReadings(s, t, ctx, p, q) && s.template == Provision
    ensures Entails(p, q) <==> StatesAsMuch(s, t, ctx)
  {
    hide CompileOne, Entails;
    ProvisionPlanStates(s, ctx, p);
    ProvisionPlanStates(t, ctx, q);
    AccessCompiled(s, ctx, p);
    AccessCompiled(t, ctx, q);
    ProvisionEntailsExactly(p, q);
  }

  lemma KeyedReadings(s: NormSpec, t: NormSpec, ctx: Context, p: Plan, q: Plan)
    requires TwoReadings(s, t, ctx, p, q) && s.operator != Some(Eq)
    requires s.template != Provision && s.template != ProhibitedWithin
    ensures Entails(p, q) <==> NoLaxer(s.operator, StatedBy(s, ctx), StatedBy(t, ctx))
  {
    KeyOfStated(s, ctx, p);
    KeyOfStated(t, ctx, q);
    SameKind(s, t, ctx, p, q);
    CompiledIsComplete(s, ctx, p);
    CompiledIsComplete(t, ctx, q);
    KeyedPlans(p, q, s.operator.value, StatedBy(s, ctx).value, StatedBy(t, ctx).value);
  }

  lemma KeyedPlans(p: Plan, q: Plan, op: Operator, a: real, b: real)
    requires Complete(p) && Complete(q) && SameSubject(p, q) && !p.params.ServiceProvision? && op != Eq
    requires Strictness(p).Some? && Strictness(q).Some? && Strictness(p).value.0 == Strictness(q).value.0
    requires Strictness(p).value.1 == Signed(op, a).value && Strictness(q).value.1 == Signed(op, b).value
    ensures Entails(p, q) <==> NoLaxer(Some(op), Some(a), Some(b))
  {
    KeyDecidesImplication(p, q);
  }

  lemma SameKind(s: NormSpec, t: NormSpec, ctx: Context, p: Plan, q: Plan)
    requires TwoReadings(s, t, ctx, p, q) && s.template != Provision
    ensures KindOfPlan(p.params) == KindOfPlan(q.params) && !p.params.ServiceProvision?
  {
    ParamsOfTemplate(s, ctx, p);
    ParamsOfTemplate(t, ctx, q);
    CompiledSubject(s, ctx, p);
    CompiledSubject(t, ctx, q);
  }

  /** The plan of one reading implies that of another exactly when the reading states as much. */
  lemma ReadingEntailsExactly(s: NormSpec, t: NormSpec, ctx: Context, p: Plan, q: Plan)
    requires TwoReadings(s, t, ctx, p, q)
    ensures Entails(p, q) <==> StatesAsMuch(s, t, ctx)
  {
    if s.template == Provision {
      ProvisionReadings(s, t, ctx, p, q);
    } else if s.template == ProhibitedWithin {
      ProhibitedReadings(s, t, ctx, p, q);
    } else {
      BoundReadings(s, t, ctx, p, q);
    }
  }

  lemma ProhibitedReadings(s: NormSpec, t: NormSpec, ctx: Context, p: Plan, q: Plan)
    requires TwoReadings(s, t, ctx, p, q) && s.template == ProhibitedWithin
    ensures Entails(p, q)
  {
    ParamsOfTemplate(s, ctx, p);
    ParamsOfTemplate(t, ctx, q);
    forall w: World | Satisfies(w, p)
      ensures Satisfies(w, q)
    {
      SameMeaning(w, p, q);
    }
  }

  lemma BoundReadings(s: NormSpec, t: NormSpec, ctx: Context, p: Plan, q: Plan)
    requires TwoReadings(s, t, ctx, p, q) && s.template != Provision && s.template != ProhibitedWithin
    ensures Entails(p, q) <==> NoLaxer(s.operator, StatedBy(s, ctx), StatedBy(t, ctx))
    ensures s.template != NoTemplate
  {
    hide CompileOne, Entails;
    ParamsOfTemplate(s, ctx, p);
    if s.operator == Some(Eq) {
      EqualityEntails(s, t, ctx, p, q);
      PlanStates(s, ctx, p);
      PlanStates(t, ctx, q);
    } else {
      KeyedReadings(s, t, ctx, p, q);
    }
  }

  /**
   * The plan of an unconditional clause covers a variant stated with it exactly when the main
   * reading states as much as the variant.
   */
  lemma UnconditionalCovers(spec: NormSpec, variants: seq<Variant>, k: nat, ctx: Context, p: Plan, q: Plan)
    requires spec.unconditional && k < |variants|
    requires CompileVariants(spec, variants, ctx) == Compiled(p)
    requires CompileOne(Overridden(spec, variants[k]), ctx) == Compiled(q)
    ensures Entails(p, q) <==> StatesAsMuch(spec, Overridden(spec, variants[k]), ctx)
  {
    OverridesKeepSubject(spec, variants[k], ctx, p, q);
    ReadingEntailsExactly(spec, Overridden(spec, variants[k]), ctx, p, q);
  }

  // --- a variant that states another value only ------------------------------------------------------

  /** What a value is multiplied with to be compared. */
  function Factor(spec: NormSpec, unit: Unit, speed: real): Option<real> {
    match spec.template
    case MinDistance => LengthScale(unit)
    case MaxDistance => LengthScale(unit)
    case Accessibility => if TimeScale(unit).Some? then Some(TimeScale(unit).value * speed) else LengthScale(unit)
    case AttributeLimit => if spec.attribute.Some? then AttributeFactor(spec.attribute.value, unit) else None
    case ZoneAttributeLimit => if spec.attribute.Some? then AttributeFactor(spec.attribute.value, unit) else None
    case ZoneShare => if unit.measure == Percent then Some(1.0) else None
    case _ => None
  }

  function AttributeFactor(attribute: Attribute, unit: Unit): Option<real> {
    match attribute
    case Floors => if unit.measure == Floor then Some(1.0) else None
    case Height => LengthScale(unit)
    case _ => AreaScale(unit)
  }

  lemma StatedIsScaled(spec: NormSpec, unit: Unit, x: real, speed: real)
    requires speed > 0.0
    ensures var f, s := Factor(spec, unit, speed), Stated(spec, unit, x, speed);
      f.Some? == s.Some? && (f.Some? ==> f.value > 0.0 && s.value == x * f.value)
  {
    var f, s := Factor(spec, unit, speed), Stated(spec, unit, x, speed);
    if spec.template == Accessibility && TimeScale(unit).Some? {
      var scale := TimeScale(unit).value;
      assert s.value == x * scale * speed && f.value == scale * speed;
      assert x * scale * speed == x * (scale * speed);
    }
  }

  lemma ScaleOrder(x: real, y: real, k: real)
    requires k > 0.0
    ensures x * k <= y * k <==> x <= y
  {
    if x <= y {
      Monotone(x, y, k);
    } else {
      assert (x - y) * k > 0.0;
    }
  }

  lemma ScaledNoLaxer(op: Option<Operator>, x: real, y: real, k: real)
    requires k > 0.0
    ensures NoLaxer(op, Some(x * k), Some(y * k)) <==> NoLaxer(op, Some(x), Some(y))
  {
    ScaleOrder(x, y, k);
    ScaleOrder(y, x, k);
  }

  /**
   * Outside provision, a variant that only states another value is covered exactly when the
   * main value is no laxer a bound.
   */
  lemma OtherValueCovered(spec: NormSpec, variants: seq<Variant>, k: nat, value: real, ctx: Context, p: Plan, q: Plan)
    requires spec.unconditional && spec.template != Provision && spec.template != ProhibitedWithin
    requires k < |variants| && variants[k] == Variant(Some(value), None, None, None, None, None, variants[k].housing)
    requires CompileVariants(spec, variants, ctx) == Compiled(p)
    requires CompileOne(Overridden(spec, variants[k]), ctx) == Compiled(q)
    ensures Entails(p, q) <==> NoLaxer(spec.operator, spec.value, Some(value))
  {
    UnconditionalCovers(spec, variants, k, ctx, p, q);
    PlanStates(spec, ctx, p);
    NeedsValue(spec, ctx, p);
    assert Overridden(spec, variants[k]) == Restated(spec, value);
    OtherValueStated(spec, value, ctx);
  }

  lemma NeedsValue(spec: NormSpec, ctx: Context, p: Plan)
    requires CompileOne(spec, ctx) == Compiled(p)
    ensures spec.template != NoTemplate && (spec.template != ProhibitedWithin ==> spec.value.Some?)
    ensures spec.template == Accessibility ==> Pace(spec, ctx) > 0.0
  {
    CompiledSubject(spec, ctx, p);
    if spec.template == Accessibility {
      AccessSpeed(spec, ctx, p);
    }
  }

  lemma OtherValueStated(spec: NormSpec, value: real, ctx: Context)
    requires spec.value.Some? && StatedBy(spec, ctx).Some? && spec.template != Provision && spec.template != ProhibitedWithin
    requires spec.template == Accessibility ==> Pace(spec, ctx) > 0.0
    ensures StatesAsMuch(spec, Restated(spec, value), ctx) <==> NoLaxer(spec.operator, spec.value, Some(value))
  {
    hide Stated, Quantity;
    var t := Restated(spec, value);
    StatedByScaled(spec, spec.value.value, ctx);
    StatedByScaled(t, value, ctx);
    assert ScaleOf(t, ctx) == ScaleOf(spec, ctx);
    ScaledNoLaxer(spec.operator, spec.value.value, value, ScaleOf(spec, ctx).value);
  }

  function ScaleOf(spec: NormSpec, ctx: Context): Option<real> {
    Factor(spec, UnitOf(spec.unit), if spec.template == Accessibility then Pace(spec, ctx) else 1.0)
  }

  lemma StatedByScaled(spec: NormSpec, x: real, ctx: Context)
    requires spec.value == Some(x) && (spec.template == Accessibility ==> Pace(spec, ctx) > 0.0)
    ensures ScaleOf(spec, ctx).Some? == StatedBy(spec, ctx).Some?
    ensures ScaleOf(spec, ctx).Some? ==> ScaleOf(spec, ctx).value > 0.0 && StatedBy(spec, ctx).value == x * ScaleOf(spec, ctx).value
  {
    var pace := if spec.template == Accessibility then Pace(spec, ctx) else 1.0;
    StatedIsScaled(spec, UnitOf(spec.unit), x, pace);
    assert StatedBy(spec, ctx) == Stated(spec, UnitOf(spec.unit), x, pace);
  }

  lemma AccessSpeed(spec: NormSpec, ctx: Context, p: Plan)
    requires CompileOne(spec, ctx) == Compiled(p) && spec.template == Accessibility
    ensures Pace(spec, ctx) > 0.0
  {
    CompiledSubject(spec, ctx, p);
  }
}
