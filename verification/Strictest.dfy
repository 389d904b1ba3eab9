/**
 * What plans mean, and that the plan kept for a conditional clause is conservative: a
 * territory that satisfies it satisfies every stated variant (src/pipeline/norm_spec.py).
 */
module Strictest {
  import opened Wrappers
  import opened NormSpecs

  // --- the world a plan is checked on --------------------------------------------------------

  /**
   * Objects of every layer, distances, attribute values, area shares (in percent), demand and
   * supply. `normReach` and `normCapacity` are the service's own normatives, used when a plan
   * states none; `pace` is how many metres a minute of a provision limit reaches.
   */
  datatype World = World(
    objects: Side -> seq<int>,
    distance: (int, int) -> real,
    overlaps: (int, int) -> bool,
    attribute: (Attribute, int) -> Option<real>,
    inZone: (int, int) -> bool,
    share: (int, Side) -> real,
    dwellings: seq<int>,
    residents: int -> real,
    capacity: int -> real,
    normCapacity: Side -> real,
    normReach: Side -> real,
    pace: real)

  ghost predicate Sensible(w: World) {
    (forall b :: w.residents(b) >= 0.0) && (forall s :: w.normCapacity(s) >= 0.0) && w.pace >= 0.0
  }

  function SideOf(layers: seq<Layer>, role: Role): Option<Side> {
    if layers == [] then None
    else if layers[0].role == role then Some(layers[0].entity)
    else SideOf(layers[1..], role)
  }

  predicate InScope(w: World, scope: Scope, o: int) {
    var floors := w.attribute(Floors, o);
    floors.Some? && (scope.min.Some? ==> scope.min.value <= floors.value) && (scope.max.Some? ==> floors.value <= scope.max.value)
  }

  /** The objects of a layer that the plan looks at. */
  predicate Seen(w: World, p: Plan, role: Role, o: int) {
    var side := SideOf(p.layers, role);
    side.Some? && o in w.objects(side.value) && (p.scope.Some? && p.scope.value.role == role ==> InScope(w, p.scope.value, o))
  }

  predicate Compare(op: Operator, a: real, b: real) {
    match op
    case Lt => a < b
    case Le => a <= b
    case Gt => a > b
    case Ge => a >= b
    case Eq => a == b
  }

  /** The straight-line radius of `buffer_v1`. */
  function Radius(limit: Limit, speed: real): real {
    AccessMeters(limit, speed) / DETOUR_FACTOR
  }

  /** How far residents reach a service under a provision plan. */
  function Reach(w: World, side: Side, access: Option<Limit>): real {
    match access
    case None => w.normReach(side)
    case Some(TimeLimit(m)) => m * w.pace
    case Some(PathLimit(m)) => m
  }

  function Demand(w: World, side: Side, p: Params, b: int): real
    requires p.ServiceProvision?
  {
    if p.residentsPerService.Some? then w.residents(b)
    else w.residents(b) * (if p.capacityPer1000.Some? then p.capacityPer1000.value else w.normCapacity(side)) / 1000.0
  }

  function Supply(w: World, p: Params, s: int): real
    requires p.ServiceProvision?
  {
    if p.residentsPerService.Some? then p.residentsPerService.value else w.capacity(s)
  }

  type Allocation = (int, int) -> real

  function ToServices(alloc: Allocation, b: int, services: seq<int>): real {
    if services == [] then 0.0 else alloc(b, services[0]) + ToServices(alloc, b, services[1..])
  }

  function FromDwellings(alloc: Allocation, s: int, dwellings: seq<int>): real {
    if dwellings == [] then 0.0 else alloc(dwellings[0], s) + FromDwellings(alloc, s, dwellings[1..])
  }

  ghost predicate NonNegative(alloc: Allocation) {
    forall b, s :: alloc(b, s) >= 0.0
  }

  ghost predicate Within(w: World, reach: real, alloc: Allocation) {
    forall b, s :: alloc(b, s) > 0.0 ==> w.distance(b, s) <= reach
  }

  ghost predicate MeetsDemand(w: World, side: Side, p: Params, alloc: Allocation)
    requires p.ServiceProvision?
  {
    forall b :: b in w.dwellings ==> ToServices(alloc, b, w.objects(side)) >= Demand(w, side, p, b)
  }

  ghost predicate KeepsSupply(w: World, side: Side, p: Params, alloc: Allocation)
    requires p.ServiceProvision?
  {
    forall s :: s in w.objects(side) ==> FromDwellings(alloc, s, w.dwellings) <= Supply(w, p, s)
  }

  /** The allocation serves all demand within reach and within every service's supply. */
  ghost predicate Serves(w: World, side: Side, p: Params, alloc: Allocation)
    requires p.ServiceProvision?
  {
    NonNegative(alloc) && Within(w, Reach(w, side, p.accessibility), alloc) && MeetsDemand(w, side, p, alloc) && KeepsSupply(w, side, p, alloc)
  }

  /** The territory `w` complies with the plan. */
  ghost predicate Satisfies(w: World, p: Plan) {
    match p.params
    case DistanceFromSource(d) =>
      forall t, s :: Seen(w, p, Targets, t) && Seen(w, p, Source, s) ==>
        if d.Some? then w.distance(t, s) >= d.value else !w.overlaps(t, s)
    case PresenceWithin(d) =>
      forall o :: Seen(w, p, Objects, o) ==> exists n :: Seen(w, p, Neighbors, n) && w.distance(o, n) <= d
    case AccessibilityWithin(limit, speed, _) =>
      forall o :: Seen(w, p, Objects, o) ==> exists n :: Seen(w, p, Neighbors, n) && w.distance(o, n) <= Radius(limit, speed)
    case ObjectAttributeThreshold(op, t) =>
      forall o :: Seen(w, p, Objects, o) && p.attribute.Some? && w.attribute(p.attribute.value, o).Some? ==>
        Compare(op, w.attribute(p.attribute.value, o).value, t)
    case ZonalAttributeThreshold(op, t) =>
      forall o, z :: Seen(w, p, Objects, o) && Seen(w, p, Zones, z) && w.inZone(o, z)
                     && p.attribute.Some? && w.attribute(p.attribute.value, o).Some? ==>
        Compare(op, w.attribute(p.attribute.value, o).value, t)
    case ZonalRatio(op, t) =>
      forall z :: Seen(w, p, Zones, z) && SideOf(p.layers, Numerator).Some? ==>
        Compare(op, w.share(z, SideOf(p.layers, Numerator).value), t)
    case ServiceProvision(_, _, _, _) =>
      SideOf(p.layers, Services).Some? ==> exists alloc: Allocation :: Serves(w, SideOf(p.layers, Services).value, p.params, alloc)
  }

  // --- stricter plans imply weaker ones --------------------------------------------------------------

  /** Two plans about the same layers, attribute and scope. */
  predicate SameSubject(p: Plan, q: Plan) {
    p.layers == q.layers && p.attribute == q.attribute && p.scope == q.scope
  }

  predicate AtLeastAsStrict(p: Plan, q: Plan) {
    && Strictness(p).Some? && Strictness(q).Some?
    && Strictness(p).value.0 == Strictness(q).value.0
    && Strictness(p).value.1 <= Strictness(q).value.1
  }

  lemma SeenSame(w: World, p: Plan, q: Plan)
    requires SameSubject(p, q)
    ensures forall role, o :: Seen(w, p, role, o) == Seen(w, q, role, o)
  {
  }

  lemma StricterImplies(w: World, p: Plan, q: Plan)
    requires SameSubject(p, q) && AtLeastAsStrict(p, q) && !p.params.ServiceProvision?
    requires Satisfies(w, p)
    ensures Satisfies(w, q)
  {
    SeenSame(w, p, q);
    match p.params
    case DistanceFromSource(d) =>
    case PresenceWithin(d) => ReachGrows(w, p, q, d, q.params.within);
    case AccessibilityWithin(limit, speed, _) => ReachGrows(w, p, q, Radius(limit, speed), Radius(q.params.limit, q.params.speed));
    case ObjectAttributeThreshold(op, t) =>
    case ZonalAttributeThreshold(op, t) =>
    case ZonalRatio(op, t) =>
    case ServiceProvision(_, _, _, _) =>
  }

  lemma ReachGrows(w: World, p: Plan, q: Plan, near: real, far: real)
    requires SameSubject(p, q) && near <= far
    requires forall o :: Seen(w, p, Objects, o) ==> exists n :: Seen(w, p, Neighbors, n) && w.distance(o, n) <= near
    ensures forall o :: Seen(w, q, Objects, o) ==> exists n :: Seen(w, q, Neighbors, n) && w.distance(o, n) <= far
  {
    forall o | Seen(w, q, Objects, o)
      ensures exists n :: Seen(w, q, Neighbors, n) && w.distance(o, n) <= far
    {
      assert Seen(w, p, Objects, o);
      var n :| Seen(w, p, Neighbors, n) && w.distance(o, n) <= near;
      assert Seen(w, q, Neighbors, n);
    }
  }

  // --- provision ----------------------------------------------------------------------------------------

  function Scaled(alloc: Allocation, k: real): Allocation {
    (b, s) => alloc(b, s) * k
  }

  lemma {:induction false} ToServicesScaled(alloc: Allocation, k: real, b: int, services: seq<int>)
    ensures ToServices(Scaled(alloc, k), b, services) == ToServices(alloc, b, services) * k
  {
    if services != [] {
      ToServicesScaled(alloc, k, b, services[1..]);
    }
  }

  lemma {:induction false} FromDwellingsScaled(alloc: Allocation, k: real, s: int, dwellings: seq<int>)
    ensures FromDwellings(Scaled(alloc, k), s, dwellings) == FromDwellings(alloc, s, dwellings) * k
  {
    if dwellings != [] {
      FromDwellingsScaled(alloc, k, s, dwellings[1..]);
    }
  }

  lemma PartIsNonNegative(alloc: Allocation, b: int, s: int)
    requires NonNegative(alloc)
    ensures alloc(b, s) >= 0.0
  {
  }

  lemma {:induction false} FromDwellingsPositive(alloc: Allocation, s: int, dwellings: seq<int>)
    requires NonNegative(alloc)
    ensures FromDwellings(alloc, s, dwellings) >= 0.0
  {
    if dwellings != [] {
      PartIsNonNegative(alloc, dwellings[0], s);
      FromDwellingsPositive(alloc, s, dwellings[1..]);
    }
  }

  lemma ScaledStaysWithin(w: World, near: real, far: real, alloc: Allocation, k: real)
    requires NonNegative(alloc) && Within(w, near, alloc) && near <= far && 0.0 <= k <= 1.0
    ensures NonNegative(Scaled(alloc, k)) && Within(w, far, Scaled(alloc, k))
  {
    var less := Scaled(alloc, k);
    forall b, s
      ensures less(b, s) >= 0.0 && (less(b, s) > 0.0 ==> w.distance(b, s) <= far)
    {
      Share(alloc(b, s), k);
    }
  }

  lemma ScaledMeetsDemand(w: World, side: Side, p: Params, q: Params, alloc: Allocation, k: real)
    requires p.ServiceProvision? && q.ServiceProvision? && 0.0 <= k && MeetsDemand(w, side, p, alloc)
    requires forall b :: Demand(w, side, q, b) <= Demand(w, side, p, b) * k
    ensures MeetsDemand(w, side, q, Scaled(alloc, k))
  {
    forall b | b in w.dwellings
      ensures ToServices(Scaled(alloc, k), b, w.objects(side)) >= Demand(w, side, q, b)
    {
      ToServicesScaled(alloc, k, b, w.objects(side));
      Monotone(Demand(w, side, p, b), ToServices(alloc, b, w.objects(side)), k);
    }
  }

  lemma ScaledKeepsSupply(w: World, side: Side, p: Params, q: Params, alloc: Allocation, k: real)
    requires p.ServiceProvision? && q.ServiceProvision? && 0.0 <= k <= 1.0
    requires NonNegative(alloc) && KeepsSupply(w, side, p, alloc)
    requires forall s :: Supply(w, p, s) <= Supply(w, q, s)
    ensures KeepsSupply(w, side, q, Scaled(alloc, k))
  {
    forall s | s in w.objects(side)
      ensures FromDwellings(Scaled(alloc, k), s, w.dwellings) <= Supply(w, q, s)
    {
      ScaledTakesLess(alloc, k, s, w.dwellings);
      assert FromDwellings(alloc, s, w.dwellings) <= Supply(w, p, s) <= Supply(w, q, s);
    }
  }

  lemma ScaledTakesLess(alloc: Allocation, k: real, s: int, dwellings: seq<int>)
    requires NonNegative(alloc) && 0.0 <= k <= 1.0
    ensures FromDwellings(Scaled(alloc, k), s, dwellings) <= FromDwellings(alloc, s, dwellings)
  {
    var taken := FromDwellings(alloc, s, dwellings);
    assert FromDwellings(Scaled(alloc, k), s, dwellings) == taken * k by {
      FromDwellingsScaled(alloc, k, s, dwellings);
    }
    assert taken >= 0.0 by {
      FromDwellingsPositive(alloc, s, dwellings);
    }
    Share(taken, k);
  }

  /** A smaller share of an allocation serves a proportionally smaller demand. */
  lemma ServesScaled(w: World, side: Side, p: Params, q: Params, alloc: Allocation, k: real)
    requires p.ServiceProvision? && q.ServiceProvision? && 0.0 <= k <= 1.0
    requires Serves(w, side, p, alloc)
    requires Reach(w, side, p.accessibility) <= Reach(w, side, q.accessibility)
    requires forall b :: Demand(w, side, q, b) <= Demand(w, side, p, b) * k
    requires forall s :: Supply(w, p, s) <= Supply(w, q, s)
    ensures Serves(w, side, q, Scaled(alloc, k))
  {
    ScaledStaysWithin(w, Reach(w, side, p.accessibility), Reach(w, side, q.accessibility), alloc, k);
    ScaledMeetsDemand(w, side, p, q, alloc, k);
    ScaledKeepsSupply(w, side, p, q, alloc, k);
  }

  lemma Share(x: real, k: real)
    requires x >= 0.0 && 0.0 <= k <= 1.0
    ensures 0.0 <= x * k <= x && (x * k > 0.0 ==> x > 0.0)
  {
  }

  lemma Monotone(x: real, y: real, k: real)
    requires x <= y && k >= 0.0
    ensures x * k <= y * k
  {
  }

  /** The denser provision norm with the shorter reach implies the other. */
  lemma StricterProvisionImplies(w: World, p: Plan, q: Plan)
    requires Sensible(w) && SameSubject(p, q) && AtLeastAsStrict(p, q)
    requires p.params.ServiceProvision? && q.params.ServiceProvision? && InRange(p.params) && InRange(q.params)
    requires SideOf(p.layers, Services).Some? ==>
               Reach(w, SideOf(p.layers, Services).value, p.params.accessibility) <= Reach(w, SideOf(p.layers, Services).value, q.params.accessibility)
    requires Satisfies(w, p)
    ensures Satisfies(w, q)
  {
    if SideOf(p.layers, Services).Some? {
      var side := SideOf(p.layers, Services).value;
      var alloc: Allocation :| Serves(w, side, p.params, alloc);
      var k := if p.params.capacityPer1000.Some? then q.params.capacityPer1000.value / p.params.capacityPer1000.value else 1.0;
      forall b
        ensures Demand(w, side, q.params, b) <= Demand(w, side, p.params, b) * k
      {
        if p.params.capacityPer1000.Some? {
          DemandScales(w.residents(b), p.params.capacityPer1000.value, q.params.capacityPer1000.value);
        }
      }
      assert 0.0 <= k <= 1.0 by {
        if p.params.capacityPer1000.Some? {
          Fraction(q.params.capacityPer1000.value, p.params.capacityPer1000.value);
        }
      }
      ServesScaled(w, side, p.params, q.params, alloc, k);
    }
  }

  lemma DemandScales(residents: real, dense: real, sparse: real)
    requires dense > 0.0
    ensures residents * sparse / 1000.0 == residents * dense / 1000.0 * (sparse / dense)
  {
    assert dense * (sparse / dense) == sparse;
    calc {
      residents * dense / 1000.0 * (sparse / dense);
      residents * (dense * (sparse / dense)) / 1000.0;
      residents * sparse / 1000.0;
    }
  }

  lemma Fraction(a: real, b: real)
    requires 0.0 < a <= b
    ensures 0.0 <= a / b <= 1.0
  {
  }

  // --- overrides change values only ------------------------------------------------------------------------

  /** The parameters compare with the same operator. */
  function OperatorOf(p: Params): Option<Operator> {
    match p
    case ObjectAttributeThreshold(op, _) => Some(op)
    case ZonalAttributeThreshold(op, _) => Some(op)
    case ZonalRatio(op, _) => Some(op)
    case _ => None
  }

  /** What a compiled plan is about, whatever values its spec states. */
  lemma CompiledSubject(spec: NormSpec, ctx: Context, p: Plan)
    requires CompileOne(spec, ctx) == Compiled(p)
    ensures var (c, o) := Sides(spec.template, spec.checked, spec.other, ctx);
      var checked := if spec.template == Provision then None else Ground(c, ctx);
      var other := if spec.template == AttributeLimit then None else Ground(o, ctx);
      && Prepared(spec, checked, other)
      && p.layers == LayersOf(spec.template, checked, other)
      && p.attribute == (if spec.template == AttributeLimit || spec.template == ZoneAttributeLimit then spec.attribute else None)
      && p.scope == None && InRange(p.params)
      && OperatorOf(p.params) == (if spec.template == AttributeLimit || spec.template == ZoneAttributeLimit || spec.template == ZoneShare
                                  then spec.operator else None)
      && (p.params.ServiceProvision? <==> spec.template == Provision)
  {
    hide EarlyReasons, ValueReasons, Dedup, Ground, AccessMode, ProvisionUnit, LayersOf, InRange;
  }

  /** A variant never changes the layers, the operator or the attribute of the plan. */
  lemma OverridesKeepSubject(spec: NormSpec, v: Variant, ctx: Context, p: Plan, q: Plan)
    requires CompileOne(spec, ctx) == Compiled(p) && CompileOne(Overridden(spec, v), ctx) == Compiled(q)
    ensures SameSubject(p, q) && OperatorOf(p.params) == OperatorOf(q.params)
    ensures p.params.ServiceProvision? <==> q.params.ServiceProvision?
  {
    CompiledSubject(spec, ctx, p);
    CompiledSubject(Overridden(spec, v), ctx, q);
  }

  // --- the strictest variant is conservative -----------------------------------------------------------------

  function AccessOf(p: Plan): Option<Limit> {
    if p.params.ServiceProvision? then p.params.accessibility else None
  }

  /** Either every plan states an accessibility or none does. */
  predicate AllOrNone(plans: seq<Plan>) {
    forall j, k :: 0 <= j < |plans| && 0 <= k < |plans| ==> AccessOf(plans[j]).Some? == AccessOf(plans[k]).Some?
  }

  /** Limits of different kinds are compared at 80 m a minute, so the world has to walk that fast. */
  predicate PaceFits(w: World, plans: seq<Plan>) {
    || w.pace == WALKING_SPEED
    || (forall k :: 0 <= k < |plans| && AccessOf(plans[k]).Some? ==> AccessOf(plans[k]).value.TimeLimit?)
    || (forall k :: 0 <= k < |plans| && AccessOf(plans[k]).Some? ==> AccessOf(plans[k]).value.PathLimit?)
  }

  /** The compiled candidates of a clause, and the plan kept for it. */
  ghost predicate Kept(spec: NormSpec, variants: seq<Variant>, ctx: Context, plans: seq<Plan>, plan: Plan) {
    && !spec.unconditional
    && CompileAll(Candidates(spec, variants), Reader(ctx)) == CompiledAll(plans)
    && CompileVariants(spec, variants, ctx) == Compiled(plan)
  }

  lemma KeptIsComparable(spec: NormSpec, variants: seq<Variant>, ctx: Context, plans: seq<Plan>, plan: Plan)
    requires Kept(spec, variants, ctx, plans, plan)
    ensures Comparable(plans) && plans != []
    ensures plan == TightestAccessibility(plans[Best(plans)], plans).(strictest := true)
  {
  }

  lemma CandidatesSameSubject(spec: NormSpec, variants: seq<Variant>, ctx: Context, plans: seq<Plan>, k: nat)
    requires CompileAll(Candidates(spec, variants), Reader(ctx)) == CompiledAll(plans) && k < |plans|
    ensures SameSubject(plans[0], plans[k]) && InRange(plans[k].params)
    ensures plans[0].params.ServiceProvision? <==> plans[k].params.ServiceProvision?
  {
    var c := Candidates(spec, variants);
    assert CompileOne(c[0], ctx) == Compiled(plans[0]) && CompileOne(c[k], ctx) == Compiled(plans[k]);
    CompiledSubject(c[k], ctx, plans[k]);
    if k > 0 {
      OverridesKeepSubject(spec, variants[k - 1], ctx, plans[0], plans[k]);
    }
  }

  /** Limits ordered by their walk are ordered by their reach, at a pace that fits both. */
  lemma ReachOrder(w: World, side: Side, l: Limit, m: Limit)
    requires w.pace >= 0.0 && (w.pace == WALKING_SPEED || l.TimeLimit? == m.TimeLimit?)
    requires AccessMeters(l, WALKING_SPEED) <= AccessMeters(m, WALKING_SPEED)
    ensures Reach(w, side, Some(l)) <= Reach(w, side, Some(m))
  {
    if l.TimeLimit? && m.TimeLimit? {
      assert l.minutes <= m.minutes;
      Monotone(l.minutes, m.minutes, w.pace);
    }
  }

  lemma FitsBoth(w: World, plans: seq<Plan>, j: nat, k: nat)
    requires PaceFits(w, plans) && j < |plans| && k < |plans| && AccessOf(plans[j]).Some? && AccessOf(plans[k]).Some?
    ensures w.pace == WALKING_SPEED || AccessOf(plans[j]).value.TimeLimit? == AccessOf(plans[k]).value.TimeLimit?
  {
  }

  /** The tightest of the stated limits is one plan's. */
  lemma TightestIsStated(plans: seq<Plan>) returns (j: nat)
    requires StatedLimits(plans) != []
    ensures j < |plans| && AccessOf(plans[j]) == Some(TightestLimit(StatedLimits(plans)))
  {
    var l := TightestLimit(StatedLimits(plans));
    j :| 0 <= j < |plans| && plans[j].params.ServiceProvision? && plans[j].params.accessibility == Some(l);
  }

  lemma StatedIsListed(plans: seq<Plan>, k: nat)
    requires k < |plans| && AccessOf(plans[k]).Some?
    ensures AccessOf(plans[k]).value in StatedLimits(plans)
  {
  }

  /** The tightest of the stated limits is the shortest reach, at a pace that fits. */
  lemma TightestReach(w: World, side: Side, plans: seq<Plan>, k: nat)
    requires w.pace >= 0.0 && PaceFits(w, plans) && k < |plans| && AccessOf(plans[k]).Some?
    requires StatedLimits(plans) != []
    ensures Reach(w, side, Some(TightestLimit(StatedLimits(plans)))) <= Reach(w, side, AccessOf(plans[k]))
  {
    StatedIsListed(plans, k);
    var j := TightestIsStated(plans);
    FitsBoth(w, plans, j, k);
    ReachOrder(w, side, AccessOf(plans[j]).value, AccessOf(plans[k]).value);
  }

  /**
   * Main result: on every territory, complying with the kept plan implies complying with the
   * main reading of the clause and with every variant of it, over all templates, units and
   * modes, provided all provision readings state an accessibility or none does.
   */
  lemma StrictestIsConservative(spec: NormSpec, variants: seq<Variant>, ctx: Context, plans: seq<Plan>, plan: Plan, w: World, k: nat)
    requires Kept(spec, variants, ctx, plans, plan) && k < |plans|
    requires Sensible(w) && PaceFits(w, plans) && AllOrNone(plans)
    requires Satisfies(w, plan)
    ensures Satisfies(w, plans[k])
  {
    KeptIsComparable(spec, variants, ctx, plans, plan);
    forall i: nat | i < |plans|
      ensures SameSubject(plans[0], plans[i]) && InRange(plans[i].params)
      ensures plans[0].params.ServiceProvision? <==> plans[i].params.ServiceProvision?
    {
      CandidatesSameSubject(spec, variants, ctx, plans, i);
    }
    if plans[0].params.ServiceProvision? {
      KeptProvision(plans, plan, w, k);
    } else {
      KeptOther(plans, plan, w, k);
    }
  }

  lemma KeptOther(plans: seq<Plan>, plan: Plan, w: World, k: nat)
    requires Comparable(plans) && plans != [] && k < |plans|
    requires plan == TightestAccessibility(plans[Best(plans)], plans).(strictest := true)
    requires forall i :: 0 <= i < |plans| ==> !plans[i].params.ServiceProvision? && SameSubject(plans[0], plans[i])
    requires Satisfies(w, plan)
    ensures Satisfies(w, plans[k])
  {
    var b := Best(plans);
    SameMeaning(w, plan, plans[b]);
    BestIsStrictest(plans, k);
    StricterImplies(w, plans[b], plans[k]);
  }

  lemma BestIsStrictest(plans: seq<Plan>, k: nat)
    requires Comparable(plans) && plans != [] && k < |plans|
    ensures AtLeastAsStrict(plans[Best(plans)], plans[k])
  {
  }

  lemma SameMeaning(w: World, p: Plan, q: Plan)
    requires p.params == q.params && SameSubject(p, q)
    ensures Satisfies(w, p) <==> Satisfies(w, q)
  {
    SeenSame(w, p, q);
  }

  lemma KeptProvision(plans: seq<Plan>, plan: Plan, w: World, k: nat)
    requires Comparable(plans) && plans != [] && k < |plans|
    requires plan == TightestAccessibility(plans[Best(plans)], plans).(strictest := true)
    requires forall i :: 0 <= i < |plans| ==> plans[i].params.ServiceProvision? && SameSubject(plans[0], plans[i]) && InRange(plans[i].params)
    requires Sensible(w) && PaceFits(w, plans) && AllOrNone(plans)
    requires Satisfies(w, plan)
    ensures Satisfies(w, plans[k])
  {
    KeptIsStricter(plans, plan, k);
    KeptReach(plans, plan, w, k);
    StricterProvisionImplies(w, plan, plans[k]);
  }

  lemma KeptIsStricter(plans: seq<Plan>, plan: Plan, k: nat)
    requires Comparable(plans) && plans != [] && k < |plans| && AllOrNone(plans)
    requires plan == TightestAccessibility(plans[Best(plans)], plans).(strictest := true)
    requires forall i :: 0 <= i < |plans| ==> plans[i].params.ServiceProvision? && SameSubject(plans[0], plans[i]) && InRange(plans[i].params)
    ensures SameSubject(plan, plans[k]) && AtLeastAsStrict(plan, plans[k])
    ensures plan.params.ServiceProvision? && InRange(plan.params)
  {
    var best := plans[Best(plans)];
    BestIsStrictest(plans, k);
    KeptAccess(plans, k);
    TightestKeepsKey(best, plans);
    assert SameSubject(plans[0], best) && SameSubject(plans[0], plans[k]);
  }

  /** A tighter accessibility changes neither the subject nor the key of a plan. */
  lemma TightestKeepsKey(p: Plan, plans: seq<Plan>)
    ensures var q := TightestAccessibility(p, plans);
      SameSubject(q, p) && Strictness(q) == Strictness(p) && Strictness(q.(strictest := true)) == Strictness(p)
  {
  }

  lemma KeptReach(plans: seq<Plan>, plan: Plan, w: World, k: nat)
    requires Comparable(plans) && plans != [] && k < |plans| && AllOrNone(plans) && w.pace >= 0.0 && PaceFits(w, plans)
    requires plan == TightestAccessibility(plans[Best(plans)], plans).(strictest := true)
    requires forall i :: 0 <= i < |plans| ==> plans[i].params.ServiceProvision? && InRange(plans[i].params)
    ensures forall side :: Reach(w, side, AccessOf(plan)) <= Reach(w, side, AccessOf(plans[k]))
  {
    KeptAccess(plans, k);
    if AccessOf(plans[k]).Some? {
      forall side
        ensures Reach(w, side, AccessOf(plan)) <= Reach(w, side, AccessOf(plans[k]))
      {
        TightestReach(w, side, plans, k);
      }
    }
  }

  /** With an accessibility stated by all or by none, the kept plan states one like every plan. */
  lemma KeptAccess(plans: seq<Plan>, k: nat)
    requires Comparable(plans) && plans != [] && k < |plans| && AllOrNone(plans)
    requires forall i :: 0 <= i < |plans| ==> plans[i].params.ServiceProvision? && InRange(plans[i].params)
    ensures var plan := TightestAccessibility(plans[Best(plans)], plans);
      && InRange(plan.params)
      && (if AccessOf(plans[k]) == None then AccessOf(plan) == None
          else StatedLimits(plans) != [] && AccessOf(plan) == Some(TightestLimit(StatedLimits(plans))))
  {
    var b := Best(plans);
    assert AccessOf(plans[b]).Some? == AccessOf(plans[k]).Some?;
    if StatedLimits(plans) != [] {
      var j := TightestIsStated(plans);
      assert InRange(plans[j].params);
      assert AccessOf(plans[j]).Some? == AccessOf(plans[k]).Some?;
    } else if AccessOf(plans[k]).Some? {
      StatedIsListed(plans, k);
    }
  }
}
