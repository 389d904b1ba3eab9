/**
 * When one provision plan implies another on every territory, and when the plan kept for a
 * provision clause therefore is conservative (src/pipeline/norm_spec.py).
 */
module Entailment {
  import opened Wrappers
  import opened NormSpecs
  import opened Strictest
  import opened Exactness
  import opened Readings

  // --- one dwelling and one service -------------------------------------------------------------

  /**
   * The dwelling of `people` and the service with `room` are `far` apart, a minute reaches
   * `pace` metres and the service's own normative `norm` metres.
   */
  function Remote(far: real, people: real, room: real, pace: real, norm: real): World {
    World((s: Side) => [0], (a: int, b: int) => far, (a: int, b: int) => false,
          (a: Attribute, o: int) => None, (o: int, z: int) => false, (z: int, s: Side) => 0.0,
          [0], (b: int) => people, (s: int) => room, (s: Side) => 1000.0, (s: Side) => norm, pace)
  }

  /** The two are within reach of each other and the service has room enough. */
  lemma RemoteServed(p: Plan, w: World, side: Side)
    requires Complete(p) && p.params.ServiceProvision? && SideOf(p.layers, Services) == Some(side)
    requires w.dwellings == [0] && w.objects(side) == [0]
    requires forall a, b :: w.distance(a, b) <= Reach(w, side, p.params.accessibility)
    requires 0.0 <= Demand(w, side, p.params, 0) <= Supply(w, p.params, 0)
    ensures Satisfies(w, p)
  {
    var need := Demand(w, side, p.params, 0);
    var alloc: Allocation := (b: int, s: int) => need;
    assert ToServices(alloc, 0, [0]) == need + ToServices(alloc, 0, [0][1..]);
    assert FromDwellings(alloc, 0, [0]) == need + FromDwellings(alloc, 0, [0][1..]);
    assert Serves(w, side, p.params, alloc);
  }

  /** They are out of reach, or there is too little room. */
  lemma RemoteUnserved(q: Plan, w: World, side: Side)
    requires q.params.ServiceProvision? && SideOf(q.layers, Services) == Some(side)
    requires w.dwellings == [0] && w.objects(side) == [0]
    requires Demand(w, side, q.params, 0) > 0.0
    requires w.distance(0, 0) > Reach(w, side, q.params.accessibility) || Demand(w, side, q.params, 0) > Supply(w, q.params, 0)
    ensures !Satisfies(w, q)
  {
    forall alloc: Allocation
      ensures !Serves(w, side, q.params, alloc)
    {
      assert ToServices(alloc, 0, [0]) == alloc(0, 0) + ToServices(alloc, 0, [0][1..]);
      assert FromDwellings(alloc, 0, [0]) == alloc(0, 0) + FromDwellings(alloc, 0, [0][1..]);
      assert MeetsDemand(w, side, q.params, alloc) ==> ToServices(alloc, 0, w.objects(side)) >= Demand(w, side, q.params, 0);
      assert KeepsSupply(w, side, q.params, alloc) ==> FromDwellings(alloc, 0, w.dwellings) <= Supply(w, q.params, 0);
    }
  }

  // --- entailment of provision plans --------------------------------------------------------------

  /** Places per 1000 residents, or residents per object, but not both. */
  predicate OneCapacity(p: Params) {
    p.ServiceProvision? && p.capacityPer1000.Some? != p.residentsPerService.Some?
  }

  /** The first asks for at least the capacity of the second, in the same terms. */
  predicate AsMuchCapacity(p: Params, q: Params)
    requires OneCapacity(p) && OneCapacity(q)
  {
    if q.residentsPerService.Some? then p.residentsPerService.Some? && p.residentsPerService.value <= q.residentsPerService.value
    else p.capacityPer1000.Some? && p.capacityPer1000.value >= q.capacityPer1000.value
  }

  predicate AlikeAccess(a: Option<Limit>, b: Option<Limit>) {
    a.Some? == b.Some? && (a.Some? ==> a.value.TimeLimit? == b.value.TimeLimit?)
  }

  /** Neither states an accessibility, or both do in the same terms and the first no longer one. */
  predicate NoFarther(a: Option<Limit>, b: Option<Limit>) {
    AlikeAccess(a, b) && (a.Some? ==> AccessMeters(a.value, 1.0) <= AccessMeters(b.value, 1.0))
  }

  predicate Provisioning(p: Plan) {
    Complete(p) && InRange(p.params) && OneCapacity(p.params)
  }

  /** A distance within the first plan's reach and beyond the second's. */
  lemma ReachGap(a: Option<Limit>, b: Option<Limit>) returns (far: real, pace: real, norm: real)
    requires (a.Some? ==> LimitInRange(a.value)) && (b.Some? ==> LimitInRange(b.value)) && !NoFarther(a, b)
    ensures pace >= 0.0
    ensures forall people, room, side :: var w := Remote(far, people, room, pace, norm); Reach(w, side, b) < far <= Reach(w, side, a)
  {
    if a == None {
      far := (if b.value.PathLimit? then b.value.meters else 0.0) + 1.0;
      pace, norm := 0.0, far;
    } else if b == None {
      far, pace, norm := AccessMeters(a.value, 1.0), 1.0, 0.0;
    } else if a.value.TimeLimit? && b.value.PathLimit? {
      far := b.value.meters + 1.0;
      pace, norm := far / a.value.minutes, 0.0;
    } else if a.value.PathLimit? && b.value.TimeLimit? {
      far, pace, norm := a.value.meters, 0.0, 0.0;
    } else {
      far, pace, norm := AccessMeters(a.value, 1.0), 1.0, 0.0;
    }
  }

  lemma WithinReachOnly(p: Plan, q: Plan) returns (w: World)
    requires Provisioning(p) && Provisioning(q) && SameSubject(p, q)
    requires !NoFarther(p.params.accessibility, q.params.accessibility)
    ensures Sensible(w) && Satisfies(w, p) && !Satisfies(w, q)
  {
    var side := SideOf(p.layers, Services).value;
    var far, pace, norm := ReachGap(p.params.accessibility, q.params.accessibility);
    var people := p.params.residentsPerService.GetOr(1.0);
    var room := p.params.capacityPer1000.GetOr(1000.0) / 1000.0;
    w := Remote(far, people, room, pace, norm);
    RemoteServed(p, w, side);
    DemandPositive(w, side, q.params);
    RemoteUnserved(q, w, side);
  }

  lemma DemandPositive(w: World, side: Side, p: Params)
    requires p.ServiceProvision? && InRange(p) && w.residents(0) > 0.0 && w.normCapacity(side) > 0.0
    ensures Demand(w, side, p, 0) > 0.0
  {
    var places := if p.capacityPer1000.Some? then p.capacityPer1000.value else w.normCapacity(side);
    assert w.residents(0) * places > 0.0;
  }

  lemma RoomForOneOnly(p: Plan, q: Plan) returns (w: World)
    requires Provisioning(p) && Provisioning(q) && SameSubject(p, q)
    requires !AsMuchCapacity(p.params, q.params)
    ensures Sensible(w) && Satisfies(w, p) && !Satisfies(w, q)
  {
    var side := SideOf(p.layers, Services).value;
    var people, room := Crowd(p.params, q.params);
    w := Remote(0.0, people, room, 0.0, 0.0);
    DemandPositive(w, side, p.params);
    RemoteServed(p, w, side);
    DemandPositive(w, side, q.params);
    RemoteUnserved(q, w, side);
  }

  /** Residents and places that are enough for the first norm and too many or too few for the second. */
  lemma Crowd(p: Params, q: Params) returns (people: real, room: real)
    requires InRange(p) && InRange(q) && OneCapacity(p) && OneCapacity(q) && !AsMuchCapacity(p, q)
    ensures people > 0.0
    ensures p.residentsPerService.Some? ==> people <= p.residentsPerService.value
    ensures p.capacityPer1000.Some? ==> people * p.capacityPer1000.value / 1000.0 <= room
    ensures q.residentsPerService.Some? ==> people > q.residentsPerService.value
    ensures q.capacityPer1000.Some? ==> people * q.capacityPer1000.value / 1000.0 > room
  {
    if p.residentsPerService.Some? {
      people, room := p.residentsPerService.value, 0.0;
      if q.capacityPer1000.Some? {
        assert people * q.capacityPer1000.value > 0.0;
      }
    } else if q.residentsPerService.Some? {
      people := q.residentsPerService.value + 1.0;
      room := people * p.capacityPer1000.value / 1000.0;
    } else {
      people, room := 1.0, p.capacityPer1000.value / 1000.0;
    }
  }

  /**
   * One provision plan implies another on every territory exactly when it asks for at least
   * the capacity and reaches no farther, both in the same terms.
   */
  lemma ProvisionEntailsExactly(p: Plan, q: Plan)
    requires Provisioning(p) && Provisioning(q) && SameSubject(p, q)
    ensures Entails(p, q) <==>
            AsMuchCapacity(p.params, q.params) && NoFarther(p.params.accessibility, q.params.accessibility)
  {
    if !AsMuchCapacity(p.params, q.params) {
      var w := RoomForOneOnly(p, q);
    } else if !NoFarther(p.params.accessibility, q.params.accessibility) {
      var w := WithinReachOnly(p, q);
    } else {
      forall w: World | Sensible(w) && Satisfies(w, p)
        ensures Satisfies(w, q)
      {
        NoFartherReach(w, SideOf(p.layers, Services).value, p.params.accessibility, q.params.accessibility);
        StricterProvisionImplies(w, p, q);
      }
    }
  }

  lemma NoFartherReach(w: World, side: Side, a: Option<Limit>, b: Option<Limit>)
    requires w.pace >= 0.0 && NoFarther(a, b)
    ensures Reach(w, side, a) <= Reach(w, side, b)
  {
    if a.Some? && a.value.TimeLimit? {
      Monotone(a.value.minutes, b.value.minutes, w.pace);
    }
  }

  // --- when the kept plan is conservative ---------------------------------------------------------------

  /** On every sensible territory the kept plan implies every variant. */
  ghost predicate Conservative(plan: Plan, plans: seq<Plan>) {
    forall w: World :: Sensible(w) && Satisfies(w, plan) ==> SatisfiesAll(w, plans)
  }

  /** What a reading states of the accessibility of a service. */
  datatype Access = Unstated | InMinutes | InMetres

  function AccessStated(spec: NormSpec, ctx: Context): Access {
    if spec.accessValue == None then Unstated
    else if In(Quantity(UnitOf(spec.accessUnit), spec.accessValue.value), Duration).Some? && !ByTransport(spec, ctx) then InMinutes
    else InMetres
  }

  function AccessIn(limit: Option<Limit>): Access {
    match limit
    case None => Unstated
    case Some(TimeLimit(_)) => InMinutes
    case Some(PathLimit(_)) => InMetres
  }

  /** A transport time is stated in minutes and compiled into metres; else plans keep the terms. */
  lemma AccessCompiled(spec: NormSpec, ctx: Context, p: Plan)
    requires CompileOne(spec, ctx) == Compiled(p) && spec.template == Provision
    ensures p.params.ServiceProvision? && AccessIn(p.params.accessibility) == AccessStated(spec, ctx)
    ensures Provisioning(p)
  {
    hide EarlyReasons, ValueReasons, Dedup, Ground, LayersOf;
    CompiledSubject(spec, ctx, p);
    CompiledIsComplete(spec, ctx, p);
  }

  /** All readings state the accessibility in the same terms, or none states one. */
  predicate SameTerms(candidates: seq<NormSpec>, ctx: Context) {
    forall j, k :: 0 <= j < |candidates| && 0 <= k < |candidates| ==>
      AccessStated(candidates[j], ctx) == AccessStated(candidates[k], ctx)
  }

  lemma CompiledAccess(spec: NormSpec, variants: seq<Variant>, ctx: Context, plans: seq<Plan>, k: nat)
    requires spec.template == Provision && CompileAll(Candidates(spec, variants), Reader(ctx)) == CompiledAll(plans) && k < |plans|
    ensures plans[k].params.ServiceProvision? && Provisioning(plans[k]) && SameSubject(plans[0], plans[k])
    ensures AccessIn(plans[k].params.accessibility) == AccessStated(Candidates(spec, variants)[k], ctx)
  {
    CandidatesSameSubject(spec, variants, ctx, plans, k);
    var c := Candidates(spec, variants)[k];
    assert k > 0 ==> c == Overridden(spec, variants[k - 1]);
    assert CompileOne(c, ctx) == Compiled(plans[k]);
    AccessCompiled(c, ctx, plans[k]);
  }

  /**
   * For a provision clause the kept plan implies every reading on every territory exactly when
   * all readings state the accessibility in the same terms or none states one.
   */
  lemma ProvisionConservativeExactly(spec: NormSpec, variants: seq<Variant>, ctx: Context, plans: seq<Plan>, plan: Plan)
    requires Kept(spec, variants, ctx, plans, plan) && spec.template == Provision
    ensures Conservative(plan, plans) <==> SameTerms(Candidates(spec, variants), ctx)
  {
    if SameTerms(Candidates(spec, variants), ctx) {
      SameTermsFit(spec, variants, ctx, plans);
      FittingIsConservative(spec, variants, ctx, plans, plan);
    } else {
      var w := MixedTerms(spec, variants, ctx, plans, plan);
    }
  }

  lemma SameTermsFit(spec: NormSpec, variants: seq<Variant>, ctx: Context, plans: seq<Plan>)
    requires spec.template == Provision && CompileAll(Candidates(spec, variants), Reader(ctx)) == CompiledAll(plans)
    requires SameTerms(Candidates(spec, variants), ctx)
    ensures AllOrNone(plans) && forall w: World :: PaceFits(w, plans)
  {
    var c := Candidates(spec, variants);
    forall k: nat | k < |plans|
      ensures plans[k].params.ServiceProvision? && AccessIn(AccessOf(plans[k])) == AccessStated(c[k], ctx)
    {
      CompiledAccess(spec, variants, ctx, plans, k);
    }
    TermsFit(plans);
  }

  lemma FittingIsConservative(spec: NormSpec, variants: seq<Variant>, ctx: Context, plans: seq<Plan>, plan: Plan)
    requires Kept(spec, variants, ctx, plans, plan) && AllOrNone(plans) && forall w: World :: PaceFits(w, plans)
    ensures Conservative(plan, plans)
  {
    forall w: World, k: nat | Sensible(w) && Satisfies(w, plan) && k < |plans|
      ensures Satisfies(w, plans[k])
    {
      assert PaceFits(w, plans);
      StrictestIsConservative(spec, variants, ctx, plans, plan, w, k);
    }
  }

  lemma TermsFit(plans: seq<Plan>)
    requires forall k :: 0 <= k < |plans| ==> plans[k].params.ServiceProvision?
    requires forall j, k :: 0 <= j < |plans| && 0 <= k < |plans| ==> AccessIn(AccessOf(plans[j])) == AccessIn(AccessOf(plans[k]))
    ensures AllOrNone(plans) && forall w: World :: PaceFits(w, plans)
  {
  }

  /** The kept plan states its accessibility in other terms than some reading; a territory tells them apart. */
  lemma MixedTerms(spec: NormSpec, variants: seq<Variant>, ctx: Context, plans: seq<Plan>, plan: Plan) returns (w: World)
    requires Kept(spec, variants, ctx, plans, plan) && spec.template == Provision
    requires !SameTerms(Candidates(spec, variants), ctx)
    ensures Sensible(w) && Satisfies(w, plan) && !SatisfiesAll(w, plans)
  {
    var c := Candidates(spec, variants);
    forall i: nat | i < |plans|
      ensures Provisioning(plans[i]) && SameSubject(plans[0], plans[i])
      ensures AccessIn(plans[i].params.accessibility) == AccessStated(c[i], ctx)
    {
      CompiledAccess(spec, variants, ctx, plans, i);
    }
    KeptIsComparable(spec, variants, ctx, plans, plan);
    var j: nat, k: nat :| j < |plans| && k < |plans| && AccessStated(c[j], ctx) != AccessStated(c[k], ctx);
    w := MixedPlans(plans, plan, j, k);
  }

  lemma MixedPlans(plans: seq<Plan>, plan: Plan, j: nat, k: nat) returns (w: World)
    requires Comparable(plans) && j < |plans| && k < |plans|
    requires plan == TightestAccessibility(plans[Best(plans)], plans).(strictest := true)
    requires forall i :: 0 <= i < |plans| ==> Provisioning(plans[i]) && SameSubject(plans[0], plans[i])
    requires AccessIn(AccessOf(plans[j])) != AccessIn(AccessOf(plans[k]))
    ensures Sensible(w) && Satisfies(w, plan) && !SatisfiesAll(w, plans)
  {
    KeptProvisioning(plans, plan);
    var other := if AccessIn(AccessOf(plan)) == AccessIn(AccessOf(plans[j])) then k else j;
    assert Provisioning(plans[other]) && SameSubject(plans[0], plans[other]);
    w := WithinReachOnly(plan, plans[other]);
  }

  lemma KeptProvisioning(plans: seq<Plan>, plan: Plan)
    requires Comparable(plans) && plans != []
    requires plan == TightestAccessibility(plans[Best(plans)], plans).(strictest := true)
    requires forall i :: 0 <= i < |plans| ==> Provisioning(plans[i]) && SameSubject(plans[0], plans[i])
    ensures Provisioning(plan) && SameSubject(plan, plans[0])
  {
    var best := Best(plans);
    assert Provisioning(plans[best]) && SameSubject(plans[0], plans[best]);
    hide Comparable, StatedLimits, TightestLimit, Best;
    if StatedLimits(plans) != [] {
      var t := TightestIsStated(plans);
      assert Provisioning(plans[t]);
      LimitProvisioned(plans[t]);
      Tightened(plans[best], TightestLimit(StatedLimits(plans)));
    }
  }

  lemma LimitProvisioned(p: Plan)
    requires Provisioning(p) && AccessOf(p).Some?
    ensures LimitInRange(AccessOf(p).value)
  {
  }

  lemma Tightened(p: Plan, l: Limit)
    requires Provisioning(p) && LimitInRange(l)
    ensures p.params.ServiceProvision? ==>
              var q := p.(params := p.params.(accessibility := Some(l)), strictest := true); Provisioning(q) && SameSubject(p, q)
    ensures !p.params.ServiceProvision? ==> var q := p.(strictest := true); Provisioning(q) && SameSubject(p, q)
  {
  }
}
