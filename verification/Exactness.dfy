/**
 * How exact the strictness order of plans is, and what the kept plan amounts to: the
 * conjunction of all the variants (src/pipeline/norm_spec.py).
 */
module Exactness {
  import opened Wrappers
  import opened NormSpecs
  import opened Strictest

  // --- the strictness key decides implication --------------------------------------------------

  /** The plan names the layers and the attribute its template looks at, and has no scope. */
  predicate Complete(p: Plan) {
    && p.scope == None
    && match p.params
       case DistanceFromSource(_) => SideOf(p.layers, Targets).Some? && SideOf(p.layers, Source).Some?
       case PresenceWithin(_) => SideOf(p.layers, Objects).Some? && SideOf(p.layers, Neighbors).Some?
       case AccessibilityWithin(_, _, _) => SideOf(p.layers, Objects).Some? && SideOf(p.layers, Neighbors).Some?
       case ObjectAttributeThreshold(_, _) => SideOf(p.layers, Objects).Some? && p.attribute.Some?
       case ZonalAttributeThreshold(_, _) => SideOf(p.layers, Objects).Some? && SideOf(p.layers, Zones).Some? && p.attribute.Some?
       case ZonalRatio(_, _) => SideOf(p.layers, Zones).Some? && SideOf(p.layers, Numerator).Some?
       case ServiceProvision(_, _, _, _) => SideOf(p.layers, Services).Some?
  }

  lemma CompiledIsComplete(spec: NormSpec, ctx: Context, p: Plan)
    requires CompileOne(spec, ctx) == Compiled(p)
    ensures Complete(p)
  {
    var (c, o) := Sides(spec.template, spec.checked, spec.other, ctx);
    var checked := if spec.template == Provision then None else Ground(c, ctx);
    var other := if spec.template == AttributeLimit then None else Ground(o, ctx);
    CompiledSubject(spec, ctx, p);
    BuiltIsComplete(spec, checked, other, ProvisionUnit(spec, ctx), AccessMode(spec, ctx), ctx, p);
  }

  lemma BuiltIsComplete(
    spec: NormSpec, checked: Option<Side>, other: Option<Side>, unit: Unit, mode: Option<Mode>, ctx: Context, p: Plan)
    requires Prepared(spec, checked, other)
    requires var b := Build(spec, checked, other, unit, mode, ctx); b.Built? && b.params == p.params
    requires p.layers == LayersOf(spec.template, checked, other) && p.scope == None
    requires p.attribute == if spec.template == AttributeLimit || spec.template == ZoneAttributeLimit then spec.attribute else None
    ensures Complete(p)
  {
  }

  /** One object everywhere, at distance `x`, with every attribute and share equal to `x`. */
  function Lone(x: real): World {
    World((s: Side) => [0], (a: int, b: int) => x, (a: int, b: int) => false,
          (a: Attribute, o: int) => Some(x), (o: int, z: int) => true, (z: int, s: Side) => x,
          [], (b: int) => 0.0, (s: int) => 0.0, (s: Side) => 0.0, (s: Side) => 0.0, WALKING_SPEED)
  }

  lemma LoneIsSensible(x: real)
    ensures Sensible(Lone(x))
  {
  }

  lemma LoneSeen(x: real, p: Plan, role: Role, o: int)
    requires p.scope == None && SideOf(p.layers, role).Some?
    ensures Seen(Lone(x), p, role, o) <==> o == 0
  {
    assert Lone(x).objects(SideOf(p.layers, role).value) == [0];
  }

  /** What the plan says about the one object. */
  predicate Meets(p: Params, x: real) {
    match p
    case DistanceFromSource(d) => d.Some? ==> x >= d.value
    case PresenceWithin(d) => x <= d
    case AccessibilityWithin(limit, speed, _) => x <= Radius(limit, speed)
    case ObjectAttributeThreshold(op, t) => Compare(op, x, t)
    case ZonalAttributeThreshold(op, t) => Compare(op, x, t)
    case ZonalRatio(op, t) => Compare(op, x, t)
    case ServiceProvision(_, _, _, _) => true
  }

  lemma LoneMeets(x: real, p: Plan)
    requires Complete(p) && !p.params.ServiceProvision?
    ensures Satisfies(Lone(x), p) <==> Meets(p.params, x)
  {
    var w := Lone(x);
    match p.params
    case DistanceFromSource(d) =>
      LoneSeen(x, p, Targets, 0);
      LoneSeen(x, p, Source, 0);
      assert Seen(w, p, Targets, 0) && Seen(w, p, Source, 0);
    case PresenceWithin(d) => LoneReaches(x, p, d);
    case AccessibilityWithin(limit, speed, _) => LoneReaches(x, p, Radius(limit, speed));
    case ObjectAttributeThreshold(_, _) =>
      LoneSeen(x, p, Objects, 0);
      assert Seen(w, p, Objects, 0);
    case ZonalAttributeThreshold(_, _) =>
      LoneSeen(x, p, Objects, 0);
      LoneSeen(x, p, Zones, 0);
      assert Seen(w, p, Objects, 0) && Seen(w, p, Zones, 0);
    case ZonalRatio(_, _) =>
      LoneSeen(x, p, Zones, 0);
      assert Seen(w, p, Zones, 0);
    case ServiceProvision(_, _, _, _) =>
  }

  lemma LoneReaches(x: real, p: Plan, far: real)
    requires p.scope == None && SideOf(p.layers, Objects).Some? && SideOf(p.layers, Neighbors).Some?
    ensures (forall o :: Seen(Lone(x), p, Objects, o) ==> exists n :: Seen(Lone(x), p, Neighbors, n) && Lone(x).distance(o, n) <= far)
            <==> x <= far
  {
    LoneSeen(x, p, Objects, 0);
    LoneSeen(x, p, Neighbors, 0);
    assert Seen(Lone(x), p, Objects, 0) && Seen(Lone(x), p, Neighbors, 0);
    assert forall n :: Lone(x).distance(0, n) == x;
  }

  /** A value that meets the laxer parameters and not the stricter ones. */
  lemma Separates(p: Plan, q: Plan) returns (x: real)
    requires Complete(p) && Complete(q) && !p.params.ServiceProvision?
    requires Strictness(p).Some? && Strictness(q).Some? && Strictness(p).value.0 == Strictness(q).value.0
    requires Strictness(p).value.1 > Strictness(q).value.1
    ensures !q.params.ServiceProvision? && Meets(p.params, x) && !Meets(q.params, x)
  {
    match p.params
    case DistanceFromSource(d) => x := d.value;
    case PresenceWithin(d) => x := d;
    case AccessibilityWithin(limit, speed, _) => x := Radius(limit, speed);
    case ObjectAttributeThreshold(op, t) => x := if op == Lt || op == Gt then q.params.threshold else t;
    case ZonalAttributeThreshold(op, t) => x := if op == Lt || op == Gt then q.params.threshold else t;
    case ZonalRatio(op, t) => x := if op == Lt || op == Gt then q.params.threshold else t;
  }

  /** On every sensible territory, complying with `p` implies complying with `q`. */
  ghost predicate Entails(p: Plan, q: Plan) {
    forall w: World :: Sensible(w) && Satisfies(w, p) ==> Satisfies(w, q)
  }

  /**
   * For two comparable plans about the same objects, other than provision plans, the key of
   * `_strictness` decides implication exactly.
   */
  lemma KeyDecidesImplication(p: Plan, q: Plan)
    requires Complete(p) && Complete(q) && SameSubject(p, q) && !p.params.ServiceProvision?
    requires Strictness(p).Some? && Strictness(q).Some? && Strictness(p).value.0 == Strictness(q).value.0
    ensures Entails(p, q) <==> Strictness(p).value.1 <= Strictness(q).value.1
  {
    if Strictness(p).value.1 <= Strictness(q).value.1 {
      forall w: World | Sensible(w) && Satisfies(w, p)
        ensures Satisfies(w, q)
      {
        StricterImplies(w, p, q);
      }
    } else {
      var x := Separates(p, q);
      LoneIsSensible(x);
      LoneMeets(x, p);
      LoneMeets(x, q);
      assert !Satisfies(Lone(x), q);
    }
  }

  // --- the kept plan is the conjunction of the variants ---------------------------------------------

  ghost predicate SatisfiesAll(w: World, plans: seq<Plan>) {
    forall k :: 0 <= k < |plans| ==> Satisfies(w, plans[k])
  }

  /**
   * Outside provision the kept plan asks for neither more nor less than all the readings
   * together.
   */
  lemma KeptIsConjunction(spec: NormSpec, variants: seq<Variant>, ctx: Context, plans: seq<Plan>, plan: Plan, w: World)
    requires Kept(spec, variants, ctx, plans, plan) && spec.template != Provision
    ensures Satisfies(w, plan) <==> SatisfiesAll(w, plans)
  {
    KeptIsComparable(spec, variants, ctx, plans, plan);
    forall i: nat | i < |plans|
      ensures !plans[i].params.ServiceProvision? && SameSubject(plans[0], plans[i])
    {
      CandidatesSameSubject(spec, variants, ctx, plans, i);
      assert CompileOne(Candidates(spec, variants)[0], ctx) == Compiled(plans[0]);
      CompiledSubject(spec, ctx, plans[0]);
    }
    SameMeaning(w, plan, plans[Best(plans)]);
    if Satisfies(w, plan) {
      forall k: nat | k < |plans|
        ensures Satisfies(w, plans[k])
      {
        KeptOther(plans, plan, w, k);
      }
    }
  }

  // --- candidates ---------------------------------------------------------------------------------

  lemma CandidateOf(spec: NormSpec, variants: seq<Variant>, ctx: Context, plans: seq<Plan>, k: nat) returns (c: NormSpec)
    requires CompileAll(Candidates(spec, variants), Reader(ctx)) == CompiledAll(plans) && k < |plans|
    ensures CompileOne(c, ctx) == Compiled(plans[k]) && c.template == spec.template
  {
    c := Candidates(spec, variants)[k];
    assert k > 0 ==> c == Overridden(spec, variants[k - 1]);
  }
}
