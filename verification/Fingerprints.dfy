/**
 * Votes agree when their plans have one fingerprint (src/pipeline/norm_spec.py). It names
 * neither the attribute a plan looks at nor the buildings it is limited to; this is exactly
 * when plans with one fingerprint still check the same.
 */
module Fingerprints {
  import opened Wrappers
  import opened NormSpecs
  import opened Strictest
  import opened Exactness
  import opened NormCompile

  /** The unit a threshold is written in; both areas are in square metres. */
  datatype ThresholdUnit = InFloors | InMetres | InSquareMetres

  function UnitOfAttribute(a: Attribute): ThresholdUnit {
    match a
    case Floors => InFloors
    case Height => InMetres
    case _ => InSquareMetres
  }

  /** Each attribute is named in the unit that its threshold keeps as it is stated. */
  lemma UnitFitsAttribute(a: Attribute, words: Wording, value: real)
    ensures UnitOfAttribute(a) == InFloors <==> Threshold(a, Unit(Floor, words), value) == Some(value)
    ensures UnitOfAttribute(a) == InMetres <==> Threshold(a, Unit(Metre, words), value) == Some(value)
    ensures UnitOfAttribute(a) == InSquareMetres <==> Threshold(a, Unit(SquareMetre, words), value) == Some(value)
  {
  }

  /** `plan_fingerprint`: template and parameters with the unit of the threshold, and the layers. */
  datatype Fingerprint = Fingerprint(params: Params, unit: Option<ThresholdUnit>, layers: multiset<Layer>)

  function FingerprintOf(p: Plan): Fingerprint {
    Fingerprint(p.params, if p.attribute.Some? then Some(UnitOfAttribute(p.attribute.value)) else None, multiset(p.layers))
  }

  // --- the shape of what `compile` returns ------------------------------------------------------

  predicate OnAttribute(p: Params) {
    p.ObjectAttributeThreshold? || p.ZonalAttributeThreshold?
  }

  /** At most two layers, the first role before the second in the order of the templates. */
  predicate RoleOrder(layers: seq<Layer>) {
    |layers| <= 1 ||
    (|layers| == 2 && (layers[0].role, layers[1].role) in
                       {(Source, Targets), (Objects, Neighbors), (Objects, Zones), (Zones, Numerator)})
  }

  /** Some number of floors is in the scope, and some is not. */
  predicate Spans(scope: Scope) {
    (scope.min.Some? || scope.max.Some?) && (scope.min.Some? && scope.max.Some? ==> scope.min.value <= scope.max.value)
  }

  predicate Shaped(p: Plan) {
    && Complete(p.(scope := None)) && RoleOrder(p.layers) && InRange(p.params)
    && (p.attribute.Some? <==> OnAttribute(p.params))
    && (p.scope.Some? ==> CheckedRole(p.params) == Some(p.scope.value.role) && Spans(p.scope.value))
  }

  lemma OneIsShaped(s: NormSpec, ctx: Context, p: Plan)
    requires CompileOne(s, ctx) == Compiled(p)
    ensures Shaped(p) && p.scope == None
  {
    CompiledSubject(s, ctx, p);
    CompiledIsComplete(s, ctx, p);
    LayersInOrder(s, ctx, p);
    AttributeOnly(s, ctx, p);
  }

  lemma LayersInOrder(s: NormSpec, ctx: Context, p: Plan)
    requires CompileOne(s, ctx) == Compiled(p)
    ensures RoleOrder(p.layers)
  {
    CompiledSubject(s, ctx, p);
  }

  lemma AttributeOnly(s: NormSpec, ctx: Context, p: Plan)
    requires CompileOne(s, ctx) == Compiled(p)
    ensures p.attribute.Some? <==> OnAttribute(p.params)
  {
    CompiledSubject(s, ctx, p);
    CompiledIsComplete(s, ctx, p);
  }

  lemma VariantsAreShaped(s: NormSpec, variants: seq<Variant>, ctx: Context, p: Plan)
    requires CompileVariants(s, variants, ctx) == Compiled(p)
    ensures Shaped(p) && p.scope == None
  {
    if s.unconditional {
      OneIsShaped(s, ctx, p);
    } else {
      var plans := CompileAll(Candidates(s, variants), Reader(ctx)).plans;
      KeptIsComparable(s, variants, ctx, plans, p);
      forall k: nat | k < |plans|
        ensures Shaped(plans[k]) && plans[k].scope == None
      {
        var c := CandidateOf(s, variants, ctx, plans, k);
        OneIsShaped(c, ctx, plans[k]);
      }
      TightestIsShaped(plans, Best(plans));
    }
  }

  lemma TightestIsShaped(plans: seq<Plan>, best: nat)
    requires best < |plans| && forall k :: 0 <= k < |plans| ==> Shaped(plans[k]) && plans[k].scope == None
    ensures var p := TightestAccessibility(plans[best], plans).(strictest := true); Shaped(p) && p.scope == None
  {
    var p := plans[best];
    assert Shaped(p);
    if p.params.ServiceProvision? && StatedLimits(plans) != [] {
      var j := TightestIsStated(plans);
      assert Shaped(plans[j]);
    }
  }

  lemma ScopedIsShaped(p: Plan, housing: set<Housing>, q: Plan)
    requires Shaped(p) && p.scope == None && Scoped(p, housing) == InScopeOf(q)
    ensures Shaped(q)
  {
    HousingSpans(housing);
    ScopingSetsScope(p, housing, q);
    ScopeOfHousing(p, JoinFloors(RangesOf(housing)).value, housing, q);
    assert q.(scope := None) == p;
  }

  lemma ScopeOfHousing(p: Plan, whole: Floored, housing: set<Housing>, q: Plan)
    requires RangesOf(housing) != [] && JoinFloors(RangesOf(housing)) == Some(whole) && Scoped(p, housing) == InScopeOf(q)
    requires p.scope == None && whole.low >= 1 && (whole.high.Some? ==> whole.low <= whole.high.value)
    ensures q.scope.Some? ==> CheckedRole(p.params) == Some(q.scope.value.role) && Spans(q.scope.value)
  {
  }

  /** The joined floors of some kinds of housing are not empty. */
  lemma HousingSpans(housing: set<Housing>)
    requires RangesOf(housing) != [] && JoinFloors(RangesOf(housing)).Some?
    ensures var whole := JoinFloors(RangesOf(housing)).value;
      whole.low >= 1 && (whole.high.Some? ==> whole.low <= whole.high.value)
  {
    var ranges := RangesOf(housing);
    RangesAreOrdered(housing);
    assert CoveredBy(ranges, ranges[0].low);
    HousingIsJoined(housing, ranges[0].low);
  }

  /** Whatever `compile` returns has the shape of its template. */
  lemma CompiledIsShaped(s: NormSpec, ctx: Context, p: Plan)
    requires Compile(s, ctx) == Compiled(p)
    ensures Shaped(p)
  {
    var spec := ReadingOf(s, ctx);
    var inner := CompileVariants(spec, Concerning(spec.variants, spec.housing), ctx);
    ReadingCases(spec, ctx, inner, p);
    if spec.housing != {} && Scoped(inner.plan, spec.housing).InScopeOf? {
      VariantsAreShaped(spec, Concerning(spec.variants, spec.housing), ctx, inner.plan);
      ScopedIsShaped(inner.plan, spec.housing, p);
    } else {
      VariantsAreShaped(spec, spec.variants, ctx, p);
    }
  }

  lemma OrderByRole(a: seq<Layer>, b: seq<Layer>)
    requires RoleOrder(a) && RoleOrder(b) && multiset(a) == multiset(b)
    ensures a == b
  {
    assert |multiset(a)| == |a| && |multiset(b)| == |b|;
    if |a| == 1 {
      assert a == [a[0]] && b == [b[0]];
      assert a[0] in multiset(b);
    } else if |a| == 2 {
      assert a == [a[0], a[1]] && b == [b[0], b[1]];
      assert a[0] in multiset(b) && a[1] in multiset(b);
    }
  }

  // --- one house ----------------------------------------------------------------------------------

  /** One building everywhere, with its floors and its other attributes. */
  function House(floors: Option<real>, values: Attribute -> real, x: real, touching: bool): World {
    Lone(x).(attribute := (a: Attribute, o: int) => if a == Floors then floors else Some(values(a)),
             overlaps := (a: int, b: int) => touching)
  }

  predicate FloorsIn(scope: Option<Scope>, floors: Option<real>) {
    scope == None ||
    (floors.Some? && (scope.value.min.Some? ==> scope.value.min.value <= floors.value)
     && (scope.value.max.Some? ==> floors.value <= scope.value.max.value))
  }

  /** What the parameters ask of the house once it is looked at. */
  predicate HouseMeets(p: Plan, floors: Option<real>, values: Attribute -> real, x: real, touching: bool) {
    match p.params
    case DistanceFromSource(d) => if d.Some? then x >= d.value else !touching
    case PresenceWithin(d) => x <= d
    case AccessibilityWithin(limit, speed, _) => x <= Radius(limit, speed)
    case ObjectAttributeThreshold(op, t) => ValueMeets(p.attribute, floors, values, op, t)
    case ZonalAttributeThreshold(op, t) => ValueMeets(p.attribute, floors, values, op, t)
    case ZonalRatio(op, t) => Compare(op, x, t)
    case ServiceProvision(_, _, _, _) => true
  }

  predicate ValueMeets(a: Option<Attribute>, floors: Option<real>, values: Attribute -> real, op: Operator, t: real) {
    a.Some? ==> if a.value == Floors then floors.Some? ==> Compare(op, floors.value, t) else Compare(op, values(a.value), t)
  }

  lemma HouseSeen(p: Plan, role: Role, floors: Option<real>, values: Attribute -> real, x: real, touching: bool, o: int)
    requires SideOf(p.layers, role).Some?
    ensures Seen(House(floors, values, x, touching), p, role, o)
            <==> o == 0 && (p.scope.Some? && p.scope.value.role == role ==> FloorsIn(p.scope, floors))
  {
    assert House(floors, values, x, touching).objects(SideOf(p.layers, role).value) == [0];
  }

  /** A house complies when it is out of the scope or meets the parameters. */
  lemma HouseComplies(p: Plan, floors: Option<real>, values: Attribute -> real, x: real, touching: bool)
    requires Shaped(p) && !p.params.ServiceProvision?
    ensures Satisfies(House(floors, values, x, touching), p)
            <==> (FloorsIn(p.scope, floors) ==> HouseMeets(p, floors, values, x, touching))
  {
    match p.params
    case DistanceFromSource(d) => HouseApart(p, floors, values, x, touching);
    case PresenceWithin(d) => HouseReaches(p, floors, values, x, touching, d);
    case AccessibilityWithin(limit, speed, _) => HouseReaches(p, floors, values, x, touching, Radius(limit, speed));
    case ObjectAttributeThreshold(_, _) => HouseMeasures(p, floors, values, x, touching);
    case ZonalAttributeThreshold(_, _) => HouseInZone(p, floors, values, x, touching);
    case ZonalRatio(_, _) =>
      HouseSeen(p, Zones, floors, values, x, touching, 0);
      assert Seen(House(floors, values, x, touching), p, Zones, 0);
    case ServiceProvision(_, _, _, _) =>
  }

  lemma HouseApart(p: Plan, floors: Option<real>, values: Attribute -> real, x: real, touching: bool)
    requires Shaped(p) && p.params.DistanceFromSource?
    ensures Satisfies(House(floors, values, x, touching), p)
            <==> (FloorsIn(p.scope, floors) ==> HouseMeets(p, floors, values, x, touching))
  {
    var w := House(floors, values, x, touching);
    forall o
      ensures Seen(w, p, Targets, o) <==> o == 0 && FloorsIn(p.scope, floors)
      ensures Seen(w, p, Source, o) <==> o == 0
    {
      HouseSeen(p, Targets, floors, values, x, touching, o);
      HouseSeen(p, Source, floors, values, x, touching, o);
    }
    assert Seen(w, p, Source, 0);
    assert FloorsIn(p.scope, floors) ==> Seen(w, p, Targets, 0);
  }

  lemma HouseReaches(p: Plan, floors: Option<real>, values: Attribute -> real, x: real, touching: bool, far: real)
    requires SideOf(p.layers, Objects).Some? && SideOf(p.layers, Neighbors).Some?
    requires p.scope.Some? ==> p.scope.value.role == Objects
    ensures var w := House(floors, values, x, touching);
      (forall o :: Seen(w, p, Objects, o) ==> exists n :: Seen(w, p, Neighbors, n) && w.distance(o, n) <= far)
      <==> (FloorsIn(p.scope, floors) ==> x <= far)
  {
    var w := House(floors, values, x, touching);
    HouseSeen(p, Objects, floors, values, x, touching, 0);
    HouseSeen(p, Neighbors, floors, values, x, touching, 0);
    assert Seen(w, p, Neighbors, 0);
    assert FloorsIn(p.scope, floors) <==> Seen(w, p, Objects, 0);
    assert forall o, n :: w.distance(o, n) == x;
    forall o
      ensures Seen(w, p, Objects, o) ==> o == 0
    {
      HouseSeen(p, Objects, floors, values, x, touching, o);
    }
  }

  lemma HouseMeasures(p: Plan, floors: Option<real>, values: Attribute -> real, x: real, touching: bool)
    requires Shaped(p) && p.params.ObjectAttributeThreshold?
    ensures Satisfies(House(floors, values, x, touching), p)
            <==> (FloorsIn(p.scope, floors) ==> HouseMeets(p, floors, values, x, touching))
  {
    var w := House(floors, values, x, touching);
    HouseSeen(p, Objects, floors, values, x, touching, 0);
    assert FloorsIn(p.scope, floors) <==> Seen(w, p, Objects, 0);
  }

  lemma HouseInZone(p: Plan, floors: Option<real>, values: Attribute -> real, x: real, touching: bool)
    requires Shaped(p) && p.params.ZonalAttributeThreshold?
    ensures Satisfies(House(floors, values, x, touching), p) <==> HouseMeets(p, floors, values, x, touching)
  {
    var w := House(floors, values, x, touching);
    HouseSeen(p, Objects, floors, values, x, touching, 0);
    HouseSeen(p, Zones, floors, values, x, touching, 0);
    assert Seen(w, p, Objects, 0) && Seen(w, p, Zones, 0);
  }

  // --- scopes -------------------------------------------------------------------------------------

  /** A number of floors in the scope. */
  lemma InSpan(scope: Option<Scope>) returns (floors: real)
    requires scope.Some? ==> Spans(scope.value)
    ensures FloorsIn(scope, Some(floors))
  {
    floors := if scope == None then 0.0
      else if scope.value.min.Some? then scope.value.min.value
      else scope.value.max.value;
  }

  function Low(a: Option<Scope>): Option<real> {
    if a == None then None else a.value.min
  }

  function High(a: Option<Scope>): Option<real> {
    if a == None then None else a.value.max
  }

  /** Nothing above `t`, or from `t` on, is in the scope. */
  predicate NoneAbove(from: bool, t: real, a: Option<Scope>) {
    High(a).Some? && if from then High(a).value < t else High(a).value <= t
  }

  /** The lower end, where it is above `t`. */
  function LowAbove(t: real, a: Option<Scope>): Option<real> {
    if Low(a).Some? && Low(a).value > t then Low(a) else None
  }

  /** The scopes take in the same floors above `t` (with `t` itself when `from`). */
  predicate SameAbove(from: bool, t: real, a: Option<Scope>, b: Option<Scope>) {
    || (NoneAbove(from, t, a) && NoneAbove(from, t, b))
    || (!NoneAbove(from, t, a) && !NoneAbove(from, t, b) && High(a) == High(b) && LowAbove(t, a) == LowAbove(t, b))
  }

  predicate Above(from: bool, t: real, v: real) {
    v > t || (from && v == t)
  }

  /** A point of `b` above `t` and above all of `a`. */
  lemma BeyondHigh(from: bool, t: real, a: Option<Scope>, b: Option<Scope>) returns (v: real)
    requires (b.Some? ==> Spans(b.value)) && !NoneAbove(from, t, b) && High(a).Some?
    requires NoneAbove(from, t, a) || High(b) == None || High(a).value < High(b).value
    ensures Above(from, t, v) && !FloorsIn(a, Some(v)) && FloorsIn(b, Some(v))
  {
    if High(b).Some? {
      v := High(b).value;
    } else {
      v := (if t < High(a).value then High(a).value else t) + 1.0;
      if Low(b).Some? && v < Low(b).value {
        v := Low(b).value;
      }
    }
  }

  lemma BelowLow(from: bool, t: real, a: Option<Scope>, b: Option<Scope>) returns (v: real)
    requires (a.Some? ==> Spans(a.value)) && (b.Some? ==> Spans(b.value))
    requires !NoneAbove(from, t, a) && High(a) == High(b) && LowAbove(t, b).Some?
    requires LowAbove(t, a) == None || LowAbove(t, a).value < LowAbove(t, b).value
    ensures Above(from, t, v) && FloorsIn(a, Some(v)) && !FloorsIn(b, Some(v))
  {
    v := if LowAbove(t, a).Some? then LowAbove(t, a).value else (t + LowAbove(t, b).value) / 2.0;
  }

  lemma DifferAbove(from: bool, t: real, a: Option<Scope>, b: Option<Scope>) returns (v: real)
    requires (a.Some? ==> Spans(a.value)) && (b.Some? ==> Spans(b.value)) && !SameAbove(from, t, a, b)
    ensures Above(from, t, v) && FloorsIn(a, Some(v)) != FloorsIn(b, Some(v))
  {
    if NoneAbove(from, t, a) {
      v := BeyondHigh(from, t, a, b);
    } else if NoneAbove(from, t, b) {
      v := BeyondHigh(from, t, b, a);
    } else if High(a) != High(b) {
      if High(a).Some? && (High(b) == None || High(a).value < High(b).value) {
        v := BeyondHigh(from, t, a, b);
      } else {
        v := BeyondHigh(from, t, b, a);
      }
    } else if LowAbove(t, b).Some? && (LowAbove(t, a) == None || LowAbove(t, a).value < LowAbove(t, b).value) {
      v := BelowLow(from, t, a, b);
    } else {
      v := BelowLow(from, t, b, a);
    }
  }

  lemma SameAboveMeaning(from: bool, t: real, a: Option<Scope>, b: Option<Scope>, v: real)
    requires SameAbove(from, t, a, b) && Above(from, t, v)
    ensures FloorsIn(a, Some(v)) == FloorsIn(b, Some(v))
  {
    assert FloorsIn(a, Some(v)) <==> (Low(a).Some? ==> Low(a).value <= v) && (High(a).Some? ==> v <= High(a).value);
    assert FloorsIn(b, Some(v)) <==> (Low(b).Some? ==> Low(b).value <= v) && (High(b).Some? ==> v <= High(b).value);
  }

  /** Floors that one of two different scopes takes in and the other does not. */
  lemma ScopesDiffer(a: Option<Scope>, b: Option<Scope>) returns (floors: Option<real>)
    requires (a.Some? ==> Spans(a.value)) && (b.Some? ==> Spans(b.value)) && a != b
    requires a.Some? && b.Some? ==> a.value.role == b.value.role
    ensures FloorsIn(a, floors) != FloorsIn(b, floors)
  {
    if a == None || b == None {
      floors := None;
    } else {
      var t := Under(Under(Under(Under(0.0, Low(a)), Low(b)), High(a)), High(b));
      var v := DifferAbove(false, t, a, b);
      floors := Some(v);
    }
  }

  /** Below both. */
  function Under(t: real, end: Option<real>): real {
    if end.Some? && end.value <= t then end.value - 1.0 else t
  }

  function Negated(x: Option<real>): Option<real> {
    if x == None then None else Some(-x.value)
  }

  /** The scope with floors counted downwards. */
  function Mirrored(a: Option<Scope>): Option<Scope> {
    if a == None then None else Some(Scope(a.value.role, Negated(a.value.max), Negated(a.value.min)))
  }

  lemma MirroredIn(a: Option<Scope>, v: real)
    ensures FloorsIn(Mirrored(a), Some(-v)) == FloorsIn(a, Some(v))
    ensures a.Some? && Spans(a.value) ==> Spans(Mirrored(a).value)
  {
  }

  predicate BoundsAbove(op: Operator) {
    op == Lt || op == Le || op == Eq
  }

  predicate BoundsBelow(op: Operator) {
    op == Gt || op == Ge || op == Eq
  }

  /**
   * The scopes take in the same floors among those that break a bound on the number of floors
   * itself; the ends of the scopes decide it.
   */
  predicate SameBreaches(op: Operator, t: real, a: Option<Scope>, b: Option<Scope>) {
    && (BoundsAbove(op) ==> SameAbove(op == Lt, t, a, b))
    && (BoundsBelow(op) ==> SameAbove(op == Gt, -t, Mirrored(a), Mirrored(b)))
  }

  lemma BreachTellsApart(op: Operator, t: real, a: Option<Scope>, b: Option<Scope>) returns (v: real)
    requires (a.Some? ==> Spans(a.value)) && (b.Some? ==> Spans(b.value)) && !SameBreaches(op, t, a, b)
    ensures !Compare(op, v, t) && FloorsIn(a, Some(v)) != FloorsIn(b, Some(v))
  {
    if BoundsAbove(op) && !SameAbove(op == Lt, t, a, b) {
      v := DifferAbove(op == Lt, t, a, b);
    } else {
      MirroredIn(a, 0.0);
      MirroredIn(b, 0.0);
      var u := DifferAbove(op == Gt, -t, Mirrored(a), Mirrored(b));
      v := -u;
      MirroredIn(a, v);
      MirroredIn(b, v);
    }
  }

  lemma SameBreachesMeaning(op: Operator, t: real, a: Option<Scope>, b: Option<Scope>, v: real)
    requires SameBreaches(op, t, a, b) && !Compare(op, v, t)
    ensures FloorsIn(a, Some(v)) == FloorsIn(b, Some(v))
  {
    if BoundsAbove(op) && Above(op == Lt, t, v) {
      SameAboveMeaning(op == Lt, t, a, b, v);
    } else {
      SameAboveMeaning(op == Gt, -t, Mirrored(a), Mirrored(b), -v);
      MirroredIn(a, v);
      MirroredIn(b, v);
    }
  }

  // --- when one fingerprint means one thing ----------------------------------------------------------

  /**
   * Plans with one fingerprint look at the same attribute, and at the same buildings, or limit
   * the floors of buildings among which they find the same breaches.
   */
  predicate ChecksAlike(p: Plan, q: Plan) {
    && p.attribute == q.attribute
    && (p.scope == q.scope
        || (p.attribute == Some(Floors) && p.params.ObjectAttributeThreshold?
            && SameBreaches(p.params.operator, p.params.threshold, p.scope, q.scope)))
  }

  /** A value that meets a threshold, and one that does not. */
  lemma BothSides(op: Operator, t: real) returns (x: real, y: real)
    ensures Compare(op, x, t) && !Compare(op, y, t)
  {
    x := if op == Lt then t - 1.0 else if op == Gt then t + 1.0 else t;
    y := if op == Lt || op == Le then t + 1.0 else t - 1.0;
  }

  /** Something that breaks the parameters, whatever the number of floors. */
  lemma Breaks(p: Plan) returns (values: Attribute -> real, x: real)
    requires Shaped(p) && CheckedRole(p.params).Some? && p.attribute != Some(Floors)
    ensures forall floors :: !HouseMeets(p, floors, values, x, true)
  {
    values, x := (a: Attribute) => 0.0, 0.0;
    match p.params
    case PresenceWithin(d) => x := d + 1.0;
    case AccessibilityWithin(limit, speed, _) => x := Radius(limit, speed) + 1.0;
    case ObjectAttributeThreshold(op, t) =>
      var good, bad := BothSides(op, t);
      values := (a: Attribute) => bad;
    case _ =>
  }

  /** A territory that tells two plans with one fingerprint apart. */
  lemma TellsApart(p: Plan, q: Plan) returns (w: World)
    requires Shaped(p) && Shaped(q) && FingerprintOf(p) == FingerprintOf(q) && !ChecksAlike(p, q)
    ensures Satisfies(w, p) != Satisfies(w, q)
  {
    if p.attribute != q.attribute {
      w := OtherAttribute(p, q);
    } else if p.attribute == Some(Floors) {
      var v := BreachTellsApart(p.params.operator, p.params.threshold, p.scope, q.scope);
      var values := (a: Attribute) => 0.0;
      w := House(Some(v), values, 0.0, true);
      HouseComplies(p, Some(v), values, 0.0, true);
      HouseComplies(q, Some(v), values, 0.0, true);
      assert !HouseMeets(p, Some(v), values, 0.0, true) && !HouseMeets(q, Some(v), values, 0.0, true);
    } else {
      var floors := ScopesDiffer(p.scope, q.scope);
      var values, x := Breaks(p);
      w := House(floors, values, x, true);
      HouseComplies(p, floors, values, x, true);
      HouseComplies(q, floors, values, x, true);
      assert HouseMeets(q, floors, values, x, true) == HouseMeets(p, floors, values, x, true);
    }
  }

  lemma OtherAttribute(p: Plan, q: Plan) returns (w: World)
    requires Shaped(p) && Shaped(q) && FingerprintOf(p) == FingerprintOf(q) && p.attribute != q.attribute
    ensures !Satisfies(w, p) && Satisfies(w, q)
  {
    var good, bad := BothSides(p.params.operator, p.params.threshold);
    var floors := InSpan(p.scope);
    var mine := p.attribute.value;
    var values := (a: Attribute) => if a == mine then bad else good;
    w := House(Some(floors), values, 0.0, true);
    HouseComplies(p, Some(floors), values, 0.0, true);
    HouseComplies(q, Some(floors), values, 0.0, true);
  }

  /** Plans that check alike are complied with on the same territories. */
  lemma AlikeMeansSame(p: Plan, q: Plan, w: World)
    requires p.params == q.params && p.layers == q.layers && ChecksAlike(p, q)
    requires Shaped(p) && Shaped(q)
    ensures Satisfies(w, p) <==> Satisfies(w, q)
  {
    if p.scope == q.scope {
      SameMeaning(w, p, q);
    } else {
      forall o | w.attribute(Floors, o).Some? && !Compare(p.params.operator, w.attribute(Floors, o).value, p.params.threshold)
        ensures Seen(w, p, Objects, o) == Seen(w, q, Objects, o)
      {
        var v := w.attribute(Floors, o).value;
        SameBreachesMeaning(p.params.operator, p.params.threshold, p.scope, q.scope, v);
        SeenByFloors(w, p, o, v);
        SeenByFloors(w, q, o, v);
      }
    }
  }

  lemma SeenByFloors(w: World, p: Plan, o: int, v: real)
    requires Shaped(p) && p.params.ObjectAttributeThreshold? && w.attribute(Floors, o) == Some(v)
    ensures Seen(w, p, Objects, o) <==> o in w.objects(SideOf(p.layers, Objects).value) && FloorsIn(p.scope, Some(v))
  {
  }

  /** Compiled votes that agree check the same thing, when they check alike. */
  lemma AgreeingVotesCheckTheSame(s: NormSpec, t: NormSpec, ctx: Context, other: Context, p: Plan, q: Plan, w: World)
    requires Compile(s, ctx) == Compiled(p) && Compile(t, other) == Compiled(q)
    requires FingerprintOf(p) == FingerprintOf(q) && ChecksAlike(p, q)
    ensures Satisfies(w, p) <==> Satisfies(w, q)
  {
    CompiledIsShaped(s, ctx, p);
    CompiledIsShaped(t, other, q);
    OrderByRole(p.layers, q.layers);
    AlikeMeansSame(p, q, w);
  }

  /**
   * Compiled votes with one fingerprint, each read in its own quote, are complied with on the
   * same territories exactly when they check alike.
   */
  lemma FingerprintIdentifiesExactly(s: NormSpec, t: NormSpec, ctx: Context, other: Context, p: Plan, q: Plan)
    requires Compile(s, ctx) == Compiled(p) && Compile(t, other) == Compiled(q)
    requires FingerprintOf(p) == FingerprintOf(q)
    ensures (forall w: World :: Satisfies(w, p) <==> Satisfies(w, q)) <==> ChecksAlike(p, q)
  {
    if ChecksAlike(p, q) {
      forall w: World
        ensures Satisfies(w, p) <==> Satisfies(w, q)
      {
        AgreeingVotesCheckTheSame(s, t, ctx, other, p, q, w);
      }
    } else {
      CompiledIsShaped(s, ctx, p);
      CompiledIsShaped(t, other, q);
      var w := TellsApart(p, q);
    }
  }
}
