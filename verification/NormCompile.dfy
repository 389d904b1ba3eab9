/**
 * `SpecCompiler.compile`: readings of accessibility norms, quoted ranges, values stated for
 * some kinds of housing, and the loops of the compiler (src/pipeline/norm_spec.py).
 */
module NormCompile {
  import opened Wrappers
  import opened NormSpecs
  import opened Strictest
  import opened Exactness
  import opened Entailment

  // --- residential building types as one range of floors -------------------------------------

  /** Whole floors from `low` to `high`, or upwards without an end. */
  datatype Floored = Floored(low: int, high: Option<int>)

  predicate Covers(r: Floored, floor: int) {
    r.low <= floor && (r.high.Some? ==> floor <= r.high.value)
  }

  ghost predicate CoveredBy(ranges: seq<Floored>, floor: int) {
    exists k :: 0 <= k < |ranges| && Covers(ranges[k], floor)
  }

  /** Ranges with something in them, in the order of their lower ends. */
  ghost predicate Ordered(ranges: seq<Floored>) {
    && (forall k :: 0 <= k < |ranges| ==> Covers(ranges[k], ranges[k].low))
    && (forall j, k :: 0 <= j < k < |ranges| ==> ranges[j].low <= ranges[k].low)
  }

  /** The covered floors have no gap. */
  ghost predicate Contiguous(ranges: seq<Floored>) {
    forall f, g, h :: f <= g <= h && CoveredBy(ranges, f) && CoveredBy(ranges, h) ==> CoveredBy(ranges, g)
  }

  /** The first ranges of a list cover exactly the floors of `whole`. */
  ghost predicate Joined(ranges: seq<Floored>, whole: Floored) {
    forall f :: CoveredBy(ranges, f) <==> Covers(whole, f)
  }

  function Farther(a: Option<int>, b: Option<int>): Option<int> {
    if a == None || b == None then None else Some(if a.value < b.value then b.value else a.value)
  }

  /** The ranges as one range, or `None` if one starts beyond the floor after all before it. */
  function JoinFloors(ranges: seq<Floored>): Option<Floored>
    requires ranges != []
  {
    var n := |ranges| - 1;
    if n == 0 then Some(ranges[0])
    else
      var whole := JoinFloors(ranges[..n]);
      if whole == None || (whole.value.high.Some? && ranges[n].low > whole.value.high.value + 1) then None
      else Some(Floored(whole.value.low, Farther(whole.value.high, ranges[n].high)))
  }

  /**
   * `_housing_floors`: the building types as one range of floors. It is `None` exactly when
   * there is a gap between them, and otherwise covers exactly their floors.
   */
  method HousingFloors(ranges: seq<Floored>) returns (whole: Option<Floored>)
    requires ranges != [] && Ordered(ranges)
    ensures whole == JoinFloors(ranges)
    ensures whole.Some? <==> Contiguous(ranges)
    ensures whole.Some? ==> Joined(ranges, whole.value)
  {
    JoinIsExact(ranges);
    var low, high := ranges[0].low, ranges[0].high;
    assert ranges[..1] == [ranges[0]];
    for i := 1 to |ranges|
      invariant JoinFloors(ranges[..i]) == Some(Floored(low, high))
    {
      var start, end := ranges[i].low, ranges[i].high;
      assert ranges[..i + 1][..i] == ranges[..i];
      if high.Some? && start > high.value + 1 {
        assert JoinFloors(ranges[..i + 1]) == None;
        NoneStays(ranges, i + 1);
        return None;
      }
      high := if end == None || high == None then None else Some(if high.value < end.value then end.value else high.value);
    }
    assert ranges[..|ranges|] == ranges;
    whole := Some(Floored(low, high));
  }

  lemma {:induction false} NoneStays(ranges: seq<Floored>, i: nat)
    requires 0 < i <= |ranges| && JoinFloors(ranges[..i]) == None
    ensures JoinFloors(ranges) == None
  {
    if i == |ranges| {
      assert ranges[..i] == ranges;
    } else {
      assert ranges[..|ranges| - 1][..i] == ranges[..i];
      NoneStays(ranges[..|ranges| - 1], i);
    }
  }

  lemma {:induction false} JoinIsExact(ranges: seq<Floored>)
    requires ranges != [] && Ordered(ranges)
    ensures JoinFloors(ranges).Some? <==> Contiguous(ranges)
    ensures JoinFloors(ranges).Some? ==> Joined(ranges, JoinFloors(ranges).value) && JoinFloors(ranges).value.low == ranges[0].low
  {
    var n := |ranges| - 1;
    if n == 0 {
      FirstIsJoined(ranges[0]);
      assert ranges == [ranges[0]];
    } else {
      var init := ranges[..n];
      assert ranges == init + [ranges[n]];
      JoinIsExact(init);
      if JoinFloors(init) == None {
        GapStays(ranges, n);
      } else {
        var whole := JoinFloors(init).value;
        assert Covers(whole, whole.low) by {
          assert Covers(init[0], init[0].low);
          assert CoveredBy(init, whole.low);
        }
        if whole.high.Some? && ranges[n].low > whole.high.value + 1 {
          GapFound(ranges, n, whole);
        } else {
          RangeJoins(init, whole, ranges[n], JoinFloors(ranges).value);
        }
      }
    }
  }

  lemma JoinedIsContiguous(ranges: seq<Floored>, whole: Floored)
    requires Joined(ranges, whole)
    ensures Contiguous(ranges)
  {
  }

  /** A gap before the start of the next range is never filled: the ranges are in order. */
  lemma GapStays(ranges: seq<Floored>, n: nat)
    requires Ordered(ranges) && 0 < n < |ranges| && !Contiguous(ranges[..n])
    ensures !Contiguous(ranges)
  {
    var init := ranges[..n];
    var f, g, h :| f <= g <= h && CoveredBy(init, f) && CoveredBy(init, h) && !CoveredBy(init, g);
    KeptCovered(ranges, n, f);
    KeptCovered(ranges, n, h);
    var k :| 0 <= k < n && Covers(init[k], h);
    assert g < ranges[k].low <= ranges[n].low by {
      assert ranges[k].low > g;
    }
    forall j | 0 <= j < |ranges|
      ensures !Covers(ranges[j], g)
    {
      if j < n {
        assert init[j] == ranges[j];
      } else {
        assert ranges[n].low <= ranges[j].low;
      }
    }
    assert !CoveredBy(ranges, g);
  }

  lemma KeptCovered(ranges: seq<Floored>, n: nat, f: int)
    requires n <= |ranges| && CoveredBy(ranges[..n], f)
    ensures CoveredBy(ranges, f)
  {
    var k :| 0 <= k < n && Covers(ranges[..n][k], f);
    assert Covers(ranges[k], f);
  }

  lemma FirstIsJoined(r: Floored)
    ensures Joined([r], r)
  {
    forall f
      ensures CoveredBy([r], f) <==> Covers(r, f)
    {
      assert Covers(r, f) ==> Covers([r][0], f);
    }
  }

  lemma CoveredByMore(ranges: seq<Floored>, r: Floored, f: int)
    ensures CoveredBy(ranges + [r], f) <==> CoveredBy(ranges, f) || Covers(r, f)
  {
    var more := ranges + [r];
    if CoveredBy(ranges, f) {
      var k :| 0 <= k < |ranges| && Covers(ranges[k], f);
      assert Covers(more[k], f);
    }
    if Covers(r, f) {
      assert Covers(more[|ranges|], f);
    }
  }

  /** The next range touches what is joined so far. */
  lemma RangeJoins(ranges: seq<Floored>, whole: Floored, r: Floored, joined: Floored)
    requires Joined(ranges, whole) && Covers(r, r.low) && whole.low <= r.low
    requires whole.high.Some? ==> r.low <= whole.high.value + 1
    requires joined == Floored(whole.low, Farther(whole.high, r.high))
    ensures Joined(ranges + [r], joined) && Contiguous(ranges + [r])
  {
    forall f
      ensures CoveredBy(ranges + [r], f) <==> Covers(joined, f)
    {
      CoveredByMore(ranges, r, f);
    }
    JoinedIsContiguous(ranges + [r], joined);
  }

  lemma GapFound(ranges: seq<Floored>, i: nat, whole: Floored)
    requires Ordered(ranges) && 0 < i < |ranges| && Joined(ranges[..i], whole) && Covers(whole, whole.low)
    requires whole.high.Some? && ranges[i].low > whole.high.value + 1
    ensures !Contiguous(ranges)
  {
    var gap := whole.high.value + 1;
    assert !CoveredBy(ranges[..i], gap);
    forall k | 0 <= k < |ranges|
      ensures !Covers(ranges[k], gap)
    {
      if k < i {
        assert ranges[..i][k] == ranges[k];
      } else {
        assert k == i || ranges[i].low <= ranges[k].low;
      }
    }
    assert CoveredBy(ranges[..i], whole.low);
    var j :| 0 <= j < i && Covers(ranges[..i][j], whole.low);
    assert Covers(ranges[j], whole.low);
    assert CoveredBy(ranges, whole.low);
    assert Covers(ranges[i], ranges[i].low);
    assert CoveredBy(ranges, ranges[i].low);
    assert whole.low <= gap <= ranges[i].low && !CoveredBy(ranges, gap);
  }

  /** The floors a kind of housing can have. */
  function FloorsOf(h: Housing): Floored {
    match h
    case Individual => Floored(1, Some(3))
    case LowRise => Floored(1, Some(4))
    case MidRise => Floored(5, Some(8))
    case MultiStorey => Floored(9, None)
  }

  /** The ranges of the stated kinds, in ascending order. */
  function RangesOf(housing: set<Housing>): seq<Floored> {
    (if Individual in housing then [FloorsOf(Individual)] else [])
    + (if LowRise in housing then [FloorsOf(LowRise)] else [])
    + (if MidRise in housing then [FloorsOf(MidRise)] else [])
    + (if MultiStorey in housing then [FloorsOf(MultiStorey)] else [])
  }

  lemma RangesAreOrdered(housing: set<Housing>)
    ensures Ordered(RangesOf(housing))
    ensures forall f :: CoveredBy(RangesOf(housing), f) <==> exists h :: h in housing && Covers(FloorsOf(h), f)
  {
    forall f
      ensures CoveredBy(RangesOf(housing), f) <==> exists h :: h in housing && Covers(FloorsOf(h), f)
    {
      RangesCover(housing, f);
    }
  }

  lemma RangesCover(housing: set<Housing>, f: int)
    ensures CoveredBy(RangesOf(housing), f) <==> exists h :: h in housing && Covers(FloorsOf(h), f)
  {
    var ranges := RangesOf(housing);
    if h :| h in housing && Covers(FloorsOf(h), f) {
      var k := IndexOf(housing, h);
      assert Covers(ranges[k], f);
    }
    if k :| 0 <= k < |ranges| && Covers(ranges[k], f) {
      assert exists h :: h in housing && FloorsOf(h) == ranges[k];
    }
  }

  lemma IndexOf(housing: set<Housing>, h: Housing) returns (k: nat)
    requires h in housing
    ensures k < |RangesOf(housing)| && RangesOf(housing)[k] == FloorsOf(h)
  {
    var individual := if Individual in housing then 1 else 0;
    var low := individual + if LowRise in housing then 1 else 0;
    var mid := low + if MidRise in housing then 1 else 0;
    k := match h
      case Individual => 0
      case LowRise => individual
      case MidRise => low
      case MultiStorey => mid;
  }

  // --- a value stated for some kinds of housing ------------------------------------------------

  datatype Scoping = NotResidential | ScopeRefused(reason: string) | InScopeOf(plan: Plan)

  /** The role of the checked objects, for the templates that can have a scope. */
  function CheckedRole(p: Params): Option<Role> {
    match p
    case AccessibilityWithin(_, _, _) => Some(Objects)
    case PresenceWithin(_) => Some(Objects)
    case ObjectAttributeThreshold(_, _) => Some(Objects)
    case DistanceFromSource(_) => Some(Targets)
    case _ => None
  }

  predicate ChecksDwellings(p: Plan) {
    var role := CheckedRole(p.params);
    role.Some? && SideOf(p.layers, role.value).Some? && SideOf(p.layers, role.value).value.name == RESIDENTIAL_BUILDING.entity
  }

  function AsReal(n: Option<int>): Option<real> {
    if n == None then None else Some(n.value as real)
  }

  /** `_scoped`: the plan restricted to the buildings the value is stated for. */
  function Scoped(p: Plan, housing: set<Housing>): Scoping {
    if !ChecksDwellings(p) || RangesOf(housing) == [] then NotResidential
    else
      match JoinFloors(RangesOf(housing))
      case None => ScopeRefused("housing_scope_not_contiguous")
      case Some(floors) =>
        var min := if floors.low > 1 then Some(floors.low) else None;
        if min == None && floors.high == None then InScopeOf(p)
        else InScopeOf(p.(scope := Some(Scope(CheckedRole(p.params).value, AsReal(min), AsReal(floors.high)))))
  }

  /** Some building of these kinds has so many floors. */
  ghost predicate OfKinds(housing: set<Housing>, floors: int) {
    exists h :: h in housing && Covers(FloorsOf(h), floors)
  }

  /**
   * The scope of a plan takes in exactly the buildings of the stated kinds, among those with
   * a whole number of floors.
   */
  lemma ScopeIsHousing(p: Plan, housing: set<Housing>, q: Plan, w: World, o: int, floors: int)
    requires Scoped(p, housing) == InScopeOf(q) && p.scope == None
    requires floors >= 1 && w.attribute(Floors, o) == Some(floors as real)
    ensures q == p.(scope := q.scope)
    ensures (q.scope.Some? ==> InScope(w, q.scope.value, o)) <==> OfKinds(housing, floors)
  {
    var ranges := RangesOf(housing);
    HousingIsJoined(housing, floors);
    FloorsInScope(w, o, floors, JoinFloors(ranges).value, CheckedRole(p.params).value);
  }

  /** The joined range holds exactly the floors of the kinds of housing, from the first floor on. */
  lemma HousingIsJoined(housing: set<Housing>, floors: int)
    requires RangesOf(housing) != [] && JoinFloors(RangesOf(housing)).Some?
    ensures var whole := JoinFloors(RangesOf(housing)).value;
      (Covers(whole, floors) <==> OfKinds(housing, floors)) && whole.low >= 1
  {
    var ranges := RangesOf(housing);
    RangesAreOrdered(housing);
    JoinIsExact(ranges);
    assert CoveredBy(ranges, floors) <==> Covers(JoinFloors(ranges).value, floors);
  }

  lemma FloorsInScope(w: World, o: int, floors: int, whole: Floored, role: Role)
    requires w.attribute(Floors, o) == Some(floors as real) && floors >= 1 && whole.low >= 1
    ensures var min := if whole.low > 1 then Some(whole.low) else None;
      InScope(w, Scope(role, AsReal(min), AsReal(whole.high)), o) <==> Covers(whole, floors)
  {
  }

  /** Scoping refuses exactly when the kinds of housing leave a gap of floors between them. */
  lemma ScopeRefusedExactly(p: Plan, housing: set<Housing>)
    requires ChecksDwellings(p) && housing != {}
    ensures Scoped(p, housing).ScopeRefused? <==>
            exists f, g, h :: f <= g <= h && OfKinds(housing, f) && OfKinds(housing, h) && !OfKinds(housing, g)
  {
    var some :| some in housing;
    var at := IndexOf(housing, some);
    RangesAreOrdered(housing);
    JoinIsExact(RangesOf(housing));
    assert forall f :: CoveredBy(RangesOf(housing), f) <==> OfKinds(housing, f);
  }

  // --- readings ------------------------------------------------------------------------------------

  /** `_as_accessibility`: where the clause is about accessibility, lower bounds are read as upper ones. */
  function AsAccessibility(spec: NormSpec, ctx: Context): NormSpec {
    if !ctx.aboutAccessibility then spec
    else if spec.template == MinDistance && (IsResidence(spec.checked, ctx) || IsResidence(spec.other, ctx)) then
      spec.(template := Accessibility, operator := Some(Le))
    else if spec.template == Accessibility && (spec.operator == Some(Ge) || spec.operator == Some(Gt)) then
      spec.(operator := Some(Le))
    else spec
  }

  type Quoted = (real, real, Unit)

  function JustValue(value: real, unit: Option<Unit>): Variant {
    Variant(Some(value), unit, None, None, None, None, {})
  }

  /** The first quoted range that ends in the main value contributes its opposite end to the variants. */
  function AddRange(spec: NormSpec, ranges: seq<Quoted>): NormSpec
    requires spec.value.Some?
  {
    if ranges == [] then spec
    else
      var (low, high, _) := ranges[0];
      if !(low < high) || (spec.value.value != low && spec.value.value != high) then AddRange(spec, ranges[1..])
      else
        var other := if spec.value.value == low then high else low;
        if exists v :: v in spec.variants && v.value == Some(other) then spec
        else spec.(unconditional := false, variants := spec.variants + [JustValue(other, spec.unit)])
  }

  /** `_with_range_variant`. */
  function WithRange(spec: NormSpec, ctx: Context): NormSpec {
    if spec.template != MinDistance && !IsAccess(spec.template) then spec
    else if spec.value.Some? then AddRange(spec, ctx.ranges)
    else if ctx.ranges == [] then spec
    else
      var (low, high, unit) := ctx.ranges[0];
      AddRange(spec.(value := Some(if spec.template == MinDistance then high else low), unit := Some(unit)), ctx.ranges)
  }

  /** The variants that concern the buildings the main value is stated for. */
  function Concerning(variants: seq<Variant>, housing: set<Housing>): seq<Variant> {
    if variants == [] then []
    else
      var n := |variants| - 1;
      Concerning(variants[..n], housing) + (if variants[n].housing == {} || variants[n].housing * housing != {} then [variants[n]] else [])
  }

  /** A reading of one housing type is compiled for its buildings, when dwellings are checked. */
  function CompileReading(spec: NormSpec, ctx: Context): Compiled {
    if spec.housing == {} then CompileVariants(spec, spec.variants, ctx)
    else
      Narrowed(CompileVariants(spec, Concerning(spec.variants, spec.housing), ctx), spec.housing,
               CompileVariants(spec, spec.variants, ctx))
  }

  /** The plan of the variants that concern the buildings, for those; else that of all variants. */
  function Narrowed(inner: Compiled, housing: set<Housing>, whole: Compiled): Compiled {
    match inner
    case Refused(reasons) => Refused(reasons)
    case Compiled(plan) =>
      match Scoped(plan, housing)
      case InScopeOf(q) => Compiled(q)
      case ScopeRefused(reason) => Refused([reason])
      case NotResidential => whole
  }

  /** The reading that `compile` works on. */
  function ReadingOf(original: NormSpec, ctx: Context): NormSpec {
    WithRange(AsAccessibility(original, ctx), ctx)
  }

  /** `SpecCompiler.compile`. */
  function Compile(original: NormSpec, ctx: Context): Compiled {
    if !original.territorial then Refused(["rewrite_not_territorial"])
    else if original.template == NoTemplate then Refused(["rewrite_no_template"])
    else CompileReading(ReadingOf(original, ctx), ctx)
  }

  /** Between dwellings and something else, or stated as an accessibility. */
  predicate MeansAccess(spec: NormSpec, ctx: Context) {
    spec.template == Accessibility
    || (spec.template == MinDistance && (IsResidence(spec.checked, ctx) || IsResidence(spec.other, ctx)))
  }

  /**
   * In a clause about accessibility a distance or time from dwellings to something else is an
   * upper bound, whatever bound the reading takes it for; elsewhere a minimum distance stays
   * one, and an accessibility of at least so much is refused.
   */
  lemma AccessIsUpperBound(spec: NormSpec, ctx: Context)
    requires MeansAccess(spec, ctx)
    ensures ctx.aboutAccessibility && (spec.template == MinDistance || spec.operator in {Some(Ge), Some(Gt)}) ==>
              Compile(spec, ctx) == Compile(spec.(template := Accessibility, operator := Some(Le)), ctx)
    ensures !ctx.aboutAccessibility ==> ReadingOf(spec, ctx).template == spec.template && ReadingOf(spec, ctx).operator == spec.operator
  {
    if ctx.aboutAccessibility && (spec.template == MinDistance || spec.operator in {Some(Ge), Some(Gt)}) {
      var access := spec.(template := Accessibility, operator := Some(Le));
      assert AsAccessibility(spec, ctx) == access == AsAccessibility(access, ctx);
    } else if !ctx.aboutAccessibility {
      RangeKeepsTemplate(spec, ctx);
    }
  }

  lemma RangeKeepsTemplate(spec: NormSpec, ctx: Context)
    ensures WithRange(spec, ctx).template == spec.template && WithRange(spec, ctx).operator == spec.operator
  {
    if spec.value.Some? {
      AddRangeLists(spec, ctx.ranges);
    } else if ctx.ranges != [] {
      var (low, high, unit) := ctx.ranges[0];
      AddRangeLists(spec.(value := Some(if spec.template == MinDistance then high else low), unit := Some(unit)), ctx.ranges);
    }
  }

  /** What is not about accessibility, or not between dwellings, is read as it stands. */
  lemma OthersAreReadAsStated(spec: NormSpec, ctx: Context)
    requires !ctx.aboutAccessibility || !MeansAccess(spec, ctx)
    ensures AsAccessibility(spec, ctx) == spec
  {
  }

  /** The buildings of one kind, by their floors. */
  lemma KindsOfBuildings(p: Plan)
    requires ChecksDwellings(p)
    ensures var role := CheckedRole(p.params).value;
      && Scoped(p, {Individual}) == InScopeOf(p.(scope := Some(Scope(role, None, Some(3.0)))))
      && Scoped(p, {LowRise}) == InScopeOf(p.(scope := Some(Scope(role, None, Some(4.0)))))
      && Scoped(p, {MidRise}) == InScopeOf(p.(scope := Some(Scope(role, Some(5.0), Some(8.0)))))
      && Scoped(p, {MultiStorey}) == InScopeOf(p.(scope := Some(Scope(role, Some(9.0), None))))
  {
    ScopedToOne(p, Individual);
    ScopedToOne(p, LowRise);
    ScopedToOne(p, MidRise);
    ScopedToOne(p, MultiStorey);
    hide Scoped, ChecksDwellings, CheckedRole;
  }

  /** The buildings of one kind are those with its floors. */
  lemma ScopedToOne(p: Plan, h: Housing)
    requires ChecksDwellings(p)
    ensures var floors := FloorsOf(h);
      var scope := Scope(CheckedRole(p.params).value, if floors.low > 1 then AsReal(Some(floors.low)) else None, AsReal(floors.high));
      Scoped(p, {h}) == InScopeOf(p.(scope := Some(scope)))
  {
    hide ChecksDwellings, CheckedRole, RangesOf;
    RangesOfOne(h);
  }

  lemma RangesOfOne(h: Housing)
    ensures RangesOf({h}) == [FloorsOf(h)]
  {
    match h
    case Individual =>
    case LowRise =>
    case MidRise =>
    case MultiStorey =>
  }

  /** A plan says that it is the strictest variant exactly when the clause has conditions. */
  lemma MarkedIfConditional(original: NormSpec, ctx: Context, p: Plan)
    requires Compile(original, ctx) == Compiled(p)
    ensures p.strictest <==> !ReadingOf(original, ctx).unconditional
  {
    hide CompileVariants, ReadingOf, ChecksDwellings, RangesOf, JoinFloors, Concerning;
    var spec := ReadingOf(original, ctx);
    VariantsMarked(spec, spec.variants, ctx);
    VariantsMarked(spec, Concerning(spec.variants, spec.housing), ctx);
  }

  lemma VariantsMarked(spec: NormSpec, variants: seq<Variant>, ctx: Context)
    ensures var r := CompileVariants(spec, variants, ctx); r.Compiled? ==> (r.plan.strictest <==> !spec.unconditional)
  {
    hide CompileOne;
    NotMarkedAlone(spec, ctx);
  }

  lemma NotMarkedAlone(spec: NormSpec, ctx: Context)
    ensures CompileOne(spec, ctx).Compiled? ==> !CompileOne(spec, ctx).plan.strictest
  {
    hide EarlyReasons, ValueReasons, Dedup, Ground, LayersOf, Build, InRange;
  }

  // --- the loop of `_compile_variants` -----------------------------------------------------------------

  lemma {:induction false} CompileAllStep(candidates: seq<NormSpec>, i: nat, one: NormSpec -> Compiled)
    requires i < |candidates| && CompileAll(candidates[..i], one).CompiledAll?
    ensures match one(candidates[i])
      case Refused(reasons) => CompileAll(candidates, one) == RefusedOne(reasons)
      case Compiled(p) => CompileAll(candidates[..i + 1], one) == CompiledAll(CompileAll(candidates[..i], one).plans + [p])
  {
    if i == 0 {
      assert candidates[..1] == [candidates[0]];
      assert candidates[..1][1..] == [];
    } else {
      var rest := candidates[1..];
      assert candidates[..i][0] == candidates[0] && candidates[..i][1..] == rest[..i - 1];
      assert candidates[..i + 1][0] == candidates[0] && candidates[..i + 1][1..] == rest[..i];
      CompileAllStep(rest, i - 1, one);
    }
  }

  /** `_compile_variants`, with the compiler of single readings as a parameter. */
  method CompileCandidates(spec: NormSpec, variants: seq<Variant>, one: NormSpec -> Compiled) returns (result: Compiled)
    ensures result == KeepStrictest(spec, variants, one)
  {
    if spec.unconditional {
      return one(spec);
    }
    var candidates := Candidates(spec, variants);
    var plans: seq<Plan> := [];
    assert candidates[..0] == [];
    for i := 0 to |candidates|
      invariant CompileAll(candidates[..i], one) == CompiledAll(plans)
    {
      CompileAllStep(candidates, i, one);
      match one(candidates[i]) {
        case Refused(reasons) => return Refused(reasons);
        case Compiled(p) => plans := plans + [p];
      }
    }
    assert candidates[..|candidates|] == candidates;
    var best := FindStrictest(plans);
    if best == None {
      return Refused(["variants_not_comparable"]);
    }
    result := Compiled(TightestAccessibility(plans[best.value], plans).(strictest := true));
  }

  /** The index of the strictest plan, or `None` when the plans cannot be compared. */
  method FindStrictest(plans: seq<Plan>) returns (best: Option<nat>)
    requires plans != []
    ensures best.Some? <==> Comparable(plans)
    ensures best.Some? ==> best.value == Best(plans)
  {
    if Strictness(plans[0]) == None {
      return None;
    }
    var least := 0;
    assert plans[..1] == [plans[0]];
    for i := 1 to |plans|
      invariant least < i && Comparable(plans[..i]) && least == Best(plans[..i])
    {
      var key := Strictness(plans[i]);
      ComparableStep(plans, i);
      if key == None || key.value.0 != Strictness(plans[0]).value.0 {
        return None;
      }
      if key.value.1 < Strictness(plans[least]).value.1 {
        least := i;
      }
    }
    assert plans[..|plans|] == plans;
    best := Some(least);
  }

  lemma ComparableStep(plans: seq<Plan>, i: nat)
    requires 0 < i < |plans|
    ensures Comparable(plans[..i + 1]) <==>
            Comparable(plans[..i]) && Strictness(plans[i]).Some? && Strictness(plans[0]).Some? && Strictness(plans[i]).value.0 == Strictness(plans[0]).value.0
    ensures Comparable(plans[..i + 1]) ==>
              var b := Best(plans[..i]);
              Best(plans[..i + 1]) == if Strictness(plans[i]).value.1 < Strictness(plans[b]).value.1 then i else b
  {
    var init, more := plans[..i], plans[..i + 1];
    assert more[..i] == init && more[i] == plans[i];
    assert forall k :: 0 <= k < i ==> more[k] == init[k];
    if Comparable(more) {
      assert forall j, k :: 0 <= j < i && 0 <= k < i ==> Strictness(more[j]).value.0 == Strictness(more[k]).value.0;
      assert Comparable(init);
      assert Strictness(more[0]).value.0 == Strictness(more[i]).value.0;
    }
  }

  // --- what `compile` keeps ------------------------------------------------------------------------------

  /**
   * On the buildings of the stated kinds, the compiled plan of a conditional clause is exactly
   * the conjunction of the readings that concern them.
   */
  lemma ScopedIsConjunction(spec: NormSpec, variants: seq<Variant>, ctx: Context, plans: seq<Plan>, plan: Plan, q: Plan, w: World)
    requires Kept(spec, variants, ctx, plans, plan) && Scoped(plan, spec.housing) == InScopeOf(q)
    ensures Satisfies(w, q) <==> forall k :: 0 <= k < |plans| ==> Satisfies(w, plans[k].(scope := q.scope))
  {
    KeptSubjects(spec, variants, ctx, plans, plan);
    ScopingSetsScope(plan, spec.housing, q);
    ScopedBest(plans, plan, q.scope, w);
  }

  lemma KeptSubjects(spec: NormSpec, variants: seq<Variant>, ctx: Context, plans: seq<Plan>, plan: Plan)
    requires Kept(spec, variants, ctx, plans, plan)
    ensures Comparable(plans) && plans != [] && (forall i :: 0 <= i < |plans| ==> SameSubject(plans[0], plans[i]))
    ensures plan == TightestAccessibility(plans[Best(plans)], plans).(strictest := true) && plan.scope == None
  {
    KeptIsComparable(spec, variants, ctx, plans, plan);
    forall i: nat | i < |plans|
      ensures SameSubject(plans[0], plans[i])
    {
      CandidatesSameSubject(spec, variants, ctx, plans, i);
    }
    var c := CandidateOf(spec, variants, ctx, plans, 0);
    CompiledIsComplete(c, ctx, plans[0]);
    assert SameSubject(plans[0], plans[Best(plans)]);
  }

  lemma ScopingSetsScope(p: Plan, housing: set<Housing>, q: Plan)
    requires Scoped(p, housing) == InScopeOf(q) && p.scope == None
    ensures q == p.(scope := q.scope) && !p.params.ServiceProvision?
  {
  }

  lemma ScopedBest(plans: seq<Plan>, plan: Plan, scope: Option<Scope>, w: World)
    requires Comparable(plans) && plans != [] && (forall i :: 0 <= i < |plans| ==> SameSubject(plans[0], plans[i]))
    requires plan == TightestAccessibility(plans[Best(plans)], plans).(strictest := true) && !plan.params.ServiceProvision?
    ensures Satisfies(w, plan.(scope := scope)) <==> forall k :: 0 <= k < |plans| ==> Satisfies(w, plans[k].(scope := scope))
  {
    hide Satisfies;
    var best := plans[Best(plans)].(scope := scope);
    SameMeaning(w, plan.(scope := scope), best);
    if Satisfies(w, best) {
      forall k: nat | k < |plans|
        ensures Satisfies(w, plans[k].(scope := scope))
      {
        BestIsStrictest(plans, k);
        StricterImplies(w, best, plans[k].(scope := scope));
      }
    }
  }

  /** The variant is about buildings the plan may check. */
  predicate Concerns(v: Variant, spec: NormSpec, q: Plan) {
    spec.housing == {} || v.housing == {} || v.housing * spec.housing != {} || !ChecksDwellings(q)
  }

  /** The main reading of a clause, or one of its variants, when it concerns the buildings of the plan. */
  predicate ReadingFor(reading: NormSpec, spec: NormSpec, q: Plan) {
    reading == spec || exists v :: v in spec.variants && Concerns(v, spec, q) && reading == Overridden(spec, v)
  }

  /**
   * A compiled plan of a conditional clause is complied with only where the main reading and
   * every variant that concerns its buildings are, each compiled on its own and looked at on
   * the plan's scope; in a provision clause, when all state the accessibility in the same terms.
   */
  lemma CompiledCoversReadings(original: NormSpec, ctx: Context, q: Plan, w: World, reading: NormSpec)
    requires Compile(original, ctx) == Compiled(q) && Satisfies(w, q)
    requires var spec := ReadingOf(original, ctx);
      && !spec.unconditional && ReadingFor(reading, spec, q)
      && (spec.template == Provision ==> Sensible(w) && SameTerms(Candidates(spec, spec.variants), ctx))
    ensures exists r :: Reader(ctx)(reading) == Compiled(r) && Satisfies(w, r.(scope := q.scope))
  {
    var spec := ReadingOf(original, ctx);
    var concerning := Concerning(spec.variants, spec.housing);
    var inner := CompileVariants(spec, concerning, ctx);
    ReadingCases(spec, ctx, inner, q);
    if spec.housing != {} && Scoped(inner.plan, spec.housing).InScopeOf? {
      ScopedChecksDwellings(inner.plan, spec.housing, q);
      var k := ConcernedIndex(spec, q, reading);
      ScopedTemplate(spec, concerning, ctx, inner.plan, q);
      CandidateIsCovered(spec, concerning, ctx, inner.plan, q, w, k);
    } else {
      var k := CandidateIndex(spec, q, reading);
      CandidateIsCovered(spec, spec.variants, ctx, q, q, w, k);
    }
  }

  lemma CandidateIndex(spec: NormSpec, q: Plan, reading: NormSpec) returns (k: nat)
    requires ReadingFor(reading, spec, q)
    ensures k <= |spec.variants| && Candidates(spec, spec.variants)[k] == reading
  {
    if reading == spec {
      k := 0;
    } else {
      var v :| v in spec.variants && reading == Overridden(spec, v);
      var i :| 0 <= i < |spec.variants| && spec.variants[i] == v;
      k := i + 1;
    }
  }

  lemma ConcernedIndex(spec: NormSpec, q: Plan, reading: NormSpec) returns (k: nat)
    requires ReadingFor(reading, spec, q) && ChecksDwellings(q) && spec.housing != {}
    ensures var concerning := Concerning(spec.variants, spec.housing);
      k <= |concerning| && Candidates(spec, concerning)[k] == reading
  {
    var concerning := Concerning(spec.variants, spec.housing);
    if reading == spec {
      k := 0;
    } else {
      var v :| v in spec.variants && Concerns(v, spec, q) && reading == Overridden(spec, v);
      ConcerningKeeps(spec.variants, spec.housing, v);
      var i :| 0 <= i < |concerning| && concerning[i] == v;
      k := i + 1;
    }
  }

  lemma ProvisionKept(spec: NormSpec, variants: seq<Variant>, ctx: Context, plans: seq<Plan>, plan: Plan)
    requires Kept(spec, variants, ctx, plans, plan)
    ensures spec.template == Provision ==> plan.params.ServiceProvision?
  {
    KeptIsComparable(spec, variants, ctx, plans, plan);
    if spec.template == Provision {
      CompiledAccess(spec, variants, ctx, plans, Best(plans));
    }
  }

  /** A provision clause is never limited to some buildings. */
  lemma ScopedTemplate(spec: NormSpec, variants: seq<Variant>, ctx: Context, plan: Plan, q: Plan)
    requires CompileVariants(spec, variants, ctx) == Compiled(plan) && !spec.unconditional
    requires Scoped(plan, spec.housing) == InScopeOf(q)
    ensures spec.template != Provision
  {
    var plans := CompileAll(Candidates(spec, variants), Reader(ctx)).plans;
    KeptSubjects(spec, variants, ctx, plans, plan);
    ScopingSetsScope(plan, spec.housing, q);
    ProvisionKept(spec, variants, ctx, plans, plan);
  }

  /** Where a compiled plan comes from. */
  lemma ReadingCases(spec: NormSpec, ctx: Context, inner: Compiled, q: Plan)
    requires inner == CompileVariants(spec, Concerning(spec.variants, spec.housing), ctx) && CompileReading(spec, ctx) == Compiled(q)
    ensures spec.housing != {} ==> inner.Compiled?
    ensures if spec.housing != {} && Scoped(inner.plan, spec.housing).InScopeOf? then Scoped(inner.plan, spec.housing) == InScopeOf(q)
            else CompileVariants(spec, spec.variants, ctx) == Compiled(q)
  {
    if spec.housing != {} {
      NarrowedCases(inner, spec.housing, CompileVariants(spec, spec.variants, ctx), q);
    }
  }

  lemma NarrowedCases(inner: Compiled, housing: set<Housing>, whole: Compiled, q: Plan)
    requires Narrowed(inner, housing, whole) == Compiled(q)
    ensures inner.Compiled?
    ensures if Scoped(inner.plan, housing).InScopeOf? then Scoped(inner.plan, housing) == InScopeOf(q) else whole == Compiled(q)
  {
  }

  lemma ScopedChecksDwellings(p: Plan, housing: set<Housing>, q: Plan)
    requires Scoped(p, housing) == InScopeOf(q)
    ensures ChecksDwellings(q)
  {
  }

  lemma {:induction false} ConcerningKeeps(variants: seq<Variant>, housing: set<Housing>, v: Variant)
    ensures v in Concerning(variants, housing) <==> v in variants && (v.housing == {} || v.housing * housing != {})
  {
    if variants != [] {
      var n := |variants| - 1;
      ConcerningKeeps(variants[..n], housing, v);
      assert v in variants <==> v in variants[..n] || v == variants[n];
    }
  }

  lemma CandidateIsCovered(spec: NormSpec, variants: seq<Variant>, ctx: Context, plan: Plan, q: Plan, w: World, k: nat)
    requires CompileVariants(spec, variants, ctx) == Compiled(plan) && !spec.unconditional && k <= |variants|
    requires Satisfies(w, q) && (q == plan || (Scoped(plan, spec.housing) == InScopeOf(q) && spec.template != Provision))
    requires spec.template == Provision ==> Sensible(w) && SameTerms(Candidates(spec, variants), ctx)
    ensures exists r :: Reader(ctx)(Candidates(spec, variants)[k]) == Compiled(r) && Satisfies(w, r.(scope := q.scope))
  {
    var plans := CompileAll(Candidates(spec, variants), Reader(ctx)).plans;
    KeptSubjects(spec, variants, ctx, plans, plan);
    assert Reader(ctx)(Candidates(spec, variants)[k]) == Compiled(plans[k]);
    if spec.template == Provision {
      ProvisionConservativeExactly(spec, variants, ctx, plans, plan);
      assert SatisfiesAll(w, plans);
      CompiledAccess(spec, variants, ctx, plans, k);
      SameMeaning(w, plans[k], plans[k].(scope := q.scope));
    } else {
      NotProvision(spec, variants, ctx, plans, plan);
      if q != plan {
        ScopingSetsScope(plan, spec.housing, q);
      }
      assert q == plan.(scope := q.scope);
      ScopedBest(plans, plan, q.scope, w);
    }
  }

  lemma NotProvision(spec: NormSpec, variants: seq<Variant>, ctx: Context, plans: seq<Plan>, plan: Plan)
    requires Kept(spec, variants, ctx, plans, plan) && spec.template != Provision
    ensures !plan.params.ServiceProvision?
  {
    KeptIsComparable(spec, variants, ctx, plans, plan);
    var c := CandidateOf(spec, variants, ctx, plans, Best(plans));
    CompiledSubject(c, ctx, plans[Best(plans)]);
  }

  /** The same clause with the main value read as the other end of its range. */
  function WithValue(spec: NormSpec, value: real): NormSpec {
    spec.(value := Some(value))
  }

  /** The first quoted range that has the value as an end. */
  function RangeOf(ranges: seq<Quoted>, value: real): Option<(real, real)> {
    if ranges == [] then None
    else
      var (low, high, _) := ranges[0];
      if low < high && (value == low || value == high) then Some((low, high)) else RangeOf(ranges[1..], value)
  }

  /** The variant states its own value, and an end of the range only in the words of the main value. */
  predicate ApartFromRange(v: Variant, spec: NormSpec, low: real, high: real) {
    && v.value.Some?
    && (v.value.value == low || v.value.value == high ==>
          Overridden(spec, v) == WithValue(spec, v.value.value))
  }

  /**
   * Whichever end of a quoted range the reading states, the compiled plans ask the same of
   * every territory: when both ends belong to that range first, the clause is conditional or
   * states neither end as a variant, and the variants do not depend on the main value.
   */
  lemma RangeEndsAgree(spec: NormSpec, ctx: Context, low: real, high: real, p: Plan, q: Plan, w: World)
    requires IsAccess(spec.template) || spec.template == MinDistance
    requires RangeOf(ctx.ranges, low) == RangeOf(ctx.ranges, high) == Some((low, high))
    requires forall v :: v in spec.variants ==> ApartFromRange(v, spec, low, high)
    requires spec.unconditional ==> forall v :: v in spec.variants ==> v.value != Some(low) && v.value != Some(high)
    requires var s := WithRange(WithValue(spec, low), ctx); CompileVariants(s, s.variants, ctx) == Compiled(p)
    requires var s := WithRange(WithValue(spec, high), ctx); CompileVariants(s, s.variants, ctx) == Compiled(q)
    ensures Satisfies(w, p) <==> Satisfies(w, q)
  {
    hide CompileVariants, Satisfies, SatisfiesAll;
    var fromLow, fromHigh := WithRange(WithValue(spec, low), ctx), WithRange(WithValue(spec, high), ctx);
    RangeReading(spec, ctx.ranges, low, high, low, high);
    RangeReading(spec, ctx.ranges, low, high, high, low);
    var pl := ConjunctionOf(fromLow, ctx, p, w);
    var ph := ConjunctionOf(fromHigh, ctx, q, w);
    if Satisfies(w, p) {
      ReadingsImply(spec, ctx, low, high, fromLow, fromHigh, pl, ph, w);
    }
    if Satisfies(w, q) {
      ReadingsImply(spec, ctx, high, low, fromHigh, fromLow, ph, pl, w);
    }
  }

  /** The first quoted range read as a value: the farther end for a minimum, the nearer for an access. */
  function Filled(spec: NormSpec, range: Quoted): NormSpec {
    spec.(value := Some(if spec.template == MinDistance then range.1 else range.0), unit := Some(range.2))
  }

  /**
   * A distance or access norm without a value takes the quoted range: what is compiled asks at
   * least what the range's strict end, in the range's unit, would ask alone.
   */
  lemma UnstatedValueIsStrictEnd(spec: NormSpec, ctx: Context, p: Plan, w: World) returns (q: Plan)
    requires IsAccess(spec.template) || spec.template == MinDistance
    requires spec.value == None && ctx.ranges != []
    requires var s := WithRange(spec, ctx); CompileVariants(s, s.variants, ctx) == Compiled(p)
    ensures CompileOne(Filled(spec, ctx.ranges[0]), ctx) == Compiled(q)
    ensures Satisfies(w, p) ==> Satisfies(w, q)
  {
    hide CompileOne, Satisfies;
    var main, s := Filled(spec, ctx.ranges[0]), WithRange(spec, ctx);
    assert s == AddRange(main, ctx.ranges);
    AddRangeLists(main, ctx.ranges);
    ListedPlaysNoPart(main, s.variants, s.unconditional, ctx);
    if s.unconditional {
      q := p;
    } else {
      var plans := ConjunctionOf(s, ctx, p, w);
      assert Reader(ctx)(Candidates(s, s.variants)[0]) == CompileOne(s, ctx);
      q := plans[0];
    }
  }

  lemma {:induction false} AddRangeLists(spec: NormSpec, ranges: seq<Quoted>)
    requires spec.value.Some?
    ensures var s := AddRange(spec, ranges); s == spec.(variants := s.variants, unconditional := s.unconditional)
    decreases |ranges|
  {
    if ranges != [] {
      AddRangeLists(spec, ranges[1..]);
    }
  }

  /** Both ends of the range are among the readings, and otherwise the variants. */
  ghost predicate ReadsRange(s: NormSpec, spec: NormSpec, value: real, other: real) {
    && !s.unconditional && s == WithValue(spec, value).(unconditional := false, variants := s.variants)
    && (s.variants == spec.variants || s.variants == spec.variants + [JustValue(other, spec.unit)])
    && exists v :: v in s.variants && v.value == Some(other)
  }

  lemma {:induction false} RangeReading(spec: NormSpec, ranges: seq<Quoted>, low: real, high: real, value: real, other: real)
    requires RangeOf(ranges, value) == Some((low, high))
    requires (value == low && other == high) || (value == high && other == low)
    requires spec.unconditional ==> forall v :: v in spec.variants ==> v.value != Some(other)
    ensures ReadsRange(AddRange(WithValue(spec, value), ranges), spec, value, other)
  {
    var (l, h, _) := ranges[0];
    if l < h && (value == l || value == h) {
      var s := WithValue(spec, value);
      if exists v :: v in spec.variants && v.value == Some(other) {
        assert AddRange(s, ranges) == s;
      } else {
        var more := spec.variants + [JustValue(other, spec.unit)];
        assert more[|spec.variants|] in more;
      }
    } else {
      RangeReading(spec, ranges[1..], low, high, value, other);
    }
  }

  /** A conditional clause asks for what its readings ask. */
  lemma ConjunctionOf(spec: NormSpec, ctx: Context, p: Plan, w: World) returns (plans: seq<Plan>)
    requires !spec.unconditional && spec.template != Provision
    requires CompileVariants(spec, spec.variants, ctx) == Compiled(p)
    ensures CompileAll(Candidates(spec, spec.variants), Reader(ctx)) == CompiledAll(plans)
    ensures Satisfies(w, p) <==> SatisfiesAll(w, plans)
  {
    plans := CompileAll(Candidates(spec, spec.variants), Reader(ctx)).plans;
    KeptIsConjunction(spec, spec.variants, ctx, plans, p, w);
  }

  /** Two readings that differ in what is listed with them only. */
  predicate SameAlone(s: NormSpec, t: NormSpec) {
    s == t.(variants := s.variants, unconditional := s.unconditional)
  }

  /** Every reading with one end as the main value is a reading with the other end. */
  lemma OtherEndReads(spec: NormSpec, low: real, high: real, s: NormSpec, t: NormSpec, k: nat) returns (j: nat)
    requires ReadsRange(s, spec, low, high) && ReadsRange(t, spec, high, low) && k <= |t.variants|
    requires forall v :: v in spec.variants ==> ApartFromRange(v, spec, low, high)
    ensures j <= |s.variants| && SameAlone(Candidates(s, s.variants)[j], Candidates(t, t.variants)[k])
  {
    hide ReadsRange, SameAlone, ApartFromRange, Candidates;
    if k == 0 {
      j := EndRead(spec, low, high, s);
      MainRead(spec, high, low, t, Candidates(s, s.variants)[j]);
    } else {
      var i := k - 1;
      if i < |spec.variants| {
        SharedVariant(spec, low, high, s, t, i);
        j := i + 1;
      } else {
        AddedVariant(spec, low, high, s, t, i);
        j := 0;
      }
    }
  }

  lemma SharedVariant(spec: NormSpec, low: real, high: real, s: NormSpec, t: NormSpec, i: nat)
    requires ReadsRange(s, spec, low, high) && ReadsRange(t, spec, high, low) && i < |spec.variants|
    requires ApartFromRange(spec.variants[i], spec, low, high)
    ensures i < |s.variants| && i < |t.variants|
    ensures SameAlone(Candidates(s, s.variants)[i + 1], Candidates(t, t.variants)[i + 1])
  {
    assert t.variants[i] == spec.variants[i] == s.variants[i];
  }

  lemma AddedVariant(spec: NormSpec, low: real, high: real, s: NormSpec, t: NormSpec, i: nat)
    requires ReadsRange(s, spec, low, high) && ReadsRange(t, spec, high, low) && |spec.variants| <= i < |t.variants|
    ensures SameAlone(Candidates(s, s.variants)[0], Candidates(t, t.variants)[i + 1])
  {
    assert t.variants[i] == JustValue(low, spec.unit);
  }

  /** The other end is the value of some variant. */
  lemma EndRead(spec: NormSpec, low: real, high: real, s: NormSpec) returns (j: nat)
    requires ReadsRange(s, spec, low, high) && forall v :: v in spec.variants ==> ApartFromRange(v, spec, low, high)
    ensures j <= |s.variants| && SameAlone(Candidates(s, s.variants)[j], WithValue(spec, high))
  {
    var v :| v in s.variants && v.value == Some(high);
    var i :| 0 <= i < |s.variants| && s.variants[i] == v;
    EndVariant(spec, low, high, s, i);
    j := i + 1;
  }

  lemma MainRead(spec: NormSpec, high: real, low: real, t: NormSpec, c: NormSpec)
    requires ReadsRange(t, spec, high, low) && SameAlone(c, WithValue(spec, high))
    ensures SameAlone(c, Candidates(t, t.variants)[0])
  {
  }

  lemma EndVariant(spec: NormSpec, low: real, high: real, s: NormSpec, i: nat)
    requires ReadsRange(s, spec, low, high) && i < |s.variants| && s.variants[i].value == Some(high)
    requires forall v :: v in spec.variants ==> ApartFromRange(v, spec, low, high)
    ensures SameAlone(Candidates(s, s.variants)[i + 1], WithValue(spec, high))
  {
    if i < |spec.variants| {
      assert s.variants[i] == spec.variants[i] && spec.variants[i] in spec.variants;
    } else {
      assert s.variants[i] == JustValue(high, spec.unit);
    }
  }

  lemma ReadingsImply(
    spec: NormSpec, ctx: Context, low: real, high: real, s: NormSpec, t: NormSpec, ps: seq<Plan>, pt: seq<Plan>, w: World)
    requires ReadsRange(s, spec, low, high) && ReadsRange(t, spec, high, low)
    requires forall v :: v in spec.variants ==> ApartFromRange(v, spec, low, high)
    requires CompileAll(Candidates(s, s.variants), Reader(ctx)) == CompiledAll(ps)
    requires CompileAll(Candidates(t, t.variants), Reader(ctx)) == CompiledAll(pt)
    requires SatisfiesAll(w, ps)
    ensures SatisfiesAll(w, pt)
  {
    forall k: nat | k < |pt|
      ensures Satisfies(w, pt[k])
    {
      var j := OtherEndReads(spec, low, high, s, t, k);
      var cs, ct := Candidates(s, s.variants), Candidates(t, t.variants);
      assert Reader(ctx)(cs[j]) == Compiled(ps[j]) && Reader(ctx)(ct[k]) == Compiled(pt[k]);
      ListedPlaysNoPart(ct[k], cs[j].variants, cs[j].unconditional, ctx);
      assert ps[j] == pt[k];
    }
  }

  /** A reading compiles by its own values; what is listed with it plays no part. */
  lemma ListedPlaysNoPart(spec: NormSpec, variants: seq<Variant>, unconditional: bool, ctx: Context)
    ensures CompileOne(spec.(variants := variants, unconditional := unconditional), ctx) == CompileOne(spec, ctx)
  {
    hide EarlyReasons, ValueReasons, Build, Ground, AccessMode, ProvisionUnit, InRange, LayersOf, Dedup;
    var (c, o) := Sides(spec.template, spec.checked, spec.other, ctx);
    ReasonsIgnoreListed(spec, variants, unconditional, c, o, ctx);
    var checked := if spec.template == Provision then None else Ground(c, ctx);
    var other := if spec.template == AttributeLimit then None else Ground(o, ctx);
    ReadsIgnoreListed(spec, variants, unconditional, checked, other, ctx);
    if Prepared(spec, checked, other) {
      BuildIgnoresListed(spec, variants, unconditional, checked, other, ProvisionUnit(spec, ctx), AccessMode(spec, ctx), ctx);
    }
  }

  lemma ReadsIgnoreListed(
    spec: NormSpec, variants: seq<Variant>, unconditional: bool, checked: Option<Side>, other: Option<Side>, ctx: Context)
    ensures var t := spec.(variants := variants, unconditional := unconditional);
      && AccessMode(t, ctx) == AccessMode(spec, ctx) && ProvisionUnit(t, ctx) == ProvisionUnit(spec, ctx)
      && (Prepared(t, checked, other) <==> Prepared(spec, checked, other))
  {
  }

  lemma ReasonsIgnoreListed(
    spec: NormSpec, variants: seq<Variant>, unconditional: bool, checked: Option<SpecEntity>, other: Option<SpecEntity>, ctx: Context)
    ensures EarlyReasons(spec.(variants := variants, unconditional := unconditional), checked, other, ctx) == EarlyReasons(spec, checked, other, ctx)
    ensures ValueReasons(spec.(variants := variants, unconditional := unconditional), ctx) == ValueReasons(spec, ctx)
  {
  }

  lemma BuildIgnoresListed(
    spec: NormSpec, variants: seq<Variant>, unconditional: bool, checked: Option<Side>, other: Option<Side>, unit: Unit, mode: Option<Mode>, ctx: Context)
    requires Prepared(spec, checked, other)
    ensures Build(spec.(variants := variants, unconditional := unconditional), checked, other, unit, mode, ctx) == Build(spec, checked, other, unit, mode, ctx)
  {
    var t := spec.(variants := variants, unconditional := unconditional);
    match spec.template
    case Provision =>
      assert Capacity(t, unit, spec.value.value) == Capacity(spec, unit, spec.value.value);
      assert t.accessValue == spec.accessValue && t.accessUnit == spec.accessUnit;
      assert ProvisionAccess(t, mode, ctx) == ProvisionAccess(spec, mode, ctx);
    case AttributeLimit => assert AttributeRefusal(t, unit, spec.value.value) == AttributeRefusal(spec, unit, spec.value.value);
    case ZoneAttributeLimit => assert AttributeRefusal(t, unit, spec.value.value) == AttributeRefusal(spec, unit, spec.value.value);
    case _ =>
  }
}
