/**
 * The rotating concentric-circle motif: the closed-form rules that derive each
 * ring and each trail from its layer index, the nested loop that enumerates
 * the trails, the angle and arc-flag logic that redraws a trail for a given
 * progress, and the guards of the effect that builds the animation.
 *
 * The endpoints of a trail (`cos`/`sin` of its two angles) are not computed:
 * an arc is described by its radius, its flags and its two angles.
 */
module ConcentricCircles {
  import opened Wrappers
  import opened RandomSource

  const TotalLayers: nat := 8
  const BaseRadius: nat := 20
  const RadiusIncrement: nat := 15
  const CenterCircleRadius: nat := 8
  const SvgCenter: nat := 200
  /** The side of the square `viewBox="0 0 400 400"`. */
  const ViewBoxSize: nat := 400
  /** Every trail path is drawn with `stroke-width="8"`. */
  const StrokeWidth: nat := 8
  /** The angular length of a trail, in radians. */
  const TrailArcWidth: real := 1.5
  /** `Math.PI`: the exact value of the double nearest to pi. */
  const MathPi: real := 3.141592653589793115997963468544185161590576171875
  /** Speed and direction every trail uses while the transition sweep runs. */
  const SweepSpeed: real := 2.0
  const SweepDirection: int := 1

  // ---------------------------------------------------------------------------
  // Per-layer rules

  /** The radius of ring `layer`: the innermost ring has radius 20, each further ring is 15 wider. */
  function Radius(layer: nat): (r: nat)
    ensures r >= BaseRadius
    ensures layer < TotalLayers ==> r <= BaseRadius + (TotalLayers - 1) * RadiusIncrement == 125
  {
    BaseRadius + layer * RadiusIncrement
  }

  /** `getTrailCount`: the number of trails on ring `layer`. */
  function TrailCount(layer: nat): (n: nat)
    ensures n >= 2
    ensures layer + 1 <= n <= layer + 2
    ensures n == layer + 2 <==> layer <= 2
  {
    if layer <= 2 then 2 + layer else 1 + layer
  }

  /** The direction half of `getLayerProperties`: +1 on even rings, -1 on odd rings. */
  function Direction(layer: nat): (d: int)
    ensures d == 1 || d == -1
    ensures d == 1 <==> layer % 2 == 0
  {
    if layer % 2 == 0 then 1 else -1
  }

  /** The speed half of `getLayerProperties`: `1 + (totalLayers - layer) * 0.2`. */
  function SpeedMultiplier(layer: nat): (s: real)
    ensures layer < TotalLayers ==> 1.0 < s <= 2.6
    ensures layer == 0 ==> s == 2.6
    ensures layer == TotalLayers - 1 ==> s == 1.2
  {
    1.0 + (TotalLayers - layer) as real * 0.2
  }

  /** `startOffset = i * 0.1 + j * (1 / dotsCount)`, over the reals. */
  function StartOffset(layer: nat, trail: nat, count: nat): (o: real)
    requires trail < count
    ensures layer as real / 10.0 <= o < layer as real / 10.0 + 1.0
  {
    layer as real * 0.1 + trail as real * (1.0 / count as real)
  }

  /** Inner rings rotate faster: the speed multiplier strictly decreases with the layer index. */
  lemma SpeedDecreasesOutward(i: nat, j: nat)
    requires i < j
    ensures SpeedMultiplier(j) < SpeedMultiplier(i)
  {
  }

  /** Rings grow strictly outward. */
  lemma RadiusStrictlyIncreasing(i: nat, j: nat)
    requires i < j
    ensures Radius(i) < Radius(j)
  {
  }

  /** Outer rings never carry fewer trails: the count is non-decreasing (and not strictly). */
  lemma TrailCountMonotone(i: nat, j: nat)
    requires i <= j
    ensures TrailCount(i) <= TrailCount(j)
    ensures TrailCount(2) == TrailCount(3) == 4
  {
  }

  /** Neighbouring rings rotate in opposite directions. */
  lemma NeighbouringRingsCounterRotate(layer: nat)
    ensures Direction(layer + 1) == -Direction(layer)
  {
  }

  /**
   * The drawn rings fit: every ring, with its stroke, lies inside the 400x400
   * view box centred at 200, clears the centre dot, and two neighbouring
   * rings' strokes never touch.
   */
  lemma RingsFitAndSeparate(layer: nat)
    requires layer < TotalLayers
    ensures SvgCenter - Radius(layer) - StrokeWidth / 2 > 0
    ensures SvgCenter + Radius(layer) + StrokeWidth / 2 < ViewBoxSize
    ensures Radius(layer) - StrokeWidth / 2 > CenterCircleRadius
    ensures layer + 1 < TotalLayers ==>
      Radius(layer) + StrokeWidth / 2 < Radius(layer + 1) - StrokeWidth / 2
  {
  }

  // ---------------------------------------------------------------------------
  // Colours

  const Whites: seq<string> := ["#F8FAFC", "#F1F5F9", "#E2E8F0"]
  const Blues: seq<string> := ["#DBEAFE", "#93C5FD", "#3B82F6", "#1D4ED8"]
  const Purples: seq<string> := ["#F3E8FF", "#C084FC", "#7E22CE", "#581C87"]
  const Indigos: seq<string> := ["#EEF2FF", "#818CF8", "#4F46E5", "#3730A3"]

  /** The pool of the near stop: all whites and the first two blues. */
  function NearPool(): (p: seq<string>)
    ensures |p| == 5
  {
    Whites + Blues[..2]
  }

  /** The pool of the middle stop: the last three blues and the last three purples. */
  function MiddlePool(): (p: seq<string>)
    ensures |p| == 6
  {
    Blues[1..] + Purples[1..]
  }

  /** The pool of the far stop: the last two purples and the last two indigos. */
  function FarPool(): (p: seq<string>)
    ensures |p| == 4
  {
    Purples[2..] + Indigos[2..]
  }

  datatype ColorSet = ColorSet(near: string, middle: string, far: string)

  /** The three `Math.random()` draws of one call of `getRandomColorSet`. */
  datatype ColorRoll = ColorRoll(near: real, middle: real, far: real)

  predicate IsColorRoll(roll: ColorRoll) {
    IsRoll(roll.near) && IsRoll(roll.middle) && IsRoll(roll.far)
  }

  predicate AreColorRolls(rolls: seq<ColorRoll>) {
    forall k :: 0 <= k < |rolls| ==> IsColorRoll(rolls[k])
  }

  /** `getRandomColorSet`: each colour is drawn from its own pool. */
  function RandomColorSet(roll: ColorRoll): (c: ColorSet)
    requires IsColorRoll(roll)
    ensures c.near in NearPool()
    ensures c.middle in MiddlePool()
    ensures c.far in FarPool()
  {
    ColorSet(NearPool()[PickIndex(roll.near, |NearPool()|)],
             MiddlePool()[PickIndex(roll.middle, |MiddlePool()|)],
             FarPool()[PickIndex(roll.far, |FarPool()|)])
  }

  /** One `<stop>` of a trail's linear gradient. */
  datatype Stop = Stop(offsetPercent: nat, color: string, opacity: real)

  /** The four gradient stops written for a trail with colours `c`. */
  function GradientStops(c: ColorSet): (stops: seq<Stop>)
    ensures |stops| == 4
    ensures stops[0].offsetPercent == 0 && stops[3].offsetPercent == 100
    ensures forall k :: 0 < k < |stops| ==>
      stops[k - 1].offsetPercent < stops[k].offsetPercent && stops[k].opacity < stops[k - 1].opacity
    ensures stops[0].color == c.near && stops[1].color == c.middle
    ensures stops[2].color == c.far && stops[3].color == c.far
  {
    [Stop(0, c.near, 1.0), Stop(85, c.middle, 0.9), Stop(95, c.far, 0.8), Stop(100, c.far, 0.7)]
  }

  // ---------------------------------------------------------------------------
  // Trails and their enumeration

  /** One trail: its ring, its index on the ring and the parameters fixed when it is built. */
  datatype Trail = Trail(layer: nat, index: nat, radius: nat, count: nat, direction: int,
                         speed: real, startOffset: real, colors: ColorSet)

  /** The trail the inner loop builds for layer `layer`, index `index`, from one colour roll. */
  function MakeTrail(layer: nat, index: nat, roll: ColorRoll): Trail
    requires index < TrailCount(layer) && IsColorRoll(roll)
  {
    Trail(layer, index, Radius(layer), TrailCount(layer), Direction(layer),
          SpeedMultiplier(layer), StartOffset(layer, index, TrailCount(layer)), RandomColorSet(roll))
  }

  /**
   * What a built trail promises: a valid pair of its ring, on a ring inside
   * the drawing, turning one way or the other, starting within its ring's
   * band of offsets, coloured from the three pools.
   */
  lemma BuiltTrailIsWellFormed(layer: nat, index: nat, roll: ColorRoll)
    requires index < TrailCount(layer) && IsColorRoll(roll)
    ensures var t := MakeTrail(layer, index, roll);
      && t.layer == layer && t.index == index && t.index < t.count
      && (layer < TotalLayers ==> BaseRadius <= t.radius <= 125 && 1.0 < t.speed <= 2.6)
      && layer as real / 10.0 <= t.startOffset < layer as real / 10.0 + 1.0
      && (t.direction == 1 || t.direction == -1)
      && t.colors.near in NearPool() && t.colors.middle in MiddlePool() && t.colors.far in FarPool()
  {
  }

  /** The number of trails on the rings below `layer`: the position of that ring's first trail. */
  function TrailsBefore(layer: nat): nat
  {
    if layer == 0 then 0 else TrailsBefore(layer - 1) + TrailCount(layer - 1)
  }

  /** Every ring below `layer` carries at least two trails. */
  lemma {:induction false} TrailsBeforeAtLeast(layer: nat)
    ensures TrailsBefore(layer) >= 2 * layer
  {
    if layer > 0 {
      TrailsBeforeAtLeast(layer - 1);
    }
  }

  /** From the fourth ring on, the trails below ring `n` number n(n+1)/2 + 3. */
  lemma {:induction false} TrailsBeforeClosedForm(n: nat)
    requires n >= 3
    ensures TrailsBefore(n) == n * (n + 1) / 2 + 3
  {
    if n == 3 {
      assert TrailsBefore(3) == TrailsBefore(2) + 4;
      assert TrailsBefore(2) == TrailsBefore(1) + 3;
      assert TrailsBefore(1) == TrailsBefore(0) + 2;
    } else {
      TrailsBeforeClosedForm(n - 1);
    }
  }

  /** The eight rings carry 39 trails in all. */
  lemma TotalTrailCount()
    ensures TrailsBefore(TotalLayers) == 39
  {
    TrailsBeforeClosedForm(TotalLayers);
  }

  /** A later ring starts after every trail of an earlier one. */
  lemma {:induction false} TrailsBeforeMonotone(i: nat, j: nat)
    requires i < j
    ensures TrailsBefore(i) + TrailCount(i) <= TrailsBefore(j)
    decreases j
  {
    if i + 1 < j {
      TrailsBeforeMonotone(i, j - 1);
    }
  }

  /** The trails of ring `layer`, in the order the inner loop builds them. */
  function LayerTrails(layer: nat, rolls: seq<ColorRoll>): (ts: seq<Trail>)
    requires |rolls| >= TrailsBefore(layer + 1) && AreColorRolls(rolls)
    ensures |ts| == TrailCount(layer)
  {
    seq(TrailCount(layer), j requires 0 <= j < TrailCount(layer) =>
      MakeTrail(layer, j, rolls[TrailsBefore(layer) + j]))
  }

  /** The trails of the rings below `n`, in the order the nested loop builds them. */
  function TrailsUpTo(n: nat, rolls: seq<ColorRoll>): (ts: seq<Trail>)
    requires |rolls| >= TrailsBefore(n) && AreColorRolls(rolls)
    ensures |ts| == TrailsBefore(n)
  {
    if n == 0 then [] else TrailsUpTo(n - 1, rolls) + LayerTrails(n - 1, rolls)
  }

  /** Position `k` of the trails below ring `n` lies either below ring `n - 1` or on ring `n - 1`. */
  lemma UpToIndex(n: nat, rolls: seq<ColorRoll>, k: nat)
    requires n > 0 && |rolls| >= TrailsBefore(n) && AreColorRolls(rolls)
    requires k < TrailsBefore(n)
    ensures TrailsBefore(n) == TrailsBefore(n - 1) + TrailCount(n - 1)
    ensures k < TrailsBefore(n - 1) ==> TrailsUpTo(n, rolls)[k] == TrailsUpTo(n - 1, rolls)[k]
    ensures k >= TrailsBefore(n - 1) ==>
      TrailsUpTo(n, rolls)[k] == MakeTrail(n - 1, k - TrailsBefore(n - 1), rolls[k])
  {
  }

  /**
   * Every (layer, index) pair with `layer < n` and `index < TrailCount(layer)`
   * is built, at position `TrailsBefore(layer) + index`, with the colour roll
   * drawn at that position.
   */
  lemma {:induction false} TrailAt(n: nat, rolls: seq<ColorRoll>, layer: nat, index: nat)
    requires |rolls| >= TrailsBefore(n) && AreColorRolls(rolls)
    requires layer < n && index < TrailCount(layer)
    ensures TrailsBefore(layer) + index < TrailsBefore(n)
    ensures TrailsUpTo(n, rolls)[TrailsBefore(layer) + index]
      == MakeTrail(layer, index, rolls[TrailsBefore(layer) + index])
  {
    var k := TrailsBefore(layer) + index;
    if layer < n - 1 {
      TrailsBeforeMonotone(layer, n - 1);
      TrailAt(n - 1, rolls, layer, index);
    }
    UpToIndex(n, rolls, k);
  }

  /**
   * Conversely, the trail at any position is a valid pair of a ring below `n`,
   * and its position is determined by that pair: the enumeration builds each
   * pair exactly once.
   */
  lemma {:induction false} TrailPosition(n: nat, rolls: seq<ColorRoll>, k: nat)
    requires |rolls| >= TrailsBefore(n) && AreColorRolls(rolls)
    requires k < TrailsBefore(n)
    ensures TrailsUpTo(n, rolls)[k].layer < n
    ensures TrailsUpTo(n, rolls)[k].index < TrailCount(TrailsUpTo(n, rolls)[k].layer)
    ensures k == TrailsBefore(TrailsUpTo(n, rolls)[k].layer) + TrailsUpTo(n, rolls)[k].index
    ensures TrailsUpTo(n, rolls)[k]
      == MakeTrail(TrailsUpTo(n, rolls)[k].layer, TrailsUpTo(n, rolls)[k].index, rolls[k])
  {
    UpToIndex(n, rolls, k);
    if k < TrailsBefore(n - 1) {
      TrailPosition(n - 1, rolls, k);
    }
  }

  /** Every trail built for the rings below `n` is a valid (ring, index) pair of that ring. */
  lemma BuiltTrailsArePairs(n: nat, rolls: seq<ColorRoll>)
    requires |rolls| >= TrailsBefore(n) && AreColorRolls(rolls)
    ensures forall k :: 0 <= k < |TrailsUpTo(n, rolls)| ==>
      TrailsUpTo(n, rolls)[k].layer < n &&
      TrailsUpTo(n, rolls)[k].index < TrailsUpTo(n, rolls)[k].count == TrailCount(TrailsUpTo(n, rolls)[k].layer)
  {
    forall k | 0 <= k < |TrailsUpTo(n, rolls)|
      ensures TrailsUpTo(n, rolls)[k].layer < n &&
        TrailsUpTo(n, rolls)[k].index < TrailsUpTo(n, rolls)[k].count == TrailCount(TrailsUpTo(n, rolls)[k].layer)
    {
      TrailPosition(n, rolls, k);
    }
  }

  /** The inner loop's step: the next trail of ring `layer` extends the built prefix of that ring. */
  lemma LayerPrefixGrows(layer: nat, j: nat, rolls: seq<ColorRoll>)
    requires |rolls| >= TrailsBefore(layer + 1) && AreColorRolls(rolls)
    requires j < TrailCount(layer)
    ensures LayerTrails(layer, rolls)[..j + 1]
      == LayerTrails(layer, rolls)[..j] + [MakeTrail(layer, j, rolls[TrailsBefore(layer) + j])]
  {
  }

  /**
   * The nested loop over rings and trails. It builds exactly the trails of
   * `TrailsUpTo(TotalLayers, rolls)`, 39 of them, consuming one colour roll
   * per trail in loop order.
   */
  method BuildTrails(rolls: seq<ColorRoll>) returns (trails: seq<Trail>)
    requires |rolls| >= 39 && AreColorRolls(rolls)
    ensures |trails| == 39
    ensures trails == TrailsUpTo(TotalLayers, rolls)
    ensures forall k :: 0 <= k < |trails| ==>
      trails[k].layer < TotalLayers && trails[k].index < trails[k].count == TrailCount(trails[k].layer)
  {
    TotalTrailCount();
    trails := [];
    var i := 0;
    while i < TotalLayers
      invariant 0 <= i <= TotalLayers
      invariant trails == TrailsUpTo(i, rolls)
    {
      TrailsBeforeMonotoneUpTo(i + 1, TotalLayers);
      var radius := Radius(i);
      var dotsCount := TrailCount(i);
      var direction, speedMultiplier := Direction(i), SpeedMultiplier(i);
      var j := 0;
      while j < dotsCount
        invariant 0 <= j <= dotsCount
        invariant |trails| == TrailsBefore(i) + j
        invariant trails == TrailsUpTo(i, rolls) + LayerTrails(i, rolls)[..j]
      {
        var colors := RandomColorSet(rolls[|trails|]);
        var startOffset := StartOffset(i, j, dotsCount);
        var trail := Trail(i, j, radius, dotsCount, direction, speedMultiplier, startOffset, colors);
        LayerPrefixGrows(i, j, rolls);
        trails := trails + [trail];
        j := j + 1;
      }
      assert LayerTrails(i, rolls)[..j] == LayerTrails(i, rolls);
      i := i + 1;
    }
    BuiltTrailsArePairs(TotalLayers, rolls);
  }

  /** `TrailsBefore` never decreases. */
  lemma {:induction false} TrailsBeforeMonotoneUpTo(i: nat, j: nat)
    requires i <= j
    ensures TrailsBefore(i) <= TrailsBefore(j)
  {
    if i < j {
      TrailsBeforeMonotone(i, j);
    }
  }

  // ---------------------------------------------------------------------------
  // Redrawing a trail (`updatePath`)

  /** The angle of a trail's head: `(startOffset + progress * speed) * PI * 2 * direction`. */
  function HeadAngle(startOffset: real, progress: real, speed: real, direction: int): real
  {
    (startOffset + progress * speed) * MathPi * 2.0 * direction as real
  }

  /**
   * For a non-negative offset, progress and speed, the head is on the
   * positive side when the direction is 1 and on the negative side when it
   * is -1.
   */
  lemma HeadAngleSign(startOffset: real, progress: real, speed: real, direction: int)
    requires startOffset >= 0.0 && progress >= 0.0 && speed >= 0.0
    ensures direction == 1 ==> HeadAngle(startOffset, progress, speed, direction) >= 0.0
    ensures direction == -1 ==> HeadAngle(startOffset, progress, speed, direction) <= 0.0
  {
    var turns := startOffset + progress * speed;
    assert turns * MathPi * 2.0 >= 0.0;
    if direction == 1 || direction == -1 {
      DirectionApplied(turns * MathPi * 2.0, direction);
    }
  }

  /**
   * An SVG elliptical-arc command `A radius radius 0 largeArc sweep`, with
   * the angles of its start and end points in place of their coordinates.
   */
  datatype Arc = Arc(radius: nat, largeArc: nat, sweep: nat, startAngle: real, endAngle: real)

  /**
   * `updatePath(progress)` for a trail. The span between the two angles is
   * always 1.5 radians, less than pi, so the large-arc flag is always 0; the
   * sweep flag is written as the constant 1.
   */
  function UpdatePath(t: Trail, isTransitioning: bool, progress: real): (a: Arc)
    ensures a.radius == t.radius
    ensures a.endAngle - a.startAngle == TrailArcWidth
    ensures a.largeArc == 0 && a.sweep == 1
    ensures isTransitioning ==> a.endAngle == (t.startOffset + progress * SweepSpeed) * MathPi * 2.0
    ensures !isTransitioning ==> a.endAngle == HeadAngle(t.startOffset, progress, t.speed, t.direction)
  {
    var currentSpeedMultiplier := if isTransitioning then SweepSpeed else t.speed;
    var currentDirection := if isTransitioning then SweepDirection else t.direction;
    var currentAngle := HeadAngle(t.startOffset, progress, currentSpeedMultiplier, currentDirection);
    var trailStartAngle := currentAngle - TrailArcWidth;
    var largeArc := if currentAngle - trailStartAngle > MathPi then 1 else 0;
    Arc(t.radius, largeArc, 1, trailStartAngle, currentAngle)
  }

  /** Scaling by a positive factor keeps a strict order. */
  lemma ScalingKeepsOrder(x: real, y: real, k: real)
    requires x < y && k > 0.0
    ensures x * k < y * k
  {
  }

  /** More progress at a positive speed is more turns. */
  lemma TurnsGrow(startOffset: real, speed: real, p: real, q: real)
    requires speed > 0.0 && p < q
    ensures startOffset + p * speed < startOffset + q * speed
  {
    ScalingKeepsOrder(p, q, speed);
  }

  /** More turns is a larger angle. */
  lemma AngleOfTurnsGrows(x: real, y: real)
    requires x < y
    ensures x * MathPi * 2.0 < y * MathPi * 2.0
  {
    ScalingKeepsOrder(x, y, MathPi);
    ScalingKeepsOrder(x * MathPi, y * MathPi, 2.0);
  }

  /** A direction of 1 keeps an angle, a direction of -1 mirrors it. */
  lemma DirectionApplied(angle: real, direction: int)
    requires direction == 1 || direction == -1
    ensures direction == 1 ==> angle * direction as real == angle
    ensures direction == -1 ==> angle * direction as real == -angle
  {
  }

  /**
   * Of two turn counts, the larger gives the larger angle when the direction
   * is 1 and the smaller when it is -1.
   */
  lemma AngleFollowsDirection(x: real, y: real, direction: int)
    requires x < y && (direction == 1 || direction == -1)
    ensures direction == 1 ==> x * MathPi * 2.0 * direction as real < y * MathPi * 2.0 * direction as real
    ensures direction == -1 ==> y * MathPi * 2.0 * direction as real < x * MathPi * 2.0 * direction as real
  {
    AngleOfTurnsGrows(x, y);
    DirectionApplied(x * MathPi * 2.0, direction);
    DirectionApplied(y * MathPi * 2.0, direction);
  }

  /**
   * At a positive speed the head angle grows with progress when the
   * direction is 1 and shrinks when it is -1.
   */
  lemma HeadAngleFollowsDirection(startOffset: real, speed: real, direction: int, p: real, q: real)
    requires speed > 0.0 && (direction == 1 || direction == -1)
    requires p < q
    ensures direction == 1 ==>
      HeadAngle(startOffset, p, speed, direction) < HeadAngle(startOffset, q, speed, direction)
    ensures direction == -1 ==>
      HeadAngle(startOffset, q, speed, direction) < HeadAngle(startOffset, p, speed, direction)
  {
    TurnsGrow(startOffset, speed, p, q);
    AngleFollowsDirection(startOffset + p * speed, startOffset + q * speed, direction);
  }

  /**
   * Outside the sweep a trail turns its own way: as progress grows its head
   * angle grows when its direction is 1 and shrinks when it is -1 (for a
   * built trail, on even and odd rings respectively).
   */
  lemma TrailTurnsWithItsRing(t: Trail, p: real, q: real)
    requires t.speed > 0.0 && (t.direction == 1 || t.direction == -1)
    requires p < q
    ensures t.direction == 1 ==> UpdatePath(t, false, p).endAngle < UpdatePath(t, false, q).endAngle
    ensures t.direction == -1 ==> UpdatePath(t, false, q).endAngle < UpdatePath(t, false, p).endAngle
  {
    HeadAngleFollowsDirection(t.startOffset, t.speed, t.direction, p, q);
  }

  /**
   * During the sweep the ring no longer matters: two trails with the same
   * start offset are drawn at the same angles whatever their rings.
   */
  lemma SweepIgnoresRing(t: Trail, u: Trail, progress: real)
    requires t.startOffset == u.startOffset
    ensures UpdatePath(t, true, progress).endAngle == UpdatePath(u, true, progress).endAngle
    ensures UpdatePath(t, true, progress).startAngle == UpdatePath(u, true, progress).startAngle
  {
  }

  // ---------------------------------------------------------------------------
  // The effect that builds the animation

  /** What drives the timeline: the time-driven sweep, or scroll position. */
  datatype Driver = Sweep | ScrollScrubbed

  /** The animation `initAnimation` sets up. */
  datatype Animation = Animation(driver: Driver, trails: seq<Trail>, initialPaths: seq<Arc>,
                                 callsCompletion: bool)

  /** The effect builds the motif only for an active widget or one that is sweeping. */
  predicate Initialises(isActive: bool, isTransitioning: bool) {
    isActive || isTransitioning
  }

  /**
   * The effect body: when the widget is active or sweeping and its `<svg>`
   * is mounted, build the animation; otherwise do nothing. The timeline's
   * completion calls back to the parent only for a sweep, and every trail
   * is first drawn at progress 0.
   */
  method RunEffect(isActive: bool, isTransitioning: bool, svgMounted: bool, rolls: seq<ColorRoll>)
    returns (anim: Option<Animation>)
    requires |rolls| >= 39 && AreColorRolls(rolls)
    ensures anim.Some? <==> Initialises(isActive, isTransitioning) && svgMounted
    ensures anim.Some? ==> anim.value.callsCompletion == isTransitioning
    ensures anim.Some? ==> (anim.value.driver == Sweep <==> isTransitioning)
    ensures anim.Some? ==> anim.value.trails == TrailsUpTo(TotalLayers, rolls)
    ensures anim.Some? ==> |anim.value.initialPaths| == |anim.value.trails|
    ensures anim.Some? ==> forall k :: 0 <= k < |anim.value.trails| ==>
      anim.value.initialPaths[k] == UpdatePath(anim.value.trails[k], isTransitioning, 0.0)
  {
    if !(isActive || isTransitioning) || !svgMounted {
      return None;
    }
    var driver := if isTransitioning then Sweep else ScrollScrubbed;
    var trails := BuildTrails(rolls);
    var paths: seq<Arc> := [];
    var k := 0;
    while k < |trails|
      invariant 0 <= k <= |trails|
      invariant |paths| == k
      invariant forall m :: 0 <= m < k ==> paths[m] == UpdatePath(trails[m], isTransitioning, 0.0)
    {
      paths := paths + [UpdatePath(trails[k], isTransitioning, 0.0)];
      k := k + 1;
    }
    return Some(Animation(driver, trails, paths, isTransitioning));
  }
}
