/**
 * The per-agent rules of the simulation, as functions on agent values:
 * what one call of `Prey.move` and of `Predator.move` does to the agent that
 * moves. The classes in module Simulation are proved to update their fields
 * exactly as these functions say.
 */
module Agents {
  import opened Geometry

  const INITIAL_PREY: nat := 50
  const INITIAL_PREDATORS: nat := 5
  const MAX_ENERGY: real := 150.0
  /** Energy every move costs. */
  const ENERGY_LOSS: real := 0.1
  /** Energy a prey needs, after paying for its move, to reproduce. */
  const REPRODUCTION_ENERGY: real := 100.0
  const PREY_SIZE: real := 5.0
  const PREDATOR_SIZE: real := 10.0
  /** Predators strictly closer than this repel a prey. */
  const DANGER_RADIUS: real := 50.0

  /** The state of one prey or predator. */
  datatype Agent = Agent(x: real, y: real, energy: real, size: real)

  datatype Option<T> = None | Some(value: T)

  /** Two successive results of `Math.random()`. */
  datatype Draw = Draw(u: real, v: real)

  predicate UnitDraw(d: Draw) {
    0.0 <= d.u < 1.0 && 0.0 <= d.v < 1.0
  }

  predicate InPlane(a: Agent, width: real, height: real) {
    0.0 <= a.x <= width && 0.0 <= a.y <= height
  }

  /** Within one unit of the canvas: where an unclamped predator can be. */
  predicate NearPlane(a: Agent, width: real, height: real) {
    -1.0 <= a.x <= width + 1.0 && -1.0 <= a.y <= height + 1.0
  }

  /** A freshly constructed agent: a random position on the canvas and full energy. */
  function Spawn(d: Draw, size: real, width: real, height: real): (a: Agent)
    ensures a.energy == MAX_ENERGY && a.size == size
    ensures UnitDraw(d) && width >= 0.0 && height >= 0.0 ==> InPlane(a, width, height)
  {
    ScaleWithin(d.u, width);
    ScaleWithin(d.v, height);
    Agent(d.u * width, d.v * height, MAX_ENERGY, size)
  }

  // ---------------------------------------------------------------------
  // Prey

  /** Predator `q` is strictly closer to `self` than the danger radius. */
  predicate Threat(self: Agent, q: Agent) {
    Within(q.x - self.x, q.y - self.y, DANGER_RADIUS)
  }

  /** The evasion vector before normalisation: the sum of (self - q) over the threatening predators, in list order. */
  function EvasionSum(self: Agent, preds: seq<Agent>): Vec
    decreases |preds|
  {
    if preds == [] then ZERO
    else
      var q := preds[|preds| - 1];
      var acc := EvasionSum(self, preds[..|preds| - 1]);
      if Threat(self, q) then Add(acc, Vec(self.x - q.x, self.y - q.y)) else acc
  }

  /**
   * The evasion vector after normalisation. `normalize` stands for the
   * division by `Math.hypot`, and is applied only to a non-zero sum.
   */
  function Evasion(self: Agent, preds: seq<Agent>, normalize: Vec -> Vec): Vec {
    var s := EvasionSum(self, preds);
    if s == ZERO then ZERO else normalize(s)
  }

  /** Number of prey born to a parent holding energy `e` after paying for its move. */
  function Births(e: real): (n: nat)
    ensures e < REPRODUCTION_ENERGY ==> n == 0
    ensures e >= REPRODUCTION_ENERGY ==> n >= 1 && n as real * REPRODUCTION_ENERGY <= e < (n + 1) as real * REPRODUCTION_ENERGY
  {
    if e >= REPRODUCTION_ENERGY then (e / REPRODUCTION_ENERGY).Floor as nat else 0
  }

  /** Energy a parent gives up for each newborn. */
  const BIRTH_COST: real := REPRODUCTION_ENERGY / 4.0

  /** The prey position after jitter plus twice the evasion vector, clamped to the canvas. */
  function PreyPosition(self: Agent, preds: seq<Agent>, jitter: Draw, normalize: Vec -> Vec, width: real, height: real): (r: Vec)
    ensures 0.0 <= width ==> 0.0 <= r.x <= width
    ensures 0.0 <= height ==> 0.0 <= r.y <= height
  {
    var ev := Evasion(self, preds, normalize);
    Vec(Clamp(self.x + (jitter.u - 0.5) * 4.0 + ev.x * 2.0, width),
        Clamp(self.y + (jitter.v - 0.5) * 4.0 + ev.y * 2.0, height))
  }

  /**
   * Number of newborns one move of `self` pushes: at least one exactly when
   * the energy left after paying for the move reaches the reproduction
   * threshold.
   */
  function Offspring(self: Agent): (n: nat)
    ensures n > 0 <==> self.energy - ENERGY_LOSS >= REPRODUCTION_ENERGY
  {
    Births(self.energy - ENERGY_LOSS)
  }

  /** The prey after one `move`. */
  function PreyStep(self: Agent, preds: seq<Agent>, jitter: Draw, normalize: Vec -> Vec, width: real, height: real): (r: Agent)
    ensures 0.0 <= width && 0.0 <= height ==> InPlane(r, width, height)
    ensures r.size == self.size
  {
    var p := PreyPosition(self, preds, jitter, normalize, width, height);
    var e := self.energy - ENERGY_LOSS;
    Agent(p.x, p.y, e - Offspring(self) as real * BIRTH_COST, self.size)
  }

  /** Sum of the contributions of two lists of predators is the sum of the two sums. */
  lemma {:induction false} EvasionSumAppend(self: Agent, a: seq<Agent>, b: seq<Agent>)
    ensures EvasionSum(self, a + b) == Add(EvasionSum(self, a), EvasionSum(self, b))
    decreases |b|
  {
    if b == [] {
      assert a + b == a;
    } else {
      var init, q := b[..|b| - 1], b[|b| - 1];
      var ab := a + b;
      assert ab[..|ab| - 1] == a + init;
      assert ab[|ab| - 1] == q;
      EvasionSumAppend(self, a, init);
      var sa, si := EvasionSum(self, a), EvasionSum(self, init);
      var d := if Threat(self, q) then Vec(self.x - q.x, self.y - q.y) else ZERO;
      assert EvasionSum(self, b) == Add(si, d);
      assert EvasionSum(self, ab) == Add(EvasionSum(self, a + init), d);
    }
  }

  /** Predators at or beyond the danger radius do not contribute: with no threat the evasion is the zero vector. */
  lemma {:induction false} NoThreatNoEvasion(self: Agent, preds: seq<Agent>)
    requires forall k :: 0 <= k < |preds| ==> !Threat(self, preds[k])
    ensures EvasionSum(self, preds) == ZERO
    ensures forall normalize: Vec -> Vec :: Evasion(self, preds, normalize) == ZERO
    decreases |preds|
  {
    if preds != [] {
      NoThreatNoEvasion(self, preds[..|preds| - 1]);
    }
  }

  /** Without a nearby predator, a prey's displacement is only its clamped jitter. */
  lemma PreyStepWithoutThreat(self: Agent, preds: seq<Agent>, jitter: Draw, normalize: Vec -> Vec, width: real, height: real)
    requires forall k :: 0 <= k < |preds| ==> !Threat(self, preds[k])
    ensures PreyStep(self, preds, jitter, normalize, width, height).x == Clamp(self.x + (jitter.u - 0.5) * 4.0, width)
    ensures PreyStep(self, preds, jitter, normalize, width, height).y == Clamp(self.y + (jitter.v - 0.5) * 4.0, height)
  {
    NoThreatNoEvasion(self, preds);
  }

  /**
   * Energy accounting of one prey move: the move cost is paid once, and a
   * parent whose remaining energy `e` reaches the threshold has
   * `floor(e / 100)` newborns and pays 25 for each; it then keeps at least
   * three quarters of `e`, so a prey that reproduces survives its move.
   */
  lemma PreyEnergy(self: Agent, preds: seq<Agent>, jitter: Draw, normalize: Vec -> Vec, width: real, height: real)
    ensures var r := PreyStep(self, preds, jitter, normalize, width, height);
            var e := self.energy - ENERGY_LOSS;
            && (e < REPRODUCTION_ENERGY ==> Offspring(self) == 0 && r.energy == e)
            && (e >= REPRODUCTION_ENERGY ==>
                  && Offspring(self) == (e / REPRODUCTION_ENERGY).Floor
                  && r.energy == e - Offspring(self) as real * 25.0
                  && r.energy >= e * 3.0 / 4.0 > 0.0)
  {
    var e := self.energy - ENERGY_LOSS;
    var n := Offspring(self);
    if e >= REPRODUCTION_ENERGY {
      assert n as real * 100.0 <= e;
      assert n as real * 25.0 <= e / 4.0;
    }
  }

  /** A prey that reproduces survives its move. */
  lemma ReproducingPreySurvives(self: Agent, preds: seq<Agent>, jitter: Draw, normalize: Vec -> Vec, width: real, height: real)
    requires Offspring(self) > 0
    ensures PreyStep(self, preds, jitter, normalize, width, height).energy > 0.0
  {
    PreyEnergy(self, preds, jitter, normalize, width, height);
  }

  /** A prey left with 200 after its move cost has two newborns and pays 50 for them. */
  lemma TwoBirthsExample(self: Agent, preds: seq<Agent>, jitter: Draw, normalize: Vec -> Vec, width: real, height: real)
    requires self.energy == 200.1
    ensures Offspring(self) == 2
    ensures PreyStep(self, preds, jitter, normalize, width, height).energy == 150.0
  {
    assert Births(200.0) == 2 by {
      assert (200.0 / REPRODUCTION_ENERGY) == 2.0;
    }
  }

  // ---------------------------------------------------------------------
  // Predator

  function DistSq(a: Agent, b: Agent): real {
    NormSq(b.x - a.x, b.y - a.y)
  }

  /**
   * The closest prey, as `preyList.reduce` finds it: the seed is at infinite
   * distance (here `None`), and a prey replaces the current choice only when
   * it is strictly closer.
   */
  function Nearest(self: Agent, preys: seq<Agent>): (r: Option<nat>)
    ensures r.Some? <==> |preys| > 0
    ensures r.Some? ==> r.value < |preys|
    decreases |preys|
  {
    if preys == [] then None
    else
      var last := |preys| - 1;
      match Nearest(self, preys[..last])
      case None => Some(last)
      case Some(best) =>
        if DistSq(self, preys[last]) < DistSq(self, preys[best]) then Some(last) else Some(best)
  }

  /** The chosen prey is at minimal distance, and every prey before it is strictly further away. */
  lemma {:induction false} NearestIsFirstMinimum(self: Agent, preys: seq<Agent>)
    requires |preys| > 0
    ensures var k := Nearest(self, preys).value;
            && (forall j :: 0 <= j < |preys| ==> DistSq(self, preys[k]) <= DistSq(self, preys[j]))
            && (forall j :: 0 <= j < k ==> DistSq(self, preys[k]) < DistSq(self, preys[j]))
    decreases |preys|
  {
    var last := |preys| - 1;
    var init := preys[..last];
    if init != [] {
      NearestIsFirstMinimum(self, init);
      var b := Nearest(self, init).value;
      assert forall j :: 0 <= j < last ==> preys[j] == init[j];
    }
  }

  /** The outcome of one predator move: the predator afterwards, and the index of the prey it captured, if any. */
  datatype Pursuit = Pursuit(hunter: Agent, captured: Option<nat>)

  /** The predator `self` has reached prey `t` once they are closer than the sum of their sizes. */
  predicate Caught(self: Agent, t: Agent) {
    Within(t.x - self.x, t.y - self.y, self.size + t.size)
  }

  /** The predator after one `move` against the current prey list. */
  function Pursue(self: Agent, preys: seq<Agent>): (r: Pursuit)
    ensures r.captured.Some? ==> r.captured.value < |preys|
    ensures r.hunter.size == self.size
  {
    if |preys| > 0 then
      match Nearest(self, preys)
      case Some(k) =>
        var t := preys[k];
        var moved := Agent(StepToward(self.x, t.x), StepToward(self.y, t.y), self.energy, self.size);
        if Caught(moved, t) then
          Pursuit(moved.(energy := moved.energy + t.energy - ENERGY_LOSS), Some(k))
        else
          Pursuit(moved.(energy := moved.energy - ENERGY_LOSS), None)
      case None => Pursuit(self.(energy := self.energy - ENERGY_LOSS), None)
    else
      Pursuit(self.(energy := self.energy - ENERGY_LOSS), None)
  }

  /**
   * The predator moves by one unit, or not at all, on each axis towards the
   * nearest prey, not at all on an axis where it already matches that prey,
   * and stays put when there is no prey. Nothing clamps the result.
   */
  lemma PursueMoves(self: Agent, preys: seq<Agent>)
    ensures var h := Pursue(self, preys).hunter;
            && (preys == [] ==> h.x == self.x && h.y == self.y)
            && (preys != [] ==>
                  var t := preys[Nearest(self, preys).value];
                  && (h.x - self.x) * (t.x - self.x) >= 0.0 && (h.y - self.y) * (t.y - self.y) >= 0.0
                  && (h.x - self.x == 1.0 || h.x - self.x == 0.0 || h.x - self.x == -1.0)
                  && (h.y - self.y == 1.0 || h.y - self.y == 0.0 || h.y - self.y == -1.0)
                  && (h.x == self.x <==> self.x == t.x)
                  && (h.y == self.y <==> self.y == t.y))
  {
    if |preys| > 0 {
      var t := preys[Nearest(self, preys).value];
      var h := Pursue(self, preys).hunter;
      assert h.x == StepToward(self.x, t.x) && h.y == StepToward(self.y, t.y);
    }
  }

  /**
   * Energy accounting of one predator move: it pays the move cost once, and
   * a capture happens exactly when the moved predator is closer to the
   * nearest prey than the sum of their sizes, takes that prey's whole energy,
   * and reports that prey's index.
   */
  lemma PursueEnergy(self: Agent, preys: seq<Agent>)
    ensures var r := Pursue(self, preys);
            && (r.captured.None? ==> r.hunter.energy == self.energy - ENERGY_LOSS)
            && (r.captured.Some? ==>
                  && r.captured == Nearest(self, preys)
                  && r.hunter.energy == self.energy + preys[r.captured.value].energy - ENERGY_LOSS)
            && (preys != [] ==>
                  (r.captured.Some? <==> Caught(r.hunter, preys[Nearest(self, preys).value])))
  {
  }

  /** A predator standing on the only prey captures it at once. */
  lemma SamePlaceCapture(self: Agent, prey: Agent)
    requires self.size == PREDATOR_SIZE && prey.size == PREY_SIZE
    requires prey.x == self.x && prey.y == self.y
    ensures Pursue(self, [prey]).captured == Some(0)
    ensures Pursue(self, [prey]).hunter.energy == self.energy + prey.energy - ENERGY_LOSS
  {
    assert Nearest(self, [prey]) == Some(0) by {
      assert [prey][..0] == [];
    }
    var moved := Agent(StepToward(self.x, prey.x), StepToward(self.y, prey.y), self.energy, self.size);
    assert NormSq(prey.x - moved.x, prey.y - moved.y) == 0.0;
    assert Caught(moved, prey);
  }

  /** A predator that starts within one unit of the canvas and chases prey on the canvas stays within one unit of it. */
  lemma PursueNearPlane(self: Agent, preys: seq<Agent>, width: real, height: real)
    requires NearPlane(self, width, height)
    requires forall k :: 0 <= k < |preys| ==> InPlane(preys[k], width, height)
    ensures NearPlane(Pursue(self, preys).hunter, width, height)
  {
    if |preys| > 0 {
      var t := preys[Nearest(self, preys).value];
      StepTowardNearInterval(self.x, t.x, width);
      StepTowardNearInterval(self.y, t.y, height);
    }
  }

  /** Unlike a prey, a predator is not clamped: one step towards a prey at the canvas edge can take it off the canvas. */
  lemma PredatorLeavesCanvas()
    ensures var self := Agent(99.5, 50.0, MAX_ENERGY, PREDATOR_SIZE);
            var prey := Agent(100.0, 50.0, MAX_ENERGY, PREY_SIZE);
            && InPlane(self, 100.0, 100.0) && InPlane(prey, 100.0, 100.0)
            && !InPlane(Pursue(self, [prey]).hunter, 100.0, 100.0)
  {
    var self := Agent(99.5, 50.0, MAX_ENERGY, PREDATOR_SIZE);
    var prey := Agent(100.0, 50.0, MAX_ENERGY, PREY_SIZE);
    assert Nearest(self, [prey]) == Some(0) by {
      assert [prey][..0] == [];
    }
  }
}
