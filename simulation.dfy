/**
 * The simulation engine as it runs: prey and predator objects whose `move`
 * updates their own fields, and the world holding the two agent lists, the
 * day/night flag and the frame counter. Every method is proved to change the
 * state exactly as the value-level rules of modules Agents, Population and
 * Clock say, and the world keeps its invariant `Valid` across every frame.
 */
module Simulation {
  import opened Geometry
  import opened Agents
  import opened Sequences
  import opened Population
  import opened Clock

  class Prey {
    var x: real
    var y: real
    var energy: real
    const size: real

    /** The prey's state as a value. */
    function State(): Agent
      reads this
    {
      Agent(x, y, energy, size)
    }

    /** `new Prey()`: a random point of the canvas, full energy. */
    constructor (d: Draw, width: real, height: real)
      ensures State() == Spawn(d, PREY_SIZE, width, height)
    {
      x := d.u * width;
      y := d.v * height;
      size := PREY_SIZE;
      energy := MAX_ENERGY;
    }

    /**
     * One move: flee the predators closer than the danger radius, jitter,
     * stay on the canvas, pay the move cost, and push one newborn onto
     * `world.preys` per full reproduction threshold of remaining energy.
     * `jitter` is the pair of random numbers of the jitter, `normalize`
     * the division of the evasion sum by its length, and `births(i)` the
     * random position of newborn `i`.
     */
    method Move(predators: seq<Predator>, world: World, jitter: Draw, normalize: Vec -> Vec, births: nat -> Draw)
      returns (alive: bool)
      modifies this, world`preys
      ensures State() == PreyStep(old(State()), PredatorStates(predators), jitter, normalize, world.width as real, world.height as real)
      ensures alive <==> energy > 0.0
      ensures |world.preys| == |old(world.preys)| + Offspring(old(State()))
      ensures world.preys[..|old(world.preys)|] == old(world.preys)
      ensures forall k :: |old(world.preys)| <= k < |world.preys| ==>
                fresh(world.preys[k])
                && world.preys[k].State() == Spawn(births(k - |old(world.preys)|), PREY_SIZE, world.width as real, world.height as real)
      ensures PredatorStates(predators) == old(PredatorStates(predators))
    {
      ghost var me := State();
      ghost var threats := PredatorStates(predators);
      Flee(predators, jitter, normalize, world.width as real, world.height as real);
      energy := energy - ENERGY_LOSS;

      if energy >= REPRODUCTION_ENERGY {
        var newPreyCount := (energy / REPRODUCTION_ENERGY).Floor;
        assert newPreyCount == Offspring(me);
        Reproduce(world, newPreyCount, births);
        energy := energy - newPreyCount as real * (REPRODUCTION_ENERGY / 4.0);
      } else {
        assert Offspring(me) == 0;
      }
      assert energy == me.energy - ENERGY_LOSS - Offspring(me) as real * BIRTH_COST;
      assert PredatorStates(predators) == threats;

      if energy <= 0.0 {
        alive := false;
      } else {
        alive := true;
      }
    }

    /**
     * The position update of `move`: the random jitter plus twice the
     * normalised evasion sum, then clamped to the canvas on each axis.
     */
    method Flee(predators: seq<Predator>, jitter: Draw, normalize: Vec -> Vec, width: real, height: real)
      modifies this`x, this`y
      ensures Vec(x, y) == PreyPosition(old(State()), PredatorStates(predators), jitter, normalize, width, height)
    {
      ghost var me := State();
      ghost var threats := PredatorStates(predators);
      var ev := EvasionFrom(predators);
      if ev != ZERO {
        ev := normalize(ev);
      }
      assert ev == Evasion(me, threats, normalize);
      x := x + (jitter.u - 0.5) * 4.0 + ev.x * 2.0;
      y := y + (jitter.v - 0.5) * 4.0 + ev.y * 2.0;
      x := Max(0.0, Min(x, width));
      y := Max(0.0, Min(y, height));
    }

    /**
     * The evasion sum of `move`: for every predator closer than the danger
     * radius, the vector from that predator to this prey, added up in list
     * order.
     */
    method EvasionFrom(predators: seq<Predator>) returns (ev: Vec)
      ensures ev == EvasionSum(State(), PredatorStates(predators))
    {
      ghost var threats := PredatorStates(predators);
      ev := ZERO;
      var i := 0;
      while i < |predators|
        invariant 0 <= i <= |predators|
        invariant ev == EvasionSum(State(), threats[..i])
      {
        var q := predators[i];
        if Within(q.x - x, q.y - y, DANGER_RADIUS) {
          ev := Add(ev, Vec(x - q.x, y - q.y));
        }
        assert threats[..i + 1][..i] == threats[..i];
        i := i + 1;
      }
      assert threats[..|predators|] == threats;
    }

    /** The births of `move`: `count` newborns pushed onto `world.preys`, newborn `n` placed by `births(n)`. */
    method Reproduce(world: World, count: nat, births: nat -> Draw)
      modifies world`preys
      ensures |world.preys| == |old(world.preys)| + count
      ensures world.preys[..|old(world.preys)|] == old(world.preys)
      ensures forall k :: |old(world.preys)| <= k < |world.preys| ==>
                fresh(world.preys[k])
                && world.preys[k].State() == Spawn(births(k - |old(world.preys)|), PREY_SIZE, world.width as real, world.height as real)
    {
      var n := 0;
      while n < count
        modifies world`preys
        invariant 0 <= n <= count
        invariant |world.preys| == |old(world.preys)| + n
        invariant world.preys[..|old(world.preys)|] == old(world.preys)
        invariant forall k :: |old(world.preys)| <= k < |world.preys| ==>
                    fresh(world.preys[k])
                    && world.preys[k].State() == Spawn(births(k - |old(world.preys)|), PREY_SIZE, world.width as real, world.height as real)
      {
        var child := new Prey(births(n), world.width as real, world.height as real);
        world.preys := world.preys + [child];
        n := n + 1;
      }
    }
  }

  class Predator {
    var x: real
    var y: real
    var energy: real
    const size: real

    /** The predator's state as a value. */
    function State(): Agent
      reads this
    {
      Agent(x, y, energy, size)
    }

    /** `new Predator()`: a random point of the canvas, full energy. */
    constructor (d: Draw, width: real, height: real)
      ensures State() == Spawn(d, PREDATOR_SIZE, width, height)
    {
      x := d.u * width;
      y := d.v * height;
      size := PREDATOR_SIZE;
      energy := MAX_ENERGY;
    }

    /**
     * One move: one unit towards the nearest prey on each axis, capture it
     * when close enough (taking its energy and splicing it out of
     * `world.preys`, found there by `indexOf`), then pay the move cost.
     */
    method Move(world: World) returns (alive: bool)
      modifies this, world`preys
      ensures var p := Pursue(old(State()), old(PreyStates(world.preys)));
              && State() == p.hunter
              && (p.captured.None? ==> world.preys == old(world.preys))
              && (p.captured.Some? ==>
                    var target := old(world.preys)[p.captured.value];
                    world.preys == Remove(old(world.preys), IndexOf(old(world.preys), target)))
      ensures alive <==> energy > 0.0
    {
      ghost var me := State();
      ghost var targets := PreyStates(world.preys);
      ghost var p := Pursue(me, targets);
      if |world.preys| > 0 {
        var closest := Nearest(State(), PreyStates(world.preys));
        match closest
        case Some(k) =>
          var target := world.preys[k];
          assert target.State() == targets[k];
          Approach(target);
          if Within(target.x - x, target.y - y, size + target.size) {
            assert p.captured == Some(k);
            energy := energy + target.energy;
            world.preys := Remove(world.preys, IndexOf(world.preys, target));
          } else {
            assert p.captured.None?;
          }
        case None =>
      }

      energy := energy - ENERGY_LOSS;
      assert State() == p.hunter;

      if energy <= 0.0 {
        alive := false;
      } else {
        alive := true;
      }
    }

    /** One unit towards `target` on each axis, or none on an axis where the two already agree. */
    method Approach(target: Prey)
      modifies this`x, this`y
      ensures x == StepToward(old(x), target.x) && y == StepToward(old(y), target.y)
    {
      if x < target.x {
        x := x + 1.0;
      } else if x > target.x {
        x := x - 1.0;
      }
      if y < target.y {
        y := y + 1.0;
      } else if y > target.y {
        y := y - 1.0;
      }
    }
  }

  /** The states of a list of prey objects, in list order. */
  function PreyStates(s: seq<Prey>): (r: seq<Agent>)
    reads s
    ensures |r| == |s|
    ensures forall k :: 0 <= k < |s| ==> r[k] == s[k].State()
  {
    seq(|s|, k reads s requires 0 <= k < |s| => s[k].State())
  }

  /** The states of a list of predator objects, in list order. */
  function PredatorStates(s: seq<Predator>): (r: seq<Agent>)
    reads s
    ensures |r| == |s|
    ensures forall k :: 0 <= k < |s| ==> r[k] == s[k].State()
  {
    seq(|s|, k reads s requires 0 <= k < |s| => s[k].State())
  }

  lemma PreyStatesSnoc(s: seq<Prey>, p: Prey)
    ensures PreyStates(s + [p]) == PreyStates(s) + [p.State()]
  {
  }

  lemma PredatorStatesSnoc(s: seq<Predator>, p: Predator)
    ensures PredatorStates(s + [p]) == PredatorStates(s) + [p.State()]
  {
  }

  /** Splicing a prey object out of a list splices its state out of the list of states. */
  lemma PreyStatesRemove(s: seq<Prey>, k: nat)
    requires k < |s|
    ensures PreyStates(Remove(s, k)) == Remove(PreyStates(s), k)
  {
  }

  /**
   * `after` is `before` with `count` newborn prey pushed onto its end,
   * newborn `k` placed by `births(k)` on a `width` by `height` canvas.
   */
  ghost predicate Pushed(before: seq<Prey>, after: seq<Prey>, count: nat, births: nat -> Draw, width: real, height: real)
    reads after
  {
    && |after| == |before| + count
    && after[..|before|] == before
    && forall k :: |before| <= k < |after| ==> after[k].State() == Spawn(births(k - |before|), PREY_SIZE, width, height)
  }

  /** `count` freshly constructed prey, prey `k` placed by `draws(k)`. */
  method SpawnPreys(count: nat, draws: nat -> Draw, width: real, height: real) returns (ps: seq<Prey>)
    ensures |ps| == count && Distinct(ps)
    ensures forall k :: 0 <= k < count ==> fresh(ps[k]) && ps[k].State() == Spawn(draws(k), PREY_SIZE, width, height)
  {
    ps := [];
    while |ps| < count
      invariant |ps| <= count
      invariant Distinct(ps)
      invariant forall k :: 0 <= k < |ps| ==> fresh(ps[k]) && ps[k].State() == Spawn(draws(k), PREY_SIZE, width, height)
    {
      var p := new Prey(draws(|ps|), width, height);
      ps := ps + [p];
    }
  }

  /** `count` freshly constructed predators, predator `k` placed by `draws(k)`. */
  method SpawnPredators(count: nat, draws: nat -> Draw, width: real, height: real) returns (qs: seq<Predator>)
    ensures |qs| == count && Distinct(qs)
    ensures forall k :: 0 <= k < count ==> fresh(qs[k]) && qs[k].State() == Spawn(draws(k), PREDATOR_SIZE, width, height)
  {
    qs := [];
    while |qs| < count
      invariant |qs| <= count
      invariant Distinct(qs)
      invariant forall k :: 0 <= k < |qs| ==> fresh(qs[k]) && qs[k].State() == Spawn(draws(k), PREDATOR_SIZE, width, height)
    {
      var q := new Predator(draws(|qs|), width, height);
      qs := qs + [q];
    }
  }

  class World {
    const width: nat
    const height: nat
    var preys: seq<Prey>
    var predators: seq<Predator>
    var dayTime: bool
    var ageCounter: nat

    /** The two populations as values. */
    ghost function Snapshot(): Populations
      reads this, preys, predators
    {
      Populations(PreyStates(preys), PredatorStates(predators))
    }

    /**
     * Every agent is a distinct object, every prey and predator is alive,
     * prey are on the canvas and predators within one unit of it, and the
     * day/night flag is the one the frame counter implies.
     */
    ghost predicate Valid()
      reads this, preys, predators
    {
      && Distinct(preys)
      && Distinct(predators)
      && Healthy(Snapshot(), width as real, height as real)
      && dayTime == DayAfter(ageCounter)
    }

    /** The world before `initializeAgents`: no agents, daytime, counter at zero. */
    constructor (width: nat, height: nat)
      ensures this.width == width && this.height == height
      ensures preys == [] && predators == []
      ensures dayTime && ageCounter == 0
      ensures Valid()
    {
      this.width := width;
      this.height := height;
      preys := [];
      predators := [];
      dayTime := true;
      ageCounter := 0;
    }

    /**
     * `initializeAgents`: fresh lists of 50 prey and 5 predators, prey `k`
     * placed by `preyDraws(k)` and predator `k` by `predatorDraws(k)`.
     */
    method InitializeAgents(preyDraws: nat -> Draw, predatorDraws: nat -> Draw)
      requires Valid()
      requires forall k :: 0 <= k < INITIAL_PREY ==> UnitDraw(preyDraws(k))
      requires forall k :: 0 <= k < INITIAL_PREDATORS ==> UnitDraw(predatorDraws(k))
      modifies this
      ensures Valid()
      ensures |preys| == INITIAL_PREY && |predators| == INITIAL_PREDATORS
      ensures forall k :: 0 <= k < |preys| ==>
                fresh(preys[k]) && preys[k].State() == Spawn(preyDraws(k), PREY_SIZE, width as real, height as real)
      ensures forall k :: 0 <= k < |predators| ==>
                fresh(predators[k]) && predators[k].State() == Spawn(predatorDraws(k), PREDATOR_SIZE, width as real, height as real)
      ensures dayTime == old(dayTime) && ageCounter == old(ageCounter)
    {
      var w, h := width as real, height as real;
      var ps := SpawnPreys(INITIAL_PREY, preyDraws, w, h);
      var qs := SpawnPredators(INITIAL_PREDATORS, predatorDraws, w, h);
      preys := ps;
      predators := qs;
      assert Snapshot() == Populations(PreyStates(ps), PredatorStates(qs));
    }

    /** The add-prey button: one new prey, placed by `d`, pushed at the end. */
    method AddPrey(d: Draw)
      requires Valid() && UnitDraw(d)
      modifies this
      ensures Valid()
      ensures |preys| == |old(preys)| + 1 && preys[..|old(preys)|] == old(preys)
      ensures fresh(preys[|preys| - 1])
      ensures preys[|preys| - 1].State() == Spawn(d, PREY_SIZE, width as real, height as real)
      ensures predators == old(predators) && dayTime == old(dayTime) && ageCounter == old(ageCounter)
    {
      var p := new Prey(d, width as real, height as real);
      preys := preys + [p];
    }

    /** The add-predator button: one new predator, placed by `d`, pushed at the end. */
    method AddPredator(d: Draw)
      requires Valid() && UnitDraw(d)
      modifies this
      ensures Valid()
      ensures |predators| == |old(predators)| + 1 && predators[..|old(predators)|] == old(predators)
      ensures fresh(predators[|predators| - 1])
      ensures predators[|predators| - 1].State() == Spawn(d, PREDATOR_SIZE, width as real, height as real)
      ensures preys == old(preys) && dayTime == old(dayTime) && ageCounter == old(ageCounter)
    {
      var q := new Predator(d, width as real, height as real);
      predators := predators + [q];
    }

    /** `preys = preys.filter(…)`: the prey list becomes `list`; no agent changes. */
    method SetPreys(list: seq<Prey>)
      modifies this`preys
      ensures preys == list
      ensures PreyStates(list) == old(PreyStates(list))
      ensures PredatorStates(predators) == old(PredatorStates(predators))
    {
      preys := list;
    }

    /** `predators = predators.filter(…)`: the predator list becomes `list`; no agent changes. */
    method SetPredators(list: seq<Predator>)
      modifies this`predators
      ensures predators == list
      ensures PredatorStates(list) == old(PredatorStates(list))
      ensures PreyStates(preys) == old(PreyStates(preys))
    {
      predators := list;
    }

    /**
     * The callback of the prey `filter`: prey `prey` moves, with `jitter`
     * for its jitter and `births` for the positions of its newborns, and is
     * kept when its energy is positive.
     */
    method PreyTurn(prey: Prey, jitter: Draw, normalize: Vec -> Vec, births: nat -> Draw) returns (keep: bool)
      modifies prey, this`preys
      ensures prey.State() == PreyStep(old(prey.State()), PredatorStates(predators), jitter, normalize, width as real, height as real)
      ensures keep <==> prey.energy > 0.0
      ensures PredatorStates(predators) == old(PredatorStates(predators))
      ensures Pushed(old(preys), preys, Offspring(old(prey.State())), births, width as real, height as real)
      ensures forall k :: |old(preys)| <= k < |preys| ==> fresh(preys[k])
    {
      var alive := prey.Move(predators, this, jitter, normalize, births);
      keep := prey.energy > 0.0;
    }

    /**
     * One element of the prey `filter`, prey `i` of `before`: it takes its
     * turn, with `jitter(i)` and newborn positions `births(i)`, and is
     * appended to `kept` when it lives. The first `i + 1` prey then hold the
     * states of `moved` and `kept` the living ones among them, in order.
     */
    method PreyFilterStep(before: seq<Prey>, i: nat, kept: seq<Prey>, ghost start: seq<Agent>, ghost moved: seq<Agent>,
                          jitter: nat -> Draw, normalize: Vec -> Vec, births: nat -> nat -> Draw)
      returns (kept': seq<Prey>)
      requires i < |before| == |start| && Distinct(before)
      requires moved == PreyMoves(start, PredatorStates(predators), jitter, normalize, width as real, height as real)
      requires PreyStates(before[..i]) == moved[..i]
      requires forall k :: i <= k < |before| ==> before[k].State() == start[k]
      requires IsSubseq(kept, before[..i])
      requires PreyStates(kept) == KeepAlive(moved[..i])
      modifies before[i], this`preys
      ensures PreyStates(before[..i + 1]) == moved[..i + 1]
      ensures forall k :: i < k < |before| ==> before[k].State() == start[k]
      ensures IsSubseq(kept', before[..i + 1])
      ensures PreyStates(kept') == KeepAlive(moved[..i + 1])
      ensures PredatorStates(predators) == old(PredatorStates(predators))
      ensures Pushed(old(preys), preys, Offspring(start[i]), births(i), width as real, height as real)
      ensures forall k :: |old(preys)| <= k < |preys| ==> fresh(preys[k])
    {
      var prey := before[i];
      ghost var prefix := before[..i];
      TakeSnoc(before, i);
      TakeSnoc(moved, i);
      ghost var done := PreyStates(prefix);
      ghost var survivors := PreyStates(kept);
      assert prey !in kept && prey !in prefix by {
        SubseqMembers(kept, prefix);
      }
      var keep := PreyTurn(prey, jitter(i), normalize, births(i));
      assert PreyStates(prefix) == done && PreyStates(kept) == survivors;
      assert prey.State() == moved[i];
      PreyStatesSnoc(prefix, prey);
      KeepAliveSnoc(moved[..i], moved[i]);
      SubseqAppend(kept, prefix, prey);
      kept' := kept;
      if keep {
        PreyStatesSnoc(kept, prey);
        kept' := kept + [prey];
      }
    }

    /**
     * The prey pass: every prey of the list as it stood moves, prey `i` with
     * `jitter(i)` and newborn positions `births(i)`; the list then becomes
     * the prey with positive energy, in order. Newborns were pushed onto the
     * old list and are not in the new one.
     */
    method PreyPass(jitter: nat -> Draw, normalize: Vec -> Vec, births: nat -> nat -> Draw)
      requires Distinct(preys)
      modifies this`preys, preys
      ensures PreyStates(preys)
              == KeepAlive(PreyMoves(old(PreyStates(preys)), PredatorStates(predators), jitter, normalize, width as real, height as real))
      ensures IsSubseq(preys, old(preys)) && Distinct(preys)
    {
      ghost var start := PreyStates(preys);
      ghost var moved := PreyMoves(start, PredatorStates(predators), jitter, normalize, width as real, height as real);
      var before := preys;
      var kept: seq<Prey> := [];
      var i := 0;
      SubseqRefl(kept);
      while i < |before|
        modifies this`preys, before
        invariant 0 <= i <= |before|
        invariant moved == PreyMoves(start, PredatorStates(predators), jitter, normalize, width as real, height as real)
        invariant PreyStates(before[..i]) == moved[..i]
        invariant forall k :: i <= k < |before| ==> before[k].State() == start[k]
        invariant IsSubseq(kept, before[..i])
        invariant PreyStates(kept) == KeepAlive(moved[..i])
      {
        kept := PreyFilterStep(before, i, kept, start, moved, jitter, normalize, births);
        i := i + 1;
      }
      assert before[..|before|] == before;
      assert moved[..|before|] == moved;
      SubseqDistinct(kept, before);
      SetPreys(kept);
    }

    /**
     * The callback of the predator `filter`: `predator` moves against the
     * current prey list, which loses the prey it captures, and is kept when
     * its energy is positive.
     */
    method PredatorTurn(predator: Predator) returns (keep: bool)
      requires Distinct(preys)
      modifies predator, this`preys
      ensures var p := Pursue(old(predator.State()), old(PreyStates(preys)));
              && predator.State() == p.hunter
              && PreyStates(preys) == Capture(old(PreyStates(preys)), p.captured)
      ensures Distinct(preys) && IsSubseq(preys, old(preys))
      ensures keep <==> predator.energy > 0.0
    {
      ghost var list := preys;
      ghost var p := Pursue(predator.State(), PreyStates(preys));
      var alive := predator.Move(this);
      assert predator.State() == p.hunter;
      if p.captured.Some? {
        var k := p.captured.value;
        IndexOfDistinct(list, k);
        assert preys == Remove(list, k);
        RemoveSubseq(list, k);
        RemoveDistinct(list, k);
        PreyStatesRemove(list, k);
      } else {
        assert preys == list;
        SubseqRefl(preys);
      }
      keep := predator.energy > 0.0;
    }

    /**
     * The predator `filter` over `before` has handled the predators before
     * position `j`: `start` are the states the predators started the pass
     * with and `prey0` the prey states, `hunt` is the outcome of the first
     * `j` turns, the prey list is what their captures left of `preys0`, and
     * `kept` holds, in order, those of them that are still alive.
     */
    ghost predicate PredatorFilterAt(before: seq<Predator>, j: nat, kept: seq<Predator>, start: seq<Agent>,
                                     prey0: seq<Agent>, preys0: seq<Prey>, hunt: Hunt)
      reads this, before, kept, preys
    {
      && j <= |before| == |start|
      && hunt == PredatorMoves(start[..j], prey0) && PreyStates(preys) == hunt.preys
      && Distinct(preys) && IsSubseq(preys, preys0)
      && (forall k :: j <= k < |before| ==> before[k].State() == start[k])
      && IsSubseq(kept, before[..j])
      && PredatorStates(kept) == KeepAlive(hunt.hunters)
    }

    /**
     * One element of the predator `filter`: predator `j` of `before` takes
     * its turn against the prey list as the earlier captures left it, and
     * is appended to `kept`, the survivors so far, when it lives.
     */
    method PredatorFilterStep(before: seq<Predator>, j: nat, kept: seq<Predator>, ghost start: seq<Agent>,
                              ghost prey0: seq<Agent>, ghost preys0: seq<Prey>, ghost hunt: Hunt)
      returns (kept': seq<Predator>, ghost hunt': Hunt)
      requires j < |before| && Distinct(before)
      requires PredatorFilterAt(before, j, kept, start, prey0, preys0, hunt)
      modifies before[j], this`preys
      ensures PredatorFilterAt(before, j + 1, kept', start, prey0, preys0, hunt')
    {
      var predator := before[j];
      TakeSnoc(before, j);
      ghost var list := preys;
      ghost var survivors := PredatorStates(kept);
      ghost var p := Pursue(start[j], hunt.preys);
      assert predator !in kept && predator !in before[..j] by {
        SubseqMembers(kept, before[..j]);
      }
      var keep := PredatorTurn(predator);
      assert PredatorStates(kept) == survivors;
      SubseqTrans(preys, list, preys0);
      PredatorMovesSnoc(start, prey0, j);
      KeepAliveSnoc(hunt.hunters, p.hunter);
      hunt' := Hunt(hunt.hunters + [p.hunter], Capture(hunt.preys, p.captured));
      SubseqAppend(kept, before[..j], predator);
      kept' := kept;
      if keep {
        PredatorStatesSnoc(kept, predator);
        kept' := kept + [predator];
      }
    }

    /**
     * `before.filter(…)` with the predator callback: every predator of
     * `before` moves in list order against the prey list as the captures
     * before it have left it, and the survivors are those with positive
     * energy, in order. `hunt` is the outcome `PredatorMoves` gives.
     */
    method FilterPredators(before: seq<Predator>) returns (kept: seq<Predator>, ghost hunt: Hunt)
      requires Distinct(preys) && Distinct(before)
      modifies this`preys, before
      ensures hunt == PredatorMoves(old(PredatorStates(before)), old(PreyStates(preys)))
      ensures PreyStates(preys) == hunt.preys && PredatorStates(kept) == KeepAlive(hunt.hunters)
      ensures Distinct(preys) && IsSubseq(preys, old(preys)) && IsSubseq(kept, before)
    {
      ghost var prey0 := PreyStates(preys);
      ghost var preys0 := preys;
      ghost var start := PredatorStates(before);
      kept := [];
      hunt := Hunt([], prey0);
      var j := 0;
      SubseqRefl(kept);
      SubseqRefl(preys);
      while j < |before|
        modifies this`preys, before
        invariant PredatorFilterAt(before, j, kept, start, prey0, preys0, hunt)
      {
        kept, hunt := PredatorFilterStep(before, j, kept, start, prey0, preys0, hunt);
        j := j + 1;
      }
      assert before[..|before|] == before;
      assert start[..|before|] == start;
    }

    /**
     * The predator pass, `predators = predators.filter(…)`: the prey list
     * is what the captures leave, and the predator list becomes the
     * predators with positive energy after their moves, in order.
     */
    method PredatorPass()
      requires Distinct(preys) && Distinct(predators)
      modifies this`preys, this`predators, predators
      ensures var hunt := PredatorMoves(old(PredatorStates(predators)), old(PreyStates(preys)));
              && PreyStates(preys) == hunt.preys
              && PredatorStates(predators) == KeepAlive(hunt.hunters)
      ensures IsSubseq(preys, old(preys)) && IsSubseq(predators, old(predators))
      ensures Distinct(preys) && Distinct(predators)
    {
      var kept, hunt := FilterPredators(predators);
      SubseqDistinct(kept, predators);
      SetPredators(kept);
    }

    /**
     * The two filter passes of a frame, prey first: the populations become
     * those `Frame` gives, both lists keep only agents they held, in order,
     * and every agent left is alive and in place.
     */
    method Passes(jitter: nat -> Draw, normalize: Vec -> Vec, births: nat -> nat -> Draw)
      requires Distinct(preys) && Distinct(predators)
      requires Healthy(Snapshot(), width as real, height as real)
      modifies this`preys, this`predators, preys, predators
      ensures Snapshot() == Frame(old(Snapshot()).preys, old(Snapshot()).predators, jitter, normalize, width as real, height as real)
      ensures IsSubseq(preys, old(preys)) && IsSubseq(predators, old(predators))
      ensures Distinct(preys) && Distinct(predators)
      ensures Healthy(Snapshot(), width as real, height as real)
    {
      ghost var start := Snapshot();
      ghost var w, h := width as real, height as real;
      ghost var preys0 := preys;
      assert PreyStates(preys0) == start.preys && PredatorStates(predators) == start.predators;
      PreyPass(jitter, normalize, births);
      ghost var preys1 := preys;
      ghost var survivors := KeepAlive(PreyMoves(start.preys, start.predators, jitter, normalize, w, h));
      assert PreyStates(preys1) == survivors;
      assert PredatorStates(predators) == start.predators;
      PredatorPass();
      ghost var hunt := PredatorMoves(start.predators, survivors);
      assert PreyStates(preys) == hunt.preys && PredatorStates(predators) == KeepAlive(hunt.hunters);
      assert Snapshot() == Frame(start.preys, start.predators, jitter, normalize, w, h);
      SubseqTrans(preys, preys1, preys0);
      FrameHealthy(start.preys, start.predators, jitter, normalize, w, h);
    }

    /** The start of a frame: the day/night flag flips when the counter is a multiple of 300, and the counter rises by one. */
    method Tick()
      modifies this`dayTime, this`ageCounter
      ensures ageCounter == old(ageCounter) + 1
      ensures dayTime == Toggle(old(dayTime), old(ageCounter))
      ensures old(dayTime == DayAfter(ageCounter)) ==> dayTime == DayAfter(ageCounter)
      ensures preys == old(preys) && predators == old(predators)
      ensures Snapshot() == old(Snapshot())
    {
      if ageCounter % DAY_PERIOD == 0 {
        dayTime := !dayTime;
      }
      ageCounter := ageCounter + 1;
    }

    /**
     * One frame of `simulate`: the day/night flag flips when the counter is
     * a multiple of 300, the counter rises by one, the prey pass and then the
     * predator pass run, and the total energy of the remaining predators is
     * returned. The populations after the frame are those `Frame` gives,
     * both lists keep only agents they held, in order, and the world stays
     * valid. Neither pass reads or writes the flag or the counter, so the
     * flip is applied here after the passes; the outcome is the same.
     */
    method Simulate(jitter: nat -> Draw, normalize: Vec -> Vec, births: nat -> nat -> Draw) returns (total: real)
      requires Valid()
      modifies this, preys, predators
      ensures Valid()
      ensures ageCounter == old(ageCounter) + 1
      ensures dayTime == Toggle(old(dayTime), old(ageCounter))
      ensures Snapshot() == Frame(old(Snapshot()).preys, old(Snapshot()).predators, jitter, normalize, width as real, height as real)
      ensures IsSubseq(preys, old(preys)) && IsSubseq(predators, old(predators))
      ensures |preys| <= |old(preys)| && |predators| <= |old(predators)|
      ensures total == TotalEnergy(PredatorStates(predators))
      ensures total > 0.0 <==> |predators| > 0
    {
      Passes(jitter, normalize, births);
      Tick();
      SubseqLength(preys, old(preys));
      SubseqLength(predators, old(predators));
      total := TotalEnergy(PredatorStates(predators));
      TotalEnergyPositive(PredatorStates(predators));
    }
  }
}
