/**
 * One frame of the simulation on agent values: the prey pass (every prey
 * moves, then the dead are filtered out), the predator pass (every predator
 * moves against the prey list as earlier captures have left it, then the
 * dead are filtered out), and the energy total reported afterwards.
 */
module Population {
  import opened Geometry
  import opened Agents
  import opened Sequences

  /** `list.filter(a => a.energy > 0)`: the living agents, in list order. */
  function KeepAlive(s: seq<Agent>): seq<Agent>
    decreases |s|
  {
    if s == [] then []
    else
      var last := s[|s| - 1];
      KeepAlive(s[..|s| - 1]) + (if last.energy > 0.0 then [last] else [])
  }

  /**
   * The filter keeps exactly the living agents, each as many times as it
   * occurs, in their original order.
   */
  lemma KeepAliveSpec(s: seq<Agent>)
    ensures forall a :: a in KeepAlive(s) <==> a in s && a.energy > 0.0
    ensures forall a :: multiset(KeepAlive(s))[a] == if a.energy > 0.0 then multiset(s)[a] else 0
    ensures IsSubseq(KeepAlive(s), s)
    ensures |KeepAlive(s)| <= |s|
  {
    KeepAliveOrder(s);
    KeepAliveCounts(s);
  }

  /** The filter keeps the living agents and only them, in their original order. */
  lemma {:induction false} KeepAliveOrder(s: seq<Agent>)
    ensures forall a :: a in KeepAlive(s) <==> a in s && a.energy > 0.0
    ensures IsSubseq(KeepAlive(s), s)
    ensures |KeepAlive(s)| <= |s|
    decreases |s|
  {
    if s == [] {
      SubseqRefl(s);
    } else {
      var init, last := s[..|s| - 1], s[|s| - 1];
      KeepAliveOrder(init);
      assert s == init + [last];
      SubseqAppend(KeepAlive(init), init, last);
      if last.energy > 0.0 {
        assert KeepAlive(s) == KeepAlive(init) + [last];
      } else {
        assert KeepAlive(s) == KeepAlive(init);
      }
      SubseqLength(KeepAlive(s), s);
    }
  }

  /** Each living agent is kept as many times as it occurs; no dead one is kept. */
  lemma {:induction false} KeepAliveCounts(s: seq<Agent>)
    ensures forall a :: multiset(KeepAlive(s))[a] == if a.energy > 0.0 then multiset(s)[a] else 0
    decreases |s|
  {
    if s != [] {
      var init, last := s[..|s| - 1], s[|s| - 1];
      KeepAliveCounts(init);
      assert s == init + [last];
      assert multiset(s) == multiset(init) + multiset{last};
      if last.energy > 0.0 {
        assert KeepAlive(s) == KeepAlive(init) + [last];
        assert multiset(KeepAlive(s)) == multiset(KeepAlive(init)) + multiset{last};
      } else {
        assert KeepAlive(s) == KeepAlive(init);
      }
    }
  }

  /** Filtering a list extended by one agent extends the filtered list by that agent when it is alive. */
  lemma KeepAliveSnoc(s: seq<Agent>, a: Agent)
    ensures KeepAlive(s + [a]) == KeepAlive(s) + (if a.energy > 0.0 then [a] else [])
  {
    assert (s + [a])[..|s|] == s;
  }

  /** `list.reduce((acc, a) => acc + a.energy, 0)`. */
  function TotalEnergy(s: seq<Agent>): real
    decreases |s|
  {
    if s == [] then 0.0 else TotalEnergy(s[..|s| - 1]) + s[|s| - 1].energy
  }

  lemma {:induction false} TotalEnergyAppend(a: seq<Agent>, b: seq<Agent>)
    ensures TotalEnergy(a + b) == TotalEnergy(a) + TotalEnergy(b)
    decreases |b|
  {
    if b == [] {
      assert a + b == a;
    } else {
      assert (a + b)[..|a + b| - 1] == a + b[..|b| - 1];
      TotalEnergyAppend(a, b[..|b| - 1]);
    }
  }

  /** Splicing an agent out of a list takes exactly its energy out of the total. */
  lemma {:induction false} TotalEnergyRemove(s: seq<Agent>, k: nat)
    requires k < |s|
    ensures TotalEnergy(Remove(s, k)) == TotalEnergy(s) - s[k].energy
  {
    var before, a, after := s[..k], s[k], s[k + 1..];
    assert s == before + ([a] + after);
    assert Remove(s, k) == before + after;
    TotalEnergyAppend(before, [a] + after);
    TotalEnergyAppend([a], after);
    TotalEnergyAppend(before, after);
    assert TotalEnergy([a]) == a.energy by {
      assert [a][..0] == [];
    }
  }

  /** A list of living agents has a positive total exactly when it is not empty. */
  lemma {:induction false} TotalEnergyPositive(s: seq<Agent>)
    requires forall k :: 0 <= k < |s| ==> s[k].energy > 0.0
    ensures TotalEnergy(s) >= 0.0
    ensures TotalEnergy(s) > 0.0 <==> |s| > 0
    decreases |s|
  {
    if s != [] {
      TotalEnergyPositive(s[..|s| - 1]);
    }
  }

  // ---------------------------------------------------------------------
  // The prey pass

  /** Every prey of `preys` after its own move; `jitter(i)` is the random pair drawn by prey `i`. */
  function PreyMoves(preys: seq<Agent>, preds: seq<Agent>, jitter: nat -> Draw, normalize: Vec -> Vec, width: real, height: real): (r: seq<Agent>)
    ensures |r| == |preys|
  {
    seq(|preys|, i requires 0 <= i < |preys| => PreyStep(preys[i], preds, jitter(i), normalize, width, height))
  }

  // ---------------------------------------------------------------------
  // The predator pass

  /** Predators after their moves, and the prey list the captures have left. */
  datatype Hunt = Hunt(hunters: seq<Agent>, preys: seq<Agent>)

  /** The prey list after a move that captured the prey at `captured`, if any. */
  function Capture(preys: seq<Agent>, captured: Option<nat>): seq<Agent>
    requires captured.Some? ==> captured.value < |preys|
  {
    match captured
    case None => preys
    case Some(k) => Remove(preys, k)
  }

  /**
   * The predators move one after the other, in list order; each one chases
   * the prey list as the captures of the predators before it have left it.
   */
  function PredatorMoves(preds: seq<Agent>, preys: seq<Agent>): (r: Hunt)
    ensures |r.hunters| == |preds|
    ensures |r.preys| <= |preys|
    decreases |preds|
  {
    if preds == [] then Hunt([], preys)
    else
      var before := PredatorMoves(preds[..|preds| - 1], preys);
      var p := Pursue(preds[|preds| - 1], before.preys);
      Hunt(before.hunters + [p.hunter], Capture(before.preys, p.captured))
  }

  /** The predator pass over one more predator: that predator moves against what the earlier ones left. */
  lemma PredatorMovesSnoc(preds: seq<Agent>, preys: seq<Agent>, j: nat)
    requires j < |preds|
    ensures var before := PredatorMoves(preds[..j], preys);
            var p := Pursue(preds[j], before.preys);
            PredatorMoves(preds[..j + 1], preys) == Hunt(before.hunters + [p.hunter], Capture(before.preys, p.captured))
  {
    assert preds[..j + 1][..j] == preds[..j];
  }

  /** The number of predators of the pass that capture a prey. */
  function Captures(preds: seq<Agent>, preys: seq<Agent>): nat
    decreases |preds|
  {
    if preds == [] then 0
    else
      var init := preds[..|preds| - 1];
      var p := Pursue(preds[|preds| - 1], PredatorMoves(init, preys).preys);
      Captures(init, preys) + (if p.captured.Some? then 1 else 0)
  }

  /**
   * The prey that survive the predator pass are the prey it started with,
   * in their original order, less exactly one prey per capture; each
   * predator captures at most once.
   */
  lemma {:induction false} PredatorMovesOrder(preds: seq<Agent>, preys: seq<Agent>)
    ensures IsSubseq(PredatorMoves(preds, preys).preys, preys)
    ensures |PredatorMoves(preds, preys).preys| == |preys| - Captures(preds, preys)
    ensures Captures(preds, preys) <= |preds|
    decreases |preds|
  {
    if preds == [] {
      SubseqRefl(preys);
    } else {
      var before := PredatorMoves(preds[..|preds| - 1], preys);
      PredatorMovesOrder(preds[..|preds| - 1], preys);
      var p := Pursue(preds[|preds| - 1], before.preys);
      if p.captured.Some? {
        RemoveSubseq(before.preys, p.captured.value);
        SubseqTrans(Capture(before.preys, p.captured), before.preys, preys);
      }
    }
  }

  /**
   * Energy accounting of the predator pass: what the captured prey held is
   * handed to the predators, and each predator pays the move cost once.
   */
  lemma {:induction false} PredatorMovesEnergy(preds: seq<Agent>, preys: seq<Agent>)
    ensures var r := PredatorMoves(preds, preys);
            TotalEnergy(r.hunters) + TotalEnergy(r.preys)
              == TotalEnergy(preds) + TotalEnergy(preys) - |preds| as real * ENERGY_LOSS
    decreases |preds|
  {
    if preds != [] {
      var init, q := preds[..|preds| - 1], preds[|preds| - 1];
      var before := PredatorMoves(init, preys);
      PredatorMovesEnergy(init, preys);
      var p := Pursue(q, before.preys);
      PursueEnergy(q, before.preys);
      TotalEnergyAppend(before.hunters, [p.hunter]);
      assert TotalEnergy([p.hunter]) == p.hunter.energy by {
        assert [p.hunter][..0] == [];
      }
      if p.captured.Some? {
        TotalEnergyRemove(before.preys, p.captured.value);
      }
    }
  }

  // ---------------------------------------------------------------------
  // One frame

  /** The two populations after a frame. */
  datatype Populations = Populations(preys: seq<Agent>, predators: seq<Agent>)

  /**
   * One frame: the prey pass keeps the living prey it moved (newborns are
   * pushed onto the old array and never make it into the new one), then the
   * predator pass runs against that list and keeps the living predators.
   */
  function Frame(preys: seq<Agent>, preds: seq<Agent>, jitter: nat -> Draw, normalize: Vec -> Vec, width: real, height: real): Populations {
    var survivors := KeepAlive(PreyMoves(preys, preds, jitter, normalize, width, height));
    var hunt := PredatorMoves(preds, survivors);
    Populations(hunt.preys, KeepAlive(hunt.hunters))
  }

  /** What holds of the populations between frames. */
  ghost predicate Healthy(p: Populations, width: real, height: real) {
    && (forall a :: a in p.preys ==> a.energy > 0.0 && InPlane(a, width, height))
    && (forall a :: a in p.predators ==> a.energy > 0.0 && NearPlane(a, width, height))
  }

  /**
   * The predator pass only removes prey, and predators that start within one
   * unit of the canvas and chase prey on the canvas stay within one unit of it.
   */
  lemma {:induction false} PredatorMovesKeepPlane(preds: seq<Agent>, preys: seq<Agent>, width: real, height: real)
    requires forall a :: a in preys ==> InPlane(a, width, height)
    requires forall a :: a in preds ==> NearPlane(a, width, height)
    ensures var r := PredatorMoves(preds, preys);
            && (forall a :: a in r.preys ==> a in preys)
            && (forall a :: a in r.hunters ==> NearPlane(a, width, height))
    decreases |preds|
  {
    if preds != [] {
      var init, q := preds[..|preds| - 1], preds[|preds| - 1];
      var before := PredatorMoves(init, preys);
      PredatorMovesKeepPlane(init, preys, width, height);
      var p := Pursue(q, before.preys);
      PursueNearPlane(q, before.preys, width, height);
      if p.captured.Some? {
        RemoveSubseq(before.preys, p.captured.value);
        SubseqMembers(Capture(before.preys, p.captured), before.preys);
      }
    }
  }

  /**
   * A frame keeps the populations healthy: after it, every prey and every
   * predator has positive energy, every prey is on the canvas and every
   * predator within one unit of it, whatever the random draws and the
   * normalisation.
   */
  lemma FrameHealthy(preys: seq<Agent>, preds: seq<Agent>, jitter: nat -> Draw, normalize: Vec -> Vec, width: real, height: real)
    requires 0.0 <= width && 0.0 <= height
    requires Healthy(Populations(preys, preds), width, height)
    ensures Healthy(Frame(preys, preds, jitter, normalize, width, height), width, height)
  {
    var moved := PreyMoves(preys, preds, jitter, normalize, width, height);
    var survivors := KeepAlive(moved);
    KeepAliveSpec(moved);
    forall a | a in moved
      ensures InPlane(a, width, height)
    {
      var k :| 0 <= k < |moved| && moved[k] == a;
      assert a == PreyStep(preys[k], preds, jitter(k), normalize, width, height);
    }
    var hunt := PredatorMoves(preds, survivors);
    PredatorMovesKeepPlane(preds, survivors, width, height);
    KeepAliveSpec(hunt.hunters);
  }

  /**
   * Who leaves in a frame: the prey kept are the moved prey with positive
   * energy less the captured ones, in their original order; the predators
   * kept are the moved predators with positive energy, in order. Newborns
   * never join, so the prey count never grows within a frame.
   */
  lemma FrameOrder(preys: seq<Agent>, preds: seq<Agent>, jitter: nat -> Draw, normalize: Vec -> Vec, width: real, height: real)
    ensures var moved := PreyMoves(preys, preds, jitter, normalize, width, height);
            var r := Frame(preys, preds, jitter, normalize, width, height);
            && IsSubseq(r.preys, moved)
            && IsSubseq(r.predators, PredatorMoves(preds, KeepAlive(moved)).hunters)
            && |r.preys| <= |preys|
            && |r.predators| <= |preds|
  {
    var moved := PreyMoves(preys, preds, jitter, normalize, width, height);
    var survivors := KeepAlive(moved);
    KeepAliveSpec(moved);
    PredatorMovesOrder(preds, survivors);
    SubseqTrans(PredatorMoves(preds, survivors).preys, survivors, moved);
    SubseqLength(PredatorMoves(preds, survivors).preys, moved);
    KeepAliveSpec(PredatorMoves(preds, survivors).hunters);
  }

  /**
   * A prey rich enough to give birth twice, alone on the canvas, is still
   * the only prey after the frame. `Frame` builds the new prey list from the
   * moved prey alone; that the newborns pushed during the move are dropped
   * is what `Simulation.World.PreyPass` proves of the list it reassigns.
   */
  lemma NewbornsAreLost(parent: Agent, jitter: nat -> Draw, normalize: Vec -> Vec, width: real, height: real)
    requires parent.energy == 200.1
    ensures Offspring(parent) == 2
    ensures Frame([parent], [], jitter, normalize, width, height).preys
              == [PreyStep(parent, [], jitter(0), normalize, width, height)]
  {
    TwoBirthsExample(parent, [], jitter(0), normalize, width, height);
    var moved := PreyMoves([parent], [], jitter, normalize, width, height);
    assert moved[..0] == [];
    assert KeepAlive(moved) == [moved[0]];
  }

  /**
   * Captures are resolved in predator order: of two predators standing on
   * the only prey, the first captures it and gains its energy, and the second
   * finds no prey left.
   */
  lemma FirstPredatorWins(first: Agent, second: Agent, prey: Agent)
    requires first.size == PREDATOR_SIZE && second.size == PREDATOR_SIZE && prey.size == PREY_SIZE
    requires first.x == prey.x && first.y == prey.y
    ensures var r := PredatorMoves([first, second], [prey]);
            && r.hunters[0].energy == first.energy + prey.energy - ENERGY_LOSS
            && r.hunters[1] == second.(energy := second.energy - ENERGY_LOSS)
            && r.preys == []
  {
    SamePlaceCapture(first, prey);
    assert [first, second][..1] == [first];
    assert [first][..0] == [];
    var one := PredatorMoves([first], [prey]);
    assert PredatorMoves([], [prey]) == Hunt([], [prey]);
    assert one == Hunt([Pursue(first, [prey]).hunter], Remove([prey], 0));
    assert Remove([prey], 0) == [];
    assert Pursue(second, []) == Pursuit(second.(energy := second.energy - ENERGY_LOSS), None);
  }
}
