# Predator–prey simulation engine in Dafny

This project models the engine of `simulacion.js`, a browser simulation of
prey and predators on a canvas. The model covers:

- **Prey.** `Prey` objects move by a random jitter plus a push away from
  predators closer than 50. They are clamped to the canvas and pay 0.1
  energy per move. They give birth when they hold at least 100 energy after
  that cost.
- **Predators.** `Predator` objects take one unit step on each axis towards
  the nearest prey. They capture it when they come closer than the sum of
  the two sizes, and then take its whole energy and splice it out of the
  prey list.
- **One frame (`simulate`).**
  1. The day/night flag flips whenever the frame counter is a multiple of
     300, and the counter is incremented.
  2. `preys = preys.filter(…)` moves every prey and keeps the living ones.
  3. `predators = predators.filter(…)` moves every predator against the
     prey list as earlier captures have left it, and keeps the living ones.
  4. The total energy of the predators is computed.
- **Setup and buttons.** `initializeAgents` creates 50 prey and 5
  predators. The add-prey and add-predator buttons each push one new agent.

The model has two layers.

- **Value layer.** Modules `Geometry`, `Agents`, `Population`, `Clock` and
  `Sequences` state the rules as functions on values. `Agent` is one agent's
  state, `PreyStep` and `Pursue` are one move, and `Frame` is one frame.
  These modules also prove what the rules imply:
  - energy accounting;
  - who captures whom;
  - order preservation;
  - that a frame leaves every agent alive and in place;
  - the day/night cycle.
- **Imperative layer.** Module `Simulation` follows the program's own shape.
  - Classes `Prey` and `Predator` have the mutable fields `x`, `y` and
    `energy`. Their `Move` methods update those fields in place.
  - Class `World` holds the global state: the two agent lists (as
    sequences of object references that the filters and `splice` reassign),
    `dayTime` and `ageCounter`.
  - Every method is proved to change the state exactly as the value layer
    says. `World.Valid` holds after every frame and every button press.

Randomness is passed in as parameters. A `Draw` is a pair of numbers that
`Math.random()` could return. Prey `i` moves with `jitter(i)`, its newborn
`n` is placed by `births(i)(n)`, and the normalisation of the evasion
vector (the division by `Math.hypot`) is the function `normalize`.

Four behaviours of the code are easy to miss, and the model keeps them:

- **Predators are not clamped.** A prey's coordinates are clamped to the
  canvas after every move (`simulacion.js:90-91`). A predator's unit steps
  are not clamped at all (`simulacion.js:137-140`). A predator can step off
  the canvas by up to one unit (`Agents.PredatorLeavesCanvas`). The
  invariant it does keep is "within one unit of the canvas"
  (`Agents.PursueNearPlane`).
- **The first frame is night.** The flag starts as day (`simulacion.js:14`),
  but it is flipped before the counter is incremented, and the counter
  starts at 0. So the very first frame already flips it: frames 0–299 are
  night, 300–599 day, and so on (`Clock.DayNightCycle`,
  `Clock.FirstFrameIsNight`).
- **Newborn prey are lost.** Newborns are pushed onto the array that
  `preys.filter` is iterating (`simulacion.js:98`). The filter visits only
  the elements present when it started, and its result then replaces that
  array, so newborns never join the population. `Simulation.Prey.Move`
  pushes them onto the list. `Simulation.World.PreyPass` then makes the
  list a subsequence of the list as it stood before the pass, which holds
  no newborn. At the value level, `Frame` builds the new prey list from the
  moved prey alone (`Population.NewbornsAreLost`), and the prey count never
  grows during a frame (`Population.FrameOrder`).
- **Dead prey are not hunted.** Each filter removes the dead of its own
  pass immediately. Dead prey are therefore gone before the predators move.

## Model

| member | source | states |
|---|---|---|
| Geometry.Clamp | simulacion.js:90-91 | `max(0, min(v, hi))` lies in [0, hi]; it is `v` itself when `v` is already inside, 0 below, `hi` above |
| Geometry.StepToward | simulacion.js:137-140 | a predator coordinate moves by exactly +1, 0 or -1; it stays put exactly when it already equals the target; it never moves away from the target |
| Geometry.StepTowardCloses | simulacion.js:137-140 | a gap of at least one unit shrinks by exactly one; a smaller gap may be overshot, but the coordinate ends less than one unit from the target |
| Geometry.StepTowardNearInterval | simulacion.js:137-140 | from within one unit of [0, hi], a step towards a point of [0, hi] stays within one unit of it |
| Geometry.StepTowardLeavesInterval | simulacion.js:137-140 | the step is not clamped: 9.5 towards 10 gives 10.5, and 0.5 towards 0 gives -0.5 |
| Agents.Spawn | simulacion.js:61-66 | a new agent has energy 150 and its kind's size; with draws in [0, 1) it lies on the canvas |
| Agents.Births | simulacion.js:95-96 | no births below 100; from 100 up, `n = floor(e / 100)` with `n >= 1` and `100 n <= e < 100 (n + 1)` |
| Agents.PreyStep | simulacion.js:69-108 | after one move the prey lies on the canvas whatever the evasion and the jitter, and keeps its size |
| Agents.EvasionSum | simulacion.js:72-78 | the sum of `(self - q)` over the predators strictly within 50 of the prey, in list order; `Agents.EvasionSumAppend` and `Agents.NoThreatNoEvasion` state its properties |
| Agents.Evasion | simulacion.js:80-85 | the evasion sum divided by its length when it is non-zero, and the zero vector otherwise; `Agents.NoThreatNoEvasion` states that it is zero without a threat |
| Agents.PreyPosition | simulacion.js:88-91 | the new position lies on the canvas on each axis, whatever the jitter and the evasion |
| Agents.Offspring | simulacion.js:95-96 | a move pushes at least one newborn exactly when the energy left after the 0.1 move cost reaches 100 |
| Agents.EvasionSumAppend | simulacion.js:72-78 | the evasion sum over two lists of predators, one after the other, is the sum of their two evasion sums |
| Agents.NoThreatNoEvasion | simulacion.js:72-85 | when no predator is strictly within 50, the evasion sum is the zero vector, and so is the evasion whatever the normalisation |
| Agents.PreyStepWithoutThreat | simulacion.js:71-91 | with no predator nearby, the new position is the old one plus `(r - 0.5) * 4` on each axis, clamped to the canvas |
| Agents.PreyEnergy | simulacion.js:92-101 | the move cost is paid once; below 100 remaining there are no births; from 100 up there are `floor(e / 100)` births at 25 each, and the parent keeps at least three quarters of `e` |
| Agents.ReproducingPreySurvives | simulacion.js:95-107 | a prey that gives birth ends its move with positive energy |
| Agents.TwoBirthsExample | simulacion.js:92-100 | a prey left with 200 after the move cost has two newborns and ends with 150 |
| Agents.Nearest | simulacion.js:130-136 | a prey is chosen exactly when the list is non-empty, and the choice is a valid index |
| Agents.NearestIsFirstMinimum | simulacion.js:131-134 | the chosen prey is at minimal distance, and every earlier prey is strictly further away: ties go to the first prey in list order |
| Agents.Pursue | simulacion.js:128-158 | a captured index is a valid index of the prey list, and the predator keeps its size |
| Agents.Caught | simulacion.js:143-144 | predator and prey are closer than the sum of their two sizes; `Agents.PursueEnergy` states that a capture happens exactly then |
| Agents.PursueMoves | simulacion.js:130-140 | with no prey the predator stays put; otherwise each axis moves by +1, 0 or -1 towards the nearest prey, and does not move exactly when it already matches that prey |
| Agents.PursueEnergy | simulacion.js:142-151 | without a capture the predator only pays 0.1; a capture happens exactly when the moved predator is closer to the nearest prey than the sum of their sizes, takes that prey's whole energy, and reports the nearest prey's index |
| Agents.SamePlaceCapture | simulacion.js:143-147 | a predator standing on the only prey captures it and ends with its energy plus the prey's, minus 0.1 |
| Agents.PursueNearPlane | simulacion.js:137-140 | a predator within one unit of the canvas that chases prey on the canvas stays within one unit of it |
| Agents.PredatorLeavesCanvas | simulacion.js:137-140 | a predator at 99.5 chasing a prey at the edge 100 of a 100-wide canvas ends off the canvas |
| Clock.Toggle | simulacion.js:187-189 | the flag changes exactly when the counter is a multiple of 300 |
| Clock.DayAfter | simulacion.js:187-190 | the flag after a number of frames, starting from day with the counter at 0; `Clock.DayNightCycle` gives it in closed form |
| Clock.DayNightCycle | simulacion.js:186-190 | after the frame with counter `k` it is day exactly when `floor(k / 300)` is odd |
| Clock.FirstFrameIsNight | simulacion.js:186-190 | starting from day at counter 0, the first frame is already night |
| Population.KeepAliveSpec | simulacion.js:197-208 | the filter keeps exactly the agents with positive energy, each as many times as it occurs, in their original order, and never lengthens the list |
| Population.KeepAlive | simulacion.js:197-208 | `filter(a => a.energy > 0)`; `Population.KeepAliveSpec` states what it keeps |
| Population.KeepAliveOrder | simulacion.js:197-208 | the filter keeps the agents with positive energy and only them, in their original order, and never lengthens the list |
| Population.KeepAliveCounts | simulacion.js:197-208 | each agent with positive energy is kept as many times as it occurs, and no other agent is kept |
| Population.KeepAliveSnoc | simulacion.js:197-208 | the filter over one more agent adds that agent exactly when it is alive |
| Population.TotalEnergyAppend | simulacion.js:214 | the energy sum of a concatenation is the sum of the two sums |
| Population.TotalEnergy | simulacion.js:214 | the `reduce` summing the predators' energies; `Population.TotalEnergyAppend`, `TotalEnergyRemove` and `TotalEnergyPositive` state its properties |
| Population.TotalEnergyRemove | simulacion.js:145-146 | splicing out an agent takes exactly its energy out of the sum |
| Population.TotalEnergyPositive | simulacion.js:214 | over living agents the sum is non-negative, and positive exactly when the list is non-empty |
| Population.PreyMoves | simulacion.js:197-201 | the prey pass gives one moved prey for every prey it started with |
| Population.PredatorMoves | simulacion.js:204-208 | the predator pass gives one moved predator per predator and never lengthens the prey list |
| Population.Capture | simulacion.js:145-146 | the prey list with the captured prey spliced out, or the same list when there is no capture; `Sequences.Remove` states what the splice does |
| Population.PredatorMovesSnoc | simulacion.js:204-208 | predator `j` moves against the prey list exactly as the captures of predators `0..j-1` left it |
| Population.PredatorMovesOrder | simulacion.js:204-208 | the prey left after the predator pass are a subsequence of the prey it started with, in their original order, shorter by exactly the number of captures (`Captures`); there are at most as many captures as predators |
| Population.PredatorMovesEnergy | simulacion.js:143-151 | over the predator pass, predator energy plus prey energy falls by exactly 0.1 per predator: captured energy is transferred, never created or lost |
| Population.PredatorMovesKeepPlane | simulacion.js:204-208 | the predator pass only removes prey, and predators within one unit of the canvas stay within it |
| Population.FrameHealthy | simulacion.js:196-208 | if every agent is alive and in place before a frame, the same holds after it: prey on the canvas, predators within one unit of it, all with positive energy |
| Population.Frame | simulacion.js:196-208 | one frame on values: the prey pass and its filter, then the predator pass against the survivors and its filter; `Population.FrameHealthy` and `Population.FrameOrder` state its properties, and `Simulation.World.Passes` proves the two passes compute it |
| Population.FrameOrder | simulacion.js:196-208 | after a frame the prey are a subsequence of the moved prey and the predators a subsequence of the moved predators, and neither list has grown |
| Population.NewbornsAreLost | simulacion.js:96-101 | a lone prey with two births ends the frame as the only prey |
| Population.FirstPredatorWins | simulacion.js:204-208 | of two predators on the only prey, the first captures it and gains its energy, and the second finds no prey left and only pays 0.1 |
| Sequences.Remove | simulacion.js:146 | `splice(k, 1)` removes element `k` and closes the gap, keeping the order of the rest |
| Sequences.IndexOf | simulacion.js:146 | `indexOf` is -1 exactly when the element is absent; otherwise it is the first position holding it |
| Sequences.IndexOfDistinct | simulacion.js:146 | in a list of distinct objects, `indexOf` of the element at `k` is `k`, so the splice removes the chosen prey |
| Sequences.RemoveSubseq | simulacion.js:146 | after a splice the rest of the list keeps its order |
| Sequences.RemoveDistinct | simulacion.js:146 | after a splice the removed object is gone, and the rest stay distinct |
| Simulation.Prey.constructor | simulacion.js:61-66 | a new prey has the state `Spawn` gives: a random point of the canvas, size 5, energy 150 |
| Simulation.Prey.Move | simulacion.js:69-108 | the prey's new state is `PreyStep` of its old state against the predators; it reports alive exactly when its energy is positive; the prey list gains exactly `Offspring` fresh newborns at its end, each as `Spawn` gives; the predators are untouched |
| Simulation.Prey.Flee | simulacion.js:71-91 | the new position is the clamped sum of the jitter and twice the normalised evasion vector (`PreyPosition`) |
| Simulation.Prey.EvasionFrom | simulacion.js:71-78 | the loop over the predators computes the evasion sum `EvasionSum` of this prey's state |
| Simulation.Prey.Reproduce | simulacion.js:97-99 | `count` fresh prey are pushed at the end of the list in order, newborn `n` placed by `births(n)`; the earlier elements are untouched |
| Simulation.Predator.constructor | simulacion.js:120-125 | a new predator has the state `Spawn` gives: a random point of the canvas, size 10, energy 150 |
| Simulation.Predator.Move | simulacion.js:128-158 | the predator's new state is `Pursue` of its old state against the prey states; after a capture the prey list is the old one with the captured prey spliced out at its `indexOf`, otherwise it is unchanged; it reports alive exactly when its energy is positive |
| Simulation.Predator.Approach | simulacion.js:137-140 | each coordinate takes one `StepToward` the target prey |
| Simulation.SpawnPreys | simulacion.js:170 | `count` distinct fresh prey, prey `k` placed by `draws(k)` |
| Simulation.SpawnPredators | simulacion.js:171 | `count` distinct fresh predators, predator `k` placed by `draws(k)` |
| Simulation.World.constructor | simulacion.js:11-15 | the world starts with no agents, day, and the counter at 0, and is valid |
| Simulation.World.InitializeAgents | simulacion.js:169-173 | the lists become 50 fresh prey and 5 fresh predators placed by the draws; the flag and the counter are unchanged; the world stays valid |
| Simulation.World.AddPrey | simulacion.js:235-238 | exactly one fresh prey, as `Spawn` gives, is pushed at the end; the existing prey, the predators, the flag and the counter are unchanged; the world stays valid |
| Simulation.World.AddPredator | simulacion.js:241-244 | exactly one fresh predator, as `Spawn` gives, is pushed at the end; the existing predators, the prey, the flag and the counter are unchanged; the world stays valid |
| Simulation.World.SetPreys | simulacion.js:197 | the prey list is replaced by the filter's result, and no agent's state changes |
| Simulation.World.SetPredators | simulacion.js:204 | the predator list is replaced by the filter's result, and no agent's state changes |
| Simulation.World.PreyTurn | simulacion.js:197-201 | the filter callback moves the prey as `PreyStep` says and keeps it exactly when its energy is positive; the prey list gains exactly `Offspring` fresh newborns at its end, each as `Spawn` gives (`Pushed`); the predators are untouched |
| Simulation.World.PreyFilterStep | simulacion.js:197-201 | after prey `i`'s turn, prey `0..i` hold their moved states, the later prey are untouched, and the survivors so far are the living moved prey, in order; the prey list gains exactly prey `i`'s `Offspring` fresh newborns at its end, placed by `births(i)` |
| Simulation.World.PreyPass | simulacion.js:197-201 | the prey list becomes the living prey among the moved prey, in order (`KeepAlive(PreyMoves(…))`); it is a subsequence of the old list and its objects are distinct |
| Simulation.World.PredatorTurn | simulacion.js:204-208 | the filter callback moves the predator as `Pursue` says; the prey list loses exactly the captured prey; the prey stay distinct and in order; the predator is kept exactly when its energy is positive |
| Simulation.World.PredatorFilterStep | simulacion.js:204-208 | after predator `j`'s turn, the prey list and the survivors so far are those `PredatorMoves` gives for the first `j + 1` predators |
| Simulation.World.FilterPredators | simulacion.js:204-208 | the filter moves the predators in list order: the prey list becomes what `PredatorMoves` leaves, and the survivors are its living predators, in order |
| Simulation.World.PredatorPass | simulacion.js:204-208 | the prey list is what the captures leave; the predator list becomes the living moved predators; both lists stay distinct subsequences of the old ones |
| Simulation.World.Passes | simulacion.js:196-208 | the two passes turn the populations into `Frame` of the old ones, keep both lists distinct subsequences of the old ones, and keep every agent alive and in place |
| Simulation.World.Tick | simulacion.js:187-190 | the flag flips exactly when the old counter is a multiple of 300; the counter rises by one; the flag stays in step with the counter; the populations are untouched |
| Simulation.World.Simulate | simulacion.js:182-219 | one frame turns the populations into `Frame` of the old ones, flips the flag as `Toggle` says and increments the counter; no list grows; it returns the predators' total energy, which is positive exactly when predators remain; the world stays valid |

## Left out

- Drawing is not modelled. That covers `draw`, `clearRect`, the background fill and each agent's `color`. It is output only, and nothing in the engine reads it.
- `updateCounters` is not modelled. It only writes the list lengths into the page.
- The learning chart is not modelled: `learningData`, `learningChart.update` and `cycleCount`. `World.Simulate` returns the energy sum that would be pushed to the chart.
- The start and pause buttons, the `simulationRunning` flag, the early return when the simulation is not running, and the rescheduling through `requestAnimationFrame` are not modelled. `World.Simulate` is one frame of a running simulation. The browser's event loop is not part of this model.
- `Math.random()` becomes explicit parameters (`Draw` pairs and functions from indices to draws). Setup and the add buttons require draws in [0, 1), which is the range `Math.random()` guarantees.
- Real arithmetic replaces IEEE-754 doubles. Rounding, infinities and NaN are not modelled, so `0.1` and the energy sums are exact.
- `Math.hypot` is not modelled.
  - Comparisons of a distance against a bound use squared lengths. This is exact over the reals because both sides are non-negative.
  - The division of the evasion sum by its length is the parameter `normalize`. It is applied only to a non-zero sum, as in the source.
- Agents.PreyStep: says nothing about the length of the normalised evasion vector, since `normalize` is a parameter.
- `canvas.width` and `canvas.height` become the natural-number constants `World.width` and `World.height`.
- Simulation.World.Simulate: applies the day/night flip after the two passes rather than before them. Neither pass reads or writes the flag or the counter, so the resulting state is the same.
- Simulation.World.Simulate: requires `Valid()`. The invariant holds from construction and is kept by every operation. Its distinctness part (every list element is a different object) is what makes `indexOf` find the captured prey.
- Agents.Pursue: its own contract only bounds the captured index and keeps the size. Its movement and energy behaviour is stated by `Agents.PursueMoves` and `Agents.PursueEnergy`.
