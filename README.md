# Predator-prey simulator: the stepping engine

This project models the bookkeeping core of a grid-based predator-prey
simulator. A `Simulator` owns three things:

- a master list of organisms (foxes, rabbits and plants);
- the rectangular field they live on;
- a tick counter.

It supports four operations:

- **One tick** (`simulateOneStep`). The counter goes up by one. Every entry of
  the list acts once, in list order, and its newborns go to a side list. An
  entry found dead after its act is then reconciled in place:
  - a dead plant is overwritten at the same position by a fresh plant with the
    field and location the dead plant reports after its act;
  - a dead fox or rabbit is removed.

  Finally the newborns are appended, in the order the acts produced them.
- **Reset.** The counter goes back to 0, the list is emptied and then seeded
  again.
- **Seeding** (`populate`). Every cell of the field is visited in row-major
  order, and one organism is appended for each cell. The kind comes from a
  two-stage test on the random generator: a fox when the fox test passes;
  otherwise a rabbit when a second, rabbit test passes; otherwise a plant.
- **Getters** for the field and the counter.

The model is imperative where the source is:

- `Simulation.Simulator` is a class with the list as a `seq` field, the field
  as a `const`, and the counter as a 32-bit integer.
- The random generator is a class `World.DrawSource`. Its state is the number
  of draws taken so far.
- What one tick does to the list is given as specification functions in module
  `Stepping`: `NextGeneration`, `Reconcile`, `Newborns`, `Position` and
  `Removed`. The one-tick method is proved against those functions. The
  properties the source promises are then proved about the functions, as
  lemmas.
- Seeding is specified the same way, by `Seeding.Seed`.

An organism's behaviour is not part of this model. Each act is an input: one
`Stepping.ActOutcome` per list entry, giving whether the organism is alive
after its act, the field and location it reports after its act, and which
newborns it added to the side list.
The seeding's draws are inputs too: `hits(k)` says whether the k-th
comparison the seeding makes, `nextDouble()` against the fox or rabbit
probability, passed. `World.DrawSource.taken` counts the seeding's own draws
only.

The rabbit draw (Simulator.java:87, an `else if`) is taken only when the fox
draw fails, so a cell takes one draw when it gets a fox and two otherwise.

## Model

| member | source | states |
|---|---|---|
| Simulation.Simulator.SimulateOneStep | Simulator.java:42-61 | The counter goes up by one, wrapping from 2^31-1 to -2^31 like a Java `int`. The list becomes `NextGeneration` of the old list and the act outcomes. The organisms whose act is called are exactly the old entries, in list order, so no newborn acts in the tick it was born. |
| Simulation.Simulator.Reset | Simulator.java:66-70 | The counter is 0. The list is exactly the seeding of the whole field from the current draw position, with nothing left from before. The draw position ends where that seeding ends. |
| Simulation.Simulator.Populate | Simulator.java:75-99 | Appends the seeding of all depth × width cells to the list. The counter is unchanged. Exactly the draws that seeding uses are taken. |
| Simulation.DrawCell | Simulator.java:82-96 | The kind for one cell: a fox when the first draw hits; otherwise a rabbit or a plant, decided by a second draw. The draw position advances by one after a fox and by two otherwise. |
| Simulation.Simulator.constructor | Simulator.java:29-35 | A new field of the given size, a counter at 0, and the list seeded from the given draw source. |
| Simulation.Simulator.GetStep | Simulator.java:119-121 | Returns the tick counter. |
| Simulation.Simulator.GetField | Simulator.java:115-117 | Returns the field. |
| Simulation.CellStep | Simulator.java:80-96 | Visiting cell (row, col), numbered k in row-major order, extends the seeding of k cells to the seeding of k + 1 cells. It appends one organism at (row, col), of the kind decided at the current draw position. |
| Simulation.RowMajor | Simulator.java:80-81 | The nested row and column loops reach cell (row, col) as cell number row · width + col, counted row by row. |
| Simulation.RowStartProduct | Simulator.java:80-81 | After `depth` full rows, depth × width cells have been visited. |
| Seeding.Seed | Simulator.java:80-98 | Seeding k cells gives exactly k organisms and takes between k and 2k draws. |
| Seeding.SeedPrefix | Simulator.java:80-98 | The seeding only appends: seeding more cells extends the seeding of fewer cells. |
| Seeding.SeededCell | Simulator.java:80-96 | The k-th seeded organism is born alive, in the field, at row k div width and column k mod width. |
| Seeding.SeededKind | Simulator.java:82-96 | Write p for the draw position at the start of cell k. The k-th organism is a fox exactly when draw p hits. It is a rabbit exactly when draw p misses and draw p + 1 hits. It is a plant exactly when both miss. Its cell takes one draw after a fox and two otherwise. |
| Seeding.SeededInField | Simulator.java:80-98 | Every organism of the whole-field seeding lies on a cell of the field. |
| Seeding.CellAtDivMod | Simulator.java:80-81 | Counting cells row by row puts cell k at row k div width and column k mod width. |
| Stepping.NextGenerationLength | Simulator.java:46-60 | After the pass, the list length is the old length less the dead foxes and rabbits. A dead plant changes no length. After the newborns are appended, that many are added on top. |
| Stepping.PassLength | Simulator.java:46-58 | After the first n entries have been visited, the cursor has passed n entries less the removed ones. |
| Stepping.ReconcileAllAlive | Simulator.java:46-58 | Every entry the pass leaves in the list is alive as its own act left it. No dead fox or rabbit remains, and no dead plant either. |
| Stepping.NextGenerationAllAlive | Simulator.java:46-60 | When the acts report only live newborns, every entry of the list at the end of the tick is alive, as the acts reported it. |
| Stepping.NewbornsAllAlive | Simulator.java:44-48 | When the acts add only live newborns, every organism in the side list is alive. |
| Stepping.ReconcileAt | Simulator.java:47-53 | Take an entry that survives, or a plant that died; it lands at its `Position`. A survivor appears there exactly as its act left it: reconciliation does not alter it. A dead plant is replaced there by a new live plant with the field and location the dead plant reports after its act. |
| Stepping.PositionOrder | Simulator.java:46-58 | The pass keeps the relative order of the entries it keeps. A kept entry before entry k lands strictly before k's position. |
| Stepping.ReconcileCovered | Simulator.java:46-58 | Every entry of the reconciled list is the image of some kept entry: the pass makes no entries of its own. |
| Stepping.PositionIndex | Simulator.java:46-58 | Entry i ends at index i less the entries removed before it. An entry with no removal before it keeps its own index. |
| Stepping.PassPrefix | Simulator.java:46-58 | The pass only overwrites or deletes at the cursor. What is behind the cursor is never changed again. |
| Stepping.NewbornsPlaced | Simulator.java:44-60 | The newborns of the i-th act sit in the final list after every reconciled entry and after the newborns of earlier acts, in the order that act produced them. |
| Stepping.NewbornsChunk | Simulator.java:44-48 | In the side list, each act's newborns form one contiguous run, right after those of earlier acts. |
| Stepping.NoNewborns | Simulator.java:44-48 | When no act adds newborns, the side list stays empty. |
| Stepping.PlantsOnlyStable | Simulator.java:49-53 | Take a list of plants only, with no newborns. Its length never changes, and at every index there is a live plant with that entry's field and location after its act. |
| Stepping.PlantsReconciled | Simulator.java:49-53 | Reconciling plants only gives, index for index, live plants with the field and location each entry reports after its act. |

## Left out

- `delay` (Simulator.java:105-112) is not modelled. It is only `Thread.sleep` pacing.
- The `Color` arguments of the organism constructors are not modelled. They are presentation only, and the engine never reads them.
- The floating-point probabilities 0.02 and 0.08 and `Random.nextDouble` are not modelled. Each comparison `nextDouble() <= p` is a boolean input, `hits(k)`, for the k-th draw. `Randomizer` is not part of this model; the `DrawSource` passed to the seeding stands for the draws the seeding takes from its shared generator.
- Draws that organisms' acts take from the shared generator are not counted. `DrawSource.taken` counts only the seeding's own draws, and `hits(k)` is the outcome of the k-th seeding comparison. After a tick, the draw position `Reset` starts from is therefore not the position the shared generator has reached.
- The behaviour of `act` and of `Fox`, `Rabbit`, `Plant`, `Field` and `Location` is not modelled: their source is not part of this model. Each act is an input `ActOutcome`. The model assumes only that each constructor gives a live organism of its kind at the field and location it is passed.
- The boolean first argument of `new Fox(true, …)` and `new Rabbit(true, …)` (Simulator.java:84, 89) is not modelled. Fox.java and Rabbit.java are not part of this model, so what that argument sets in a new animal is not known here; `new Plant` (Simulator.java:51, 94) takes no such argument.
- Effects of one organism's act on other entries are not modelled. For example, a fox eating a rabbit that was already visited in the same tick leaves that rabbit in the list, dead, until the next tick. Likewise, a newborn placed by an earlier act and killed by a later act in the same tick is still appended, dead, with the other newborns (Simulator.java:60). The model does not track either death in this tick: each newborn is as its act reported it. "Every entry is alive" is therefore stated as "alive as its own act left it".
- Object identity and aliasing are not modelled. A kept entry is its post-act value. A live plant and a fresh seedling at the same place are equal values.
- `field.clear()` (Simulator.java:78) and field occupancy are not modelled. Field.java is not part of this model, so the field keeps only its dimensions.
- Simulation.Simulator.SimulateOneStep and Simulation.Simulator.Populate work on a local copy of the list and store it back into `animals` at the end, rather than mutating `animals` entry by entry. Nothing else reads the list during a pass, so the resulting state is the same.
- Simulation.Simulator.constructor requires positive dimensions, as the constructor's documentation demands, and its dimensions are `nat`. Negative Java `int` arguments are not modelled.
