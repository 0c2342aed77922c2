# Influenza grocery-store SIR model in Dafny

This project models the simulation core of an agent-based, age-structured SIR model of
influenza A/H1N1 in a grocery store, written in Python on the Mesa framework (`model.py`).
The model covers:

- **Persons**, each in one of four strata: adult, child, elder, pregnant. A person can be
  vaccinated, infected, recovered or dead. Walls share the agent record.
- **The store**: a toroidal grid with one occupant per cell. Four aisles of fixed walls stand on
  it.
- **One activation of a person.** It moves to a random empty neighbouring cell. If it is
  infected, it undergoes a per-strata fatality trial. If it is eligible, it undergoes an
  infection trial. The infection probability is the transmission probability times the worst
  contact rate towards an infected neighbour. Last, a recovery timer counts down.
- **The scheduler's tick**: every agent is activated once, in a random order.
- **The counters** the data collector reads before each tick: S, I, R and D, per strata and in
  total.
- **The constructor**: the contact table, the walls, the per-strata shuffled vaccination flags,
  the initially infected sample and the placement of every person.

Every random draw is an explicit parameter:

- `random.random()` becomes a `Unit`, a real in [0, 1).
- A choice among the empty neighbouring cells becomes an index, reduced modulo the number of
  choices.
- `np.random.shuffle` becomes a Fisher–Yates pass with one index per position.
- `np.random.choice(replace=False)` becomes numpy's permute-then-take-prefix.
- The scheduler's shuffle becomes an activation order that must be a permutation.
- The placement loop becomes a list of distinct free cells.

Floating-point numbers are modelled as `real`.

Modules, in dependency order:

- `Wrappers`: `Result`.
- `Population`: strata and per-strata values.
- `Contact`: the contact table.
- `Torus`: cells and Moore neighbourhoods.
- `Agents`: the per-agent health state machine.
- `Space`: the grid, movement, activation and the tick.
- `Metrics`: the counters.
- `Seqs`: sequence helpers.
- `Layout`: the wall layout.
- `Seeding`: the seeding arrays.
- `Setup`: the constructor.
- `Simulation`: the model step and runs of steps.

## Model

| member | source | states |
|---|---|---|
| Population.RateStrata | model.py:252-277 | pregnant persons borrow the adult contact rates; every other strata uses its own |
| Contact.BuildContactMatrix | model.py:252-277 | the table has a row for every strata and an entry for every neighbour strata; the pregnant row and the pregnant column equal the adult ones; every entry equals the entry of the borrowed strata |
| Contact.ReadRatesInvertsBuild | model.py:243-277 | the nine configured rates can be read back from the table unchanged, so none is lost or swapped |
| Contact.BuildContactMatrixInjective | model.py:243-277 | two different rate configurations never give the same table |
| Contact.BuildContactMatrixNonNegative | model.py:48-74 | non-negative configured rates (the interface's lower bound) give a non-negative table |
| Contact.ContactMatrixAsymmetric | model.py:48-74 | with the default rates the table is not symmetric: adult towards child is 3, child towards adult is 6 |
| Torus.MooreCellsAreAdjacent | model.py:110-112 | the neighbourhood the move draws from is exactly the set of other cells at most one step away on each axis of the torus |
| Agents.FatalityTrial | model.py:121-145 | an infected person dies, leaving the infected state with its timer cleared, exactly when its draw is below its own strata's fatality percentage over 100; any other agent is unchanged |
| Agents.WorstRate | model.py:156-165 | the rate is non-negative, at least the rate towards every infected neighbour, and either 0 or the rate towards one of them |
| Agents.ScanNeighbours | model.py:156-165 | the single pass over the neighbours reports an infection exactly when some neighbour is infected, and yields the worst rate |
| Agents.NewInfected | model.py:119-171 | an infected agent only faces the fatality trial; an ineligible agent is untouched; an eligible agent is infected, with the timer set to the infection period, exactly when some neighbour is infected and the draw is below transmission times the worst rate |
| Agents.NewRecovered | model.py:173-178 | a timer of 1 turns infection into recovery; a positive timer drops by one; a zero timer changes nothing; cell, strata, vaccination and death are untouched |
| Agents.HealthStepPreservesConsistent | model.py:119-183 | an activation keeps the health flags consistent, keeps strata, cell and vaccination, leaves dead agents and walls unchanged, and keeps recovered agents recovered |
| Agents.NeverNewlyInfected | model.py:148-155 | vaccinated, recovered and dead agents and walls are never infected by an activation |
| Agents.InfectionDrawUnused | model.py:148-171 | the infection draw only matters for an eligible agent with an infected neighbour |
| Agents.FatalDrawUnused | model.py:121-145 | the fatality draw only matters for an infected agent |
| Agents.NeighboursUnused | model.py:148-157 | an ineligible agent's update does not depend on its neighbourhood |
| Agents.NoExposureNoInfection | model.py:167-171 | with transmission times worst rate at most 0, no draw infects an eligible agent |
| Agents.ExposureBelowWorst | model.py:156-171 | with a non-negative transmission probability, the risk towards any one infected neighbour is at most the probability the infection draw is compared with |
| Agents.ExposureIsSomeRisk | model.py:156-171 | a non-zero infection probability is the risk towards one particular infected neighbour, the one with the worst rate |
| Agents.CaughtByOne | model.py:156-171 | a successful infection draw falls below the risk towards some single infected neighbour |
| Agents.CaughtFromOne | model.py:156-171 | with a non-negative transmission probability, a draw below the risk towards any one infected neighbour succeeds |
| Agents.CertainTransmission | model.py:167-171 | with transmission times the rate towards some infected neighbour at 1 or more, every draw infects an eligible agent |
| Agents.RecoveredIsStable | model.py:148-155 | a recovered agent stays exactly as it is over any number of activations |
| Agents.CourseIgnoresCell | model.py:119-178 | the course of an infection over several activations does not depend on the cell the agent stands on |
| Agents.ZeroTimerNeverRecovers | model.py:173-178 | an infected agent with a zero timer stays infected forever while it survives |
| Agents.Countdown | model.py:173-178 | a surviving infected agent with timer t is still infected, with t - j left, after j < t activations, and recovered from the t-th activation on |
| Agents.NewInfectionRecovers | model.py:167-178 | with an infection period k >= 1, a newly infected survivor recovers in the activation that infected it when k = 1, and otherwise exactly after k - 1 further activations |
| Agents.ZeroPeriodNeverRecovers | model.py:167-178 | with an infection period of 0, a newly infected agent keeps a zero timer and never recovers |
| Space.SingleOccupancy | model.py:237 | no two live agents ever share a cell of the single-occupancy grid |
| Space.Move | model.py:107-117 | walls and dead agents do not move; a mobile agent moves to an empty cell adjacent on the torus, and stays exactly when every adjacent cell is occupied; nothing else changes, and the grid stays well formed |
| Space.LoneAgentStays | model.py:107-117 | on a one-cell torus the move leaves the world unchanged |
| Space.Commit | model.py:121-145 | an agent that has just died is taken off the grid, and the grid stays well formed |
| Space.Activate | model.py:107-183 | the agent ends on the cell its move reached, so it moves at most to one adjacent empty cell; an activation keeps the grid well formed and the flags consistent, touches only the activated agent, never changes strata or vaccination, leaves walls and dead agents alone, keeps recovered agents recovered, only infects eligible agents, and takes a newly dead agent off the grid; its health update is stated by Space.ActivateHealth |
| Space.CaughtMeansExposed | model.py:107-171 | after an eligible agent has moved, a successful infection draw means some infected person on a cell adjacent to its new cell has a risk above the draw |
| Space.ExposedMeansCaught | model.py:107-171 | with a non-negative transmission probability, an infected person adjacent to the new cell whose risk exceeds the draw makes the draw succeed |
| Space.ActivateHealth | model.py:107-183 | at the cell the move reached: an agent that cannot be infected goes through the fatality trial and the countdown, whatever its neighbours and infection draw; an eligible agent either stays as it was or is newly infected (recovering at once when the infection period is 1); it is infected only when an infected person adjacent to its new cell has a risk above the draw, and always when one has and the transmission probability is non-negative |
| Space.ActivateIneligible | model.py:119-183 | an agent that cannot be infected goes through its health update with no neighbours, and only its cell may differ |
| Space.Tick | model.py:569-571 | a tick over any order of existing agents keeps the grid well formed, the flags consistent and the dimensions and population fixed |
| Space.TickFrame | model.py:180-183 | across a tick, strata and vaccination are kept; walls and dead agents do not change; recovered agents stay recovered; agents left out of the order are untouched |
| Space.TickIneligible | model.py:569-571 | in a tick whose order names an agent that cannot be infected exactly once, that agent goes through one health update with the fatality draw of its place in the order, and only its cell may differ from that update |
| Metrics.CountIsFilterSize | model.py:393-531 | each per-strata counter equals the number of agents passing that strata's test |
| Metrics.TallyIsFilterSize | model.py:533-567 | each total, computed as the sum of four strata counters, equals the number of persons passing the compartment's test |
| Metrics.Collect | model.py:368-391 | the snapshot has the twenty counters; each counts the agents passing its test; each total is the sum of its four strata counters |
| Metrics.SirCountsUnvaccinated | model.py:393-531 | in a consistent population, S + I + R of a strata counts each unvaccinated person of that strata exactly once, dead ones as susceptible, and D never exceeds S |
| Metrics.DeadCountedAsSusceptible | model.py:394-408 | a dead unvaccinated person passes both the susceptible test and the dead test |
| Metrics.TotalsOvercountPopulation | model.py:533-567 | the four totals need not add up to the population: one dead adult makes them add up to 2 |
| Seeding.ShuffleFacts | model.py:328-331 | shuffling is a permutation: it keeps the length and the multiset of entries, and keeps distinct entries distinct |
| Seeding.ShuffleKeepsCount | model.py:328-331 | shuffling keeps the number of vaccinated flags |
| Seeding.StrataArray | model.py:305-311 | the strata array has one entry per person: adults first, then elderly, children and pregnant, each strata in its own contiguous slice |
| Seeding.VaccinationBlock | model.py:314-325 | a strata's flag block holds v_x true flags; it has n_x entries when v_x <= n_x and v_x entries otherwise |
| Seeding.VaccinatedArraySize | model.py:314-341 | when no vaccinated count exceeds its population, the vaccinated array has one flag per person and the total number of vaccinated ones |
| Seeding.VaccinatedArrayAligned | model.py:314-341 | when no vaccinated count exceeds its population, each strata's slice of the vaccinated array holds exactly that strata's vaccinated count |
| Seeding.UnvaccinatedIndices | model.py:343-344 | the indices returned are exactly the unvaccinated positions, without repeats |
| Seeding.Sample | model.py:345-348 | sampling fails exactly when more are asked for than the pool holds; otherwise the sample has the asked size, comes from the pool and has no repeats |
| Seeding.Mark | model.py:349-351 | a flag is set after marking exactly when it was set before or its index was marked |
| Seeding.MarkCount | model.py:349-351 | marking distinct, unset indices adds one set flag per index |
| Seeding.InfectedArray | model.py:343-351 | the infected flags fail exactly when the infected count exceeds the unvaccinated pool; otherwise the given number of flags is set, all at unvaccinated positions |
| Seeding.SeedArrays | model.py:305-351 | seeding fails when a vaccinated count exceeds its strata's population, or when more infected are asked for than there are unvaccinated persons; otherwise strata, per-strata vaccinated counts and infected count are as configured, and no vaccinated person is infected |
| Seeding.MisalignedVaccination | model.py:314-341 | with one person of each strata and two vaccinated adults, the constructor's vaccinated flags are one longer than its strata array, and the elder, whose vaccinated count is 0, is vaccinated |
| Layout.WallCellsFacts | model.py:284-293 | the layout has 104 distinct walls, at columns 10, 20, 30 and 40, rows 10 to 22 and 28 to 40 |
| Layout.GridOf | model.py:295-299 | placing the listed occupants puts each on its own cell and maps each cell back to its occupant |
| Setup.Init | model.py:199-366 | the constructor fails on a grid too small for the walls, then on the seeding errors, whatever the placement cells; it succeeds exactly when the walls fit and seeding succeeds, and then yields a well-formed, consistent world: the walls first, then each person on its cell, healthy except for the seeded infections, with a zero timer, and with strata, vaccination and infection as seeding promises |
| Setup.SeededInfectedNeverRecover | model.py:99-105 | an initially infected person starts with a zero timer, so it stays infected and never recovers while it survives |
| Simulation.Step | model.py:569-571 | the snapshot appended to the history describes the state before the tick, and the world after it is well formed and consistent |
| Simulation.StepKeepsAbsorbed | model.py:119-183 | every agent counted as recovered or dead before a step is still counted after it |
| Simulation.AbsorbedCountsGrow | model.py:485-531 | the recovered and dead counters, per strata and in total, never decrease over a step |
| Simulation.StepFrame | model.py:148-155 | over a step a vaccinated agent is never infected, recovered or killed, and dead agents and walls do not change |
| Simulation.SirSumConserved | model.py:393-507 | over a step each strata's S + I + R is unchanged |
| Simulation.Run | model.py:569-571 | a run of steps keeps the world well formed and consistent and adds one snapshot per step, keeping the earlier ones |
| Simulation.RunAbsorbedGrow | model.py:485-531 | over a run the recovered and dead counters never decrease |
| Simulation.RunFollowsCourse | model.py:569-571 | over a run in which every step's order names it once, an agent that cannot be infected follows the course of its infection with the fatality draws of its places in the orders; only its cell may differ |
| Simulation.RunCountdown | model.py:173-178 | an infected person with timer t that survives a run is still infected, with t minus the number of steps left, after fewer than t steps, and recovered after t or more |
| Simulation.RunSeededInfectedNeverRecover | model.py:343-366 | an initially infected person that survives a run stays infected and never recovers; only its cell changes |
| Simulation.RunAbsorbedAboveHistory | model.py:569-571 | every recovered or dead snapshot recorded during a run is at most the current count |

## Left out

- The web server, the visualisation and the parameter sliders. The sliders' values are
  arguments to `Setup.Init`. The source's bounds on them are not modelled.
- Mesa internals: the grid and the scheduler. The grid is a map from cells to agent indices.
  The scheduler's shuffle is an activation order, required to be a permutation of the agents.
- The pseudo-random generators. Every draw is a parameter. `Unit` excludes 1.0, as
  `random.random()` does.
- Floating point: rates and probabilities are reals. Rounding in `fatal / 100` and
  `transmission * rate` is not modelled.
- Space.Move: the source redraws from all eight neighbouring cells until it finds an empty one.
  It never ends when all eight are occupied, and on a one-cell grid it loops forever. The model
  chooses among the empty cells directly and stays put when there are none.
- Space.Move: on grids narrower or lower than three cells, some of the eight neighbouring cells
  coincide. The source's duplicate handling and ordering of them is not modelled.
- The person-placement loop: it is modelled by its outcome, a list of distinct free cells,
  required by `Setup.Init` only when the walls fit and seeding succeeds (`Setup.Placeable`),
  which is the only case in which the source reaches the loop. When in that case the grid has
  fewer free cells than persons, the source loops forever and the model has no such list.
- Setup.Init assumes the grid is indexed without wrapping while walls are placed, so a width or
  height of 40 or less fails (`GridTooSmall`).
- A dead agent keeps its last cell in the model. In the source, removal from the grid clears
  it. The cell is never read again for a dead agent.
- The `running` flag and the data collector's display names. The snapshot is keyed by
  `Metric` values.
- Waning immunity, a cached fatality outcome and repeated trials per tick are absent from the
  source, so they are absent here too.
- Seeding.SeedArrays: a strata with no persons gives an empty flag block, which numpy builds
  as a float array (model.py:314-325). The concatenation then makes every vaccinated flag a
  float, and `| a.vaccinated` in the counters (model.py:397-401) and in the eligibility test
  (model.py:148-154) raises TypeError at the first data collection (model.py:570). The model
  keeps the flags boolean, so such a configuration runs normally here.
- Metrics: no property claims that S + I + R + D equals the population. Dead persons are
  counted as susceptible too, so the sum double-counts them (see
  `Metrics.TotalsOvercountPopulation`).

## Findings

| source | as written | input that shows it | evidently intended | confidence | as-written member | corrected member |
|---|---|---|---|---|---|---|
| model.py:314-351 | `[True] * v + [False] * (n - v)` gives a block of v flags when v > n. The blocks are concatenated without a length check, so the vaccinated array is longer than the strata array and later strata's flags shift. With the default init_infected = 5, `np.random.choice` over the three unvaccinated indices raises ValueError (model.py:346-348). With init_infected = 1, a sample of index 4 makes `infected_arr[infected_indices] = True` raise IndexError on the length-4 array (model.py:349-351). | n_adults = n_children = n_elderly = n_pregnant = 1, v_adults = 2, every other v = 0, init_infected = 0 (the interface allows v up to 100 for any n). The elder at index 1 receives the second adult flag and is vaccinated, and construction completes. | A vaccinated count above its strata's population is rejected, or each strata gets exactly its own flags. | not executed | Seeding.MisalignedVaccination | Seeding.SeedArrays |
