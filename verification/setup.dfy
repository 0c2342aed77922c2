/** The SIR constructor: the disease parameters, the aisle walls, the seeded persons and their
    placement on free cells. */
module Setup {
  import opened Wrappers
  import opened Population
  import opened Contact
  import opened Torus
  import opened Agents
  import opened Space
  import opened Layout
  import opened Seqs
  import opened Seeding

  /** The constructor's arguments. */
  datatype Params = Params(
    n: PerStrata<nat>,
    v: PerStrata<nat>,
    initInfected: nat,
    infectionPeriod: nat,
    transmission: real,
    fatalPercent: PerStrata<real>,
    rates: ContactRates,
    width: nat,
    height: nat)

  /** The disease parameters every agent reads from the model. */
  function MakeDisease(p: Params): (d: Disease)
    ensures ValidDisease(d)
  {
    Disease(p.infectionPeriod, p.transmission, p.fatalPercent, BuildContactMatrix(p.rates))
  }

  /** The walls sit at columns up to 40 and rows up to 40, and the grid is indexed without
      wrapping while they are placed. */
  predicate HoldsWalls(width: nat, height: nat) {
    width > 40 && height > 40
  }

  /** The cells the placement loop settles on, one per person in creation order: each inside the
      grid, off the walls, and no two alike. */
  predicate ValidPlaces(width: nat, height: nat, count: nat, places: seq<Cell>) {
    && |places| == count
    && Distinct(places)
    && forall k | 0 <= k < |places| :: InBounds(width, height, places[k]) && !IsWallCell(places[k])
  }

  function Walls(): seq<Agent> {
    seq(|WallCells()|, k requires 0 <= k < |WallCells()| => NewAgent(Wall, WallCells()[k]))
  }

  /** Person `k` takes strata, vaccination and initial infection from entry `k` of the seeding
      arrays; its timer stays 0 because the flag is set after construction. */
  function Persons(sa: Seeds, places: seq<Cell>): seq<Agent>
    requires |sa.strata| == |places| && |sa.vaccinated| == |places| && |sa.infected| == |places|
  {
    seq(|places|, k requires 0 <= k < |places| =>
      NewAgent(Person(sa.strata[k]), places[k]).(vaccinated := sa.vaccinated[k], infected := sa.infected[k]))
  }

  /** The seeding arrays read back from a list of persons. */
  function SeedsOf(persons: seq<Agent>): Seeds {
    Seeds(
      seq(|persons|, k requires 0 <= k < |persons| =>
        if persons[k].kind.Person? then persons[k].kind.strata else Adult),
      seq(|persons|, k requires 0 <= k < |persons| => persons[k].vaccinated),
      seq(|persons|, k requires 0 <= k < |persons| => persons[k].infected))
  }

  /** The promises of a freshly constructed model: the 104 walls first, at their aisle cells, then
      one healthy person per placed cell, with strata, vaccination and initial infection as the
      seeding promises, every infected one with a zero timer. */
  predicate Initial(p: Params, places: seq<Cell>, w: World)
    requires |places| == Total(p.n)
  {
    && WellFormed(w) && AllConsistent(w.agents)
    && w.width == p.width && w.height == p.height
    && |w.agents| == |WallCells()| + Total(p.n)
    && (forall k | 0 <= k < |WallCells()| :: w.agents[k] == NewAgent(Wall, WallCells()[k]))
    && (forall j | |WallCells()| <= j < |w.agents| ::
          && w.agents[j].kind.Person? && w.agents[j].pos == places[j - |WallCells()|]
          && !w.agents[j].recovered && !w.agents[j].dead && w.agents[j].recoverySteps == 0)
    && Seeded(p.n, p.v, p.initInfected, SeedsOf(w.agents[|WallCells()|..]))
  }

  function Build(p: Params, sa: Seeds, places: seq<Cell>): World
    requires |sa.strata| == |places| && |sa.vaccinated| == |places| && |sa.infected| == |places|
    requires Distinct(WallCells() + places)
  {
    World(p.width, p.height, Walls() + Persons(sa, places), GridOf(WallCells() + places))
  }

  lemma WallsAndPlacesDistinct(places: seq<Cell>)
    requires Distinct(places) && forall k | 0 <= k < |places| :: !IsWallCell(places[k])
    ensures Distinct(WallCells() + places)
  {
    WallCellsFacts();
    DistinctConcat(WallCells(), places);
  }

  /** Every agent of the built world stands on the cell of the same index in the cell list. */
  lemma BuildPositions(p: Params, sa: Seeds, places: seq<Cell>)
    requires |sa.strata| == |places| && |sa.vaccinated| == |places| && |sa.infected| == |places|
    requires Distinct(WallCells() + places)
    ensures var w := Build(p, sa, places);
      && |w.agents| == |WallCells() + places|
      && forall k | 0 <= k < |w.agents| :: w.agents[k].pos == (WallCells() + places)[k] && !w.agents[k].dead
  {
  }

  /** The walls and the placed cells all lie inside a grid that holds the walls. */
  lemma CellsInBounds(width: nat, height: nat, places: seq<Cell>)
    requires HoldsWalls(width, height)
    requires forall k | 0 <= k < |places| :: InBounds(width, height, places[k])
    ensures forall k | 0 <= k < |WallCells() + places| :: InBounds(width, height, (WallCells() + places)[k])
  {
    var cells := WallCells() + places;
    WallCellsFacts();
    forall k | 0 <= k < |cells| ensures InBounds(width, height, cells[k]) {
      if k < |WallCells()| {
        assert cells[k] in WallCells();
      } else {
        assert cells[k] == places[k - |WallCells()|];
      }
    }
  }

  lemma BuildWellFormed(p: Params, sa: Seeds, places: seq<Cell>)
    requires HoldsWalls(p.width, p.height) && ValidPlaces(p.width, p.height, Total(p.n), places)
    requires |sa.strata| == |places| && |sa.vaccinated| == |places| && |sa.infected| == |places|
    requires Distinct(WallCells() + places)
    ensures WellFormed(Build(p, sa, places))
  {
    CellsInBounds(p.width, p.height, places);
    BuildPositions(p, sa, places);
  }

  lemma BuildConsistent(p: Params, sa: Seeds, places: seq<Cell>)
    requires Seeded(p.n, p.v, p.initInfected, sa) && |places| == Total(p.n)
    requires Distinct(WallCells() + places)
    ensures AllConsistent(Build(p, sa, places).agents)
  {
  }

  lemma BuildSeeds(p: Params, sa: Seeds, places: seq<Cell>)
    requires Seeded(p.n, p.v, p.initInfected, sa) && |places| == Total(p.n)
    requires Distinct(WallCells() + places)
    ensures Seeded(p.n, p.v, p.initInfected, SeedsOf(Build(p, sa, places).agents[|WallCells()|..]))
  {
    var w := Build(p, sa, places);
    assert w.agents[|WallCells()|..] == Persons(sa, places);
    assert SeedsOf(Persons(sa, places)) == sa;
  }

  lemma BuildAgents(p: Params, sa: Seeds, places: seq<Cell>)
    requires |places| == Total(p.n)
    requires |sa.strata| == |places| && |sa.vaccinated| == |places| && |sa.infected| == |places|
    requires Distinct(WallCells() + places)
    ensures var w := Build(p, sa, places);
      && w.width == p.width && w.height == p.height
      && |w.agents| == |WallCells()| + Total(p.n)
      && (forall k | 0 <= k < |WallCells()| :: w.agents[k] == NewAgent(Wall, WallCells()[k]))
      && (forall j | |WallCells()| <= j < |w.agents| ::
            && w.agents[j].kind.Person? && w.agents[j].pos == places[j - |WallCells()|]
            && !w.agents[j].recovered && !w.agents[j].dead && w.agents[j].recoverySteps == 0)
  {
  }

  lemma BuildIsInitial(p: Params, sa: Seeds, places: seq<Cell>)
    requires HoldsWalls(p.width, p.height) && ValidPlaces(p.width, p.height, Total(p.n), places)
    requires Seeded(p.n, p.v, p.initInfected, sa)
    ensures Distinct(WallCells() + places)
    ensures Initial(p, places, Build(p, sa, places))
  {
    WallsAndPlacesDistinct(places);
    BuildWellFormed(p, sa, places);
    BuildConsistent(p, sa, places);
    BuildSeeds(p, sa, places);
    BuildAgents(p, sa, places);
  }

  /** The walls fit and the seeding arguments are accepted: the constructor reaches its placement
      loop. */
  predicate Placeable(p: Params) {
    HoldsWalls(p.width, p.height) && VaccinationFits(p.n, p.v) && p.initInfected + Total(p.v) <= Total(p.n)
  }

  /** The constructor. The walls are placed first, so a grid too small for them fails before any
      seeding; then a vaccinated count above its strata's population and a request for more
      initially infected than unvaccinated agents are rejected. `places` is where the placement
      loop puts each person; it is only consulted once the walls stand and seeding has succeeded,
      which is also the only case in which the placement loop runs. */
  function Init(p: Params, sd: SeedDraws, places: seq<Cell>): (r: Result<World, SeedError>)
    requires SeedDrawsFit(p.n, sd)
    requires Placeable(p) ==> ValidPlaces(p.width, p.height, Total(p.n), places)
    ensures r == Failure(GridTooSmall) <==> !HoldsWalls(p.width, p.height)
    ensures r == Failure(VaccinatedExceedsPopulation) <==>
      HoldsWalls(p.width, p.height) && !VaccinationFits(p.n, p.v)
    ensures r == Failure(NotEnoughUnvaccinated) <==>
      HoldsWalls(p.width, p.height) && VaccinationFits(p.n, p.v) && p.initInfected + Total(p.v) > Total(p.n)
    ensures r.Success? <==> Placeable(p)
    ensures r.Success? ==> |places| == Total(p.n) && Initial(p, places, r.value)
  {
    if !HoldsWalls(p.width, p.height) then Failure(GridTooSmall)
    else
      match SeedArrays(p.n, p.v, p.initInfected, sd)
      case Failure(e) => Failure(e)
      case Success(sa) =>
        BuildIsInitial(p, sa, places);
        Success(Build(p, sa, places))
  }

  /** An initially infected person starts with a zero timer, so while it survives it stays
      infected and never recovers. */
  lemma {:induction false} SeededInfectedNeverRecover(p: Params, places: seq<Cell>, w: World, j: nat, fatalDraws: seq<Unit>)
    requires |places| == Total(p.n) && Initial(p, places, w)
    requires |WallCells()| <= j < |w.agents| && w.agents[j].infected
    requires Survives(MakeDisease(p), w.agents[j], fatalDraws)
    ensures w.agents[j].recoverySteps == 0
    ensures Course(MakeDisease(p), w.agents[j], fatalDraws) == w.agents[j]
  {
    assert Consistent(w.agents[j]);
    ZeroTimerNeverRecovers(MakeDisease(p), w.agents[j], fatalDraws);
  }
}
