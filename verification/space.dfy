/** The toroidal single-occupancy grid, the occupancy-preserving move, one agent's activation and
    the scheduler's tick as a fold over a supplied activation order. */
module Space {
  import opened Population
  import opened Torus
  import opened Agents
  import opened Seqs

  /** The draws one activation may consume: an index into the empty neighbouring cells, the
      fatality draw and the infection draw. */
  datatype Draws = Draws(pick: nat, fatal: Unit, infect: Unit)

  /** The schedule's agent list (walls included) and the grid as a map from a cell to the index
      of its occupant in that list. A dead agent keeps its last cell but is off the grid. */
  datatype World = World(width: nat, height: nat, agents: seq<Agent>, grid: map<Cell, nat>)

  /** Every grid entry points at a live agent standing on that cell, and every live agent is on
      the grid at its own cell. */
  predicate WellFormed(w: World) {
    && w.width > 0 && w.height > 0
    && (forall k | 0 <= k < |w.agents| :: InBounds(w.width, w.height, w.agents[k].pos))
    && (forall c | c in w.grid :: InBounds(w.width, w.height, c) && w.grid[c] < |w.agents|)
    && (forall c | c in w.grid :: w.agents[w.grid[c]].pos == c && !w.agents[w.grid[c]].dead)
    && (forall k | 0 <= k < |w.agents| && !w.agents[k].dead ::
          w.agents[k].pos in w.grid && w.grid[w.agents[k].pos] == k)
  }

  /** No two live agents ever share a cell. */
  lemma SingleOccupancy(w: World, i: nat, j: nat)
    requires WellFormed(w) && i < |w.agents| && j < |w.agents| && i != j
    requires !w.agents[i].dead && !w.agents[j].dead
    ensures w.agents[i].pos != w.agents[j].pos
  {
  }

  /** The agents standing on the given cells, in the order of the cells. */
  function Occupants(w: World, cells: seq<Cell>): (r: seq<Agent>)
    requires forall c | c in w.grid :: w.grid[c] < |w.agents|
    ensures |r| <= |cells|
    ensures forall a | a in r :: a in w.agents
    ensures forall c | c in cells && c in w.grid :: w.agents[w.grid[c]] in r
  {
    if |cells| == 0 then []
    else
      var here := if cells[0] in w.grid then [w.agents[w.grid[cells[0]]]] else [];
      here + Occupants(w, cells[1..])
  }

  /** Every occupant listed stands on one of the given cells. */
  lemma {:induction false} OccupantsOnCells(w: World, cells: seq<Cell>, k: nat)
    requires forall c | c in w.grid :: w.grid[c] < |w.agents|
    requires k < |Occupants(w, cells)|
    ensures exists j | 0 <= j < |cells| :: cells[j] in w.grid && Occupants(w, cells)[k] == w.agents[w.grid[cells[j]]]
    decreases |cells|
  {
    var occ, rest := Occupants(w, cells), Occupants(w, cells[1..]);
    if cells[0] in w.grid && k == 0 {
      assert occ[0] == w.agents[w.grid[cells[0]]];
    } else {
      var k' := if cells[0] in w.grid then k - 1 else k;
      assert occ[k] == rest[k'];
      OccupantsOnCells(w, cells[1..], k');
      var j :| 0 <= j < |cells[1..]| && cells[1..][j] in w.grid && rest[k'] == w.agents[w.grid[cells[1..][j]]];
      assert cells[1..][j] == cells[j + 1];
    }
  }

  /** The cells of the list that nobody occupies. */
  function EmptyCells(w: World, cells: seq<Cell>): (r: seq<Cell>)
    ensures forall c :: c in r <==> c in cells && c !in w.grid
  {
    if |cells| == 0 then []
    else (if cells[0] in w.grid then [] else [cells[0]]) + EmptyCells(w, cells[1..])
  }

  /** The agents in the Moore neighbourhood of `c`. */
  function Neighbours(w: World, c: Cell): seq<Agent>
    requires WellFormed(w) && InBounds(w.width, w.height, c)
  {
    Occupants(w, MooreCells(w.width, w.height, c))
  }

  /** Agents that move: neither walls nor dead. */
  predicate Mobile(a: Agent) {
    !a.kind.Wall? && !a.dead
  }

  /** `move`: a mobile agent steps to one of the empty cells of its Moore neighbourhood, chosen by
      `pick`, and stays where it is when every neighbouring cell is occupied. */
  function Move(w: World, i: nat, pick: nat): (r: World)
    requires WellFormed(w) && i < |w.agents|
    ensures WellFormed(r)
    ensures r.width == w.width && r.height == w.height && |r.agents| == |w.agents|
    ensures forall j | 0 <= j < |w.agents| && j != i :: r.agents[j] == w.agents[j]
    ensures r.agents[i] == w.agents[i].(pos := r.agents[i].pos)
    ensures r.agents[i].pos == w.agents[i].pos ==> r == w
    ensures r.agents[i].pos != w.agents[i].pos ==>
      && Mobile(w.agents[i])
      && r.agents[i].pos !in w.grid
      && Adjacent(w.width, w.height, w.agents[i].pos, r.agents[i].pos)
    ensures Mobile(w.agents[i]) ==>
      (r.agents[i].pos == w.agents[i].pos <==>
         forall c | InBounds(w.width, w.height, c) && Adjacent(w.width, w.height, w.agents[i].pos, c) :: c in w.grid)
  {
    var a := w.agents[i];
    if !Mobile(a) then w
    else
      var moore := MooreCells(w.width, w.height, a.pos);
      var empties := EmptyCells(w, moore);
      if |empties| == 0 then
        assert forall c | InBounds(w.width, w.height, c) && Adjacent(w.width, w.height, a.pos, c) :: c in w.grid by {
          forall c | InBounds(w.width, w.height, c) && Adjacent(w.width, w.height, a.pos, c) ensures c in w.grid {
            MooreCellsAreAdjacent(w.width, w.height, a.pos, c);
            assert c in moore;
            assert c !in empties;
          }
        }
        w
      else
        var t := empties[pick % |empties|];
        assert t in moore && t !in w.grid;
        MooreCellsAreAdjacent(w.width, w.height, a.pos, t);
        var r := w.(agents := w.agents[i := a.(pos := t)], grid := (w.grid - {a.pos})[t := i]);
        assert WellFormed(r) by {
          forall c | c in r.grid ensures r.agents[r.grid[c]].pos == c && !r.agents[r.grid[c]].dead {
            if c != t {
              assert w.grid[c] != i;
            }
          }
        }
        r
  }

  /** On a one-cell torus every neighbouring cell is the agent's own, so it never moves. */
  lemma LoneAgentStays(w: World, i: nat, pick: nat)
    requires WellFormed(w) && w.width == 1 && w.height == 1 && i < |w.agents|
    ensures Move(w, i, pick) == w
  {
    assert forall c | InBounds(1, 1, c) :: c == w.agents[i].pos;
  }

  /** Moving changes no health flag. */
  lemma MoveKeepsConsistent(w: World, i: nat, pick: nat)
    requires WellFormed(w) && AllConsistent(w.agents) && i < |w.agents|
    ensures AllConsistent(Move(w, i, pick).agents)
  {
    var r := Move(w, i, pick);
    forall k | 0 <= k < |r.agents| ensures Consistent(r.agents[k]) {
      assert Consistent(w.agents[k]);
    }
  }

  /** In a consistent world every infected neighbour is a person. */
  lemma InfectedNeighboursArePersons(w: World, c: Cell)
    requires WellFormed(w) && AllConsistent(w.agents) && InBounds(w.width, w.height, c)
    ensures InfectedArePersons(Neighbours(w, c))
  {
    var nbrs := Neighbours(w, c);
    forall k | 0 <= k < |nbrs| && nbrs[k].infected ensures nbrs[k].kind.Person? {
      assert nbrs[k] in w.agents;
    }
  }

  /** Writes back agent `i` after its health update, taking it off the grid if it has just died. */
  function Commit(w: World, i: nat, a: Agent): (r: World)
    requires WellFormed(w) && AllConsistent(w.agents) && i < |w.agents| && Consistent(a)
    requires a.pos == w.agents[i].pos && a.kind == w.agents[i].kind
    requires w.agents[i].dead ==> a.dead
    ensures WellFormed(r) && AllConsistent(r.agents)
    ensures r.width == w.width && r.height == w.height && r.agents == w.agents[i := a]
    ensures a.dead && !w.agents[i].dead ==> a.pos !in r.grid
  {
    var grid := if a.dead && !w.agents[i].dead then w.grid - {a.pos} else w.grid;
    w.(agents := w.agents[i := a], grid := grid)
  }

  /** Agent `k` is an infected person on a cell adjacent to `c`, and an agent of strata `s` on `c`
      whose infection draw is `draw` falls under transmission times its contact rate towards `k`. */
  predicate Exposes(d: Disease, w: World, c: Cell, s: Strata, draw: Unit, k: nat)
    requires ValidDisease(d) && WellFormed(w) && InBounds(w.width, w.height, c)
  {
    && k < |w.agents| && !w.agents[k].dead && w.agents[k].infected && w.agents[k].kind.Person?
    && Adjacent(w.width, w.height, c, w.agents[k].pos)
    && draw < Risk(d, s, w.agents[k])
  }

  /** After an eligible agent has moved, a successful infection draw means that some agent of the
      world it moved in exposes it at its new cell. */
  lemma CaughtMeansExposed(d: Disease, w: World, i: nat, pick: nat, draw: Unit)
    requires ValidDisease(d) && WellFormed(w) && AllConsistent(w.agents) && i < |w.agents| && Eligible(w.agents[i])
    ensures var w1 := Move(w, i, pick);
      InfectedArePersons(Neighbours(w1, w1.agents[i].pos))
    ensures var w1 := Move(w, i, pick);
      Caught(d, w.agents[i].kind.strata, Neighbours(w1, w1.agents[i].pos), draw) ==>
        exists k :: Exposes(d, w, w1.agents[i].pos, w.agents[i].kind.strata, draw, k)
  {
    var w1 := Move(w, i, pick);
    var c := w1.agents[i].pos;
    var s := w.agents[i].kind.strata;
    var moore := MooreCells(w1.width, w1.height, c);
    var nbrs := Neighbours(w1, c);
    MoveKeepsConsistent(w, i, pick);
    InfectedNeighboursArePersons(w1, c);
    if Caught(d, s, nbrs, draw) {
      CaughtByOne(d, s, nbrs, draw);
      var j :| 0 <= j < |nbrs| && nbrs[j].infected && draw < Risk(d, s, nbrs[j]);
      OccupantsOnCells(w1, moore, j);
      var m :| 0 <= m < |moore| && moore[m] in w1.grid && nbrs[j] == w1.agents[w1.grid[moore[m]]];
      var q := w1.grid[moore[m]];
      assert q != i;
      assert moore[m] != c;
      MooreCellsAreAdjacent(w1.width, w1.height, c, moore[m]);
      assert Exposes(d, w, c, s, draw, q);
    }
  }

  /** With a non-negative transmission probability, an agent that exposes an eligible agent at the
      cell it has just moved to makes its infection draw succeed. */
  lemma ExposedMeansCaught(d: Disease, w: World, i: nat, pick: nat, draw: Unit, k: nat)
    requires ValidDisease(d) && WellFormed(w) && AllConsistent(w.agents) && i < |w.agents| && Eligible(w.agents[i])
    requires d.transmission >= 0.0
    requires Exposes(d, w, Move(w, i, pick).agents[i].pos, w.agents[i].kind.strata, draw, k)
    ensures var w1 := Move(w, i, pick);
      && InfectedArePersons(Neighbours(w1, w1.agents[i].pos))
      && Caught(d, w.agents[i].kind.strata, Neighbours(w1, w1.agents[i].pos), draw)
  {
    var w1 := Move(w, i, pick);
    var c := w1.agents[i].pos;
    var s := w.agents[i].kind.strata;
    var moore := MooreCells(w1.width, w1.height, c);
    var nbrs := Neighbours(w1, c);
    MoveKeepsConsistent(w, i, pick);
    InfectedNeighboursArePersons(w1, c);
    assert k != i;
    var e := w.agents[k].pos;
    assert w1.agents[k] == w.agents[k];
    MooreCellsAreAdjacent(w1.width, w1.height, c, e);
    assert e in moore && e in w1.grid && w1.grid[e] == k;
    assert w.agents[k] in nbrs;
    var j :| 0 <= j < |nbrs| && nbrs[j] == w.agents[k];
    CaughtFromOne(d, s, nbrs, draw, j);
  }

  /** The health update of an agent that cannot catch the infection does not depend on where it
      stands, on its neighbours or on its infection draw. */
  lemma IneligibleUpdate(d: Disease, a: Agent, c: Cell, nbrs: seq<Agent>, fatalDraw: Unit, infectDraw: Unit)
    requires ValidDisease(d) && InfectedArePersons(nbrs) && !Eligible(a)
    ensures HealthStep(d, a.(pos := c), nbrs, fatalDraw, infectDraw) == HealthStep(d, a, [], fatalDraw, 0.0).(pos := c)
  {
    NeighboursUnused(d, a.(pos := c), nbrs, [], fatalDraw, infectDraw);
    InfectionDrawUnused(d, a.(pos := c), [], fatalDraw, infectDraw, 0.0);
  }

  /** The health update that follows an agent's move, stated against the agent before the move
      and the world it moved in. */
  lemma MovedHealth(d: Disease, w: World, i: nat, dr: Draws)
    requires ValidDisease(d) && WellFormed(w) && AllConsistent(w.agents) && i < |w.agents|
    ensures var w1 := Move(w, i, dr.pick);
      InfectedArePersons(Neighbours(w1, w1.agents[i].pos))
    ensures var w1 := Move(w, i, dr.pick);
      var b, c := w.agents[i], w1.agents[i].pos;
      var a1 := HealthStep(d, w1.agents[i], Neighbours(w1, c), dr.fatal, dr.infect);
      && (!Eligible(b) ==> a1 == HealthStep(d, b, [], dr.fatal, 0.0).(pos := c))
      && (Eligible(b) ==> a1 == b.(pos := c) || a1 == NewRecovered(Infect(d, b)).(pos := c))
      && (Eligible(b) && a1 != b.(pos := c) ==> exists k :: Exposes(d, w, c, b.kind.strata, dr.infect, k))
      && (Eligible(b) && d.transmission >= 0.0 && (exists k :: Exposes(d, w, c, b.kind.strata, dr.infect, k)) ==>
            a1 == NewRecovered(Infect(d, b)).(pos := c))
  {
    var w1 := Move(w, i, dr.pick);
    MoveKeepsConsistent(w, i, dr.pick);
    var b, c := w.agents[i], w1.agents[i].pos;
    var nbrs := Neighbours(w1, c);
    InfectedNeighboursArePersons(w1, c);
    if !Eligible(b) {
      IneligibleUpdate(d, b, c, nbrs, dr.fatal, dr.infect);
    } else {
      CaughtMeansExposed(d, w, i, dr.pick, dr.infect);
      if d.transmission >= 0.0 && exists k :: Exposes(d, w, c, b.kind.strata, dr.infect, k) {
        var k :| Exposes(d, w, c, b.kind.strata, dr.infect, k);
        ExposedMeansCaught(d, w, i, dr.pick, dr.infect, k);
      }
    }
  }

  /** One agent's activation (`Agent.step`): move, then the fatality and infection trials, then the
      recovery countdown; an agent that dies is taken off the grid. The agent ends on the cell the
      move took it to, so by Move's contract it moves at most one adjacent cell. What the health
      update does to the activated agent is stated by ActivateHealth. */
  function Activate(d: Disease, w: World, i: nat, dr: Draws): (r: World)
    requires ValidDisease(d) && WellFormed(w) && AllConsistent(w.agents) && i < |w.agents|
    ensures WellFormed(r) && AllConsistent(r.agents)
    ensures r.width == w.width && r.height == w.height && |r.agents| == |w.agents|
    ensures forall j | 0 <= j < |w.agents| && j != i :: r.agents[j] == w.agents[j]
    ensures r.agents[i].kind == w.agents[i].kind && r.agents[i].vaccinated == w.agents[i].vaccinated
    ensures !Mobile(w.agents[i]) ==> r == w
    ensures w.agents[i].recovered ==> r.agents[i].recovered
    ensures r.agents[i].infected && !w.agents[i].infected ==> Eligible(w.agents[i])
    ensures r.agents[i].dead && !w.agents[i].dead ==> r.agents[i].pos !in r.grid
    ensures r.agents[i].pos == Move(w, i, dr.pick).agents[i].pos
  {
    var w1 := Move(w, i, dr.pick);
    MoveKeepsConsistent(w, i, dr.pick);
    var a := w1.agents[i];
    var nbrs := Neighbours(w1, a.pos);
    InfectedNeighboursArePersons(w1, a.pos);
    var a1 := HealthStep(d, a, nbrs, dr.fatal, dr.infect);
    HealthStepPreservesConsistent(d, a, nbrs, dr.fatal, dr.infect);
    var r := Commit(w1, i, a1);
    assert !Mobile(w.agents[i]) ==> r == w by {
      if !Mobile(w.agents[i]) {
        assert w1 == w && a1 == a;
      }
    }
    r
  }

  /** The health update of one activation, at the cell the move took the agent to. An agent that
      cannot catch the infection goes through it wherever it stands, with its neighbours and its
      infection draw unused. An eligible agent either stays as it was or is newly infected (and
      recovers at once when the infection period is 1); it is infected only when an infected
      person next to its new cell exposes it, and, with a non-negative transmission probability,
      always when one does. */
  lemma ActivateHealth(d: Disease, w: World, i: nat, dr: Draws)
    requires ValidDisease(d) && WellFormed(w) && AllConsistent(w.agents) && i < |w.agents|
    ensures var r := Activate(d, w, i, dr);
      var b, c := w.agents[i], r.agents[i].pos;
      && (!Eligible(b) ==> r.agents[i] == HealthStep(d, b, [], dr.fatal, 0.0).(pos := c))
      && (Eligible(b) ==> r.agents[i] == b.(pos := c) || r.agents[i] == NewRecovered(Infect(d, b)).(pos := c))
      && (Eligible(b) && r.agents[i] != b.(pos := c) ==> exists k :: Exposes(d, w, c, b.kind.strata, dr.infect, k))
      && (Eligible(b) && d.transmission >= 0.0 && (exists k :: Exposes(d, w, c, b.kind.strata, dr.infect, k)) ==>
            r.agents[i] == NewRecovered(Infect(d, b)).(pos := c))
  {
    var w1 := Move(w, i, dr.pick);
    MoveKeepsConsistent(w, i, dr.pick);
    var a := w1.agents[i];
    InfectedNeighboursArePersons(w1, a.pos);
    HealthStepPreservesConsistent(d, a, Neighbours(w1, a.pos), dr.fatal, dr.infect);
    assert Activate(d, w, i, dr).agents[i] == HealthStep(d, a, Neighbours(w1, a.pos), dr.fatal, dr.infect);
    MovedHealth(d, w, i, dr);
  }

  /** The first part of ActivateHealth on its own: the activation of an agent that cannot catch
      the infection is its health update with no neighbours, at its new cell. */
  lemma ActivateIneligible(d: Disease, w: World, i: nat, dr: Draws)
    requires ValidDisease(d) && WellFormed(w) && AllConsistent(w.agents) && i < |w.agents|
    requires !Eligible(w.agents[i])
    ensures var r := Activate(d, w, i, dr);
      r.agents[i] == HealthStep(d, w.agents[i], [], dr.fatal, 0.0).(pos := r.agents[i].pos)
  {
    ActivateHealth(d, w, i, dr);
  }

  /** The draws and order fit the world: one draw per activation, each index names an agent. */
  predicate FitsSchedule(w: World, order: seq<nat>, draws: seq<Draws>) {
    && |draws| == |order|
    && forall k | 0 <= k < |order| :: order[k] < |w.agents|
  }

  /** The scheduler's tick: every agent named by `order` is activated once, in that order, each
      activation seeing the grid as the previous ones left it. */
  function Tick(d: Disease, w: World, order: seq<nat>, draws: seq<Draws>): (r: World)
    requires ValidDisease(d) && WellFormed(w) && AllConsistent(w.agents) && FitsSchedule(w, order, draws)
    ensures WellFormed(r) && AllConsistent(r.agents)
    ensures r.width == w.width && r.height == w.height && |r.agents| == |w.agents|
    decreases |order|
  {
    if |order| == 0 then w
    else
      var w1 := Activate(d, w, order[0], draws[0]);
      assert FitsSchedule(w1, order[1..], draws[1..]);
      Tick(d, w1, order[1..], draws[1..])
  }

  /** Across a tick no agent changes strata or vaccination; walls and dead agents do not change at
      all, recovered agents stay recovered, and agents outside the order are untouched. */
  lemma {:induction false} TickFrame(d: Disease, w: World, order: seq<nat>, draws: seq<Draws>, j: nat)
    requires ValidDisease(d) && WellFormed(w) && AllConsistent(w.agents) && FitsSchedule(w, order, draws)
    requires j < |w.agents|
    ensures var r := Tick(d, w, order, draws);
      && r.agents[j].kind == w.agents[j].kind
      && r.agents[j].vaccinated == w.agents[j].vaccinated
      && (!Mobile(w.agents[j]) ==> r.agents[j] == w.agents[j])
      && (w.agents[j].recovered ==> r.agents[j].recovered)
      && (j !in order ==> r.agents[j] == w.agents[j])
    decreases |order|
  {
    if |order| > 0 {
      var w1 := Activate(d, w, order[0], draws[0]);
      assert FitsSchedule(w1, order[1..], draws[1..]);
      TickFrame(d, w1, order[1..], draws[1..], j);
      assert j !in order ==> j != order[0] && j !in order[1..];
    }
  }

  /** In a tick whose order names agent `j` exactly once, at position `k`, an agent that cannot
      catch the infection goes through one health update with the fatality draw of position `k`;
      only its cell may differ from that update's result. */
  lemma {:induction false} TickIneligible(d: Disease, w: World, order: seq<nat>, draws: seq<Draws>, j: nat, k: nat)
    requires ValidDisease(d) && WellFormed(w) && AllConsistent(w.agents) && FitsSchedule(w, order, draws)
    requires Distinct(order) && k < |order| && order[k] == j && !Eligible(w.agents[j])
    ensures var r := Tick(d, w, order, draws);
      r.agents[j] == HealthStep(d, w.agents[j], [], draws[k].fatal, 0.0).(pos := r.agents[j].pos)
    decreases |order|
  {
    if k == 0 {
      TickIneligibleFirst(d, w, order, draws, j);
    } else {
      var w1 := Activate(d, w, order[0], draws[0]);
      var rest, restDraws := order[1..], draws[1..];
      assert FitsSchedule(w1, rest, restDraws);
      assert Tick(d, w, order, draws) == Tick(d, w1, rest, restDraws);
      DistinctTail(order);
      assert order[0] != j && w1.agents[j] == w.agents[j];
      TailIndex(order, k - 1);
      TailIndex(draws, k - 1);
      TickIneligible(d, w1, rest, restDraws, j, k - 1);
    }
  }

  /** TickIneligible when agent `j` is activated first: the rest of the tick leaves it alone. */
  lemma TickIneligibleFirst(d: Disease, w: World, order: seq<nat>, draws: seq<Draws>, j: nat)
    requires ValidDisease(d) && WellFormed(w) && AllConsistent(w.agents) && FitsSchedule(w, order, draws)
    requires Distinct(order) && |order| > 0 && order[0] == j && !Eligible(w.agents[j])
    ensures var r := Tick(d, w, order, draws);
      r.agents[j] == HealthStep(d, w.agents[j], [], draws[0].fatal, 0.0).(pos := r.agents[j].pos)
  {
    var w1 := Activate(d, w, j, draws[0]);
    assert FitsSchedule(w1, order[1..], draws[1..]);
    DistinctTail(order);
    ActivateIneligible(d, w, j, draws[0]);
    TickFrame(d, w1, order[1..], draws[1..], j);
  }

}
