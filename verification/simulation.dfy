/** The model's step: the data collector's snapshot of the counters, then one tick of the random
    activation scheduler; and runs of several steps. */
module Simulation {
  import opened Population
  import opened Agents
  import opened Space
  import opened Metrics
  import opened Seqs
  import opened Torus
  import opened Layout
  import Seeding
  import Setup

  /** The model between steps: the world and the snapshots the data collector has taken so far. */
  datatype Sim = Sim(world: World, history: seq<map<Metric, nat>>)

  /** The order the random activation scheduler draws: every agent of the schedule exactly once. */
  predicate IsActivationOrder(order: seq<nat>, n: nat) {
    && |order| == n
    && Distinct(order)
    && forall k | 0 <= k < |order| :: order[k] < n
  }

  /** A state the simulation can be in between steps. */
  predicate Valid(s: Sim) {
    WellFormed(s.world) && AllConsistent(s.world.agents)
  }

  /** One step's randomness: the activation order and one set of draws per activation. */
  datatype Round = Round(order: seq<nat>, draws: seq<Draws>)

  predicate RoundFits(rd: Round, n: nat) {
    IsActivationOrder(rd.order, n) && |rd.draws| == |rd.order|
  }

  /** `SIR.step`: the snapshot is taken first, so it describes the state before the tick. */
  function Step(d: Disease, s: Sim, rd: Round): (r: Sim)
    requires ValidDisease(d) && Valid(s) && RoundFits(rd, |s.world.agents|)
    ensures Valid(r)
    ensures r.world.width == s.world.width && r.world.height == s.world.height
    ensures |r.world.agents| == |s.world.agents|
    ensures |r.history| == |s.history| + 1 && r.history[..|s.history|] == s.history
    ensures r.history[|s.history|].Keys == AllMetrics
    ensures forall m | m in AllMetrics :: r.history[|s.history|][m] == |Filtered(s.world.agents, m)|
  {
    Sim(Tick(d, s.world, rd.order, rd.draws), s.history + [Collect(s.world.agents)])
  }

  /** Recovered and dead are the compartments nobody leaves. */
  predicate Absorbing(c: Compartment) {
    c == Recovered || c == Dead
  }

  function CompartmentOf(m: Metric): Compartment {
    match m
    case ByStrata(c, _) => c
    case Overall(c) => c
  }

  /** A step keeps every recovered or dead agent in its counter. */
  lemma StepKeepsAbsorbed(d: Disease, s: Sim, rd: Round, m: Metric)
    requires ValidDisease(d) && Valid(s) && RoundFits(rd, |s.world.agents|)
    requires Absorbing(CompartmentOf(m))
    ensures Filtered(s.world.agents, m) <= Filtered(Step(d, s, rd).world.agents, m)
  {
    var r := Step(d, s, rd);
    forall k | k in Filtered(s.world.agents, m) ensures k in Filtered(r.world.agents, m) {
      TickFrame(d, s.world, rd.order, rd.draws, k);
      AbsorbedStays(s.world.agents[k], r.world.agents[k], m);
    }
  }

  /** An agent that keeps its kind, stays recovered once recovered and does not change once dead
      stays in a recovered or dead counter that counts it. */
  lemma AbsorbedStays(a: Agent, b: Agent, m: Metric)
    requires Absorbing(CompartmentOf(m)) && Matches(a, m)
    requires b.kind == a.kind && (a.recovered ==> b.recovered) && (a.dead ==> b == a)
    ensures Matches(b, m)
  {
  }

  /** Hence the recovered and dead counters, per strata and in total, never go down. */
  lemma AbsorbedCountsGrow(d: Disease, s: Sim, rd: Round, m: Metric)
    requires ValidDisease(d) && Valid(s) && RoundFits(rd, |s.world.agents|)
    requires Absorbing(CompartmentOf(m))
    ensures Tally(s.world.agents, m) <= Tally(Step(d, s, rd).world.agents, m)
  {
    StepKeepsAbsorbed(d, s, rd, m);
    SubsetSize(Filtered(s.world.agents, m), Filtered(Step(d, s, rd).world.agents, m));
    TallyIsFilterSize(s.world.agents, m);
    TallyIsFilterSize(Step(d, s, rd).world.agents, m);
  }

  /** A vaccinated agent stays vaccinated and never becomes infected, recovered or dead; a dead
      agent or a wall does not change at all. */
  lemma StepFrame(d: Disease, s: Sim, rd: Round, j: nat)
    requires ValidDisease(d) && Valid(s) && RoundFits(rd, |s.world.agents|)
    requires j < |s.world.agents|
    ensures var a, b := s.world.agents[j], Step(d, s, rd).world.agents[j];
      && b.kind == a.kind
      && (a.vaccinated ==> b.vaccinated && !b.infected && !b.recovered && !b.dead)
      && (a.dead || a.kind.Wall? ==> b == a)
  {
    var r := Step(d, s, rd);
    TickFrame(d, s.world, rd.order, rd.draws, j);
    assert Consistent(r.world.agents[j]);
  }

  /** Two agent lists that agree on every agent's kind and vaccination have the same
      unvaccinated persons. */
  lemma SameUnvaccinated(a: seq<Agent>, b: seq<Agent>, st: Strata)
    requires |a| == |b|
    requires forall k | 0 <= k < |a| :: b[k].kind == a[k].kind && b[k].vaccinated == a[k].vaccinated
    ensures UnvaccinatedOf(a, st) == UnvaccinatedOf(b, st)
  {
  }

  /** Every strata keeps its unvaccinated persons across a step, so the susceptible, infected and
      recovered counters of a strata keep their sum. */
  lemma SirSumConserved(d: Disease, s: Sim, rd: Round, st: Strata)
    requires ValidDisease(d) && Valid(s) && RoundFits(rd, |s.world.agents|)
    ensures var a, b := s.world.agents, Step(d, s, rd).world.agents;
      Count(a, Susceptible, st) + Count(a, Infected, st) + Count(a, Recovered, st)
      == Count(b, Susceptible, st) + Count(b, Infected, st) + Count(b, Recovered, st)
  {
    var a, b := s.world.agents, Step(d, s, rd).world.agents;
    forall k | 0 <= k < |a| ensures b[k].kind == a[k].kind && b[k].vaccinated == a[k].vaccinated {
      TickFrame(d, s.world, rd.order, rd.draws, k);
    }
    SameUnvaccinated(a, b, st);
    SirCountsUnvaccinated(a, st);
    SirCountsUnvaccinated(b, st);
  }

  /** Every round of a run fits the schedule. */
  predicate RoundsFit(rounds: seq<Round>, n: nat) {
    forall i | 0 <= i < |rounds| :: RoundFits(rounds[i], n)
  }

  lemma RoundsFitTail(rounds: seq<Round>, n: nat)
    requires |rounds| > 0 && RoundsFit(rounds, n)
    ensures RoundFits(rounds[0], n) && RoundsFit(rounds[1..], n)
  {
    forall i | 0 <= i < |rounds[1..]| ensures RoundFits(rounds[1..][i], n) {
      assert rounds[1..][i] == rounds[i + 1];
    }
  }

  lemma PrefixOfPrefix<T>(a: seq<T>, b: seq<T>, c: seq<T>)
    requires |a| <= |b| <= |c| && c[..|b|] == b && b[..|a|] == a
    ensures c[..|a|] == a
  {
    assert c[..|a|] == c[..|b|][..|a|];
  }

  /** Successive steps, one per round. */
  function Run(d: Disease, s: Sim, rounds: seq<Round>): (r: Sim)
    requires ValidDisease(d) && Valid(s) && RoundsFit(rounds, |s.world.agents|)
    ensures Valid(r) && |r.world.agents| == |s.world.agents|
    ensures |r.history| == |s.history| + |rounds| && r.history[..|s.history|] == s.history
    decreases |rounds|
  {
    if |rounds| == 0 then s
    else
      RoundsFitTail(rounds, |s.world.agents|);
      var s1 := Step(d, s, rounds[0]);
      var r := Run(d, s1, rounds[1..]);
      PrefixOfPrefix(s.history, s1.history, r.history);
      r
  }

  /** After a run, the current recovered and dead counters are at least any earlier snapshot of
      them taken during the run, so the recorded series of these counters never goes down. */
  lemma {:induction false} RunAbsorbedAboveHistory(d: Disease, s: Sim, rounds: seq<Round>, m: Metric, i: nat)
    requires ValidDisease(d) && Valid(s) && RoundsFit(rounds, |s.world.agents|)
    requires Absorbing(CompartmentOf(m)) && m in AllMetrics
    requires |s.history| <= i < |Run(d, s, rounds).history|
    ensures m in Run(d, s, rounds).history[i]
    ensures Run(d, s, rounds).history[i][m] <= |Filtered(Run(d, s, rounds).world.agents, m)|
    decreases |rounds|
  {
    RoundsFitTail(rounds, |s.world.agents|);
    var s1 := Step(d, s, rounds[0]);
    var r := Run(d, s, rounds);
    assert r == Run(d, s1, rounds[1..]);
    if i == |s.history| {
      assert r.history[i] == r.history[..|s1.history|][i] == s1.history[i];
      RunAbsorbedGrow(d, s1, rounds[1..], m);
      StepKeepsAbsorbed(d, s, rounds[0], m);
      SubsetSize(Filtered(s.world.agents, m), Filtered(s1.world.agents, m));
    } else {
      RunAbsorbedAboveHistory(d, s1, rounds[1..], m, i);
    }
  }

  /** Over a whole run the recovered and dead agents stay in their counters. */
  lemma {:induction false} RunAbsorbedGrow(d: Disease, s: Sim, rounds: seq<Round>, m: Metric)
    requires ValidDisease(d) && Valid(s) && RoundsFit(rounds, |s.world.agents|)
    requires Absorbing(CompartmentOf(m))
    ensures |Filtered(s.world.agents, m)| <= |Filtered(Run(d, s, rounds).world.agents, m)|
    decreases |rounds|
  {
    if |rounds| > 0 {
      RoundsFitTail(rounds, |s.world.agents|);
      var s1 := Step(d, s, rounds[0]);
      StepKeepsAbsorbed(d, s, rounds[0], m);
      SubsetSize(Filtered(s.world.agents, m), Filtered(s1.world.agents, m));
      RunAbsorbedGrow(d, s1, rounds[1..], m);
    }
  }

  // ---------------------------------------------------------------------------
  // One agent across a run
  // ---------------------------------------------------------------------------

  /** `slots[t]` is where agent `j` stands in the activation order of round `t`. */
  predicate Slots(rounds: seq<Round>, j: nat, slots: seq<nat>) {
    && |slots| == |rounds|
    && forall t | 0 <= t < |rounds| ::
         slots[t] < |rounds[t].order| && slots[t] < |rounds[t].draws| && rounds[t].order[slots[t]] == j
  }

  /** The fatality draws agent `j` consumes over a run, one per round. */
  function FatalDraws(rounds: seq<Round>, j: nat, slots: seq<nat>): (r: seq<Unit>)
    requires Slots(rounds, j, slots)
    ensures |r| == |rounds|
    ensures forall t | 0 <= t < |rounds| :: r[t] == rounds[t].draws[slots[t]].fatal
  {
    seq(|rounds|, t requires 0 <= t < |rounds| => rounds[t].draws[slots[t]].fatal)
  }

  lemma FatalDrawsTail(rounds: seq<Round>, j: nat, slots: seq<nat>)
    requires |rounds| > 0 && Slots(rounds, j, slots)
    ensures Slots(rounds[1..], j, slots[1..])
    ensures FatalDraws(rounds[1..], j, slots[1..]) == FatalDraws(rounds, j, slots)[1..]
  {
    forall t | 0 <= t < |rounds[1..]|
      ensures slots[1..][t] < |rounds[1..][t].order| && slots[1..][t] < |rounds[1..][t].draws|
      ensures rounds[1..][t].order[slots[1..][t]] == j
    {
      assert rounds[1..][t] == rounds[t + 1] && slots[1..][t] == slots[t + 1];
    }
    var f, g := FatalDraws(rounds[1..], j, slots[1..]), FatalDraws(rounds, j, slots);
    forall t | 0 <= t < |f| ensures f[t] == g[1..][t] {
      assert rounds[1..][t] == rounds[t + 1] && slots[1..][t] == slots[t + 1];
    }
  }

  /** Across a run, an agent that cannot catch the infection (an infected, recovered, vaccinated
      or dead person, or a wall) follows the course of its infection, one health update per step
      with the fatality draw of its own activation; only its cell is left open. */
  lemma {:induction false} RunFollowsCourse(d: Disease, s: Sim, rounds: seq<Round>, j: nat, slots: seq<nat>)
    requires ValidDisease(d) && Valid(s) && RoundsFit(rounds, |s.world.agents|)
    requires j < |s.world.agents| && !Eligible(s.world.agents[j]) && Slots(rounds, j, slots)
    ensures var b := Run(d, s, rounds).world.agents[j];
      b == Course(d, s.world.agents[j], FatalDraws(rounds, j, slots)).(pos := b.pos)
    decreases |rounds|
  {
    if |rounds| > 0 {
      RoundsFitTail(rounds, |s.world.agents|);
      var a := s.world.agents[j];
      var s1 := Step(d, s, rounds[0]);
      var h := HealthStep(d, a, [], rounds[0].draws[slots[0]].fatal, 0.0);
      TickIneligible(d, s.world, rounds[0].order, rounds[0].draws, j, slots[0]);
      assert s1.world.agents[j] == h.(pos := s1.world.agents[j].pos);
      StaysIneligible(d, a, rounds[0].draws[slots[0]].fatal);
      FatalDrawsTail(rounds, j, slots);
      var rest := FatalDraws(rounds[1..], j, slots[1..]);
      RunFollowsCourse(d, s1, rounds[1..], j, slots[1..]);
      CourseIgnoresCell(d, h, s1.world.agents[j].pos, rest);
      assert Run(d, s, rounds) == Run(d, s1, rounds[1..]);
    }
  }

  /** An infected person with days left on its timer that survives a run of fewer steps than its
      timer is still infected with that many steps less on it; once the run is as long as the
      timer, it has recovered. */
  lemma RunCountdown(d: Disease, s: Sim, rounds: seq<Round>, j: nat, slots: seq<nat>)
    requires ValidDisease(d) && Valid(s) && RoundsFit(rounds, |s.world.agents|)
    requires j < |s.world.agents| && Slots(rounds, j, slots)
    requires s.world.agents[j].infected && s.world.agents[j].recoverySteps > 0
    requires Survives(d, s.world.agents[j], FatalDraws(rounds, j, slots))
    ensures var a, b := s.world.agents[j], Run(d, s, rounds).world.agents[j];
      && !b.dead
      && (|rounds| < a.recoverySteps ==>
            b.infected && !b.recovered && b.recoverySteps == a.recoverySteps - |rounds|)
      && (|rounds| >= a.recoverySteps ==> b.recovered && !b.infected)
  {
    assert Consistent(s.world.agents[j]);
    RunFollowsCourse(d, s, rounds, j, slots);
    Countdown(d, s.world.agents[j], FatalDraws(rounds, j, slots));
  }

  /** A person infected at construction keeps its zero timer, so across a run it survives it is
      exactly as it started, save for its cell: it never recovers. */
  lemma RunSeededInfectedNeverRecover(p: Setup.Params, places: seq<Cell>, w: World, hist: seq<map<Metric, nat>>,
                                      rounds: seq<Round>, j: nat, slots: seq<nat>)
    requires |places| == Seeding.Total(p.n) && Setup.Initial(p, places, w)
    requires RoundsFit(rounds, |w.agents|) && Slots(rounds, j, slots)
    requires |WallCells()| <= j < |w.agents| && w.agents[j].infected
    requires Survives(Setup.MakeDisease(p), w.agents[j], FatalDraws(rounds, j, slots))
    ensures var b := Run(Setup.MakeDisease(p), Sim(w, hist), rounds).world.agents[j];
      b == w.agents[j].(pos := b.pos) && b.infected && !b.recovered
  {
    RunFollowsCourse(Setup.MakeDisease(p), Sim(w, hist), rounds, j, slots);
    Setup.SeededInfectedNeverRecover(p, places, w, j, FatalDraws(rounds, j, slots));
  }
}
