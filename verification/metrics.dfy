/** The S/I/R/D counters the data collector reads once per tick: per strata and in total, each a
    filter over the schedule's agent list (walls included). */
module Metrics {
  import opened Population
  import opened Agents

  datatype Compartment = Susceptible | Infected | Recovered | Dead

  const AllCompartments: set<Compartment> := {Susceptible, Infected, Recovered, Dead}

  /** A counter of the data collector: one compartment in one strata, or its total. */
  datatype Metric = ByStrata(c: Compartment, s: Strata) | Overall(c: Compartment)

  const AllMetrics: set<Metric> :=
    (set c, s | c in AllCompartments && s in AllStrata :: ByStrata(c, s))
    + (set c | c in AllCompartments :: Overall(c))

  /** The test applied to each agent by the per-strata counters. The susceptible test rules out
      walls, vaccinated, infected and recovered agents but not dead ones. */
  predicate InCompartment(a: Agent, c: Compartment, s: Strata) {
    match c
    case Susceptible =>
      !(a.recovered || a.infected || a.kind.Wall? || a.vaccinated || a.kind != Person(s))
    case Infected => a.infected && a.kind == Person(s)
    case Recovered => a.recovered && a.kind == Person(s)
    case Dead => a.dead && a.kind == Person(s)
  }

  /** What a counter counts, as a test on one agent. */
  predicate Matches(a: Agent, m: Metric) {
    match m
    case ByStrata(c, s) => InCompartment(a, c, s)
    case Overall(c) => a.kind.Person? && InCompartment(a, c, a.kind.strata)
  }

  /** The indices of the agents a counter counts. */
  function Filtered(agents: seq<Agent>, m: Metric): set<nat> {
    set k | 0 <= k < |agents| && Matches(agents[k], m)
  }

  /** A per-strata counter, scanning the agent list. */
  function Count(agents: seq<Agent>, c: Compartment, s: Strata): (n: nat)
    ensures n <= |agents|
    decreases |agents|
  {
    if |agents| == 0 then 0
    else
      Count(agents[..|agents| - 1], c, s) + (if InCompartment(agents[|agents| - 1], c, s) then 1 else 0)
  }

  /** A counter's value as the source computes it: totals are the sum of the four strata. */
  function Tally(agents: seq<Agent>, m: Metric): nat {
    match m
    case ByStrata(c, s) => Count(agents, c, s)
    case Overall(c) =>
      Count(agents, c, Adult) + Count(agents, c, Child) + Count(agents, c, Elder) + Count(agents, c, Pregnant)
  }

  /** Each per-strata counter is exactly the number of agents passing its test. */
  lemma {:induction false} CountIsFilterSize(agents: seq<Agent>, c: Compartment, s: Strata)
    ensures Count(agents, c, s) == |Filtered(agents, ByStrata(c, s))|
    decreases |agents|
  {
    if |agents| > 0 {
      var n := |agents| - 1;
      var init := agents[..n];
      CountIsFilterSize(init, c, s);
      var m := ByStrata(c, s);
      var before := Filtered(init, m);
      assert forall k | 0 <= k < n :: init[k] == agents[k];
      if Matches(agents[n], m) {
        assert Filtered(agents, m) == before + {n};
      } else {
        assert Filtered(agents, m) == before;
      }
    }
  }

  /** The agents counted for one strata are exactly the persons of that strata counted in total. */
  lemma OverallIsUnionOfStrata(agents: seq<Agent>, c: Compartment)
    ensures Filtered(agents, Overall(c)) ==
      Filtered(agents, ByStrata(c, Adult)) + Filtered(agents, ByStrata(c, Child))
      + Filtered(agents, ByStrata(c, Elder)) + Filtered(agents, ByStrata(c, Pregnant))
  {
    forall k | k in Filtered(agents, Overall(c))
      ensures k in Filtered(agents, ByStrata(c, Adult)) + Filtered(agents, ByStrata(c, Child))
                 + Filtered(agents, ByStrata(c, Elder)) + Filtered(agents, ByStrata(c, Pregnant))
    {
      StrataCases(agents[k].kind.strata);
    }
  }

  /** Agents of different strata are never counted by the same per-strata counter. */
  lemma StrataFiltersDisjoint(agents: seq<Agent>, c: Compartment, s: Strata, t: Strata)
    requires s != t
    ensures Filtered(agents, ByStrata(c, s)) !! Filtered(agents, ByStrata(c, t))
  {
  }

  lemma DisjointUnionSize(a: set<nat>, b: set<nat>)
    requires a !! b
    ensures |a + b| == |a| + |b|
  {
  }

  /** A total counts each person once, in the strata it belongs to. */
  lemma OverallIsFilterSize(agents: seq<Agent>, c: Compartment)
    ensures Tally(agents, Overall(c)) == |Filtered(agents, Overall(c))|
  {
    var fa, fc := Filtered(agents, ByStrata(c, Adult)), Filtered(agents, ByStrata(c, Child));
    var fe, fp := Filtered(agents, ByStrata(c, Elder)), Filtered(agents, ByStrata(c, Pregnant));
    CountIsFilterSize(agents, c, Adult);
    CountIsFilterSize(agents, c, Child);
    CountIsFilterSize(agents, c, Elder);
    CountIsFilterSize(agents, c, Pregnant);
    OverallIsUnionOfStrata(agents, c);
    StrataFiltersDisjoint(agents, c, Adult, Child);
    StrataFiltersDisjoint(agents, c, Adult, Elder);
    StrataFiltersDisjoint(agents, c, Adult, Pregnant);
    StrataFiltersDisjoint(agents, c, Child, Elder);
    StrataFiltersDisjoint(agents, c, Child, Pregnant);
    StrataFiltersDisjoint(agents, c, Elder, Pregnant);
    DisjointUnionSize(fa, fc);
    DisjointUnionSize(fa + fc, fe);
    DisjointUnionSize(fa + fc + fe, fp);
  }

  /** Every counter, totals included, is the number of agents passing its test. */
  lemma TallyIsFilterSize(agents: seq<Agent>, m: Metric)
    ensures Tally(agents, m) == |Filtered(agents, m)|
  {
    match m
    case ByStrata(c, s) => CountIsFilterSize(agents, c, s);
    case Overall(c) => OverallIsFilterSize(agents, c);
  }

  /** The snapshot handed to the data collector: every counter, under a stable key. */
  function Collect(agents: seq<Agent>): (snap: map<Metric, nat>)
    ensures snap.Keys == AllMetrics
    ensures forall m | m in snap :: snap[m] == |Filtered(agents, m)|
    ensures forall c | c in AllCompartments ::
      snap[Overall(c)] == snap[ByStrata(c, Adult)] + snap[ByStrata(c, Child)]
                          + snap[ByStrata(c, Elder)] + snap[ByStrata(c, Pregnant)]
  {
    forall m ensures Tally(agents, m) == |Filtered(agents, m)| {
      TallyIsFilterSize(agents, m);
    }
    map m | m in AllMetrics :: Tally(agents, m)
  }

  lemma SubsetSize(a: set<nat>, b: set<nat>)
    requires a <= b
    ensures |a| <= |b|
  {
    assert b == a + (b - a);
    DisjointUnionSize(a, b - a);
  }

  /** The indices of the unvaccinated persons of strata `s`. */
  function UnvaccinatedOf(agents: seq<Agent>, s: Strata): set<nat> {
    set k | 0 <= k < |agents| && agents[k].kind == Person(s) && !agents[k].vaccinated
  }

  /** In a consistent population the susceptible, infected and recovered tests of a strata
      partition its unvaccinated persons. */
  lemma SirPartitionsUnvaccinated(agents: seq<Agent>, s: Strata)
    requires AllConsistent(agents)
    ensures var fs, fi, fr := Filtered(agents, ByStrata(Susceptible, s)),
                              Filtered(agents, ByStrata(Infected, s)), Filtered(agents, ByStrata(Recovered, s));
      && fs !! fi && fs !! fr && fi !! fr
      && fs + fi + fr == UnvaccinatedOf(agents, s)
  {
    var fs, fi := Filtered(agents, ByStrata(Susceptible, s)), Filtered(agents, ByStrata(Infected, s));
    var fr := Filtered(agents, ByStrata(Recovered, s));
    forall k | k in fi ensures k !in fr {
      assert Consistent(agents[k]);
    }
    forall k | k in fs + fi + fr ensures k in UnvaccinatedOf(agents, s) {
      assert Consistent(agents[k]);
    }
  }

  /** In a consistent population every dead person is also counted as susceptible. */
  lemma DeadWithinSusceptible(agents: seq<Agent>, s: Strata)
    requires AllConsistent(agents)
    ensures Filtered(agents, ByStrata(Dead, s)) <= Filtered(agents, ByStrata(Susceptible, s))
  {
    forall k | k in Filtered(agents, ByStrata(Dead, s)) ensures k in Filtered(agents, ByStrata(Susceptible, s)) {
      assert Consistent(agents[k]);
    }
  }

  /** What the counters do conserve: in every strata the susceptible, infected and recovered
      counters together count each unvaccinated person exactly once (dead ones as susceptible),
      and the dead counter never exceeds the susceptible one. */
  lemma SirCountsUnvaccinated(agents: seq<Agent>, s: Strata)
    requires AllConsistent(agents)
    ensures Count(agents, Susceptible, s) + Count(agents, Infected, s) + Count(agents, Recovered, s)
            == |UnvaccinatedOf(agents, s)|
    ensures Count(agents, Dead, s) <= Count(agents, Susceptible, s)
  {
    var fs, fi := Filtered(agents, ByStrata(Susceptible, s)), Filtered(agents, ByStrata(Infected, s));
    var fr, fd := Filtered(agents, ByStrata(Recovered, s)), Filtered(agents, ByStrata(Dead, s));
    CountIsFilterSize(agents, Susceptible, s);
    CountIsFilterSize(agents, Infected, s);
    CountIsFilterSize(agents, Recovered, s);
    CountIsFilterSize(agents, Dead, s);
    SirPartitionsUnvaccinated(agents, s);
    DisjointUnionSize(fs, fi);
    DisjointUnionSize(fs + fi, fr);
    DeadWithinSusceptible(agents, s);
    SubsetSize(fd, fs);
  }

  /** A dead unvaccinated person passes both the susceptible and the dead test. */
  lemma DeadCountedAsSusceptible(a: Agent, s: Strata)
    requires Consistent(a) && a.kind == Person(s) && a.dead && !a.vaccinated
    ensures InCompartment(a, Susceptible, s) && InCompartment(a, Dead, s)
  {
  }

  /** Hence the four totals do not add up to the population: one dead adult is counted twice. */
  lemma TotalsOvercountPopulation()
    ensures var agents := [Agent(Person(Adult), Torus.Cell(0, 0), false, false, false, true, 0)];
      Tally(agents, Overall(Susceptible)) + Tally(agents, Overall(Infected))
      + Tally(agents, Overall(Recovered)) + Tally(agents, Overall(Dead)) == 2
  {
    var agents := [Agent(Person(Adult), Torus.Cell(0, 0), false, false, false, true, 0)];
    assert agents[..0] == [];
  }
}
