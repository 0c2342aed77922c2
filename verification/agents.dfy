/** The per-agent health state machine: fatality trial, infection trial and recovery countdown.
    Every random draw the source makes is an explicit parameter here. */
module Agents {
  import opened Population
  import opened Contact
  import opened Torus

  /** Walls share the agent record in the source but have no strata. */
  datatype Kind = Person(strata: Strata) | Wall

  datatype Agent = Agent(
    kind: Kind,
    pos: Cell,
    vaccinated: bool,
    infected: bool,
    recovered: bool,
    dead: bool,
    recoverySteps: nat)

  /** A value returned by `random.random()`: uniform on the half-open interval [0, 1). */
  type Unit = r: real | 0.0 <= r < 1.0

  /** The disease parameters every agent reads from the model. */
  datatype Disease = Disease(
    infectionPeriod: nat,
    transmission: real,
    fatalPercent: PerStrata<real>,
    contact: ContactMatrix)

  predicate ValidDisease(d: Disease) {
    IsTotal(d.contact)
  }

  /** A freshly constructed agent: healthy, unvaccinated, and with a zero timer, because the
      constructor reads `infected` before anyone has had a chance to set it. */
  function NewAgent(kind: Kind, pos: Cell): (a: Agent)
    ensures a.kind == kind && a.pos == pos
    ensures !a.vaccinated && !a.infected && !a.recovered && !a.dead && a.recoverySteps == 0
  {
    Agent(kind, pos, false, false, false, false, 0)
  }

  /** The health flags the simulation keeps consistent at every activation boundary. */
  predicate Consistent(a: Agent) {
    && !(a.infected && a.recovered)
    && (a.recoverySteps > 0 ==> a.infected)
    && (a.dead ==> !a.infected && !a.recovered && a.recoverySteps == 0)
    && (a.vaccinated ==> !a.infected && !a.recovered && !a.dead)
    && (a.kind.Wall? ==> !a.vaccinated && !a.infected && !a.recovered && !a.dead)
  }

  predicate AllConsistent(agents: seq<Agent>) {
    forall k | 0 <= k < |agents| :: Consistent(agents[k])
  }

  // ---------------------------------------------------------------------------
  // Fatality trial
  // ---------------------------------------------------------------------------

  /** The state an agent is left in by a fatal trial (it is also taken off the grid). */
  function Die(a: Agent): Agent {
    a.(dead := true, infected := false, recoverySteps := 0)
  }

  /** Whether the draw falls under the percentage configured for the agent's own strata. */
  predicate FatalFires(d: Disease, a: Agent, draw: Unit) {
    a.kind.Person? && draw < d.fatalPercent.Of(a.kind.strata) / 100.0
  }

  /** One of the four per-strata blocks of the fatality check. */
  function FatalityBlock(d: Disease, x: Strata, a: Agent, draw: Unit): Agent {
    if a.kind == Person(x) && draw < d.fatalPercent.Of(x) / 100.0 then Die(a) else a
  }

  /** The fatality check as written: the four blocks in turn, entered only by infected agents.
      Only the block of the agent's own strata can fire, so at most one draw is consulted. */
  function FatalityTrial(d: Disease, a: Agent, draw: Unit): (r: Agent)
    ensures r == (if a.infected && FatalFires(d, a, draw) then Die(a) else a)
  {
    if !a.infected then a
    else
      var a1 := FatalityBlock(d, Adult, a, draw);
      var a2 := FatalityBlock(d, Child, a1, draw);
      var a3 := FatalityBlock(d, Elder, a2, draw);
      FatalityBlock(d, Pregnant, a3, draw)
  }

  // ---------------------------------------------------------------------------
  // Infection trial
  // ---------------------------------------------------------------------------

  /** Agents that may catch the infection: not infected, recovered, vaccinated, dead or a wall. */
  predicate Eligible(a: Agent) {
    !(a.infected || a.recovered || a.vaccinated || a.dead || a.kind.Wall?)
  }

  /** Every infected neighbour has a strata to look up in the contact table. */
  predicate InfectedArePersons(nbrs: seq<Agent>) {
    forall k | 0 <= k < |nbrs| && nbrs[k].infected :: nbrs[k].kind.Person?
  }

  predicate AnyInfected(nbrs: seq<Agent>) {
    exists k | 0 <= k < |nbrs| :: nbrs[k].infected
  }

  /** The contact rate of an agent of strata `s` towards the person `n`. */
  function RateTowards(m: ContactMatrix, s: Strata, n: Agent): real
    requires IsTotal(m) && n.kind.Person?
  {
    m[s][n.kind.strata]
  }

  /** The worst-neighbour contact rate: the largest rate towards an infected neighbour, and 0 when
      there is none (or when no such rate is positive), scanning the neighbours in order. */
  function WorstRate(m: ContactMatrix, s: Strata, nbrs: seq<Agent>): (r: real)
    requires IsTotal(m) && InfectedArePersons(nbrs)
    ensures r >= 0.0
    ensures forall k | 0 <= k < |nbrs| && nbrs[k].infected :: RateTowards(m, s, nbrs[k]) <= r
    ensures r == 0.0 || exists k | 0 <= k < |nbrs| && nbrs[k].infected :: RateTowards(m, s, nbrs[k]) == r
    decreases |nbrs|
  {
    if |nbrs| == 0 then 0.0
    else
      var init := nbrs[..|nbrs| - 1];
      var n := nbrs[|nbrs| - 1];
      var acc := WorstRate(m, s, init);
      assert forall k | 0 <= k < |init| :: init[k] == nbrs[k];
      if n.infected && RateTowards(m, s, n) > acc then RateTowards(m, s, n) else acc
  }

  /** The neighbour scan as a loop, the way the source walks the neighbour list once. */
  method ScanNeighbours(m: ContactMatrix, s: Strata, nbrs: seq<Agent>) returns (infection: bool, contactRate: real)
    requires IsTotal(m) && InfectedArePersons(nbrs)
    ensures infection <==> AnyInfected(nbrs)
    ensures contactRate == WorstRate(m, s, nbrs)
  {
    contactRate := 0.0;
    infection := false;
    var i := 0;
    while i < |nbrs|
      invariant 0 <= i <= |nbrs|
      invariant infection <==> exists k | 0 <= k < i :: nbrs[k].infected
      invariant contactRate == WorstRate(m, s, nbrs[..i])
    {
      var n := nbrs[i];
      assert nbrs[..i + 1][..i] == nbrs[..i];
      if n.infected {
        infection := true;
        if RateTowards(m, s, n) > contactRate {
          contactRate := RateTowards(m, s, n);
        }
      }
      i := i + 1;
    }
    assert nbrs[..i] == nbrs;
  }

  /** A rate scaled by the transmission probability. */
  function Scale(t: real, x: real): real {
    t * x
  }

  /** The infection probability towards one infected person `n`: transmission times the contact
      rate of strata `s` towards it. */
  function Risk(d: Disease, s: Strata, n: Agent): real
    requires ValidDisease(d) && n.kind.Person?
  {
    Scale(d.transmission, RateTowards(d.contact, s, n))
  }

  /** The probability the infection draw is compared with: transmission times the worst rate. */
  function Exposure(d: Disease, s: Strata, nbrs: seq<Agent>): real
    requires ValidDisease(d) && InfectedArePersons(nbrs)
  {
    Scale(d.transmission, WorstRate(d.contact, s, nbrs))
  }

  /** Whether the single infection draw succeeds for a person of strata `s` among `nbrs`. */
  predicate Caught(d: Disease, s: Strata, nbrs: seq<Agent>, draw: Unit)
    requires ValidDisease(d) && InfectedArePersons(nbrs)
  {
    AnyInfected(nbrs) && draw < Exposure(d, s, nbrs)
  }

  /** The state a new infection leaves an agent in. */
  function Infect(d: Disease, a: Agent): Agent {
    a.(infected := true, recoverySteps := d.infectionPeriod)
  }

  /** `new_infected`: the fatality trial for infected agents, then the infection trial for
      eligible ones. */
  function NewInfected(d: Disease, a: Agent, nbrs: seq<Agent>, fatalDraw: Unit, infectDraw: Unit): (r: Agent)
    requires ValidDisease(d) && InfectedArePersons(nbrs)
    ensures a.infected ==> r == (if FatalFires(d, a, fatalDraw) then Die(a) else a)
    ensures !a.infected && !Eligible(a) ==> r == a
    ensures Eligible(a) ==> r == (if Caught(d, a.kind.strata, nbrs, infectDraw) then Infect(d, a) else a)
  {
    var a1 := FatalityTrial(d, a, fatalDraw);
    if !Eligible(a1) then a1
    else
      var infection := AnyInfected(nbrs);
      var contactRate := WorstRate(d.contact, a1.kind.strata, nbrs);
      if infection && infectDraw < Scale(d.transmission, contactRate) then Infect(d, a1) else a1
  }

  // ---------------------------------------------------------------------------
  // Recovery countdown
  // ---------------------------------------------------------------------------

  /** `new_recovered`: a timer of 1 turns the infection into recovery; a positive timer counts down. */
  function NewRecovered(a: Agent): (r: Agent)
    ensures r.kind == a.kind && r.pos == a.pos && r.vaccinated == a.vaccinated && r.dead == a.dead
    ensures a.recoverySteps == 0 ==> r == a
    ensures a.recoverySteps > 0 ==> r.recoverySteps + 1 == a.recoverySteps
    ensures r.recovered <==> a.recovered || a.recoverySteps == 1
    ensures r.infected <==> a.infected && a.recoverySteps != 1
  {
    var a1 := if a.recoverySteps == 1 then a.(infected := false, recovered := true) else a;
    if a1.recoverySteps > 0 then a1.(recoverySteps := a1.recoverySteps - 1) else a1
  }

  /** The health part of one activation (the move is handled by the grid). */
  function HealthStep(d: Disease, a: Agent, nbrs: seq<Agent>, fatalDraw: Unit, infectDraw: Unit): Agent
    requires ValidDisease(d) && InfectedArePersons(nbrs)
  {
    NewRecovered(NewInfected(d, a, nbrs, fatalDraw, infectDraw))
  }

  // ---------------------------------------------------------------------------
  // Properties
  // ---------------------------------------------------------------------------

  /** One activation keeps the health flags consistent and never touches strata, cell or
      vaccination; dead stays dead and recovered stays recovered. */
  lemma HealthStepPreservesConsistent(d: Disease, a: Agent, nbrs: seq<Agent>, fatalDraw: Unit, infectDraw: Unit)
    requires ValidDisease(d) && InfectedArePersons(nbrs) && Consistent(a)
    ensures var r := HealthStep(d, a, nbrs, fatalDraw, infectDraw);
      && Consistent(r)
      && r.kind == a.kind && r.pos == a.pos && r.vaccinated == a.vaccinated
      && (a.dead ==> r == a)
      && (a.recovered ==> r.recovered)
      && (a.kind.Wall? ==> r == a)
      && (r.infected && !a.infected ==> Eligible(a))
  {
  }

  /** A vaccinated agent, a dead agent or a wall is never infected by an activation. */
  lemma NeverNewlyInfected(d: Disease, a: Agent, nbrs: seq<Agent>, fatalDraw: Unit, infectDraw: Unit)
    requires ValidDisease(d) && InfectedArePersons(nbrs) && Consistent(a)
    requires a.vaccinated || a.dead || a.kind.Wall? || a.recovered
    ensures !HealthStep(d, a, nbrs, fatalDraw, infectDraw).infected
  {
  }

  /** The infection draw is consulted only by an eligible agent with an infected neighbour. */
  lemma InfectionDrawUnused(d: Disease, a: Agent, nbrs: seq<Agent>, fatalDraw: Unit, x: Unit, y: Unit)
    requires ValidDisease(d) && InfectedArePersons(nbrs)
    requires !Eligible(a) || !AnyInfected(nbrs)
    ensures NewInfected(d, a, nbrs, fatalDraw, x) == NewInfected(d, a, nbrs, fatalDraw, y)
  {
  }

  /** The fatality draw is consulted only by an infected agent. */
  lemma FatalDrawUnused(d: Disease, a: Agent, nbrs: seq<Agent>, x: Unit, y: Unit, infectDraw: Unit)
    requires ValidDisease(d) && InfectedArePersons(nbrs) && !a.infected
    ensures NewInfected(d, a, nbrs, x, infectDraw) == NewInfected(d, a, nbrs, y, infectDraw)
  {
  }

  /** An agent that is not eligible ignores its neighbourhood entirely. */
  lemma NeighboursUnused(d: Disease, a: Agent, nbrs: seq<Agent>, others: seq<Agent>, fatalDraw: Unit, infectDraw: Unit)
    requires ValidDisease(d) && InfectedArePersons(nbrs) && InfectedArePersons(others) && !Eligible(a)
    ensures NewInfected(d, a, nbrs, fatalDraw, infectDraw) == NewInfected(d, a, others, fatalDraw, infectDraw)
  {
  }

  /** With no positive exposure (no infected neighbour, a zero transmission probability, or only
      zero contact rates) an eligible agent stays uninfected whatever the draw. */
  lemma NoExposureNoInfection(d: Disease, a: Agent, nbrs: seq<Agent>, fatalDraw: Unit, infectDraw: Unit)
    requires ValidDisease(d) && InfectedArePersons(nbrs) && Eligible(a)
    requires Exposure(d, a.kind.strata, nbrs) <= 0.0
    ensures NewInfected(d, a, nbrs, fatalDraw, infectDraw) == a
  {
  }

  /** With transmission times the rate towards some infected neighbour at 1 or more, every draw
      succeeds: an eligible agent next to that neighbour is infected. */
  lemma CertainTransmission(d: Disease, a: Agent, nbrs: seq<Agent>, fatalDraw: Unit, infectDraw: Unit, k: nat)
    requires ValidDisease(d) && InfectedArePersons(nbrs) && Eligible(a)
    requires k < |nbrs| && nbrs[k].infected
    requires d.transmission >= 0.0 && Risk(d, a.kind.strata, nbrs[k]) >= 1.0
    ensures NewInfected(d, a, nbrs, fatalDraw, infectDraw) == Infect(d, a)
  {
    ExposureBelowWorst(d, a.kind.strata, nbrs, k);
    assert AnyInfected(nbrs);
  }

  /** Scaling a zero rate gives a zero probability. */
  lemma ScaleZero(t: real, x: real)
    ensures x == 0.0 ==> Scale(t, x) == 0.0
  {
  }

  /** Scaling by a non-negative factor keeps the order of two rates. */
  lemma ScaleMonotone(t: real, x: real, y: real)
    requires t >= 0.0 && x <= y
    ensures Scale(t, x) <= Scale(t, y)
  {
    assert t * (y - x) >= 0.0;
  }

  /** With a non-negative transmission probability, the exposure to any one infected neighbour is
      at most the exposure to the worst one. */
  lemma ExposureBelowWorst(d: Disease, s: Strata, nbrs: seq<Agent>, k: nat)
    requires ValidDisease(d) && InfectedArePersons(nbrs) && d.transmission >= 0.0
    requires k < |nbrs| && nbrs[k].infected
    ensures Risk(d, s, nbrs[k]) <= Exposure(d, s, nbrs)
  {
    ScaleMonotone(d.transmission, RateTowards(d.contact, s, nbrs[k]), WorstRate(d.contact, s, nbrs));
  }

  /** A non-zero exposure is the risk towards one of the infected neighbours. */
  lemma ExposureIsSomeRisk(d: Disease, s: Strata, nbrs: seq<Agent>)
    requires ValidDisease(d) && InfectedArePersons(nbrs) && Exposure(d, s, nbrs) != 0.0
    ensures exists k | 0 <= k < |nbrs| && nbrs[k].infected :: Risk(d, s, nbrs[k]) == Exposure(d, s, nbrs)
  {
    var worst := WorstRate(d.contact, s, nbrs);
    ScaleZero(d.transmission, worst);
    var k :| 0 <= k < |nbrs| && nbrs[k].infected && RateTowards(d.contact, s, nbrs[k]) == worst;
    assert Risk(d, s, nbrs[k]) == Exposure(d, s, nbrs);
  }

  /** A successful infection draw falls under transmission times the rate towards one single
      infected neighbour. */
  lemma CaughtByOne(d: Disease, s: Strata, nbrs: seq<Agent>, draw: Unit)
    requires ValidDisease(d) && InfectedArePersons(nbrs) && Caught(d, s, nbrs, draw)
    ensures exists k | 0 <= k < |nbrs| && nbrs[k].infected :: draw < Risk(d, s, nbrs[k])
  {
    ExposureIsSomeRisk(d, s, nbrs);
  }

  /** With a non-negative transmission probability, one infected neighbour whose rate, scaled by
      the transmission probability, exceeds the draw is enough for the draw to succeed. */
  lemma CaughtFromOne(d: Disease, s: Strata, nbrs: seq<Agent>, draw: Unit, k: nat)
    requires ValidDisease(d) && InfectedArePersons(nbrs) && d.transmission >= 0.0
    requires k < |nbrs| && nbrs[k].infected && draw < Risk(d, s, nbrs[k])
    ensures Caught(d, s, nbrs, draw)
  {
    ExposureBelowWorst(d, s, nbrs, k);
    assert AnyInfected(nbrs);
  }

  /** Agents that cannot catch the infection never become able to. */
  lemma StaysIneligible(d: Disease, a: Agent, fatalDraw: Unit)
    requires ValidDisease(d) && !Eligible(a)
    ensures !Eligible(HealthStep(d, a, [], fatalDraw, 0.0))
  {
  }

  // ---------------------------------------------------------------------------
  // The course of an infection
  // ---------------------------------------------------------------------------

  /** None of the given fatality draws falls under the agent's own fatality percentage. */
  predicate Survives(d: Disease, a: Agent, fatalDraws: seq<Unit>) {
    forall k | 0 <= k < |fatalDraws| :: !FatalFires(d, a, fatalDraws[k])
  }

  /** Successive activations of an agent that is not eligible for infection, one per fatality
      draw; such an agent ignores its neighbours and the infection draw (NeighboursUnused,
      InfectionDrawUnused), so none are supplied. */
  function Course(d: Disease, a: Agent, fatalDraws: seq<Unit>): Agent
    requires ValidDisease(d)
    decreases |fatalDraws|
  {
    if |fatalDraws| == 0 then a
    else Course(d, HealthStep(d, a, [], fatalDraws[0], 0.0), fatalDraws[1..])
  }

  /** The course of an infection does not depend on where the agent stands. */
  lemma {:induction false} CourseIgnoresCell(d: Disease, a: Agent, c: Cell, fatalDraws: seq<Unit>)
    requires ValidDisease(d)
    ensures Course(d, a.(pos := c), fatalDraws) == Course(d, a, fatalDraws).(pos := c)
    decreases |fatalDraws|
  {
    if |fatalDraws| > 0 {
      var a1 := HealthStep(d, a, [], fatalDraws[0], 0.0);
      assert HealthStep(d, a.(pos := c), [], fatalDraws[0], 0.0) == a1.(pos := c);
      CourseIgnoresCell(d, a1, c, fatalDraws[1..]);
    }
  }

  /** A recovered agent keeps its state for good. */
  lemma {:induction false} RecoveredIsStable(d: Disease, a: Agent, fatalDraws: seq<Unit>)
    requires ValidDisease(d) && Consistent(a) && a.recovered
    ensures Course(d, a, fatalDraws) == a
    decreases |fatalDraws|
  {
    if |fatalDraws| > 0 {
      assert HealthStep(d, a, [], fatalDraws[0], 0.0) == a;
      RecoveredIsStable(d, a, fatalDraws[1..]);
    }
  }

  /** An infected agent whose timer is 0 (every initially infected agent, and every agent infected
      while the infection period is 0) stays infected and never recovers while it survives. */
  lemma {:induction false} ZeroTimerNeverRecovers(d: Disease, a: Agent, fatalDraws: seq<Unit>)
    requires ValidDisease(d) && Consistent(a) && a.infected && a.recoverySteps == 0
    requires Survives(d, a, fatalDraws)
    ensures Course(d, a, fatalDraws) == a
    decreases |fatalDraws|
  {
    if |fatalDraws| > 0 {
      assert !FatalFires(d, a, fatalDraws[0]);
      assert HealthStep(d, a, [], fatalDraws[0], 0.0) == a;
      ZeroTimerNeverRecovers(d, a, fatalDraws[1..]);
    }
  }

  /** An infected agent with timer t > 0 that survives is still infected with t - j left after
      j < t activations, and is recovered, with the timer at 0, from the t-th activation on. */
  lemma {:induction false} Countdown(d: Disease, a: Agent, fatalDraws: seq<Unit>)
    requires ValidDisease(d) && Consistent(a) && a.infected && a.recoverySteps > 0
    requires Survives(d, a, fatalDraws)
    ensures var r := Course(d, a, fatalDraws);
      && r.kind == a.kind && !r.dead && Consistent(r)
      && (|fatalDraws| < a.recoverySteps ==>
            r.infected && !r.recovered && r.recoverySteps == a.recoverySteps - |fatalDraws|)
      && (|fatalDraws| >= a.recoverySteps ==> r.recovered && !r.infected && r.recoverySteps == 0)
    decreases |fatalDraws|
  {
    if |fatalDraws| > 0 {
      var a1 := HealthStep(d, a, [], fatalDraws[0], 0.0);
      assert !FatalFires(d, a, fatalDraws[0]);
      HealthStepPreservesConsistent(d, a, [], fatalDraws[0], 0.0);
      assert a1.kind == a.kind;
      assert Survives(d, a1, fatalDraws[1..]) by {
        forall k | 0 <= k < |fatalDraws[1..]| ensures !FatalFires(d, a1, fatalDraws[1..][k]) {
          assert fatalDraws[1..][k] == fatalDraws[k + 1];
        }
      }
      if a.recoverySteps == 1 {
        assert a1.recovered && !a1.infected && a1.recoverySteps == 0;
        RecoveredIsStable(d, a1, fatalDraws[1..]);
      } else {
        assert a1.infected && a1.recoverySteps == a.recoverySteps - 1;
        Countdown(d, a1, fatalDraws[1..]);
      }
    }
  }

  /** A newly infected agent with infection period k >= 1 that survives recovers exactly after
      k - 1 further activations; with k = 1 it recovers in the activation that infected it. */
  lemma NewInfectionRecovers(d: Disease, a: Agent, nbrs: seq<Agent>, fatalDraw: Unit, infectDraw: Unit,
                             fatalDraws: seq<Unit>)
    requires ValidDisease(d) && InfectedArePersons(nbrs) && Consistent(a) && Eligible(a)
    requires Caught(d, a.kind.strata, nbrs, infectDraw)
    requires d.infectionPeriod >= 1
    requires Survives(d, a, fatalDraws)
    ensures var a1 := HealthStep(d, a, nbrs, fatalDraw, infectDraw);
      && (a1.recovered <==> d.infectionPeriod == 1)
      && (Course(d, a1, fatalDraws).recovered <==> |fatalDraws| >= d.infectionPeriod - 1)
  {
    var a1 := HealthStep(d, a, nbrs, fatalDraw, infectDraw);
    HealthStepPreservesConsistent(d, a, nbrs, fatalDraw, infectDraw);
    assert Survives(d, a1, fatalDraws);
    if d.infectionPeriod == 1 {
      RecoveredIsStable(d, a1, fatalDraws);
    } else {
      Countdown(d, a1, fatalDraws);
    }
  }

  /** With an infection period of 0 a newly infected agent keeps a zero timer and never recovers. */
  lemma {:induction false} ZeroPeriodNeverRecovers(d: Disease, a: Agent, nbrs: seq<Agent>, fatalDraw: Unit, infectDraw: Unit,
                                fatalDraws: seq<Unit>)
    requires ValidDisease(d) && InfectedArePersons(nbrs) && Consistent(a) && Eligible(a)
    requires Caught(d, a.kind.strata, nbrs, infectDraw)
    requires d.infectionPeriod == 0
    requires Survives(d, a, fatalDraws)
    ensures var a1 := HealthStep(d, a, nbrs, fatalDraw, infectDraw);
      && a1.infected && a1.recoverySteps == 0
      && Course(d, a1, fatalDraws) == a1
  {
    var a1 := HealthStep(d, a, nbrs, fatalDraw, infectDraw);
    HealthStepPreservesConsistent(d, a, nbrs, fatalDraw, infectDraw);
    ZeroTimerNeverRecovers(d, a1, fatalDraws);
  }
}
