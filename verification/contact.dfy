/** The strata-by-strata contact-rate table built once when the simulation is constructed. */
module Contact {
  import opened Population

  /** The nine configured rates; `ac` is the rate of an adult towards a child, and so on. */
  datatype ContactRates = ContactRates(
    aa: real, ac: real, ae: real,
    ca: real, cc: real, ce: real,
    ea: real, ec: real, ee: real)

  /** A table from the agent's own strata to the neighbour's strata to a contact rate. */
  type ContactMatrix = map<Strata, map<Strata, real>>

  /** Every row and every column of the table is present. */
  predicate IsTotal(m: ContactMatrix) {
    && (forall s :: s in m)
    && (forall s, t | s in m :: t in m[s])
  }

  /** The row of one of the three configured strata towards adult, child and elder neighbours. */
  function Row(adult: real, child: real, elder: real): (row: map<Strata, real>)
    ensures forall t :: t in row
    ensures row[Adult] == adult && row[Child] == child && row[Elder] == elder
    ensures row[Pregnant] == row[Adult]
  {
    var row := map[Adult := adult, Child := child, Elder := elder, Pregnant := adult];
    assert forall t: Strata :: t in row by {
      forall t: Strata ensures t in row { StrataCases(t); }
    }
    row
  }

  /** The contact matrix of the SIR constructor; the pregnant row and column copy the adult ones. */
  function BuildContactMatrix(p: ContactRates): (m: ContactMatrix)
    ensures IsTotal(m)
    ensures forall t :: m[Pregnant][t] == m[Adult][t]
    ensures forall s :: m[s][Pregnant] == m[s][Adult]
    ensures forall s, t :: m[s][t] == m[RateStrata(s)][RateStrata(t)]
  {
    var adultRow := Row(p.aa, p.ac, p.ae);
    var m := map[Adult := adultRow,
                 Child := Row(p.ca, p.cc, p.ce),
                 Elder := Row(p.ea, p.ec, p.ee),
                 Pregnant := adultRow];
    assert forall s: Strata :: s in m by {
      forall s: Strata ensures s in m { StrataCases(s); }
    }
    m
  }

  /** Reads the nine configured rates back out of a total table. */
  function ReadRates(m: ContactMatrix): ContactRates
    requires IsTotal(m)
  {
    ContactRates(
      m[Adult][Adult], m[Adult][Child], m[Adult][Elder],
      m[Child][Adult], m[Child][Child], m[Child][Elder],
      m[Elder][Adult], m[Elder][Child], m[Elder][Elder])
  }

  /** No configured rate is lost or confused with another: the table determines its parameters. */
  lemma ReadRatesInvertsBuild(p: ContactRates)
    ensures ReadRates(BuildContactMatrix(p)) == p
  {
  }

  /** Two parameter sets that build the same table are the same parameter set. */
  lemma BuildContactMatrixInjective(p: ContactRates, q: ContactRates)
    requires BuildContactMatrix(p) == BuildContactMatrix(q)
    ensures p == q
  {
    ReadRatesInvertsBuild(p);
    ReadRatesInvertsBuild(q);
  }

  /** Non-negative parameters give a non-negative table. */
  lemma BuildContactMatrixNonNegative(p: ContactRates)
    requires p.aa >= 0.0 && p.ac >= 0.0 && p.ae >= 0.0
    requires p.ca >= 0.0 && p.cc >= 0.0 && p.ce >= 0.0
    requires p.ea >= 0.0 && p.ec >= 0.0 && p.ee >= 0.0
    ensures forall s, t :: BuildContactMatrix(p)[s][t] >= 0.0
  {
    var m := BuildContactMatrix(p);
    forall s, t ensures m[s][t] >= 0.0 {
      assert m[s][t] == m[RateStrata(s)][RateStrata(t)];
    }
  }

  /** The default rates of the user interface. */
  const DefaultRates := ContactRates(10.0, 3.0, 1.0, 6.0, 6.0, 1.0, 5.0, 1.0, 2.0)

  /** The table is not symmetric in general: with the default rates adult-child is 3, child-adult is 6. */
  lemma ContactMatrixAsymmetric()
    ensures BuildContactMatrix(DefaultRates)[Adult][Child] == 3.0
    ensures BuildContactMatrix(DefaultRates)[Child][Adult] == 6.0
    ensures BuildContactMatrix(DefaultRates)[Adult][Child] != BuildContactMatrix(DefaultRates)[Child][Adult]
  {
  }
}
