/** The demographic strata of the grocery-store population and per-strata parameters. */
module Population {

  /** Every person belongs to exactly one of these four strata. */
  datatype Strata = Adult | Child | Elder | Pregnant

  const AllStrata: set<Strata> := {Adult, Child, Elder, Pregnant}

  /** Case analysis over the four strata, for proofs about tables indexed by strata. */
  lemma StrataCases(s: Strata)
    ensures s == Adult || s == Child || s == Elder || s == Pregnant
    ensures s in AllStrata
  {
  }

  /** One value per strata, e.g. the fatality percentages or the population counts. */
  datatype PerStrata<T> = PerStrata(adult: T, child: T, elder: T, pregnant: T) {
    function Of(s: Strata): T {
      match s
      case Adult => adult
      case Child => child
      case Elder => elder
      case Pregnant => pregnant
    }
  }

  /** The strata whose contact rates a strata borrows: pregnant persons use the adult rates. */
  function RateStrata(s: Strata): (b: Strata)
    ensures b != Pregnant
    ensures s == Pregnant ==> b == Adult
    ensures s != Pregnant ==> b == s
  {
    if s == Pregnant then Adult else s
  }
}
