/** The seeding arithmetic of the constructor: the strata array, the per-strata shuffled
    vaccination flags, and the initially infected flags drawn from the unvaccinated indices. */
module Seeding {
  import opened Wrappers
  import opened Population
  import opened Seqs

  /** The constructor's errors. The two seeding errors arise here; `GridTooSmall` arises only
      from the wall placement in `Setup.Init`. */
  datatype SeedError = VaccinatedExceedsPopulation | NotEnoughUnvaccinated | GridTooSmall

  // ---------------------------------------------------------------------------
  // numpy's shuffle
  // ---------------------------------------------------------------------------

  function Swap<T>(a: seq<T>, i: nat, j: nat): (r: seq<T>)
    requires i < |a| && j < |a|
    ensures |r| == |a| && multiset(r) == multiset(a)
  {
    a[i := a[j]][j := a[i]]
  }

  lemma SwapKeepsDistinct<T>(a: seq<T>, i: nat, j: nat)
    requires i < |a| && j < |a| && Distinct(a)
    ensures Distinct(Swap(a, i, j))
  {
    var r := Swap(a, i, j);
    forall p, q | 0 <= p < q < |r| ensures r[p] != r[q] {
      var p' := if p == i then j else if p == j then i else p;
      var q' := if q == i then j else if q == j then i else q;
      assert r[p] == a[p'] && r[q] == a[q'] && p' != q';
    }
  }

  /** The swaps of positions i-1, i-2, ..., 1 of the shuffle; the draw made at position m is
      `js[m]`, reduced to the range 0..m. */
  function ShuffleDown<T>(a: seq<T>, i: nat, js: seq<nat>): (r: seq<T>)
    requires i <= |a| && |a| <= |js|
    ensures |r| == |a| && multiset(r) == multiset(a)
    decreases i
  {
    if i <= 1 then a else ShuffleDown(Swap(a, i - 1, js[i - 1] % i), i - 1, js)
  }

  /** `np.random.shuffle` on a one-dimensional array: a Fisher-Yates pass from the last entry
      down, each draw taken from `js`. The result is a rearrangement of the input. */
  function Shuffle<T>(a: seq<T>, js: seq<nat>): seq<T>
    requires |a| <= |js|
  {
    ShuffleDown(a, |a|, js)
  }

  lemma {:induction false} ShuffleDownKeepsDistinct<T>(a: seq<T>, i: nat, js: seq<nat>)
    requires i <= |a| && |a| <= |js| && Distinct(a)
    ensures Distinct(ShuffleDown(a, i, js))
    decreases i
  {
    if i > 1 {
      SwapKeepsDistinct(a, i - 1, js[i - 1] % i);
      ShuffleDownKeepsDistinct(Swap(a, i - 1, js[i - 1] % i), i - 1, js);
    }
  }

  /** Shuffling is a permutation: it keeps the length and the entries with their multiplicities,
      and keeps distinct entries distinct. */
  lemma ShuffleFacts<T>(a: seq<T>, js: seq<nat>)
    requires |a| <= |js|
    ensures |Shuffle(a, js)| == |a|
    ensures multiset(Shuffle(a, js)) == multiset(a)
    ensures forall x :: x in Shuffle(a, js) <==> x in a
    ensures Distinct(a) ==> Distinct(Shuffle(a, js))
  {
    var r := Shuffle(a, js);
    assert forall x :: x in r <==> x in multiset(r);
    if Distinct(a) {
      ShuffleDownKeepsDistinct(a, |a|, js);
    }
  }

  lemma ShuffleKeepsCount(a: seq<bool>, js: seq<nat>)
    requires |a| <= |js|
    ensures CountTrue(Shuffle(a, js)) == CountTrue(a)
  {
    CountTrueIsMultiplicity(a);
    CountTrueIsMultiplicity(Shuffle(a, js));
  }

  // ---------------------------------------------------------------------------
  // Strata and vaccination arrays
  // ---------------------------------------------------------------------------

  function Total(n: PerStrata<nat>): nat {
    n.adult + n.elder + n.child + n.pregnant
  }

  /** The first index of strata `s` in the strata array: adults, then elderly, children, pregnant. */
  function Start(n: PerStrata<nat>, s: Strata): nat {
    match s
    case Adult => 0
    case Elder => n.adult
    case Child => n.adult + n.elder
    case Pregnant => n.adult + n.elder + n.child
  }

  /** The strata of every agent, in the order the agents are created. */
  function StrataArray(n: PerStrata<nat>): (r: seq<Strata>)
    ensures |r| == Total(n)
    ensures forall i, s | 0 <= i < |r| :: r[i] == s <==> Start(n, s) <= i < Start(n, s) + n.Of(s)
  {
    Repeat(Adult, n.adult) + Repeat(Elder, n.elder) + Repeat(Child, n.child) + Repeat(Pregnant, n.pregnant)
  }

  /** One strata's flags before shuffling, `[True] * v + [False] * (n - v)`: Python's list
      repetition by a negative count yields nothing, so for v > n the block has v entries. */
  function VaccinationBlock(n: nat, v: nat): (b: seq<bool>)
    ensures |b| == if v <= n then n else v
    ensures CountTrue(b) == v
  {
    var b := Repeat(true, v) + Repeat(false, if v <= n then n - v else 0);
    CountTrueConcat(Repeat(true, v), Repeat(false, if v <= n then n - v else 0));
    CountTrueRepeat(true, v);
    CountTrueRepeat(false, if v <= n then n - v else 0);
    b
  }

  /** Each strata's shuffle has a draw for every entry of its block. */
  predicate ShuffleDrawsFit(n: PerStrata<nat>, v: PerStrata<nat>, js: PerStrata<seq<nat>>) {
    forall s :: |VaccinationBlock(n.Of(s), v.Of(s))| <= |js.Of(s)|
  }

  /** The block of strata `s`, shuffled. */
  function ShuffledBlock(n: PerStrata<nat>, v: PerStrata<nat>, js: PerStrata<seq<nat>>, s: Strata): (b: seq<bool>)
    requires ShuffleDrawsFit(n, v, js)
    ensures |b| == |VaccinationBlock(n.Of(s), v.Of(s))|
    ensures CountTrue(b) == v.Of(s)
  {
    assert |VaccinationBlock(n.Of(s), v.Of(s))| <= |js.Of(s)|;
    ShuffleFacts(VaccinationBlock(n.Of(s), v.Of(s)), js.Of(s));
    ShuffleKeepsCount(VaccinationBlock(n.Of(s), v.Of(s)), js.Of(s));
    Shuffle(VaccinationBlock(n.Of(s), v.Of(s)), js.Of(s))
  }

  /** The shuffled blocks concatenated in the strata array's order, as the constructor does it,
      with no check that each block has the length of its strata. */
  function VaccinatedArray(n: PerStrata<nat>, v: PerStrata<nat>, js: PerStrata<seq<nat>>): seq<bool>
    requires ShuffleDrawsFit(n, v, js)
  {
    ShuffledBlock(n, v, js, Adult) + ShuffledBlock(n, v, js, Elder)
    + ShuffledBlock(n, v, js, Child) + ShuffledBlock(n, v, js, Pregnant)
  }

  predicate VaccinationFits(n: PerStrata<nat>, v: PerStrata<nat>) {
    forall s :: v.Of(s) <= n.Of(s)
  }

  lemma Slices4<T>(a: seq<T>, b: seq<T>, c: seq<T>, d: seq<T>)
    ensures var x := a + b + c + d;
      && x[..|a|] == a
      && x[|a|..|a| + |b|] == b
      && x[|a| + |b|..|a| + |b| + |c|] == c
      && x[|a| + |b| + |c|..|a| + |b| + |c| + |d|] == d
  {
    var x := a + b + c + d;
    assert x == ((a + b) + c) + d;
    assert x[..|a| + |b| + |c|] == a + b + c;
    assert x[..|a| + |b|] == a + b;
  }

  /** The four blocks of a per-strata concatenation, selected by strata. */
  function BlockOf<T>(ba: seq<T>, be: seq<T>, bc: seq<T>, bp: seq<T>, s: Strata): seq<T> {
    match s
    case Adult => ba
    case Elder => be
    case Child => bc
    case Pregnant => bp
  }

  lemma SliceOfConcat<T>(ba: seq<T>, be: seq<T>, bc: seq<T>, bp: seq<T>, n: PerStrata<nat>, s: Strata)
    requires |ba| == n.adult && |be| == n.elder && |bc| == n.child && |bp| == n.pregnant
    ensures Start(n, s) + n.Of(s) == Start(n, s) + |BlockOf(ba, be, bc, bp, s)| <= |ba + be + bc + bp|
    ensures (ba + be + bc + bp)[Start(n, s)..Start(n, s) + n.Of(s)] == BlockOf(ba, be, bc, bp, s)
  {
    Slices4(ba, be, bc, bp);
  }

  /** Each strata's shuffled block sits at that strata's slice of the vaccinated array. */
  lemma BlockAtSlice(n: PerStrata<nat>, v: PerStrata<nat>, js: PerStrata<seq<nat>>, s: Strata)
    requires ShuffleDrawsFit(n, v, js) && VaccinationFits(n, v)
    ensures Start(n, s) + n.Of(s) <= |VaccinatedArray(n, v, js)|
    ensures VaccinatedArray(n, v, js)[Start(n, s)..Start(n, s) + n.Of(s)] == ShuffledBlock(n, v, js, s)
  {
    var ba, be := ShuffledBlock(n, v, js, Adult), ShuffledBlock(n, v, js, Elder);
    var bc, bp := ShuffledBlock(n, v, js, Child), ShuffledBlock(n, v, js, Pregnant);
    assert v.Of(Adult) <= n.Of(Adult) && v.Of(Elder) <= n.Of(Elder);
    assert v.Of(Child) <= n.Of(Child) && v.Of(Pregnant) <= n.Of(Pregnant);
    SliceOfConcat(ba, be, bc, bp, n, s);
    assert BlockOf(ba, be, bc, bp, s) == ShuffledBlock(n, v, js, s);
  }

  lemma CountTrueConcat4(a: seq<bool>, b: seq<bool>, c: seq<bool>, d: seq<bool>)
    ensures CountTrue(a + b + c + d) == CountTrue(a) + CountTrue(b) + CountTrue(c) + CountTrue(d)
  {
    CountTrueConcat(a, b);
    CountTrueConcat(a + b, c);
    CountTrueConcat(a + b + c, d);
  }

  /** The vaccinated array has one entry per agent and v_a + v_e + v_c + v_p vaccinated ones. */
  lemma VaccinatedArraySize(n: PerStrata<nat>, v: PerStrata<nat>, js: PerStrata<seq<nat>>)
    requires ShuffleDrawsFit(n, v, js) && VaccinationFits(n, v)
    ensures |VaccinatedArray(n, v, js)| == Total(n)
    ensures CountTrue(VaccinatedArray(n, v, js)) == Total(v)
  {
    var ba, be := ShuffledBlock(n, v, js, Adult), ShuffledBlock(n, v, js, Elder);
    var bc, bp := ShuffledBlock(n, v, js, Child), ShuffledBlock(n, v, js, Pregnant);
    assert v.Of(Adult) <= n.Of(Adult) && v.Of(Elder) <= n.Of(Elder);
    assert v.Of(Child) <= n.Of(Child) && v.Of(Pregnant) <= n.Of(Pregnant);
    CountTrueConcat4(ba, be, bc, bp);
  }

  /** With v_x <= n_x for every strata the flags line up with the strata array: the slice of each
      strata holds exactly v_x vaccinated entries. */
  lemma VaccinatedArrayAligned(n: PerStrata<nat>, v: PerStrata<nat>, js: PerStrata<seq<nat>>)
    requires ShuffleDrawsFit(n, v, js) && VaccinationFits(n, v)
    ensures forall s ::
              && Start(n, s) + n.Of(s) <= |VaccinatedArray(n, v, js)|
              && CountTrue(VaccinatedArray(n, v, js)[Start(n, s)..Start(n, s) + n.Of(s)]) == v.Of(s)
  {
    forall s ensures Start(n, s) + n.Of(s) <= |VaccinatedArray(n, v, js)|
      && CountTrue(VaccinatedArray(n, v, js)[Start(n, s)..Start(n, s) + n.Of(s)]) == v.Of(s) {
      BlockAtSlice(n, v, js, s);
    }
  }

  /** The indices of the unvaccinated entries, in increasing order (`np.where(arr == False)`). */
  function UnvaccinatedIndices(a: seq<bool>): (r: seq<nat>)
    ensures forall k | 0 <= k < |r| :: r[k] < |a| && !a[r[k]]
    ensures forall i | 0 <= i < |a| && !a[i] :: i in r
    ensures Distinct(r)
    ensures |r| + CountTrue(a) == |a|
    decreases |a|
  {
    if |a| == 0 then []
    else
      var n := |a| - 1;
      var init := UnvaccinatedIndices(a[..n]);
      var last := if a[n] then [] else [n];
      DistinctConcat(init, last);
      init + last
  }

  // ---------------------------------------------------------------------------
  // Initially infected
  // ---------------------------------------------------------------------------

  /** `np.random.choice(pool, size, replace=False)`: numpy permutes the pool and keeps the first
      `size` entries, and refuses a sample larger than the pool. */
  function Sample(pool: seq<nat>, size: nat, js: seq<nat>): (r: Result<seq<nat>, SeedError>)
    requires |pool| <= |js|
    ensures r.Failure? <==> size > |pool|
    ensures r.Failure? ==> r.error == NotEnoughUnvaccinated
    ensures r.Success? ==> |r.value| == size && forall x | x in r.value :: x in pool
    ensures r.Success? && Distinct(pool) ==> Distinct(r.value)
  {
    if size > |pool| then Failure(NotEnoughUnvaccinated)
    else
      var perm := Shuffle(pool, js);
      ShuffleFacts(pool, js);
      Success(perm[..size])
  }

  /** `arr[indices] = True`, one index at a time. */
  function Mark(a: seq<bool>, indices: seq<nat>): (r: seq<bool>)
    requires forall k | 0 <= k < |indices| :: indices[k] < |a|
    ensures |r| == |a|
    ensures forall i | 0 <= i < |a| :: r[i] <==> a[i] || i in indices
    decreases |indices|
  {
    if |indices| == 0 then a
    else
      var n := |indices| - 1;
      assert forall i :: i in indices <==> i in indices[..n] || i == indices[n] by {
        assert indices == indices[..n] + [indices[n]];
      }
      Mark(a, indices[..n])[indices[n] := true]
  }

  /** Marking distinct, previously unset indices adds exactly one `true` per index. */
  lemma {:induction false} MarkCount(a: seq<bool>, indices: seq<nat>)
    requires forall k | 0 <= k < |indices| :: indices[k] < |a| && !a[indices[k]]
    requires Distinct(indices)
    ensures CountTrue(Mark(a, indices)) == CountTrue(a) + |indices|
    decreases |indices|
  {
    if |indices| > 0 {
      var n := |indices| - 1;
      MarkCount(a, indices[..n]);
      assert indices[n] !in indices[..n];
      CountTrueSet(Mark(a, indices[..n]), indices[n]);
    }
  }

  // ---------------------------------------------------------------------------
  // The seeding arrays
  // ---------------------------------------------------------------------------

  /** The draws the seeding consumes: one per entry of each strata's shuffle, and one per entry of
      the permutation behind the choice of the initially infected. */
  datatype SeedDraws = SeedDraws(shuffles: PerStrata<seq<nat>>, choice: seq<nat>)

  /** The arrays aligned with the agents: strata, vaccinated, initially infected. */
  datatype Seeds = Seeds(strata: seq<Strata>, vaccinated: seq<bool>, infected: seq<bool>)

  predicate SeedDrawsFit(n: PerStrata<nat>, sd: SeedDraws) {
    && (forall s :: n.Of(s) <= |sd.shuffles.Of(s)|)
    && Total(n) <= |sd.choice|
  }

  /** The promises of the seeding arrays for populations `n`, vaccinated counts `v` and `k`
      initially infected. */
  predicate Seeded(n: PerStrata<nat>, v: PerStrata<nat>, k: nat, sa: Seeds) {
    && |sa.strata| == Total(n) && |sa.vaccinated| == Total(n) && |sa.infected| == Total(n)
    && (forall i, s | 0 <= i < Total(n) :: sa.strata[i] == s <==> Start(n, s) <= i < Start(n, s) + n.Of(s))
    && (forall s :: CountTrue(sa.vaccinated[Start(n, s)..Start(n, s) + n.Of(s)]) == v.Of(s))
    && CountTrue(sa.infected) == k
    && (forall i | 0 <= i < Total(n) && sa.infected[i] :: !sa.vaccinated[i])
  }

  /** The initially infected flags: `size` indices drawn without replacement from the unvaccinated
      entries of `vacc` are set. Too large a sample is numpy's ValueError. */
  function InfectedArray(vacc: seq<bool>, size: nat, js: seq<nat>): (r: Result<seq<bool>, SeedError>)
    requires |vacc| <= |js|
    ensures r.Failure? <==> size + CountTrue(vacc) > |vacc|
    ensures r.Failure? ==> r.error == NotEnoughUnvaccinated
    ensures r.Success? ==> |r.value| == |vacc| && CountTrue(r.value) == size
    ensures r.Success? ==> forall i | 0 <= i < |vacc| && r.value[i] :: !vacc[i]
  {
    var pool := UnvaccinatedIndices(vacc);
    match Sample(pool, size, js)
    case Failure(e) => Failure(e)
    case Success(chosen) =>
      var none := Repeat(false, |vacc|);
      CountTrueRepeat(false, |vacc|);
      assert forall j | 0 <= j < |chosen| :: chosen[j] < |none| && !none[chosen[j]] by {
        forall j | 0 <= j < |chosen| ensures chosen[j] < |none| && !none[chosen[j]] {
          assert chosen[j] in chosen;
          var p :| 0 <= p < |pool| && pool[p] == chosen[j];
        }
      }
      MarkCount(none, chosen);
      Success(Mark(none, chosen))
  }

  /** The seeding arrays, rejecting a vaccinated count above its strata's population (which the
      constructor as written lets through, see MisalignedVaccination) and a request for more
      initially infected agents than there are unvaccinated ones (numpy's ValueError). */
  function SeedArrays(n: PerStrata<nat>, v: PerStrata<nat>, k: nat, sd: SeedDraws): (r: Result<Seeds, SeedError>)
    requires SeedDrawsFit(n, sd)
    ensures r == Failure(VaccinatedExceedsPopulation) <==> !VaccinationFits(n, v)
    ensures r == Failure(NotEnoughUnvaccinated) <==> VaccinationFits(n, v) && k + Total(v) > Total(n)
    ensures r.Success? ==> Seeded(n, v, k, r.value)
  {
    if !VaccinationFits(n, v) then Failure(VaccinatedExceedsPopulation)
    else
      assert ShuffleDrawsFit(n, v, sd.shuffles);
      var vacc := VaccinatedArray(n, v, sd.shuffles);
      VaccinatedArraySize(n, v, sd.shuffles);
      match InfectedArray(vacc, k, sd.choice)
      case Failure(e) => Failure(e)
      case Success(inf) =>
        SeededFromArrays(n, v, k, sd.shuffles, inf);
        Success(Seeds(StrataArray(n), vacc, inf))
  }

  /** The promises of the seeding arrays, from facts about plain vaccinated and infected arrays. */
  lemma SeededFrom(n: PerStrata<nat>, v: PerStrata<nat>, k: nat, vacc: seq<bool>, inf: seq<bool>)
    requires |vacc| == Total(n) && |inf| == Total(n)
    requires forall s :: Start(n, s) + n.Of(s) <= |vacc|
    requires forall s :: CountTrue(vacc[Start(n, s)..Start(n, s) + n.Of(s)]) == v.Of(s)
    requires CountTrue(inf) == k
    requires forall i | 0 <= i < |inf| && inf[i] :: !vacc[i]
    ensures Seeded(n, v, k, Seeds(StrataArray(n), vacc, inf))
  {
  }

  lemma SeededFromArrays(n: PerStrata<nat>, v: PerStrata<nat>, k: nat, js: PerStrata<seq<nat>>, inf: seq<bool>)
    requires ShuffleDrawsFit(n, v, js) && VaccinationFits(n, v)
    requires |inf| == Total(n) && CountTrue(inf) == k
    requires forall i | 0 <= i < |inf| && inf[i] :: !VaccinatedArray(n, v, js)[i]
    ensures Seeded(n, v, k, Seeds(StrataArray(n), VaccinatedArray(n, v, js), inf))
  {
    var vacc := VaccinatedArray(n, v, js);
    VaccinatedArraySize(n, v, js);
    VaccinatedArrayAligned(n, v, js);
    SeededFrom(n, v, k, vacc, inf);
  }

  /** One person of each strata, with two vaccinated adults and nobody else vaccinated: the adult
      block has two entries, so the flags overrun the strata array by one and every later strata is
      shifted by one place. The elder (index 1 of the strata array) receives the second adult flag
      and is vaccinated although no elder was to be. */
  lemma MisalignedVaccination(js: PerStrata<seq<nat>>)
    requires |js.adult| >= 2 && |js.child| >= 1 && |js.elder| >= 1 && |js.pregnant| >= 1
    ensures var n := PerStrata(1, 1, 1, 1);
      var v := PerStrata(2, 0, 0, 0);
      && ShuffleDrawsFit(n, v, js)
      && |VaccinatedArray(n, v, js)| == |StrataArray(n)| + 1
      && StrataArray(n)[1] == Elder
      && v.Of(Elder) == 0
      && VaccinatedArray(n, v, js)[1]
  {
    var n := PerStrata(1, 1, 1, 1);
    var v := PerStrata(2, 0, 0, 0);
    forall s ensures |VaccinationBlock(n.Of(s), v.Of(s))| <= |js.Of(s)| {
      StrataCases(s);
    }
    var adults := Shuffle(VaccinationBlock(1, 2), js.adult);
    assert VaccinationBlock(1, 2) == [true, true];
    ShuffleFacts(VaccinationBlock(1, 2), js.adult);
    assert adults[1] in adults;
    assert StrataArray(n)[1] == Repeat(Elder, 1)[0];
  }
}
