/** `TimesMapper`: right-multiplies every weight of an FST by a constant
    (rustfst/src/algorithms/arc_mappers/times_mapper.rs). */
module TimesMappers {
  import opened Results
  import opened Semirings
  import opened Fst

  class TimesMapper<V, W(!new)> {
    const sr: Semiring<V, W>
    const toMultiply: W

    /** `TimesMapper::new(value)` stores the weight built from `value`. */
    constructor New(sr: Semiring<V, W>, value: V)
      ensures this.sr == sr && toMultiply == sr.make(value)
    {
      this.sr := sr;
      toMultiply := sr.make(value);
    }

    /** `TimesMapper::from_weight(w)` stores `w` itself. */
    constructor FromWeight(sr: Semiring<V, W>, value: W)
      ensures this.sr == sr && toMultiply == value
    {
      this.sr := sr;
      toMultiply := value;
    }

    /** The weight that mapping turns `w` into. */
    function Mapped(w: W): W {
      sr.times(w, toMultiply)
    }

    /** `map_weight`: multiplies the weight in place, on the right. */
    method MapWeight(weight: Weight<V, W>) returns (r: Result<Unit>)
      requires weight.sr == sr
      modifies weight
      ensures r == Ok(Unit)
      ensures weight.v == Mapped(old(weight.v))
    {
      weight.TimesAssign(toMultiply);
      r := Ok(Unit);
    }

    /** `arc_map`: maps the weight of the transition and nothing else. The
        transition borrowed mutably is passed in and returned updated. */
    method ArcMap(arc: Tr<W>) returns (r: Result<Tr<W>>)
      ensures r.Ok?
      ensures r.value.ilabel == arc.ilabel && r.value.olabel == arc.olabel
      ensures r.value.nextstate == arc.nextstate
      ensures r.value.weight == sr.times(arc.weight, toMultiply)
    {
      var weight := new Weight(sr, arc.weight);
      var res := MapWeight(weight);
      r := match res { case Ok(_) => Ok(arc.(weight := weight.v)) case Err(e) => Err(e) };
    }

    /** `final_arc_map`: maps the weight of the final transition and nothing else. */
    method FinalArcMap(finalArc: FinalTr<W>) returns (r: Result<FinalTr<W>>)
      ensures r.Ok?
      ensures r.value.ilabel == finalArc.ilabel && r.value.olabel == finalArc.olabel
      ensures r.value.weight == sr.times(finalArc.weight, toMultiply)
    {
      var weight := new Weight(sr, finalArc.weight);
      var res := MapWeight(weight);
      r := match res { case Ok(_) => Ok(finalArc.(weight := weight.v)) case Err(e) => Err(e) };
    }

    function FinalAction(): (a: MapFinalAction)
      ensures a == MapNoSuperfinal
    {
      MapNoSuperfinal
    }

    /** Multiplying by `one` leaves every weight as it is. */
    lemma MapByOneIsIdentity(w: W)
      requires IsSemiring(sr) && toMultiply == sr.one
      ensures Mapped(w) == w
    {
      assert Identity(sr.times, sr.one);
    }

    /** Multiplying by `zero` sends every weight to `zero`. */
    lemma MapByZeroAnnihilates(w: W)
      requires IsSemiring(sr) && toMultiply == sr.zero
      ensures Mapped(w) == sr.zero
    {
      assert Annihilates(sr.times, sr.zero);
    }

    /** Mapping is a homomorphism of plus: it scales a sum of path weights
        the same way it scales each summand. */
    lemma MapDistributesOverPlus(a: W, b: W)
      requires IsSemiring(sr)
      ensures Mapped(sr.plus(a, b)) == sr.plus(Mapped(a), Mapped(b))
    {
      assert Distributes(sr.times, sr.plus);
    }
  }

  /** Mapping by `c1` and then by `c2` is mapping once by `c1 * c2`. */
  lemma MapTwiceIsMapByProduct<V, W(!new)>(m1: TimesMapper<V, W>, m2: TimesMapper<V, W>, m12: TimesMapper<V, W>, w: W)
    requires m1.sr == m2.sr == m12.sr && IsSemiring(m1.sr)
    requires m12.toMultiply == m1.sr.times(m1.toMultiply, m2.toMultiply)
    ensures m2.Mapped(m1.Mapped(w)) == m12.Mapped(w)
  {
    assert Associative(m1.sr.times);
  }
}
