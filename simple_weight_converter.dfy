/** `SimpleWeightConverter`: rebuilds each weight in another semiring that
    shares its underlying value type
    (rustfst/src/algorithms/weight_converters/simple_weight_converter.rs). */
module SimpleWeightConverter {
  import opened Results
  import opened Semirings
  import opened Fst

  /** The output weight: `SO::new(w.value())`. */
  function ConvertWeight<V, WI, WO>(si: Semiring<V, WI>, so: Semiring<V, WO>, w: WI): WO {
    so.make(si.value(w))
  }

  /** `arc_map`: a new transition with the same labels and next state, and
      the weight rebuilt from its value; it never fails. */
  function ArcMap<V, WI, WO>(si: Semiring<V, WI>, so: Semiring<V, WO>, arc: Tr<WI>): (r: Result<Tr<WO>>)
    ensures r.Ok?
    ensures r.value.ilabel == arc.ilabel && r.value.olabel == arc.olabel
    ensures r.value.nextstate == arc.nextstate
    ensures r.value.weight == so.make(si.value(arc.weight))
  {
    Ok(Tr(arc.ilabel, arc.olabel, ConvertWeight(si, so, arc.weight), arc.nextstate))
  }

  /** `final_arc_map`: the same labels and the weight rebuilt from its value;
      it never fails. */
  function FinalArcMap<V, WI, WO>(si: Semiring<V, WI>, so: Semiring<V, WO>, finalArc: FinalTr<WI>): (r: Result<FinalTr<WO>>)
    ensures r.Ok?
    ensures r.value.ilabel == finalArc.ilabel && r.value.olabel == finalArc.olabel
    ensures r.value.weight == so.make(si.value(finalArc.weight))
  {
    Ok(FinalTr(finalArc.ilabel, finalArc.olabel, ConvertWeight(si, so, finalArc.weight)))
  }

  function FinalAction(): (a: MapFinalAction)
    ensures a == MapNoSuperfinal
  {
    MapNoSuperfinal
  }

  /** `new` and `value` of a semiring are inverse on values. */
  ghost predicate ValueRoundTrips<V(!new), W>(sr: Semiring<V, W>) {
    forall v :: sr.value(sr.make(v)) == v
  }

  /** `value` and `new` of a semiring are inverse on weights. */
  ghost predicate WeightRoundTrips<V, W(!new)>(sr: Semiring<V, W>) {
    forall w :: sr.make(sr.value(w)) == w
  }

  /** When the output semiring keeps the value it is built from, the
      converted transition carries the same value as the original. */
  lemma ArcMapKeepsValue<V(!new), WI, WO>(si: Semiring<V, WI>, so: Semiring<V, WO>, arc: Tr<WI>)
    requires ValueRoundTrips(so)
    ensures so.value(ArcMap(si, so, arc).value.weight) == si.value(arc.weight)
  {
  }

  /** Converting into another semiring and back restores the transition,
      when both semirings store exactly their values. */
  lemma ArcMapRoundTrip<V(!new), WI(!new), WO>(si: Semiring<V, WI>, so: Semiring<V, WO>, arc: Tr<WI>)
    requires ValueRoundTrips(so) && WeightRoundTrips(si)
    ensures ArcMap(so, si, ArcMap(si, so, arc).value) == Ok(arc)
  {
  }

  /** The same for final transitions. */
  lemma FinalArcMapRoundTrip<V(!new), WI(!new), WO>(si: Semiring<V, WI>, so: Semiring<V, WO>, finalArc: FinalTr<WI>)
    requires ValueRoundTrips(so) && WeightRoundTrips(si)
    ensures FinalArcMap(so, si, FinalArcMap(si, so, finalArc).value) == Ok(finalArc)
  {
  }
}
