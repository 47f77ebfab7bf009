/** The FST vocabulary the core is written against: labels, state ids,
    transitions (`Tr`, also called arcs), final transitions, the mapper's
    final action, property flags, and the mutable `VectorFst`. */
module Fst {
  import opened Results

  /** Labels and state ids are Rust `usize` values. */
  type Label = nat
  type StateId = nat

  const USIZE_MAX: nat := 0xFFFF_FFFF_FFFF_FFFF

  /** The epsilon label. */
  const EPS_LABEL: Label := 0

  /** The "no label" marker, `usize::MAX`. */
  const NO_LABEL: Label := USIZE_MAX

  datatype Tr<W> = Tr(ilabel: Label, olabel: Label, weight: W, nextstate: StateId)

  /** The transition that a mapper sees in place of a final weight. */
  datatype FinalTr<W> = FinalTr(ilabel: Label, olabel: Label, weight: W)

  /** What a mapper asks for regarding a super-final state. */
  datatype MapFinalAction = MapNoSuperfinal | MapAllowSuperfinal | MapRequireSuperfinal

  /** The property bits that matter here; every other bit is `OtherProperty`. */
  datatype FstProperty = ILabelSorted | OLabelSorted | OtherProperty(bit: nat)

  /** A mutable FST: for each state its list of transitions and its optional
      final weight, plus an optional start state. */
  class VectorFst<W> {
    var arcs: seq<seq<Tr<W>>>
    var finals: seq<Option<W>>
    var start: Option<StateId>

    /** Every transition and the start state point at an existing state. */
    ghost predicate Valid()
      reads this
    {
      && |arcs| == |finals|
      && (start.Some? ==> start.value < |arcs|)
      && forall s, i :: 0 <= s < |arcs| && 0 <= i < |arcs[s]| ==> arcs[s][i].nextstate < |arcs|
    }

    constructor ()
      ensures arcs == [] && finals == [] && start == None
    {
      arcs, finals, start := [], [], None;
    }

    function NumStates(): (n: nat)
      reads this
      ensures n == |arcs|
    {
      |arcs|
    }

    function FinalWeight(s: StateId): (f: Option<W>)
      reads this
      requires s < |finals|
      ensures f == finals[s]
    {
      finals[s]
    }

    method AddState() returns (s: StateId)
      modifies this
      ensures s == |old(arcs)|
      ensures arcs == old(arcs) + [[]] && finals == old(finals) + [None] && start == old(start)
    {
      s := |arcs|;
      arcs := arcs + [[]];
      finals := finals + [None];
    }

    method SetFinal(s: StateId, w: W)
      requires s < |finals|
      modifies this
      ensures finals == old(finals)[s := Some(w)] && arcs == old(arcs) && start == old(start)
    {
      finals := finals[s := Some(w)];
    }

    method DeleteFinalWeight(s: StateId)
      requires s < |finals|
      modifies this
      ensures finals == old(finals)[s := None] && arcs == old(arcs) && start == old(start)
    {
      finals := finals[s := None];
    }

    method SetStart(s: StateId)
      modifies this
      ensures start == Some(s) && arcs == old(arcs) && finals == old(finals)
    {
      start := Some(s);
    }

    method AddArc(s: StateId, tr: Tr<W>)
      requires s < |arcs|
      modifies this
      ensures arcs == old(arcs)[s := old(arcs)[s] + [tr]] && finals == old(finals) && start == old(start)
    {
      arcs := arcs[s := arcs[s] + [tr]];
    }

    /** Writes `nextstate` of the `i`-th transition of `s` through the
        mutable transition iterator. */
    method SetNextState(s: StateId, i: nat, n: StateId)
      requires s < |arcs| && i < |arcs[s]|
      modifies this
      ensures arcs == old(arcs)[s := old(arcs)[s][i := old(arcs)[s][i].(nextstate := n)]]
      ensures finals == old(finals) && start == old(start)
    {
      arcs := arcs[s := arcs[s][i := arcs[s][i].(nextstate := n)]];
    }
  }
}
