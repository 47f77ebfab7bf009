/** `LabelReachable` and `LabelReachableData`
    (rustfst/src/algorithms/lookahead_matchers/label_reachable.rs): the FST
    rewrite that sends every labelled transition to a state for its label,
    the interval sets it leaves behind, and the reachability queries on them.
    The interval sets are abstract: a set of labels per state. */
module LabelReachability {
  import opened Results
  import opened Semirings
  import opened Fst
  import opened LabelReachableSpec

  /** The labels reachable from a state. */
  type IntervalSet = set<Label>

  /** What `StateReachable::new` yields for the rewritten FST: an interval
      set per state and the index of each state. */
  datatype StateReachable = StateReachable(isets: seq<IntervalSet>, state2index: seq<nat>)

  /** `Vec::resize_with(n, IntervalSet::default)`: truncate, or pad with empty sets. */
  function Resize(isets: seq<IntervalSet>, n: nat): (r: seq<IntervalSet>)
    ensures |r| == n
    ensures forall k :: 0 <= k < n ==> r[k] == (if k < |isets| then isets[k] else {})
  {
    if n <= |isets| then isets[..n] else isets + seq(n - |isets|, _ => {})
  }

  /** `n` in decimal, as `format!` prints it. */
  function Decimal(n: nat): (r: string)
    ensures |r| >= 1 && forall k :: 0 <= k < |r| ==> '0' <= r[k] <= '9'
  {
    if n < 10 then [(48 + n) as char] else Decimal(n / 10) + [(48 + n % 10) as char]
  }

  /** The property a reachability FST must have on the side it reaches. */
  function SortedProperty(reachInput: bool): (p: FstProperty)
    ensures p == ILabelSorted <==> reachInput
    ensures p == OLabelSorted <==> !reachInput
  {
    if reachInput then ILabelSorted else OLabelSorted
  }

  /** The index, in `state2index`, of the state the `NO_LABEL` entry of `m`
      points at; `previous` when there is none. */
  ghost function FinalIndex(m: map<Label, StateId>, state2index: seq<nat>, previous: Label): Label {
    if NO_LABEL in m && m[NO_LABEL] < |state2index| then state2index[m[NO_LABEL]] else previous
  }

  /** `StateReachable::new` gives every state of the FST an index. */
  ghost predicate IndexesEveryState<W(!new)>(stateReachable: (seq<seq<Tr<W>>>, seq<Option<W>>) -> Result<StateReachable>) {
    forall a, f :: stateReachable(a, f).Ok? ==> |stateReachable(a, f).value.state2index| == |a|
  }

  lemma IndexesState<W(!new)>(stateReachable: (seq<seq<Tr<W>>>, seq<Option<W>>) -> Result<StateReachable>,
                        a: seq<seq<Tr<W>>>, f: seq<Option<W>>)
    requires IndexesEveryState(stateReachable)
    ensures stateReachable(a, f).Ok? ==> |stateReachable(a, f).value.state2index| == |a|
  {
  }

  class LabelReachableData {
    const reachInput: bool
    var finalLabel: Label
    var label2index: map<Label, Label>
    var intervalSets: seq<IntervalSet>

    /** `LabelReachableData::new`. */
    constructor (reachInput: bool)
      ensures this.reachInput == reachInput && finalLabel == NO_LABEL
      ensures label2index == map[] && intervalSets == []
    {
      this.reachInput := reachInput;
      finalLabel := NO_LABEL;
      label2index := map[];
      intervalSets := [];
    }

    /** `interval_set`: the set of state `s`, or an error when there is none. */
    function IntervalSetAt(s: StateId): (r: Result<IntervalSet>)
      reads this
      ensures r.Ok? <==> s < |intervalSets|
      ensures r.Ok? ==> r.value == intervalSets[s]
      ensures r.Err? ==> r.error == "Missing state " + Decimal(s)
    {
      if s < |intervalSets| then Ok(intervalSets[s]) else Err("Missing state " + Decimal(s))
    }

    function FinalLabel(): (l: Label)
      reads this
      ensures l == finalLabel
    {
      finalLabel
    }
  }

  class LabelReachable {
    const data: LabelReachableData
    var label2state: map<Label, StateId>
    var reachFstInput: bool

    /** The initial value built at the start of `LabelReachable::new`. */
    constructor Init(reachInput: bool)
      ensures fresh(data) && data.reachInput == reachInput && data.finalLabel == NO_LABEL
      ensures data.label2index == map[] && data.intervalSets == []
      ensures label2state == map[] && !reachFstInput
    {
      data := new LabelReachableData(reachInput);
      label2state := map[];
      reachFstInput := false;
    }

    function ReachInput(): bool {
      data.reachInput
    }

    /** The `label2state.entry(label)` step of `transform_fst`: the state of
        `l`, numbering it `ons` (and growing `indeg` by a zero) when it is
        new. `xs` are the labels met so far; `done` and `cur` are the
        transitions `indeg` counts. */
    method StateOfLabel<W>(l: Label, ins: nat, ons: nat, indeg: seq<nat>,
                           ghost xs: seq<Label>, ghost done: seq<seq<Tr<W>>>, ghost cur: seq<Tr<W>>)
        returns (next: StateId, ons': nat, indeg': seq<nat>)
      requires label2state == Numbering(xs, ins)
      requires ons == ins + |label2state| && |indeg| == ons
      requires CountsIn(indeg, done, cur) && TargetsBelow(done, ons) && ArcsBelow(cur, ons)
      modifies this`label2state
      ensures label2state == Numbering(xs + [l], ins)
      ensures l in label2state && next == label2state[l]
      ensures ons' == ins + |label2state| && |indeg'| == ons' && ons <= ons' && ins <= next < ons'
      ensures old(l in label2state) ==> ons' == ons && indeg' == indeg
      ensures CountsIn(indeg', done, cur) && TargetsBelow(done, ons') && ArcsBelow(cur, ons')
    {
      NumberingAppend(xs, l, ins);
      NumberingIsBijection(xs, ins);
      if l in label2state {
        next, ons', indeg' := label2state[l], ons, indeg;
      } else {
        CountsGrow(indeg, done, cur);
        next := ons;
        label2state := label2state[l := ons];
        indeg' := indeg + [0];
        ons' := ons + 1;
      }
    }

    /** The state of the arc loop of `transform_fst` on state `s` after its
        first `i` turns: those transitions of `orig`, the transitions of `s`
        before the loop, redirected, and their labels numbered after `seen`.
        `done` are the states already rewritten and `all` the labels met over
        the whole rewrite. */
    ghost predicate Redirecting<W>(fst: VectorFst<W>, s: StateId, i: nat, ins: nat, ons: nat, indeg: seq<nat>,
                                   arcs0: seq<seq<Tr<W>>>, done: seq<seq<Tr<W>>>, seen: seq<Label>, all: seq<Label>)
      reads this, fst
    {
      var M := Numbering(all, ins);
      && s < |arcs0| && i <= |arcs0[s]| && ArcsBelow(arcs0[s], ins)
      && seen + ArcLabels(arcs0[s], data.reachInput) <= all
      && fst.arcs == arcs0[s := RedirectAll(arcs0[s][..i], M, data.reachInput) + arcs0[s][i..]]
      && label2state == Numbering(seen + ArcLabels(arcs0[s][..i], data.reachInput), ins)
      && ons == ins + |label2state| && |indeg| == ons && ins <= ons
      && CountsIn(indeg, done, RedirectAll(arcs0[s][..i], M, data.reachInput))
      && TargetsBelow(done, ons) && ArcsBelow(RedirectAll(arcs0[s][..i], M, data.reachInput), ons)
    }

    /** One turn of the arc loop of `transform_fst`: the `i`-th transition of
        state `s` goes to the state numbered for its label, and `indeg`
        counts its target. */
    method RedirectArc<W>(fst: VectorFst<W>, s: StateId, i: nat, ins: nat, ons: nat, indeg: seq<nat>,
                          ghost arcs0: seq<seq<Tr<W>>>, ghost done: seq<seq<Tr<W>>>, ghost seen: seq<Label>, ghost all: seq<Label>)
        returns (i': nat, ons': nat, indeg': seq<nat>)
      requires Redirecting(fst, s, i, ins, ons, indeg, arcs0, done, seen, all) && i < |arcs0[s]|
      modifies this`label2state, fst
      ensures i' == i + 1 && Redirecting(fst, s, i', ins, ons', indeg', arcs0, done, seen, all)
      ensures fst.finals == old(fst.finals) && fst.start == old(fst.start)
    {
      var reachInput := data.reachInput;
      ghost var M := Numbering(all, ins);
      ghost var orig := arcs0[s];
      ghost var red := RedirectAll(orig[..i], M, reachInput);
      ghost var cur := seen + ArcLabels(orig[..i], reachInput);
      i', ons', indeg' := i + 1, ons, indeg;
      RedirectStep(orig, i, seen, all, ins, reachInput);
      ArcsSplit(red, orig, i, orig[i]);
      var arc := fst.arcs[s][i];
      var lbl := if reachInput then arc.ilabel else arc.olabel;
      if lbl != EPS_LABEL {
        var next: StateId;
        next, ons', indeg' := StateOfLabel(lbl, ins, ons, indeg, cur, done, red);
        fst.SetNextState(s, i, next);
        arc := arc.(nextstate := next);
        ArcsSplit(red, orig, i, arc);
        UpdateTwice(arcs0, s, red + orig[i..], red + [arc] + orig[i + 1..]);
      } else {
        assert LabelOf(arc, reachInput) == [] && cur + [] == cur;
      }
      CountsAdd(indeg', done, red, arc);
      ArcsBelowAppend(red, arc, ons');
      indeg' := indeg'[arc.nextstate := indeg'[arc.nextstate] + 1];
    }

    /** The arc loop of `transform_fst` for state `s`: each labelled
        transition goes to the state numbered for its label, and `indeg`
        counts every target. `done` are the states already rewritten, `seen`
        the labels met before state `s`, and `all` the labels met over the
        whole rewrite. */
    method RedirectArcs<W>(fst: VectorFst<W>, s: StateId, ins: nat, ons: nat, indeg: seq<nat>,
                           ghost done: seq<seq<Tr<W>>>, ghost seen: seq<Label>, ghost all: seq<Label>)
        returns (ons': nat, indeg': seq<nat>)
      requires s < |fst.arcs| && ArcsBelow(fst.arcs[s], ins)
      requires seen + ArcLabels(fst.arcs[s], data.reachInput) <= all
      requires label2state == Numbering(seen, ins)
      requires ons == ins + |label2state| && |indeg| == ons
      requires CountsIn(indeg, done, []) && TargetsBelow(done, ons)
      modifies this`label2state, fst
      ensures fst.arcs == old(fst.arcs)[s := RedirectAll(old(fst.arcs[s]), Numbering(all, ins), data.reachInput)]
      ensures fst.finals == old(fst.finals) && fst.start == old(fst.start)
      ensures label2state == Numbering(seen + ArcLabels(old(fst.arcs[s]), data.reachInput), ins)
      ensures ons' == ins + |label2state| && |indeg'| == ons'
      ensures CountsIn(indeg', done, fst.arcs[s]) && TargetsBelow(done, ons') && ArcsBelow(fst.arcs[s], ons')
    {
      ghost var arcs0 := fst.arcs;
      RedirectingStart(fst, s, ins, ons, indeg, done, seen, all);
      ons', indeg' := ons, indeg;
      var n := |fst.arcs[s]|;
      var i := 0;
      while i < n
        invariant i <= n && Redirecting(fst, s, i, ins, ons', indeg', arcs0, done, seen, all)
        invariant fst.finals == old(fst.finals) && fst.start == old(fst.start)
        decreases n - i
      {
        i, ons', indeg' := RedirectArc(fst, s, i, ins, ons', indeg', arcs0, done, seen, all);
      }
      RedirectingDone(fst, s, ins, ons', indeg', arcs0, done, seen, all);
    }

    /** The arc loop of `transform_fst` on state `s` before its first turn. */
    lemma RedirectingStart<W>(fst: VectorFst<W>, s: StateId, ins: nat, ons: nat, indeg: seq<nat>,
                              done: seq<seq<Tr<W>>>, seen: seq<Label>, all: seq<Label>)
      requires s < |fst.arcs| && ArcsBelow(fst.arcs[s], ins)
      requires seen + ArcLabels(fst.arcs[s], data.reachInput) <= all
      requires label2state == Numbering(seen, ins)
      requires ons == ins + |label2state| && |indeg| == ons
      requires CountsIn(indeg, done, []) && TargetsBelow(done, ons)
      ensures Redirecting(fst, s, 0, ins, ons, indeg, fst.arcs, done, seen, all)
    {
      var orig := fst.arcs[s];
      var none := RedirectAll(orig[..0], Numbering(all, ins), data.reachInput);
      assert orig[..0] == [] && orig[0..] == orig;
      assert seen + ArcLabels(orig[..0], data.reachInput) == seen;
      assert none == [];
      assert none + orig[0..] == orig;
      assert fst.arcs[s := orig] == fst.arcs;
      assert CountsIn(indeg, done, none) && ArcsBelow(none, ons);
    }

    /** The arc loop of `transform_fst` on state `s` after its last turn. */
    lemma RedirectingDone<W>(fst: VectorFst<W>, s: StateId, ins: nat, ons: nat, indeg: seq<nat>,
                             arcs0: seq<seq<Tr<W>>>, done: seq<seq<Tr<W>>>, seen: seq<Label>, all: seq<Label>)
      requires s < |arcs0| && Redirecting(fst, s, |arcs0[s]|, ins, ons, indeg, arcs0, done, seen, all)
      ensures fst.arcs == arcs0[s := RedirectAll(arcs0[s], Numbering(all, ins), data.reachInput)]
      ensures label2state == Numbering(seen + ArcLabels(arcs0[s], data.reachInput), ins)
      ensures ons == ins + |label2state| && |indeg| == ons
      ensures CountsIn(indeg, done, fst.arcs[s]) && TargetsBelow(done, ons) && ArcsBelow(fst.arcs[s], ons)
    {
      var orig := arcs0[s];
      var red := RedirectAll(orig, Numbering(all, ins), data.reachInput);
      assert orig[..|orig|] == orig && orig[|orig|..] == [];
      assert red + [] == red;
    }

    /** The final-weight step of `transform_fst` for state `s`: a non-zero
        final weight becomes a `NO_LABEL` transition to the state numbered for
        `NO_LABEL`, and the final weight is deleted. `done` are the states
        already rewritten, `seen` the labels met so far. */
    method AddFinalArc<V, W(==)>(fst: VectorFst<W>, sr: Semiring<V, W>, s: StateId, ins: nat, ons: nat, indeg: seq<nat>,
                                 ghost done: seq<seq<Tr<W>>>, ghost seen: seq<Label>)
        returns (ons': nat, indeg': seq<nat>)
      requires s < |fst.arcs| == |fst.finals|
      requires label2state == Numbering(seen, ins)
      requires ons == ins + |label2state| && |indeg| == ons
      requires CountsIn(indeg, done, fst.arcs[s]) && TargetsBelow(done, ons) && ArcsBelow(fst.arcs[s], ons)
      modifies this`label2state, fst
      ensures label2state == Numbering(seen + (if HasFinalArc(old(fst.finals[s]), sr.zero) then [NO_LABEL] else []), ins)
      ensures fst.arcs == old(fst.arcs)[s := old(fst.arcs[s]) + FinalArcs(old(fst.finals[s]), label2state, sr.zero)]
      ensures fst.finals == old(fst.finals)[s := FinalAfter(old(fst.finals[s]), sr.zero)]
      ensures fst.start == old(fst.start)
      ensures ons' == ins + |label2state| && |indeg'| == ons'
      ensures CountsIn(indeg', done + [fst.arcs[s]], []) && TargetsBelow(done + [fst.arcs[s]], ons')
    {
      ons', indeg' := ons, indeg;
      var finalWeight := fst.FinalWeight(s);
      if finalWeight.Some? && !IsZero(sr, finalWeight.value) {
        var next: StateId;
        next, ons', indeg' := StateOfLabel(NO_LABEL, ins, ons', indeg', seen, done, fst.arcs[s]);
        ghost var redirected := fst.arcs[s];
        var arc := Tr(NO_LABEL, NO_LABEL, finalWeight.value, next);
        fst.AddArc(s, arc);
        CountsAdd(indeg', done, redirected, arc);
        ArcsBelowAppend(redirected, arc, ons');
        indeg' := indeg'[next := indeg'[next] + 1];
        fst.DeleteFinalWeight(s);
      } else {
        assert seen + [] == seen;
        assert fst.arcs[s] + [] == fst.arcs[s];
        assert fst.finals[s := fst.finals[s]] == fst.finals;
      }
      CountsClose(indeg', done, fst.arcs[s]);
      TargetsBelowAppend(done, fst.arcs[s], ons');
    }

    /** The state of `transform_fst` after its first `s` turns of the state
        loop: those states rewritten, the others as in `A` and `F`; the labels
        met so far numbered from `ins`; `ons` the next free state; `indeg`
        counting the transitions of the rewritten states. */
    ghost predicate Rewritten<V, W>(fst: VectorFst<W>, sr: Semiring<V, W>, A: seq<seq<Tr<W>>>, F: seq<Option<W>>,
                                    M: map<Label, StateId>, s: nat, ins: nat, ons: nat, indeg: seq<nat>)
      reads this, fst
    {
      && |A| == |F| == ins && s <= ins && TargetsBelow(A, ins)
      && M == Numbering(SeenLabels(A, F, data.reachInput, sr.zero), ins)
      && fst.arcs == RewriteAll(A[..s], F[..s], M, data.reachInput, sr.zero) + A[s..]
      && fst.finals == FinalsAfter(F[..s], sr.zero) + F[s..]
      && label2state == Numbering(SeenLabels(A[..s], F[..s], data.reachInput, sr.zero), ins)
      && ons == ins + |label2state| && |indeg| == ons
      && CountsIn(indeg, RewriteAll(A[..s], F[..s], M, data.reachInput, sr.zero), [])
      && TargetsBelow(RewriteAll(A[..s], F[..s], M, data.reachInput, sr.zero), ons)
    }

    /** One turn of the state loop of `transform_fst`: state `s`, still as
        in the original transitions `A` and final weights `F`, is rewritten. */
    method RelabelState<V, W(==)>(fst: VectorFst<W>, sr: Semiring<V, W>, s: StateId, ins: nat, ons: nat, indeg: seq<nat>,
                                  ghost A: seq<seq<Tr<W>>>, ghost F: seq<Option<W>>, ghost M: map<Label, StateId>)
        returns (s': nat, ons': nat, indeg': seq<nat>)
      requires s < ins && Rewritten(fst, sr, A, F, M, s, ins, ons, indeg)
      modifies this`label2state, fst
      ensures s' == s + 1 && Rewritten(fst, sr, A, F, M, s', ins, ons', indeg')
      ensures fst.start == old(fst.start)
    {
      s' := s + 1;
      ghost var ri, zero := data.reachInput, sr.zero;
      ghost var all := SeenLabels(A, F, ri, zero);
      ghost var done := RewriteAll(A[..s], F[..s], M, ri, zero);
      ghost var doneFinals := FinalsAfter(F[..s], zero);
      ghost var seen := SeenLabels(A[..s], F[..s], ri, zero);
      ArcsSplit(done, A, s, A[s]);
      ArcsSplit(doneFinals, F, s, F[s]);
      TargetsBelowState(A, s, ins);
      SeenMidPrefix(A, F, s, |A[s]|, ri, zero);
      assert A[s][..|A[s]|] == A[s];
      ons', indeg' := RedirectArcs(fst, s, ins, ons, indeg, done, seen, all);
      ons', indeg' := AddFinalArc(fst, sr, s, ins, ons', indeg', done, seen + ArcLabels(A[s], ri));
      LabelsOfState(A, F, s, ri, zero);
      FinalArcsAgree(A, F, s, ri, zero, ins);
      ghost var x := RewriteState(A[s], F[s], M, ri, zero);
      UpdateTwice(done + A[s..], s, RedirectAll(A[s], M, ri), x);
      ArcsSplit(done, A, s, x);
      ArcsSplit(doneFinals, F, s, FinalAfter(F[s], zero));
      RewriteAllAppend(A, F, s, M, ri, zero);
    }

    /** The state loop of `transform_fst`: every original state rewritten in
        turn. Returns the next free state `ons` and the in-degrees of the
        states below it. */
    method RelabelStates<V, W(==)>(fst: VectorFst<W>, sr: Semiring<V, W>) returns (ons: nat, indeg: seq<nat>)
      requires fst.Valid() && label2state == map[]
      modifies this`label2state, fst
      ensures label2state == Numbering(SeenLabels(old(fst.arcs), old(fst.finals), data.reachInput, sr.zero), |old(fst.arcs)|)
      ensures fst.arcs == RewriteAll(old(fst.arcs), old(fst.finals), label2state, data.reachInput, sr.zero)
      ensures fst.finals == FinalsAfter(old(fst.finals), sr.zero) && fst.start == old(fst.start)
      ensures ons == |old(fst.arcs)| + |label2state| && indeg == InDegrees(fst.arcs, ons)
      ensures TargetsBelow(fst.arcs, ons)
    {
      ghost var A, F := fst.arcs, fst.finals;
      var ins := fst.NumStates();
      ghost var M := Numbering(SeenLabels(A, F, data.reachInput, sr.zero), ins);
      assert TargetsBelow(A, ins);
      assert A[..0] == [] && F[..0] == [] && A[0..] == A && F[0..] == F;
      assert RewriteAll(A[..0], F[..0], M, data.reachInput, sr.zero) == [];
      assert FinalsAfter(F[..0], sr.zero) == [];
      ons := ins;
      indeg := seq(ins, _ => 0);
      var s := 0;
      while s < ins
        invariant 0 <= s <= ins && Rewritten(fst, sr, A, F, M, s, ins, ons, indeg)
        invariant fst.start == old(fst.start)
      {
        s, ons, indeg := RelabelState(fst, sr, s, ins, ons, indeg, A, F, M);
      }
      assert A[..ins] == A && F[..ins] == F && A[ins..] == [] && F[ins..] == [];
      ghost var done := RewriteAll(A, F, M, data.reachInput, sr.zero);
      assert fst.arcs == done + [] == done;
      assert fst.finals == FinalsAfter(F, sr.zero) + [];
      CountsAreInDegrees(indeg, done);
    }

    /** `transform_fst`. With `ins` the number of states it starts with:
        every labelled transition of an original state is sent to the state of
        its label, numbered from `ins` in the order labels are first met; every
        non-zero final weight becomes a `NO_LABEL` transition to the
        `NO_LABEL` state; the label states are added as final states with
        weight `one`; and a new start state gets a transition to every state
        of zero in-degree. */
    method TransformFst<V, W(==)>(fst: VectorFst<W>, sr: Semiring<V, W>)
      requires fst.Valid() && label2state == map[]
      modifies this`label2state, fst
      ensures label2state == Numbering(SeenLabels(old(fst.arcs), old(fst.finals), data.reachInput, sr.zero), |old(fst.arcs)|)
      ensures Transformed(fst.arcs, fst.finals, fst.start, old(fst.arcs), old(fst.finals), label2state,
                          data.reachInput, sr.zero, sr.one)
      ensures fst.Valid()
    {
      var ins := fst.NumStates();
      var ons, indeg := RelabelStates(fst, sr);
      ghost var rewritten, rewrittenFinals := fst.arcs, fst.finals;
      AddStartState(fst, ons, indeg, sr.one);
      TransformedShape(fst.arcs, fst.finals, fst.start, old(fst.arcs), old(fst.finals), label2state,
                       data.reachInput, sr.zero, sr.one, rewritten, rewrittenFinals, ons, indeg);
    }

    /** `LabelReachable::new`: rewrites `fst` (which the Rust code takes by
        value) and computes the interval sets of the result, keeping one per
        original state. `stateReachable` stands for `StateReachable::new`
        on the rewritten FST; its error is returned. */
    static method New<V, W(==,!new)>(fst: VectorFst<W>, sr: Semiring<V, W>, reachInput: bool,
                                stateReachable: (seq<seq<Tr<W>>>, seq<Option<W>>) -> Result<StateReachable>)
        returns (r: Result<LabelReachable>)
      requires fst.Valid()
      requires IndexesEveryState(stateReachable)
      modifies fst
      ensures var m := Numbering(SeenLabels(old(fst.arcs), old(fst.finals), reachInput, sr.zero), |old(fst.arcs)|);
        Transformed(fst.arcs, fst.finals, fst.start, old(fst.arcs), old(fst.finals), m, reachInput, sr.zero, sr.one)
      ensures var reachable := stateReachable(fst.arcs, fst.finals);
        && (r.Ok? <==> reachable.Ok?)
        && (r.Err? ==> r.error == reachable.error)
        && (r.Ok? ==>
              && fresh(r.value) && fresh(r.value.data)
              && r.value.ReachInput() == reachInput && !r.value.reachFstInput
              && r.value.label2state == map[] && r.value.data.label2index == map[]
              && r.value.data.intervalSets == Resize(reachable.value.isets, |old(fst.arcs)|)
              && r.value.data.finalLabel == FinalIndex(Numbering(SeenLabels(old(fst.arcs), old(fst.finals), reachInput, sr.zero),
                                                                 |old(fst.arcs)|),
                                                       reachable.value.state2index, NO_LABEL))
    {
      ghost var arcs0, finals0 := fst.arcs, fst.finals;
      var nstates := fst.NumStates();
      var reachable := new LabelReachable.Init(reachInput);
      reachable.TransformFst(fst, sr);
      ghost var m := reachable.label2state;
      assert m == Numbering(SeenLabels(arcs0, finals0, reachInput, sr.zero), nstates);
      assert Transformed(fst.arcs, fst.finals, fst.start, arcs0, finals0, m, reachInput, sr.zero, sr.one);
      NumberingIsBijection(SeenLabels(arcs0, finals0, reachInput, sr.zero), nstates);
      assert NumbersFrom(m, nstates) && |fst.arcs| == nstates + |m| + 1;
      var result := stateReachable(fst.arcs, fst.finals);
      IndexesState(stateReachable, fst.arcs, fst.finals);
      if result.Ok? {
        forall l | l in m ensures m[l] < |result.value.state2index| {
          assert m[l] < nstates + |m|;
        }
      }
      var found := reachable.FindIntervals(result, nstates);
      assert result == stateReachable(fst.arcs, fst.finals);
      if found.Err? {
        r := Err(found.error);
      } else {
        assert reachable.label2state == map[] && reachable.data.label2index == map[];
        r := Ok(reachable);
      }
    }

    /** `reach_final` asks `reach_label` about the final label. */
    lemma ReachFinalIsReachLabel(s: StateId)
      requires data.finalLabel != EPS_LABEL
      ensures ReachFinal(s) == ReachLabel(s, data.finalLabel)
    {
    }

    /** `find_intervals`: takes the interval sets of the rewritten FST,
        keeps one per original state (padding with empty sets), records the
        index of the `NO_LABEL` state as the final label, and clears
        `label2state`. When `StateReachable::new` fails, that error is
        returned and nothing changes. */
    method FindIntervals(reachable: Result<StateReachable>, ins: StateId) returns (r: Result<Unit>)
      requires reachable.Ok? ==> forall l :: l in label2state ==> label2state[l] < |reachable.value.state2index|
      modifies this`label2state, data`intervalSets, data`finalLabel
      ensures r.Ok? <==> reachable.Ok?
      ensures r.Err? ==> r.error == reachable.error && unchanged(this, data)
      ensures r.Ok? ==>
        && data.intervalSets == Resize(reachable.value.isets, ins)
        && data.finalLabel == FinalIndex(old(label2state), reachable.value.state2index, old(data.finalLabel))
        && label2state == map[]
    {
      if reachable.Err? {
        return Err(reachable.error);
      }
      var state2index := reachable.value.state2index;
      data.intervalSets := Resize(reachable.value.isets, ins);
      var pending := label2state.Keys;
      while pending != {}
        invariant label2state == old(label2state) && data.intervalSets == Resize(reachable.value.isets, ins)
        invariant pending <= label2state.Keys
        invariant data.finalLabel == FinalIndex(label2state - pending, state2index, old(data.finalLabel))
        decreases |pending|
      {
        var lbl :| lbl in pending;
        var i := state2index[label2state[lbl]];
        if lbl == NO_LABEL {
          data.finalLabel := i;
        }
        pending := pending - {lbl};
      }
      assert label2state - {} == label2state;
      label2state := map[];
      return Ok(Unit);
    }

    /** `reach_init`: records which side of the FST is matched, then fails
        unless the FST is sorted on that side; an error computing the
        properties is passed on. */
    method ReachInit(props: Result<set<FstProperty>>, reachInput: bool) returns (r: Result<Unit>)
      modifies this`reachFstInput
      ensures reachFstInput == reachInput
      ensures r.Ok? <==> props.Ok? && SortedProperty(reachInput) in props.value
      ensures props.Err? ==> r == Err(props.error)
      ensures props.Ok? && r.Err? ==> r.error == "LabelReachable::ReachInit: Fst is not sorted"
    {
      reachFstInput := reachInput;
      if props.Err? {
        return Err(props.error);
      }
      var trueProp := if reachFstInput then ILabelSorted else OLabelSorted;
      if trueProp !in props.value {
        return Err("LabelReachable::ReachInit: Fst is not sorted");
      }
      return Ok(Unit);
    }

    /** `reach_label`: can `l` be reached from state `s`? Epsilon never is;
        a state without an interval set is an error. */
    function ReachLabel(s: StateId, l: Label): (r: Result<bool>)
      reads data
      ensures l == EPS_LABEL ==> r == Ok(false)
      ensures l != EPS_LABEL ==> (r.Ok? <==> s < |data.intervalSets|)
      ensures r.Ok? && l != EPS_LABEL ==> (r.value <==> l in data.intervalSets[s])
      ensures r.Err? ==> r.error == "Missing state " + Decimal(s)
    {
      if l == EPS_LABEL then Ok(false)
      else
        match data.IntervalSetAt(s)
        case Err(e) => Err(e)
        case Ok(labels) => Ok(l in labels)
    }

    /** `reach_final`: can a final state be reached from `s`, that is, is
        the final label in the interval set of `s`? */
    function ReachFinal(s: StateId): (r: Result<bool>)
      reads data
      ensures r.Ok? <==> s < |data.intervalSets|
      ensures r.Ok? ==> (r.value <==> data.finalLabel in data.intervalSets[s])
      ensures r.Err? ==> r.error == "Missing state " + Decimal(s)
    {
      match data.IntervalSetAt(s)
      case Err(e) => Err(e)
      case Ok(labels) => Ok(data.FinalLabel() in labels)
    }
  }

  /** The end of `transform_fst`: adds the label states up to `n` as final
      states with weight `one`, then a start state `n` with a transition
      `(0, 0, one)` to every state of zero in-degree. */
  method AddStartState<W>(fst: VectorFst<W>, n: nat, indeg: seq<nat>, one: W)
    requires |fst.arcs| == |fst.finals| <= n == |indeg|
    requires TargetsBelow(fst.arcs, n)
    modifies fst
    ensures |fst.arcs| == |fst.finals| == n + 1
    ensures fst.arcs[..|old(fst.arcs)|] == old(fst.arcs) && fst.finals[..|old(fst.arcs)|] == old(fst.finals)
    ensures forall s :: |old(fst.arcs)| <= s < n ==> fst.arcs[s] == [] && fst.finals[s] == Some(one)
    ensures fst.start == Some(n) && fst.finals[n] == None && fst.arcs[n] == RootArcs(indeg, one)
    ensures fst.Valid()
  {
    ghost var rewritten, rewrittenFinals := fst.arcs, fst.finals;
    AddLabelStates(fst, n, one);
    ghost var labelStates, labelFinals := fst.arcs, fst.finals;
    var start := fst.AddState();
    fst.SetStart(start);
    ghost var withStart := fst.arcs;
    AddRootArcs(fst, start, indeg, one);
    assert withStart == labelStates + [[]] && [] + RootArcs(indeg, one) == RootArcs(indeg, one);
    assert fst.arcs == labelStates + [RootArcs(indeg, one)];
    RootArcsSpec(indeg, one);
    TargetsAfterRewrite(rewritten, n - |rewritten|, RootArcs(indeg, one), n);
    assert fst.arcs[..|rewritten|] == rewritten && fst.finals[..|rewritten|] == rewrittenFinals;
    assert fst.finals == labelFinals + [None];
  }

  /** The loop of `transform_fst` that adds states, each final with weight
      `one`, until there are `n` of them. */
  method AddLabelStates<W>(fst: VectorFst<W>, n: nat, one: W)
    requires |fst.arcs| == |fst.finals| <= n
    modifies fst
    ensures fst.arcs == old(fst.arcs) + NoTransitions(n - |old(fst.arcs)|)
    ensures fst.finals == old(fst.finals) + seq(n - |old(fst.arcs)|, _ => Some(one))
    ensures fst.start == old(fst.start)
  {
    ghost var added := 0;
    while fst.NumStates() < n
      invariant |old(fst.arcs)| + added <= n
      invariant fst.arcs == old(fst.arcs) + NoTransitions(added)
      invariant fst.finals == old(fst.finals) + seq(added, _ => Some(one))
      invariant fst.start == old(fst.start)
      decreases n - |fst.arcs|
    {
      var st := fst.AddState();
      fst.SetFinal(st, one);
      assert NoTransitions<W>(added + 1) == NoTransitions(added) + [[]];
      assert seq(added + 1, _ => Some(one)) == seq(added, _ => Some(one)) + [Some(one)];
      added := added + 1;
    }
  }

  /** The loop of `transform_fst` that gives `start` a transition
      `(0, 0, one)` to every state whose in-degree is zero. */
  method AddRootArcs<W>(fst: VectorFst<W>, start: StateId, indeg: seq<nat>, one: W)
    requires start < |fst.arcs| && |indeg| == start
    modifies fst
    ensures fst.arcs == old(fst.arcs)[start := old(fst.arcs)[start] + RootArcs(indeg, one)]
    ensures fst.finals == old(fst.finals) && fst.start == old(fst.start)
  {
    ghost var before := fst.arcs[start];
    assert indeg[..0] == [] && before + [] == before;
    for t := 0 to start
      invariant |fst.arcs| == |old(fst.arcs)|
      invariant fst.arcs[start] == before + RootArcs(indeg[..t], one)
      invariant fst.arcs == old(fst.arcs)[start := fst.arcs[start]]
      invariant fst.finals == old(fst.finals) && fst.start == old(fst.start)
    {
      ghost var p := indeg[..t + 1];
      assert p[..t] == indeg[..t] && p[t] == indeg[t];
      if indeg[t] == 0 {
        fst.AddArc(start, Tr(0, 0, one, t));
        assert before + RootArcs(p, one) == before + RootArcs(indeg[..t], one) + [Tr(0, 0, one, t)];
      } else {
        assert RootArcs(p, one) == RootArcs(indeg[..t], one) + [];
      }
    }
    assert indeg[..start] == indeg;
  }
}
