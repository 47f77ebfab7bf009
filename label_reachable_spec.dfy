/** What `LabelReachable::transform_fst` computes, stated as functions of the
    FST it starts from (rustfst/src/algorithms/lookahead_matchers/label_reachable.rs),
    and the facts about those functions that the rewrite promises. */
module LabelReachableSpec {
  import opened Results
  import opened Fst

  /** The label the rewrite looks at: input side or output side. */
  function SelectedLabel<W>(a: Tr<W>, reachInput: bool): Label {
    if reachInput then a.ilabel else a.olabel
  }

  /** The selected label of a transition, or nothing when it is epsilon. */
  ghost function LabelOf<W>(a: Tr<W>, reachInput: bool): seq<Label> {
    var l := SelectedLabel(a, reachInput);
    if l == EPS_LABEL then [] else [l]
  }

  /** The non-epsilon selected labels of `arcs`, in order. */
  ghost function ArcLabels<W>(arcs: seq<Tr<W>>, reachInput: bool): seq<Label> {
    if arcs == [] then []
    else ArcLabels(arcs[..|arcs| - 1], reachInput) + LabelOf(arcs[|arcs| - 1], reachInput)
  }

  /** A final weight that is present and not `zero` becomes a `NO_LABEL` transition. */
  ghost predicate HasFinalArc<W>(f: Option<W>, zero: W) {
    f.Some? && f.value != zero
  }

  /** The labels one state contributes to `label2state`, in the order the
      rewrite meets them: its transitions first, then its final weight. */
  ghost function StateLabels<W>(arcs: seq<Tr<W>>, f: Option<W>, reachInput: bool, zero: W): seq<Label> {
    ArcLabels(arcs, reachInput) + (if HasFinalArc(f, zero) then [NO_LABEL] else [])
  }

  /** The labels met while rewriting the states of `arcs` in order. */
  ghost function SeenLabels<W>(arcs: seq<seq<Tr<W>>>, finals: seq<Option<W>>, reachInput: bool, zero: W): seq<Label>
    requires |arcs| == |finals|
  {
    if arcs == [] then []
    else SeenLabels(arcs[..|arcs| - 1], finals[..|finals| - 1], reachInput, zero)
         + StateLabels(arcs[|arcs| - 1], finals[|finals| - 1], reachInput, zero)
  }

  /** `label2state` after meeting `xs`: a label met for the first time gets
      the next fresh state, `base` plus the number of labels already mapped. */
  ghost function Numbering(xs: seq<Label>, base: nat): map<Label, StateId> {
    if xs == [] then map[]
    else Number(Numbering(xs[..|xs| - 1], base), xs[|xs| - 1], base)
  }

  /** One step of `Numbering`: `l` keeps its state or gets the next fresh one. */
  ghost function Number(m: map<Label, StateId>, l: Label, base: nat): map<Label, StateId> {
    if l in m then m else m[l := base + |m|]
  }

  /** A transition with a non-epsilon selected label is sent to its label's state. */
  ghost function Redirect<W>(a: Tr<W>, m: map<Label, StateId>, reachInput: bool): Tr<W> {
    var l := SelectedLabel(a, reachInput);
    if l != EPS_LABEL && l in m then a.(nextstate := m[l]) else a
  }

  ghost function RedirectAll<W>(arcs: seq<Tr<W>>, m: map<Label, StateId>, reachInput: bool): (r: seq<Tr<W>>)
    ensures |r| == |arcs|
  {
    seq(|arcs|, k requires 0 <= k < |arcs| => Redirect(arcs[k], m, reachInput))
  }

  /** The transition that replaces a non-zero final weight. */
  ghost function FinalArcs<W>(f: Option<W>, m: map<Label, StateId>, zero: W): seq<Tr<W>> {
    if HasFinalArc(f, zero) && NO_LABEL in m then [Tr(NO_LABEL, NO_LABEL, f.value, m[NO_LABEL])] else []
  }

  /** The transitions of an original state after the rewrite. */
  ghost function RewriteState<W>(arcs: seq<Tr<W>>, f: Option<W>, m: map<Label, StateId>, reachInput: bool, zero: W): seq<Tr<W>> {
    RedirectAll(arcs, m, reachInput) + FinalArcs(f, m, zero)
  }

  /** The final weight of an original state after the rewrite. */
  ghost function FinalAfter<W>(f: Option<W>, zero: W): Option<W> {
    if HasFinalArc(f, zero) then None else f
  }

  /** The number of transitions in `arcs` that enter `t`. */
  ghost function CountTo<W>(arcs: seq<Tr<W>>, t: StateId): nat {
    if arcs == [] then 0
    else CountTo(arcs[..|arcs| - 1], t) + (if arcs[|arcs| - 1].nextstate == t then 1 else 0)
  }

  /** The in-degree of `t`: transitions of all the given states that enter it. */
  ghost function InDeg<W>(states: seq<seq<Tr<W>>>, t: StateId): nat {
    if states == [] then 0
    else InDeg(states[..|states| - 1], t) + CountTo(states[|states| - 1], t)
  }

  ghost function InDegrees<W>(states: seq<seq<Tr<W>>>, n: nat): (d: seq<nat>)
    ensures |d| == n
  {
    seq(n, t requires 0 <= t < n => InDeg(states, t))
  }

  /** The transitions of the super-initial state: one `(0, 0, one, t)` for
      each `t` whose counted in-degree is zero, in increasing order of `t`. */
  ghost function RootArcs<W>(indeg: seq<nat>, one: W): seq<Tr<W>> {
    if indeg == [] then []
    else RootArcs(indeg[..|indeg| - 1], one)
         + (if indeg[|indeg| - 1] == 0 then [Tr(0, 0, one, |indeg| - 1)] else [])
  }

  /** The transitions of all the original states after the rewrite. */
  ghost function RewriteAll<W>(arcs: seq<seq<Tr<W>>>, finals: seq<Option<W>>, m: map<Label, StateId>, reachInput: bool, zero: W)
    : (r: seq<seq<Tr<W>>>)
    requires |arcs| == |finals|
    ensures |r| == |arcs|
    ensures forall s :: 0 <= s < |arcs| ==> r[s] == RewriteState(arcs[s], finals[s], m, reachInput, zero)
  {
    seq(|arcs|, s requires 0 <= s < |arcs| => RewriteState(arcs[s], finals[s], m, reachInput, zero))
  }

  /** The final weights of all the original states after the rewrite. */
  ghost function FinalsAfter<W>(finals: seq<Option<W>>, zero: W): (r: seq<Option<W>>)
    ensures |r| == |finals|
    ensures forall s :: 0 <= s < |finals| ==> r[s] == FinalAfter(finals[s], zero)
  {
    seq(|finals|, s requires 0 <= s < |finals| => FinalAfter(finals[s], zero))
  }

  /** The FST that the rewrite leaves behind, given the states `a`, `f` it
      started with and the label numbering `m`: the rewritten original
      states, then one final state of weight `one` without transitions per
      label, then the super-initial state, which is the start state. */
  ghost predicate Transformed<W>(arcs: seq<seq<Tr<W>>>, finals: seq<Option<W>>, start: Option<StateId>,
                                 a: seq<seq<Tr<W>>>, f: seq<Option<W>>, m: map<Label, StateId>,
                                 reachInput: bool, zero: W, one: W)
    requires |a| == |f|
  {
    var n := |a| + |m|;
    && |arcs| == |finals| == n + 1
    && arcs[..|a|] == RewriteAll(a, f, m, reachInput, zero)
    && finals[..|a|] == FinalsAfter(f, zero)
    && (forall s :: |a| <= s < n ==> arcs[s] == [] && finals[s] == Some(one))
    && start == Some(n) && finals[n] == None
    && arcs[n] == RootArcs(InDegrees(arcs[..|a|], n), one)
  }

  /** `Transformed`, from its parts as the rewrite establishes them: the
      rewritten states `rewritten`, `rewrittenFinals` followed by the label
      states and the super-initial state `n`. */
  lemma TransformedShape<W>(arcs: seq<seq<Tr<W>>>, finals: seq<Option<W>>, start: Option<StateId>,
                            a: seq<seq<Tr<W>>>, f: seq<Option<W>>, m: map<Label, StateId>,
                            reachInput: bool, zero: W, one: W,
                            rewritten: seq<seq<Tr<W>>>, rewrittenFinals: seq<Option<W>>, n: nat, indeg: seq<nat>)
    requires |a| == |f| && n == |a| + |m|
    requires rewritten == RewriteAll(a, f, m, reachInput, zero) && rewrittenFinals == FinalsAfter(f, zero)
    requires indeg == InDegrees(rewritten, n)
    requires |arcs| == |finals| == n + 1
    requires arcs[..|rewritten|] == rewritten && finals[..|rewritten|] == rewrittenFinals
    requires forall s :: |rewritten| <= s < n ==> arcs[s] == [] && finals[s] == Some(one)
    requires start == Some(n) && finals[n] == None && arcs[n] == RootArcs(indeg, one)
    ensures Transformed(arcs, finals, start, a, f, m, reachInput, zero, one)
  {
  }

  /** In the rewritten FST an original state with a non-zero final weight
      `w` is no longer final and ends with one transition `(NO_LABEL,
      NO_LABEL, w)` to the `NO_LABEL` state, a label state; any other
      original state keeps its final weight and gains no transition. */
  lemma TransformedFinals<W>(arcs: seq<seq<Tr<W>>>, finals: seq<Option<W>>, start: Option<StateId>,
                             a: seq<seq<Tr<W>>>, f: seq<Option<W>>, reachInput: bool, zero: W, one: W, s: nat)
    requires |a| == |f| && s < |a|
    requires Transformed(arcs, finals, start, a, f, Numbering(SeenLabels(a, f, reachInput, zero), |a|), reachInput, zero, one)
    ensures var m := Numbering(SeenLabels(a, f, reachInput, zero), |a|);
      && (HasFinalArc(f[s], zero) ==>
            && NO_LABEL in m && |a| <= m[NO_LABEL] < |a| + |m|
            && finals[s] == None && |arcs[s]| == |a[s]| + 1
            && arcs[s][|a[s]|] == Tr(NO_LABEL, NO_LABEL, f[s].value, m[NO_LABEL]))
      && (!HasFinalArc(f[s], zero) ==> finals[s] == f[s] && |arcs[s]| == |a[s]|)
  {
    var m := Numbering(SeenLabels(a, f, reachInput, zero), |a|);
    AllLabelsMapped(a, f, reachInput, zero, |a|);
    NumberingIsBijection(SeenLabels(a, f, reachInput, zero), |a|);
    assert arcs[s] == arcs[..|a|][s] && finals[s] == finals[..|a|][s];
  }

  /** In the rewritten FST a transition of an original state keeps its
      labels and weight; it keeps its target when its selected label is
      epsilon, and otherwise enters the label state of that label. */
  lemma TransformedArcs<W>(arcs: seq<seq<Tr<W>>>, finals: seq<Option<W>>, start: Option<StateId>,
                           a: seq<seq<Tr<W>>>, f: seq<Option<W>>, reachInput: bool, zero: W, one: W, s: nat, i: nat)
    requires |a| == |f| && s < |a| && i < |a[s]|
    requires Transformed(arcs, finals, start, a, f, Numbering(SeenLabels(a, f, reachInput, zero), |a|), reachInput, zero, one)
    ensures var m := Numbering(SeenLabels(a, f, reachInput, zero), |a|);
      var l := SelectedLabel(a[s][i], reachInput);
      && i < |arcs[s]|
      && arcs[s][i].ilabel == a[s][i].ilabel && arcs[s][i].olabel == a[s][i].olabel
      && arcs[s][i].weight == a[s][i].weight
      && (l == EPS_LABEL ==> arcs[s][i].nextstate == a[s][i].nextstate)
      && (l != EPS_LABEL ==> l in m && arcs[s][i].nextstate == m[l] && |a| <= m[l] < |a| + |m|)
  {
    var m := Numbering(SeenLabels(a, f, reachInput, zero), |a|);
    AllLabelsMapped(a, f, reachInput, zero, |a|);
    NumberingIsBijection(SeenLabels(a, f, reachInput, zero), |a|);
    assert arcs[s] == arcs[..|a|][s];
    assert arcs[s][i] == RedirectAll(a[s], m, reachInput)[i];
  }

  /** Every transition of `arcs` enters a state below `n`. */
  ghost predicate ArcsBelow<W>(arcs: seq<Tr<W>>, n: nat) {
    forall k :: 0 <= k < |arcs| ==> arcs[k].nextstate < n
  }

  /** `indeg` counts, for each state below its length, the transitions of
      the rewritten states `done` and of the current state's `cur` that enter it. */
  ghost predicate CountsIn<W>(indeg: seq<nat>, done: seq<seq<Tr<W>>>, cur: seq<Tr<W>>) {
    forall t :: 0 <= t < |indeg| ==> indeg[t] == InDeg(done, t) + CountTo(cur, t)
  }

  ghost predicate TargetsBelow<W>(states: seq<seq<Tr<W>>>, n: nat) {
    forall s, i :: 0 <= s < |states| && 0 <= i < |states[s]| ==> states[s][i].nextstate < n
  }

  // ---------------------------------------------------------------------
  // The numbering of labels

  /** `m` maps its labels one-to-one onto the states `base .. base + |m| - 1`. */
  ghost predicate NumbersFrom(m: map<Label, StateId>, base: nat) {
    && (forall l :: l in m ==> base <= m[l] < base + |m|)
    && (forall l1, l2 :: l1 in m && l2 in m && m[l1] == m[l2] ==> l1 == l2)
    && (forall v :: base <= v < base + |m| ==> v in m.Values)
  }

  /** `label2state` maps exactly the labels met. */
  lemma {:induction false} NumberingKeys(xs: seq<Label>, base: nat)
    ensures Numbering(xs, base).Keys == set x | x in xs
  {
    if xs != [] {
      NumberingKeys(xs[..|xs| - 1], base);
      assert xs == xs[..|xs| - 1] + [xs[|xs| - 1]];
    }
  }

  /** The fresh states are `base .. base + |m| - 1`, each used by exactly one label. */
  lemma {:induction false} NumberingIsBijection(xs: seq<Label>, base: nat)
    ensures NumbersFrom(Numbering(xs, base), base)
  {
    if xs != [] {
      var prev := xs[..|xs| - 1];
      NumberingIsBijection(prev, base);
      var p := Numbering(prev, base);
      var l := xs[|xs| - 1];
      var m := Numbering(xs, base);
      if l !in p {
        assert m == p[l := base + |p|];
        assert m.Keys == p.Keys + {l};
        assert |m| == |p| + 1;
        forall k | k in m ensures base <= m[k] < base + |m| {
          if k != l {
            assert k in p && m[k] == p[k];
            assert base <= p[k] < base + |p|;
          } else {
            assert m[k] == base + |p|;
          }
        }
        forall l1, l2 | l1 in m && l2 in m && m[l1] == m[l2] ensures l1 == l2 {
          if l1 != l && l2 != l {
            assert p[l1] == p[l2];
          }
        }
        forall v | base <= v < base + |m| ensures v in m.Values {
          if v == base + |p| {
            assert m[l] == v;
          } else {
            assert v in p.Values;
            var k :| k in p && p[k] == v;
            assert m[k] == v;
          }
        }
      }
    }
  }

  /** Meeting more labels never changes the state of a label already mapped. */
  lemma {:induction false} NumberingPrefix(xs: seq<Label>, ys: seq<Label>, base: nat)
    requires xs <= ys
    ensures forall l :: l in Numbering(xs, base) ==>
      l in Numbering(ys, base) && Numbering(ys, base)[l] == Numbering(xs, base)[l]
  {
    if |xs| < |ys| {
      var init := ys[..|ys| - 1];
      assert xs <= init;
      NumberingPrefix(xs, init, base);
    } else {
      assert xs == ys;
    }
  }

  // ---------------------------------------------------------------------
  // Unfolding the label sequences one step

  lemma ArcLabelsStep<W>(arcs: seq<Tr<W>>, i: nat, reachInput: bool)
    requires i < |arcs|
    ensures ArcLabels(arcs[..i + 1], reachInput) == ArcLabels(arcs[..i], reachInput) + LabelOf(arcs[i], reachInput)
  {
    assert arcs[..i + 1][..i] == arcs[..i];
  }

  lemma {:induction false} ArcLabelsPrefix<W>(arcs: seq<Tr<W>>, i: nat, reachInput: bool)
    requires i <= |arcs|
    ensures ArcLabels(arcs[..i], reachInput) <= ArcLabels(arcs, reachInput)
    decreases |arcs| - i
  {
    if i < |arcs| {
      ArcLabelsPrefix(arcs, i + 1, reachInput);
      ArcLabelsStep(arcs, i, reachInput);
    } else {
      assert arcs[..i] == arcs;
    }
  }

  lemma SeenStep<W>(arcs: seq<seq<Tr<W>>>, finals: seq<Option<W>>, s: nat, reachInput: bool, zero: W)
    requires |arcs| == |finals| && s < |arcs|
    ensures SeenLabels(arcs[..s + 1], finals[..s + 1], reachInput, zero)
         == SeenLabels(arcs[..s], finals[..s], reachInput, zero) + StateLabels(arcs[s], finals[s], reachInput, zero)
  {
    assert arcs[..s + 1][..s] == arcs[..s];
    assert finals[..s + 1][..s] == finals[..s];
  }

  lemma {:induction false} SeenPrefix<W>(arcs: seq<seq<Tr<W>>>, finals: seq<Option<W>>, s: nat, reachInput: bool, zero: W)
    requires |arcs| == |finals| && s <= |arcs|
    ensures SeenLabels(arcs[..s], finals[..s], reachInput, zero) <= SeenLabels(arcs, finals, reachInput, zero)
    decreases |arcs| - s
  {
    if s < |arcs| {
      SeenPrefix(arcs, finals, s + 1, reachInput, zero);
      SeenStep(arcs, finals, s, reachInput, zero);
    } else {
      assert arcs[..s] == arcs && finals[..s] == finals;
    }
  }

  /** Part way through state `s`, the labels met so far are a prefix of all
      the labels the rewrite meets. */
  lemma SeenMidPrefix<W>(arcs: seq<seq<Tr<W>>>, finals: seq<Option<W>>, s: nat, i: nat, reachInput: bool, zero: W)
    requires |arcs| == |finals| && s < |arcs| && i <= |arcs[s]|
    ensures SeenLabels(arcs[..s], finals[..s], reachInput, zero) + ArcLabels(arcs[s][..i], reachInput)
         <= SeenLabels(arcs, finals, reachInput, zero)
  {
    SeenPrefix(arcs, finals, s + 1, reachInput, zero);
    SeenStep(arcs, finals, s, reachInput, zero);
    ArcLabelsPrefix(arcs[s], i, reachInput);
  }

  /** Every label of state `s` is among the labels met. */
  lemma SeenContains<W>(arcs: seq<seq<Tr<W>>>, finals: seq<Option<W>>, s: nat, reachInput: bool, zero: W)
    requires |arcs| == |finals| && s < |arcs|
    ensures forall l :: l in StateLabels(arcs[s], finals[s], reachInput, zero) ==> l in SeenLabels(arcs, finals, reachInput, zero)
  {
    SeenPrefix(arcs, finals, s + 1, reachInput, zero);
    SeenStep(arcs, finals, s, reachInput, zero);
  }

  /** A transition's own non-epsilon label is among its state's labels. */
  lemma {:induction false} ArcLabelsContain<W>(arcs: seq<Tr<W>>, i: nat, reachInput: bool)
    requires i < |arcs| && SelectedLabel(arcs[i], reachInput) != EPS_LABEL
    ensures SelectedLabel(arcs[i], reachInput) in ArcLabels(arcs, reachInput)
  {
    ArcLabelsPrefix(arcs, i + 1, reachInput);
    ArcLabelsStep(arcs, i, reachInput);
    var before := ArcLabels(arcs[..i], reachInput);
    assert ArcLabels(arcs, reachInput)[|before|] == ArcLabels(arcs[..i + 1], reachInput)[|before|];
  }

  /** Every label the rewrite meets has a state in the final `label2state`. */
  lemma AllLabelsMapped<W>(arcs: seq<seq<Tr<W>>>, finals: seq<Option<W>>, reachInput: bool, zero: W, base: nat)
    requires |arcs| == |finals|
    ensures var m := Numbering(SeenLabels(arcs, finals, reachInput, zero), base);
      && (forall s, i :: 0 <= s < |arcs| && 0 <= i < |arcs[s]| && SelectedLabel(arcs[s][i], reachInput) != EPS_LABEL
            ==> SelectedLabel(arcs[s][i], reachInput) in m)
      && (forall s :: 0 <= s < |arcs| && HasFinalArc(finals[s], zero) ==> NO_LABEL in m)
  {
    var m := Numbering(SeenLabels(arcs, finals, reachInput, zero), base);
    NumberingKeys(SeenLabels(arcs, finals, reachInput, zero), base);
    forall s, i | 0 <= s < |arcs| && 0 <= i < |arcs[s]| && SelectedLabel(arcs[s][i], reachInput) != EPS_LABEL
      ensures SelectedLabel(arcs[s][i], reachInput) in m
    {
      ArcLabelsContain(arcs[s], i, reachInput);
      SeenContains(arcs, finals, s, reachInput, zero);
    }
    forall s | 0 <= s < |arcs| && HasFinalArc(finals[s], zero)
      ensures NO_LABEL in m
    {
      SeenContains(arcs, finals, s, reachInput, zero);
    }
  }

  // ---------------------------------------------------------------------
  // In-degrees

  lemma CountToStep<W>(arcs: seq<Tr<W>>, i: nat, t: StateId)
    requires i < |arcs|
    ensures CountTo(arcs[..i + 1], t) == CountTo(arcs[..i], t) + (if arcs[i].nextstate == t then 1 else 0)
  {
    assert arcs[..i + 1][..i] == arcs[..i];
  }

  lemma InDegStep<W>(states: seq<seq<Tr<W>>>, s: nat, t: StateId)
    requires s < |states|
    ensures InDeg(states[..s + 1], t) == InDeg(states[..s], t) + CountTo(states[s], t)
  {
    assert states[..s + 1][..s] == states[..s];
  }

  /** `t` is counted exactly when some transition enters it. */
  lemma {:induction false} CountToPositive<W>(arcs: seq<Tr<W>>, t: StateId)
    ensures CountTo(arcs, t) > 0 <==> exists i :: 0 <= i < |arcs| && arcs[i].nextstate == t
  {
    if arcs != [] {
      var init := arcs[..|arcs| - 1];
      CountToPositive(init, t);
      if exists i :: 0 <= i < |init| && init[i].nextstate == t {
        var i :| 0 <= i < |init| && init[i].nextstate == t;
        assert arcs[i].nextstate == t;
      }
      if exists i :: 0 <= i < |arcs| && arcs[i].nextstate == t {
        var i :| 0 <= i < |arcs| && arcs[i].nextstate == t;
        if i < |init| {
          assert init[i].nextstate == t;
        }
      }
    }
  }

  /** A state has non-zero in-degree exactly when some transition enters it. */
  lemma {:induction false} InDegPositive<W>(states: seq<seq<Tr<W>>>, t: StateId)
    ensures InDeg(states, t) > 0 <==>
      exists s, i :: 0 <= s < |states| && 0 <= i < |states[s]| && states[s][i].nextstate == t
  {
    if states != [] {
      var init: seq<seq<Tr<W>>> := states[..|states| - 1];
      var last := states[|states| - 1];
      InDegPositive(init, t);
      CountToPositive(last, t);
      if exists s: int, i: int :: 0 <= s < |init| && 0 <= i < |init[s]| && init[s][i].nextstate == t {
        var s: int, i: int :| 0 <= s < |init| && 0 <= i < |init[s]| && init[s][i].nextstate == t;
        assert states[s][i].nextstate == t;
      }
      if exists i :: 0 <= i < |last| && last[i].nextstate == t {
        var i :| 0 <= i < |last| && last[i].nextstate == t;
        assert states[|states| - 1][i].nextstate == t;
      }
      if exists s, i :: 0 <= s < |states| && 0 <= i < |states[s]| && states[s][i].nextstate == t {
        var s: int, i: int :| 0 <= s < |states| && 0 <= i < |states[s]| && states[s][i].nextstate == t;
        if s < |init| {
          assert init[s][i].nextstate == t;
        } else {
          assert last[i].nextstate == t;
        }
      }
    }
  }

  /** No transition enters a state at or above a bound all targets stay below. */
  lemma InDegAboveTargets<W>(states: seq<seq<Tr<W>>>, n: nat, t: StateId)
    requires TargetsBelow(states, n) && n <= t
    ensures InDeg(states, t) == 0
  {
    InDegPositive(states, t);
  }

  lemma CountToAboveTargets<W>(arcs: seq<Tr<W>>, n: nat, t: StateId)
    requires (forall i :: 0 <= i < |arcs| ==> arcs[i].nextstate < n) && n <= t
    ensures CountTo(arcs, t) == 0
  {
    CountToPositive(arcs, t);
  }

  // ---------------------------------------------------------------------
  // The super-initial state

  /** The super-initial state has one `(0, 0, one, t)` transition for each
      state `t` of zero in-degree and none other, in increasing order. */
  lemma RootArcsSpec<W>(indeg: seq<nat>, one: W)
    ensures var r := RootArcs(indeg, one);
      && (forall k :: 0 <= k < |r| ==>
            && r[k].ilabel == 0 && r[k].olabel == 0 && r[k].weight == one
            && r[k].nextstate < |indeg| && indeg[r[k].nextstate] == 0)
      && (forall t :: 0 <= t < |indeg| && indeg[t] == 0 ==> exists k :: 0 <= k < |r| && r[k].nextstate == t)
      && (forall j, k :: 0 <= j < k < |r| ==> r[j].nextstate < r[k].nextstate)
  {
    RootArcsShape(indeg, one);
    RootArcsCover(indeg, one);
    assert RootShaped(RootArcs(indeg, one), indeg, one);
    assert RootCovers(RootArcs(indeg, one), indeg);
  }

  /** Every transition of `r` is `(0, 0, one, t)` towards a state `t` of
      zero in-degree, and the targets increase. */
  ghost predicate RootShaped<W>(r: seq<Tr<W>>, indeg: seq<nat>, one: W) {
    && (forall k :: 0 <= k < |r| ==>
          && r[k].ilabel == 0 && r[k].olabel == 0 && r[k].weight == one
          && r[k].nextstate < |indeg| && indeg[r[k].nextstate] == 0)
    && (forall j, k :: 0 <= j < k < |r| ==> r[j].nextstate < r[k].nextstate)
  }

  /** Every state of zero in-degree is the target of a transition of `r`. */
  ghost predicate RootCovers<W>(r: seq<Tr<W>>, indeg: seq<nat>) {
    forall t :: 0 <= t < |indeg| && indeg[t] == 0 ==> exists k :: 0 <= k < |r| && r[k].nextstate == t
  }

  lemma {:induction false} RootArcsShape<W>(indeg: seq<nat>, one: W)
    ensures RootShaped(RootArcs(indeg, one), indeg, one)
  {
    if indeg != [] {
      var init := indeg[..|indeg| - 1];
      RootArcsShape(init, one);
      var p := RootArcs(init, one);
      var r := RootArcs(indeg, one);
      var last := if indeg[|indeg| - 1] == 0 then [Tr(0, 0, one, |indeg| - 1)] else [];
      assert r == p + last;
      forall k | 0 <= k < |r|
        ensures && r[k].ilabel == 0 && r[k].olabel == 0 && r[k].weight == one
                && r[k].nextstate < |indeg| && indeg[r[k].nextstate] == 0
      {
        if k < |p| {
          assert r[k] == p[k] && indeg[p[k].nextstate] == init[p[k].nextstate];
        } else {
          assert r[k] == last[0];
        }
      }
      forall j, k | 0 <= j < k < |r| ensures r[j].nextstate < r[k].nextstate {
        assert r[j] == p[j];
        if k >= |p| {
          assert r[k] == last[0];
        } else {
          assert r[k] == p[k];
        }
      }
    }
  }

  lemma {:induction false} RootArcsCover<W>(indeg: seq<nat>, one: W)
    ensures RootCovers(RootArcs(indeg, one), indeg)
  {
    if indeg != [] {
      var init := indeg[..|indeg| - 1];
      RootArcsCover(init, one);
      var p := RootArcs(init, one);
      var r := RootArcs(indeg, one);
      var last := if indeg[|indeg| - 1] == 0 then [Tr(0, 0, one, |indeg| - 1)] else [];
      assert r == p + last;
      forall t | 0 <= t < |indeg| && indeg[t] == 0 ensures exists k :: 0 <= k < |r| && r[k].nextstate == t {
        if t < |init| {
          assert init[t] == 0;
          var k :| 0 <= k < |p| && p[k].nextstate == t;
          assert r[k] == p[k];
        } else {
          assert r[|p|].nextstate == t;
        }
      }
    }
  }

  /** After the rewrite every state other than the super-initial one is
      entered by some transition: either it had one, or the root points at it. */
  lemma EveryStateEntered<W>(states: seq<seq<Tr<W>>>, n: nat, one: W, t: StateId)
    requires t < n
    ensures || (exists s, i :: 0 <= s < |states| && 0 <= i < |states[s]| && states[s][i].nextstate == t)
            || (exists k :: 0 <= k < |RootArcs(InDegrees(states, n), one)| && RootArcs(InDegrees(states, n), one)[k].nextstate == t)
  {
    var d := InDegrees(states, n);
    RootArcsSpec(d, one);
    InDegPositive(states, t);
    assert d[t] == InDeg(states, t);
  }

  // ---------------------------------------------------------------------
  // The rewritten transitions

  /** Epsilon transitions keep their target; every other transition goes to
      the state of its label, so two transitions end at the same rewritten
      target exactly when they carry the same label. */
  lemma RedirectTargets<W>(arcs: seq<seq<Tr<W>>>, finals: seq<Option<W>>, reachInput: bool, zero: W, base: nat,
                           s1: nat, i1: nat, s2: nat, i2: nat)
    requires |arcs| == |finals|
    requires s1 < |arcs| && i1 < |arcs[s1]| && s2 < |arcs| && i2 < |arcs[s2]|
    ensures var m := Numbering(SeenLabels(arcs, finals, reachInput, zero), base);
      var a1, a2 := arcs[s1][i1], arcs[s2][i2];
      var l1, l2 := SelectedLabel(a1, reachInput), SelectedLabel(a2, reachInput);
      && (l1 == EPS_LABEL ==> Redirect(a1, m, reachInput) == a1)
      && (l1 != EPS_LABEL ==> l1 in m && Redirect(a1, m, reachInput) == a1.(nextstate := m[l1]) && base <= m[l1])
      && (l1 != EPS_LABEL && l2 != EPS_LABEL ==>
            (Redirect(a1, m, reachInput).nextstate == Redirect(a2, m, reachInput).nextstate <==> l1 == l2))
  {
    var m := Numbering(SeenLabels(arcs, finals, reachInput, zero), base);
    AllLabelsMapped(arcs, finals, reachInput, zero, base);
    NumberingIsBijection(SeenLabels(arcs, finals, reachInput, zero), base);
  }

  // ---------------------------------------------------------------------
  // Growing the rewrite by one transition or one state

  lemma UpdateSplit<T>(done: seq<T>, rest: seq<T>, x: T)
    requires rest != []
    ensures (done + rest)[|done| := x] == done + [x] + rest[1..]
  {
  }

  lemma UpdateTwice<T>(xs: seq<T>, i: nat, x: T, y: T)
    requires i < |xs|
    ensures xs[i := x][i := y] == xs[i := y]
  {
  }

  /** Splitting the transitions of a state at the one being redirected. */
  lemma ArcsSplit<T>(red: seq<T>, orig: seq<T>, i: nat, x: T)
    requires |red| == i < |orig|
    ensures (red + orig[i..])[i := x] == red + [x] + orig[i + 1..]
    ensures red + orig[i..] == red + [orig[i]] + orig[i + 1..]
  {
    assert orig[i..] == [orig[i]] + orig[i + 1..];
  }

  /** One more transition of a state is redirected: `cur` are the labels met
      before it, and the label it gets is the one the whole numbering gives it. */
  lemma RedirectStep<W>(orig: seq<Tr<W>>, i: nat, seen: seq<Label>, all: seq<Label>, base: nat, reachInput: bool)
    requires i < |orig| && seen + ArcLabels(orig, reachInput) <= all
    ensures var cur := seen + ArcLabels(orig[..i], reachInput);
      var l := SelectedLabel(orig[i], reachInput);
      && seen + ArcLabels(orig[..i + 1], reachInput) == cur + LabelOf(orig[i], reachInput)
      && RedirectAll(orig[..i + 1], Numbering(all, base), reachInput)
         == RedirectAll(orig[..i], Numbering(all, base), reachInput) + [Redirect(orig[i], Numbering(all, base), reachInput)]
      && (l == EPS_LABEL ==> Redirect(orig[i], Numbering(all, base), reachInput) == orig[i])
      && (l != EPS_LABEL ==>
            && l in Numbering(cur + [l], base)
            && Redirect(orig[i], Numbering(all, base), reachInput) == orig[i].(nextstate := Numbering(cur + [l], base)[l]))
  {
    var cur := seen + ArcLabels(orig[..i], reachInput);
    var l := SelectedLabel(orig[i], reachInput);
    ArcLabelsStep(orig, i, reachInput);
    ArcLabelsPrefix(orig, i + 1, reachInput);
    PrefixConcat(seen, ArcLabels(orig[..i + 1], reachInput), ArcLabels(orig, reachInput), all);
    assert seen + ArcLabels(orig[..i + 1], reachInput) == cur + LabelOf(orig[i], reachInput);
    assert orig[..i + 1] == orig[..i] + [orig[i]];
    RedirectAllAppend(orig[..i], orig[i], Numbering(all, base), reachInput);
    if l != EPS_LABEL {
      NumberingAppend(cur, l, base);
      NumberingPrefix(cur + [l], all, base);
    }
  }

  lemma NumberingAppend(xs: seq<Label>, l: Label, base: nat)
    ensures var m := Numbering(xs, base);
      Numbering(xs + [l], base) == if l in m then m else m[l := base + |m|]
  {
    var ys := xs + [l];
    assert ys[..|ys| - 1] == xs && ys[|ys| - 1] == l;
    assert Numbering(ys, base) == Number(Numbering(xs, base), l, base);
  }

  /** Prefixes compose: a prefix of `c` extended on the left stays a prefix. */
  lemma PrefixConcat<T>(a: seq<T>, b: seq<T>, c: seq<T>, d: seq<T>)
    requires b <= c && a + c <= d
    ensures a + b <= d
  {
    assert (a + b) == (a + c)[..|a + b|];
  }

  lemma CountToAppend<W>(arcs: seq<Tr<W>>, a: Tr<W>, t: StateId)
    ensures CountTo(arcs + [a], t) == CountTo(arcs, t) + (if a.nextstate == t then 1 else 0)
  {
    assert (arcs + [a])[..|arcs|] == arcs;
  }

  lemma InDegAppend<W>(states: seq<seq<Tr<W>>>, x: seq<Tr<W>>, t: StateId)
    ensures InDeg(states + [x], t) == InDeg(states, t) + CountTo(x, t)
  {
    assert (states + [x])[..|states|] == states;
  }

  lemma TargetsBelowAppend<W>(states: seq<seq<Tr<W>>>, x: seq<Tr<W>>, n: nat)
    requires TargetsBelow(states, n) && ArcsBelow(x, n)
    ensures TargetsBelow(states + [x], n)
  {
    var p: seq<seq<Tr<W>>> := states + [x];
    forall j, k | 0 <= j < |p| && 0 <= k < |p[j]|
      ensures p[j][k].nextstate < n
    {
      if j < |states| {
        assert p[j] == states[j];
      }
    }
  }

  lemma RedirectAllAppend<W>(arcs: seq<Tr<W>>, a: Tr<W>, m: map<Label, StateId>, reachInput: bool)
    ensures RedirectAll(arcs + [a], m, reachInput) == RedirectAll(arcs, m, reachInput) + [Redirect(a, m, reachInput)]
  {
  }

  lemma RewriteAllAppend<W>(arcs: seq<seq<Tr<W>>>, finals: seq<Option<W>>, s: nat, m: map<Label, StateId>, reachInput: bool, zero: W)
    requires |arcs| == |finals| && s < |arcs|
    ensures RewriteAll(arcs[..s + 1], finals[..s + 1], m, reachInput, zero)
         == RewriteAll(arcs[..s], finals[..s], m, reachInput, zero) + [RewriteState(arcs[s], finals[s], m, reachInput, zero)]
    ensures FinalsAfter(finals[..s + 1], zero) == FinalsAfter(finals[..s], zero) + [FinalAfter(finals[s], zero)]
  {
  }

  lemma ArcsBelowAppend<W>(arcs: seq<Tr<W>>, a: Tr<W>, n: nat)
    requires ArcsBelow(arcs, n) && a.nextstate < n
    ensures ArcsBelow(arcs + [a], n)
  {
    forall k | 0 <= k < |arcs| + 1 ensures (arcs + [a])[k].nextstate < n {
      if k < |arcs| {
        assert (arcs + [a])[k] == arcs[k];
      }
    }
  }

  lemma TargetsBelowState<W>(states: seq<seq<Tr<W>>>, s: nat, n: nat)
    requires TargetsBelow(states, n) && s < |states|
    ensures ArcsBelow(states[s], n)
  {
  }

  /** A new state numbered `|indeg|` is entered by nothing yet. */
  lemma CountsGrow<W>(indeg: seq<nat>, done: seq<seq<Tr<W>>>, cur: seq<Tr<W>>)
    requires CountsIn(indeg, done, cur) && TargetsBelow(done, |indeg|) && ArcsBelow(cur, |indeg|)
    ensures CountsIn(indeg + [0], done, cur)
  {
    InDegAboveTargets(done, |indeg|, |indeg|);
    CountToAboveTargets(cur, |indeg|, |indeg|);
  }

  /** Counting one more transition of the current state. */
  lemma CountsAdd<W>(indeg: seq<nat>, done: seq<seq<Tr<W>>>, cur: seq<Tr<W>>, a: Tr<W>)
    requires CountsIn(indeg, done, cur) && a.nextstate < |indeg|
    ensures CountsIn(indeg[a.nextstate := indeg[a.nextstate] + 1], done, cur + [a])
  {
    forall t | 0 <= t < |indeg| ensures CountTo(cur + [a], t) == CountTo(cur, t) + (if a.nextstate == t then 1 else 0) {
      CountToAppend(cur, a, t);
    }
  }

  /** The current state is done. */
  lemma CountsClose<W>(indeg: seq<nat>, done: seq<seq<Tr<W>>>, cur: seq<Tr<W>>)
    requires CountsIn(indeg, done, cur)
    ensures CountsIn(indeg, done + [cur], [])
  {
    forall t | 0 <= t < |indeg| ensures InDeg(done + [cur], t) == InDeg(done, t) + CountTo(cur, t) {
      InDegAppend(done, cur, t);
    }
  }

  lemma CountsAreInDegrees<W>(indeg: seq<nat>, done: seq<seq<Tr<W>>>)
    requires CountsIn(indeg, done, [])
    ensures indeg == InDegrees(done, |indeg|)
  {
  }

  /** The labels met up to state `s` included: its transitions' labels,
      then `NO_LABEL` for a final transition. */
  lemma LabelsOfState<W>(arcs: seq<seq<Tr<W>>>, finals: seq<Option<W>>, s: nat, reachInput: bool, zero: W)
    requires |arcs| == |finals| && s < |arcs|
    ensures SeenLabels(arcs[..s], finals[..s], reachInput, zero) + ArcLabels(arcs[s], reachInput)
            + (if HasFinalArc(finals[s], zero) then [NO_LABEL] else [])
         == SeenLabels(arcs[..s + 1], finals[..s + 1], reachInput, zero)
  {
    SeenStep(arcs, finals, s, reachInput, zero);
  }

  /** The `NO_LABEL` target of state `s` is the one the whole numbering gives. */
  lemma FinalArcsAgree<W>(arcs: seq<seq<Tr<W>>>, finals: seq<Option<W>>, s: nat, reachInput: bool, zero: W, base: nat)
    requires |arcs| == |finals| && s < |arcs|
    ensures FinalArcs(finals[s], Numbering(SeenLabels(arcs[..s + 1], finals[..s + 1], reachInput, zero), base), zero)
         == FinalArcs(finals[s], Numbering(SeenLabels(arcs, finals, reachInput, zero), base), zero)
  {
    var next := SeenLabels(arcs[..s + 1], finals[..s + 1], reachInput, zero);
    SeenPrefix(arcs, finals, s + 1, reachInput, zero);
    NumberingPrefix(next, SeenLabels(arcs, finals, reachInput, zero), base);
    if HasFinalArc(finals[s], zero) {
      SeenStep(arcs, finals, s, reachInput, zero);
      NumberingKeys(next, base);
      assert next[|next| - 1] == NO_LABEL;
    }
  }

  /** `k` states without transitions. */
  function NoTransitions<W>(k: nat): (r: seq<seq<Tr<W>>>)
    ensures |r| == k && forall i :: 0 <= i < k ==> r[i] == []
  {
    seq(k, _ => [])
  }

  /** The rewritten states, `k` label states without
      transitions, and the super-initial state; every target is a state. */
  lemma TargetsAfterRewrite<W>(rewritten: seq<seq<Tr<W>>>, k: nat, root: seq<Tr<W>>, n: nat)
    requires TargetsBelow(rewritten, n) && |rewritten| + k == n && ArcsBelow(root, n)
    ensures TargetsBelow(rewritten + NoTransitions(k) + [root], n + 1)
  {
    var all: seq<seq<Tr<W>>> := rewritten + NoTransitions(k) + [root];
    forall s | 0 <= s < |all|
      ensures ArcsBelow(all[s], n + 1)
    {
      if s < |rewritten| {
        assert all[s] == rewritten[s];
      } else if s < n {
        assert all[s] == [];
      } else {
        assert all[s] == root;
      }
    }
  }
}
