# rustfst core, modelled in Dafny

This project models three parts of rustfst, a Rust library for weighted finite-state transducers (FSTs), and proves what each promises.

1. **Label reachability** (`rustfst/src/algorithms/lookahead_matchers/label_reachable.rs`).
   - `LabelReachable::new` rewrites an FST with `transform_fst`, which works in three steps:
     - every transition whose selected label (input or output side) is not epsilon is sent to a fresh final state for that label;
     - every non-zero final weight becomes a `NO_LABEL` transition to the `NO_LABEL` state;
     - a super-initial state is added, with a transition to every state of zero in-degree.
   - `find_intervals` then keeps the interval sets of the original states and records the index of the `NO_LABEL` state as the final label.
   - `reach_init`, `reach_label` and `reach_final` validate and query the result.
   - The FST is the class `Fst.VectorFst`, whose fields the methods update in place.
   - `LabelReachable` and `LabelReachableData` are classes too.
   - `transform_fst` is proved, loop by loop, against the pure specification in `LabelReachableSpec`. That module proves the promised facts about the rewrite:
     - one fresh state per label, numbered consecutively from the original state count;
     - epsilon transitions are untouched;
     - two transitions share a new target exactly when they share a label;
     - each final weight is moved onto a `NO_LABEL` transition;
     - the super-initial state points exactly at the states of zero in-degree.

2. **Semirings and weight mappers** (`src/semirings/semiring.rs`, `times_mapper.rs`, `simple_weight_converter.rs`).
   - A semiring is a record of its operations. The laws the trait's documentation demands are a predicate (`IsSemiring`, `WeaklyDivisible`) that lemmas take as a hypothesis.
   - The Boolean semiring shows that the laws can be met.
   - `plus`, `times` and `inverse` copy the weight (a `Weight` object) and apply the in-place mutator to the copy.
   - `TimesMapper` right-multiplies weights by a constant. `SimpleWeightConverter` rebuilds a weight in another semiring from its value. Both leave labels and targets alone.

3. **Reference-page generation** (`docs/gen_ref_pages.py`).
   - The loop visits the `.py` files of the Python package in sorted path order. For each file it computes the module parts, the document path and the stub path.
   - `__init__` becomes `index.md` and `__main__` is skipped.
   - Each turn updates the navigation, writes a stub `::: <dotted.name>` and records the edit path. `SUMMARY.md` is written at the end.
   - Python's path ordering and `sorted` are modelled in `PathOrder`. Sorting there is proved to be a total order, a permutation, and independent of the order in which files are discovered.

Modules: `Results` (Option, Result), `Semirings`, `Fst`, `TimesMappers`, `SimpleWeightConverter`, `LabelReachableSpec`, `LabelReachability`, `PathOrder`, `RefPages`.

## Model

| member | source | states |
|---|---|---|
| Semirings.IsZeroIffNeutral | src/semirings/semiring.rs:40-42 | under the semiring laws, `is_zero` holds exactly for the identity of plus |
| Semirings.IsZero | src/semirings/semiring.rs:40-42 | no contract of its own: it compares the weight with `zero()`; `IsZeroIffNeutral` states what that means under the laws |
| Semirings.IsOne | src/semirings/semiring.rs:37-39 | no contract of its own: it compares the weight with `one()`; `IsOneIffNeutral` states what that means under the laws |
| Semirings.IsOneIffNeutral | src/semirings/semiring.rs:37-39 | under the semiring laws, `is_one` holds exactly for the two-sided identity of times |
| Semirings.NeutralIsZero | src/semirings/semiring.rs:6 | the identity element of plus is unique and equals `zero()` |
| Semirings.NeutralIsOne | src/semirings/semiring.rs:7 | the identity element of times is unique and equals `one()` |
| Semirings.Weight.PlusAssign | src/semirings/semiring.rs:26 | the weight becomes its old value plus `rhs` |
| Semirings.Weight.TimesAssign | src/semirings/semiring.rs:33 | the weight becomes its old value times `rhs` |
| Semirings.Weight.InverseMut | src/semirings/semiring.rs:58 | the weight becomes its inverse |
| Semirings.Weight.Plus | src/semirings/semiring.rs:21-25 | returns what `plus_assign` leaves in a copy; the weight itself is not modified (no `modifies`) |
| Semirings.Weight.Times | src/semirings/semiring.rs:28-32 | returns what `times_assign` leaves in a copy; the weight itself is not modified |
| Semirings.Weight.Inverse | src/semirings/semiring.rs:53-57 | returns what `inverse_mut` leaves in a copy; the weight itself is not modified |
| Semirings.BooleanSemiringLaws | src/semirings/semiring.rs:5-50 | (bool, or, and, false, true) meets every semiring law and weak divisibility, so the laws are consistent |
| TimesMappers.TimesMapper.New | rustfst/src/algorithms/arc_mappers/times_mapper.rs:13-17 | the stored constant is `W::new(value)` |
| TimesMappers.TimesMapper.FromWeight | rustfst/src/algorithms/arc_mappers/times_mapper.rs:19-21 | the stored constant is the given weight itself |
| TimesMappers.TimesMapper.MapWeight | rustfst/src/algorithms/arc_mappers/times_mapper.rs:23-25 | the weight is replaced by weight times constant (on the right); always `Ok` |
| TimesMappers.TimesMapper.ArcMap | rustfst/src/algorithms/arc_mappers/times_mapper.rs:29-31 | the transition keeps its labels and next state; only its weight is right-multiplied by the constant |
| TimesMappers.TimesMapper.FinalArcMap | rustfst/src/algorithms/arc_mappers/times_mapper.rs:33-35 | the final transition keeps its labels; only its weight is right-multiplied |
| TimesMappers.TimesMapper.FinalAction | rustfst/src/algorithms/arc_mappers/times_mapper.rs:37-39 | always `MapNoSuperfinal` |
| TimesMappers.TimesMapper.MapByOneIsIdentity | rustfst/src/algorithms/arc_mappers/times_mapper.rs:23-25 | with constant `one`, mapping leaves every weight unchanged |
| TimesMappers.TimesMapper.MapByZeroAnnihilates | rustfst/src/algorithms/arc_mappers/times_mapper.rs:23-25 | with constant `zero`, mapping sends every weight to `zero` |
| TimesMappers.TimesMapper.MapDistributesOverPlus | rustfst/src/algorithms/arc_mappers/times_mapper.rs:7-25 | mapping a sum equals the sum of the mapped weights |
| TimesMappers.MapTwiceIsMapByProduct | rustfst/src/algorithms/arc_mappers/times_mapper.rs:7-25 | mapping by c1 then by c2 equals mapping once by c1 times c2 |
| SimpleWeightConverter.ArcMap | rustfst/src/algorithms/weight_converters/simple_weight_converter.rs:16-23 | always `Ok`; same labels and next state; the weight is `SO::new(weight.value())` |
| SimpleWeightConverter.FinalArcMap | rustfst/src/algorithms/weight_converters/simple_weight_converter.rs:25-31 | always `Ok`; same labels; the weight is `SO::new(weight.value())` |
| SimpleWeightConverter.FinalAction | rustfst/src/algorithms/weight_converters/simple_weight_converter.rs:33-35 | always `MapNoSuperfinal` |
| SimpleWeightConverter.ArcMapKeepsValue | rustfst/src/algorithms/weight_converters/simple_weight_converter.rs:20 | when the output semiring keeps the value it is built from, the converted weight has the original value |
| SimpleWeightConverter.ArcMapRoundTrip | rustfst/src/algorithms/weight_converters/simple_weight_converter.rs:16-23 | converting a transition into another semiring and back gives the original transition, when both store exactly their values |
| SimpleWeightConverter.FinalArcMapRoundTrip | rustfst/src/algorithms/weight_converters/simple_weight_converter.rs:25-31 | the same round trip for final transitions |
| Fst.VectorFst.AddState | rustfst/src/algorithms/lookahead_matchers/label_reachable.rs:121-126 | appends a state with no transitions and no final weight and returns its id |
| Fst.VectorFst.NumStates | rustfst/src/algorithms/lookahead_matchers/label_reachable.rs:71 | the number of states is the number of entries of the transition table |
| Fst.VectorFst.FinalWeight | rustfst/src/algorithms/lookahead_matchers/label_reachable.rs:96 | the final weight of state `s` (`None` when `s` is not final), for `s` below the number of states |
| Fst.VectorFst.SetFinal | rustfst/src/algorithms/lookahead_matchers/label_reachable.rs:122 | only the final weight of `s` changes |
| Fst.VectorFst.DeleteFinalWeight | rustfst/src/algorithms/lookahead_matchers/label_reachable.rs:114 | only the final weight of `s` is removed |
| Fst.VectorFst.SetStart | rustfst/src/algorithms/lookahead_matchers/label_reachable.rs:127 | only the start state changes |
| Fst.VectorFst.AddArc | rustfst/src/algorithms/lookahead_matchers/label_reachable.rs:108-111 | the transition is appended to state `s` and nothing else changes |
| Fst.VectorFst.SetNextState | rustfst/src/algorithms/lookahead_matchers/label_reachable.rs:83 | only the target of the `i`-th transition of `s` changes |
| LabelReachability.LabelReachableData.constructor | rustfst/src/algorithms/lookahead_matchers/label_reachable.rs:21-28 | stores the side; final label `NO_LABEL`; no label indices; no interval sets |
| LabelReachability.LabelReachable.Init | rustfst/src/algorithms/lookahead_matchers/label_reachable.rs:46-52 | a fresh `LabelReachableData` for the given side, with final label `NO_LABEL` and empty tables; `label2state` is empty and `reach_fst_input` is false |
| LabelReachability.LabelReachable.ReachInput | rustfst/src/algorithms/lookahead_matchers/label_reachable.rs:61-63 | no contract of its own: it reads back the side stored in `data` |
| LabelReachability.LabelReachableData.IntervalSetAt | rustfst/src/algorithms/lookahead_matchers/label_reachable.rs:30-32 | `Ok` exactly for a state with an interval set, and then that set; otherwise the error "Missing state s" |
| LabelReachability.LabelReachableData.FinalLabel | rustfst/src/algorithms/lookahead_matchers/label_reachable.rs:34-36 | the recorded final label |
| LabelReachability.LabelReachable.New | rustfst/src/algorithms/lookahead_matchers/label_reachable.rs:46-59 | the FST is rewritten as `Transformed` describes. The result is `Ok` exactly when `StateReachable::new` succeeds, and its error is passed on. On success: the side is recorded and `reach_fst_input` is false; `label2state` is empty; the interval sets are those of the original states; the final label is the index of the `NO_LABEL` state |
| LabelReachability.LabelReachable.TransformFst | rustfst/src/algorithms/lookahead_matchers/label_reachable.rs:70-136 | `label2state` numbers the labels met from `ins` in first-met order, and the FST becomes `Transformed` of the original: rewritten original states, label states final with `one`, and a super-initial start state. The FST stays well formed |
| LabelReachability.LabelReachable.RelabelStates | rustfst/src/algorithms/lookahead_matchers/label_reachable.rs:71-117 | after the state loop each original state is rewritten by `RewriteState` and its final weight by `FinalAfter`; `ons` is `ins` plus the number of labels; `indeg` is the in-degree of every state below `ons` |
| LabelReachability.LabelReachable.RelabelState | rustfst/src/algorithms/lookahead_matchers/label_reachable.rs:75-116 | one turn of the state loop preserves the loop invariant (`Rewritten`) |
| LabelReachability.LabelReachable.RedirectArcs | rustfst/src/algorithms/lookahead_matchers/label_reachable.rs:76-94 | each transition of `s` is redirected by the final numbering; the labels of `s` are numbered; `indeg` counts the new targets |
| LabelReachability.LabelReachable.RedirectArc | rustfst/src/algorithms/lookahead_matchers/label_reachable.rs:77-93 | one turn of the arc loop preserves its invariant (`Redirecting`) |
| LabelReachability.LabelReachable.StateOfLabel | rustfst/src/algorithms/lookahead_matchers/label_reachable.rs:83-106 | a known label keeps its state; a new one gets state `ons`, `ons` grows by one and `indeg` gains a zero; `indeg` keeps length `ons` |
| LabelReachability.LabelReachable.AddFinalArc | rustfst/src/algorithms/lookahead_matchers/label_reachable.rs:96-116 | a present, non-zero final weight becomes a `NO_LABEL` transition to the `NO_LABEL` state and is deleted; otherwise nothing changes; `indeg` counts the new transition |
| LabelReachability.AddLabelStates | rustfst/src/algorithms/lookahead_matchers/label_reachable.rs:119-123 | states are added up to `ons`, each without transitions and final with weight `one` |
| LabelReachability.AddRootArcs | rustfst/src/algorithms/lookahead_matchers/label_reachable.rs:125-135 | the start state gains exactly `RootArcs(indeg)`, a `(0, 0, one, t)` for each `t` of zero in-degree, in increasing order |
| LabelReachability.AddStartState | rustfst/src/algorithms/lookahead_matchers/label_reachable.rs:119-135 | states below `ons` are final with `one`; state `ons` is the start state, not final, with the root transitions; the FST stays well formed |
| LabelReachability.LabelReachable.FindIntervals | rustfst/src/algorithms/lookahead_matchers/label_reachable.rs:138-153 | `Ok` exactly when `StateReachable::new` succeeded, and on error nothing changes. On `Ok`: the interval sets are resized to `ins`, the final label is the index of the `NO_LABEL` state (unchanged when there is none), and `label2state` is empty |
| LabelReachability.Resize | rustfst/src/algorithms/lookahead_matchers/label_reachable.rs:142-143 | `resize_with`: exactly `n` sets; the first ones kept and the rest empty |
| LabelReachability.SortedProperty | rustfst/src/algorithms/lookahead_matchers/label_reachable.rs:159-163 | `I_LABEL_SORTED` exactly for the input side, `O_LABEL_SORTED` exactly for the output side |
| LabelReachability.LabelReachable.ReachInit | rustfst/src/algorithms/lookahead_matchers/label_reachable.rs:155-169 | records the side in every case. `Ok` exactly when the properties are known and contain the sorted flag of that side. A properties error is passed on; otherwise the error is "LabelReachable::ReachInit: Fst is not sorted" |
| LabelReachability.LabelReachable.ReachLabel | rustfst/src/algorithms/lookahead_matchers/label_reachable.rs:173-178 | epsilon gives `Ok(false)` in any state. Otherwise the result is `Ok` exactly when the state has an interval set, and then it is true exactly when the label is a member; else "Missing state s" |
| LabelReachability.LabelReachable.ReachFinal | rustfst/src/algorithms/lookahead_matchers/label_reachable.rs:181-183 | `Ok` exactly when the state has an interval set, and then it is true exactly when the final label is a member |
| LabelReachability.LabelReachable.ReachFinalIsReachLabel | rustfst/src/algorithms/lookahead_matchers/label_reachable.rs:173-183 | when the final label is not epsilon, `reach_final` answers as `reach_label` on the final label |
| LabelReachableSpec.NumberingKeys | rustfst/src/algorithms/lookahead_matchers/label_reachable.rs:83-91 | `label2state` maps exactly the labels met |
| LabelReachableSpec.NumberingIsBijection | rustfst/src/algorithms/lookahead_matchers/label_reachable.rs:72-89 | labels are numbered one-to-one onto `ins .. ins + count - 1`, with no gaps |
| LabelReachableSpec.NumberingPrefix | rustfst/src/algorithms/lookahead_matchers/label_reachable.rs:90 | a label once numbered keeps its state for the rest of the rewrite |
| LabelReachableSpec.AllLabelsMapped | rustfst/src/algorithms/lookahead_matchers/label_reachable.rs:82-106 | every non-epsilon selected label has a state, and so does `NO_LABEL` when some final weight is non-zero |
| LabelReachableSpec.RedirectTargets | rustfst/src/algorithms/lookahead_matchers/label_reachable.rs:76-92 | an epsilon transition is unchanged; any other goes to its label's state, at or above `ins`; two labelled transitions share a target exactly when they share the label |
| LabelReachableSpec.TransformedArcs | rustfst/src/algorithms/lookahead_matchers/label_reachable.rs:76-92 | in the rewritten FST a transition keeps labels and weight; it keeps its target when epsilon, and otherwise enters its label's state |
| LabelReachableSpec.TransformedFinals | rustfst/src/algorithms/lookahead_matchers/label_reachable.rs:96-115 | a state with a non-zero final weight `w` becomes non-final and ends with exactly one `(NO_LABEL, NO_LABEL, w)` transition to the `NO_LABEL` state; other states keep their final weight and gain nothing |
| LabelReachableSpec.RootArcsSpec | rustfst/src/algorithms/lookahead_matchers/label_reachable.rs:128-135 | every root transition is `(0, 0, one, t)` with `t` of zero in-degree; every such `t` is covered; targets strictly increase |
| LabelReachableSpec.RootArcsShape | rustfst/src/algorithms/lookahead_matchers/label_reachable.rs:128-135 | by induction on the states: each root transition is `(0, 0, one, t)` towards a state of zero in-degree, in increasing order of `t` |
| LabelReachableSpec.RootArcsCover | rustfst/src/algorithms/lookahead_matchers/label_reachable.rs:128-135 | by induction on the states: no state of zero in-degree is missed by the root |
| LabelReachableSpec.CountToPositive | rustfst/src/algorithms/lookahead_matchers/label_reachable.rs:93 | a state is counted in a state's transitions exactly when one of them enters it |
| LabelReachableSpec.InDegPositive | rustfst/src/algorithms/lookahead_matchers/label_reachable.rs:93-113 | the in-degree is non-zero exactly when some transition (including the `NO_LABEL` ones) enters the state |
| LabelReachableSpec.EveryStateEntered | rustfst/src/algorithms/lookahead_matchers/label_reachable.rs:125-135 | after the rewrite every state below the start state is entered by a transition or by the root |
| PathOrder.StrLessTotal | docs/gen_ref_pages.py:15 | any two distinct names are ordered one way or the other |
| PathOrder.StrLessTransitive | docs/gen_ref_pages.py:15 | the order of names is transitive |
| PathOrder.PathLessIrreflexive | docs/gen_ref_pages.py:15 | no path precedes itself |
| PathOrder.PathLessTransitive | docs/gen_ref_pages.py:15 | the path order is transitive |
| PathOrder.PathLessTotal | docs/gen_ref_pages.py:15 | any two distinct paths are ordered |
| PathOrder.SortPaths | docs/gen_ref_pages.py:15 | `sorted` returns a permutation of the discovered paths |
| PathOrder.SortPathsSorted | docs/gen_ref_pages.py:15 | the result of `sorted` is in order |
| PathOrder.SortedUnique | docs/gen_ref_pages.py:15 | a multiset of paths has exactly one sorted arrangement |
| PathOrder.SortPathsCanonical | docs/gen_ref_pages.py:15 | the order of the loop does not depend on the order in which files are discovered |
| RefPages.LastDot | docs/gen_ref_pages.py:18-21 | the position of the last `.` of a name, if any; no `.` follows it |
| RefPages.WithSuffix | docs/gen_ref_pages.py:18-21 | the same path with its last part's suffix replaced |
| RefPages.WithName | docs/gen_ref_pages.py:31-32 | the same path with its last part replaced |
| RefPages.Translate | docs/gen_ref_pages.py:18-35 | a file is skipped exactly when its stem is `__main__`; every stub path lies below `docs/reference` |
| RefPages.TranslateModule | docs/gen_ref_pages.py:18-26 | `rustfst/x/y.py` has parts `rustfst, x, y`, document path `rustfst/x/y.md`, stub `docs/reference/rustfst/x/y.md` |
| RefPages.TranslateInit | docs/gen_ref_pages.py:29-32 | `rustfst/x/__init__.py` has parts `rustfst, x` and document path `rustfst/x/index.md`, below `docs/reference` for the stub |
| RefPages.TranslateMain | docs/gen_ref_pages.py:34-35 | `__main__.py` yields nothing |
| RefPages.NavSetSpec | docs/gen_ref_pages.py:37 | after `nav[key] = value` the key reads the value; other keys keep value and place; keys stay distinct; only a new key grows the navigation |
| RefPages.NavSet | docs/gen_ref_pages.py:37 | no contract of its own: an existing key is overwritten in place, a new key is appended; `NavSetSpec` states its properties |
| RefPages.Stub | docs/gen_ref_pages.py:39-43 | no contract of its own: `::: `, the parts joined by `.`, and the newline `print` adds; `BuildFiles` states which stubs are written |
| RefPages.Visit | docs/gen_ref_pages.py:18-46 | no contract of its own: one loop turn on values; `VisitFile` is proved to do exactly this |
| RefPages.Build | docs/gen_ref_pages.py:15-46 | no contract of its own: the loop over the first `n` files; `BuildFiles`, `BuildNav` and `BuildCount` characterise it |
| RefPages.SortedModuleFiles | docs/gen_ref_pages.py:15 | sorting keeps every discovered path below `rustfst-python/rustfst` |
| RefPages.VisitFile | docs/gen_ref_pages.py:18-46 | one turn of the loop does what `Visit` does with the file's translation: nothing for `__main__`, else the navigation entry, the stub and the edit path |
| RefPages.GenerateReferencePages | docs/gen_ref_pages.py:13-49 | navigation, stubs and edit paths are those of `Build` over the sorted paths, plus `SUMMARY.md` holding the rendered navigation |
| RefPages.BuildFiles | docs/gen_ref_pages.py:39-46 | each file written is the stub `::: <parts joined by .>` of a visited page, with that page's source as edit path; every visited page gets its stub |
| RefPages.EntriesFromPages | docs/gen_ref_pages.py:37 | every navigation entry is keyed by the parts of a visited page |
| RefPages.BuildNav | docs/gen_ref_pages.py:15-37 | with distinct keys, the navigation lists the pages in loop order, each with its document path |
| RefPages.BuildCount | docs/gen_ref_pages.py:15-43 | with distinct stub paths, one stub is written per file that is not `__main__` |
| RefPages.GeneratedSite | docs/gen_ref_pages.py:15-49 | the loop visits the files sorted, the navigation follows that order, the number of stubs is the number of files minus the `__main__` files, and no stub collides with `SUMMARY.md` |

## Left out

- `LabelReachability.LabelReachable.New`: the Rust function takes the FST by value; the model rewrites the caller's `VectorFst` object in place.
- `LabelReachability.LabelReachable.New` and `FindIntervals`: `StateReachable::new` and `IntervalSet` are not part of this model. The interval sets are a set of labels per state, and `StateReachable::new` is a function parameter.
- `LabelReachability.LabelReachable.New`: requires that `StateReachable::new` indexes every state of the FST (`IndexesEveryState`). Without it, `state2index[*state]` in the Rust code panics; the model has no panics.
- `LabelReachability.FinalIndex`: returns the previous final label when `NO_LABEL` is missing or out of range; the second case cannot arise under the requirement above.
- `LabelReachability.LabelReachable.FindIntervals`: the loop visits `label2state` in an arbitrary order, as a Rust `HashMap` is walked. Only the `NO_LABEL` entry changes anything.
- `LabelReachability.LabelReachableData.constructor`: `label2index` is never written by the source (the variable at line 144 is unused), so the model keeps it empty.
- `LabelReachability.LabelReachable.ReachInit`: `fst.properties()` is an input, a `Result` of a set of property flags.
- The `unsafe` unchecked accessors of `VectorFst` are preconditions (`s < num_states`), not code.
- `Fst.VectorFst` is a model of the few operations of rustfst's `VectorFst` that the rewrite calls. Its implementation is not part of this model.
- Labels and state ids are unbounded; `ons += 1` overflowing `usize` is not modelled.
- `TimesMappers.TimesMapper.MapWeight`: `times_assign` returns nothing in `semiring.rs`, while `map_weight` returns its result as `Result<()>`. The model always returns `Ok`.
- `TimesMappers.TimesMapper.ArcMap` and `FinalArcMap`: the transition is borrowed mutably in Rust. The model passes it in and returns the updated transition.
- `Semirings`: the laws are a predicate that lemmas take as a hypothesis, not axioms. `divide` is carried but nothing is stated about it.
- `Semirings.Weight.Inverse` and `InverseMut`: `inverse` is a function the semiring supplies, with no law tying it to `times`. `semiring.rs` promises no such law beyond its doc comment.
- `quantize_mapper.rs`, `WeightQuantize::quantize` and `partial_eq_f32`: floating-point arithmetic.
- `display_semiring`: formatting only.
- `compose_fst.rs`: a delegating wrapper around a lazy FST and a cache, with none of the logic visible.
- The CLI (`rustfst-cli`), `fst_op.rs`, `fst_op_2.rs`, `determinize/mod.rs` and `const_fst/misc.rs`: module plumbing, trait signatures and I/O, with no logic to model.
- `RefPages.GenerateReferencePages`: `rglob` and `resolve` are the input list of paths, relative to the repository root. Each path lies below `rustfst-python/rustfst` (`ModuleFiles`).
- `RefPages.GenerateReferencePages`: the `print` logging is left out.
- `RefPages.GenerateReferencePages`: the `mkdocs_gen_files` files and edit paths are maps from path to content and from path to path.
- `RefPages.GenerateReferencePages`: `Nav.build_literate_nav` is the parameter `literateNav`. The navigation is the ordered list of its keys and values, which is what that function renders as a tree.
- `PathOrder`: names compare character by character, as Python compares strings by code point; no locale or case folding applies.
