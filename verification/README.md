# Reachability analysis of place/transition Petri nets, in Dafny

This project models the reachability engine of a Petri-net tool and proves what it computes. The engine explores every marking reachable from the initial marking, breadth first. It numbers each new marking densely in discovery order. For every marking it emits one row holding the transitions that fire there and the ids of the markings they lead to. While it explores, it keeps two monotone accumulators:
- a per-place running maximum of token counts (the *boundedness*);
- a per-transition liveness class, L0 until the transition first fires and L1 after.

The analysis then reads off these verdicts:
- the deadlocked markings, each interpreted as *final* or as a plain deadlock;
- the bound of the whole net;
- whether the net is safe, live, quasi-live and sound.

The modules follow the structure of `src/petri_net/reachability.rs`:

| file | module | what it holds |
|---|---|---|
| `marking.dfy` | `MarkingModel` | the sparse marking (no stored zeros), `Get`, `Set`, `CoveredBy`, `FromPairs` |
| `net.dfy` | `PetriNets` | arcs, the net, and the per-transition input/output table (`TransitionIOs`) |
| `lattices.dfy` | `Lattices` | `Bound` and its order, `Live`, and the `Boundedness`/`Liveness` accumulators as classes |
| `table.dfy` | `MarkingTable` | the marking table: class `Markings` with `Remember` and `LookUp` |
| `firing.dfy` | `Firing` | the firing rule as specification functions, and the imperative `FireTransitions` proved against them |
| `exploration.dfy` | `Exploration` | reachability by firing sequences, the breadth-first discovery order, the replay of the bounds over the discovered markings, the finite box of markings the search stays in, the search invariants, and the uniqueness of an explored analysis |
| `search.dfy` | `Search` | the breadth-first search `ReachabilityAnalysis`, its queue loop `DrainQueue` and the methods that loop is made of |
| `verdicts.dfy` | `Verdicts` | deadlocks and their interpretation, net boundedness, safe/live/quasi-live/sound, grouping by class |

Modelling choices:
- **Abstracted pieces of the net.** Place and transition ids are dense naturals, and transition `t` is the `t`-th transition. Arc weights and place capacities are total functions to naturals. They stand for the `get_or_default` lookups of the weight and capacity functions. A net is its place count, transition count, arc sequence, those two functions and its initial marking. `WellFormed` states that every arc and every initially marked place is in range. Under it, the out-of-range indexing panics of the source cannot happen.
- **Markings are values.** The source clones markings, hashes them and uses them as map keys, so `Marking` is a datatype. `Set` is a function that returns the updated marking. `FromPairs` is the loop that builds one.
- **Imperative parts.** The accumulators and the marking table are classes whose methods update their fields in place. `TransitionIOs`, `FireTransitions` and its passes are methods with loops, each proved equal to a specification function about which the properties are proved as lemmas. The search methods (`Begin`, `ExpandEntry`, `Visit`, `DrainQueue`) state the new table exactly in terms of `Exploration.Grow` and `Exploration.BreadthFirst`. `ReachabilityAnalysis` returns an analysis satisfying the predicate `Exploration.Explored`, and `Exploration.ExploredUnique` proves that at most one analysis of a net satisfies it.
- **Discovery order.** `Exploration.Grow` appends the results of a marking's firings that are not yet in the table, in the order they first appear. `Exploration.BreadthFirst(net, n)` is the table after the first `n` discovered markings have been expanded in id order. `Explored` requires the listed markings to be a fixed point of that function. This pins the id of every marking to its breadth-first, first-appearance position (`src/petri_net/reachability.rs:364-386`), and with it the rows, the bounds and the classes.
- **Bound order as the code defines it.** The hand-written `cmp` of `Bound` puts `Unbounded` *below* every `Bounded(n)` (`src/petri_net/reachability.rs:96-105`). This is unlike the usual convention, which puts `Unbounded` on top. The model follows the code, and `Lattices.CmpMeaning` and `Lattices.UnboundedIsLeast` state the code's order. No code path creates `Unbounded`, so no verdict is affected.
- **Boundedness is not transactional.** The output pass raises a place's bound as soon as that output succeeds. It does so even when a later output of the same transition then fails and the firing is discarded. The model keeps this behaviour. `Firing.PartialRaiseOnFailure` shows a concrete net where a place's bound is raised to a count the place never holds. A bound can therefore exceed every count its place ever holds. The model still pins the bounds down exactly. `Exploration.BoundsOver` replays the accumulation over the discovered markings in discovery order, and the search keeps its bounds equal to that replay. A partial raise only happens on an output place of a transition, so once every transition fires somewhere, a positive bound still means a marked place (`Verdicts.PositiveBoundMarked`).
- **Termination.** Every count the search can produce is at most the largest initial count or capacity. The search therefore stays inside a finite set of markings (`Exploration.Box`). The outer loop decreases the number of markings of that set still unknown, then the queue length.

## Model

| member | source | states |
|---|---|---|
| MarkingModel.Get | src/petri_net/reachability.rs:46-49 | for a marking without stored zeros, a place reads non-zero exactly when it is stored; an absent place reads 0 |
| MarkingModel.Set | src/petri_net/reachability.rs:50-58 | afterwards the place reads the given count, every other place reads as before, and no zero entry is stored |
| MarkingModel.GetDeterminesMarking | src/petri_net/reachability.rs:46-58 | two markings without stored zeros are equal exactly when `Get` agrees on every place |
| MarkingModel.CoveredByPointwise | src/petri_net/reachability.rs:38-42 | `covered_by` holds exactly when every place holds at most as many tokens as in the other marking; unstored places impose nothing |
| MarkingModel.CoveredByPreorder | src/petri_net/reachability.rs:38-42 | covering is reflexive and transitive |
| MarkingModel.FromPairs | src/petri_net/reachability.rs:61-72 | the built marking stores no zeros and each place holds the count of the last pair naming it (0 if none) |
| Lattices.CmpMeaning | src/petri_net/reachability.rs:96-105 | `cmp` answers Equal exactly on identical bounds, compares two finite bounds by their token counts, and answers Less for `Unbounded` against any finite bound |
| Lattices.CmpIsTotalOrder | src/petri_net/reachability.rs:96-105 | `cmp` on bounds is a total order: Equal exactly on identical bounds, antisymmetric, total and transitive |
| Lattices.UnboundedIsLeast | src/petri_net/reachability.rs:96-105 | `Unbounded` compares Less than every `Bounded(n)` |
| Lattices.MaxBound | src/petri_net/reachability.rs:122-124 | the max of two bounds is one of them and is at least both |
| Lattices.MaxLive | src/petri_net/reachability.rs:155-157 | the max of two classes is one of them and ranks at least as high as both |
| Lattices.Boundedness.constructor | src/petri_net/reachability.rs:113-120 | one bound per place, each `Bounded` by that place's initial count (0 for unmarked places) |
| Lattices.Boundedness.Update | src/petri_net/reachability.rs:122-124 | only the given place changes, to the max of old and new; no entry ever decreases |
| Lattices.Liveness.constructor | src/petri_net/reachability.rs:151-153 | one class per transition, all L0 |
| Lattices.Liveness.Update | src/petri_net/reachability.rs:155-157 | only the given transition changes, to the max of old and new class |
| MarkingTable.Markings.constructor | src/petri_net/reachability.rs:211-214 | the table starts empty with its id invariant established |
| MarkingTable.Markings.Remember | src/petri_net/reachability.rs:218-222 | the returned id is the table size before insertion; a new marking extends the dense numbering by one, and looking it up afterwards yields that id |
| MarkingTable.Markings.LookUp | src/petri_net/reachability.rs:224-226 | a marking is found exactly when it was remembered, and the id returned is the one it was numbered with |
| MarkingTable.KeyIffListed | src/petri_net/reachability.rs:218-226 | a marking has an id exactly when it is listed in the numbering order |
| PetriNets.InputsOfMembers | src/petri_net/reachability.rs:256-260 | a place is listed as input of `t` exactly when a place-to-`t` arc leaves it |
| PetriNets.OutputsOfMembers | src/petri_net/reachability.rs:256-263 | a place is listed as output of `t` exactly when a `t`-to-place arc enters it |
| PetriNets.IOTableWithin | src/petri_net/reachability.rs:249-270 | in a well-formed net every listed id and place is in range |
| PetriNets.TransitionIOs | src/petri_net/reachability.rs:249-270 | the table has one entry per transition with its inputs and outputs in arc order |
| Firing.SubtractInputs | src/petri_net/reachability.rs:309-317 | the input pass loop computes the specified checked subtraction |
| Firing.TakeInputsSpec | src/petri_net/reachability.rs:309-317 | the input pass succeeds exactly when every place holds the total weight its input arcs take, and then removes exactly that |
| Firing.AddOutputsRaisingBounds | src/petri_net/reachability.rs:318-334 | the output pass loop computes the specified marking and raises bounds as specified, stopping at the first output that does not fit |
| Firing.AddOutputsSpec | src/petri_net/reachability.rs:318-334 | the output pass succeeds exactly when every output place has room for its added weight under its capacity, and then adds exactly that |
| Firing.TryTransition | src/petri_net/reachability.rs:305-342 | one attempt yields the specified firing, bounds and classes; a transition that does not fire leaves its class unchanged |
| Firing.FireTransitions | src/petri_net/reachability.rs:301-343 | the successful firings in transition order, and bounds and classes as specified |
| Firing.FireSpec | src/petri_net/reachability.rs:309-342 | a transition fires exactly when inputs suffice and outputs fit; the result takes input weights, adds output weights, respects capacities and leaves other places alone |
| Firing.OutputBoundsGrow | src/petri_net/reachability.rs:324-332 | the output pass never lowers a bound |
| Firing.OutputBoundsDominate | src/petri_net/reachability.rs:318-334 | after a successful output pass, the bounds dominate the resulting marking |
| Firing.FireDominates | src/petri_net/reachability.rs:305-342 | the bounds after an attempt dominate the marking a successful firing yields |
| Firing.OutputBoundsSource | src/petri_net/reachability.rs:318-334 | a bound the output pass leaves positive was positive before, or belongs to an output place that held tokens or whose arc weight is positive |
| Firing.FireBoundsSource | src/petri_net/reachability.rs:305-342 | a bound one firing attempt leaves positive was positive before, or belongs to an output of the transition that held tokens in the source marking or whose arc weight is positive |
| Firing.BoundsAfterSource | src/petri_net/reachability.rs:301-343 | a bound that firing from a marking leaves positive was positive before, or its place is marked there, or some transition's output arc gives it a positive weight |
| Firing.BoundsAfterDominates | src/petri_net/reachability.rs:301-343 | firing from a marking never lowers a bound, and the new bounds dominate every successor |
| Firing.ClassesAfterSpec | src/petri_net/reachability.rs:336-341 | after firing from a marking, a transition's class is raised to L1 exactly when it fired there |
| Firing.SuccessorsSpec | src/petri_net/reachability.rs:301-343 | the successors are exactly the transitions that fire, each with its resulting marking |
| Firing.PartialRaiseOnFailure | src/petri_net/reachability.rs:318-334 | a concrete net where the firing fails but an earlier output's bound has already been raised |
| Exploration.InitialBounds | src/petri_net/reachability.rs:113-120 | the bounds before the search: one per place, each the place's initial count |
| Exploration.BoundsOverStep | src/petri_net/reachability.rs:374-385 | discovering one more marking folds exactly its firing attempts into the accumulated bounds |
| Exploration.BoundsOverSource | src/petri_net/reachability.rs:345-391 | a positive accumulated bound comes from the initial marking, from a discovered marking, or from a positive output weight of some transition |
| Exploration.Admit | src/petri_net/reachability.rs:367-375 | resolving one firing result keeps the table as a prefix, lists the result afterwards, and adds at most one marking |
| Exploration.Grow | src/petri_net/reachability.rs:366-386 | expanding a marking keeps the earlier table as a prefix and only appends at its end |
| Exploration.GrowStep | src/petri_net/reachability.rs:366-386 | resolving the results one by one: after the next branch the table is the previous table with that branch's result admitted |
| Exploration.BreadthFirst | src/petri_net/reachability.rs:345-389 | the breadth-first table always starts with the initial marking |
| Exploration.BreadthFirstSettles | src/petri_net/reachability.rs:364 | once every discovered marking has been expanded (the queue is dry), expanding further leaves the table unchanged |
| Exploration.EdgesMatchUnique | src/petri_net/reachability.rs:366-375 | over a table without repeats, a row's continuations are determined by its firings |
| Exploration.SettledOrdersAgree | src/petri_net/reachability.rs:345-389 | two breadth-first tables that have both run dry are the same table |
| Exploration.RowsAgree | src/petri_net/reachability.rs:364-389 | over a table without repeats, the finished rows are determined by the table |
| Exploration.ExploredUnique | src/petri_net/reachability.rs:345-391 | two analyses of the same net that both satisfy the explored-net guarantee are equal: rows, ids, bounds and classes are determined by the net |
| Exploration.SuccessorInBox | src/petri_net/reachability.rs:318-326 | a firing never exceeds a capacity, so the search stays in the finite box |
| Search.Discover | src/petri_net/reachability.rs:374-385 | a new marking gets the next id and is appended to the table; its firings are returned; the bounds become exactly the old bounds with its firing attempts folded in, and bounds and classes keep covering every discovered marking. Begin uses it for lines 348-362 as well |
| Search.Begin | src/petri_net/reachability.rs:346-363 | afterwards the table is exactly [initial marking], with id 0, and the queue is exactly one entry: id 0, the initial marking, and its firings; the search invariant holds |
| Search.ResolveBranch | src/petri_net/reachability.rs:366-386 | a known result adds a continuation to its id and leaves table and queue unchanged; an unknown one is appended to the table with the next id, gets a continuation to that id, and is queued with its own firings; the invariant is kept; queue growth equals the drop in unknown markings of the box |
| Search.ExpandEntry | src/petri_net/reachability.rs:364-387 | the continuations list each firing in order with the id of its result; the new table is the old one grown by exactly the unseen results, in first-appearance order (`Grow`); the queue only grows, at its end; the search invariant is kept |
| Search.Visit | src/petri_net/reachability.rs:364-389 | dequeuing appends exactly one row, for marking number k = the number of rows so far, with id k; the new table is the old one grown by the unseen results of marking k's firings, in first-appearance order; the rest of the queue is kept at its front; the search invariant is kept |
| Search.DrainQueue | src/petri_net/reachability.rs:364-389 | when the queue has run dry, the search invariant holds and the table is the breadth-first table after expanding every row's marking |
| Search.SearchComplete | src/petri_net/reachability.rs:364-391 | when the queue is empty and the table is the breadth-first table over the rows, the rows, bounds and classes satisfy the explored-net guarantee |
| Search.ReachabilityAnalysis | src/petri_net/reachability.rs:345-391 | the guarantee of the result, which determines it (`ExploredUnique`): row k has id k; the listed markings are the breadth-first, first-appearance order from the initial marking; no marking is listed twice; each row's continuations are its firings in order with in-range target ids; the bounds are exactly the initial counts with the firing attempts from every listed marking folded in, in row order, and they dominate every listed marking and successor; each class is L1 exactly when the transition fired from a listed marking |
| Verdicts.Interpret | src/petri_net/reachability.rs:423-436 | a final verdict names a place with exactly one token and no outgoing arc |
| Verdicts.InterpretSpec | src/petri_net/reachability.rs:423-436 | a deadlock is final exactly when one place holds exactly one token, all others none, and no arc leaves that place |
| Verdicts.DeadlocksSpec | src/petri_net/reachability.rs:417-440 | the list holds exactly the rows without continuations, each with its id and interpretation |
| Verdicts.Deadlocks | src/petri_net/reachability.rs:417-440 | no more deadlocks are reported than there are rows |
| Verdicts.DeadlockIsStuck | src/petri_net/reachability.rs:419-421 | in an explored net a row has no continuations exactly when no transition is enabled at its marking |
| Verdicts.RunListed | src/petri_net/reachability.rs:345-391 | every marking reached by a firing sequence is listed in the rows |
| Verdicts.SuccessorListed | src/petri_net/reachability.rs:364-386 | a marking obtained by firing from a listed marking is listed too |
| Verdicts.ListedIffReachable | src/petri_net/reachability.rs:345-391 | the rows list exactly the reachable markings |
| Verdicts.Largest | src/petri_net/reachability.rs:443-445 | the net's bound is one of the place bounds (Bounded(0) with no places) and at least every place bound |
| Verdicts.BoundsCoverReachable | src/petri_net/reachability.rs:443-445 | every place bound is finite and at least the count of that place in every reachable marking |
| Verdicts.LargestOfFinite | src/petri_net/reachability.rs:443-445 | the largest of finite bounds is finite and at least each of them |
| Verdicts.NetBoundCoversReachable | src/petri_net/reachability.rs:443-445 | the net's bound is finite and no reachable marking exceeds it on any place |
| Verdicts.IsSafe | src/petri_net/reachability.rs:448-450 | a safe verdict means every place bound is exactly one token |
| Verdicts.SafeMeansOneToken | src/petri_net/reachability.rs:448-450 | when every bound is Bounded(1), no reachable marking holds more than one token on a place |
| Verdicts.LivenessMeansFirable | src/petri_net/reachability.rs:336-341 | each transition's class is L1 exactly when it fires from some reachable marking, else L0 |
| Verdicts.FiredIffFirable | src/petri_net/reachability.rs:336-341 | over a list of exactly the reachable markings, a transition fires from a listed marking exactly when it fires from a reachable one |
| Verdicts.IsLive | src/petri_net/reachability.rs:452-454 | a live verdict means every transition has the highest class |
| Verdicts.IsQuasiLive | src/petri_net/reachability.rs:457-459 | a quasi-live verdict needs at least two transitions, one L4 and one not |
| Verdicts.LiveVerdicts | src/petri_net/reachability.rs:452-459 | `is_live` holds only for a net without transitions and `is_quasi_live` never holds, since only L0 and L1 are assigned |
| Verdicts.IsSound | src/petri_net/reachability.rs:468-471 | sound means every transition's class is above L0 and every place bound is a finite count above zero |
| Verdicts.FiringMarksOutput | src/petri_net/reachability.rs:318-334 | firing a transition from a reachable marking marks every output place whose arc weight is positive |
| Verdicts.PositiveBoundMarked | src/petri_net/reachability.rs:468-471 | once every transition has fired, a positive bound means the place is marked in some reachable marking |
| Verdicts.SoundVerdict | src/petri_net/reachability.rs:468-471 | the verdict is sound exactly when every transition fires from some reachable marking and every place is marked in some reachable marking |
| Verdicts.GroupByClass | src/petri_net/reachability.rs:184-193 | five groups; group c holds exactly the transitions of class rank c, in increasing id order |

## Left out

- The text rendering (`Display` for the analysis, for `Liveness` and for the other types, and the `Join` helper) is left out, because it only formats output. The grouping loop inside `Display for Liveness` is modelled as `Verdicts.GroupByClass`.
- `IncidenceMatrix` and `incidence_matrix` are left out. They are marked unused and never called.
- `loops()` is left out. It is a stub that always returns an empty list.
- Hashing is left out. The table is a Dafny `map`, with a ghost sequence recording the numbering order.
- Net construction, parsing and the weight/capacity function implementations are left out. They live outside the modelled file; the model takes weights and capacities as total functions.
- Machine integer width is not modelled. The capacity check rules out overflow of `current + weight`, so counts are unbounded naturals.
- Panics on out-of-range place or transition ids are not modelled. `WellFormed` excludes them. For such ids, which never occur, the specification functions `Firing.OutputBounds` and `Firing.ClassesAfter` leave bounds and classes alone instead of failing.
- Lattices.UnboundedIsLeast: the order on `Unbounded` is stated but never exercised, because the search only creates `Bounded` values.
- Classes L2 to L4 are never assigned, because the code only ever raises a transition to L1. The L4 verdicts are modelled as written, and `Verdicts.LiveVerdicts` shows their consequence.
- The order of two independent set-up steps differs from the source. The model computes the input/output table before remembering the initial marking; neither step reads the other's result.
