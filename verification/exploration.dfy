/**
 * What the breadth-first construction of the reachability graph maintains:
 * markings are numbered in discovery order, each is fired once when it is
 * discovered, and one row per marking is emitted in that order with its
 * outgoing edges. Also the reachability relation itself, and the finite box
 * of markings the search never leaves.
 */
module Exploration {
  import opened Wrappers
  import opened MarkingModel
  import opened PetriNets
  import opened Lattices
  import opened MarkingTable
  import opened Firing

  /** An edge of the graph: a transition and the id of the marking it leads to. */
  datatype Continuation = Continuation(transition: TransitionId, target: nat)

  /** One row of the result: a marking, its id and its outgoing edges. */
  datatype Row = Row(id: nat, marking: Marking, continuations: seq<Continuation>)

  /** The completed analysis: the rows, the final bounds and the final liveness classes. */
  datatype Analysis = Analysis(rows: seq<Row>, bounds: seq<Bound>, classes: seq<Live>)

  /** A queued marking with the firings already computed from it. */
  datatype Pending = Pending(id: nat, marking: Marking, branches: seq<(TransitionId, Marking)>)

  // ---------------------------------------------------------------------
  // Reachability by firing sequences

  /** The marking reached by firing `path` from the initial marking, if every step is enabled. */
  ghost function Run(net: Net, path: seq<TransitionId>): Option<Marking>
    decreases |path|
  {
    if path == [] then Some(net.initial)
    else
      match Run(net, path[..|path| - 1])
      case None => None
      case Some(m) =>
        var t := path[|path| - 1];
        if t < net.transitions then Fire(net, IOTable(net)[t], m) else None
  }

  ghost predicate Reachable(net: Net, m: Marking)
  {
    exists path :: Run(net, path) == Some(m)
  }

  /** Each successor names a transition of the net and the marking its firing yields. */
  lemma SuccessorFires(net: Net, m: Marking, s: (TransitionId, Marking))
    requires s in Successors(net, IOTable(net), m)
    ensures s.0 < net.transitions && Fire(net, IOTable(net)[s.0], m) == Some(s.1)
  {
    var tio := IOTable(net);
    SuccessorsSpec(net, tio, m);
    var i :| 0 <= i < |tio| && tio[i].id == s.0 && Fire(net, tio[i], m) == Some(s.1);
  }

  /** A successor of a reachable marking is reachable in one more step. */
  lemma ReachableStep(net: Net, m: Marking, s: (TransitionId, Marking))
    requires Reachable(net, m)
    requires s in Successors(net, IOTable(net), m)
    ensures Reachable(net, s.1)
  {
    SuccessorFires(net, m, s);
    var path :| Run(net, path) == Some(m);
    var longer := path + [s.0];
    assert longer[..|longer| - 1] == path;
    assert Run(net, longer) == Some(s.1);
  }

  // ---------------------------------------------------------------------
  // The finite space the search stays in

  /** A count no place of the first `n` can exceed: the largest initial count or capacity among them. */
  function Ceiling(net: Net, n: nat): (c: nat)
    ensures forall p :: 0 <= p < n ==> Get(net.initial, p) <= c && net.capacity(p) <= c
  {
    if n == 0 then 0
    else
      var below := Ceiling(net, n - 1);
      var init := Get(net.initial, n - 1);
      var cap := net.capacity(n - 1);
      var here := if init > cap then init else cap;
      if below > here then below else here
  }

  /** Valid, only places below `places`, no count above `ceiling`. */
  predicate InBox(m: Marking, places: nat, ceiling: nat)
  {
    Valid(m) && forall q :: q in m.entries ==> q < places && m.entries[q] <= ceiling
  }

  /** Every marking in the box, built one place at a time. */
  ghost function Box(places: nat, ceiling: nat): set<Marking>
    decreases places
  {
    if places == 0 then {Empty}
    else
      var smaller := Box(places - 1, ceiling);
      var p := places - 1;
      set m, v | m in smaller && 0 <= v <= ceiling :: Set(m, p, v)
  }

  lemma {:induction false} BoxContains(m: Marking, places: nat, ceiling: nat)
    requires InBox(m, places, ceiling)
    ensures m in Box(places, ceiling)
    decreases places
  {
    if places == 0 {
      assert m.entries == map[];
    } else {
      var p := places - 1;
      var smaller := Set(m, p, 0);
      assert InBox(smaller, p, ceiling);
      BoxContains(smaller, p, ceiling);
      var v := Get(m, p);
      GetDeterminesMarking(Set(smaller, p, v), m);
      assert m == Set(smaller, p, v);
    }
  }

  /** Firing a transition of a well-formed net keeps a marking in the box. */
  lemma SuccessorInBox(net: Net, m: Marking, s: (TransitionId, Marking))
    requires WellFormed(net)
    requires InBox(m, net.places, Ceiling(net, net.places))
    requires s in Successors(net, IOTable(net), m)
    ensures InBox(s.1, net.places, Ceiling(net, net.places))
  {
    var c := Ceiling(net, net.places);
    SuccessorFires(net, m, s);
    var io := IOTable(net)[s.0];
    var r := s.1;
    FireSpec(net, io, m);
    IOTableWithin(net);
    forall q | q in r.entries ensures q < net.places && r.entries[q] <= c {
      assert Get(r, q) == r.entries[q] > 0;
      if q in io.outputs {
        assert Get(r, q) <= net.capacity(q);
      } else {
        SupplyOfAbsent(net, io.id, io.outputs, q);
        if q !in io.inputs {
          assert Get(r, q) == Get(m, q);
        }
        assert Get(r, q) <= Get(m, q);
        assert q in m.entries;
      }
    }
  }

  /** `box` holds every marking in the box of `net`. */
  ghost predicate Encloses(net: Net, box: set<Marking>)
  {
    forall m :: InBox(m, net.places, Ceiling(net, net.places)) ==> m in box
  }

  /** Some finite set of markings holds every marking in the box of `net`. */
  lemma BoxEncloses(net: Net)
    ensures exists box :: Encloses(net, box)
  {
    var ceiling := Ceiling(net, net.places);
    var box := Box(net.places, ceiling);
    forall m | InBox(m, net.places, ceiling) ensures m in box {
      BoxContains(m, net.places, ceiling);
    }
    assert Encloses(net, box);
  }

  /** How many markings of the box are still unknown. */
  ghost function Unexplored(box: set<Marking>, known: set<Marking>): nat
  {
    |box - known|
  }

  lemma ShrinkUnexplored(box: set<Marking>, known: set<Marking>, m: Marking)
    requires m in box && m !in known
    ensures Unexplored(box, known + {m}) == Unexplored(box, known) - 1
  {
    assert box - (known + {m}) == (box - known) - {m};
  }

  // ---------------------------------------------------------------------
  // The invariants of the search

  /** `conts` records `succ` with the ids `order` gives the resulting markings. */
  ghost predicate EdgesMatch(conts: seq<Continuation>, succ: seq<(TransitionId, Marking)>, order: seq<Marking>)
  {
    && |conts| == |succ|
    && forall i :: 0 <= i < |conts| ==>
         conts[i].transition == succ[i].0 && conts[i].target < |order| && order[conts[i].target] == succ[i].1
  }

  /** Every discovered marking is reachable and stays in the box; the initial marking is first. */
  ghost predicate Discovered(net: Net, order: seq<Marking>)
  {
    && |order| >= 1 && order[0] == net.initial
    && forall k :: 0 <= k < |order| ==>
         InBox(order[k], net.places, Ceiling(net, net.places)) && Reachable(net, order[k])
  }

  /** Row k carries id k, the k-th discovered marking and all of its firings. */
  ghost predicate RowsDone(net: Net, rows: seq<Row>, order: seq<Marking>)
  {
    && |rows| <= |order|
    && forall k :: 0 <= k < |rows| ==>
         && rows[k].id == k && rows[k].marking == order[k]
         && EdgesMatch(rows[k].continuations, Successors(net, IOTable(net), order[k]), order)
  }

  /** The queue holds the discovered markings from `start` on, in id order, with their firings. */
  ghost predicate QueueAhead(net: Net, queue: seq<Pending>, order: seq<Marking>, start: nat)
  {
    && start + |queue| == |order|
    && forall j :: 0 <= j < |queue| ==>
         queue[j] == Pending(start + j, order[start + j], Successors(net, IOTable(net), order[start + j]))
  }

  /** The bounds dominate every discovered marking and every marking one firing away. */
  ghost predicate BoundsCover(net: Net, order: seq<Marking>, bounds: seq<Bound>)
  {
    forall k :: 0 <= k < |order| ==>
      && Dominated(order[k], bounds)
      && forall s :: s in Successors(net, IOTable(net), order[k]) ==> Dominated(s.1, bounds)
  }

  /** Transition t fires from some marking of `order`. */
  ghost predicate FiredFrom(net: Net, t: TransitionId, order: seq<Marking>)
    requires t < net.transitions
  {
    exists k :: 0 <= k < |order| && Fire(net, IOTable(net)[t], order[k]).Some?
  }

  /** A transition is L1 exactly when it fired from a discovered marking, else L0. */
  ghost predicate LiveCover(net: Net, order: seq<Marking>, classes: seq<Live>)
  {
    && |classes| == net.transitions
    && forall t :: 0 <= t < net.transitions ==> classes[t] == if FiredFrom(net, t, order) then L1 else L0
  }

  /** The bounds before anything is discovered: every place at its initial token count. */
  function InitialBounds(net: Net): (r: seq<Bound>)
    ensures |r| == net.places
    ensures forall p :: 0 <= p < net.places ==> r[p] == Bounded(Get(net.initial, p))
  {
    seq(net.places, p requires 0 <= p < net.places => Bounded(Get(net.initial, p)))
  }

  /**
   * The bounds the search has accumulated once it has fired from every
   * marking of `order`, in discovery order, starting from the initial bounds.
   */
  function BoundsOver(net: Net, order: seq<Marking>): (r: seq<Bound>)
    ensures |r| == net.places
    decreases |order|
  {
    if order == [] then InitialBounds(net)
    else BoundsAfter(net, IOTable(net), order[|order| - 1], BoundsOver(net, order[..|order| - 1]))
  }

  /** Discovering one more marking folds its firings into the bounds. */
  lemma BoundsOverStep(net: Net, order: seq<Marking>, m: Marking)
    ensures BoundsOver(net, order + [m]) == BoundsAfter(net, IOTable(net), m, BoundsOver(net, order))
  {
    assert (order + [m])[..|order|] == order;
  }

  /**
   * A place whose accumulated bound is positive was marked initially, is
   * marked in some discovered marking, or receives a positive weight from
   * some transition.
   */
  lemma {:induction false} BoundsOverSource(net: Net, order: seq<Marking>)
    ensures forall p :: 0 <= p < net.places && Positive(BoundsOver(net, order)[p]) ==>
              || Get(net.initial, p) > 0
              || (exists k :: 0 <= k < |order| && Get(order[k], p) > 0)
              || exists t :: 0 <= t < net.transitions && p in IOTable(net)[t].outputs
                             && net.weight(TransitionPlace(t, p)) > 0
    decreases |order|
  {
    if order != [] {
      var prefix := order[..|order| - 1];
      var m := order[|order| - 1];
      var tio := IOTable(net);
      BoundsOverSource(net, prefix);
      BoundsAfterSource(net, tio, m, BoundsOver(net, prefix));
      forall p | 0 <= p < net.places && Positive(BoundsOver(net, order)[p])
        ensures || Get(net.initial, p) > 0
                || (exists k :: 0 <= k < |order| && Get(order[k], p) > 0)
                || exists t :: 0 <= t < net.transitions && p in tio[t].outputs
                               && net.weight(TransitionPlace(t, p)) > 0
      {
        if exists k :: 0 <= k < |prefix| && Get(prefix[k], p) > 0 {
          var k :| 0 <= k < |prefix| && Get(prefix[k], p) > 0;
          assert order[k] == prefix[k];
        }
        if Get(m, p) > 0 {
          assert Get(order[|order| - 1], p) > 0;
        }
        if exists i :: 0 <= i < |tio| && p in tio[i].outputs && net.weight(TransitionPlace(tio[i].id, p)) > 0 {
          var i :| 0 <= i < |tio| && p in tio[i].outputs && net.weight(TransitionPlace(tio[i].id, p)) > 0;
          assert tio[i].id == i;
        }
      }
    }
  }

  lemma EdgesMatchExtend(conts: seq<Continuation>, succ: seq<(TransitionId, Marking)>, order: seq<Marking>, m: Marking)
    requires EdgesMatch(conts, succ, order)
    ensures EdgesMatch(conts, succ, order + [m])
  {
    forall i | 0 <= i < |conts| ensures (order + [m])[conts[i].target] == succ[i].1 {
      assert (order + [m])[conts[i].target] == order[conts[i].target];
    }
  }

  lemma EdgesMatchAppend(conts: seq<Continuation>, succ: seq<(TransitionId, Marking)>, order: seq<Marking>,
                         t: TransitionId, m: Marking, target: nat)
    requires EdgesMatch(conts, succ, order) && target < |order| && order[target] == m
    ensures EdgesMatch(conts + [Continuation(t, target)], succ + [(t, m)], order)
  {
    var conts', succ' := conts + [Continuation(t, target)], succ + [(t, m)];
    forall i | 0 <= i < |conts'|
      ensures conts'[i].transition == succ'[i].0 && conts'[i].target < |order| && order[conts'[i].target] == succ'[i].1
    {
      if i < |conts| {
        assert conts'[i] == conts[i] && succ'[i] == succ[i];
      }
    }
  }

  lemma DiscoveredExtend(net: Net, order: seq<Marking>, m: Marking)
    requires Discovered(net, order)
    requires InBox(m, net.places, Ceiling(net, net.places)) && Reachable(net, m)
    ensures Discovered(net, order + [m])
  {
    var order' := order + [m];
    forall k | 0 <= k < |order'|
      ensures InBox(order'[k], net.places, Ceiling(net, net.places)) && Reachable(net, order'[k])
    {
      if k < |order| {
        assert order'[k] == order[k];
      }
    }
  }

  lemma QueueAheadExtend(net: Net, queue: seq<Pending>, order: seq<Marking>, start: nat, m: Marking)
    requires QueueAhead(net, queue, order, start)
    ensures QueueAhead(net, queue + [Pending(|order|, m, Successors(net, IOTable(net), m))], order + [m], start)
  {
    var queue', order' := queue + [Pending(|order|, m, Successors(net, IOTable(net), m))], order + [m];
    forall j | 0 <= j < |queue'|
      ensures queue'[j] == Pending(start + j, order'[start + j], Successors(net, IOTable(net), order'[start + j]))
    {
      if j < |queue| {
        assert queue'[j] == queue[j] && order'[start + j] == order[start + j];
      }
    }
  }

  lemma RowsDoneExtend(net: Net, rows: seq<Row>, order: seq<Marking>, m: Marking)
    requires RowsDone(net, rows, order)
    ensures RowsDone(net, rows, order + [m])
  {
    forall k | 0 <= k < |rows|
      ensures EdgesMatch(rows[k].continuations, Successors(net, IOTable(net), (order + [m])[k]), order + [m])
    {
      assert (order + [m])[k] == order[k];
      EdgesMatchExtend(rows[k].continuations, Successors(net, IOTable(net), order[k]), order, m);
    }
  }

  lemma RowsDoneAppend(net: Net, rows: seq<Row>, order: seq<Marking>, row: Row)
    requires RowsDone(net, rows, order) && |rows| < |order|
    requires row.id == |rows| && row.marking == order[|rows|]
    requires EdgesMatch(row.continuations, Successors(net, IOTable(net), row.marking), order)
    ensures RowsDone(net, rows + [row], order)
  {
    var rows' := rows + [row];
    forall k | 0 <= k < |rows'|
      ensures rows'[k].id == k && rows'[k].marking == order[k]
      ensures EdgesMatch(rows'[k].continuations, Successors(net, IOTable(net), order[k]), order)
    {
      if k < |rows| {
        assert rows'[k] == rows[k];
      }
    }
  }

  /** Discovering `m` and firing from it keeps the bounds covering everything discovered. */
  lemma BoundsStep(net: Net, order: seq<Marking>, m: Marking, bounds: seq<Bound>)
    requires WellFormed(net) && |bounds| == net.places
    requires BoundsCover(net, order, bounds) && Dominated(m, bounds)
    ensures OutputsWithin(IOTable(net), |bounds|)
    ensures Grows(bounds, BoundsAfter(net, IOTable(net), m, bounds))
    ensures BoundsCover(net, order + [m], BoundsAfter(net, IOTable(net), m, bounds))
  {
    var tio := IOTable(net);
    IOTableWithin(net);
    var after := BoundsAfter(net, tio, m, bounds);
    BoundsAfterDominates(net, tio, m, bounds);
    var order' := order + [m];
    forall k | 0 <= k < |order'|
      ensures Dominated(order'[k], after)
      ensures forall s :: s in Successors(net, tio, order'[k]) ==> Dominated(s.1, after)
    {
      if k < |order| {
        assert order'[k] == order[k];
        DominatedGrows(order[k], bounds, after);
        forall s | s in Successors(net, tio, order[k]) ensures Dominated(s.1, after) {
          DominatedGrows(s.1, bounds, after);
        }
      } else {
        DominatedGrows(m, bounds, after);
      }
    }
  }

  /** Discovering `m` and firing from it keeps the liveness classes exact. */
  lemma LivenessStep(net: Net, order: seq<Marking>, m: Marking, classes: seq<Live>)
    requires LiveCover(net, order, classes)
    ensures LiveCover(net, order + [m], ClassesAfter(net, IOTable(net), m, classes))
  {
    var tio := IOTable(net);
    var order' := order + [m];
    ClassesAfterSpec(net, tio, m, classes);
    forall t | 0 <= t < net.transitions
      ensures ClassesAfter(net, tio, m, classes)[t] == if FiredFrom(net, t, order') then L1 else L0
    {
      var fires := exists i :: 0 <= i < |tio| && tio[i].id == t && Fire(net, tio[i], m).Some?;
      assert fires <==> Fire(net, tio[t], m).Some?;
      assert FiredFrom(net, t, order') <==> FiredFrom(net, t, order) || Fire(net, tio[t], m).Some? by {
        if FiredFrom(net, t, order) {
          var k :| 0 <= k < |order| && Fire(net, tio[t], order[k]).Some?;
          assert order'[k] == order[k];
        }
        if Fire(net, tio[t], m).Some? {
          assert order'[|order|] == m;
        }
        if FiredFrom(net, t, order') {
          var k :| 0 <= k < |order'| && Fire(net, tio[t], order'[k]).Some?;
          if k < |order| {
            assert order'[k] == order[k];
          }
        }
      }
    }
  }

  /** What the completed search guarantees about its result. */
  ghost predicate Explored(net: Net, a: Analysis)
  {
    var order := RowMarkings(a.rows);
    && Discovered(net, order)
    && (forall j, k :: 0 <= j < k < |order| ==> order[j] != order[k])
    && RowsDone(net, a.rows, order)
    && order == BreadthFirst(net, |order|)
    && a.bounds == BoundsOver(net, order) && BoundsCover(net, order, a.bounds)
    && LiveCover(net, order, a.classes)
  }

  /** The markings of the rows, in row order. */
  function RowMarkings(rows: seq<Row>): (order: seq<Marking>)
    ensures |order| == |rows| && forall k :: 0 <= k < |rows| ==> order[k] == rows[k].marking
  {
    seq(|rows|, k requires 0 <= k < |rows| => rows[k].marking)
  }

  // ---------------------------------------------------------------------
  // The discovery order

  /** `order` with `m` appended, unless `m` is already listed. */
  function Admit(order: seq<Marking>, m: Marking): (r: seq<Marking>)
    ensures order <= r && m in r && |r| <= |order| + 1
  {
    if m in order then order else order + [m]
  }

  /**
   * The discovery order after resolving `branches` in turn: every result not
   * listed yet is appended, in the order it first appears.
   */
  function Grow(order: seq<Marking>, branches: seq<(TransitionId, Marking)>): (r: seq<Marking>)
    ensures |order| <= |r| && r[..|order|] == order
    decreases |branches|
  {
    if branches == [] then order
    else Admit(Grow(order, branches[..|branches| - 1]), branches[|branches| - 1].1)
  }

  /** Resolving one more branch admits its result. */
  lemma GrowStep(order: seq<Marking>, branches: seq<(TransitionId, Marking)>, b: (TransitionId, Marking))
    ensures Grow(order, branches + [b]) == Admit(Grow(order, branches), b.1)
  {
    assert (branches + [b])[..|branches|] == branches;
  }

  /**
   * The discovery order of the breadth-first search once the first `n`
   * discovered markings have been dequeued and expanded: it starts with the
   * initial marking, and expanding marking `k` grows it by the results of
   * its firings. When `n` reaches the length, the queue has run dry and the
   * order no longer changes.
   */
  function BreadthFirst(net: Net, n: nat): (r: seq<Marking>)
    ensures |r| >= 1 && r[0] == net.initial
  {
    if n == 0 then [net.initial]
    else
      var order := BreadthFirst(net, n - 1);
      if n - 1 < |order| then Grow(order, Successors(net, IOTable(net), order[n - 1])) else order
  }

  /** Expanding the next discovered marking grows the order by the results of its firings. */
  lemma BreadthFirstNext(net: Net, n: nat)
    requires n < |BreadthFirst(net, n)|
    ensures var order := BreadthFirst(net, n);
            BreadthFirst(net, n + 1) == Grow(order, Successors(net, IOTable(net), order[n]))
  {
  }

  /** Once every discovered marking is expanded, expanding further changes nothing. */
  lemma {:induction false} BreadthFirstSettles(net: Net, n: nat, n': nat)
    requires |BreadthFirst(net, n)| == n <= n'
    ensures BreadthFirst(net, n') == BreadthFirst(net, n)
    decreases n'
  {
    if n' > n {
      BreadthFirstSettles(net, n, n' - 1);
      var order := BreadthFirst(net, n' - 1);
      assert |order| == n <= n' - 1;
      assert BreadthFirst(net, n') == order;
    }
  }

  /** Two continuation lists matching the same firings against a list without repeats are equal. */
  lemma EdgesMatchUnique(conts: seq<Continuation>, conts': seq<Continuation>, succ: seq<(TransitionId, Marking)>,
                         order: seq<Marking>)
    requires EdgesMatch(conts, succ, order) && EdgesMatch(conts', succ, order)
    requires forall j, k :: 0 <= j < k < |order| ==> order[j] != order[k]
    ensures conts == conts'
  {
    forall i | 0 <= i < |conts| ensures conts[i] == conts'[i] {
      var (j, k) := (conts[i].target, conts'[i].target);
      assert order[j] == order[k];
      assert !(j < k) && !(k < j);
    }
  }

  /** Two breadth-first orders that have both run dry are the same order. */
  lemma SettledOrdersAgree(net: Net, order: seq<Marking>, order': seq<Marking>)
    requires order == BreadthFirst(net, |order|) && order' == BreadthFirst(net, |order'|)
    ensures order == order'
  {
    if |order| <= |order'| {
      BreadthFirstSettles(net, |order|, |order'|);
    } else {
      BreadthFirstSettles(net, |order'|, |order|);
    }
  }

  /** The finished rows over a list without repeats are determined by the list. */
  lemma RowsAgree(net: Net, rows: seq<Row>, rows': seq<Row>, order: seq<Marking>)
    requires RowsDone(net, rows, order) && RowsDone(net, rows', order) && |rows| == |rows'|
    requires forall j, k :: 0 <= j < k < |order| ==> order[j] != order[k]
    ensures rows == rows'
  {
    forall k | 0 <= k < |rows| ensures rows[k] == rows'[k] {
      EdgesMatchUnique(rows[k].continuations, rows'[k].continuations,
                       Successors(net, IOTable(net), order[k]), order);
    }
  }

  /** The liveness classes are determined by the discovered markings. */
  lemma ClassesAgree(net: Net, order: seq<Marking>, classes: seq<Live>, classes': seq<Live>)
    requires LiveCover(net, order, classes) && LiveCover(net, order, classes')
    ensures classes == classes'
  {
  }

  /**
   * The result of the search is determined by the net: two analyses that
   * both satisfy the explored-net guarantee are the same analysis.
   */
  lemma ExploredUnique(net: Net, a: Analysis, a': Analysis)
    requires Explored(net, a) && Explored(net, a')
    ensures a == a'
  {
    var order := RowMarkings(a.rows);
    SettledOrdersAgree(net, order, RowMarkings(a'.rows));
    RowsAgree(net, a.rows, a'.rows, order);
    ClassesAgree(net, order, a.classes, a'.classes);
  }

  // ---------------------------------------------------------------------
  // The search

  /**
   * The state of the search between steps: the table, the bounds and the
   * classes cover exactly the discovered markings, the rows before `start`
   * are finished and the queue holds the discovered markings from `start` on.
   */
  ghost predicate Searching(net: Net, tio: seq<TransitionIO>, markings: Markings, boundedness: Boundedness,
                            liveness: Liveness, rows: seq<Row>, queue: seq<Pending>, start: nat)
    reads markings, boundedness, liveness
  {
    && WellFormed(net) && tio == IOTable(net)
    && markings.Valid() && Discovered(net, markings.order) && RowsDone(net, rows, markings.order)
    && QueueAhead(net, queue, markings.order, start)
    && boundedness.bounds == BoundsOver(net, markings.order)
    && BoundsCover(net, markings.order, boundedness.bounds)
    && LiveCover(net, markings.order, liveness.classes)
  }
}
