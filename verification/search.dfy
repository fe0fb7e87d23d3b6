/**
 * The search itself: the methods that drive the breadth-first construction
 * of the reachability graph over the marking table, the bounds and the
 * liveness classes.
 */
module Search {
  import opened Wrappers
  import opened MarkingModel
  import opened PetriNets
  import opened Lattices
  import opened MarkingTable
  import opened Firing
  import opened Exploration

  /** Extending a prefix by one element. */
  lemma TakeOneMore<T>(s: seq<T>, i: nat)
    requires i < |s|
    ensures s[..i + 1] == s[..i] + [s[i]]
  {
  }

  /** The prefix as long as the sequence is the sequence. */
  lemma WholePrefix<T>(s: seq<T>)
    ensures s[..|s|] == s
  {
  }

  /** The table and the queue have only grown from `order` and `queue`. */
  ghost predicate Extends(order: seq<Marking>, queue: seq<Pending>, order': seq<Marking>, queue': seq<Pending>)
  {
    order <= order' && queue <= queue'
  }

  /** Growing twice is growing. */
  lemma ExtendsTransitive(order: seq<Marking>, queue: seq<Pending>, order': seq<Marking>, queue': seq<Pending>,
                          order'': seq<Marking>, queue'': seq<Pending>)
    requires Extends(order, queue, order', queue') && Extends(order', queue', order'', queue'')
    ensures Extends(order, queue, order'', queue'')
  {
    assert order == order''[..|order|] by {
      assert order'[..|order|] == order''[..|order'|][..|order|];
    }
    assert queue == queue''[..|queue|] by {
      assert queue'[..|queue|] == queue''[..|queue'|][..|queue|];
    }
  }

  /**
   * Numbers a newly discovered marking and fires every transition from it,
   * keeping the table, the bounds and the liveness classes in step.
   */
  method Discover(net: Net, tio: seq<TransitionIO>, markings: Markings, boundedness: Boundedness, liveness: Liveness,
                  m: Marking)
    returns (id: nat, branches: seq<(TransitionId, Marking)>)
    requires WellFormed(net) && tio == IOTable(net)
    requires markings.Valid() && m !in markings.ids
    requires boundedness.bounds == BoundsOver(net, markings.order)
    requires BoundsCover(net, markings.order, boundedness.bounds) && Dominated(m, boundedness.bounds)
    requires LiveCover(net, markings.order, liveness.classes)
    modifies markings, boundedness, liveness
    ensures markings.Valid() && markings.order == old(markings.order) + [m] && id == |old(markings.order)|
    ensures markings.ids.Keys == old(markings.ids.Keys) + {m}
    ensures branches == Successors(net, tio, m)
    ensures boundedness.bounds == BoundsAfter(net, tio, m, old(boundedness.bounds)) == BoundsOver(net, markings.order)
    ensures BoundsCover(net, markings.order, boundedness.bounds)
    ensures LiveCover(net, markings.order, liveness.classes)
  {
    ghost var order := markings.order;
    id := markings.Remember(m);
    BoundsStep(net, order, m, boundedness.bounds);
    BoundsOverStep(net, order, m);
    LivenessStep(net, order, m, liveness.classes);
    IOTableWithin(net);
    branches := FireTransitions(net, tio, m, boundedness, liveness);
  }

  /** Remembers and fires the initial marking, which becomes the only queued entry. */
  method Begin(net: Net, tio: seq<TransitionIO>, markings: Markings, boundedness: Boundedness, liveness: Liveness)
    returns (queue: seq<Pending>)
    requires WellFormed(net) && tio == IOTable(net)
    requires markings.Valid() && markings.order == []
    requires |boundedness.bounds| == net.places
    requires forall p :: 0 <= p < net.places ==> boundedness.bounds[p] == Bounded(Get(net.initial, p))
    requires |liveness.classes| == net.transitions
    requires forall t :: 0 <= t < net.transitions ==> liveness.classes[t] == L0
    modifies markings, boundedness, liveness
    ensures Searching(net, tio, markings, boundedness, liveness, [], queue, 0)
    ensures markings.order == [net.initial] && queue == [Pending(0, net.initial, Successors(net, tio, net.initial))]
  {
    assert InBox(net.initial, net.places, Ceiling(net, net.places)) by {
      forall q | q in net.initial.entries ensures net.initial.entries[q] <= Ceiling(net, net.places) {
        assert Get(net.initial, q) == net.initial.entries[q];
      }
    }
    assert Run(net, []) == Some(net.initial);
    assert boundedness.bounds == InitialBounds(net) == BoundsOver(net, []);
    assert Dominated(net.initial, boundedness.bounds) by {
      forall q | 0 <= q < |boundedness.bounds| ensures Le(Bounded(Get(net.initial, q)), boundedness.bounds[q]) {
        CmpIsTotalOrder(Bounded(Get(net.initial, q)), boundedness.bounds[q], boundedness.bounds[q]);
      }
    }
    var id, first := Discover(net, tio, markings, boundedness, liveness, net.initial);
    queue := [Pending(id, net.initial, first)];
  }

  /**
   * The outcome of resolving `branch` against the table `ids` numbering
   * `order`: a known result adds a continuation to its id and changes
   * nothing else; a new result is numbered next, appended to the table and
   * queued with its own firings.
   */
  ghost predicate Resolved(net: Net, tio: seq<TransitionIO>, ids: map<Marking, nat>, order: seq<Marking>,
                           continuations: seq<Continuation>, queue: seq<Pending>, branch: (TransitionId, Marking),
                           order': seq<Marking>, continuations': seq<Continuation>, queue': seq<Pending>)
  {
    if branch.1 in ids then
      && order' == order && queue' == queue
      && continuations' == continuations + [Continuation(branch.0, ids[branch.1])]
    else
      && order' == order + [branch.1]
      && queue' == queue + [Pending(|order|, branch.1, Successors(net, tio, branch.1))]
      && continuations' == continuations + [Continuation(branch.0, |order|)]
  }

  /**
   * Resolves one firing of a discovered marking to the id of its result,
   * discovering and queueing the result when it has not been seen before.
   */
  method ResolveBranch(net: Net, tio: seq<TransitionIO>, markings: Markings, boundedness: Boundedness, liveness: Liveness,
                       ghost rows: seq<Row>, ghost parent: nat, branch: (TransitionId, Marking),
                       ghost done: seq<(TransitionId, Marking)>, continuations: seq<Continuation>, queue: seq<Pending>,
                       ghost box: set<Marking>)
    returns (continuations': seq<Continuation>, queue': seq<Pending>)
    requires Searching(net, tio, markings, boundedness, liveness, rows, queue, |rows| + 1) && Encloses(net, box)
    requires parent < |markings.order| && branch in Successors(net, tio, markings.order[parent])
    requires EdgesMatch(continuations, done, markings.order)
    modifies markings, boundedness, liveness
    ensures Searching(net, tio, markings, boundedness, liveness, rows, queue', |rows| + 1)
    ensures parent < |markings.order| && markings.order[parent] == old(markings.order[parent])
    ensures EdgesMatch(continuations', done + [branch], markings.order)
    ensures Extends(old(markings.order), queue, markings.order, queue')
    ensures Resolved(net, tio, old(markings.ids), old(markings.order), continuations, queue, branch,
                     markings.order, continuations', queue')
    ensures Unexplored(box, markings.ids.Keys) <= old(Unexplored(box, markings.ids.Keys))
    ensures |queue'| + Unexplored(box, markings.ids.Keys) == |queue| + old(Unexplored(box, markings.ids.Keys))
  {
    var (t, resulting) := branch;
    var existing := markings.LookUp(resulting);
    if existing.Some? {
      EdgesMatchAppend(continuations, done, markings.order, t, resulting, existing.value);
      continuations' := continuations + [Continuation(t, existing.value)];
      queue' := queue;
    } else {
      ghost var order := markings.order;
      ghost var m := order[parent];
      ReachableStep(net, m, branch);
      SuccessorInBox(net, m, branch);
      ShrinkUnexplored(box, markings.ids.Keys, resulting);
      RowsDoneExtend(net, rows, order, resulting);
      DiscoveredExtend(net, order, resulting);
      QueueAheadExtend(net, queue, order, |rows| + 1, resulting);
      EdgesMatchExtend(continuations, done, order, resulting);
      EdgesMatchAppend(continuations, done, order + [resulting], t, resulting, |order|);
      assert Dominated(resulting, boundedness.bounds);

      var newId, next := Discover(net, tio, markings, boundedness, liveness, resulting);
      continuations' := continuations + [Continuation(t, newId)];
      queue' := queue + [Pending(newId, resulting, next)];
      assert markings.order[parent] == order[parent];
    }
  }

  /**
   * The state of the search part-way through the firings `done` of the
   * dequeued `entry`: the search invariant holds, the table and the queue
   * have only grown, `continuations` resolves `done`, and every marking
   * added to the table was added to the queue too.
   */
  ghost predicate Expanding(net: Net, tio: seq<TransitionIO>, markings: Markings, boundedness: Boundedness,
                            liveness: Liveness, rows: seq<Row>, entry: Pending, done: seq<(TransitionId, Marking)>,
                            continuations: seq<Continuation>, order: seq<Marking>, queue: seq<Pending>,
                            queue': seq<Pending>, box: set<Marking>, unexplored: nat)
    reads markings, boundedness, liveness
  {
    && Searching(net, tio, markings, boundedness, liveness, rows, queue', |rows| + 1)
    && Extends(order, queue, markings.order, queue') && markings.order == Grow(order, done)
    && |rows| < |markings.order| && entry.marking == markings.order[|rows|]
    && EdgesMatch(continuations, done, markings.order)
    && Unexplored(box, markings.ids.Keys) <= unexplored
    && |queue'| + Unexplored(box, markings.ids.Keys) == |queue| + unexplored
  }

  /**
   * Resolves every firing of a dequeued marking to the id of its result,
   * discovering and queueing the results not seen before.
   */
  method ExpandEntry(net: Net, tio: seq<TransitionIO>, markings: Markings, boundedness: Boundedness, liveness: Liveness,
                     ghost rows: seq<Row>, entry: Pending, queue: seq<Pending>, ghost box: set<Marking>)
    returns (continuations: seq<Continuation>, queue': seq<Pending>)
    requires Searching(net, tio, markings, boundedness, liveness, rows, queue, |rows| + 1) && Encloses(net, box)
    requires |rows| < |markings.order| && entry.marking == markings.order[|rows|]
    requires entry.branches == Successors(net, tio, entry.marking)
    modifies markings, boundedness, liveness
    ensures Searching(net, tio, markings, boundedness, liveness, rows, queue', |rows| + 1)
    ensures |rows| < |markings.order| && entry.marking == markings.order[|rows|]
    ensures EdgesMatch(continuations, entry.branches, markings.order)
    ensures Extends(old(markings.order), queue, markings.order, queue')
    ensures markings.order == Grow(old(markings.order), entry.branches)
    ensures Unexplored(box, markings.ids.Keys) <= old(Unexplored(box, markings.ids.Keys))
    ensures |queue'| + Unexplored(box, markings.ids.Keys) == |queue| + old(Unexplored(box, markings.ids.Keys))
  {
    continuations := [];
    queue' := queue;
    ghost var unexplored := Unexplored(box, markings.ids.Keys);
    ghost var order := markings.order;
    for i := 0 to |entry.branches|
      invariant Expanding(net, tio, markings, boundedness, liveness, rows, entry, entry.branches[..i], continuations,
                          order, queue, queue', box, unexplored)
    {
      TakeOneMore(entry.branches, i);
      ghost var (order', queue'') := (markings.order, queue');
      KeyIffListed(markings, entry.branches[i].1);
      continuations, queue' := ResolveBranch(net, tio, markings, boundedness, liveness, rows, |rows|, entry.branches[i],
                                             entry.branches[..i], continuations, queue', box);
      ExtendsTransitive(order, queue, order', queue'', markings.order, queue');
      GrowStep(order, entry.branches[..i], entry.branches[i]);
    }
    WholePrefix(entry.branches);
  }

  /** Dequeues the next marking, resolves each of its firings and emits its row. */
  method Visit(net: Net, tio: seq<TransitionIO>, markings: Markings, boundedness: Boundedness, liveness: Liveness,
               rows: seq<Row>, queue: seq<Pending>, ghost box: set<Marking>)
    returns (rows': seq<Row>, queue': seq<Pending>)
    requires Searching(net, tio, markings, boundedness, liveness, rows, queue, |rows|) && Encloses(net, box)
    requires queue != []
    modifies markings, boundedness, liveness
    ensures Searching(net, tio, markings, boundedness, liveness, rows', queue', |rows'|)
    ensures |rows| < |old(markings.order)| && |rows'| == |rows| + 1
    ensures rows' == rows + [Row(|rows|, old(markings.order)[|rows|], rows'[|rows|].continuations)]
    ensures old(markings.order) <= markings.order && queue[1..] <= queue'
    ensures markings.order == Grow(old(markings.order), Successors(net, tio, old(markings.order)[|rows|]))
    ensures Unexplored(box, markings.ids.Keys) <= old(Unexplored(box, markings.ids.Keys))
    ensures |queue'| + Unexplored(box, markings.ids.Keys) < |queue| + old(Unexplored(box, markings.ids.Keys))
  {
    var entry := queue[0];
    assert entry == Pending(|rows|, markings.order[|rows|], Successors(net, tio, markings.order[|rows|]));
    var continuations;
    continuations, queue' := ExpandEntry(net, tio, markings, boundedness, liveness, rows, entry, queue[1..], box);
    RowsDoneAppend(net, rows, markings.order, Row(entry.id, entry.marking, continuations));
    rows' := rows + [Row(entry.id, entry.marking, continuations)];
  }

  /** A search whose queue has run dry has explored the net. */
  lemma {:induction false} SearchComplete(net: Net, tio: seq<TransitionIO>, markings: Markings, boundedness: Boundedness,
                                           liveness: Liveness, rows: seq<Row>)
    requires Searching(net, tio, markings, boundedness, liveness, rows, [], |rows|)
    requires markings.order == BreadthFirst(net, |rows|)
    ensures Explored(net, Analysis(rows, boundedness.bounds, liveness.classes))
  {
    assert RowMarkings(rows) == markings.order;
    forall j, k | 0 <= j < k < |rows| ensures markings.order[j] != markings.order[k] {
      assert markings.ids[markings.order[j]] == j;
    }
  }

  /**
   * Dequeues and expands markings until the queue runs dry, emitting one row
   * per dequeued marking; the table keeps the breadth-first discovery order.
   */
  method DrainQueue(net: Net, tio: seq<TransitionIO>, markings: Markings, boundedness: Boundedness,
                    liveness: Liveness, queue: seq<Pending>, ghost box: set<Marking>)
    returns (rows: seq<Row>)
    requires Searching(net, tio, markings, boundedness, liveness, [], queue, 0) && Encloses(net, box)
    requires markings.order == BreadthFirst(net, 0)
    modifies markings, boundedness, liveness
    ensures Searching(net, tio, markings, boundedness, liveness, rows, [], |rows|)
    ensures markings.order == BreadthFirst(net, |rows|)
  {
    rows := [];
    var queue := queue;
    while queue != []
      invariant Searching(net, tio, markings, boundedness, liveness, rows, queue, |rows|)
      invariant markings.order == BreadthFirst(net, |rows|)
      decreases Unexplored(box, markings.ids.Keys), |queue|
    {
      BreadthFirstNext(net, |rows|);
      rows, queue := Visit(net, tio, markings, boundedness, liveness, rows, queue, box);
    }
  }

  /**
   * Builds the reachability graph breadth-first from the initial marking.
   * The search always ends: capacities are finite, so only finitely many
   * markings can be discovered.
   */
  method ReachabilityAnalysis(net: Net) returns (a: Analysis)
    requires WellFormed(net)
    ensures Explored(net, a)
  {
    var boundedness := new Boundedness(net);
    var liveness := new Liveness(net);
    var markings := new Markings();
    var tio := TransitionIOs(net);
    var queue := Begin(net, tio, markings, boundedness, liveness);
    BoxEncloses(net);
    ghost var box :| Encloses(net, box);
    var rows := DrainQueue(net, tio, markings, boundedness, liveness, queue, box);
    SearchComplete(net, tio, markings, boundedness, liveness, rows);
    a := Analysis(rows, boundedness.bounds, liveness.classes);
  }
}
