/**
 * The verdicts read off a completed analysis: the deadlocked markings and
 * how to interpret them, the bound of the whole net, safeness, liveness,
 * quasi-liveness and soundness, and the grouping of transitions by class.
 */
module Verdicts {
  import opened Wrappers
  import opened MarkingModel
  import opened PetriNets
  import opened Lattices
  import opened Firing
  import opened Exploration

  /** A deadlock is final (the desired end state) or a plain deadlock. */
  datatype Interpretation = Final | Deadlock

  // ---------------------------------------------------------------------
  // Deadlocks

  /** Some arc leads from place `p` into a transition. */
  predicate HasOutgoing(arcs: seq<Arc>, p: PlaceId)
  {
    exists i :: 0 <= i < |arcs| && arcs[i].PlaceTransition? && arcs[i].place == p
  }

  /** Every stored place other than `p` holds no token. */
  predicate OnlyHolder(m: Marking, p: PlaceId)
  {
    forall q :: q in m.entries && q != p ==> m.entries[q] == 0
  }

  /**
   * A deadlocked marking is final when exactly one place holds tokens, it
   * holds exactly one, and no arc leaves that place.
   */
  function Interpret(net: Net, m: Marking): (r: Interpretation)
    ensures r == Final ==> exists p :: Get(m, p) == 1 && !HasOutgoing(net.arcs, p)
  {
    if exists p | p in m.entries :: m.entries[p] == 1 && OnlyHolder(m, p) && !HasOutgoing(net.arcs, p)
    then Final
    else Deadlock
  }

  lemma InterpretSpec(net: Net, m: Marking)
    ensures Interpret(net, m) == Final <==>
              exists p :: && Get(m, p) == 1
                          && (forall q :: q != p ==> Get(m, q) == 0)
                          && (forall t :: PlaceTransition(p, t) !in net.arcs)
  {
    if Interpret(net, m) == Final {
      var p :| p in m.entries && m.entries[p] == 1 && OnlyHolder(m, p) && !HasOutgoing(net.arcs, p);
      assert Get(m, p) == 1;
    } else {
      forall p | Get(m, p) == 1 && (forall q :: q != p ==> Get(m, q) == 0)
        ensures exists t :: PlaceTransition(p, t) in net.arcs
      {
        assert p in m.entries && m.entries[p] == 1;
        forall q | q in m.entries && q != p ensures m.entries[q] == 0 {
          assert Get(m, q) == 0;
        }
        assert HasOutgoing(net.arcs, p);
        var i :| 0 <= i < |net.arcs| && net.arcs[i].PlaceTransition? && net.arcs[i].place == p;
        assert net.arcs[i] == PlaceTransition(p, net.arcs[i].transition);
      }
    }
  }

  /** The rows without continuations, each with its interpretation, in row order. */
  function Deadlocks(net: Net, rows: seq<Row>): (r: seq<(nat, Interpretation)>)
    ensures |r| <= |rows|
  {
    if rows == [] then []
    else
      (if rows[0].continuations == [] then [(rows[0].id, Interpret(net, rows[0].marking))] else [])
      + Deadlocks(net, rows[1..])
  }

  lemma {:induction false} DeadlocksSpec(net: Net, rows: seq<Row>)
    ensures |Deadlocks(net, rows)| <= |rows|
    ensures forall e :: e in Deadlocks(net, rows) <==>
              exists k :: 0 <= k < |rows| && rows[k].continuations == [] && e == (rows[k].id, Interpret(net, rows[k].marking))
  {
    if rows != [] {
      var rest := rows[1..];
      DeadlocksSpec(net, rest);
      forall e | exists k :: 0 <= k < |rows| && rows[k].continuations == [] && e == (rows[k].id, Interpret(net, rows[k].marking))
        ensures e in Deadlocks(net, rows)
      {
        var k :| 0 <= k < |rows| && rows[k].continuations == [] && e == (rows[k].id, Interpret(net, rows[k].marking));
        if k > 0 {
          assert rest[k - 1] == rows[k];
        }
      }
      forall e | e in Deadlocks(net, rows)
        ensures exists k :: 0 <= k < |rows| && rows[k].continuations == [] && e == (rows[k].id, Interpret(net, rows[k].marking))
      {
        if e !in Deadlocks(net, rest) {
          assert rows[0].continuations == [] && e == (rows[0].id, Interpret(net, rows[0].marking));
        } else {
          var k :| 0 <= k < |rest| && rest[k].continuations == [] && e == (rest[k].id, Interpret(net, rest[k].marking));
          assert rows[k + 1] == rest[k];
        }
      }
    }
  }

  /** In an explored net, a row has no continuations exactly when no transition is enabled at its marking. */
  lemma DeadlockIsStuck(net: Net, a: Analysis, k: nat)
    requires Explored(net, a) && k < |a.rows|
    ensures a.rows[k].continuations == [] <==>
              forall t :: 0 <= t < net.transitions ==> Fire(net, IOTable(net)[t], a.rows[k].marking).None?
  {
    var tio := IOTable(net);
    var order := RowMarkings(a.rows);
    var m := a.rows[k].marking;
    assert order[k] == m;
    var succ := Successors(net, tio, m);
    assert |a.rows[k].continuations| == |succ|;
    SuccessorsSpec(net, tio, m);
    if exists t :: 0 <= t < net.transitions && Fire(net, tio[t], m).Some? {
      var t :| 0 <= t < net.transitions && Fire(net, tio[t], m).Some?;
      assert (tio[t].id, Fire(net, tio[t], m).value) in succ;
    }
    if succ != [] {
      assert succ[0] in succ;
      var i :| 0 <= i < |tio| && tio[i].id == succ[0].0 && Fire(net, tio[i], m) == Some(succ[0].1);
    }
  }

  // ---------------------------------------------------------------------
  // Reachability of the listed markings

  /** Every marking a firing sequence reaches is listed in the rows. */
  lemma {:induction false} RunListed(net: Net, a: Analysis, path: seq<TransitionId>)
    requires Explored(net, a)
    ensures Run(net, path).Some? ==> Run(net, path).value in RowMarkings(a.rows)
    decreases |path|
  {
    if path == [] {
      assert RowMarkings(a.rows)[0] == net.initial;
    } else {
      var prefix := path[..|path| - 1];
      RunListed(net, a, prefix);
      if Run(net, path).Some? {
        var t := path[|path| - 1];
        assert t < net.transitions;
        SuccessorListed(net, a.rows, RowMarkings(a.rows), Run(net, prefix).value, t, Run(net, path).value);
      }
    }
  }

  /** A marking obtained by firing from a listed marking is listed too. */
  lemma SuccessorListed(net: Net, rows: seq<Row>, order: seq<Marking>, m: Marking, t: TransitionId, r: Marking)
    requires |rows| == |order| && RowsDone(net, rows, order)
    requires m in order && t < net.transitions && Fire(net, IOTable(net)[t], m) == Some(r)
    ensures r in order
  {
    var tio := IOTable(net);
    var k :| 0 <= k < |order| && order[k] == m;
    var succ := Successors(net, tio, m);
    SuccessorsSpec(net, tio, m);
    assert (t, r) in succ;
    var i :| 0 <= i < |succ| && succ[i] == (t, r);
    assert order[rows[k].continuations[i].target] == r;
  }

  /** The rows list exactly the reachable markings. */
  lemma ListedIffReachable(net: Net, a: Analysis)
    requires Explored(net, a)
    ensures forall m :: m in RowMarkings(a.rows) <==> Reachable(net, m)
  {
    var order := RowMarkings(a.rows);
    forall m ensures m in order <==> Reachable(net, m) {
      if m in order {
        var k :| 0 <= k < |order| && order[k] == m;
      }
      if Reachable(net, m) {
        var path :| Run(net, path) == Some(m);
        RunListed(net, a, path);
      }
    }
  }

  // ---------------------------------------------------------------------
  // Boundedness

  /** The largest bound, `Bounded(0)` when there are no places. */
  function Largest(bounds: seq<Bound>): (r: Bound)
    ensures bounds == [] ==> r == Bounded(0)
    ensures bounds != [] ==> r in bounds
    ensures forall i :: 0 <= i < |bounds| ==> Le(bounds[i], r)
    decreases |bounds|
  {
    if |bounds| == 0 then Bounded(0)
    else if |bounds| == 1 then bounds[0]
    else
      var init := bounds[..|bounds| - 1];
      assert forall i :: 0 <= i < |init| ==> bounds[i] == init[i];
      MaxBound(Largest(init), bounds[|bounds| - 1])
  }

  /** Every reachable marking holds at most the final bound of each place, and every bound is finite. */
  lemma BoundsCoverReachable(net: Net, a: Analysis)
    requires Explored(net, a)
    ensures forall p :: 0 <= p < net.places ==> a.bounds[p].Bounded?
    ensures forall m, p :: Reachable(net, m) && 0 <= p < net.places ==> Get(m, p) <= a.bounds[p].tokens
    ensures forall m, p :: Reachable(net, m) && p >= net.places ==> Get(m, p) == 0
  {
    var order := RowMarkings(a.rows);
    ListedIffReachable(net, a);
    assert Dominated(order[0], a.bounds);
    forall m, p | Reachable(net, m) && p >= net.places ensures Get(m, p) == 0 {
      var k :| 0 <= k < |order| && order[k] == m;
      assert InBox(order[k], net.places, Ceiling(net, net.places));
    }
    forall m, p | Reachable(net, m) && 0 <= p < net.places ensures Get(m, p) <= a.bounds[p].tokens {
      var k :| 0 <= k < |order| && order[k] == m;
      assert Dominated(order[k], a.bounds);
    }
  }

  /** When every bound is finite, so is the largest, and it is at least each of them. */
  lemma LargestOfFinite(bounds: seq<Bound>)
    requires forall i :: 0 <= i < |bounds| ==> bounds[i].Bounded?
    ensures Largest(bounds).Bounded?
    ensures forall i :: 0 <= i < |bounds| ==> bounds[i].tokens <= Largest(bounds).tokens
  {
    var r := Largest(bounds);
    if bounds != [] {
      var i :| 0 <= i < |bounds| && bounds[i] == r;
    }
    forall i | 0 <= i < |bounds| ensures bounds[i].tokens <= r.tokens {
      assert Le(bounds[i], r);
    }
  }

  /** The bound of the net is finite and no reachable marking puts more tokens on any place. */
  lemma NetBoundCoversReachable(net: Net, a: Analysis)
    requires Explored(net, a)
    ensures Largest(a.bounds).Bounded?
    ensures forall m, p :: Reachable(net, m) ==> Get(m, p) <= Largest(a.bounds).tokens
  {
    BoundsCoverReachable(net, a);
    LargestOfFinite(a.bounds);
  }

  /** Every place is 1-bounded. */
  predicate IsSafe(a: Analysis): (r: bool)
    ensures r ==> forall p :: 0 <= p < |a.bounds| ==> Le(a.bounds[p], Bounded(1)) && Le(Bounded(1), a.bounds[p])
  {
    forall p :: 0 <= p < |a.bounds| ==> a.bounds[p] == Bounded(1)
  }

  /** In a safe net no reachable marking puts more than one token on a place. */
  lemma SafeMeansOneToken(net: Net, a: Analysis)
    requires Explored(net, a) && IsSafe(a)
    ensures forall m, p :: Reachable(net, m) ==> Get(m, p) <= 1
  {
    BoundsCoverReachable(net, a);
  }

  // ---------------------------------------------------------------------
  // Liveness

  /** Transition `t` fires from some reachable marking. */
  ghost predicate Firable(net: Net, t: TransitionId)
    requires t < net.transitions
  {
    exists m :: Reachable(net, m) && Fire(net, IOTable(net)[t], m).Some?
  }

  /** Place `p` holds a token in some reachable marking. */
  ghost predicate Marked(net: Net, p: PlaceId)
  {
    exists m :: Reachable(net, m) && Get(m, p) > 0
  }

  /** Every transition fires from some reachable marking exactly when its class is L1, and otherwise it is L0. */
  lemma LivenessMeansFirable(net: Net, a: Analysis)
    requires Explored(net, a)
    ensures |a.classes| == net.transitions
    ensures forall t :: 0 <= t < net.transitions ==> a.classes[t] == if Firable(net, t) then L1 else L0
  {
    var order := RowMarkings(a.rows);
    ListedIffReachable(net, a);
    forall t | 0 <= t < net.transitions
      ensures FiredFrom(net, t, order) <==> Firable(net, t)
    {
      FiredIffFirable(net, order, t);
    }
  }

  /** Over a list of exactly the reachable markings, firing from one of them is firing from a reachable one. */
  lemma FiredIffFirable(net: Net, order: seq<Marking>, t: TransitionId)
    requires t < net.transitions
    requires forall m :: m in order <==> Reachable(net, m)
    ensures FiredFrom(net, t, order) <==> Firable(net, t)
  {
    if FiredFrom(net, t, order) {
      var k :| 0 <= k < |order| && Fire(net, IOTable(net)[t], order[k]).Some?;
      assert order[k] in order;
    }
    if Firable(net, t) {
      var m :| Reachable(net, m) && Fire(net, IOTable(net)[t], m).Some?;
      var k :| 0 <= k < |order| && order[k] == m;
    }
  }

  /** Every transition is L4-live. */
  predicate IsLive(a: Analysis): (r: bool)
    ensures r ==> forall t :: 0 <= t < |a.classes| ==> Rank(a.classes[t]) == 4
  {
    forall t :: 0 <= t < |a.classes| ==> a.classes[t] == L4
  }

  /** Some transition is L4-live and some is not. */
  predicate IsQuasiLive(a: Analysis): (r: bool)
    ensures r ==> |a.classes| >= 2
  {
    !IsLive(a) && exists t :: 0 <= t < |a.classes| && a.classes[t] == L4
  }

  /** The search only assigns L0 and L1, so a net is live only when it has no transitions, and never quasi-live. */
  lemma LiveVerdicts(net: Net, a: Analysis)
    requires Explored(net, a)
    ensures IsLive(a) <==> net.transitions == 0
    ensures !IsQuasiLive(a)
  {
    if net.transitions > 0 {
      assert a.classes[0] != L4;
    }
  }

  // ---------------------------------------------------------------------
  // Soundness

  /** Every transition fired at least once and every place held a token at some point. */
  predicate IsSound(a: Analysis): (r: bool)
    ensures r <==> && (forall t :: 0 <= t < |a.classes| ==> Rank(a.classes[t]) > 0)
                   && (forall p :: 0 <= p < |a.bounds| ==> Positive(a.bounds[p]))
  {
    && (forall t :: 0 <= t < |a.classes| ==> a.classes[t] != L0)
    && (forall p :: 0 <= p < |a.bounds| ==> Cmp(a.bounds[p], Bounded(0)) == Greater)
  }

  /**
   * Once every transition has fired, a positive bound means its place holds
   * a token in some reachable marking: the count came from the initial
   * marking, from a discovered marking, or from the output weight of a
   * transition that fires from a reachable marking.
   */
  lemma PositiveBoundMarked(net: Net, a: Analysis, p: PlaceId)
    requires Explored(net, a) && forall t :: 0 <= t < |a.classes| ==> a.classes[t] != L0
    requires p < net.places && Positive(a.bounds[p])
    ensures Marked(net, p)
  {
    var order := RowMarkings(a.rows);
    var tio := IOTable(net);
    BoundsOverSource(net, order);
    if Get(net.initial, p) > 0 {
      assert Run(net, []) == Some(net.initial);
    } else if exists k :: 0 <= k < |order| && Get(order[k], p) > 0 {
      var k :| 0 <= k < |order| && Get(order[k], p) > 0;
      assert Reachable(net, order[k]);
    } else {
      var t :| 0 <= t < net.transitions && p in tio[t].outputs && net.weight(TransitionPlace(t, p)) > 0;
      LivenessMeansFirable(net, a);
      assert Firable(net, t);
      var m :| Reachable(net, m) && Fire(net, tio[t], m).Some?;
      FiringMarksOutput(net, t, m, p);
    }
  }

  /** Firing a transition from a reachable marking marks each output place its arc gives a positive weight. */
  lemma FiringMarksOutput(net: Net, t: TransitionId, m: Marking, p: PlaceId)
    requires t < net.transitions && Reachable(net, m) && Fire(net, IOTable(net)[t], m).Some?
    requires p in IOTable(net)[t].outputs && net.weight(TransitionPlace(t, p)) > 0
    ensures Marked(net, p)
  {
    var io := IOTable(net)[t];
    var r := Fire(net, io, m).value;
    FireSpec(net, io, m);
    SupplyOfPresent(net, t, io.outputs, p);
    var path :| Run(net, path) == Some(m);
    var longer := path + [t];
    assert longer[..|longer| - 1] == path;
    assert Run(net, longer) == Some(r);
    assert Get(r, p) > 0;
  }

  /**
   * The verdict is sound exactly when every transition fires from some
   * reachable marking and every place is marked in some reachable marking.
   */
  lemma SoundVerdict(net: Net, a: Analysis)
    requires Explored(net, a)
    ensures IsSound(a) <==>
              && (forall t :: 0 <= t < net.transitions ==> Firable(net, t))
              && (forall p :: 0 <= p < net.places ==> Marked(net, p))
  {
    LivenessMeansFirable(net, a);
    BoundsCoverReachable(net, a);
    if IsSound(a) {
      forall t | 0 <= t < net.transitions ensures Firable(net, t) {
        assert a.classes[t] != L0;
      }
      forall p | 0 <= p < net.places ensures Marked(net, p) {
        PositiveBoundMarked(net, a, p);
      }
    }
    if && (forall t :: 0 <= t < net.transitions ==> Firable(net, t))
       && (forall p :: 0 <= p < net.places ==> Marked(net, p))
    {
      forall p | 0 <= p < |a.bounds| ensures Cmp(a.bounds[p], Bounded(0)) == Greater {
        assert Marked(net, p);
        var m :| Reachable(net, m) && Get(m, p) > 0;
        assert Get(m, p) <= a.bounds[p].tokens;
      }
    }
  }

  // ---------------------------------------------------------------------
  // Grouping transitions by class

  predicate Ascending(s: seq<TransitionId>)
  {
    forall j, k :: 0 <= j < k < |s| ==> s[j] < s[k]
  }

  /**
   * Lists the transitions of each class L0 .. L4, in id order: group `c`
   * holds exactly the transitions whose class has rank `c`.
   */
  method GroupByClass(classes: seq<Live>) returns (groups: seq<seq<TransitionId>>)
    ensures |groups| == 5
    ensures forall c :: 0 <= c < 5 ==> forall t :: t in groups[c] ==> t < |classes| && Rank(classes[t]) == c
    ensures forall t :: 0 <= t < |classes| ==> t in groups[Rank(classes[t])]
    ensures forall c :: 0 <= c < 5 ==> Ascending(groups[c])
  {
    groups := [[], [], [], [], []];
    for i := 0 to |classes|
      invariant |groups| == 5
      invariant forall c :: 0 <= c < 5 ==> forall t :: t in groups[c] ==> t < i && Rank(classes[t]) == c
      invariant forall t :: 0 <= t < i ==> t in groups[Rank(classes[t])]
      invariant forall c :: 0 <= c < 5 ==> Ascending(groups[c])
    {
      var c := Rank(classes[i]);
      ghost var before := groups;
      groups := groups[c := groups[c] + [i]];
      forall j | 0 <= j < |before[c]| ensures before[c][j] < i {
        assert before[c][j] in before[c];
      }
    }
  }
}
