/**
 * The firing rule. A transition is tried on a copy of the marking: first
 * every input arc's weight is taken away in arc order, then every output arc's
 * weight is added in arc order, each output checked against the place's
 * capacity first. Any failed step discards the copy. Each successful output
 * step raises that place's running bound, and a transition that fires is
 * lifted to L1.
 */
module Firing {
  import opened Wrappers
  import opened MarkingModel
  import opened PetriNets
  import opened Lattices

  /** Total weight the inputs of `t` take from place `q` (once per occurrence). */
  function Demand(net: Net, t: TransitionId, inputs: seq<PlaceId>, q: PlaceId): nat
  {
    if inputs == [] then 0
    else (if inputs[0] == q then net.weight(PlaceTransition(q, t)) else 0) + Demand(net, t, inputs[1..], q)
  }

  /** Total weight the outputs of `t` put on place `q` (once per occurrence). */
  function Supply(net: Net, t: TransitionId, outputs: seq<PlaceId>, q: PlaceId): nat
  {
    if outputs == [] then 0
    else (if outputs[0] == q then net.weight(TransitionPlace(t, q)) else 0) + Supply(net, t, outputs[1..], q)
  }

  lemma {:induction false} DemandOfAbsent(net: Net, t: TransitionId, inputs: seq<PlaceId>, q: PlaceId)
    requires q !in inputs
    ensures Demand(net, t, inputs, q) == 0
  {
    if inputs != [] {
      DemandOfAbsent(net, t, inputs[1..], q);
    }
  }

  lemma {:induction false} SupplyOfAbsent(net: Net, t: TransitionId, outputs: seq<PlaceId>, q: PlaceId)
    requires q !in outputs
    ensures Supply(net, t, outputs, q) == 0
  {
    if outputs != [] {
      SupplyOfAbsent(net, t, outputs[1..], q);
    }
  }

  /** An output place receives at least the weight of its arc. */
  lemma {:induction false} SupplyOfPresent(net: Net, t: TransitionId, outputs: seq<PlaceId>, q: PlaceId)
    requires q in outputs
    ensures Supply(net, t, outputs, q) >= net.weight(TransitionPlace(t, q))
  {
    if outputs[0] != q {
      SupplyOfPresent(net, t, outputs[1..], q);
    }
  }

  /** The input pass: checked subtraction of each input arc's weight, in order. */
  function TakeInputs(net: Net, t: TransitionId, m: Marking, inputs: seq<PlaceId>): (r: Option<Marking>)
    ensures Valid(m) && r.Some? ==> Valid(r.value)
    decreases |inputs|
  {
    if inputs == [] then Some(m)
    else
      var p := inputs[0];
      var w := net.weight(PlaceTransition(p, t));
      if Get(m, p) >= w then TakeInputs(net, t, Set(m, p, Get(m, p) - w), inputs[1..])
      else None
  }

  /** The output check: the weight fits under the capacity and the place has room for it. */
  predicate Fits(net: Net, t: TransitionId, m: Marking, p: PlaceId)
  {
    var w := net.weight(TransitionPlace(t, p));
    var cap := net.capacity(p);
    w <= cap && Get(m, p) <= cap - w
  }

  /** The output pass on the marking: add each output arc's weight, in order, if it fits. */
  function AddOutputs(net: Net, t: TransitionId, m: Marking, outputs: seq<PlaceId>): (r: Option<Marking>)
    ensures Valid(m) && r.Some? ==> Valid(r.value)
    decreases |outputs|
  {
    if outputs == [] then Some(m)
    else
      var p := outputs[0];
      if Fits(net, t, m, p) then
        AddOutputs(net, t, Set(m, p, Get(m, p) + net.weight(TransitionPlace(t, p))), outputs[1..])
      else None
  }

  /**
   * The output pass on the bounds: every output that fits raises its bound to
   * its new count, up to the first output that does not fit. A place without
   * a bound (which a well-formed net never names) is treated as not fitting.
   */
  function OutputBounds(net: Net, t: TransitionId, m: Marking, outputs: seq<PlaceId>, bounds: seq<Bound>): (r: seq<Bound>)
    ensures |r| == |bounds|
    decreases |outputs|
  {
    if outputs == [] then bounds
    else
      var p := outputs[0];
      if Fits(net, t, m, p) && p < |bounds| then
        var n := Get(m, p) + net.weight(TransitionPlace(t, p));
        OutputBounds(net, t, Set(m, p, n), outputs[1..], bounds[p := MaxBound(bounds[p], Bounded(n))])
      else bounds
  }

  /** The marking after firing `io` from `m`, or None if it is not enabled. */
  function Fire(net: Net, io: TransitionIO, m: Marking): Option<Marking>
  {
    match TakeInputs(net, io.id, m, io.inputs)
    case None => None
    case Some(m1) => AddOutputs(net, io.id, m1, io.outputs)
  }

  /** The bounds after trying to fire `io` from `m`, whether or not it fires. */
  function FireBounds(net: Net, io: TransitionIO, m: Marking, bounds: seq<Bound>): (r: seq<Bound>)
    ensures |r| == |bounds|
  {
    match TakeInputs(net, io.id, m, io.inputs)
    case None => bounds
    case Some(m1) => OutputBounds(net, io.id, m1, io.outputs, bounds)
  }

  /** The transitions that fire from `m`, with their resulting markings, in table order. */
  function Successors(net: Net, tios: seq<TransitionIO>, m: Marking): seq<(TransitionId, Marking)>
  {
    if tios == [] then []
    else
      (match Fire(net, tios[0], m)
       case None => []
       case Some(m') => [(tios[0].id, m')]) + Successors(net, tios[1..], m)
  }

  /** Every output place listed in `tios` is below `places`. */
  predicate OutputsWithin(tios: seq<TransitionIO>, places: nat)
  {
    forall i, j :: 0 <= i < |tios| && 0 <= j < |tios[i].outputs| ==> tios[i].outputs[j] < places
  }

  /** The bounds after trying every transition of `tios` from `m` in turn. */
  function BoundsAfter(net: Net, tios: seq<TransitionIO>, m: Marking, bounds: seq<Bound>): (r: seq<Bound>)
    ensures |r| == |bounds|
  {
    if tios == [] then bounds
    else BoundsAfter(net, tios[1..], m, FireBounds(net, tios[0], m, bounds))
  }

  /**
   * The classes after trying every transition of `tios` from `m`: each one
   * that fires reaches L1 (ids without a class, which a well-formed net never
   * has, are passed over).
   */
  function ClassesAfter(net: Net, tios: seq<TransitionIO>, m: Marking, classes: seq<Live>): (r: seq<Live>)
    ensures |r| == |classes|
  {
    if tios == [] then classes
    else
      var io := tios[0];
      var next := if Fire(net, io, m).Some? && io.id < |classes| then classes[io.id := MaxLive(classes[io.id], L1)] else classes;
      ClassesAfter(net, tios[1..], m, next)
  }

  /** The input pass of one transition, on a copy of the marking. */
  method SubtractInputs(net: Net, io: TransitionIO, m: Marking) returns (r: Option<Marking>)
    ensures r == TakeInputs(net, io.id, m, io.inputs)
  {
    var marking := m;
    var j := 0;
    while j < |io.inputs|
      invariant 0 <= j <= |io.inputs|
      invariant TakeInputs(net, io.id, m, io.inputs) == TakeInputs(net, io.id, marking, io.inputs[j..])
    {
      assert io.inputs[j..][0] == io.inputs[j] && io.inputs[j..][1..] == io.inputs[j + 1..];
      var p := io.inputs[j];
      var current := Get(marking, p);
      var requirement := net.weight(PlaceTransition(p, io.id));
      if current < requirement {
        return None;
      }
      marking := Set(marking, p, current - requirement);
      j := j + 1;
    }
    return Some(marking);
  }

  /** Both output passes over `outputs[k..]`, unfolded at their first place. */
  lemma OutputStep(net: Net, t: TransitionId, m: Marking, outputs: seq<PlaceId>, k: nat, bounds: seq<Bound>)
    requires k < |outputs| && outputs[k] < |bounds|
    ensures var p := outputs[k];
            var n := Get(m, p) + net.weight(TransitionPlace(t, p));
            && AddOutputs(net, t, m, outputs[k..])
               == (if Fits(net, t, m, p) then AddOutputs(net, t, Set(m, p, n), outputs[k + 1..]) else None)
            && OutputBounds(net, t, m, outputs[k..], bounds)
               == (if Fits(net, t, m, p)
                   then OutputBounds(net, t, Set(m, p, n), outputs[k + 1..], bounds[p := MaxBound(bounds[p], Bounded(n))])
                   else bounds)
  {
    assert outputs[k..][0] == outputs[k] && outputs[k..][1..] == outputs[k + 1..];
  }

  /**
   * The output pass of one transition: adds each output weight that fits and
   * raises that place's bound, stopping at the first output that does not fit.
   */
  method AddOutputsRaisingBounds(net: Net, io: TransitionIO, m: Marking, boundedness: Boundedness)
    returns (r: Option<Marking>)
    requires forall j :: 0 <= j < |io.outputs| ==> io.outputs[j] < |boundedness.bounds|
    modifies boundedness
    ensures r == AddOutputs(net, io.id, m, io.outputs)
    ensures boundedness.bounds == OutputBounds(net, io.id, m, io.outputs, old(boundedness.bounds))
  {
    var marking := m;
    for k := 0 to |io.outputs|
      invariant |boundedness.bounds| == old(|boundedness.bounds|)
      invariant AddOutputs(net, io.id, m, io.outputs) == AddOutputs(net, io.id, marking, io.outputs[k..])
      invariant OutputBounds(net, io.id, m, io.outputs, old(boundedness.bounds))
                == OutputBounds(net, io.id, marking, io.outputs[k..], boundedness.bounds)
    {
      OutputStep(net, io.id, marking, io.outputs, k, boundedness.bounds);
      var p := io.outputs[k];
      var current := Get(marking, p);
      var weight := net.weight(TransitionPlace(io.id, p));
      var capacity := net.capacity(p);
      if !(weight <= capacity && current <= capacity - weight) {
        return None;
      }
      var n := current + weight;
      marking := Set(marking, p, n);
      boundedness.Update(p, Bounded(n));
    }
    return Some(marking);
  }

  /** One firing attempt: on success the transition is lifted to L1. */
  method TryTransition(net: Net, io: TransitionIO, m: Marking, boundedness: Boundedness, liveness: Liveness)
    returns (fired: Option<Marking>)
    requires forall j :: 0 <= j < |io.outputs| ==> io.outputs[j] < |boundedness.bounds|
    requires io.id < |liveness.classes|
    modifies boundedness, liveness
    ensures fired == Fire(net, io, m)
    ensures boundedness.bounds == FireBounds(net, io, m, old(boundedness.bounds))
    ensures liveness.classes == if fired.Some? then old(liveness.classes)[io.id := MaxLive(old(liveness.classes)[io.id], L1)]
                                else old(liveness.classes)
  {
    fired := None;
    var afterInputs := SubtractInputs(net, io, m);
    if afterInputs.Some? {
      fired := AddOutputsRaisingBounds(net, io, afterInputs.value, boundedness);
    }
    if fired.Some? {
      liveness.Update(io.id, L1);
    }
  }

  /**
   * Tries every transition of `tios` on a copy of `m` and returns those that
   * fire with their resulting markings, raising bounds and liveness on the way.
   */
  method FireTransitions(net: Net, tios: seq<TransitionIO>, m: Marking, boundedness: Boundedness, liveness: Liveness)
    returns (branches: seq<(TransitionId, Marking)>)
    requires IOWithin(tios, |boundedness.bounds|, |liveness.classes|)
    modifies boundedness, liveness
    ensures branches == Successors(net, tios, m)
    ensures boundedness.bounds == BoundsAfter(net, tios, m, old(boundedness.bounds))
    ensures liveness.classes == ClassesAfter(net, tios, m, old(liveness.classes))
  {
    branches := [];
    for i := 0 to |tios|
      invariant |boundedness.bounds| == old(|boundedness.bounds|)
      invariant |liveness.classes| == old(|liveness.classes|)
      invariant Successors(net, tios, m) == branches + Successors(net, tios[i..], m)
      invariant BoundsAfter(net, tios, m, old(boundedness.bounds)) == BoundsAfter(net, tios[i..], m, boundedness.bounds)
      invariant ClassesAfter(net, tios, m, old(liveness.classes)) == ClassesAfter(net, tios[i..], m, liveness.classes)
    {
      AfterOne(net, tios, i, m, boundedness.bounds, liveness.classes);
      var fired := TryTransition(net, tios[i], m, boundedness, liveness);
      if fired.Some? {
        Regroup(branches, [(tios[i].id, fired.value)], Successors(net, tios[i + 1..], m));
        branches := branches + [(tios[i].id, fired.value)];
      } else {
        assert Successors(net, tios[i..], m) == Successors(net, tios[i + 1..], m);
      }
    }
  }

  /** Concatenation regroups. */
  lemma Regroup<T>(a: seq<T>, b: seq<T>, c: seq<T>)
    ensures a + (b + c) == (a + b) + c
  {
  }

  /** Trying the transitions from position `i` on is trying the one at `i`, then the rest. */
  lemma AfterOne(net: Net, tios: seq<TransitionIO>, i: nat, m: Marking, bounds: seq<Bound>, classes: seq<Live>)
    requires i < |tios|
    ensures Successors(net, tios[i..], m) ==
              (if Fire(net, tios[i], m).Some? then [(tios[i].id, Fire(net, tios[i], m).value)] else [])
              + Successors(net, tios[i + 1..], m)
    ensures BoundsAfter(net, tios[i..], m, bounds) == BoundsAfter(net, tios[i + 1..], m, FireBounds(net, tios[i], m, bounds))
    ensures ClassesAfter(net, tios[i..], m, classes) ==
              ClassesAfter(net, tios[i + 1..], m,
                if Fire(net, tios[i], m).Some? && tios[i].id < |classes|
                then classes[tios[i].id := MaxLive(classes[tios[i].id], L1)] else classes)
  {
    assert tios[i..][0] == tios[i] && tios[i..][1..] == tios[i + 1..];
  }

  /**
   * The input pass succeeds exactly when every place holds at least the total
   * weight its input arcs take, and it then takes exactly that weight.
   */
  lemma {:induction false} TakeInputsSpec(net: Net, t: TransitionId, m: Marking, inputs: seq<PlaceId>)
    ensures TakeInputs(net, t, m, inputs).Some? <==> forall q :: Demand(net, t, inputs, q) <= Get(m, q)
    ensures TakeInputs(net, t, m, inputs).Some? ==>
              forall q :: Get(TakeInputs(net, t, m, inputs).value, q) == Get(m, q) - Demand(net, t, inputs, q)
    decreases |inputs|
  {
    if inputs != [] {
      var p := inputs[0];
      var w := net.weight(PlaceTransition(p, t));
      var rest := inputs[1..];
      if Get(m, p) >= w {
        var m' := Set(m, p, Get(m, p) - w);
        TakeInputsSpec(net, t, m', rest);
        assert forall q :: Demand(net, t, inputs, q) == (if q == p then w else 0) + Demand(net, t, rest, q);
      } else {
        assert Demand(net, t, inputs, p) >= w;
      }
    }
  }

  /**
   * The output pass succeeds exactly when every output place can hold its
   * current count plus the total weight its output arcs add, and it then adds
   * exactly that weight.
   */
  lemma {:induction false} AddOutputsSpec(net: Net, t: TransitionId, m: Marking, outputs: seq<PlaceId>)
    ensures AddOutputs(net, t, m, outputs).Some? <==>
              forall q :: q in outputs ==> Get(m, q) + Supply(net, t, outputs, q) <= net.capacity(q)
    ensures AddOutputs(net, t, m, outputs).Some? ==>
              forall q :: Get(AddOutputs(net, t, m, outputs).value, q) == Get(m, q) + Supply(net, t, outputs, q)
    decreases |outputs|
  {
    if outputs != [] {
      var p := outputs[0];
      var w := net.weight(TransitionPlace(t, p));
      var rest := outputs[1..];
      if Fits(net, t, m, p) {
        var m' := Set(m, p, Get(m, p) + w);
        assert AddOutputs(net, t, m, outputs) == AddOutputs(net, t, m', rest);
        AddOutputsSpec(net, t, m', rest);
        forall q ensures Get(m, q) + Supply(net, t, outputs, q) == Get(m', q) + Supply(net, t, rest, q) {
        }
        if p !in rest {
          SupplyOfAbsent(net, t, rest, p);
        }
        assert forall q :: q in outputs <==> q == p || q in rest;
      } else {
        assert Supply(net, t, outputs, p) >= w;
        assert p in outputs;
      }
    }
  }

  /**
   * The firing rule: a transition is enabled exactly when its inputs can be
   * paid and its outputs then fit, and firing takes the input weights and
   * adds the output weights; every output ends within its capacity and every
   * place that is neither input nor output keeps its count.
   */
  lemma FireSpec(net: Net, io: TransitionIO, m: Marking)
    ensures Fire(net, io, m).Some? <==>
              && (forall q :: Demand(net, io.id, io.inputs, q) <= Get(m, q))
              && (forall q :: q in io.outputs ==>
                    Get(m, q) - Demand(net, io.id, io.inputs, q) + Supply(net, io.id, io.outputs, q) <= net.capacity(q))
    ensures Fire(net, io, m).Some? ==> forall q ::
              Get(Fire(net, io, m).value, q) == Get(m, q) - Demand(net, io.id, io.inputs, q) + Supply(net, io.id, io.outputs, q)
    ensures Fire(net, io, m).Some? ==> forall q :: q in io.outputs ==> Get(Fire(net, io, m).value, q) <= net.capacity(q)
    ensures Fire(net, io, m).Some? ==> forall q :: q !in io.inputs && q !in io.outputs ==>
              Get(Fire(net, io, m).value, q) == Get(m, q)
  {
    TakeInputsSpec(net, io.id, m, io.inputs);
    var taken := TakeInputs(net, io.id, m, io.inputs);
    if taken.Some? {
      AddOutputsSpec(net, io.id, taken.value, io.outputs);
    }
    forall q | q !in io.inputs && q !in io.outputs
      ensures Demand(net, io.id, io.inputs, q) == 0 && Supply(net, io.id, io.outputs, q) == 0
    {
      DemandOfAbsent(net, io.id, io.inputs, q);
      SupplyOfAbsent(net, io.id, io.outputs, q);
    }
  }

  /** The output pass never lowers a bound. */
  lemma {:induction false} OutputBoundsGrow(net: Net, t: TransitionId, m: Marking, outputs: seq<PlaceId>, bounds: seq<Bound>)
    requires forall j :: 0 <= j < |outputs| ==> outputs[j] < |bounds|
    ensures Grows(bounds, OutputBounds(net, t, m, outputs, bounds))
    decreases |outputs|
  {
    if outputs != [] && Fits(net, t, m, outputs[0]) {
      var p := outputs[0];
      var n := Get(m, p) + net.weight(TransitionPlace(t, p));
      var raised := bounds[p := MaxBound(bounds[p], Bounded(n))];
      OutputBoundsGrow(net, t, Set(m, p, n), outputs[1..], raised);
      assert Grows(bounds, raised);
      GrowsTransitive(bounds, raised, OutputBounds(net, t, m, outputs, bounds));
    }
  }

  /** After a successful output pass, every bound is at least the new count of its place. */
  lemma {:induction false} OutputBoundsDominate(net: Net, t: TransitionId, m: Marking, outputs: seq<PlaceId>, bounds: seq<Bound>)
    requires forall j :: 0 <= j < |outputs| ==> outputs[j] < |bounds|
    requires Dominated(m, bounds)
    requires AddOutputs(net, t, m, outputs).Some?
    ensures Dominated(AddOutputs(net, t, m, outputs).value, OutputBounds(net, t, m, outputs, bounds))
    decreases |outputs|
  {
    if outputs != [] {
      var p := outputs[0];
      var n := Get(m, p) + net.weight(TransitionPlace(t, p));
      var m' := Set(m, p, n);
      var raised := bounds[p := MaxBound(bounds[p], Bounded(n))];
      assert Dominated(m', raised);
      OutputBoundsDominate(net, t, m', outputs[1..], raised);
    }
  }

  /**
   * A firing attempt never lowers a bound, and when it succeeds the raised
   * bounds dominate the resulting marking.
   */
  lemma FireDominates(net: Net, io: TransitionIO, m: Marking, bounds: seq<Bound>)
    requires forall j :: 0 <= j < |io.outputs| ==> io.outputs[j] < |bounds|
    requires Dominated(m, bounds)
    ensures Grows(bounds, FireBounds(net, io, m, bounds))
    ensures Fire(net, io, m).Some? ==> Dominated(Fire(net, io, m).value, FireBounds(net, io, m, bounds))
  {
    var taken := TakeInputs(net, io.id, m, io.inputs);
    if taken.Some? {
      TakeInputsSpec(net, io.id, m, io.inputs);
      DominatedBelow(taken.value, m, bounds);
      OutputBoundsGrow(net, io.id, taken.value, io.outputs, bounds);
      if Fire(net, io, m).Some? {
        OutputBoundsDominate(net, io.id, taken.value, io.outputs, bounds);
      }
    } else {
      assert Grows(bounds, bounds);
    }
  }

  /**
   * Trying every transition from a dominated marking never lowers a bound,
   * and the final bounds dominate every marking the transitions reach.
   */
  lemma {:induction false} BoundsAfterDominates(net: Net, tios: seq<TransitionIO>, m: Marking, bounds: seq<Bound>)
    requires OutputsWithin(tios, |bounds|)
    requires Dominated(m, bounds)
    ensures Grows(bounds, BoundsAfter(net, tios, m, bounds))
    ensures forall s :: s in Successors(net, tios, m) ==> Dominated(s.1, BoundsAfter(net, tios, m, bounds))
    decreases |tios|
  {
    if tios == [] {
      assert Grows(bounds, bounds);
    } else {
      var io := tios[0];
      var rest := tios[1..];
      var raised := FireBounds(net, io, m, bounds);
      var final := BoundsAfter(net, tios, m, bounds);
      FireDominates(net, io, m, bounds);
      DominatedGrows(m, bounds, raised);
      assert OutputsWithin(rest, |raised|);
      BoundsAfterDominates(net, rest, m, raised);
      GrowsTransitive(bounds, raised, final);
      if Fire(net, io, m).Some? {
        DominatedGrows(Fire(net, io, m).value, raised, final);
      }
    }
  }

  /**
   * A bound the output pass leaves positive was positive before, or belongs
   * to an output place that held tokens or receives a positive weight.
   */
  lemma {:induction false} OutputBoundsSource(net: Net, t: TransitionId, m: Marking, outputs: seq<PlaceId>,
                                              bounds: seq<Bound>)
    ensures forall p :: 0 <= p < |bounds| && Positive(OutputBounds(net, t, m, outputs, bounds)[p]) ==>
              Positive(bounds[p]) || (p in outputs && (Get(m, p) > 0 || net.weight(TransitionPlace(t, p)) > 0))
    decreases |outputs|
  {
    if outputs != [] {
      var q := outputs[0];
      if Fits(net, t, m, q) && q < |bounds| {
        var n := Get(m, q) + net.weight(TransitionPlace(t, q));
        var m' := Set(m, q, n);
        var raised := bounds[q := MaxBound(bounds[q], Bounded(n))];
        OutputBoundsSource(net, t, m', outputs[1..], raised);
        forall p | 0 <= p < |bounds| && Positive(OutputBounds(net, t, m, outputs, bounds)[p])
          ensures Positive(bounds[p]) || (p in outputs && (Get(m, p) > 0 || net.weight(TransitionPlace(t, p)) > 0))
        {
          assert p in outputs[1..] ==> p in outputs;
          assert q in outputs;
        }
      }
    }
  }

  /**
   * A bound one firing attempt leaves positive was positive before, or
   * belongs to an output place of the transition that held tokens in the
   * source marking or receives a positive weight.
   */
  lemma FireBoundsSource(net: Net, io: TransitionIO, m: Marking, bounds: seq<Bound>)
    ensures forall p :: 0 <= p < |bounds| && Positive(FireBounds(net, io, m, bounds)[p]) ==>
              Positive(bounds[p]) || (p in io.outputs && (Get(m, p) > 0 || net.weight(TransitionPlace(io.id, p)) > 0))
  {
    TakeInputsSpec(net, io.id, m, io.inputs);
    var taken := TakeInputs(net, io.id, m, io.inputs);
    if taken.Some? {
      OutputBoundsSource(net, io.id, taken.value, io.outputs, bounds);
    }
  }

  /**
   * A bound that firing from `m` leaves positive was positive before, or its
   * place is marked in `m`, or some transition puts a positive weight on it.
   */
  lemma {:induction false} BoundsAfterSource(net: Net, tios: seq<TransitionIO>, m: Marking, bounds: seq<Bound>)
    ensures forall p :: 0 <= p < |bounds| && Positive(BoundsAfter(net, tios, m, bounds)[p]) ==>
              || Positive(bounds[p]) || Get(m, p) > 0
              || exists i :: 0 <= i < |tios| && p in tios[i].outputs && net.weight(TransitionPlace(tios[i].id, p)) > 0
    decreases |tios|
  {
    if tios != [] {
      var raised := FireBounds(net, tios[0], m, bounds);
      FireBoundsSource(net, tios[0], m, bounds);
      BoundsAfterSource(net, tios[1..], m, raised);
      forall p | 0 <= p < |bounds| && Positive(BoundsAfter(net, tios, m, bounds)[p])
        ensures || Positive(bounds[p]) || Get(m, p) > 0
                || exists i :: 0 <= i < |tios| && p in tios[i].outputs && net.weight(TransitionPlace(tios[i].id, p)) > 0
      {
        if exists i :: 0 <= i < |tios[1..]| && p in tios[1..][i].outputs
                       && net.weight(TransitionPlace(tios[1..][i].id, p)) > 0 {
          var i :| 0 <= i < |tios[1..]| && p in tios[1..][i].outputs && net.weight(TransitionPlace(tios[1..][i].id, p)) > 0;
          assert tios[i + 1] == tios[1..][i];
        }
      }
    }
  }

  /**
   * Trying every transition lifts exactly the transitions that fire to at
   * least L1 and leaves every other class unchanged.
   */
  lemma {:induction false} ClassesAfterSpec(net: Net, tios: seq<TransitionIO>, m: Marking, classes: seq<Live>)
    requires forall i :: 0 <= i < |tios| ==> tios[i].id < |classes|
    ensures forall t :: 0 <= t < |classes| ==>
              ClassesAfter(net, tios, m, classes)[t] ==
                if exists i :: 0 <= i < |tios| && tios[i].id == t && Fire(net, tios[i], m).Some?
                then MaxLive(classes[t], L1) else classes[t]
    decreases |tios|
  {
    if tios != [] {
      var io := tios[0];
      var rest := tios[1..];
      var next := if Fire(net, io, m).Some? then classes[io.id := MaxLive(classes[io.id], L1)] else classes;
      ClassesAfterSpec(net, rest, m, next);
      forall t | 0 <= t < |classes|
        ensures ClassesAfter(net, tios, m, classes)[t] ==
                  if exists i :: 0 <= i < |tios| && tios[i].id == t && Fire(net, tios[i], m).Some?
                  then MaxLive(classes[t], L1) else classes[t]
      {
        var inRest := exists i :: 0 <= i < |rest| && rest[i].id == t && Fire(net, rest[i], m).Some?;
        var inAll := exists i :: 0 <= i < |tios| && tios[i].id == t && Fire(net, tios[i], m).Some?;
        assert inAll <==> (io.id == t && Fire(net, io, m).Some?) || inRest by {
          if inRest {
            var i :| 0 <= i < |rest| && rest[i].id == t && Fire(net, rest[i], m).Some?;
            assert tios[i + 1] == rest[i];
          }
          if inAll {
            var i :| 0 <= i < |tios| && tios[i].id == t && Fire(net, tios[i], m).Some?;
            if i > 0 {
              assert rest[i - 1] == tios[i];
            }
          }
        }
      }
    }
  }

  /**
   * The successors are exactly the transitions that fire, each with the
   * marking its firing produces.
   */
  lemma {:induction false} SuccessorsSpec(net: Net, tios: seq<TransitionIO>, m: Marking)
    ensures forall i :: 0 <= i < |tios| && Fire(net, tios[i], m).Some? ==>
              (tios[i].id, Fire(net, tios[i], m).value) in Successors(net, tios, m)
    ensures forall s :: s in Successors(net, tios, m) ==>
              exists i :: 0 <= i < |tios| && tios[i].id == s.0 && Fire(net, tios[i], m) == Some(s.1)
    decreases |tios|
  {
    if tios != [] {
      var rest := tios[1..];
      SuccessorsSpec(net, rest, m);
      forall i | 1 <= i < |tios| ensures tios[i] == rest[i - 1] { }
      forall s | s in Successors(net, tios, m)
        ensures exists i :: 0 <= i < |tios| && tios[i].id == s.0 && Fire(net, tios[i], m) == Some(s.1)
      {
        if s !in Successors(net, rest, m) {
          assert tios[0].id == s.0 && Fire(net, tios[0], m) == Some(s.1);
        } else {
          var i :| 0 <= i < |rest| && rest[i].id == s.0 && Fire(net, rest[i], m) == Some(s.1);
          assert tios[i + 1] == rest[i];
        }
      }
    }
  }

  /**
   * The output pass is not transactional for the bounds: with outputs p1
   * then p2, and p2 of capacity 0, the attempt fails at p2 after p1's bound
   * has already been raised to a count p1 never holds.
   */
  lemma PartialRaiseOnFailure()
    ensures var net := Net(3, 1, [PlaceTransition(0, 0), TransitionPlace(0, 1), TransitionPlace(0, 2)],
                           a => 1, p => if p == 2 then 0 else 1, Marking(map[0 := 1]));
            var io := TransitionIO(0, [0], [1, 2]);
            && IOTable(net)[0] == io
            && Fire(net, io, net.initial) == None
            && Get(net.initial, 1) == 0
            && FireBounds(net, io, net.initial, [Bounded(1), Bounded(0), Bounded(0)]) == [Bounded(1), Bounded(1), Bounded(0)]
  {
    var net := Net(3, 1, [PlaceTransition(0, 0), TransitionPlace(0, 1), TransitionPlace(0, 2)],
                   a => 1, p => if p == 2 then 0 else 1, Marking(map[0 := 1]));
    var io := TransitionIO(0, [0], [1, 2]);
    var arcs := net.arcs;
    var a1, a2 := arcs[..1], arcs[..2];
    assert arcs[..|arcs| - 1] == a2 && a2[..|a2| - 1] == a1 && a1[..|a1| - 1] == [];
    assert a1 == [PlaceTransition(0, 0)] && a2 == a1 + [TransitionPlace(0, 1)];
    assert OutputsOf(a1, 0) == OutputsOf([], 0) + [];
    assert InputsOf(a1, 0) == [0] && OutputsOf(a1, 0) == [];
    assert InputsOf(a2, 0) == [0] && OutputsOf(a2, 0) == [1];
    assert InputsOf(arcs, 0) == [0];
    assert OutputsOf(arcs, 0) == [1, 2];
    var taken := Marking(map[]);
    assert Set(net.initial, 0, 0) == taken;
    assert TakeInputs(net, 0, net.initial, [0]) == Some(taken);
    var afterP1 := Set(taken, 1, 1);
    assert [1, 2][1..] == [2];
    assert !Fits(net, 0, afterP1, 2);
    assert AddOutputs(net, 0, taken, [1, 2]) == None;
    assert OutputBounds(net, 0, taken, [1, 2], [Bounded(1), Bounded(0), Bounded(0)]) == [Bounded(1), Bounded(1), Bounded(0)];
  }
}
