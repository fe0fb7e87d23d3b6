/**
 * The net description the engine reads: places and transitions as dense
 * indices, the arc list, the weight and capacity lookups and the initial
 * marking, plus the per-transition adjacency the engine precomputes.
 */
module PetriNets {
  import opened MarkingModel

  type TransitionId = nat

  /** An arc from a place into a transition, or from a transition into a place. */
  datatype Arc =
    | PlaceTransition(place: PlaceId, transition: TransitionId)
    | TransitionPlace(transition: TransitionId, place: PlaceId)

  /**
   * A net: `places` places numbered 0 .. places-1, `transitions` transitions
   * numbered likewise, the arcs in declaration order, the weight of each arc
   * and the capacity of each place (both already defaulted), and the
   * initial marking.
   */
  datatype Net = Net(
    places: nat,
    transitions: nat,
    arcs: seq<Arc>,
    weight: Arc -> nat,
    capacity: PlaceId -> nat,
    initial: Marking)

  /**
   * What the net's constructor guarantees: arcs and the initial marking only
   * name declared places and transitions, and the initial marking stores no zero.
   */
  predicate WellFormed(net: Net)
  {
    && (forall i :: 0 <= i < |net.arcs| ==>
          net.arcs[i].place < net.places && net.arcs[i].transition < net.transitions)
    && Valid(net.initial)
    && (forall p :: p in net.initial.entries ==> p < net.places)
  }

  /** A transition with its input places and output places, in arc order. */
  datatype TransitionIO = TransitionIO(id: TransitionId, inputs: seq<PlaceId>, outputs: seq<PlaceId>)

  /** Sources of the place-to-transition arcs entering `t`, in arc order. */
  function InputsOf(arcs: seq<Arc>, t: TransitionId): seq<PlaceId>
  {
    if arcs == [] then []
    else
      InputsOf(arcs[..|arcs| - 1], t) +
      match arcs[|arcs| - 1]
      case PlaceTransition(p, t') => if t' == t then [p] else []
      case TransitionPlace(_, _) => []
  }

  /** Targets of the transition-to-place arcs leaving `t`, in arc order. */
  function OutputsOf(arcs: seq<Arc>, t: TransitionId): seq<PlaceId>
  {
    if arcs == [] then []
    else
      OutputsOf(arcs[..|arcs| - 1], t) +
      match arcs[|arcs| - 1]
      case TransitionPlace(t', p) => if t' == t then [p] else []
      case PlaceTransition(_, _) => []
  }

  /** The adjacency of every transition, indexed by transition id. */
  function IOTable(net: Net): seq<TransitionIO>
  {
    seq(net.transitions, t requires t >= 0 => TransitionIO(t, InputsOf(net.arcs, t), OutputsOf(net.arcs, t)))
  }

  /** Every listed transition and every listed place is within the given ranges. */
  predicate IOWithin(tios: seq<TransitionIO>, places: nat, transitions: nat)
  {
    forall i :: 0 <= i < |tios| ==>
      && tios[i].id < transitions
      && (forall j :: 0 <= j < |tios[i].inputs| ==> tios[i].inputs[j] < places)
      && (forall j :: 0 <= j < |tios[i].outputs| ==> tios[i].outputs[j] < places)
  }

  /** A place is an input of `t` exactly when some arc goes from it into `t`. */
  lemma {:induction false} InputsOfMembers(arcs: seq<Arc>, t: TransitionId, p: PlaceId)
    ensures p in InputsOf(arcs, t) <==> PlaceTransition(p, t) in arcs
  {
    if arcs != [] {
      var init := arcs[..|arcs| - 1];
      assert arcs == init + [arcs[|arcs| - 1]];
      InputsOfMembers(init, t, p);
    }
  }

  /** A place is an output of `t` exactly when some arc goes from `t` into it. */
  lemma {:induction false} OutputsOfMembers(arcs: seq<Arc>, t: TransitionId, p: PlaceId)
    ensures p in OutputsOf(arcs, t) <==> TransitionPlace(t, p) in arcs
  {
    if arcs != [] {
      var init := arcs[..|arcs| - 1];
      assert arcs == init + [arcs[|arcs| - 1]];
      OutputsOfMembers(init, t, p);
    }
  }

  /** In a well-formed net, the adjacency only names declared places and transitions. */
  lemma IOTableWithin(net: Net)
    requires WellFormed(net)
    ensures IOWithin(IOTable(net), net.places, net.transitions)
  {
    var tios := IOTable(net);
    forall i, j | 0 <= i < |tios| && 0 <= j < |tios[i].inputs|
      ensures tios[i].inputs[j] < net.places
    {
      var p := tios[i].inputs[j];
      InputsOfMembers(net.arcs, i, p);
      var k :| 0 <= k < |net.arcs| && net.arcs[k] == PlaceTransition(p, i);
    }
    forall i, j | 0 <= i < |tios| && 0 <= j < |tios[i].outputs|
      ensures tios[i].outputs[j] < net.places
    {
      var p := tios[i].outputs[j];
      OutputsOfMembers(net.arcs, i, p);
      var k :| 0 <= k < |net.arcs| && net.arcs[k] == TransitionPlace(i, p);
    }
  }

  /** Scans the arc list once per transition to collect its inputs and outputs. */
  method TransitionIOs(net: Net) returns (tios: seq<TransitionIO>)
    ensures tios == IOTable(net)
  {
    tios := [];
    for t := 0 to net.transitions
      invariant tios == IOTable(net)[..t]
    {
      var inputs: seq<PlaceId> := [];
      var outputs: seq<PlaceId> := [];
      for j := 0 to |net.arcs|
        invariant inputs == InputsOf(net.arcs[..j], t)
        invariant outputs == OutputsOf(net.arcs[..j], t)
      {
        assert net.arcs[..j + 1][..j] == net.arcs[..j];
        match net.arcs[j]
        case PlaceTransition(source, target) =>
          if target == t {
            inputs := inputs + [source];
          }
        case TransitionPlace(source, target) =>
          if source == t {
            outputs := outputs + [target];
          }
      }
      assert net.arcs[..|net.arcs|] == net.arcs;
      tios := tios + [TransitionIO(t, inputs, outputs)];
    }
  }
}
