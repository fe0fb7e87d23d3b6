/**
 * The two monotone accumulators of the search: the largest token count seen
 * per place (Boundedness) and the liveness class reached per transition
 * (Liveness), together with the orders they take maxima in.
 */
module Lattices {
  import opened MarkingModel
  import opened PetriNets

  datatype Ordering = Less | Equal | Greater

  /** The observed capacity class of a place. */
  datatype Bound = Bounded(tokens: nat) | Unbounded

  /** Ordering of naturals. */
  function CmpNat(a: nat, b: nat): Ordering
  {
    if a < b then Less else if a == b then Equal else Greater
  }

  /**
   * The order on bounds as the engine defines it: bounded values compare by
   * their counts, and `Unbounded` is below every bounded value.
   */
  function Cmp(a: Bound, b: Bound): Ordering
  {
    match (a, b)
    case (Bounded(x), Bounded(y)) => CmpNat(x, y)
    case (Unbounded, Unbounded) => Equal
    case (Bounded(_), Unbounded) => Greater
    case (Unbounded, Bounded(_)) => Less
  }

  /**
   * What `Cmp` decides: equal bounds are `Equal`, bounded values compare by
   * their counts, and `Unbounded` is `Less` than any bounded value.
   */
  lemma CmpMeaning(a: Bound, b: Bound)
    ensures Cmp(a, b) == Equal <==> a == b
    ensures a.Bounded? && b.Bounded? ==> (Cmp(a, b) == Less <==> a.tokens < b.tokens)
    ensures a.Unbounded? != b.Unbounded? ==> (Cmp(a, b) == Less <==> a.Unbounded?)
  {
  }

  /** `a` is at most `b` in the bound order. */
  predicate Le(a: Bound, b: Bound)
  {
    Cmp(a, b) != Greater
  }

  /** `Cmp` is a total order: it is antisymmetric, agrees with its converse and is transitive. */
  lemma CmpIsTotalOrder(a: Bound, b: Bound, c: Bound)
    ensures Cmp(a, b) == Equal <==> a == b
    ensures Cmp(a, b) == Less <==> Cmp(b, a) == Greater
    ensures Le(a, b) || Le(b, a)
    ensures Le(a, b) && Le(b, c) ==> Le(a, c)
    ensures Cmp(a, b) == Less && Cmp(b, c) == Less ==> Cmp(a, c) == Less
  {
  }

  /** Every bounded value lies above `Unbounded`. */
  lemma UnboundedIsLeast(n: nat)
    ensures Cmp(Unbounded, Bounded(n)) == Less
    ensures !Le(Bounded(n), Unbounded)
  {
  }

  /** A finite bound above zero. */
  predicate Positive(b: Bound)
  {
    b.Bounded? && b.tokens > 0
  }

  /** The larger of two bounds; on a tie, the second, as `std::cmp::max` does. */
  function MaxBound(a: Bound, b: Bound): (r: Bound)
    ensures r == a || r == b
    ensures Le(a, r) && Le(b, r)
  {
    if Cmp(a, b) == Greater then a else b
  }

  /** The liveness classes, weakest first. */
  datatype Live = L0 | L1 | L2 | L3 | L4

  /** Position of a class in declaration order. */
  function Rank(l: Live): nat
  {
    match l
    case L0 => 0
    case L1 => 1
    case L2 => 2
    case L3 => 3
    case L4 => 4
  }

  /** The larger of two classes; on a tie, the second. */
  function MaxLive(a: Live, b: Live): (r: Live)
    ensures r == a || r == b
    ensures Rank(a) <= Rank(r) && Rank(b) <= Rank(r)
  {
    if Rank(a) > Rank(b) then a else b
  }

  /** Every bound in `later` is at least the one in `earlier` at the same place. */
  predicate Grows(earlier: seq<Bound>, later: seq<Bound>)
  {
    |earlier| == |later| && forall q :: 0 <= q < |earlier| ==> Le(earlier[q], later[q])
  }

  lemma GrowsTransitive(a: seq<Bound>, b: seq<Bound>, c: seq<Bound>)
    requires Grows(a, b) && Grows(b, c)
    ensures Grows(a, c)
  {
    forall q | 0 <= q < |a| ensures Le(a[q], c[q]) {
      CmpIsTotalOrder(a[q], b[q], c[q]);
    }
  }

  /** Every place's bound is at least its token count in `m`. */
  predicate Dominated(m: Marking, bounds: seq<Bound>)
  {
    forall q :: 0 <= q < |bounds| ==> Le(Bounded(Get(m, q)), bounds[q])
  }

  /** Raising bounds keeps every marking they dominated dominated. */
  lemma DominatedGrows(m: Marking, earlier: seq<Bound>, later: seq<Bound>)
    requires Dominated(m, earlier) && Grows(earlier, later)
    ensures Dominated(m, later)
  {
    forall q | 0 <= q < |later| ensures Le(Bounded(Get(m, q)), later[q]) {
      CmpIsTotalOrder(Bounded(Get(m, q)), earlier[q], later[q]);
    }
  }

  /** A marking with no more tokens anywhere than a dominated one is dominated too. */
  lemma DominatedBelow(m: Marking, larger: Marking, bounds: seq<Bound>)
    requires forall q :: Get(m, q) <= Get(larger, q)
    requires Dominated(larger, bounds)
    ensures Dominated(m, bounds)
  {
    forall q | 0 <= q < |bounds| ensures Le(Bounded(Get(m, q)), bounds[q]) {
      CmpIsTotalOrder(Bounded(Get(m, q)), Bounded(Get(larger, q)), bounds[q]);
    }
  }

  /** The per-place running maximum, one bound per place of the net. */
  class Boundedness {
    var bounds: seq<Bound>

    /** Every place starts at its initial token count. */
    constructor (net: Net)
      requires WellFormed(net)
      ensures |bounds| == net.places
      ensures forall p :: 0 <= p < net.places ==> bounds[p] == Bounded(Get(net.initial, p))
    {
      var v := seq(net.places, _ => Bounded(0));
      var todo := net.initial.entries.Keys;
      while todo != {}
        invariant todo <= net.initial.entries.Keys
        invariant |v| == net.places
        invariant forall p :: 0 <= p < net.places ==>
          v[p] == (if p in net.initial.entries && p !in todo then Bounded(net.initial.entries[p]) else Bounded(0))
        decreases todo
      {
        var p :| p in todo;
        v := v[p := Bounded(net.initial.entries[p])];
        todo := todo - {p};
      }
      bounds := v;
    }

    /** Raises the bound of `place` to `bound` if that is larger. */
    method Update(place: PlaceId, bound: Bound)
      requires place < |bounds|
      modifies this
      ensures bounds == old(bounds)[place := MaxBound(old(bounds)[place], bound)]
      ensures Grows(old(bounds), bounds)
    {
      bounds := bounds[place := MaxBound(bounds[place], bound)];
    }
  }

  /** The per-transition liveness class, one entry per transition of the net. */
  class Liveness {
    var classes: seq<Live>

    /** Every transition starts at L0. */
    constructor (net: Net)
      ensures |classes| == net.transitions
      ensures forall t :: 0 <= t < net.transitions ==> classes[t] == L0
    {
      classes := seq(net.transitions, _ => L0);
    }

    /** Raises the class of `transition` to `live` if that is larger. */
    method Update(transition: TransitionId, live: Live)
      requires transition < |classes|
      modifies this
      ensures classes == old(classes)[transition := MaxLive(old(classes)[transition], live)]
    {
      classes := classes[transition := MaxLive(classes[transition], live)];
    }
  }
}
