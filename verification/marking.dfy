/**
 * The marking model: one state of a place/transition net, stored sparsely.
 * Places absent from the map hold no tokens, and a zero count is never stored,
 * so that two markings with the same token distribution are the same value.
 */
module MarkingModel {

  /** Places are the dense indices the net assigns at construction. */
  type PlaceId = nat

  /** A marking: the places that hold tokens and how many each holds. */
  datatype Marking = Marking(entries: map<PlaceId, nat>)

  /** The representation invariant: no stored place holds zero tokens. */
  predicate Valid(m: Marking)
  {
    forall p :: p in m.entries ==> m.entries[p] > 0
  }

  /** The empty marking: no place holds a token. */
  const Empty: Marking := Marking(map[])

  /** Tokens on place `p`; a place that is not stored holds 0. */
  function Get(m: Marking, p: PlaceId): (n: nat)
    ensures Valid(m) ==> (n > 0 <==> p in m.entries)
  {
    if p in m.entries then m.entries[p] else 0
  }

  /** Puts `t` tokens on `p`, dropping the entry when `t` is 0. */
  function Set(m: Marking, p: PlaceId, t: nat): (r: Marking)
    ensures Get(r, p) == t
    ensures forall q :: q != p ==> Get(r, q) == Get(m, q)
    ensures Valid(m) ==> Valid(r)
  {
    if t == 0 then Marking(m.entries - {p}) else Marking(m.entries[p := t])
  }

  /** Under the invariant, a marking is determined by what `Get` reports. */
  lemma GetDeterminesMarking(m1: Marking, m2: Marking)
    requires Valid(m1) && Valid(m2)
    ensures m1 == m2 <==> forall p :: Get(m1, p) == Get(m2, p)
  {
    if forall p :: Get(m1, p) == Get(m2, p) {
      assert m1.entries.Keys == m2.entries.Keys by {
        forall p | p in m1.entries ensures p in m2.entries {
          assert Get(m1, p) > 0;
        }
        forall p | p in m2.entries ensures p in m1.entries {
          assert Get(m2, p) > 0;
        }
      }
      forall p | p in m1.entries ensures m1.entries[p] == m2.entries[p] {
        assert Get(m1, p) == Get(m2, p);
      }
      assert m1.entries == m2.entries;
    }
  }

  /**
   * The domination test: every place stored in `m` holds at least as many
   * tokens in `other`; places absent from `m` impose nothing.
   */
  predicate CoveredBy(m: Marking, other: Marking)
  {
    forall p :: p in m.entries ==> Get(other, p) >= m.entries[p]
  }

  /** Covering is the pointwise order on token counts. */
  lemma CoveredByPointwise(m: Marking, other: Marking)
    ensures CoveredBy(m, other) <==> forall p :: Get(m, p) <= Get(other, p)
  {
    if CoveredBy(m, other) {
      forall p ensures Get(m, p) <= Get(other, p) {
        if p in m.entries {
          assert Get(other, p) >= m.entries[p];
        }
      }
    }
  }

  /** Covering is reflexive and transitive. */
  lemma CoveredByPreorder(a: Marking, b: Marking, c: Marking)
    ensures CoveredBy(a, a)
    ensures CoveredBy(a, b) && CoveredBy(b, c) ==> CoveredBy(a, c)
  {
    CoveredByPointwise(a, a);
    CoveredByPointwise(a, b);
    CoveredByPointwise(b, c);
    CoveredByPointwise(a, c);
  }

  /** The count the last pair naming `p` gives it, or 0 if no pair names it. */
  function LastValue(pairs: seq<(PlaceId, nat)>, p: PlaceId): nat
  {
    if pairs == [] then 0
    else if pairs[|pairs| - 1].0 == p then pairs[|pairs| - 1].1
    else LastValue(pairs[..|pairs| - 1], p)
  }

  /** Builds a marking by setting each (place, tokens) pair in turn. */
  method FromPairs(pairs: seq<(PlaceId, nat)>) returns (m: Marking)
    ensures Valid(m)
    ensures forall p :: Get(m, p) == LastValue(pairs, p)
  {
    m := Empty;
    for i := 0 to |pairs|
      invariant Valid(m)
      invariant forall p :: Get(m, p) == LastValue(pairs[..i], p)
    {
      assert pairs[..i + 1][..i] == pairs[..i];
      m := Set(m, pairs[i].0, pairs[i].1);
    }
    assert pairs[..|pairs|] == pairs;
  }
}
