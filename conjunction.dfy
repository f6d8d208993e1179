/**
 The accumulator of a conjunctive query. `Fold` is the accumulation the index
 performs: an empty accumulator counts as "no constraint yet", so the next hit
 set replaces it instead of being intersected with it. `Intersection` is what
 every hit set has in common, the result the query is meant to return.
 */
module Conjunction {

  /** One accumulation step: intersect with a non-empty accumulator, else take the hits. */
  function Conjoin<T>(acc: set<T>, hits: set<T>): set<T>
  {
    if acc != {} then acc * hits else hits
  }

  /** The accumulator after folding the hit sets left to right, starting from the empty set. */
  function Fold<T>(hs: seq<set<T>>): (r: set<T>)
    ensures hs == [] ==> r == {}
    ensures hs != [] ==> r <= hs[|hs| - 1]
  {
    if hs == [] then {} else Conjoin(Fold(hs[..|hs| - 1]), hs[|hs| - 1])
  }

  /** Folding one more hit set is one more accumulation step. */
  lemma FoldSnoc<T>(hs: seq<set<T>>, h: set<T>)
    ensures Fold(hs + [h]) == Conjoin(Fold(hs), h)
  {
  }

  /** The elements found in every hit set; nothing for no hit sets. */
  function Intersection<T(!new)>(hs: seq<set<T>>): (r: set<T>)
    ensures forall x :: x in r <==> hs != [] && forall j :: 0 <= j < |hs| ==> x in hs[j]
  {
    if hs == [] then {}
    else if |hs| == 1 then hs[0]
    else Intersection(hs[..|hs| - 1]) * hs[|hs| - 1]
  }

  /** While every running accumulator stays non-empty, the fold is the intersection of all hit sets. */
  lemma {:induction false} FoldIsIntersection<T(!new)>(hs: seq<set<T>>)
    requires forall k :: 1 <= k < |hs| ==> Fold(hs[..k]) != {}
    ensures Fold(hs) == Intersection(hs)
  {
    if |hs| > 1 {
      var p := hs[..|hs| - 1];
      forall k | 1 <= k < |p| ensures Fold(p[..k]) != {} {
        assert p[..k] == hs[..k];
      }
      FoldIsIntersection(p);
      assert Fold(p) != {};
    } else if |hs| == 1 {
      assert hs[..0] == [];
    }
  }

  /** The fold never loses an element common to all hit sets: the quirk only adds results. */
  lemma {:induction false} FoldCoversIntersection<T(!new)>(hs: seq<set<T>>)
    ensures Intersection(hs) <= Fold(hs)
  {
    if |hs| > 1 {
      var p := hs[..|hs| - 1];
      FoldCoversIntersection(p);
      forall x | x in Intersection(hs) ensures x in Fold(hs) {
        assert forall j :: 0 <= j < |p| ==> p[j] == hs[j];
        assert x in Intersection(p);
      }
    }
  }

  /** Once the accumulator is empty, the next hit set replaces it unintersected. */
  lemma FoldAfterEmpty<T>(hs: seq<set<T>>, k: nat)
    requires k < |hs| && Fold(hs[..k]) == {}
    ensures Fold(hs[..k + 1]) == hs[k]
  {
    assert hs[..k + 1][..k] == hs[..k];
  }

  /** The accumulation diverges from the intersection: hits after an empty first word leak through. */
  lemma FoldLeaksAfterEmptyHits()
    ensures Fold([{}, {1}]) == {1}
    ensures Intersection([{}, {1}]) == {}
  {
  }
}
