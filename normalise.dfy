/** Normalising: `get_summary` divides every count by the largest count, in
    place, after `max` over the counts (which fails on an empty map). */
module Normalise {
  import opened Document

  /** A non-empty finite set of naturals has a largest element. */
  lemma {:induction false} LargestExists(s: set<nat>)
    requires s != {}
    ensures exists m :: m in s && forall v :: v in s ==> v <= m
    decreases |s|
  {
    var x :| x in s;
    if s != {x} {
      var rest := s - {x};
      LargestExists(rest);
      var m :| m in rest && forall v :: v in rest ==> v <= m;
      assert s == rest + {x};
      if x <= m {
        assert forall v :: v in s ==> v <= m;
      } else {
        assert forall v :: v in s ==> v <= x;
      }
    } else {
      assert forall v :: v in s ==> v <= x;
    }
  }

  /** `max(freq.values())`: the largest count of a non-empty map. */
  function MaxCount(freq: map<string, nat>): (m: nat)
    requires freq != map[]
    ensures exists k :: k in freq && freq[k] == m
    ensures forall k :: k in freq ==> freq[k] <= m
  {
    var k0 :| k0 in freq;
    assert freq[k0] in freq.Values;
    LargestExists(freq.Values);
    var m :| m in freq.Values && forall v :: v in freq.Values ==> v <= m;
    assert forall k :: k in freq ==> freq[k] in freq.Values;
    m
  }

  /** Counts are positive, as `word_frequency` produces them. */
  predicate PositiveCounts(freq: map<string, nat>) {
    forall k :: k in freq ==> freq[k] > 0
  }

  /** The normalised map: every count divided by the largest count. */
  function Normalised(freq: map<string, nat>): map<string, real>
    requires freq != map[] && PositiveCounts(freq)
  {
    var m := MaxCount(freq);
    map k | k in freq :: freq[k] as real / m as real
  }

  /** Normalisation keeps the keys; every weight lies in (0, 1]; a key holding
      the largest count gets exactly 1 and at least one key does; and the
      order of the counts is kept: one weight is at most another exactly when
      its count is. */
  lemma NormalisedRange(freq: map<string, nat>)
    requires freq != map[] && PositiveCounts(freq)
    ensures Normalised(freq).Keys == freq.Keys
    ensures forall k :: k in freq ==> 0.0 < Normalised(freq)[k] <= 1.0
    ensures forall k :: k in freq && freq[k] == MaxCount(freq) ==> Normalised(freq)[k] == 1.0
    ensures exists k :: k in freq && Normalised(freq)[k] == 1.0
    ensures forall a, b :: a in freq && b in freq ==>
      (Normalised(freq)[a] <= Normalised(freq)[b] <==> freq[a] <= freq[b])
  {
    var m := MaxCount(freq);
    var w := Normalised(freq);
    forall k | k in freq ensures 0.0 < w[k] <= 1.0 && w[k] * m as real == freq[k] as real {
      DivideBounds(freq[k] as real, m as real);
    }
    forall a, b | a in freq && b in freq ensures w[a] <= w[b] <==> freq[a] <= freq[b] {
      DivideMonotone(freq[a] as real, freq[b] as real, m as real);
    }
    var top :| top in freq && freq[top] == m;
    DivideSelf(m as real);
    assert w[top] == 1.0;
  }

  lemma DivideBounds(x: real, m: real)
    requires 0.0 < x <= m
    ensures 0.0 < x / m <= 1.0 && (x / m) * m == x
  {
  }

  lemma DivideSelf(m: real)
    requires 0.0 < m
    ensures m / m == 1.0
  {
  }

  lemma DivideMonotone(x: real, y: real, m: real)
    requires 0.0 < m
    ensures x / m <= y / m <==> x <= y
  {
    if x / m <= y / m {
      assert x == (x / m) * m && y == (y / m) * m;
    }
  }

  /** The normalisation loop of `get_summary`: fails like `max` on an empty
      map; otherwise rewrites each value, one key at a time, to its count
      divided by the largest count. */
  method NormaliseFrequencies(freq: map<string, nat>) returns (r: Result<map<string, real>>)
    requires PositiveCounts(freq)
    ensures freq == map[] <==> r.Failure?
    ensures r.Failure? ==> r.error == NoScorableContent
    ensures r.Success? ==> r.value == Normalised(freq)
  {
    if freq == map[] {
      return Failure(NoScorableContent);
    }
    var maxFreq := MaxCount(freq);
    var weights: map<string, real> := map k | k in freq :: freq[k] as real;
    var todo := freq.Keys;
    while todo != {}
      invariant todo <= freq.Keys && weights.Keys == freq.Keys
      invariant forall k :: k in todo ==> weights[k] == freq[k] as real
      invariant forall k :: k in freq && k !in todo ==> weights[k] == freq[k] as real / maxFreq as real
      decreases todo
    {
      var k :| k in todo;
      weights := weights[k := weights[k] / maxFreq as real];
      todo := todo - {k};
    }
    return Success(weights);
  }
}
