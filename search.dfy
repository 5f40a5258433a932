/** The best-fit search of `resizeContent`, over the distances it measures.
    Step `i` of the search, for `i` = 100 down to 1, tries the wrap-width
    fraction i/100; `ds` holds the distance measured at each step, step `i`
    at index i - 1. The layout engine that produces the distances is in the
    Embiggen module. */
module BestFit {
  import opened Dom

  /** The wrap-width fraction of step `i`. */
  function Factor(i: int): (f: real)
    requires 1 <= i <= 100
    ensures 0.0 < f <= 1.0
  {
    i as real / 100.0
  }

  /** The fractions strictly decrease from step to step. */
  lemma FactorsDecrease(i: int, j: int)
    requires 1 <= i < j <= 100
    ensures Factor(i) < Factor(j)
  {
  }

  /** The distances of all 100 steps. */
  predicate Measured(ds: seq<real>) {
    |ds| == 100
  }

  /** The distance measured at step `i`. */
  function At(ds: seq<real>, i: int): real
    requires Measured(ds) && 1 <= i <= 100
  {
    ds[i - 1]
  }

  /** The running state of the search: the best distance seen so far and the
      factor that achieved it, when one was recorded. */
  datatype Search = Search(bestDistance: Option<real>, bestFactor: Option<real>)

  /** One step of the search: the first step only seeds the best distance; a
      later step replaces both only when its distance is strictly smaller.
      Afterwards a best distance is set, no larger than the one before or than
      this step's distance, and the factor changes only to this step's, and
      only when this step is strictly closer than an earlier one. */
  function Visit(s: Search, factor: real, distance: real): (r: Search)
    ensures r.bestDistance.Some?
    ensures r.bestDistance.value <= distance
    ensures s.bestDistance.Some? ==> r.bestDistance.value <= s.bestDistance.value
    ensures r.bestFactor == s.bestFactor || r.bestFactor == Some(factor)
    ensures r.bestFactor != s.bestFactor ==>
      s.bestDistance.Some? && distance < s.bestDistance.value && r.bestDistance == Some(distance)
  {
    if s.bestDistance.None? then Search(Some(distance), s.bestFactor)
    else if distance < s.bestDistance.value then Search(Some(distance), Some(factor))
    else s
  }

  /** The search state after visiting steps 100, 99, ..., lo, in that order. */
  function SearchDown(ds: seq<real>, lo: int): Search
    requires Measured(ds) && 1 <= lo <= 101
    decreases 101 - lo
  {
    if lo == 101 then Search(None, None)
    else Visit(SearchDown(ds, lo + 1), Factor(lo), At(ds, lo))
  }

  /** One more step of the fold. */
  lemma SearchDownStep(ds: seq<real>, lo: int)
    requires Measured(ds) && 1 <= lo <= 100
    ensures SearchDown(ds, lo) == Visit(SearchDown(ds, lo + 1), Factor(lo), At(ds, lo))
  {
  }

  /** No step in [lo, 99] beats the first one, factor 1.00. */
  ghost predicate FirstUnbeaten(ds: seq<real>, lo: int)
    requires Measured(ds) && 1 <= lo <= 100
  {
    forall m :: lo <= m < 100 ==> At(ds, 100) <= At(ds, m)
  }

  /** Step `j` wins among steps [lo, 100]: its distance is strictly below that
      of every step visited before it (the larger fractions, factor 1.00
      included), and no worse than that of any step visited after it. */
  ghost predicate WinsAt(ds: seq<real>, lo: int, j: int)
    requires Measured(ds) && 1 <= lo <= 100
  {
    lo <= j < 100 &&
    (forall m :: j < m <= 100 ==> At(ds, j) < At(ds, m)) &&
    (forall m :: lo <= m < j ==> At(ds, j) <= At(ds, m))
  }

  /** The best distance after visiting steps 100 down to `lo` is the minimum
      of their distances. */
  lemma {:induction false} SearchDownIsMin(ds: seq<real>, lo: int)
    requires Measured(ds) && 1 <= lo <= 100
    ensures var s := SearchDown(ds, lo);
      && s.bestDistance.Some?
      && (forall m :: lo <= m <= 100 ==> s.bestDistance.value <= At(ds, m))
      && (exists m :: lo <= m <= 100 && s.bestDistance.value == At(ds, m))
    decreases 100 - lo
  {
    if lo == 100 {
      assert SearchDown(ds, 101) == Search(None, None);
      assert SearchDown(ds, lo).bestDistance == Some(At(ds, 100));
    } else {
      SearchDownIsMin(ds, lo + 1);
      var p := SearchDown(ds, lo + 1);
      var mw :| lo + 1 <= mw <= 100 && p.bestDistance.value == At(ds, mw);
      if At(ds, lo) < p.bestDistance.value {
        assert SearchDown(ds, lo).bestDistance == Some(At(ds, lo));
      } else {
        assert SearchDown(ds, lo) == p;
      }
    }
  }

  /** What the search records: no factor exactly when factor 1.00 is not
      strictly beaten, and then the best distance is that of factor 1.00;
      otherwise the factor of the winning step, which is never the first one,
      together with its distance. */
  lemma {:induction false} SearchDownIsArgmin(ds: seq<real>, lo: int)
    requires Measured(ds) && 1 <= lo <= 100
    ensures var s := SearchDown(ds, lo);
      && s.bestDistance.Some?
      && (s.bestFactor.None? <==> FirstUnbeaten(ds, lo))
      && (s.bestFactor.None? ==> s.bestDistance.value == At(ds, 100))
      && (s.bestFactor.Some? ==>
            exists j :: (WinsAt(ds, lo, j)
              && s.bestFactor.value == Factor(j)
              && s.bestDistance.value == At(ds, j)))
    decreases 100 - lo
  {
    var s := SearchDown(ds, lo);
    SearchDownIsMin(ds, lo);
    if lo == 100 {
      assert SearchDown(ds, 101) == Search(None, None);
      assert s == Search(Some(At(ds, 100)), None);
    } else {
      SearchDownIsArgmin(ds, lo + 1);
      SearchDownIsMin(ds, lo + 1);
      var p := SearchDown(ds, lo + 1);
      var d := At(ds, lo);
      if d < p.bestDistance.value {
        assert s == Search(Some(d), Some(Factor(lo)));
        assert WinsAt(ds, lo, lo);
        assert !FirstUnbeaten(ds, lo);
      } else {
        assert s == p;
        if p.bestFactor.Some? {
          var j :| WinsAt(ds, lo + 1, j)
            && p.bestFactor.value == Factor(j)
            && p.bestDistance.value == At(ds, j);
          assert WinsAt(ds, lo, j);
          assert !FirstUnbeaten(ds, lo);
        } else {
          assert FirstUnbeaten(ds, lo);
        }
      }
    }
  }

  /** At most one step wins, so WinsAt determines the recorded factor. */
  lemma WinnerIsUnique(ds: seq<real>, lo: int, j: int, k: int)
    requires Measured(ds) && 1 <= lo <= 100
    requires WinsAt(ds, lo, j) && lo <= k < 100 && k != j
    ensures !WinsAt(ds, lo, k)
  {
    if k < j {
      assert At(ds, j) <= At(ds, k);
    } else {
      assert At(ds, j) < At(ds, k);
    }
  }

  /** The factor the search over all 100 steps records, if any. */
  function BestFactor(ds: seq<real>): Option<real>
    requires Measured(ds)
  {
    SearchDown(ds, 1).bestFactor
  }

  /** What the full search records: nothing exactly when factor 1.00 is not
      strictly beaten, otherwise the factor of the winning step, one of
      0.01, ..., 0.99. */
  lemma BestFactorIsArgmin(ds: seq<real>)
    requires Measured(ds)
    ensures var f := BestFactor(ds);
      && (f.None? <==> FirstUnbeaten(ds, 1))
      && (f.Some? ==> exists j :: WinsAt(ds, 1, j) && f.value == Factor(j))
      && (f.Some? ==> 0.01 <= f.value <= 0.99)
  {
    SearchDownIsArgmin(ds, 1);
  }

  /** The recorded factor alone: nothing when factor 1.00 is not strictly
      beaten, otherwise a fraction strictly between 0 and 1. */
  lemma BestFactorRange(ds: seq<real>)
    requires Measured(ds)
    ensures var f := BestFactor(ds);
      && (f.None? <==> FirstUnbeaten(ds, 1))
      && (f.Some? ==> 0.01 <= f.value <= 0.99)
  {
    BestFactorIsArgmin(ds);
  }

  /** The width committed after the full search: none when factor 1.00 is not
      strictly beaten, otherwise `natural` times the recorded factor, which is
      strictly narrower than the natural width. */
  lemma CommittedWidth(natural: real, ds: seq<real>)
    requires natural > 0.0 && Measured(ds)
    ensures BestFactor(ds).None? <==> FirstUnbeaten(ds, 1)
    ensures BestFactor(ds).None? ==> Commit(natural, BestFactor(ds)) == None
    ensures BestFactor(ds).Some? ==>
      && Commit(natural, BestFactor(ds)) == Some(natural * BestFactor(ds).value)
      && 0.0 < natural * BestFactor(ds).value < natural
  {
    BestFactorRange(ds);
    CommitBounds(natural, BestFactor(ds));
  }

  /** When every step measures the same distance, which happens when every
      candidate width reflows to exactly the container's aspect ratio, no
      factor is recorded. */
  lemma AllTiedRecordsNothing(ds: seq<real>)
    requires Measured(ds)
    requires forall k :: 0 <= k < |ds| ==> ds[k] == ds[99]
    ensures BestFactor(ds) == None
  {
    BestFactorIsArgmin(ds);
    assert FirstUnbeaten(ds, 1);
  }

  /** JavaScript truthiness of `bestFactor`: null and 0 are falsy. */
  predicate Truthy(f: Option<real>) {
    f.Some? && f.value != 0.0
  }

  /** The width style committed after the search: `natural * bestFactor`
      pixels when `bestFactor` is truthy, otherwise no width. */
  function Commit(natural: real, bestFactor: Option<real>): Option<real> {
    if Truthy(bestFactor) then Some(natural * bestFactor.value) else None
  }

  /** For a recorded factor, which lies strictly between 0 and 1, a width is
      committed, and it is narrower than the natural width. */
  lemma CommitBounds(natural: real, f: Option<real>)
    requires natural > 0.0
    requires f.Some? ==> 0.0 < f.value < 1.0
    ensures f.None? ==> Commit(natural, f) == None
    ensures f.Some? ==> Commit(natural, f) == Some(natural * f.value)
    ensures f.Some? ==> 0.0 < natural * f.value < natural
  {
  }
}
