/**
 * The value of CALCULATE_JACCARD_SIMILARITY: the number of shingles two
 * (file, length) pairs share, divided by the number of shingles either has.
 * The quotient is kept as its two counts; an empty union is the division by
 * zero the database reports as an error.
 */
module Similarity {

  /** |X ∩ Y| over |X ∪ Y|, both counted exactly. */
  datatype Ratio = Ratio(shared: nat, total: nat)

  datatype Jaccard = Defined(ratio: Ratio) | Undefined

  /** J(X, Y) = |X ∩ Y| / |X ∪ Y|, undefined when both sets are empty. */
  function JaccardOf(x: set<string>, y: set<string>): (r: Jaccard)
    ensures r.Undefined? <==> x == {} && y == {}
    ensures r.Defined? ==> 1 <= r.ratio.total && r.ratio.shared <= r.ratio.total
    ensures r.Defined? ==> r.ratio.shared <= |x| <= r.ratio.total && r.ratio.shared <= |y| <= r.ratio.total
  {
    if x + y == {} then Undefined
    else
      assert x * y <= x && x <= x + y && y <= x + y;
      SubsetCard(x * y, x);
      SubsetCard(x * y, y);
      SubsetCard(x, x + y);
      SubsetCard(y, x + y);
      Defined(Ratio(|x * y|, |x + y|))
  }

  lemma {:induction false} SubsetCard(a: set<string>, b: set<string>)
    requires a <= b
    ensures |a| <= |b|
  {
    if a != {} {
      var e :| e in a;
      SubsetCard(a - {e}, b - {e});
    }
  }

  /** The two counts add up to the sizes of the two sets. */
  lemma InclusionExclusion(x: set<string>, y: set<string>)
    requires x != {} || y != {}
    ensures JaccardOf(x, y).ratio.shared + JaccardOf(x, y).ratio.total == |x| + |y|
  {
  }

  /** The order of the two files does not matter. */
  lemma JaccardSymmetric(x: set<string>, y: set<string>)
    ensures JaccardOf(x, y) == JaccardOf(y, x)
  {
    assert x * y == y * x && x + y == y + x;
  }

  /** A file compared with itself has similarity 1, provided it has a shingle. */
  lemma JaccardIdentity(x: set<string>)
    requires x != {}
    ensures JaccardOf(x, x) == Defined(Ratio(|x|, |x|))
  {
    assert x * x == x && x + x == x;
  }

  /** Files with no shingle in common have similarity 0. */
  lemma JaccardDisjoint(x: set<string>, y: set<string>)
    requires x * y == {}
    requires x != {} || y != {}
    ensures JaccardOf(x, y) == Defined(Ratio(0, |x| + |y|))
  {
  }

  /** The similarity is 1 exactly when the two shingle sets are equal. */
  lemma JaccardOneIffEqual(x: set<string>, y: set<string>)
    requires x != {} || y != {}
    ensures JaccardOf(x, y).ratio.shared == JaccardOf(x, y).ratio.total <==> x == y
  {
    if x == y {
      JaccardIdentity(x);
    } else {
      var r := JaccardOf(x, y).ratio;
      InclusionExclusion(x, y);
      if x - y != {} {
        var e :| e in x - y;
        assert x * y <= x - {e};
        SubsetCard(x * y, x - {e});
        SubsetCard(x, x + y);
      } else {
        var e :| e in y - x;
        assert x * y <= y - {e};
        SubsetCard(x * y, y - {e});
        SubsetCard(y, x + y);
      }
    }
  }

  /** The similarity is 0 exactly when the two shingle sets are disjoint. */
  lemma JaccardZeroIffDisjoint(x: set<string>, y: set<string>)
    requires x != {} || y != {}
    ensures JaccardOf(x, y).ratio.shared == 0 <==> x * y == {}
  {
  }
}
