/**
  Depth-2 decision trees of the quiz: one root split on a feature against a
  threshold from a fixed grid, and two leaves that each hold a class (0 or 1).

  Thresholds and point coordinates are two-decimal values; they are written
  here in hundredths (0.35 is 35), so the one comparison the quiz makes,
  `value <= threshold`, is exact integer comparison.
*/
module Trees {

  /** The two numeric features of a test point. */
  datatype Feature = X1 | X2

  /** A test point, each coordinate in hundredths. */
  datatype Point = Point(x1: int, x2: int)

  /** One tree: a point whose `feature` value is at most `threshold` gets `left`, any other gets `right`. */
  datatype Tree = Tree(id: nat, feature: Feature, threshold: int, left: int, right: int)

  /**
    The random outcomes one call of the tree generator consumes, in the order it
    draws them: the feature coin, the uniform draw that picks the threshold, the
    two leaf coins, and the uniform draw of the variety rule.
  */
  datatype TreeDraws = TreeDraws(
    featureCoin: bool,
    thresholdDraw: real,
    leftCoin: bool,
    rightCoin: bool,
    varietyDraw: real)

  /** The threshold grid 0.2, 0.35, 0.5, 0.65, 0.8, in hundredths. */
  const GridThresholds: seq<int> := [20, 35, 50, 65, 80]

  /** The variety rule makes two equal leaves differ when its draw is below this. */
  const VarietyChance: real := 0.7

  predicate IsClass(c: int) {
    c == 0 || c == 1
  }

  /** What every generated tree satisfies: a grid threshold and two class leaves. */
  predicate WellFormed(t: Tree) {
    t.threshold in GridThresholds && IsClass(t.left) && IsClass(t.right)
  }

  /** A uniform draw lies in [0,1). */
  predicate ValidDraws(d: TreeDraws) {
    0.0 <= d.thresholdDraw < 1.0
  }

  /** The value of point `p` for feature `f`. */
  function Coordinate(p: Point, f: Feature): int {
    match f
    case X1 => p.x1
    case X2 => p.x2
  }

  /** The leaf class a coin picks: heads is 0. */
  function CoinClass(heads: bool): (c: int)
    ensures IsClass(c)
  {
    if heads then 0 else 1
  }

  /**
    The index `floor(u * len)` that a uniform choice picks for the draw `u`:
    the bucket of width 1/len that contains `u`, always a valid index.
  */
  function ChoiceIndex(len: nat, u: real): (k: nat)
    requires 0 < len && 0.0 <= u < 1.0
    ensures k < len
    ensures k as real <= u * len as real < (k + 1) as real
  {
    var x := u * len as real;
    assert 0.0 <= x < len as real;
    x.Floor
  }

  /** Uniform choice from a non-empty sequence, for the draw `u`. */
  function RandChoice(arr: seq<int>, u: real): (x: int)
    requires 0 < |arr| && 0.0 <= u < 1.0
    ensures x in arr
    ensures x == arr[ChoiceIndex(|arr|, u)]
  {
    arr[ChoiceIndex(|arr|, u)]
  }

  /**
    The tree the generator builds for `index` from the draws `d`: the feature
    and the left leaf come from their coins, the threshold from the grid, and
    the right leaf from its coin unless it equals the left one and the variety
    draw is below VarietyChance, in which case it is the other class.
  */
  ghost predicate Generated(t: Tree, index: nat, d: TreeDraws)
    requires ValidDraws(d)
  {
    && t.id == index
    && t.feature == (if d.featureCoin then X1 else X2)
    && t.threshold == RandChoice(GridThresholds, d.thresholdDraw)
    && t.left == CoinClass(d.leftCoin)
    && t.right == (if t.left == CoinClass(d.rightCoin) && d.varietyDraw < VarietyChance
                   then 1 - t.left
                   else CoinClass(d.rightCoin))
  }

  /** Builds one random tree, with the random outcomes given as `d`. */
  method GenerateTree(index: nat, d: TreeDraws) returns (t: Tree)
    requires ValidDraws(d)
    ensures Generated(t, index, d)
    ensures t.id == index && WellFormed(t)
    ensures t.left == t.right <==>
              CoinClass(d.leftCoin) == CoinClass(d.rightCoin) && VarietyChance <= d.varietyDraw
  {
    var feature := if d.featureCoin then X1 else X2;
    var threshold := RandChoice(GridThresholds, d.thresholdDraw);
    var left := CoinClass(d.leftCoin);
    var right := CoinClass(d.rightCoin);
    if left == right && d.varietyDraw < VarietyChance {
      right := 1 - left;
    }
    t := Tree(index, feature, threshold, left, right);
  }

  /** The class tree `t` votes for at point `p`. */
  function EvalTree(t: Tree, p: Point): (c: int)
    ensures c == t.left || c == t.right
    ensures WellFormed(t) ==> IsClass(c)
    ensures t.left != t.right ==> (c == t.left <==> Coordinate(p, t.feature) <= t.threshold)
  {
    if Coordinate(p, t.feature) <= t.threshold then t.left else t.right
  }

  /** A point exactly on the threshold is routed to the left leaf. */
  lemma BoundaryGoesLeft(t: Tree, p: Point)
    requires Coordinate(p, t.feature) == t.threshold
    ensures EvalTree(t, p) == t.left
  {
  }

  /**
    Moving a point further out along the split feature never sends it back
    across the split: a point routed right stays right if its split value grows,
    one routed left stays left if it shrinks.
  */
  lemma RoutingIsMonotone(t: Tree, p: Point, q: Point)
    requires Coordinate(p, t.feature) <= Coordinate(q, t.feature)
    ensures Coordinate(p, t.feature) > t.threshold ==> EvalTree(t, q) == t.right
    ensures Coordinate(q, t.feature) <= t.threshold ==> EvalTree(t, p) == t.left
  {
  }
}
