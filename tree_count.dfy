/**
  Normalisation of the requested number of trees: a missing or zero request
  falls back to the default, the count is clamped to the allowed range and an
  even count is bumped to the next odd one, so that binary votes cannot tie.
*/
module TreeCount {
  import opened Options

  const MinTrees: int := 3
  const MaxTrees: int := 15
  const DefaultTrees: int := 5

  /**
    The count asked for: the parsed integer, or the default when parsing failed
    (`None`) or gave 0.
  */
  function Requested(parsed: Option<int>): (r: int)
    ensures r != 0
    ensures parsed.Some? && parsed.value != 0 ==> r == parsed.value
  {
    match parsed
    case None => DefaultTrees
    case Some(k) => if k == 0 then DefaultTrees else k
  }

  /**
    `n` is the effective count for request `r`: odd and in range; the bound
    nearest to `r` when `r` is out of range; otherwise `r` itself when odd, or
    the odd number just above it.
  */
  ghost predicate IsEffectiveCount(r: int, n: int) {
    && MinTrees <= n <= MaxTrees
    && n % 2 == 1
    && (r < MinTrees ==> n == MinTrees)
    && (MaxTrees < r ==> n == MaxTrees)
    && (MinTrees <= r <= MaxTrees ==> r <= n <= r + 1)
  }

  /** The count normalisation done at the start of every round. */
  method NormalizeTreeCount(parsed: Option<int>) returns (n: int)
    ensures IsEffectiveCount(Requested(parsed), n)
    ensures MinTrees <= n <= MaxTrees && n % 2 == 1
    ensures parsed == None || parsed == Some(0) ==> n == DefaultTrees
  {
    n := Requested(parsed);
    if n < MinTrees {
      n := MinTrees;
    }
    if n > MaxTrees {
      n := MaxTrees;
    }
    if n % 2 == 0 {
      n := n + 1;
    }
  }

  /** The characterisation admits exactly one count per request. */
  lemma EffectiveCountIsUnique(r: int, n: int, m: int)
    requires IsEffectiveCount(r, n) && IsEffectiveCount(r, m)
    ensures n == m
  {
  }

  /** Requesting the count that was produced (the value echoed back to the input) yields it again. */
  lemma EffectiveCountIsFixedPoint(r: int, n: int)
    requires IsEffectiveCount(r, n)
    ensures IsEffectiveCount(n, n)
  {
  }

  /** Sample requests: 4 gives 5, 14 gives 15, 20 gives 15, 1 and -2 give 3, the default 5 stays 5. */
  lemma CountExamples()
    ensures IsEffectiveCount(4, 5) && IsEffectiveCount(14, 15) && IsEffectiveCount(20, 15)
    ensures IsEffectiveCount(1, 3) && IsEffectiveCount(-2, 3)
    ensures Requested(None) == 5 && Requested(Some(0)) == 5 && IsEffectiveCount(5, 5)
  {
  }
}
