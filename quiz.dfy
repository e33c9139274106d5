/**
  The quiz round: the state shared by all operations, rebuilt by each new
  question and read when the user guesses the forest's majority.
*/
module Quiz {
  import opened Options
  import opened Trees
  import opened Votes
  import opened TreeCount

  /** What a guess produces: nothing before the first round, otherwise the verdict and the reveal. */
  datatype GuessOutcome =
    | NoRound
    | Judged(correct: bool, majority: int, votes: seq<int>, count0: nat, count1: nat)

  class QuizState {
    var trees: seq<Tree>
    var point: Option<Point>
    var votes: seq<int>
    var majority: Option<int>

    /**
      Trees carry their position as id and are well formed; once a round
      exists its size is odd and in range, and the votes and majority are
      those of its trees on its point.
    */
    ghost predicate Valid()
      reads this
    {
      && (forall i :: 0 <= i < |trees| ==> trees[i].id == i && WellFormed(trees[i]))
      && (trees == [] ==> votes == [])
      && (trees != [] ==>
            && MinTrees <= |trees| <= MaxTrees
            && |trees| % 2 == 1
            && point.Some?
            && votes == VotesOf(trees, point.value)
            && majority == Some(MajorityOf(votes)))
    }

    /** The state before the first round: no trees, no point, no votes, no majority. */
    constructor ()
      ensures Valid()
      ensures trees == [] && point == None && votes == [] && majority == None
    {
      trees := [];
      point := None;
      votes := [];
      majority := None;
    }

    /** Recomputes the votes of the current trees on the current point, and their majority. */
    method ComputeVotes()
      requires trees != [] ==> point.Some?
      modifies this`votes, this`majority
      ensures |votes| == |trees|
      ensures forall i :: 0 <= i < |trees| ==> votes[i] == EvalTree(trees[i], point.value)
      ensures trees != [] ==> votes == VotesOf(trees, point.value)
      ensures majority == Some(MajorityOf(votes))
      ensures old(Valid()) ==> Valid()
    {
      votes := if trees == [] then [] else VotesOf(trees, point.value);
      majority := Some(MajorityOf(votes));
    }

    /**
      Starts a new round from the parsed tree-count input, the random draws for
      each tree (at least as many as the largest count; the first `n` are used)
      and the test point. Returns the effective count, which the quiz writes
      back to its input.
    */
    method NewQuestion(parsed: Option<int>, draws: seq<TreeDraws>, p: Point) returns (n: int)
      requires MaxTrees <= |draws|
      requires forall i :: 0 <= i < |draws| ==> ValidDraws(draws[i])
      modifies this
      ensures Valid()
      ensures IsEffectiveCount(Requested(parsed), n)
      ensures |trees| == n
      ensures forall i :: 0 <= i < n ==> trees[i].id == i && Generated(trees[i], i, draws[i])
      ensures point == Some(p)
      ensures |votes| == n && forall i :: 0 <= i < n ==> votes[i] == EvalTree(trees[i], p)
      ensures majority == Some(MajorityOf(votes))
    {
      n := NormalizeTreeCount(parsed);
      var forest: seq<Tree> := [];
      var i := 0;
      while i < n
        invariant 0 <= i <= n
        invariant |forest| == i
        invariant forall j :: 0 <= j < i ==>
                    forest[j].id == j && WellFormed(forest[j]) && Generated(forest[j], j, draws[j])
      {
        var t := GenerateTree(i, draws[i]);
        forest := forest + [t];
        i := i + 1;
      }
      trees := forest;
      point := Some(p);
      ComputeVotes();
    }

    /** The reveal tally: how many trees voted 0 and how many voted 1. */
    method RevealCounts() returns (count0: int, count1: int)
      requires Valid()
      ensures count1 == Count(votes, 1)
      ensures count0 == Count(votes, 0)
      ensures count0 + count1 == |votes|
    {
      count1 := Count(votes, 1);
      count0 := |votes| - count1;
      BinaryCountsPartition(votes);
    }

    /**
      Judges the guess `g` against the current round. Before any round nothing
      happens; otherwise the guess is correct exactly when it is the majority,
      which is exactly when more than half of the trees voted for it.
    */
    method HandleGuess(g: int) returns (r: GuessOutcome)
      requires Valid()
      ensures r == NoRound <==> trees == []
      ensures r.Judged? ==>
                && majority.Some?
                && r.majority == majority.value
                && r.correct == (g == majority.value)
                && r.votes == votes
      ensures r.Judged? ==> (r.correct <==> 2 * Count(votes, g) > |votes|)
      ensures r.Judged? ==>
                r.count1 == Count(votes, 1) && r.count0 == Count(votes, 0) &&
                r.count0 + r.count1 == |votes|
    {
      if trees == [] {
        return NoRound;
      }
      var count0, count1 := RevealCounts();
      GuessMatchesMajorityIffMoreThanHalf(votes, g);
      r := Judged(g == majority.value, majority.value, votes, count0, count1);
    }
  }
}
