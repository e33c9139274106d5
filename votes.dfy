/**
  Aggregation of the trees' votes into the forest's majority class.
*/
module Votes {
  import opened Trees

  /** One vote per tree, in forest order; every vote is a class when every tree is well formed. */
  function VotesOf(trees: seq<Tree>, p: Point): (vs: seq<int>)
    ensures |vs| == |trees|
    ensures (forall i :: 0 <= i < |trees| ==> WellFormed(trees[i])) ==> AllBinary(vs)
  {
    seq(|trees|, i requires 0 <= i < |trees| => EvalTree(trees[i], p))
  }

  /** The sum of the votes, folded from the left as the quiz adds them up; for 0/1 votes it lies between 0 and the number of votes. */
  function Sum(vs: seq<int>): (s: int)
    ensures AllBinary(vs) ==> 0 <= s <= |vs|
  {
    if vs == [] then 0
    else
      var init := vs[..|vs| - 1];
      PrefixKeepsBinary(vs);
      Sum(init) + vs[|vs| - 1]
  }

  /** How many votes equal `c`. */
  function Count(vs: seq<int>, c: int): (k: nat)
    ensures k <= |vs|
  {
    if vs == [] then 0 else Count(vs[..|vs| - 1], c) + (if vs[|vs| - 1] == c then 1 else 0)
  }

  /** The forest's answer: 1 when twice the vote sum exceeds the number of votes, else 0. */
  function MajorityOf(vs: seq<int>): (m: int)
    ensures IsClass(m)
  {
    if 2 * Sum(vs) > |vs| then 1 else 0
  }

  predicate AllBinary(vs: seq<int>) {
    forall i :: 0 <= i < |vs| ==> IsClass(vs[i])
  }

  /** Dropping the last vote of a binary list leaves a binary list. */
  lemma PrefixKeepsBinary(vs: seq<int>)
    requires vs != []
    ensures AllBinary(vs) ==> AllBinary(vs[..|vs| - 1])
  {
    assert forall i :: 0 <= i < |vs| - 1 ==> vs[..|vs| - 1][i] == vs[i];
  }

  /** For binary votes the sum is the number of 1-votes. */
  lemma {:induction false} SumOfBinaryIsCountOfOnes(vs: seq<int>)
    requires AllBinary(vs)
    ensures Sum(vs) == Count(vs, 1)
  {
    if vs != [] {
      var init := vs[..|vs| - 1];
      PrefixKeepsBinary(vs);
      SumOfBinaryIsCountOfOnes(init);
    }
  }

  /** Binary votes split into 0-votes and 1-votes. */
  lemma {:induction false} BinaryCountsPartition(vs: seq<int>)
    requires AllBinary(vs)
    ensures Count(vs, 0) + Count(vs, 1) == |vs|
  {
    if vs != [] {
      var init := vs[..|vs| - 1];
      PrefixKeepsBinary(vs);
      BinaryCountsPartition(init);
    }
  }

  /** A value that is not a class gets no binary vote. */
  lemma NonClassGetsNoVotes(vs: seq<int>, c: int)
    requires AllBinary(vs) && !IsClass(c)
    ensures Count(vs, c) == 0
  {
    NoneEqualCountsZero(vs, c);
  }

  /** For binary votes the majority is 1 exactly when more than half the votes are 1. */
  lemma MajorityIsOneIffMoreThanHalfOnes(vs: seq<int>)
    requires AllBinary(vs)
    ensures MajorityOf(vs) == 1 <==> 2 * Count(vs, 1) > |vs|
    ensures MajorityOf(vs) == 0 <==> 2 * Count(vs, 1) <= |vs|
  {
    SumOfBinaryIsCountOfOnes(vs);
  }

  /** An exact tie between 0-votes and 1-votes gives class 0. */
  lemma TieGivesZero(vs: seq<int>)
    requires AllBinary(vs)
    requires Count(vs, 0) == Count(vs, 1)
    ensures MajorityOf(vs) == 0
  {
    SumOfBinaryIsCountOfOnes(vs);
    BinaryCountsPartition(vs);
  }

  /**
    With an odd number of binary votes there is no tie: the majority class has
    more than half the votes and the other class fewer than half.
  */
  lemma OddCountHasStrictMajority(vs: seq<int>)
    requires AllBinary(vs)
    requires |vs| % 2 == 1
    ensures 2 * Count(vs, MajorityOf(vs)) > |vs|
    ensures 2 * Count(vs, 1 - MajorityOf(vs)) < |vs|
  {
    SumOfBinaryIsCountOfOnes(vs);
    BinaryCountsPartition(vs);
  }

  /**
    With an odd number of binary votes, a guess names the majority exactly when
    more than half of the votes are for it.
  */
  lemma GuessMatchesMajorityIffMoreThanHalf(vs: seq<int>, g: int)
    requires AllBinary(vs)
    requires |vs| % 2 == 1
    ensures g == MajorityOf(vs) <==> 2 * Count(vs, g) > |vs|
  {
    OddCountHasStrictMajority(vs);
    if !IsClass(g) {
      NonClassGetsNoVotes(vs, g);
    }
  }

  /** Five trees splitting x1 at 0.5 with leaves 0 and 1 all vote 0 for a point with x1 = 0.3. */
  lemma ScenarioAllLeft(x2: int)
    ensures var t := i => Tree(i, X1, 50, 0, 1);
            var vs := VotesOf([t(0), t(1), t(2), t(3), t(4)], Point(30, x2));
            vs == [0, 0, 0, 0, 0] && MajorityOf(vs) == 0
  {
    var t := i => Tree(i, X1, 50, 0, 1);
    var vs := VotesOf([t(0), t(1), t(2), t(3), t(4)], Point(30, x2));
    assert vs == [0, 0, 0, 0, 0];
    assert AllBinary(vs);
    SumOfBinaryIsCountOfOnes(vs);
    assert Count(vs, 1) == 0 by {
      assert forall i :: 0 <= i < |vs| ==> vs[i] != 1;
      NoneEqualCountsZero(vs, 1);
    }
  }

  /** Votes 1, 1, 0 give majority 1. */
  lemma ScenarioTwoOfThree()
    ensures MajorityOf([1, 1, 0]) == 1
  {
    var vs := [1, 1, 0];
    assert vs[..2] == [1, 1] && [1, 1][..1] == [1] && [1][..0] == [];
    assert Sum([1]) == 1;
    assert Sum([1, 1]) == 2;
    assert Sum(vs) == 2;
  }

  /** A value that no vote equals has count 0. */
  lemma {:induction false} NoneEqualCountsZero(vs: seq<int>, c: int)
    requires forall i :: 0 <= i < |vs| ==> vs[i] != c
    ensures Count(vs, c) == 0
  {
    if vs != [] {
      NoneEqualCountsZero(vs[..|vs| - 1], c);
    }
  }
}
