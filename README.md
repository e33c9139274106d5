# Random-forest intuition quiz, modelled in Dafny

The quiz shows an odd number of random depth-2 decision trees and one test point. The learner guesses the forest's majority class, and then every tree's vote is revealed. This project models the quiz logic and proves its properties:

- the normalisation of the requested tree count;
- generation of a tree from its random draws;
- evaluation of a tree on a point;
- aggregation of the votes into a majority;
- the round state that a new question rebuilds and a guess reads, with the reveal tally.

Modules, one per component:

- `Trees` (`trees.dfy`): features, points, trees, the threshold grid, the uniform choice, tree generation and evaluation.
- `Votes` (`votes.dfy`): the vote list, its sum and counts, the majority rule and the lemmas about it.
- `TreeCount` (`tree_count.dfy`): the tree-count normalisation.
- `Quiz` (`quiz.dfy`): the class `QuizState` holding `trees`, `point`, `votes` and `majority`. `point` and `majority` start as `None`, for the source's `null`.
- `Options` (`options.dfy`): the `Option` datatype.

Numbers. Thresholds (0.2, 0.35, 0.5, 0.65, 0.8) and point coordinates are two-decimal values, written here as integer hundredths. Both come from two-decimal decimal literals, and rounding such a literal to a double preserves order and equality. So the one comparison the quiz makes, `value <= threshold`, is exact integer comparison here.

Randomness. Every `Math.random()` outcome is a parameter. Per tree, a `TreeDraws` record holds:

- the feature coin;
- the uniform draw in [0,1) that picks the threshold as `floor(u * 5)`;
- the two leaf coins;
- the variety draw, compared against 0.7.

`NewQuestion` receives one record per possible tree (at least 15) and uses the first `n`. The test point is passed in as a parameter.

Three behaviours of the program worth knowing:

- The comment at script.js:54 sounds as if ties went to 1. But its condition `sum * 2 > n`, the code's own at script.js:55, is strict, so an exact tie gives 0. Ties cannot happen with the odd counts the quiz uses (`Votes.TieGivesZero`, `Votes.OddCountHasStrictMajority`).
- A guess with no trees returns `NoRound` and judges nothing (script.js:142).
- A guess can be judged again in the same round: nothing in the state records that the votes were revealed.

## Model

| member | source | states |
|---|---|---|
| Trees.CoinClass | script.js:31-32 | a leaf coin always yields a class, 0 or 1 |
| Trees.ChoiceIndex | script.js:22 | `floor(u * len)` for `u` in [0,1) is a valid index, and it is the bucket of width 1/len that contains `u` |
| Trees.RandChoice | script.js:22 | a uniform choice always returns an element of the non-empty sequence |
| Trees.GenerateTree | script.js:20-37 | the tree gets `id == index`, a threshold from the grid and class leaves. The feature is x1 exactly when the feature coin (script.js:28) comes up heads. Feature, threshold and leaves come from their draws as the generator defines them. The leaves end up equal exactly when the two coins agreed and the variety draw was at least 0.7; otherwise the right leaf becomes `1 - left` |
| Trees.EvalTree | script.js:46-49 | the vote is one of the tree's two leaves, and a class when the tree is well formed. When the leaves differ, the vote is the left leaf exactly when the value read at script.js:47, `Coordinate(p, t.feature)`, is at most the threshold |
| Trees.BoundaryGoesLeft | script.js:48 | a point exactly on the threshold goes to the left leaf |
| Trees.RoutingIsMonotone | script.js:48 | increasing the split value never moves a point from right to left, and decreasing it never moves a point from left to right |
| Votes.Count | script.js:119 | the number of votes equal to a value is at most the number of votes |
| Votes.MajorityOf | script.js:53-55 | the majority is always a class |
| Votes.VotesOf | script.js:52 | the `map` over the trees casts one vote per tree, and every vote is 0 or 1 when every tree is well formed |
| Votes.Sum | script.js:53 | the `reduce` sum of 0/1 votes lies between 0 and the number of votes; `Votes.SumOfBinaryIsCountOfOnes` shows it equals the number of 1-votes |
| Votes.SumOfBinaryIsCountOfOnes | script.js:53 | for 0/1 votes, the reduced sum equals the number of 1-votes |
| Votes.BinaryCountsPartition | script.js:119-120 | for 0/1 votes, the 0-votes and 1-votes together are all the votes |
| Votes.NonClassGetsNoVotes | script.js:143 | a guess that is neither 0 nor 1 gets no votes |
| Votes.MajorityIsOneIffMoreThanHalfOnes | script.js:53-55 | for 0/1 votes, the majority is 1 iff twice the number of 1-votes exceeds the number of votes, and 0 otherwise |
| Votes.TieGivesZero | script.js:54-55 | an exact tie between 0-votes and 1-votes gives majority 0 |
| Votes.OddCountHasStrictMajority | script.js:55 | with an odd number of 0/1 votes, the majority class holds more than half of them and the other class fewer than half |
| Votes.GuessMatchesMajorityIffMoreThanHalf | script.js:143 | with an odd number of 0/1 votes, a guess equals the majority iff more than half of the votes are for it |
| Votes.ScenarioAllLeft | script.js:46-55 | five trees splitting x1 at 0.5 with leaves 0 and 1 all vote 0 on a point with x1 = 0.3, so the majority is 0 |
| Votes.ScenarioTwoOfThree | script.js:53-55 | votes 1, 1, 0 give majority 1 |
| TreeCount.Requested | script.js:127 | the fallback to 5 never yields 0, and it keeps any parsed non-zero value; `TreeCount.NormalizeTreeCount` shows that a failed parse or 0 gives 5 |
| TreeCount.NormalizeTreeCount | script.js:127-128 | the count is odd and in [3,15]. A failed parse or 0 gives 5. A request below 3 gives 3 and one above 15 gives 15. In range, the count is the request when that is odd, else the next odd number |
| TreeCount.EffectiveCountIsUnique | script.js:127-128 | the characterisation fixes exactly one count per request |
| TreeCount.EffectiveCountIsFixedPoint | script.js:127-129 | normalising the count that was written back to the input gives the same count |
| TreeCount.CountExamples | script.js:127-128 | 4 gives 5, 14 gives 15, 20 gives 15, 1 and -2 give 3, and the default 5 stays 5 |
| Quiz.QuizState.constructor | script.js:13-18 | the initial state has no trees, no point, no votes and no majority |
| Quiz.QuizState.ComputeVotes | script.js:51-56 | afterwards there is one vote per tree: vote `i` is tree `i`'s evaluation on the point. The majority is the majority of those votes, trees and point are unchanged, and the state invariant is kept |
| Quiz.QuizState.NewQuestion | script.js:125-133 | returns the normalised count `n`. Afterwards there are `n` trees, and each tree `i` has `id == i` and is generated from draw `i`. The point is the given one, and the votes and majority are recomputed. The state invariant holds: an odd, in-range forest of well-formed trees |
| Quiz.QuizState.RevealCounts | script.js:119-120 | `count1` is the number of 1-votes, `count0` the number of 0-votes, and together they are all the votes |
| Quiz.QuizState.HandleGuess | script.js:141-149 | with no trees, nothing is judged. Otherwise the guess is correct iff it equals the majority, which holds iff more than half of the trees voted for it. The outcome carries the votes, the majority and the reveal tally |

## Left out

- All DOM work: element lookups, SVG and text building, class toggling, feedback text (script.js:59-122 apart from the counts, and 126, 129, 134-138, 144-148). It is rendering with no logic beyond what is modelled.
- The hidden/revealed flag of the vote section is a CSS class, not quiz state, so it is not modelled.
- `parseInt` of the tree-count input (script.js:127), and event binding, start-up and `parseInt` of the guess buttons (script.js:152-164). The parse result enters `NewQuestion` as an `Option<int>`: `None` stands for `NaN`. The guess enters `HandleGuess` as an integer.
- `Math.random` and `coin` (script.js:24) are replaced by the parameters described above. `randInt` (script.js:23) is never called.
- `generatePoint` (script.js:39-44) is left out: its `toFixed(2)` rounding is float-to-string formatting. The point is a parameter given in hundredths.
- The model does not record that the variety draw is consumed only when the two leaves are equal. Each tree's record simply carries it.
- `classLabel` (script.js:57) is left out: it only maps class 0 to "Red" and class 1 to "Blue" for display.
