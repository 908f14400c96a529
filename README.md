# Swiss-system pairing and scoring, modelled in Dafny

This project models the pairing-and-scoring engine of a small Swiss-system
chess tournament manager. It also models the tournament controller that drives the engine.

- **Standings** (`calculateScoresAndTiebreaks`) rebuild every participant's record from the
  full round history:
  - score;
  - the opponents played;
  - colour history;
  - byes;
  - the Buchholz tiebreak, which is the sum of the opponents' current scores.
- **Pairing** (`generatePairings`) builds the next round:
  - it shuffles the field with Fisher-Yates;
  - in an odd field it gives the bye to the lowest-standing participant still without one;
  - it ranks the rest by descending score and Buchholz;
  - it pairs them greedily, with no backtracking: every unpaired participant takes the first
    unpaired participant it has not listed as an opponent;
  - it assigns colours with a per-pair heuristic and a coin flip.
- **The controller** (`App`) covers:
  - the number of rounds for a field;
  - the order of the standings table;
  - regrouping stored matches into rounds;
  - when a round and the tournament are over;
  - the screen's transitions: load, start, record a result, refresh the standings, next round, reload.

Files:

- `types.dfy`: the data model. It covers Participant, Match, Round and MatchResult.
- `ordering.dfy`: the three sort orders, as lexicographic keys, and a stable insertion sort.
  The source sorts with `Array.prototype.sort`, which is stable. The sort is proved to be a
  sorted permutation that keeps ties in input order.
- `standings.dfy`: the standings computation.
  - `Recompute` is a per-match specification.
  - `CalculateScoresAndTiebreaks` is the imperative fold over a mutable id→record table. It
    is proved equal to `Recompute`.
- `standings_facts.dfy`: what the standings mean. Each field is proved equal to its history
  in closed form. The file also proves idempotence, symmetry of "has played", score
  conservation and the Buchholz definition.
- `pairing.dfy`: the pairing specification `Pairings` and the source's loops.
  - `Shuffle` works on an array in place.
  - `FindOpponent` and `PairRanked` are the two nested loops.
  - `GeneratePairings` composes them.
- `pairing_facts.dfy`: what a generated round guarantees. It covers:
  - the shuffle is a permutation;
  - the bye choice;
  - every greedy pair is legal, the first choice, and maximal;
  - the colour rule;
  - field values;
  - disjointness;
  - no rematch.
- `app.dfy`: the controller. It holds the functions above and the class `Tournament`, whose
  methods update the screen's state in place.

Scores are counted in half-points: a win is 2, a draw 1 and a bye 2. This keeps the
arithmetic integral, and the ordering of scores is unchanged.

The nondeterministic inputs are parameters:

- `draws: seq<nat>` is the index drawn at each shuffle step, folded into range. A missing
  draw counts as 0.
- `coins: seq<bool>` is the coin of the `n`-th pair. A missing coin counts as `false`.
- `startId` is the clock reading that numbers the matches.

Points where the code does something other than its names and comments suggest; the model
follows the code:

- A bye pushes `W` onto the recipient's colour history (services/swiss.ts:32), because the
  colour push does not depend on the other side being present.
  `StandingsFacts.ColorsAndOpponents` states the resulting count: colours equal opponents
  plus one-sided matches.
- The colour allocation is commented "try to balance" (services/swiss.ts:139), but it tests
  only the ranked player's own surplus over its partner (services/swiss.ts:148-158).
  `PairingFacts.ColorRuleAsymmetric` exhibits a partner with more White games that is
  still handed White by the coin, which the comment "Flip a coin if balanced"
  (services/swiss.ts:155) does not lead one to expect.
- The bye match is commented "Will be resolved to 1-0 for score calculation"
  (services/swiss.ts:111). The score switch credits a one-sided match as a bye only while
  its result is `Pending` (services/swiss.ts:51-59); a one-sided match carrying another
  result is scored like a game against nobody. `StandingsFacts.MatchValueMeaning` states
  this case by case.
- The scores therefore sum to one point per decided game plus one per bye only while byes
  stay `Pending`, as they are generated. `StandingsFacts.TotalValueCountsPoints` proves it
  under that hypothesis.
- The pairing loop can leave every participant unpaired. An even field in which everybody
  has met everybody gets a round with no match at all (`PairingFacts.AllMetEmptyRound`).
  Such a round is saved as nothing, and regrouping the stored matches on load drops it
  (App.tsx:45, `App.EmptyRoundLost`).

## Model

| member | source | states |
|---|---|---|
| Types.Count | services/swiss.ts:140-143 | the number of occurrences of a colour is at most the history's length, and zero exactly when the colour does not occur |
| Types.CountAppend | services/swiss.ts:140-143 | colour counts add up over concatenated histories |
| Ordering.LexLeTotal | App.tsx:65-75 | any two sort keys are comparable |
| Ordering.LexLeTransitive | App.tsx:65-75 | the key order is transitive |
| Ordering.LexLeAntisymmetric | App.tsx:65-75 | two keys ordered both ways are equal |
| Ordering.ByeOrderMeaning | services/swiss.ts:95 | the bye order puts p before q exactly when p has the lower score, or an equal score and a Buchholz no higher |
| Ordering.RankOrderMeaning | services/swiss.ts:118 | the ranking order puts p before q exactly when p has the higher score, or an equal score and a Buchholz no lower |
| Ordering.StandingsOrderMeaning | App.tsx:66-74 | the standings order puts p first by higher score, then higher Buchholz, then name not greater in code-point order |
| Ordering.SortByPermutes | services/swiss.ts:118 | sorting only reorders: the result is a permutation of the input |
| Ordering.SortBySorted | services/swiss.ts:118 | the sorted list is ordered by the comparator |
| Ordering.SortByStable | services/swiss.ts:118 | the sort is stable: the elements sharing any key keep their input order |
| Standings.InitialTable | services/swiss.ts:19-21 | the table has exactly the participants' ids as keys, each holding a reset record of that id |
| Standings.FirstOccurrenceIds | services/swiss.ts:19-21 | the Map's key order: every participant id once, no others, in order of first appearance |
| Standings.FoldSnoc | services/swiss.ts:27-28 | folding one more match is one more step on the folded table |
| Standings.RecordMatch | services/swiss.ts:29-61 | the sequential in-place updates for one match equal the closed-form per-match step, a participant on both sides included |
| Standings.FoldRounds | services/swiss.ts:27-63 | the nested loop over rounds and matches is the fold over all matches in order |
| Standings.PushColors | services/swiss.ts:32-33 | each side present in the table gets its colour appended (the same record twice when it sits on both sides); every other record and field stays |
| Standings.PushOpponents | services/swiss.ts:35-38 | when both sides are present, each gets the other's id appended; every other record and field stays |
| Standings.AwardResult | services/swiss.ts:40-61 | scores and byes change as the result switch prescribes, for a game, a draw and a Pending one-sided match; nothing else changes |
| Standings.AssignBuchholz | services/swiss.ts:65-75 | each record's Buchholz becomes the sum of the current scores of its listed opponents found in the table |
| Standings.CalculateScoresAndTiebreaks | services/swiss.ts:15-78 | the method returns the recomputed standings `Recompute`, including the early return for no rounds |
| StandingsFacts.FoldIsHistory | services/swiss.ts:27-63 | a participant's folded record is its initial record credited with every match in order |
| StandingsFacts.RecomputedRecord | services/swiss.ts:15-78 | with rounds, the i-th output record has the i-th first-seen id, its identity, and score, colours, opponents and byes equal to its history, with Buchholz the sum of those opponents' final scores |
| StandingsFacts.RecomputeIdentity | services/swiss.ts:19-25 | identity fields are kept: positionally with no rounds, and in first-seen order of distinct ids with rounds |
| StandingsFacts.RecomputeKeepsParticipants | services/swiss.ts:19-25 | for distinct ids, the output lists the same participants in the same order |
| StandingsFacts.RecomputedDistinct | services/swiss.ts:19-21 | with rounds, the output never repeats an id |
| StandingsFacts.RecomputedInitialTable | services/swiss.ts:19-21 | recomputed standings lead to the same initial table as the input |
| StandingsFacts.RecomputeIdempotent | services/swiss.ts:15-78 | recomputing from recomputed standings over the same rounds changes nothing |
| StandingsFacts.ColorsAndOpponents | services/swiss.ts:32-38 | colours recorded = opponents recorded + one-sided matches, and byes never exceed the one-sided matches |
| StandingsFacts.LoneMatchHistory | services/swiss.ts:32-59 | a one-sided match records no opponent, one colour for its side, and a bye exactly when Pending |
| StandingsFacts.OpponentsAreMeetings | services/swiss.ts:35-38 | x is among k's opponents exactly when some match sits k and x on opposite sides, both known |
| StandingsFacts.OpponentsSymmetric | services/swiss.ts:35-38 | x is listed by k exactly when k is listed by x |
| StandingsFacts.MatchValueMeaning | services/swiss.ts:40-61 | a decided game hands out one point and a pending game none; a Pending one-sided match gives one point; a decided one-sided match gives one point, half a point or nothing |
| StandingsFacts.ScoreConservation | services/swiss.ts:27-63 | the scores of the output sum to the total value of all matches |
| StandingsFacts.TotalValueCountsPoints | services/swiss.ts:40-61 | while every bye is Pending, the total is one point per decided game plus one per bye |
| StandingsFacts.BuchholzSumsOpponentScores | services/swiss.ts:65-75 | every output record's Buchholz is the sum of the output scores of the opponents it lists |
| Pairing.DrawnIndex | services/swiss.ts:8 | the drawn index is always below the number of cells left |
| Pairing.Swap | services/swiss.ts:10 | exactly the two cells are exchanged |
| Pairing.Shuffle | services/swiss.ts:5-13 | the in-place loop leaves the array equal to the Fisher-Yates shuffle of its old contents under the draws |
| Pairing.FirstWithoutBye | services/swiss.ts:96 | the index found has no bye, and nothing before it (or nothing at all, if none) is without a bye |
| Pairing.ByeMatch | services/swiss.ts:106-112 | the bye match is one-sided and Pending |
| Pairing.ByeChoice | services/swiss.ts:95-104 | the first participant without a bye in ascending (score, Buchholz) order, else the first overall; its meaning is stated by `PairingFacts.ByeChoiceMeaning` |
| Pairing.RemoveId | services/swiss.ts:113 | every participant of the removed id disappears and every other keeps its multiplicity |
| PairingFacts.RemoveIdAppend | services/swiss.ts:113 | the filter keeps order: removing an id from a concatenation removes it from each part, so the result is the pool's subsequence |
| Pairing.FirstPartner | services/swiss.ts:126-133 | the partner found is eligible, and none earlier is |
| Pairing.Greedy | services/swiss.ts:122-137 | every pair's first member is at or after the start position and both members are in range |
| Pairing.AssignColors | services/swiss.ts:145-159 | the two players are seated on opposite sides |
| Pairing.GameMatch | services/swiss.ts:161-167 | a generated game seats both players and is Pending |
| Pairing.Head | services/swiss.ts:93-115 | exactly one bye match for an odd pool, none for an even one |
| Pairing.Rest | services/swiss.ts:113 | an even pool is paired whole |
| Pairing.FindOpponent | services/swiss.ts:125-133 | the inner scan returns the first eligible partner |
| Pairing.PairRanked | services/swiss.ts:120-169 | the outer loop emits the matches of the greedy pairs of the ranked pool |
| Pairing.GeneratePairings | services/swiss.ts:81-172 | the method returns `Pairings` of the shuffled participants for round `|previousRounds| + 1` |
| PairingFacts.ShufflePermutes | services/swiss.ts:5-13 | whatever the draws, the shuffle is a permutation of its input |
| PairingFacts.ByeChoiceMeaning | services/swiss.ts:92-104 | the bye recipient is in the pool; if anyone lacks a bye, it lacks one and is lowest by (score, Buchholz) among those; otherwise it is lowest overall; in both cases no equally low candidate comes before it in pool order |
| PairingFacts.ByeTieBreak | services/swiss.ts:95-96 | stable ascending sort followed by `findIndex`: the recipient is the earliest candidate in pool order among those sharing its (score, Buchholz) |
| PairingFacts.GreedyLegal | services/swiss.ts:122-137 | every pair joins two untaken participants of different ids, the first not having listed the second; pairs come in ranking order and share no id |
| PairingFacts.GreedyFirstChoice | services/swiss.ts:126-133 | each pair's second member is its first member's first eligible partner given the earlier pairs |
| PairingFacts.GreedyMaximal | services/swiss.ts:122-137 | of any two participants left unpaired, with different ids, the earlier-ranked one has listed the other as an opponent |
| PairingFacts.ColorRule | services/swiss.ts:139-159 | the ranked player is Black when it has more White games, White when it has only more Black games, and the coin decides otherwise |
| PairingFacts.ColorsNarrowSurplus | services/swiss.ts:139-151 | once the game is recorded, the surplus the rule tested (the ranked player's White surplus, else its Black surplus) is exactly one game smaller |
| PairingFacts.ColorRuleAsymmetric | services/swiss.ts:148-158 | a partner with more White games can still be handed White: the rule only tests the ranked player's surplus |
| PairingFacts.PairingsFields | services/swiss.ts:106-167 | every generated match is Pending, in the requested round, with ids running on from the start id |
| PairingFacts.PairingsBye | services/swiss.ts:93-115 | an odd pool yields first a bye to the chosen recipient as White against nobody, then games only; an even pool yields only games |
| PairingFacts.PairingsDisjoint | services/swiss.ts:81-172 | no participant id occurs in two matches of a round, and no game sets a participant against itself |
| PairingFacts.AllMetEmptyRound | services/swiss.ts:120-169 | an even field in which every two participants have met yields a round with no match at all |
| PairingFacts.PairingsNoRematch | services/swiss.ts:126-133 | when the opponent lists are symmetric, no game pairs two participants of whom either lists the other |
| App.TotalRounds | App.tsx:14-20 | a field always plays between 3 and 7 rounds |
| App.TotalRoundsMonotone | App.tsx:14-20 | a larger field never plays fewer rounds |
| App.TotalRoundsCoverField | App.tsx:14-20 | up to 128 players, 2 to the number of rounds is at least the field size |
| App.StandingsTableOrdered | App.tsx:65-75 | the table is a permutation of the field, ordered by score, then Buchholz, then name, and ties keep their order |
| App.OfRound | App.tsx:44 | the filtered list holds exactly the matches of the given round |
| App.MaxRoundMeaning | App.tsx:40 | no match has a larger round number than the maximum, and some match has it |
| App.GroupIntoRounds | App.tsx:40-51 | the loop yields the non-empty rounds 1 to the maximum, in order |
| App.GroupedMeaning | App.tsx:43-51 | regrouped rounds are non-empty, hold exactly their number's matches in stored order, strictly increase, and cover every match in range |
| App.GroupRoundTrip | App.tsx:40-51 | for rounds numbered 1, 2, … none of which is empty, saving their matches and regrouping them on load gives back the same rounds |
| App.EmptyRoundLost | App.tsx:45 | rounds holding an empty round never come back from regrouping, whatever range is regrouped |
| App.RoundFinished | App.tsx:79 | `isCurrentRoundFinished` as written: there is a round and no match of the last one is Pending, a bye included |
| App.TournamentFinished | App.tsx:80 | `isTournamentFinished` as written: the last round is finished and it is the last planned one |
| App.RoundSettled | App.tsx:79 | corrected: there is a round and every two-sided match of the last one has a result |
| App.TournamentSettled | App.tsx:80 | corrected: the last planned round is settled |
| App.SettledExtendsFinished | App.tsx:79-80 | the corrected completion test accepts whatever the written one does, and agrees with it on a round without a bye |
| App.IndexOfId | App.tsx:127 | the index found carries the id and is the first such; none means no match carries it |
| App.SetResultMeaning | App.tsx:124-131 | only the result of the first match with the id changes; an unknown id changes nothing |
| App.SetResultShape | App.tsx:124-131 | ids and players never change, and a result changes only on a match with the id |
| App.SetResult | App.tsx:124-131 | the last round's matches after one `recordResult`; its meaning is stated by `App.SetResultMeaning` |
| App.ApplyResults | App.tsx:118-136 | a series of recorded results keeps the round's length |
| App.ApplyResultsUntouched | App.tsx:124-131 | a match whose id is never recorded keeps its result |
| App.ByeRoundNeverFinished | App.tsx:79-80 | as written, a round holding a Pending bye is never finished, whatever results are recorded for other ids |
| App.OddRoundStalls | App.tsx:79-80 | as written, a generated round of an odd field is never finished |
| App.DecidedRoundSettles | App.tsx:124-131 | once every game of a round with distinct ids has a result recorded, the corrected test holds |
| App.GeneratedRoundSettles | App.tsx:79-80 | corrected: a generated round is settled once its games have results, odd field or even |
| App.RecomputedSymmetric | services/swiss.ts:35-38 | recomputed standings list meetings on both sides or neither |
| App.ShuffledSymmetric | services/swiss.ts:89 | shuffling keeps that symmetry |
| App.NextPairingsSound | App.tsx:156-159 | a round paired from recomputed standings seats no id twice, nobody against itself, and repeats no recorded meeting |
| App.PairNextRound | App.tsx:156-163 | recomputes the standings and pairs round `|rounds| + 1` from them, well paired |
| App.Tournament.Load | App.tsx:29-63 | participants are the stored ones; rounds are regrouped and planned only when participants and matches both exist |
| App.Tournament.Start | App.tsx:91-106 | refused with fewer than two participants; otherwise plans the rounds and makes a disjoint, self-free round 1 |
| App.Tournament.RefreshStandings | App.tsx:108-116 | the participants become the standings recomputed from all rounds |
| App.Tournament.RecordResult | App.tsx:118-136 | only the last round changes, as `SetResult` prescribes |
| App.Tournament.NextRound | App.tsx:145-172 | as written: advances exactly when the last round is finished (`RoundFinished`) and fewer than the planned rounds were played, then appends a well-paired next round from the recomputed standings; otherwise nothing changes |
| App.Tournament.NextRoundSettled | App.tsx:145-172 | corrected: the same step guarded by `RoundSettled`, so a round with a bye advances once its games have results |
| App.Tournament.Advance | App.tsx:155-168 | the standings become `Recompute` over the rounds so far and the round paired from them is appended, well paired |
| App.Tournament.Reload | App.tsx:191-225 | replaces the state by what is stored, in the three cases of the source |

## Left out

- The database layer (`services/db.ts`) is not part of this model.
  - Loading and reloading take the stored participants and matches as parameters.
  - Saving matches and scores is not modelled.
- `addParticipant` is not modelled. It only appends what the database returns.
- The React view switching and the effects that re-run `updateStandings` are not modelled, nor
  are any components. `App.Tournament.RefreshStandings` is the effect's body.
- `services/geminiService.ts` is not part of this model.
- `Math.random`, which the shuffle and the colour coin use, and `Date.now`, which numbers
  the matches, become the parameters `draws`, `coins` and `startId`.
- App.Tournament.RecordResult: the source would throw on an empty round list. The method requires
  at least one round instead. The database write that precedes the update is not modelled.
- Ordering.StandingsOrderMeaning: `localeCompare` is modelled as code-point order on names.
  Locale collation is not modelled.
- Scores use integer half-points instead of floating point.
- Exceptions caught by the controller's `try` blocks are not modelled. Nothing in the modelled
  code throws, apart from the empty-rounds case above.
- Pairing.Rest and Pairing.Head: these split `generatePairings` into the bye and the rest.
  Their own contracts state only the sizes. Their meaning is stated by
  `PairingFacts.PairingsBye` and `PairingFacts.PairingsDisjoint`.
- The sort library call is modelled by a functional stable sort, not by an in-place array sort.
- App.GroupRoundTrip: proved only for rounds none of which is empty. The tournament can
  produce an empty round (`PairingFacts.AllMetEmptyRound`), and `App.EmptyRoundLost` shows
  that such rounds do not survive a reload.
- Pairing.PairMatches and Standings.Reset: their ensures only expose the function bodies to the
  proofs. Their meaning is stated by `PairingFacts.PairingsFields`,
  `PairingFacts.PairingsDisjoint`, `StandingsFacts.RecomputedRecord` and
  `StandingsFacts.RecomputeIdentity`.

## Findings

| source | as written | input that shows it | evidently intended | confidence | as-written member | corrected member |
|---|---|---|---|---|---|---|
| App.tsx:79 | `isCurrentRoundFinished` requires every match of the current round to be non-Pending. The bye match is created Pending (services/swiss.ts:111), and the round screen offers result buttons for two-sided matches only. | three participants: round 1 holds a Pending bye; after the one game's result is recorded the round is still not finished, so `generateNextRound` refuses and the tournament never finishes | a bye counts as settled, so the round is over once every two-sided game has a result (`App.GeneratedRoundSettles` proves the corrected test is reached) | not executed | App.OddRoundStalls | App.Tournament.NextRoundSettled |
