/**
 * Next-round generation (`generatePairings` and the `shuffle` it starts with).
 *
 * The pool is shuffled, an odd pool gives its bye to the lowest-standing
 * participant that has not had one yet (or, failing that, to the lowest
 * overall), the rest is ranked by descending (score, buchholz) and paired
 * greedily: every still unpaired participant, in ranking order, takes the
 * first unpaired participant it has not already listed as an opponent. There
 * is no backtracking, so a participant left without a legal partner is simply
 * left out of the round.
 *
 * Randomness is supplied by the caller: `draws[t]` is the index drawn at the
 * shuffle's step `t` (folded into range; a missing draw counts as 0), and
 * `coins[n]` is the coin flipped for the `n`-th pair (a missing coin is
 * `false`). The clock that numbers the matches is the parameter `startId`.
 */
module Pairing {
  import opened Types
  import opened Ordering

  // ----- shuffle -----

  /** The index drawn at shuffle step `t` with `c` cells left: always below `c`. */
  function DrawnIndex(draws: seq<nat>, t: nat, c: nat): (r: nat)
    requires c > 0
    ensures r < c
  {
    (if t < |draws| then draws[t] else 0) % c
  }

  function Swap<T>(s: seq<T>, i: nat, j: nat): (r: seq<T>)
    requires i < |s| && j < |s|
    ensures |r| == |s| && r[i] == s[j] && r[j] == s[i]
    ensures forall k :: 0 <= k < |s| && k != i && k != j ==> r[k] == s[k]
  {
    s[i := s[j]][j := s[i]]
  }

  /** The shuffle's remaining steps while `c` cells are still to be fixed. */
  function ShuffleFrom<T>(s: seq<T>, draws: seq<nat>, c: nat): (r: seq<T>)
    requires c <= |s|
    ensures |r| == |s|
    decreases c
  {
    if c == 0 then s
    else ShuffleFrom(Swap(s, c - 1, DrawnIndex(draws, |s| - c, c)), draws, c - 1)
  }

  /** The Fisher-Yates shuffle of `s` driven by `draws`. */
  function Shuffled<T>(s: seq<T>, draws: seq<nat>): (r: seq<T>)
    ensures |r| == |s|
  {
    ShuffleFrom(s, draws, |s|)
  }

  /** `shuffle`: swaps the cells of `a` in place, from the last one down. */
  method Shuffle<T>(a: array<T>, draws: seq<nat>)
    modifies a
    ensures a[..] == Shuffled(old(a[..]), draws)
  {
    var currentIndex := a.Length;
    while currentIndex != 0
      invariant 0 <= currentIndex <= a.Length
      invariant ShuffleFrom(a[..], draws, currentIndex) == Shuffled(old(a[..]), draws)
    {
      var randomIndex := DrawnIndex(draws, a.Length - currentIndex, currentIndex);
      ghost var before := a[..];
      currentIndex := currentIndex - 1;
      a[currentIndex], a[randomIndex] := a[randomIndex], a[currentIndex];
      assert a[..] == Swap(before, currentIndex, randomIndex);
    }
  }

  // ----- the bye -----

  /** Index of the first participant without a bye (`findIndex(p => p.byes === 0)`). */
  function FirstWithoutBye(s: seq<Participant>): (r: Option<nat>)
    ensures r.Some? ==> r.value < |s| && s[r.value].byes == 0
    ensures forall i :: 0 <= i < |s| && (r.None? || i < r.value) ==> s[i].byes != 0
  {
    if s == [] then None
    else if s[0].byes == 0 then Some(0)
    else match FirstWithoutBye(s[1..])
      case None => None
      case Some(i) => Some(i + 1)
  }

  /** The bye recipient of a non-empty pool. */
  function ByeChoice(pool: seq<Participant>): Participant
    requires pool != []
  {
    var sorted := SortBy(ByeOrder, pool);
    match FirstWithoutBye(sorted)
    case Some(i) => sorted[i]
    case None => sorted[0]
  }

  /** The bye match: the recipient plays White against nobody, and the result stays Pending. */
  function ByeMatch(bye: Participant, roundNumber: int, id: int): (m: Match)
    ensures IsBye(m) && m.result == Pending
  {
    Match(id, roundNumber, Some(bye), None, Pending)
  }

  /** `pool.filter(p => p.id !== id)`. */
  function RemoveId(pool: seq<Participant>, id: int): (r: seq<Participant>)
    ensures |r| <= |pool|
    ensures forall p :: multiset(r)[p] == if p.id == id then 0 else multiset(pool)[p]
    ensures forall p :: p in r <==> p in pool && p.id != id
  {
    if pool == [] then []
    else
      var rest := RemoveId(pool[..|pool| - 1], id);
      assert pool == pool[..|pool| - 1] + [pool[|pool| - 1]];
      if pool[|pool| - 1].id == id then rest else rest + [pool[|pool| - 1]]
  }

  // ----- greedy pairing -----

  /** `ranked[q]` may partner `ranked[p]`: unpaired, another id, and not listed among `p`'s opponents. */
  predicate Eligible(ranked: seq<Participant>, p: nat, paired: set<int>, q: nat)
    requires p < |ranked| && q < |ranked|
  {
    ranked[q].id !in paired && ranked[q].id != ranked[p].id && ranked[q].id !in ranked[p].opponentsPlayedIds
  }

  /** The first eligible partner of `ranked[p]` at index `from` or later. */
  function FirstPartner(ranked: seq<Participant>, p: nat, paired: set<int>, from: nat): (r: Option<nat>)
    requires p < |ranked| && from <= |ranked|
    ensures r.Some? ==> from <= r.value < |ranked| && Eligible(ranked, p, paired, r.value)
    ensures forall j :: from <= j < |ranked| && (r.None? || j < r.value) ==> !Eligible(ranked, p, paired, j)
    decreases |ranked| - from
  {
    if from == |ranked| then None
    else if Eligible(ranked, p, paired, from) then Some(from)
    else FirstPartner(ranked, p, paired, from + 1)
  }

  /**
   * The index pairs the greedy loop forms from position `p` on, when the ids
   * in `paired` are already taken.
   */
  function Greedy(ranked: seq<Participant>, p: nat, paired: set<int>): (r: seq<(nat, nat)>)
    requires p <= |ranked|
    ensures forall n :: 0 <= n < |r| ==> p <= r[n].0 < |ranked| && r[n].1 < |ranked|
    decreases |ranked| - p
  {
    if p == |ranked| then []
    else if ranked[p].id in paired then Greedy(ranked, p + 1, paired)
    else match FirstPartner(ranked, p, paired, 0)
      case None => Greedy(ranked, p + 1, paired)
      case Some(q) => [(p, q)] + Greedy(ranked, p + 1, paired + {ranked[p].id, ranked[q].id})
  }

  // ----- colours and matches -----

  /** The coin of the `n`-th pair (`Math.random() > 0.5`). */
  function Coin(coins: seq<bool>, n: nat): bool
  {
    n < |coins| && coins[n]
  }

  /**
   * The colour heuristic, as (white, black): only the ranked player's surplus
   * is tested, first of White games, then of Black games; otherwise the coin
   * decides, `true` handing White to the partner.
   */
  function AssignColors(player: Participant, opponent: Participant, coin: bool): (r: (Participant, Participant))
    ensures (r.0 == player && r.1 == opponent) || (r.0 == opponent && r.1 == player)
  {
    var p1White, p1Black := Count(player.colorHistory, White), Count(player.colorHistory, Black);
    var p2White, p2Black := Count(opponent.colorHistory, White), Count(opponent.colorHistory, Black);
    if p1White > p2White then (opponent, player)
    else if p1Black > p2Black then (player, opponent)
    else if coin then (opponent, player)
    else (player, opponent)
  }

  function GameMatch(ranked: seq<Participant>, pair: (nat, nat), roundNumber: int, coin: bool, id: int): (m: Match)
    requires pair.0 < |ranked| && pair.1 < |ranked|
    ensures IsGame(m) && m.result == Pending
  {
    var colors := AssignColors(ranked[pair.0], ranked[pair.1], coin);
    Match(id, roundNumber, Some(colors.0), Some(colors.1), Pending)
  }

  predicate InRange(ranked: seq<Participant>, pairs: seq<(nat, nat)>)
  {
    forall n :: 0 <= n < |pairs| ==> pairs[n].0 < |ranked| && pairs[n].1 < |ranked|
  }

  /**
   * The matches of the pairs, numbered from `firstId` on, the `n`-th pair
   * using coin `n`. The element-wise ensures only exposes the comprehension
   * to the proofs; the meaning is stated by `PairingsFields` and
   * `PairingsDisjoint`.
   */
  function PairMatches(ranked: seq<Participant>, pairs: seq<(nat, nat)>, roundNumber: int, coins: seq<bool>, firstId: int)
    : (r: seq<Match>)
    requires InRange(ranked, pairs)
    ensures |r| == |pairs|
    ensures forall n :: 0 <= n < |pairs| ==> r[n] == GameMatch(ranked, pairs[n], roundNumber, Coin(coins, n), firstId + n)
  {
    seq(|pairs|, n requires 0 <= n < |pairs| => GameMatch(ranked, pairs[n], roundNumber, Coin(coins, n), firstId + n))
  }

  /** The ranking of the pool: descending (score, buchholz), ties in pool order. */
  function Ranked(pool: seq<Participant>): (r: seq<Participant>)
    ensures |r| == |pool|
  {
    SortBy(RankOrder, pool)
  }

  /** The pool left to pair once the bye, if any, is taken out. */
  function Rest(pool: seq<Participant>): (r: seq<Participant>)
    ensures |pool| % 2 == 0 ==> r == pool
  {
    if |pool| % 2 != 0 then RemoveId(pool, ByeChoice(pool).id) else pool
  }

  /** The bye match, if the pool is odd: the lowest-standing participant still without a bye, against nobody. */
  function Head(pool: seq<Participant>, roundNumber: int, startId: int): (h: seq<Match>)
    ensures |h| == if |pool| % 2 != 0 then 1 else 0
  {
    if |pool| % 2 != 0 then [ByeMatch(ByeChoice(pool), roundNumber, startId)] else []
  }

  /**
   * The specification of `generatePairings` on an already shuffled pool: the
   * bye match, if any, then the games of the greedy pairs of the ranked rest,
   * numbered on from it.
   */
  function Pairings(pool: seq<Participant>, roundNumber: int, coins: seq<bool>, startId: int): seq<Match>
  {
    var head := Head(pool, roundNumber, startId);
    var ranked := Ranked(Rest(pool));
    head + PairMatches(ranked, Greedy(ranked, 0, {}), roundNumber, coins, startId + |head|)
  }

  /** Pairwise disjoint occupants. */
  predicate Disjoint(ms: seq<Match>)
  {
    forall n, m :: 0 <= n < m < |ms| ==> Occupants(ms[n]) !! Occupants(ms[m])
  }

  /** No game sets a participant against itself. */
  predicate SelfFree(ms: seq<Match>)
  {
    forall n :: 0 <= n < |ms| && IsGame(ms[n]) ==> ms[n].whitePlayer.value.id != ms[n].blackPlayer.value.id
  }

  // ----- the source's loops -----

  /** The inner scan: the first unpaired participant of another id that `ranked[p]` has not played. */
  method FindOpponent(ranked: seq<Participant>, p: nat, pairedIds: set<int>) returns (opponent: Option<nat>)
    requires p < |ranked|
    ensures opponent == FirstPartner(ranked, p, pairedIds, 0)
  {
    var player := ranked[p];
    opponent := None;
    var q := 0;
    while q < |ranked|
      invariant 0 <= q <= |ranked|
      invariant FirstPartner(ranked, p, pairedIds, q) == FirstPartner(ranked, p, pairedIds, 0)
    {
      var potentialOpponent := ranked[q];
      if potentialOpponent.id in pairedIds || player.id == potentialOpponent.id {
        q := q + 1;
        continue;
      }
      if potentialOpponent.id !in player.opponentsPlayedIds {
        opponent := Some(q);
        return;
      }
      q := q + 1;
    }
  }

  lemma PairMatchesSnoc(ranked: seq<Participant>, pairs: seq<(nat, nat)>, pair: (nat, nat),
                        roundNumber: int, coins: seq<bool>, firstId: int)
    requires InRange(ranked, pairs) && pair.0 < |ranked| && pair.1 < |ranked|
    ensures InRange(ranked, pairs + [pair])
    ensures PairMatches(ranked, pairs + [pair], roundNumber, coins, firstId)
         == PairMatches(ranked, pairs, roundNumber, coins, firstId)
            + [GameMatch(ranked, pair, roundNumber, Coin(coins, |pairs|), firstId + |pairs|)]
  {
    assert forall n :: 0 <= n < |pairs| ==> (pairs + [pair])[n] == pairs[n];
  }

  lemma GreedyTaken(ranked: seq<Participant>, p: nat, paired: set<int>, done: seq<(nat, nat)>, whole: seq<(nat, nat)>)
    requires p < |ranked| && done + Greedy(ranked, p, paired) == whole
    requires ranked[p].id in paired || FirstPartner(ranked, p, paired, 0).None?
    ensures done + Greedy(ranked, p + 1, paired) == whole
  {
  }

  lemma GreedyPaired(ranked: seq<Participant>, p: nat, paired: set<int>, o: nat,
                     done: seq<(nat, nat)>, whole: seq<(nat, nat)>)
    requires p < |ranked| && done + Greedy(ranked, p, paired) == whole
    requires ranked[p].id !in paired && FirstPartner(ranked, p, paired, 0) == Some(o)
    ensures (done + [(p, o)]) + Greedy(ranked, p + 1, paired + {ranked[p].id, ranked[o].id}) == whole
  {
    assert Greedy(ranked, p, paired) == [(p, o)] + Greedy(ranked, p + 1, paired + {ranked[p].id, ranked[o].id});
  }

  /** The outer greedy loop over the ranked pool. */
  method PairRanked(ranked: seq<Participant>, roundNumber: int, coins: seq<bool>, firstId: int)
    returns (games: seq<Match>)
    ensures games == PairMatches(ranked, Greedy(ranked, 0, {}), roundNumber, coins, firstId)
  {
    games := [];
    var matchIdCounter := firstId;
    var pairedIds: set<int> := {};
    ghost var done: seq<(nat, nat)> := [];
    var p := 0;
    while p < |ranked|
      invariant 0 <= p <= |ranked|
      invariant InRange(ranked, done)
      invariant done + Greedy(ranked, p, pairedIds) == Greedy(ranked, 0, {})
      invariant games == PairMatches(ranked, done, roundNumber, coins, firstId)
      invariant |games| == |done| && matchIdCounter == firstId + |games|
    {
      var player := ranked[p];
      if player.id in pairedIds {
        GreedyTaken(ranked, p, pairedIds, done, Greedy(ranked, 0, {}));
        p := p + 1;
        continue;
      }
      var opponent := FindOpponent(ranked, p, pairedIds);
      if opponent.None? {
        GreedyTaken(ranked, p, pairedIds, done, Greedy(ranked, 0, {}));
      } else {
        var o := opponent.value;
        GreedyPaired(ranked, p, pairedIds, o, done, Greedy(ranked, 0, {}));
        pairedIds := pairedIds + {player.id, ranked[o].id};
        var colors := AssignColors(player, ranked[o], Coin(coins, |games|));
        PairMatchesSnoc(ranked, done, (p, o), roundNumber, coins, firstId);
        games := games + [Match(matchIdCounter, roundNumber, Some(colors.0), Some(colors.1), Pending)];
        matchIdCounter := matchIdCounter + 1;
        done := done + [(p, o)];
      }
      p := p + 1;
    }
  }

  /** `generatePairings`. */
  method GeneratePairings(participants: seq<Participant>, previousRounds: seq<Round>,
                          draws: seq<nat>, coins: seq<bool>, startId: int)
    returns (pairings: seq<Match>)
    ensures pairings == Pairings(Shuffled(participants, draws), |previousRounds| + 1, coins, startId)
  {
    pairings := [];
    var matchIdCounter := startId;
    var roundNumber := |previousRounds| + 1;
    var a := new Participant[|participants|](i requires 0 <= i < |participants| => participants[i]);
    assert a[..] == participants;
    Shuffle(a, draws);
    var playersToPair := a[..];
    if |playersToPair| % 2 != 0 {
      var byePlayer := ByeChoice(playersToPair);
      pairings := pairings + [ByeMatch(byePlayer, roundNumber, matchIdCounter)];
      matchIdCounter := matchIdCounter + 1;
      playersToPair := RemoveId(playersToPair, byePlayer.id);
    }
    var ranked := SortBy(RankOrder, playersToPair);
    var games := PairRanked(ranked, roundNumber, coins, matchIdCounter);
    pairings := pairings + games;
  }
}
