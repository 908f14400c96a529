/**
 * The tournament controller: how many rounds a field plays, the order of the
 * standings table, regrouping stored matches into rounds, when a round and
 * the tournament are over, and the state transitions of the tournament
 * screen (load, start, record a result, refresh the standings, next round,
 * reload).
 */
module App {
  import opened Types
  import opened Ordering
  import opened Standings
  import opened StandingsFacts
  import opened Pairing
  import opened PairingFacts

  // ----- number of rounds -----

  /** `calculateTotalRounds`: the number of rounds a field of `playerCount` plays. */
  function TotalRounds(playerCount: int): (n: int)
    ensures 3 <= n <= 7
  {
    if playerCount <= 5 then 3
    else if playerCount <= 11 then 4
    else if playerCount <= 23 then 5
    else if playerCount <= 39 then 6
    else 7
  }

  /** A larger field never plays fewer rounds. */
  lemma TotalRoundsMonotone(a: int, b: int)
    requires a <= b
    ensures TotalRounds(a) <= TotalRounds(b)
  {
  }

  function Pow2(n: nat): (r: nat)
    ensures r >= 1
  {
    if n == 0 then 1 else 2 * Pow2(n - 1)
  }

  /**
   * Up to 128 players the table gives at least log2(playerCount) rounds: as
   * many as a knockout of the same field would need to leave one winner.
   */
  lemma TotalRoundsCoverField(playerCount: int)
    requires playerCount <= 128
    ensures playerCount <= Pow2(TotalRounds(playerCount))
  {
    assert Pow2(3) == 8 && Pow2(4) == 16 && Pow2(5) == 32;
    assert Pow2(6) == 64 && Pow2(7) == 128;
  }

  // ----- the standings table -----

  /** `sortedParticipants`: the standings table, best first. */
  function StandingsTable(ps: seq<Participant>): (r: seq<Participant>)
    ensures |r| == |ps|
  {
    SortBy(StandingsOrder, ps)
  }

  /**
   * The table lists the same participants, by descending score, then
   * descending Buchholz, then ascending name; participants equal on all
   * three keep their relative order.
   */
  lemma StandingsTableOrdered(ps: seq<Participant>)
    ensures multiset(StandingsTable(ps)) == multiset(ps)
    ensures var r := StandingsTable(ps);
      forall i, j :: 0 <= i < j < |r| ==>
        || r[i].score > r[j].score
        || (r[i].score == r[j].score && r[i].buchholz > r[j].buchholz)
        || (r[i].score == r[j].score && r[i].buchholz == r[j].buchholz && NameLe(r[i].name, r[j].name))
    ensures forall v :: Ties(KeyOf(StandingsOrder), StandingsTable(ps), v) == Ties(KeyOf(StandingsOrder), ps, v)
  {
    var r := StandingsTable(ps);
    SortByPermutes(StandingsOrder, ps);
    SortBySorted(StandingsOrder, ps);
    forall i, j | 0 <= i < j < |r|
      ensures || r[i].score > r[j].score
              || (r[i].score == r[j].score && r[i].buchholz > r[j].buchholz)
              || (r[i].score == r[j].score && r[i].buchholz == r[j].buchholz && NameLe(r[i].name, r[j].name))
    {
      StandingsOrderMeaning(r[i], r[j]);
    }
    forall v ensures Ties(KeyOf(StandingsOrder), r, v) == Ties(KeyOf(StandingsOrder), ps, v) {
      SortByStable(StandingsOrder, ps, v);
    }
  }

  // ----- regrouping stored matches into rounds -----

  /** `allMatches.filter(m => m.roundNumber === i)`. */
  function OfRound(ms: seq<Match>, i: int): (r: seq<Match>)
    ensures |r| <= |ms|
    ensures forall m :: m in r <==> m in ms && m.roundNumber == i
  {
    if ms == [] then []
    else OfRound(ms[..|ms| - 1], i) + (if ms[|ms| - 1].roundNumber == i then [ms[|ms| - 1]] else [])
  }

  /** `Math.max(...allMatches.map(m => m.roundNumber))` on a non-empty list. */
  function MaxRound(ms: seq<Match>): int
    requires ms != []
  {
    if |ms| == 1 then ms[0].roundNumber
    else
      var front := MaxRound(ms[..|ms| - 1]);
      if ms[|ms| - 1].roundNumber > front then ms[|ms| - 1].roundNumber else front
  }

  /** The largest round number: no match has a larger one, and some match has it. */
  lemma {:induction false} MaxRoundMeaning(ms: seq<Match>)
    requires ms != []
    ensures forall j :: 0 <= j < |ms| ==> ms[j].roundNumber <= MaxRound(ms)
    ensures exists j :: 0 <= j < |ms| && ms[j].roundNumber == MaxRound(ms)
    decreases |ms|
  {
    if |ms| == 1 {
      assert ms[0].roundNumber == MaxRound(ms);
    } else {
      var front := ms[..|ms| - 1];
      MaxRoundMeaning(front);
      assert forall j :: 0 <= j < |front| ==> ms[j] == front[j];
      if ms[|ms| - 1].roundNumber <= MaxRound(front) {
        var j :| 0 <= j < |front| && front[j].roundNumber == MaxRound(front);
        assert ms[j].roundNumber == MaxRound(ms);
      } else {
        assert ms[|ms| - 1].roundNumber == MaxRound(ms);
      }
    }
  }

  /** The rounds numbered `lo` to `hi` that have matches, in increasing order. */
  function Grouped(ms: seq<Match>, lo: int, hi: int): seq<Round>
    decreases hi - lo + 1
  {
    if hi < lo then []
    else Grouped(ms, lo, hi - 1) + (if OfRound(ms, hi) != [] then [Round(hi, OfRound(ms, hi))] else [])
  }

  /** The loop that rebuilds the rounds from the stored matches when the app loads or reloads. */
  method GroupIntoRounds(allMatches: seq<Match>) returns (loadedRounds: seq<Round>)
    requires allMatches != []
    ensures loadedRounds == Grouped(allMatches, 1, MaxRound(allMatches))
  {
    var maxRound := MaxRound(allMatches);
    loadedRounds := [];
    var i := 1;
    while i <= maxRound
      invariant 1 <= i && (i <= maxRound + 1 || i == 1)
      invariant loadedRounds == Grouped(allMatches, 1, i - 1)
    {
      var roundMatches := OfRound(allMatches, i);
      ghost var before := loadedRounds;
      if |roundMatches| > 0 {
        loadedRounds := loadedRounds + [Round(i, roundMatches)];
      }
      assert loadedRounds == before + (if roundMatches != [] then [Round(i, roundMatches)] else []);
      i := i + 1;
    }
    assert i - 1 == maxRound || (i == 1 && maxRound < 1);
  }

  /**
   * The regrouped rounds: none is empty, each holds exactly the matches of
   * its number in stored order, the numbers strictly increase within
   * `lo..hi`, and every match numbered in `lo..hi` has its round.
   */
  lemma {:induction false} GroupedMeaning(ms: seq<Match>, lo: int, hi: int)
    ensures var r := Grouped(ms, lo, hi);
      (forall k :: 0 <= k < |r| ==>
        lo <= r[k].roundNumber <= hi && r[k].matches != [] && r[k].matches == OfRound(ms, r[k].roundNumber)) &&
      (forall k, l :: 0 <= k < l < |r| ==> r[k].roundNumber < r[l].roundNumber) &&
      (forall m :: m in ms && lo <= m.roundNumber <= hi ==>
        exists k :: 0 <= k < |r| && r[k].roundNumber == m.roundNumber)
    decreases hi - lo + 1
  {
    if hi >= lo {
      GroupedMeaning(ms, lo, hi - 1);
      var front := Grouped(ms, lo, hi - 1);
      var r := Grouped(ms, lo, hi);
      assert r == front + (if OfRound(ms, hi) != [] then [Round(hi, OfRound(ms, hi))] else []);
      assert forall k :: 0 <= k < |front| ==> r[k] == front[k];
      assert |r| > |front| ==> r[|front|] == Round(hi, OfRound(ms, hi));
      forall m | m in ms && lo <= m.roundNumber <= hi
        ensures exists k :: 0 <= k < |r| && r[k].roundNumber == m.roundNumber
      {
        if m.roundNumber == hi {
          assert m in OfRound(ms, hi);
          assert r[|r| - 1].roundNumber == hi;
        } else {
          var k :| 0 <= k < |front| && front[k].roundNumber == m.roundNumber;
          assert r[k] == front[k];
        }
      }
    }
  }

  /**
   * Rounds numbered as the tournament numbers them, round `k + 1` at
   * position `k` with its matches numbered `k + 1`, none of which is empty.
   * The tournament can produce an empty round (`AllMetEmptyRound`), and such
   * a round is lost on regrouping (`EmptyRoundLost`).
   */
  predicate Numbered(rounds: seq<Round>)
  {
    forall k :: 0 <= k < |rounds| ==>
      rounds[k].roundNumber == k + 1 && rounds[k].matches != [] &&
      forall m :: m in rounds[k].matches ==> m.roundNumber == k + 1
  }

  lemma {:induction false} OfRoundAppend(a: seq<Match>, b: seq<Match>, i: int)
    ensures OfRound(a + b, i) == OfRound(a, i) + OfRound(b, i)
    decreases |b|
  {
    if b == [] {
      assert a + b == a;
    } else {
      var front, last := b[..|b| - 1], b[|b| - 1];
      OfRoundAppend(a, front, i);
      assert (a + b)[..|a + b| - 1] == a + front;
      assert (a + b)[|a + b| - 1] == last;
      ConcatAssoc(OfRound(a, i), OfRound(front, i), if last.roundNumber == i then [last] else []);
    }
  }

  lemma {:induction false} OfRoundUniform(ms: seq<Match>, n: int, i: int)
    requires forall m :: m in ms ==> m.roundNumber == n
    ensures OfRound(ms, i) == if i == n then ms else []
    decreases |ms|
  {
    if ms != [] {
      var front, last := ms[..|ms| - 1], ms[|ms| - 1];
      assert forall m :: m in front ==> m in ms;
      OfRoundUniform(front, n, i);
      assert ms == front + [last];
      if i == n {
        assert OfRound(ms, i) == front + [last];
      } else {
        assert OfRound(ms, i) == [] + [];
      }
    }
  }

  lemma {:induction false} OfRoundGames(rounds: seq<Round>, i: int)
    requires Numbered(rounds)
    ensures OfRound(Games(rounds), i) == if 1 <= i <= |rounds| then rounds[i - 1].matches else []
    decreases |rounds|
  {
    if rounds != [] {
      var front, last := rounds[..|rounds| - 1], rounds[|rounds| - 1];
      assert Numbered(front);
      OfRoundGames(front, i);
      OfRoundAppend(Games(front), last.matches, i);
      OfRoundUniform(last.matches, |rounds|, i);
      if 1 <= i < |rounds| {
        assert front[i - 1] == rounds[i - 1];
        EmptyTail(OfRound(Games(front), i));
      } else if i == |rounds| {
        EmptyPrefix(last.matches);
      } else {
        assert OfRound(Games(rounds), i) == [] + [];
      }
    }
  }

  lemma EmptyTail<T>(s: seq<T>)
    ensures s + [] == s
  {
  }

  lemma {:induction false} GroupedGames(rounds: seq<Round>, hi: int)
    requires Numbered(rounds) && 0 <= hi <= |rounds|
    ensures Grouped(Games(rounds), 1, hi) == rounds[..hi]
    decreases hi
  {
    if hi > 0 {
      var ms := Games(rounds);
      GroupedGames(rounds, hi - 1);
      assert OfRound(ms, hi) == rounds[hi - 1].matches by {
        OfRoundGames(rounds, hi);
      }
      assert Round(hi, OfRound(ms, hi)) == rounds[hi - 1];
      assert Grouped(ms, 1, hi) == rounds[..hi - 1] + [rounds[hi - 1]];
      assert rounds[..hi] == rounds[..hi - 1] + [rounds[hi - 1]];
    }
  }

  lemma {:induction false} MaxRoundGames(rounds: seq<Round>)
    requires Numbered(rounds) && rounds != []
    ensures Games(rounds) != [] && MaxRound(Games(rounds)) == |rounds|
  {
    var ms := Games(rounds);
    var last := rounds[|rounds| - 1];
    assert ms == Games(rounds[..|rounds| - 1]) + last.matches;
    assert last.matches[0] in ms;
    MaxRoundMeaning(ms);
    forall m | m in ms ensures m.roundNumber <= |rounds| {
      OfRoundGames(rounds, m.roundNumber);
    }
  }

  /**
   * Saving every match of the tournament's rounds and regrouping them on
   * reload gives the same rounds back.
   */
  lemma GroupRoundTrip(rounds: seq<Round>)
    requires Numbered(rounds) && rounds != []
    ensures Games(rounds) != [] && Grouped(Games(rounds), 1, MaxRound(Games(rounds))) == rounds
  {
    MaxRoundGames(rounds);
    GroupedGames(rounds, |rounds|);
  }

  /** Regrouping never yields an empty round, so rounds holding an empty one do not come back. */
  lemma EmptyRoundLost(rounds: seq<Round>, lo: int, hi: int)
    requires exists k :: 0 <= k < |rounds| && rounds[k].matches == []
    ensures Grouped(Games(rounds), lo, hi) != rounds
  {
    GroupedMeaning(Games(rounds), lo, hi);
  }

  // ----- round and tournament completion -----

  /** `isCurrentRoundFinished`, as written: every match of the last round has a result, a bye included. */
  predicate RoundFinished(rounds: seq<Round>)
  {
    rounds != [] && forall m :: m in rounds[|rounds| - 1].matches ==> m.result != Pending
  }

  /** `isTournamentFinished`, as written. */
  predicate TournamentFinished(rounds: seq<Round>, totalRounds: int)
  {
    rounds != [] && RoundFinished(rounds) && |rounds| == totalRounds && totalRounds > 0
  }

  /**
   * The last round is over once every game in it has a result; a match with
   * a side missing (a bye) has nothing to wait for.
   */
  predicate RoundSettled(rounds: seq<Round>)
  {
    rounds != [] && forall m :: m in rounds[|rounds| - 1].matches ==> m.result != Pending || !IsGame(m)
  }

  /** The tournament is over once its last planned round is settled. */
  predicate TournamentSettled(rounds: seq<Round>, totalRounds: int)
  {
    rounds != [] && RoundSettled(rounds) && |rounds| == totalRounds && totalRounds > 0
  }

  /**
   * The corrected predicate accepts whatever the written one accepts, and the
   * two agree on a last round without a bye.
   */
  lemma SettledExtendsFinished(rounds: seq<Round>, totalRounds: int)
    ensures RoundFinished(rounds) ==> RoundSettled(rounds)
    ensures TournamentFinished(rounds, totalRounds) ==> TournamentSettled(rounds, totalRounds)
    ensures rounds != [] && (forall m :: m in rounds[|rounds| - 1].matches ==> IsGame(m)) ==>
      (RoundSettled(rounds) <==> RoundFinished(rounds))
  {
  }

  // ----- recording a result -----

  /** `findIndex(m => m.id === matchId)`. */
  function IndexOfId(ms: seq<Match>, matchId: int): (r: Option<nat>)
    ensures r.Some? ==> (r.value < |ms| && ms[r.value].id == matchId &&
                         forall j :: 0 <= j < r.value ==> ms[j].id != matchId)
    ensures r.None? ==> forall j :: 0 <= j < |ms| ==> ms[j].id != matchId
  {
    if ms == [] then None
    else if ms[0].id == matchId then Some(0)
    else match IndexOfId(ms[1..], matchId)
      case None => None
      case Some(j) => Some(j + 1)
  }

  /** The matches of the last round after `recordResult(matchId, result)`. */
  function SetResult(ms: seq<Match>, matchId: int, result: MatchResult): seq<Match>
  {
    match IndexOfId(ms, matchId)
    case None => ms
    case Some(i) => ms[i := ms[i].(result := result)]
  }

  /**
   * Recording a result changes only the `result` of the first match with
   * that id; every other match, and all other fields, stay; an unknown id
   * changes nothing.
   */
  lemma SetResultMeaning(ms: seq<Match>, matchId: int, result: MatchResult)
    ensures var r := SetResult(ms, matchId, result);
      |r| == |ms| &&
      (forall j :: 0 <= j < |ms| ==> r[j].(result := ms[j].result) == ms[j]) &&
      (forall j :: 0 <= j < |ms| && r[j] != ms[j] ==>
        ms[j].id == matchId && r[j].result == result && forall i :: 0 <= i < j ==> ms[i].id != matchId) &&
      ((exists j :: 0 <= j < |ms| && ms[j].id == matchId) <==>
        (exists j :: 0 <= j < |ms| && ms[j].id == matchId && r[j].result == result)) &&
      ((forall j :: 0 <= j < |ms| ==> ms[j].id != matchId) ==> r == ms)
  {
    var r := SetResult(ms, matchId, result);
    match IndexOfId(ms, matchId)
    case None =>
    case Some(i) =>
      assert r[i].result == result;
  }

  /** The round after a series of `recordResult` calls, in order. */
  function ApplyResults(ms: seq<Match>, ids: seq<int>, results: seq<MatchResult>): (r: seq<Match>)
    requires |ids| == |results|
    ensures |r| == |ms|
    decreases |ids|
  {
    if ids == [] then ms else ApplyResults(SetResult(ms, ids[0], results[0]), ids[1..], results[1..])
  }

  predicate DistinctMatchIds(ms: seq<Match>)
  {
    forall i, j :: 0 <= i < j < |ms| ==> ms[i].id != ms[j].id
  }

  lemma SetResultShape(ms: seq<Match>, matchId: int, result: MatchResult)
    ensures var r := SetResult(ms, matchId, result);
      |r| == |ms| && forall j :: 0 <= j < |ms| ==>
        r[j].id == ms[j].id && r[j].whitePlayer == ms[j].whitePlayer && r[j].blackPlayer == ms[j].blackPlayer &&
        (r[j].result == ms[j].result || (ms[j].id == matchId && r[j].result == result))
  {
  }

  /** A match whose id is never recorded keeps its result through a series of calls. */
  lemma {:induction false} ApplyResultsUntouched(ms: seq<Match>, ids: seq<int>, results: seq<MatchResult>, b: nat)
    requires |ids| == |results| && b < |ms|
    requires forall t :: 0 <= t < |ids| ==> ids[t] != ms[b].id
    ensures ApplyResults(ms, ids, results)[b] == ms[b]
    decreases |ids|
  {
    if ids != [] {
      var next := SetResult(ms, ids[0], results[0]);
      SetResultMeaning(ms, ids[0], results[0]);
      assert next[b] == ms[b];
      ApplyResultsUntouched(next, ids[1..], results[1..], b);
    }
  }

  /**
   * The written completion test never holds for a round with a bye: the bye
   * match is created Pending and the round screen offers result buttons for
   * games only, so whatever results are recorded for the other ids, neither
   * the round nor the tournament ever counts as finished.
   */
  lemma ByeRoundNeverFinished(earlier: seq<Round>, roundNumber: int, ms: seq<Match>, b: nat,
                              ids: seq<int>, results: seq<MatchResult>, totalRounds: int)
    requires b < |ms| && IsBye(ms[b]) && ms[b].result == Pending
    requires |ids| == |results| && forall t :: 0 <= t < |ids| ==> ids[t] != ms[b].id
    ensures !RoundFinished(earlier + [Round(roundNumber, ApplyResults(ms, ids, results))])
    ensures !TournamentFinished(earlier + [Round(roundNumber, ApplyResults(ms, ids, results))], totalRounds)
  {
    var r := ApplyResults(ms, ids, results);
    ApplyResultsUntouched(ms, ids, results, b);
    assert r[b] in r;
  }

  /** Every game either already has a result or has its id among those to record. */
  predicate GamesCovered(ms: seq<Match>, ids: seq<int>)
  {
    forall j :: 0 <= j < |ms| && IsGame(ms[j]) ==> ms[j].result != Pending || ms[j].id in ids
  }

  lemma SetResultCovers(ms: seq<Match>, ids: seq<int>, results: seq<MatchResult>)
    requires DistinctMatchIds(ms) && |ids| == |results| && ids != [] && results[0] != Pending
    requires GamesCovered(ms, ids)
    ensures var next := SetResult(ms, ids[0], results[0]);
      DistinctMatchIds(next) && GamesCovered(next, ids[1..])
  {
    var next := SetResult(ms, ids[0], results[0]);
    SetResultShape(ms, ids[0], results[0]);
    forall j | 0 <= j < |next| && IsGame(next[j]) ensures next[j].result != Pending || next[j].id in ids[1..] {
      assert ids == [ids[0]] + ids[1..];
      if ms[j].id == ids[0] {
        match IndexOfId(ms, ids[0])
        case None =>
        case Some(i) =>
          assert i == j;
      }
    }
  }

  /**
   * The corrected test is reached: once a result is recorded for every game
   * of a round with distinct match ids, the round is settled, bye or not.
   */
  lemma {:induction false} DecidedRoundSettles(earlier: seq<Round>, roundNumber: int, ms: seq<Match>,
                                                ids: seq<int>, results: seq<MatchResult>)
    requires DistinctMatchIds(ms)
    requires |ids| == |results| && forall t :: 0 <= t < |results| ==> results[t] != Pending
    requires GamesCovered(ms, ids)
    ensures RoundSettled(earlier + [Round(roundNumber, ApplyResults(ms, ids, results))])
    decreases |ids|
  {
    if ids == [] {
      var rounds := earlier + [Round(roundNumber, ms)];
      assert rounds[|rounds| - 1].matches == ms;
    } else {
      SetResultCovers(ms, ids, results);
      DecidedRoundSettles(earlier, roundNumber, SetResult(ms, ids[0], results[0]), ids[1..], results[1..]);
    }
  }

  /** A generated round of an odd field, as written: never finished, whatever results are entered for its games. */
  lemma OddRoundStalls(earlier: seq<Round>, pool: seq<Participant>, roundNumber: int, coins: seq<bool>, startId: int,
                       ids: seq<int>, results: seq<MatchResult>, totalRounds: int)
    requires |pool| % 2 != 0
    requires |ids| == |results| && forall t :: 0 <= t < |ids| ==> ids[t] != startId
    ensures var ms := ApplyResults(Pairings(pool, roundNumber, coins, startId), ids, results);
      !RoundFinished(earlier + [Round(roundNumber, ms)]) &&
      !TournamentFinished(earlier + [Round(roundNumber, ms)], totalRounds)
  {
    var ms := Pairings(pool, roundNumber, coins, startId);
    PairingsBye(pool, roundNumber, coins, startId);
    PairingsFields(pool, roundNumber, coins, startId);
    ByeRoundNeverFinished(earlier, roundNumber, ms, 0, ids, results, totalRounds);
  }

  /** A generated round, corrected: settled once every game has a result, odd field or even. */
  lemma GeneratedRoundSettles(earlier: seq<Round>, pool: seq<Participant>, roundNumber: int, coins: seq<bool>, startId: int,
                              ids: seq<int>, results: seq<MatchResult>)
    requires |ids| == |results| && forall t :: 0 <= t < |results| ==> results[t] != Pending
    requires var ms := Pairings(pool, roundNumber, coins, startId);
      forall j :: 0 <= j < |ms| && IsGame(ms[j]) ==> ms[j].id in ids
    ensures RoundSettled(earlier + [Round(roundNumber, ApplyResults(Pairings(pool, roundNumber, coins, startId), ids, results))])
  {
    var ms := Pairings(pool, roundNumber, coins, startId);
    PairingsFields(pool, roundNumber, coins, startId);
    DecidedRoundSettles(earlier, roundNumber, ms, ids, results);
  }

  // ----- no rematch across the tournament -----

  /** Recomputed standings list opponents symmetrically: each meeting is recorded on both sides or on neither. */
  lemma RecomputedSymmetric(ps: seq<Participant>, rounds: seq<Round>)
    ensures SymmetricOpponents(Recompute(ps, rounds))
  {
    var out := Recompute(ps, rounds);
    RecomputeIdentity(ps, rounds);
    forall a, b | a in out && b in out
      ensures b.id in a.opponentsPlayedIds <==> a.id in b.opponentsPlayedIds
    {
      var i :| 0 <= i < |out| && out[i] == a;
      var j :| 0 <= j < |out| && out[j] == b;
      RecomputedPairSymmetric(ps, rounds, i, j);
    }
  }

  lemma RecomputedPairSymmetric(ps: seq<Participant>, rounds: seq<Round>, i: nat, j: nat)
    requires i < |Recompute(ps, rounds)| && j < |Recompute(ps, rounds)|
    ensures var a, b := Recompute(ps, rounds)[i], Recompute(ps, rounds)[j];
      b.id in a.opponentsPlayedIds <==> a.id in b.opponentsPlayedIds
  {
    var out := Recompute(ps, rounds);
    RecomputeIdentity(ps, rounds);
    if rounds != [] {
      RecomputedRecord(ps, rounds, i);
      RecomputedRecord(ps, rounds, j);
      OpponentsSymmetric(Ids(ps), out[i].id, out[j].id, Games(rounds));
    } else {
      assert out[i] == Reset(ps[i]) && out[j] == Reset(ps[j]);
    }
  }

  /** Shuffling keeps the members, so it keeps symmetry. */
  lemma ShuffledSymmetric(pool: seq<Participant>, draws: seq<nat>)
    requires SymmetricOpponents(pool)
    ensures SymmetricOpponents(Shuffled(pool, draws))
  {
    ShufflePermutes(pool, draws);
    forall x | x in Shuffled(pool, draws) ensures x in pool {
      assert x in multiset(Shuffled(pool, draws));
    }
    SymmetricSub(pool, Shuffled(pool, draws));
  }

  /** No id seated twice, nobody against itself, no game between two participants of whom either lists the other. */
  predicate WellPaired(ms: seq<Match>)
  {
    Disjoint(ms) && SelfFree(ms) && AllFresh(ms)
  }

  /**
   * A round generated from recomputed standings is well formed and repeats
   * no meeting the standings record: no id is seated twice, nobody plays
   * itself, and no game pairs two participants of whom either lists the
   * other.
   */
  lemma NextPairingsSound(ps: seq<Participant>, rounds: seq<Round>, draws: seq<nat>, coins: seq<bool>, startId: int)
    ensures WellPaired(Pairings(Shuffled(Recompute(ps, rounds), draws), |rounds| + 1, coins, startId))
  {
    var pool := Shuffled(Recompute(ps, rounds), draws);
    RecomputedSymmetric(ps, rounds);
    ShuffledSymmetric(Recompute(ps, rounds), draws);
    PairingsDisjoint(pool, |rounds| + 1, coins, startId);
    PairingsNoRematch(pool, |rounds| + 1, coins, startId);
  }

  /** The round `generateNextRound` appends: paired from the standings recomputed over the rounds so far. */
  function NextRoundOf(participants: seq<Participant>, rounds: seq<Round>, draws: seq<nat>, coins: seq<bool>, startId: int): Round
  {
    Round(|rounds| + 1, Pairings(Shuffled(Recompute(participants, rounds), draws), |rounds| + 1, coins, startId))
  }

  /** The body of `generateNextRound` past its guards: recompute the standings, then pair the next round from them. */
  method PairNextRound(participants: seq<Participant>, rounds: seq<Round>, draws: seq<nat>, coins: seq<bool>, startId: int)
    returns (updated: seq<Participant>, nextRound: Round)
    ensures updated == Recompute(participants, rounds)
    ensures nextRound == NextRoundOf(participants, rounds, draws, coins, startId)
    ensures nextRound.roundNumber == |rounds| + 1 && WellPaired(nextRound.matches)
  {
    updated := CalculateScoresAndTiebreaks(participants, rounds);
    var nextRoundMatches := GeneratePairings(updated, rounds, draws, coins, startId);
    NextPairingsSound(participants, rounds, draws, coins, startId);
    nextRound := Round(|rounds| + 1, nextRoundMatches);
  }

  // ----- the tournament screen -----

  /** The state the tournament screen keeps: the field, the rounds played so far and the planned number of rounds. */
  class Tournament {
    var participants: seq<Participant>
    var rounds: seq<Round>
    var totalRounds: int

    /**
     * `loadData`: the state once the stored participants and matches are
     * read. Rounds and the planned count are set only when there are both.
     */
    constructor Load(loaded: seq<Participant>, allMatches: seq<Match>)
      ensures participants == loaded
      ensures rounds == if |loaded| > 0 && |allMatches| > 0 then Grouped(allMatches, 1, MaxRound(allMatches)) else []
      ensures totalRounds == if |loaded| > 0 && |allMatches| > 0 then TotalRounds(|loaded|) else 0
    {
      participants := loaded;
      rounds := [];
      totalRounds := 0;
      if |loaded| > 0 && |allMatches| > 0 {
        var loadedRounds := GroupIntoRounds(allMatches);
        rounds := loadedRounds;
        totalRounds := TotalRounds(|loaded|);
      }
    }

    /**
     * `startTournament`: refused with fewer than two participants; otherwise
     * plans the rounds for the field and makes round 1 from it.
     */
    method Start(draws: seq<nat>, coins: seq<bool>, startId: int) returns (started: bool)
      modifies this
      ensures started <==> |old(participants)| >= 2
      ensures participants == old(participants)
      ensures started ==> (totalRounds == TotalRounds(|participants|) &&
                           rounds == [Round(1, Pairings(Shuffled(participants, draws), 1, coins, startId))])
      ensures started ==> Disjoint(rounds[0].matches) && SelfFree(rounds[0].matches)
      ensures !started ==> rounds == old(rounds) && totalRounds == old(totalRounds)
    {
      if |participants| < 2 {
        return false;
      }
      totalRounds := TotalRounds(|participants|);
      var firstRoundMatches := GeneratePairings(participants, [], draws, coins, startId);
      rounds := [Round(1, firstRoundMatches)];
      PairingsDisjoint(Shuffled(participants, draws), 1, coins, startId);
      started := true;
    }

    /**
     * `updateStandings`, run whenever the rounds change: the participants
     * become the standings recomputed from all rounds.
     */
    method RefreshStandings()
      modifies this
      ensures participants == Recompute(old(participants), rounds)
      ensures rounds == old(rounds) && totalRounds == old(totalRounds)
    {
      var updatedParticipants := CalculateScoresAndTiebreaks(participants, rounds);
      participants := updatedParticipants;
    }

    /**
     * `recordResult`: sets the result of the first match of the current
     * round with the given id; earlier rounds and every other match stay.
     */
    method RecordResult(matchId: int, result: MatchResult)
      requires rounds != []
      modifies this
      ensures |rounds| == |old(rounds)| && rounds[..|rounds| - 1] == old(rounds)[..|rounds| - 1]
      ensures var last := old(rounds)[|rounds| - 1];
        rounds[|rounds| - 1] == Round(last.roundNumber, SetResult(last.matches, matchId, result))
      ensures participants == old(participants) && totalRounds == old(totalRounds)
    {
      var lastRound := rounds[|rounds| - 1];
      var matchIndex := IndexOfId(lastRound.matches, matchId);
      if matchIndex.Some? {
        var i := matchIndex.value;
        var updated := lastRound.matches[i := lastRound.matches[i].(result := result)];
        rounds := rounds[|rounds| - 1 := Round(lastRound.roundNumber, updated)];
      }
    }

    /**
     * `generateNextRound`: only once the current round is finished, as
     * `isCurrentRoundFinished` tests it, and fewer than the planned rounds
     * were played; the standings are recomputed and the next round, numbered
     * one past the rounds so far, is paired from them. A round holding a bye
     * never passes this test (`OddRoundStalls`).
     */
    method NextRound(draws: seq<nat>, coins: seq<bool>, startId: int) returns (advanced: bool)
      modifies this
      ensures advanced <==> RoundFinished(old(rounds)) && |old(rounds)| < old(totalRounds)
      ensures totalRounds == old(totalRounds)
      ensures advanced ==> participants == Recompute(old(participants), old(rounds))
      ensures advanced ==> rounds == old(rounds) + [NextRoundOf(old(participants), old(rounds), draws, coins, startId)]
      ensures advanced ==> WellPaired(rounds[|rounds| - 1].matches)
      ensures !advanced ==> participants == old(participants) && rounds == old(rounds)
    {
      advanced := RoundFinished(rounds) && |rounds| < totalRounds;
      if advanced {
        Advance(draws, coins, startId);
      }
    }

    /**
     * `generateNextRound` with the corrected completion test `RoundSettled`:
     * a bye has nothing to wait for, so a round is over once its games have
     * results (`GeneratedRoundSettles`).
     */
    method NextRoundSettled(draws: seq<nat>, coins: seq<bool>, startId: int) returns (advanced: bool)
      modifies this
      ensures advanced <==> RoundSettled(old(rounds)) && |old(rounds)| < old(totalRounds)
      ensures totalRounds == old(totalRounds)
      ensures advanced ==> participants == Recompute(old(participants), old(rounds))
      ensures advanced ==> rounds == old(rounds) + [NextRoundOf(old(participants), old(rounds), draws, coins, startId)]
      ensures advanced ==> WellPaired(rounds[|rounds| - 1].matches)
      ensures !advanced ==> participants == old(participants) && rounds == old(rounds)
    {
      advanced := RoundSettled(rounds) && |rounds| < totalRounds;
      if advanced {
        Advance(draws, coins, startId);
      }
    }

    /** What `generateNextRound` does past its guards: new standings, and the next round appended. */
    method Advance(draws: seq<nat>, coins: seq<bool>, startId: int)
      modifies this
      ensures totalRounds == old(totalRounds)
      ensures participants == Recompute(old(participants), old(rounds))
      ensures rounds == old(rounds) + [NextRoundOf(old(participants), old(rounds), draws, coins, startId)]
      ensures WellPaired(rounds[|rounds| - 1].matches)
    {
      var updatedParticipantsWithScores, nextRound := PairNextRound(participants, rounds, draws, coins, startId);
      participants := updatedParticipantsWithScores;
      rounds := rounds + [nextRound];
    }

    /**
     * `reloadData`: replaces the state by what is stored. With participants
     * and matches the rounds are regrouped and the rounds replanned; with
     * participants only, the rounds are cleared; with no participants
     * everything is cleared.
     */
    method Reload(loaded: seq<Participant>, allMatches: seq<Match>)
      modifies this
      ensures participants == loaded
      ensures |loaded| > 0 && |allMatches| > 0 ==>
        rounds == Grouped(allMatches, 1, MaxRound(allMatches)) && totalRounds == TotalRounds(|loaded|)
      ensures |loaded| > 0 && |allMatches| == 0 ==> rounds == [] && totalRounds == old(totalRounds)
      ensures |loaded| == 0 ==> rounds == [] && totalRounds == 0
    {
      participants := loaded;
      if |loaded| > 0 {
        if |allMatches| > 0 {
          var loadedRounds := GroupIntoRounds(allMatches);
          rounds := loadedRounds;
          totalRounds := TotalRounds(|loaded|);
        } else {
          rounds := [];
        }
      } else {
        participants := [];
        rounds := [];
        totalRounds := 0;
      }
    }
  }
}
