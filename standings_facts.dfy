/**
 * What the standings recomputation promises, proved about `Recompute`.
 *
 * The per-player history functions below say what one record accumulates over
 * a list of matches; `FoldIsHistory` shows that the fold produces exactly
 * that, and the remaining lemmas read the promises off the history.
 */
module StandingsFacts {
  import opened Types
  import opened Standings

  // ----- one participant's history -----

  function ScoreIn(keys: set<int>, k: int, ms: seq<Match>): int
  {
    if ms == [] then 0 else ScoreIn(keys, k, ms[..|ms| - 1]) + Points(keys, k, ms[|ms| - 1])
  }

  function ColorsIn(keys: set<int>, k: int, ms: seq<Match>): seq<Color>
  {
    if ms == [] then [] else ColorsIn(keys, k, ms[..|ms| - 1]) + MatchColors(keys, k, ms[|ms| - 1])
  }

  function OpponentsIn(keys: set<int>, k: int, ms: seq<Match>): seq<int>
  {
    if ms == [] then [] else OpponentsIn(keys, k, ms[..|ms| - 1]) + MatchOpponents(keys, k, ms[|ms| - 1])
  }

  function ByesIn(keys: set<int>, k: int, ms: seq<Match>): int
  {
    if ms == [] then 0 else ByesIn(keys, k, ms[..|ms| - 1]) + MatchByes(keys, k, ms[|ms| - 1])
  }

  /** Number of matches in which `k` is the only side with a record. */
  function LonesIn(keys: set<int>, k: int, ms: seq<Match>): nat
  {
    if ms == [] then 0 else LonesIn(keys, k, ms[..|ms| - 1]) + (if Lone(keys, k, ms[|ms| - 1]) then 1 else 0)
  }

  /** Record `p` after it has lived through the matches `ms`. */
  function Lived(p: Participant, keys: set<int>, k: int, ms: seq<Match>): Participant
  {
    p.(score := p.score + ScoreIn(keys, k, ms),
       colorHistory := p.colorHistory + ColorsIn(keys, k, ms),
       opponentsPlayedIds := p.opponentsPlayedIds + OpponentsIn(keys, k, ms),
       byes := p.byes + ByesIn(keys, k, ms))
  }

  /** Living through one more match is one more `Credit`. */
  lemma LivedStep(p: Participant, keys: set<int>, k: int, ms: seq<Match>, m: Match)
    ensures Credit(Lived(p, keys, k, ms), k, keys, m) == Lived(p, keys, k, ms + [m])
  {
    assert (ms + [m])[..|ms|] == ms;
  }

  /** Folding the matches into the table gives every record exactly its own history. */
  lemma {:induction false} FoldIsHistory(t: Table, ms: seq<Match>, k: int)
    requires k in t
    ensures Fold(t, ms)[k] == Lived(t[k], t.Keys, k, ms)
    decreases |ms|
  {
    if ms != [] {
      var front, m := ms[..|ms| - 1], ms[|ms| - 1];
      FoldIsHistory(t, front, k);
      assert Fold(t, ms)[k] == Credit(Fold(t, front)[k], k, t.Keys, m);
      LivedStep(t[k], t.Keys, k, front, m);
      assert front + [m] == ms;
    }
  }

  /**
   * One record of the recomputed standings: its derived fields are exactly
   * its history over all the matches, whatever the input record held.
   */
  lemma RecomputedRecord(ps: seq<Participant>, rounds: seq<Round>, i: int)
    requires rounds != [] && 0 <= i < |FirstOccurrenceIds(ps)|
    ensures var k, keys, ms := FirstOccurrenceIds(ps)[i], Ids(ps), Games(rounds);
      var r := Recompute(ps, rounds)[i];
      r.id == k && Reset(r) == InitialTable(ps)[k] &&
      r.score == ScoreIn(keys, k, ms) && r.colorHistory == ColorsIn(keys, k, ms) &&
      r.opponentsPlayedIds == OpponentsIn(keys, k, ms) && r.byes == ByesIn(keys, k, ms) &&
      r.buchholz == OpponentScoreSum(Fold(InitialTable(ps), ms), OpponentsIn(keys, k, ms))
  {
    var k, ms := FirstOccurrenceIds(ps)[i], Games(rounds);
    var init := InitialTable(ps);
    var folded := Fold(init, ms);
    assert Recompute(ps, rounds)[i] == folded[k].(buchholz := OpponentScoreSum(folded, folded[k].opponentsPlayedIds)) by {
      assert Recompute(ps, rounds)[i] == Rebuilt(ps, rounds)[k];
    }
    assert folded[k] == Lived(init[k], Ids(ps), k, ms) by {
      FoldIsHistory(init, ms, k);
    }
    assert init[k] == Reset(init[k]);
    EmptyPrefix(OpponentsIn(Ids(ps), k, ms));
    EmptyPrefix(ColorsIn(Ids(ps), k, ms));
  }

  // ----- identity and order -----

  lemma {:induction false} FoldKeepsIdentity(t: Table, ms: seq<Match>, k: int)
    requires k in t
    ensures Reset(Fold(t, ms)[k]) == Reset(t[k])
  {
    FoldIsHistory(t, ms, k);
  }

  /** With distinct ids, the table holds each participant's own reset record. */
  lemma {:induction false} InitialTableDistinct(ps: seq<Participant>)
    requires DistinctIds(ps)
    ensures forall i :: 0 <= i < |ps| ==> InitialTable(ps)[ps[i].id] == Reset(ps[i])
  {
    if ps != [] {
      var front := ps[..|ps| - 1];
      InitialTableDistinct(front);
      forall i | 0 <= i < |ps| ensures InitialTable(ps)[ps[i].id] == Reset(ps[i]) {
        if i < |ps| - 1 {
          assert front[i] == ps[i];
          assert ps[i].id != ps[|ps| - 1].id;
        }
      }
    }
  }

  /** With distinct ids, first-occurrence order is just the order of the list. */
  lemma {:induction false} FirstOccurrenceDistinct(ps: seq<Participant>, order: seq<int>)
    requires |order| == |ps| && forall i :: 0 <= i < |ps| ==> ps[i].id == order[i]
    requires Distinct(order)
    ensures FirstOccurrenceIds(ps) == order
    decreases |ps|
  {
    if ps != [] {
      var n := |ps| - 1;
      FirstOccurrenceDistinct(ps[..n], order[..n]);
      assert order[n] !in order[..n];
      assert order[..n] + [order[n]] == order;
    }
  }

  lemma DistinctIdsOrder(ps: seq<Participant>)
    requires DistinctIds(ps)
    ensures Distinct(seq(|ps|, i requires 0 <= i < |ps| => ps[i].id))
  {
  }

  /**
   * The output holds one record per distinct input id, in first-occurrence
   * order, each keeping the id, name and school the map stored for it.
   */
  lemma RecomputeIdentity(ps: seq<Participant>, rounds: seq<Round>)
    ensures rounds == [] ==> (|Recompute(ps, rounds)| == |ps| &&
      forall i :: 0 <= i < |ps| ==> Reset(Recompute(ps, rounds)[i]) == Reset(ps[i]))
    ensures rounds != [] ==> (|Recompute(ps, rounds)| == |FirstOccurrenceIds(ps)| &&
      forall i :: 0 <= i < |FirstOccurrenceIds(ps)| ==>
        Reset(Recompute(ps, rounds)[i]) == InitialTable(ps)[FirstOccurrenceIds(ps)[i]] &&
        Recompute(ps, rounds)[i].id == FirstOccurrenceIds(ps)[i])
  {
    if rounds != [] {
      var order := FirstOccurrenceIds(ps);
      var init := InitialTable(ps);
      forall i | 0 <= i < |order|
        ensures Reset(Recompute(ps, rounds)[i]) == init[order[i]]
      {
        FoldKeepsIdentity(init, Games(rounds), order[i]);
      }
    }
  }

  /** For a list without repeated ids the output lines up with the input, record by record. */
  lemma RecomputeKeepsParticipants(ps: seq<Participant>, rounds: seq<Round>)
    requires DistinctIds(ps)
    ensures |Recompute(ps, rounds)| == |ps|
    ensures forall i :: 0 <= i < |ps| ==> Reset(Recompute(ps, rounds)[i]) == Reset(ps[i])
  {
    RecomputeIdentity(ps, rounds);
    if rounds != [] {
      var out := Recompute(ps, rounds);
      var ids := seq(|ps|, i requires 0 <= i < |ps| => ps[i].id);
      DistinctIdsOrder(ps);
      FirstOccurrenceDistinct(ps, ids);
      InitialTableDistinct(ps);
      forall i | 0 <= i < |ps| ensures Reset(out[i]) == Reset(ps[i]) {
        assert Reset(out[i]) == InitialTable(ps)[ids[i]];
      }
    }
  }

  lemma RecomputedDistinct(ps: seq<Participant>, rounds: seq<Round>)
    requires rounds != []
    ensures DistinctIds(Recompute(ps, rounds))
  {
    var out, order := Recompute(ps, rounds), FirstOccurrenceIds(ps);
    RecomputeIdentity(ps, rounds);
    forall i, j | 0 <= i < j < |out| ensures out[i].id != out[j].id {
      assert order[i] != order[j];
    }
  }

  /** A list without repeated ids whose reset records are those of `init`, one per key, rebuilds `init`. */
  lemma InitialTableOf(qs: seq<Participant>, order: seq<int>, init: Table)
    requires |qs| == |order| && DistinctIds(qs)
    requires forall k :: k in init <==> k in order
    requires forall i :: 0 <= i < |qs| ==> qs[i].id == order[i] && Reset(qs[i]) == init[order[i]]
    ensures InitialTable(qs) == init
  {
    assert InitialTable(qs).Keys == init.Keys by {
      forall k ensures k in InitialTable(qs) <==> k in init {
        if k in init {
          var i :| 0 <= i < |order| && order[i] == k;
          assert qs[i].id == k;
        }
        if k in InitialTable(qs) {
          var i :| 0 <= i < |qs| && qs[i].id == k;
          assert order[i] in order;
        }
      }
    }
    forall k | k in init ensures InitialTable(qs)[k] == init[k] {
      var i :| 0 <= i < |order| && order[i] == k;
      assert InitialTable(qs)[qs[i].id] == Reset(qs[i]) by {
        InitialTableDistinct(qs);
      }
    }
  }

  /** The output, reset again, is the table the recomputation started from. */
  lemma RecomputedInitialTable(ps: seq<Participant>, rounds: seq<Round>)
    requires rounds != []
    ensures InitialTable(Recompute(ps, rounds)) == InitialTable(ps)
  {
    RecomputeIdentity(ps, rounds);
    RecomputedDistinct(ps, rounds);
    InitialTableOf(Recompute(ps, rounds), FirstOccurrenceIds(ps), InitialTable(ps));
  }

  /** Recomputing from the output of a recomputation over the same rounds changes nothing. */
  lemma RecomputeIdempotent(ps: seq<Participant>, rounds: seq<Round>)
    ensures Recompute(Recompute(ps, rounds), rounds) == Recompute(ps, rounds)
  {
    var out := Recompute(ps, rounds);
    if rounds != [] {
      var order := FirstOccurrenceIds(ps);
      RecomputeIdentity(ps, rounds);
      RecomputedDistinct(ps, rounds);
      FirstOccurrenceDistinct(out, order);
      RecomputedInitialTable(ps, rounds);
      assert Ids(out) == Ids(ps);
      assert Rebuilt(out, rounds) == Rebuilt(ps, rounds);
    }
  }

  // ----- colours, opponents and byes -----

  /**
   * Every match pushes one colour token per side with a record, but an
   * opponent id only when both sides have one; the surplus of colour tokens is
   * the number of matches a participant played alone, and its byes are the
   * Pending ones among them.
   */
  lemma {:induction false} ColorsAndOpponents(keys: set<int>, k: int, ms: seq<Match>)
    ensures |ColorsIn(keys, k, ms)| == |OpponentsIn(keys, k, ms)| + LonesIn(keys, k, ms)
    ensures 0 <= ByesIn(keys, k, ms) <= LonesIn(keys, k, ms)
    decreases |ms|
  {
    if ms != [] {
      ColorsAndOpponents(keys, k, ms[..|ms| - 1]);
    }
  }

  /** A lone side gets one colour token (White when it sits on the white side) and no opponent. */
  lemma LoneMatchHistory(keys: set<int>, k: int, m: Match)
    requires Lone(keys, k, m)
    ensures MatchOpponents(keys, k, m) == []
    ensures MatchColors(keys, k, m) == (if Side(keys, m.whitePlayer) == Some(k) then [White] else [Black])
    ensures MatchByes(keys, k, m) == (if m.result == Pending then 1 else 0)
  {
  }

  /** Two participants meet in `m`: both sides have records, and they are those two. */
  predicate Meets(keys: set<int>, m: Match, k: int, x: int)
  {
    var w, b := Side(keys, m.whitePlayer), Side(keys, m.blackPlayer);
    w.Some? && b.Some? && ((w.value == k && b.value == x) || (b.value == k && w.value == x))
  }

  lemma OpponentsOfOneMatch(keys: set<int>, k: int, x: int, m: Match)
    ensures x in MatchOpponents(keys, k, m) <==> Meets(keys, m, k, x)
  {
  }

  lemma OpponentsInSnoc(keys: set<int>, k: int, x: int, ms: seq<Match>)
    requires ms != []
    ensures x in OpponentsIn(keys, k, ms) <==>
      (x in OpponentsIn(keys, k, ms[..|ms| - 1]) || x in MatchOpponents(keys, k, ms[|ms| - 1]))
  {
  }

  lemma SomeMatchSnoc(keys: set<int>, k: int, x: int, ms: seq<Match>, front: seq<Match>)
    requires ms != [] && front == ms[..|ms| - 1]
    ensures (exists i :: 0 <= i < |ms| && x in MatchOpponents(keys, k, ms[i])) <==>
      ((exists i :: 0 <= i < |front| && x in MatchOpponents(keys, k, front[i]))
       || x in MatchOpponents(keys, k, ms[|ms| - 1]))
  {
    assert forall i :: 0 <= i < |front| ==> front[i] == ms[i];
  }

  lemma {:induction false} OpponentsInMatches(keys: set<int>, k: int, x: int, ms: seq<Match>)
    ensures x in OpponentsIn(keys, k, ms) <==> exists i :: 0 <= i < |ms| && x in MatchOpponents(keys, k, ms[i])
    decreases |ms|
  {
    if ms != [] {
      OpponentsInMatches(keys, k, x, ms[..|ms| - 1]);
      OpponentsInSnoc(keys, k, x, ms);
      SomeMatchSnoc(keys, k, x, ms, ms[..|ms| - 1]);
    }
  }

  /** `x` is listed among `k`'s opponents exactly when some match had the two of them facing each other. */
  lemma OpponentsAreMeetings(keys: set<int>, k: int, x: int, ms: seq<Match>)
    ensures x in OpponentsIn(keys, k, ms) <==> exists i :: 0 <= i < |ms| && Meets(keys, ms[i], k, x)
  {
    OpponentsInMatches(keys, k, x, ms);
    forall i | 0 <= i < |ms| ensures x in MatchOpponents(keys, k, ms[i]) <==> Meets(keys, ms[i], k, x) {
      OpponentsOfOneMatch(keys, k, x, ms[i]);
    }
  }

  /** Having played is symmetric: each of two participants lists the other. */
  lemma OpponentsSymmetric(keys: set<int>, k: int, x: int, ms: seq<Match>)
    ensures x in OpponentsIn(keys, k, ms) <==> k in OpponentsIn(keys, x, ms)
  {
    OpponentsAreMeetings(keys, k, x, ms);
    OpponentsAreMeetings(keys, x, k, ms);
    assert forall i :: 0 <= i < |ms| ==> (Meets(keys, ms[i], k, x) <==> Meets(keys, ms[i], x, k));
  }

  // ----- score conservation -----

  /** Half-points a match hands out in total. */
  function MatchValue(keys: set<int>, m: Match): int
  {
    var w, b := Side(keys, m.whitePlayer), Side(keys, m.blackPlayer);
    (if w.Some? then WhitePoints(m.result, b.Some?) else 0)
    + (if b.Some? then BlackPoints(m.result, w.Some?) else 0)
  }

  /**
   * A decided game hands out one point, a Pending game nothing, and a
   * one-sided Pending match (a bye) one point to its lone side.
   */
  lemma MatchValueMeaning(keys: set<int>, m: Match)
    ensures var w, b := Side(keys, m.whitePlayer), Side(keys, m.blackPlayer);
      MatchValue(keys, m) ==
        if w.Some? && b.Some? then (if m.result == Pending then 0 else 2)
        else if w.None? && b.None? then 0
        else if m.result == Pending then 2
        else if m.result == Draw then 1
        else if (m.result == WhiteWin) == w.Some? then 2
        else 0
  {
  }

  function TotalValue(keys: set<int>, ms: seq<Match>): int
  {
    if ms == [] then 0 else TotalValue(keys, ms[..|ms| - 1]) + MatchValue(keys, ms[|ms| - 1])
  }

  /** Sum of the points a match gives the listed keys. */
  function PointsOver(keys: set<int>, order: seq<int>, m: Match): int
  {
    if order == [] then 0 else PointsOver(keys, order[..|order| - 1], m) + Points(keys, order[|order| - 1], m)
  }

  lemma {:induction false} PointsOverSides(keys: set<int>, order: seq<int>, m: Match)
    requires Distinct(order)
    ensures var w, b := Side(keys, m.whitePlayer), Side(keys, m.blackPlayer);
      PointsOver(keys, order, m) ==
        (if w.Some? && w.value in order then WhitePoints(m.result, b.Some?) else 0)
        + (if b.Some? && b.value in order then BlackPoints(m.result, w.Some?) else 0)
    decreases |order|
  {
    if order != [] {
      var n := |order| - 1;
      PointsOverSides(keys, order[..n], m);
      assert order[n] !in order[..n];
      assert order == order[..n] + [order[n]];
    }
  }

  lemma {:induction false} ScoreSumStep(t: Table, order: seq<int>, m: Match)
    ensures OpponentScoreSum(Step(t, m), order) == OpponentScoreSum(t, order) + PointsOver(t.Keys, order, m)
    decreases |order|
  {
    if order != [] {
      ScoreSumStep(t, order[..|order| - 1], m);
    }
  }

  lemma {:induction false} ScoreSumFold(t: Table, order: seq<int>, ms: seq<Match>)
    requires Distinct(order) && forall k :: k in order <==> k in t
    ensures OpponentScoreSum(Fold(t, ms), order) == OpponentScoreSum(t, order) + TotalValue(t.Keys, ms)
    decreases |ms|
  {
    if ms != [] {
      var n := |ms| - 1;
      ScoreSumFold(t, order, ms[..n]);
      ScoreSumStep(Fold(t, ms[..n]), order, ms[n]);
      PointsOverSides(t.Keys, order, ms[n]);
    }
  }

  function SumOfScores(ps: seq<Participant>): int
  {
    if ps == [] then 0 else SumOfScores(ps[..|ps| - 1]) + ps[|ps| - 1].score
  }

  lemma {:induction false} ScoreSumZero(t: Table, order: seq<int>)
    requires forall k :: k in t ==> t[k].score == 0
    ensures OpponentScoreSum(t, order) == 0
    decreases |order|
  {
    if order != [] {
      ScoreSumZero(t, order[..|order| - 1]);
    }
  }

  lemma {:induction false} SumOfScoresAlong(ps: seq<Participant>, t: Table, order: seq<int>)
    requires |ps| == |order|
    requires forall i :: 0 <= i < |ps| ==> order[i] in t && ps[i].score == t[order[i]].score
    ensures SumOfScores(ps) == OpponentScoreSum(t, order)
    decreases |ps|
  {
    if ps != [] {
      var n := |ps| - 1;
      SumOfScoresAlong(ps[..n], t, order[..n]);
    }
  }

  /** The recomputed scores add up to what the matches hand out: nothing is created or lost. */
  lemma ScoreConservation(ps: seq<Participant>, rounds: seq<Round>)
    ensures SumOfScores(Recompute(ps, rounds)) == TotalValue(Ids(ps), Games(rounds))
  {
    var out := Recompute(ps, rounds);
    if rounds == [] {
      ScoreSumZeroList(out);
    } else {
      var order := FirstOccurrenceIds(ps);
      var init := InitialTable(ps);
      var folded := Fold(init, Games(rounds));
      SumOfScoresAlong(out, folded, order);
      ScoreSumFold(init, order, Games(rounds));
      ScoreSumZero(init, order);
    }
  }

  lemma {:induction false} ScoreSumZeroList(ps: seq<Participant>)
    requires forall i :: 0 <= i < |ps| ==> ps[i].score == 0
    ensures SumOfScores(ps) == 0
    decreases |ps|
  {
    if ps != [] {
      ScoreSumZeroList(ps[..|ps| - 1]);
    }
  }

  /** Number of two-sided decided games plus one-sided Pending matches. */
  function PointMatches(keys: set<int>, ms: seq<Match>): nat
  {
    if ms == [] then 0
    else
      var m := ms[|ms| - 1];
      var w, b := Side(keys, m.whitePlayer), Side(keys, m.blackPlayer);
      PointMatches(keys, ms[..|ms| - 1])
      + (if (w.Some? && b.Some? && m.result != Pending) || (w.Some? != b.Some? && m.result == Pending) then 1 else 0)
  }

  /**
   * When every one-sided match is still Pending (as the pairing generator
   * emits byes), the matches hand out one point per decided game and one per
   * bye.
   */
  lemma {:induction false} TotalValueCountsPoints(keys: set<int>, ms: seq<Match>)
    requires forall i :: 0 <= i < |ms| ==>
      Side(keys, ms[i].whitePlayer).Some? != Side(keys, ms[i].blackPlayer).Some? ==> ms[i].result == Pending
    ensures TotalValue(keys, ms) == 2 * PointMatches(keys, ms)
    decreases |ms|
  {
    if ms != [] {
      var n := |ms| - 1;
      TotalValueCountsPoints(keys, ms[..n]);
      MatchValueMeaning(keys, ms[n]);
    }
  }

  // ----- Buchholz -----

  /** The score of the first record with id `o` in a list, 0 when there is none. */
  function ScoreOf(rs: seq<Participant>, o: int): int
  {
    if rs == [] then 0 else if rs[0].id == o then rs[0].score else ScoreOf(rs[1..], o)
  }

  function ScoresOf(rs: seq<Participant>, opponents: seq<int>): int
  {
    if opponents == [] then 0
    else ScoresOf(rs, opponents[..|opponents| - 1]) + ScoreOf(rs, opponents[|opponents| - 1])
  }

  lemma {:induction false} ScoreOfAlong(rs: seq<Participant>, t: Table, order: seq<int>, o: int)
    requires |rs| == |order| && forall k :: k in order ==> k in t
    requires forall i :: 0 <= i < |rs| ==> rs[i].id == order[i] && rs[i].score == t[order[i]].score
    ensures ScoreOf(rs, o) == if o in order then t[o].score else 0
    decreases |rs|
  {
    if rs != [] {
      ScoreOfAlong(rs[1..], t, order[1..], o);
      assert order == [order[0]] + order[1..];
    }
  }

  lemma {:induction false} ScoresOfAlong(rs: seq<Participant>, t: Table, order: seq<int>, opponents: seq<int>)
    requires |rs| == |order| && forall k :: k in order <==> k in t
    requires forall i :: 0 <= i < |rs| ==> rs[i].id == order[i] && rs[i].score == t[order[i]].score
    ensures ScoresOf(rs, opponents) == OpponentScoreSum(t, opponents)
    decreases |opponents|
  {
    if opponents != [] {
      ScoresOfAlong(rs, t, order, opponents[..|opponents| - 1]);
      ScoreOfAlong(rs, t, order, opponents[|opponents| - 1]);
    }
  }

  /**
   * Each recomputed Buchholz is the sum of the final scores, in the same
   * output, of every opponent it lists, a repeated opponent counting each time.
   */
  lemma BuchholzSumsOpponentScores(ps: seq<Participant>, rounds: seq<Round>)
    ensures var out := Recompute(ps, rounds);
      forall i :: 0 <= i < |out| ==> out[i].buchholz == ScoresOf(out, out[i].opponentsPlayedIds)
  {
    var out := Recompute(ps, rounds);
    if rounds == [] {
      forall i | 0 <= i < |out| ensures out[i].buchholz == ScoresOf(out, out[i].opponentsPlayedIds) {
        assert out[i].opponentsPlayedIds == [];
      }
    } else {
      var order := FirstOccurrenceIds(ps);
      var folded := Fold(InitialTable(ps), Games(rounds));
      RecomputeIdentity(ps, rounds);
      forall i | 0 <= i < |out| ensures out[i].buchholz == ScoresOf(out, out[i].opponentsPlayedIds) {
        ScoresOfAlong(out, folded, order, out[i].opponentsPlayedIds);
      }
    }
  }
}
