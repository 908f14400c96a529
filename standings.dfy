/**
 * Standings recomputation (`calculateScoresAndTiebreaks`).
 *
 * Every call starts each participant from zero, folds every match of every
 * round into a table of records keyed by participant id, and finally sets
 * each record's Buchholz to the sum of the final scores of the opponents it
 * has faced. Scores are in half-points.
 *
 * The specification is `Recompute`; the per-match update `Step` is written as
 * a closed form (each record gains exactly its own share of the match), while
 * the methods perform the same update the way the source does, one in-place
 * push or increment at a time.
 */
module Standings {
  import opened Types

  /** The records being rebuilt, keyed by participant id. */
  type Table = map<int, Participant>

  /**
   * A participant with every derived field back at zero. The ensures only
   * expose the fields to the proofs; what the reset records become is stated
   * by `RecomputedRecord` and `RecomputeIdentity`.
   */
  function Reset(p: Participant): (r: Participant)
    ensures r.id == p.id && r.name == p.name && r.school == p.school
    ensures r.score == 0 && r.byes == 0 && r.buchholz == 0
    ensures r.opponentsPlayedIds == [] && r.colorHistory == []
  {
    p.(score := 0, opponentsPlayedIds := [], byes := 0, buchholz := 0, colorHistory := [])
  }

  function ResetAll(ps: seq<Participant>): (r: seq<Participant>)
    ensures |r| == |ps|
  {
    seq(|ps|, i requires 0 <= i < |ps| => Reset(ps[i]))
  }

  function Ids(ps: seq<Participant>): set<int>
  {
    set i | 0 <= i < |ps| :: ps[i].id
  }

  predicate DistinctIds(ps: seq<Participant>)
  {
    forall i, j :: 0 <= i < j < |ps| ==> ps[i].id != ps[j].id
  }

  predicate Distinct(s: seq<int>)
  {
    forall i, j :: 0 <= i < j < |s| ==> s[i] != s[j]
  }

  /**
   * The table `new Map(participants.map(...))` builds: one reset record per
   * id; when an id repeats, the last record with it supplies the value.
   */
  function InitialTable(ps: seq<Participant>): (t: Table)
    ensures t.Keys == Ids(ps)
    ensures forall k :: k in t ==> t[k].id == k && t[k] == Reset(t[k])
  {
    if ps == [] then map[] else InitialTable(ps[..|ps| - 1])[ps[|ps| - 1].id := Reset(ps[|ps| - 1])]
  }

  /** The ids in the order the map first saw them (a `Map` keeps insertion order). */
  function FirstOccurrenceIds(ps: seq<Participant>): (ids: seq<int>)
    ensures Distinct(ids)
    ensures forall k :: k in ids <==> k in Ids(ps)
    ensures |ids| <= |ps|
  {
    if ps == [] then []
    else
      var ids := FirstOccurrenceIds(ps[..|ps| - 1]);
      if ps[|ps| - 1].id in ids then ids else ids + [ps[|ps| - 1].id]
  }

  // ----- one match -----

  /** The key of a side's record: absent when the side is empty or its id is not in the table. */
  function Side(keys: set<int>, side: Option<Participant>): (r: Option<int>)
    ensures r.Some? ==> r.value in keys
  {
    if side.Some? && side.value.id in keys then Some(side.value.id) else None
  }

  /** Half-points the white side earns; a Pending match without a black record is a bye. */
  function WhitePoints(result: MatchResult, blackKnown: bool): int
  {
    match result
    case WhiteWin => 2
    case BlackWin => 0
    case Draw => 1
    case Pending => if blackKnown then 0 else 2
  }

  function BlackPoints(result: MatchResult, whiteKnown: bool): int
  {
    match result
    case WhiteWin => 0
    case BlackWin => 2
    case Draw => 1
    case Pending => if whiteKnown then 0 else 2
  }

  /** Half-points participant `k` earns from match `m`. */
  function Points(keys: set<int>, k: int, m: Match): int
  {
    var w, b := Side(keys, m.whitePlayer), Side(keys, m.blackPlayer);
    (if w == Some(k) then WhitePoints(m.result, b.Some?) else 0)
    + (if b == Some(k) then BlackPoints(m.result, w.Some?) else 0)
  }

  /** `k` is the only side of `m` with a record. */
  predicate Lone(keys: set<int>, k: int, m: Match)
  {
    var w, b := Side(keys, m.whitePlayer), Side(keys, m.blackPlayer);
    (w == Some(k) && b.None?) || (b == Some(k) && w.None?)
  }

  /** Byes participant `k` is credited with by `m`: a Pending match in which it is alone. */
  function MatchByes(keys: set<int>, k: int, m: Match): int
  {
    if m.result == Pending && Lone(keys, k, m) then 1 else 0
  }

  /** Colour tokens `k` receives from `m`; a side without opponent still gets its token. */
  function MatchColors(keys: set<int>, k: int, m: Match): seq<Color>
  {
    var w, b := Side(keys, m.whitePlayer), Side(keys, m.blackPlayer);
    (if w == Some(k) then [White] else []) + (if b == Some(k) then [Black] else [])
  }

  /** Opponent ids `k` records from `m`: only when both sides have records. */
  function MatchOpponents(keys: set<int>, k: int, m: Match): seq<int>
  {
    var w, b := Side(keys, m.whitePlayer), Side(keys, m.blackPlayer);
    if w.Some? && b.Some? then
      (if w.value == k then [b.value] else []) + (if b.value == k then [w.value] else [])
    else []
  }

  /** Record `p`, kept under key `k`, after match `m`. */
  function Credit(p: Participant, k: int, keys: set<int>, m: Match): Participant
  {
    p.(score := p.score + Points(keys, k, m),
       colorHistory := p.colorHistory + MatchColors(keys, k, m),
       opponentsPlayedIds := p.opponentsPlayedIds + MatchOpponents(keys, k, m),
       byes := p.byes + MatchByes(keys, k, m))
  }

  /** The table after one match: each record gains exactly its own share. */
  function Step(t: Table, m: Match): (r: Table)
    ensures r.Keys == t.Keys
  {
    map k | k in t :: Credit(t[k], k, t.Keys, m)
  }

  // ----- the whole history -----

  /** All matches of all rounds, round by round. */
  function Games(rounds: seq<Round>): seq<Match>
  {
    if rounds == [] then [] else Games(rounds[..|rounds| - 1]) + rounds[|rounds| - 1].matches
  }

  function Fold(t: Table, ms: seq<Match>): (r: Table)
    ensures r.Keys == t.Keys
  {
    if ms == [] then t else Step(Fold(t, ms[..|ms| - 1]), ms[|ms| - 1])
  }

  lemma FoldSnoc(t: Table, ms: seq<Match>, m: Match)
    ensures Fold(t, ms + [m]) == Step(Fold(t, ms), m)
  {
    assert (ms + [m])[..|ms|] == ms;
  }

  lemma GamesSnoc(rounds: seq<Round>, i: nat)
    requires i < |rounds|
    ensures Games(rounds[..i + 1]) == Games(rounds[..i]) + rounds[i].matches
  {
    assert rounds[..i + 1][..i] == rounds[..i];
  }

  /** Sum of the current scores of the listed opponents; an unknown id adds nothing. */
  function OpponentScoreSum(t: Table, opponents: seq<int>): int
  {
    if opponents == [] then 0
    else
      var o := opponents[|opponents| - 1];
      OpponentScoreSum(t, opponents[..|opponents| - 1]) + (if o in t then t[o].score else 0)
  }

  function WithBuchholz(t: Table): (r: Table)
    ensures r.Keys == t.Keys
  {
    map k | k in t :: t[k].(buchholz := OpponentScoreSum(t, t[k].opponentsPlayedIds))
  }

  /** The records of `t` listed in `order` (`Array.from(map.values())`). */
  function Collect(t: Table, order: seq<int>): (r: seq<Participant>)
    requires forall i :: 0 <= i < |order| ==> order[i] in t
    ensures |r| == |order|
    ensures forall i :: 0 <= i < |order| ==> r[i] == t[order[i]]
  {
    seq(|order|, i requires 0 <= i < |order| => t[order[i]])
  }

  /** The table after folding every match of `rounds` and assigning Buchholz. */
  function Rebuilt(participants: seq<Participant>, rounds: seq<Round>): (t: Table)
    ensures t.Keys == Ids(participants)
  {
    WithBuchholz(Fold(InitialTable(participants), Games(rounds)))
  }

  /** The specification of `calculateScoresAndTiebreaks`. */
  function Recompute(participants: seq<Participant>, rounds: seq<Round>): seq<Participant>
  {
    if rounds == [] then ResetAll(participants)
    else Collect(Rebuilt(participants, rounds), FirstOccurrenceIds(participants))
  }

  // ----- the source's in-place computation -----

  /** The colour pushes of the source for one match. */
  method PushColors(table: Table, keys: set<int>, m: Match, white: Option<int>, black: Option<int>) returns (t: Table)
    requires table.Keys == keys
    requires white == Side(keys, m.whitePlayer) && black == Side(keys, m.blackPlayer)
    ensures t.Keys == keys
    ensures forall k :: k in t ==>
      t[k] == table[k].(colorHistory := table[k].colorHistory + MatchColors(keys, k, m))
  {
    t := table;
    if white.Some? {
      var w := white.value;
      t := t[w := t[w].(colorHistory := t[w].colorHistory + [White])];
    }
    if black.Some? {
      var b := black.value;
      t := t[b := t[b].(colorHistory := t[b].colorHistory + [Black])];
    }
  }

  /** The opponent pushes of the source for one match: only when both sides have records. */
  method PushOpponents(table: Table, keys: set<int>, m: Match, white: Option<int>, black: Option<int>) returns (t: Table)
    requires table.Keys == keys
    requires white == Side(keys, m.whitePlayer) && black == Side(keys, m.blackPlayer)
    ensures t.Keys == keys
    ensures forall k :: k in t ==>
      t[k] == table[k].(opponentsPlayedIds := table[k].opponentsPlayedIds + MatchOpponents(keys, k, m))
  {
    t := table;
    if white.Some? && black.Some? {
      var w, b := white.value, black.value;
      t := t[w := t[w].(opponentsPlayedIds := t[w].opponentsPlayedIds + [b])];
      t := t[b := t[b].(opponentsPlayedIds := t[b].opponentsPlayedIds + [w])];
    }
  }

  /** The `switch (match.result)` of the source: score and bye increments. */
  method AwardResult(table: Table, keys: set<int>, m: Match, white: Option<int>, black: Option<int>)
    returns (t: Table)
    requires table.Keys == keys
    requires white == Side(keys, m.whitePlayer) && black == Side(keys, m.blackPlayer)
    ensures t.Keys == keys
    ensures forall k :: k in t ==> t[k] == table[k].(
      score := table[k].score + Points(keys, k, m),
      byes := table[k].byes + MatchByes(keys, k, m))
  {
    t := table;
    match m.result {
      case WhiteWin =>
        if white.Some? {
          var w := white.value;
          t := t[w := t[w].(score := t[w].score + 2)];
        }
      case BlackWin =>
        if black.Some? {
          var b := black.value;
          t := t[b := t[b].(score := t[b].score + 2)];
        }
      case Draw =>
        if white.Some? {
          var w := white.value;
          t := t[w := t[w].(score := t[w].score + 1)];
        }
        if black.Some? {
          var b := black.value;
          t := t[b := t[b].(score := t[b].score + 1)];
        }
      case Pending =>
        if white.Some? && black.None? {
          var w := white.value;
          t := t[w := t[w].(score := t[w].score + 2, byes := t[w].byes + 1)];
        }
        if black.Some? && white.None? {
          var b := black.value;
          t := t[b := t[b].(score := t[b].score + 2, byes := t[b].byes + 1)];
        }
    }
  }

  /** The loop body of the source for one match. */
  method RecordMatch(table: Table, m: Match) returns (t: Table)
    ensures t == Step(table, m)
  {
    var white := Side(table.Keys, m.whitePlayer);
    var black := Side(table.Keys, m.blackPlayer);
    var colored := PushColors(table, table.Keys, m, white, black);
    var pushed := PushOpponents(colored, table.Keys, m, white, black);
    t := AwardResult(pushed, table.Keys, m, white, black);
  }

  /** The nested loops over rounds and matches. */
  method FoldRounds(table: Table, rounds: seq<Round>) returns (t: Table)
    ensures t == Fold(table, Games(rounds))
  {
    t := table;
    var i := 0;
    while i < |rounds|
      invariant 0 <= i <= |rounds|
      invariant t == Fold(table, Games(rounds[..i]))
    {
      var matches := rounds[i].matches;
      var j := 0;
      assert Games(rounds[..i]) + matches[..j] == Games(rounds[..i]);
      while j < |matches|
        invariant 0 <= j <= |matches|
        invariant t == Fold(table, Games(rounds[..i]) + matches[..j])
      {
        ghost var before := Games(rounds[..i]) + matches[..j];
        t := RecordMatch(t, matches[j]);
        FoldSnoc(table, before, matches[j]);
        assert before + [matches[j]] == Games(rounds[..i]) + matches[..j + 1];
        j := j + 1;
      }
      assert matches[..j] == matches;
      GamesSnoc(rounds, i);
      i := i + 1;
    }
    assert rounds[..i] == rounds;
  }

  /** The Buchholz pass: each record gets the sum of its opponents' final scores. */
  method AssignBuchholz(table: Table, order: seq<int>) returns (t: Table)
    requires Distinct(order) && forall k :: k in order <==> k in table
    ensures t == WithBuchholz(table)
  {
    t := table;
    var k := 0;
    while k < |order|
      invariant 0 <= k <= |order|
      invariant t.Keys == table.Keys
      invariant forall key :: key in t ==>
        t[key] == if key in order[..k] then WithBuchholz(table)[key] else table[key]
    {
      var id := order[k];
      var player := t[id];
      var opponents := player.opponentsPlayedIds;
      var buchholz := 0;
      var x := 0;
      while x < |opponents|
        invariant 0 <= x <= |opponents|
        invariant buchholz == OpponentScoreSum(table, opponents[..x])
      {
        var opponentId := opponents[x];
        if opponentId in t {
          buchholz := buchholz + t[opponentId].score;
        }
        assert opponents[..x + 1][..x] == opponents[..x];
        x := x + 1;
      }
      assert opponents[..x] == opponents;
      t := t[id := player.(buchholz := buchholz)];
      k := k + 1;
    }
    forall key | key in t ensures t[key] == WithBuchholz(table)[key] {
      assert key in order[..k];
    }
  }

  /** `calculateScoresAndTiebreaks`. */
  method CalculateScoresAndTiebreaks(participants: seq<Participant>, rounds: seq<Round>)
    returns (standings: seq<Participant>)
    ensures standings == Recompute(participants, rounds)
  {
    var table := InitialTable(participants);
    var order := FirstOccurrenceIds(participants);
    if |rounds| == 0 {
      return ResetAll(participants);
    }
    table := FoldRounds(table, rounds);
    table := AssignBuchholz(table, order);
    standings := Collect(table, order);
  }
}
