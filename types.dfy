/**
 * The records a Swiss-system tournament is made of: participants, matches
 * and rounds. Scores and Buchholz tiebreaks are always multiples of one
 * half, so they are kept here as integer HALF-POINTS (a win is 2, a draw 1).
 */
module Types {

  datatype Option<T> = None | Some(value: T)

  /** A colour token of a participant's colour history. */
  datatype Color = White | Black

  datatype MatchResult = WhiteWin | BlackWin | Draw | Pending

  /**
   * A registered competitor. `score` and `buchholz` are in half-points;
   * `opponentsPlayedIds` and `colorHistory` grow by one entry per game.
   */
  datatype Participant = Participant(
    id: int,
    name: string,
    school: string,
    score: int,
    opponentsPlayedIds: seq<int>,
    byes: int,
    buchholz: int,
    colorHistory: seq<Color>)

  /** One game of a round; a side that is `None` makes the match a bye. */
  datatype Match = Match(
    id: int,
    roundNumber: int,
    whitePlayer: Option<Participant>,
    blackPlayer: Option<Participant>,
    result: MatchResult)

  datatype Round = Round(roundNumber: int, matches: seq<Match>)

  /** Number of entries of `s` equal to `x` (`s.filter(c => c === x).length`). */
  function Count<T(==)>(s: seq<T>, x: T): (n: nat)
    ensures n <= |s|
    ensures n == 0 <==> x !in s
  {
    if s == [] then 0 else Count(s[..|s| - 1], x) + (if s[|s| - 1] == x then 1 else 0)
  }

  lemma {:induction false} CountAppend<T>(s: seq<T>, t: seq<T>, x: T)
    ensures Count(s + t, x) == Count(s, x) + Count(t, x)
    decreases |t|
  {
    if t == [] {
      assert s + t == s;
    } else {
      assert (s + t)[..|s + t| - 1] == s + t[..|t| - 1];
      CountAppend(s, t[..|t| - 1], x);
    }
  }

  /** The ids of the participants that take part in a match (zero, one or two). */
  function Occupants(m: Match): set<int>
  {
    (if m.whitePlayer.Some? then {m.whitePlayer.value.id} else {})
    + (if m.blackPlayer.Some? then {m.blackPlayer.value.id} else {})
  }

  /** A match with exactly one side present. */
  predicate IsBye(m: Match)
  {
    m.whitePlayer.Some? != m.blackPlayer.Some?
  }

  /** A match with both sides present. */
  predicate IsGame(m: Match)
  {
    m.whitePlayer.Some? && m.blackPlayer.Some?
  }

  /** Prepending nothing leaves a sequence as it is. */
  lemma EmptyPrefix<T>(s: seq<T>)
    ensures [] + s == s
  {
  }
}
