/**
 * What next-round generation promises, proved about `Pairings` and its parts:
 * the shuffle only reorders, the bye goes to the lowest-standing participant
 * still without one, the greedy pairs are legal, disjoint, first-choice and
 * maximal, and the emitted matches are numbered, Pending, one per
 * participant at most, with the bye alone and first.
 */
module PairingFacts {
  import opened Types
  import opened Ordering
  import opened Pairing

  // ----- shuffle -----

  lemma SwapPermutes<T>(s: seq<T>, i: nat, j: nat)
    requires i < |s| && j < |s|
    ensures multiset(Swap(s, i, j)) == multiset(s)
  {
    var r := Swap(s, i, j);
    if i != j {
      assert r == s[i := s[j]][j := s[i]];
      assert multiset(s[i := s[j]]) == multiset(s) - multiset{s[i]} + multiset{s[j]};
    } else {
      assert r == s;
    }
  }

  lemma {:induction false} ShuffleFromPermutes<T>(s: seq<T>, draws: seq<nat>, c: nat)
    requires c <= |s|
    ensures multiset(ShuffleFrom(s, draws, c)) == multiset(s)
    decreases c
  {
    if c > 0 {
      var s' := Swap(s, c - 1, DrawnIndex(draws, |s| - c, c));
      SwapPermutes(s, c - 1, DrawnIndex(draws, |s| - c, c));
      ShuffleFromPermutes(s', draws, c - 1);
    }
  }

  /** Whatever the draws, the shuffle is a permutation of its input. */
  lemma ShufflePermutes<T>(s: seq<T>, draws: seq<nat>)
    ensures multiset(Shuffled(s, draws)) == multiset(s)
  {
    ShuffleFromPermutes(s, draws, |s|);
  }

  // ----- the bye -----

  /** The bye goes to a pool member that is lowest in ascending (score, buchholz)... */
  predicate LowestAmong(bye: Participant, pool: seq<Participant>, byesMatter: bool)
  {
    forall q :: q in pool && (!byesMatter || q.byes == 0) ==>
      bye.score < q.score || (bye.score == q.score && bye.buchholz <= q.buchholz)
  }

  /**
   * The bye recipient belongs to the pool; when somebody in the pool has had
   * no bye yet, the recipient is such a participant and is lowest in
   * ascending (score, buchholz) among them; otherwise it is lowest overall.
   * Ties go to the earliest candidate in pool order.
   */
  lemma ByeChoiceMeaning(pool: seq<Participant>)
    requires pool != []
    ensures ByeChoice(pool) in pool
    ensures (exists q :: q in pool && q.byes == 0) ==> ByeChoice(pool).byes == 0 && LowestAmong(ByeChoice(pool), pool, true)
    ensures (forall q :: q in pool ==> q.byes != 0) ==> LowestAmong(ByeChoice(pool), pool, false)
    ensures (exists q :: q in pool && q.byes == 0) ==>
      exists i :: 0 <= i < |pool| && pool[i] == ByeChoice(pool) && EarliestOfKey(pool, i, true)
    ensures (forall q :: q in pool ==> q.byes != 0) ==>
      exists i :: 0 <= i < |pool| && pool[i] == ByeChoice(pool) && EarliestOfKey(pool, i, false)
  {
    var sorted := SortBy(ByeOrder, pool);
    SortByPermutes(ByeOrder, pool);
    SortBySorted(ByeOrder, pool);
    var b := ByeChoice(pool);
    var first := FirstWithoutBye(sorted);
    var i := if first.Some? then first.value else 0;
    assert b == sorted[i];
    assert b in multiset(sorted);
    forall q | q in pool && (first.None? || q.byes == 0)
      ensures b.score < q.score || (b.score == q.score && b.buchholz <= q.buchholz)
    {
      assert q in multiset(sorted);
      var j :| 0 <= j < |sorted| && sorted[j] == q;
      if j == i {
        LexLeReflexive(Key(ByeOrder, b));
      } else {
        assert i < j;
      }
      ByeOrderMeaning(b, q);
    }
    if exists q :: q in pool && q.byes == 0 {
      var q :| q in pool && q.byes == 0;
      assert q in multiset(sorted);
    }
    if first.Some? {
      assert sorted[first.value] in multiset(sorted);
    }
    ByeTieBreak(pool, first.Some?);
  }

  /** `p` may take the bye: anyone, or, when `byesMatter`, only a participant without a bye yet. */
  predicate MayTakeBye(p: Participant, byesMatter: bool)
  {
    !byesMatter || p.byes == 0
  }

  /**
   * `s[i]` may take the bye and is the earliest such member of `s` among
   * those with its (score, buchholz).
   */
  predicate EarliestOfKey(s: seq<Participant>, i: nat, byesMatter: bool)
    requires i < |s|
  {
    MayTakeBye(s[i], byesMatter) &&
    forall j :: 0 <= j < i && Key(ByeOrder, s[j]) == Key(ByeOrder, s[i]) ==> !MayTakeBye(s[j], byesMatter)
  }

  /** The first member of `s` with bye-order key `v` that may take the bye. */
  function FirstOfKey(s: seq<Participant>, v: seq<int>, byesMatter: bool): Option<Participant>
  {
    if s == [] then None
    else if Key(ByeOrder, s[0]) == v && MayTakeBye(s[0], byesMatter) then Some(s[0])
    else FirstOfKey(s[1..], v, byesMatter)
  }

  /** Only the members with key `v`, in their order, decide `FirstOfKey`. */
  lemma {:induction false} FirstOfKeyTies(s: seq<Participant>, v: seq<int>, byesMatter: bool)
    ensures FirstOfKey(Ties(KeyOf(ByeOrder), s, v), v, byesMatter) == FirstOfKey(s, v, byesMatter)
    decreases |s|
  {
    if s != [] {
      FirstOfKeyTies(s[1..], v, byesMatter);
      var t := Ties(KeyOf(ByeOrder), s[1..], v);
      assert KeyOf(ByeOrder)(s[0]) == Key(ByeOrder, s[0]);
      if Key(ByeOrder, s[0]) == v {
        var u := [s[0]] + t;
        assert Ties(KeyOf(ByeOrder), s, v) == u;
        assert u[0] == s[0] && u[1..] == t;
      } else {
        EmptyPrefix(t);
        assert Ties(KeyOf(ByeOrder), s, v) == t;
      }
    }
  }

  /** A member with key `v` that may take the bye, none such before it, is what `FirstOfKey` finds. */
  lemma {:induction false} FirstOfKeyAt(s: seq<Participant>, i: nat, v: seq<int>, byesMatter: bool)
    requires i < |s| && Key(ByeOrder, s[i]) == v && MayTakeBye(s[i], byesMatter)
    requires forall j :: 0 <= j < i && Key(ByeOrder, s[j]) == v ==> !MayTakeBye(s[j], byesMatter)
    ensures FirstOfKey(s, v, byesMatter) == Some(s[i])
    decreases i
  {
    if i > 0 {
      assert forall j :: 0 <= j < i - 1 ==> s[1..][j] == s[j + 1];
      FirstOfKeyAt(s[1..], i - 1, v, byesMatter);
    }
  }

  /** What `FirstOfKey` finds sits in `s`, has key `v`, and is the earliest of its key that may take the bye. */
  lemma {:induction false} FirstOfKeyFound(s: seq<Participant>, v: seq<int>, byesMatter: bool, x: Participant)
    requires FirstOfKey(s, v, byesMatter) == Some(x)
    ensures exists i :: 0 <= i < |s| && s[i] == x && Key(ByeOrder, x) == v && EarliestOfKey(s, i, byesMatter)
    decreases |s|
  {
    if Key(ByeOrder, s[0]) == v && MayTakeBye(s[0], byesMatter) {
      assert EarliestOfKey(s, 0, byesMatter);
    } else {
      FirstOfKeyFound(s[1..], v, byesMatter, x);
      var i :| 0 <= i < |s[1..]| && s[1..][i] == x && Key(ByeOrder, x) == v && EarliestOfKey(s[1..], i, byesMatter);
      assert s[i + 1] == x;
      forall j | 0 <= j < i + 1 && Key(ByeOrder, s[j]) == Key(ByeOrder, s[i + 1])
        ensures !MayTakeBye(s[j], byesMatter)
      {
        if j > 0 {
          assert s[j] == s[1..][j - 1];
        }
      }
      assert EarliestOfKey(s, i + 1, byesMatter);
    }
  }

  /**
   * The tie-break of the stable sort followed by `findIndex`: among the
   * candidates with the recipient's (score, buchholz), the recipient is the
   * earliest in pool order.
   */
  lemma ByeTieBreak(pool: seq<Participant>, byesMatter: bool)
    requires pool != []
    requires byesMatter == FirstWithoutBye(SortBy(ByeOrder, pool)).Some?
    ensures exists i :: 0 <= i < |pool| && pool[i] == ByeChoice(pool) && EarliestOfKey(pool, i, byesMatter)
  {
    var sorted := SortBy(ByeOrder, pool);
    var first := FirstWithoutBye(sorted);
    var k := if first.Some? then first.value else 0;
    var b := ByeChoice(pool);
    assert b == sorted[k];
    var v := Key(ByeOrder, b);
    FirstOfKeyAt(sorted, k, v, byesMatter);
    SortByStable(ByeOrder, pool, v);
    FirstOfKeyTies(sorted, v, byesMatter);
    FirstOfKeyTies(pool, v, byesMatter);
    FirstOfKeyFound(pool, v, byesMatter, b);
  }

  /** The filter keeps the pool's order: removing an id from a concatenation removes it from each part. */
  lemma {:induction false} RemoveIdAppend(a: seq<Participant>, b: seq<Participant>, id: int)
    ensures RemoveId(a + b, id) == RemoveId(a, id) + RemoveId(b, id)
    decreases |b|
  {
    if b == [] {
      assert a + b == a;
    } else {
      var front, last := b[..|b| - 1], b[|b| - 1];
      assert b == front + [last];
      assert a + b == (a + front) + [last];
      RemoveIdAppend(a, front, id);
      RemoveIdSnoc(a + front, last, id);
      RemoveIdSnoc(front, last, id);
      if last.id != id {
        ConcatAssoc(RemoveId(a, id), RemoveId(front, id), [last]);
        calc {
          RemoveId(a + b, id);
          RemoveId((a + front) + [last], id);
          RemoveId(a + front, id) + [last];
          (RemoveId(a, id) + RemoveId(front, id)) + [last];
          RemoveId(a, id) + (RemoveId(front, id) + [last]);
          RemoveId(a, id) + RemoveId(front + [last], id);
        }
      } else {
        calc {
          RemoveId(a + b, id);
          RemoveId((a + front) + [last], id);
          RemoveId(a + front, id);
          RemoveId(a, id) + RemoveId(front, id);
          RemoveId(a, id) + RemoveId(front + [last], id);
        }
      }
    }
  }

  lemma RemoveIdSnoc(s: seq<Participant>, x: Participant, id: int)
    ensures RemoveId(s + [x], id) == if x.id == id then RemoveId(s, id) else RemoveId(s, id) + [x]
  {
    assert (s + [x])[..|s + [x]| - 1] == s;
  }

  /** On one participant the filter keeps it exactly when its id differs. */
  lemma RemoveIdOne(p: Participant, id: int)
    ensures RemoveId([p], id) == if p.id == id then [] else [p]
  {
  }

  // ----- the greedy pairs -----

  function PairIds(ranked: seq<Participant>, pair: (nat, nat)): set<int>
    requires pair.0 < |ranked| && pair.1 < |ranked|
  {
    {ranked[pair.0].id, ranked[pair.1].id}
  }

  /** Ids taken by the pairs. */
  function UsedIds(ranked: seq<Participant>, pairs: seq<(nat, nat)>): set<int>
    requires InRange(ranked, pairs)
  {
    if pairs == [] then {} else UsedIds(ranked, pairs[..|pairs| - 1]) + PairIds(ranked, pairs[|pairs| - 1])
  }

  /** A pair the greedy loop may form when `paired` is taken. */
  predicate Legal(ranked: seq<Participant>, paired: set<int>, pair: (nat, nat))
  {
    pair.0 < |ranked| && pair.1 < |ranked| &&
    ranked[pair.0].id !in paired && ranked[pair.1].id !in paired &&
    ranked[pair.0].id != ranked[pair.1].id &&
    ranked[pair.1].id !in ranked[pair.0].opponentsPlayedIds
  }

  /** Every pair is legal against `paired`; pairs come in ranking order of their first member and share no id. */
  predicate LegalPairs(ranked: seq<Participant>, paired: set<int>, pairs: seq<(nat, nat)>)
  {
    (forall n :: 0 <= n < |pairs| ==> Legal(ranked, paired, pairs[n])) &&
    (forall n, m :: 0 <= n < m < |pairs| ==>
       pairs[n].0 < pairs[m].0 && Legal(ranked, {}, pairs[n]) && Legal(ranked, {}, pairs[m]) &&
       PairIds(ranked, pairs[n]) !! PairIds(ranked, pairs[m]))
  }

  /**
   * Every greedy pair joins two untaken participants of different ids, the
   * first of which has not listed the second as an opponent; the pairs are
   * formed in ranking order of their first member and share no id.
   */
  lemma {:induction false} GreedyLegal(ranked: seq<Participant>, p: nat, paired: set<int>)
    requires p <= |ranked|
    ensures LegalPairs(ranked, paired, Greedy(ranked, p, paired))
    decreases |ranked| - p
  {
    if p < |ranked| {
      if ranked[p].id in paired || FirstPartner(ranked, p, paired, 0).None? {
        GreedyLegal(ranked, p + 1, paired);
        assert Greedy(ranked, p, paired) == Greedy(ranked, p + 1, paired);
      } else {
        var q := FirstPartner(ranked, p, paired, 0).value;
        var paired' := paired + {ranked[p].id, ranked[q].id};
        var tail := Greedy(ranked, p + 1, paired');
        var r := [(p, q)] + tail;
        GreedyLegal(ranked, p + 1, paired');
        assert Greedy(ranked, p, paired) == r;
        assert Legal(ranked, paired, r[0]);
        forall n | 1 <= n < |r|
          ensures r[n] == tail[n - 1] && Legal(ranked, paired, r[n]) && Legal(ranked, {}, r[n])
          ensures r[0].0 < r[n].0 && PairIds(ranked, r[0]) !! PairIds(ranked, r[n])
        {
          assert Legal(ranked, paired', tail[n - 1]);
        }
        forall n, m | 0 <= n < m < |r|
          ensures r[n].0 < r[m].0 && Legal(ranked, {}, r[n]) && Legal(ranked, {}, r[m])
          ensures PairIds(ranked, r[n]) !! PairIds(ranked, r[m])
        {
          if n > 0 {
            assert r[n] == tail[n - 1] && r[m] == tail[m - 1];
          }
        }
      }
    }
  }

  lemma UsedIdsSnoc(ranked: seq<Participant>, pairs: seq<(nat, nat)>, pair: (nat, nat))
    requires InRange(ranked, pairs) && pair.0 < |ranked| && pair.1 < |ranked|
    ensures InRange(ranked, pairs + [pair])
    ensures UsedIds(ranked, pairs + [pair]) == UsedIds(ranked, pairs) + PairIds(ranked, pair)
  {
    assert (pairs + [pair])[..|pairs|] == pairs;
  }

  lemma {:induction false} UsedIdsCons(ranked: seq<Participant>, pair: (nat, nat), pairs: seq<(nat, nat)>)
    requires InRange(ranked, pairs) && pair.0 < |ranked| && pair.1 < |ranked|
    ensures InRange(ranked, [pair] + pairs)
    ensures UsedIds(ranked, [pair] + pairs) == PairIds(ranked, pair) + UsedIds(ranked, pairs)
    decreases |pairs|
  {
    if pairs == [] {
      assert [pair] + pairs == [pair];
      assert [pair][..0] == [];
    } else {
      var front, last := pairs[..|pairs| - 1], pairs[|pairs| - 1];
      UsedIdsCons(ranked, pair, front);
      assert [pair] + pairs == ([pair] + front) + [last];
      UsedIdsSnoc(ranked, [pair] + front, last);
    }
  }

  /** Each pair's second member is its first member's first eligible partner after the earlier pairs. */
  predicate FirstChoices(ranked: seq<Participant>, paired: set<int>, pairs: seq<(nat, nat)>)
    requires InRange(ranked, pairs)
  {
    forall n :: 0 <= n < |pairs| ==>
      pairs[n].0 < |ranked| && FirstPartner(ranked, pairs[n].0, paired + UsedIds(ranked, pairs[..n]), 0) == Some(pairs[n].1)
  }

  lemma FirstChoicesCons(ranked: seq<Participant>, paired: set<int>, pair: (nat, nat), tail: seq<(nat, nat)>)
    requires InRange(ranked, tail) && pair.0 < |ranked| && pair.1 < |ranked|
    requires FirstPartner(ranked, pair.0, paired, 0) == Some(pair.1)
    requires FirstChoices(ranked, paired + PairIds(ranked, pair), tail)
    ensures InRange(ranked, [pair] + tail) && FirstChoices(ranked, paired, [pair] + tail)
  {
    var r := [pair] + tail;
    forall n | 0 <= n < |r|
      ensures FirstPartner(ranked, r[n].0, paired + UsedIds(ranked, r[..n]), 0) == Some(r[n].1)
    {
      if n == 0 {
        assert r[..0] == [];
        assert paired + UsedIds(ranked, r[..0]) == paired;
        assert r[0] == pair;
      } else {
        NthChoice(ranked, paired, pair, tail, n);
        assert r[n] == tail[n - 1];
      }
    }
  }

  lemma NthChoice(ranked: seq<Participant>, paired: set<int>, pair: (nat, nat), tail: seq<(nat, nat)>, n: nat)
    requires InRange(ranked, tail) && pair.0 < |ranked| && pair.1 < |ranked|
    requires FirstChoices(ranked, paired + PairIds(ranked, pair), tail)
    requires 1 <= n <= |tail|
    ensures InRange(ranked, ([pair] + tail)[..n])
    ensures FirstPartner(ranked, tail[n - 1].0, paired + UsedIds(ranked, ([pair] + tail)[..n]), 0) == Some(tail[n - 1].1)
  {
    var front := tail[..n - 1];
    assert ([pair] + tail)[..n] == [pair] + front;
    UsedIdsCons(ranked, pair, front);
    assert paired + UsedIds(ranked, [pair] + front) == (paired + PairIds(ranked, pair)) + UsedIds(ranked, front);
  }

  /**
   * Every pair's second member is the first eligible partner of its first
   * member at the moment it is formed, i.e. after the earlier pairs.
   */
  lemma {:induction false} GreedyFirstChoice(ranked: seq<Participant>, p: nat, paired: set<int>)
    requires p <= |ranked|
    ensures FirstChoices(ranked, paired, Greedy(ranked, p, paired))
    decreases |ranked| - p
  {
    if p < |ranked| {
      if ranked[p].id in paired || FirstPartner(ranked, p, paired, 0).None? {
        GreedyFirstChoice(ranked, p + 1, paired);
        assert Greedy(ranked, p, paired) == Greedy(ranked, p + 1, paired);
      } else {
        var q := FirstPartner(ranked, p, paired, 0).value;
        var paired' := paired + {ranked[p].id, ranked[q].id};
        GreedyFirstChoice(ranked, p + 1, paired');
        FirstChoicesCons(ranked, paired, (p, q), Greedy(ranked, p + 1, paired'));
        assert Greedy(ranked, p, paired) == [(p, q)] + Greedy(ranked, p + 1, paired');
      }
    }
  }

  /** Of any two participants from position `p` on left outside `taken`, the first has listed the second. */
  predicate Maximal(ranked: seq<Participant>, p: nat, taken: set<int>)
  {
    forall i, j ::
      (p <= i < |ranked| && 0 <= j < |ranked| &&
       ranked[i].id !in taken && ranked[j].id !in taken && ranked[i].id != ranked[j].id) ==>
      ranked[j].id in ranked[i].opponentsPlayedIds
  }

  /**
   * No backtracking, but nothing is missed either: of any two participants
   * (from position `p` on) left unpaired, with different ids, the first has
   * listed the second as an opponent.
   */
  lemma {:induction false} GreedyMaximal(ranked: seq<Participant>, p: nat, paired: set<int>)
    requires p <= |ranked|
    ensures Maximal(ranked, p, paired + UsedIds(ranked, Greedy(ranked, p, paired)))
    decreases |ranked| - p
  {
    if p < |ranked| {
      if ranked[p].id in paired || FirstPartner(ranked, p, paired, 0).None? {
        GreedyMaximal(ranked, p + 1, paired);
        MaximalSkip(ranked, p, paired);
      } else {
        var q := FirstPartner(ranked, p, paired, 0).value;
        GreedyMaximal(ranked, p + 1, paired + {ranked[p].id, ranked[q].id});
        MaximalPair(ranked, p, paired);
      }
    }
  }

  /** The step of `GreedyMaximal` where `ranked[p]` is skipped. */
  lemma MaximalSkip(ranked: seq<Participant>, p: nat, paired: set<int>)
    requires p < |ranked|
    requires ranked[p].id in paired || FirstPartner(ranked, p, paired, 0).None?
    requires Maximal(ranked, p + 1, paired + UsedIds(ranked, Greedy(ranked, p + 1, paired)))
    ensures Maximal(ranked, p, paired + UsedIds(ranked, Greedy(ranked, p, paired)))
  {
    var r := Greedy(ranked, p, paired);
    var taken := paired + UsedIds(ranked, r);
    assert r == Greedy(ranked, p + 1, paired);
    if ranked[p].id !in paired {
      forall j | 0 <= j < |ranked| && ranked[j].id !in taken && ranked[p].id != ranked[j].id
        ensures ranked[j].id in ranked[p].opponentsPlayedIds
      {
        assert !Eligible(ranked, p, paired, j);
      }
    }
    MaximalStep(ranked, p, taken);
  }

  /** The step of `GreedyMaximal` where `ranked[p]` is paired. */
  lemma MaximalPair(ranked: seq<Participant>, p: nat, paired: set<int>)
    requires p < |ranked| && ranked[p].id !in paired && FirstPartner(ranked, p, paired, 0).Some?
    requires var q := FirstPartner(ranked, p, paired, 0).value;
      var paired' := paired + {ranked[p].id, ranked[q].id};
      Maximal(ranked, p + 1, paired' + UsedIds(ranked, Greedy(ranked, p + 1, paired')))
    ensures Maximal(ranked, p, paired + UsedIds(ranked, Greedy(ranked, p, paired)))
  {
    var q := FirstPartner(ranked, p, paired, 0).value;
    var paired' := paired + {ranked[p].id, ranked[q].id};
    var tail := Greedy(ranked, p + 1, paired');
    var r := Greedy(ranked, p, paired);
    assert r == [(p, q)] + tail;
    UsedIdsCons(ranked, (p, q), tail);
    assert paired + UsedIds(ranked, r) == paired' + UsedIds(ranked, tail);
    MaximalStep(ranked, p, paired + UsedIds(ranked, r));
  }

  lemma MaximalStep(ranked: seq<Participant>, p: nat, taken: set<int>)
    requires p < |ranked| && Maximal(ranked, p + 1, taken)
    requires ranked[p].id !in taken ==>
      forall j :: 0 <= j < |ranked| && ranked[j].id !in taken && ranked[p].id != ranked[j].id ==>
        ranked[j].id in ranked[p].opponentsPlayedIds
    ensures Maximal(ranked, p, taken)
  {
  }

  // ----- colours -----

  /**
   * The ranked player never receives White while it has more White games
   * than its partner, and does receive White when it has only a Black
   * surplus; the two always end up on opposite sides.
   */
  lemma ColorRule(player: Participant, opponent: Participant, coin: bool)
    ensures var r := AssignColors(player, opponent, coin);
      var p1White, p2White := Count(player.colorHistory, White), Count(opponent.colorHistory, White);
      var p1Black, p2Black := Count(player.colorHistory, Black), Count(opponent.colorHistory, Black);
      (p1White > p2White ==> r == (opponent, player)) &&
      (p1White <= p2White && p1Black > p2Black ==> r == (player, opponent)) &&
      (p1White <= p2White && p1Black <= p2Black ==> r == if coin then (opponent, player) else (player, opponent))
  {
  }

  /**
   * What the rule achieves: once the game is recorded (White appended to the
   * side given White, Black to the other, as the standings fold does), the
   * surplus the rule tested — the ranked player's White surplus, or failing
   * that its Black surplus — is one game smaller.
   */
  lemma ColorsNarrowSurplus(player: Participant, opponent: Participant, coin: bool)
    ensures var r := AssignColors(player, opponent, coin);
      var after1 := player.colorHistory + [if r.0 == player then White else Black];
      var after2 := opponent.colorHistory + [if r.0 == player then Black else White];
      var p1White, p2White := Count(player.colorHistory, White), Count(opponent.colorHistory, White);
      var p1Black, p2Black := Count(player.colorHistory, Black), Count(opponent.colorHistory, Black);
      (p1White > p2White ==>
        Count(after1, White) - Count(after2, White) == p1White - p2White - 1) &&
      (p1White <= p2White && p1Black > p2Black ==>
        Count(after1, Black) - Count(after2, Black) == p1Black - p2Black - 1)
  {
    var h1, h2 := player.colorHistory, opponent.colorHistory;
    CountAppend(h1, [White], White);
    CountAppend(h1, [Black], White);
    CountAppend(h2, [White], White);
    CountAppend(h2, [Black], White);
    CountAppend(h1, [White], Black);
    CountAppend(h1, [Black], Black);
    CountAppend(h2, [White], Black);
    CountAppend(h2, [Black], Black);
  }

  /**
   * The rule is not symmetric: a partner with more White games than the
   * ranked player, and no fewer Black ones, can still be handed White by the
   * coin, where a symmetric rule would give White to the ranked player.
   */
  lemma ColorRuleAsymmetric()
    ensures var player := Participant(1, "a", "s", 0, [], 0, 0, []);
      var opponent := Participant(2, "b", "s", 0, [], 0, 0, [White, White]);
      Count(opponent.colorHistory, White) > Count(player.colorHistory, White) &&
      AssignColors(player, opponent, true).0 == opponent
  {
    var opponent := Participant(2, "b", "s", 0, [], 0, 0, [White, White]);
    assert opponent.colorHistory[..1] == [White];
    assert Count(opponent.colorHistory, White) == 2;
  }

  // ----- the emitted matches -----

  lemma RankedMembers(pool: seq<Participant>, x: Participant)
    requires x in Ranked(pool)
    ensures x in pool
  {
    SortByPermutes(RankOrder, pool);
    assert x in multiset(Ranked(pool));
  }

  /** Every match is Pending, belongs to the requested round, and ids run on from `startId`. */
  lemma PairingsFields(pool: seq<Participant>, roundNumber: int, coins: seq<bool>, startId: int)
    ensures var ms := Pairings(pool, roundNumber, coins, startId);
      forall n :: 0 <= n < |ms| ==>
        ms[n].id == startId + n && ms[n].roundNumber == roundNumber && ms[n].result == Pending
  {
  }

  /**
   * With an odd pool the first match, and only it, is the bye, handed to
   * `ByeChoice` as White against nobody; with an even pool every match has
   * two players.
   */
  lemma PairingsBye(pool: seq<Participant>, roundNumber: int, coins: seq<bool>, startId: int)
    ensures var ms := Pairings(pool, roundNumber, coins, startId);
      if |pool| % 2 != 0 then
        |ms| > 0 && ms[0].whitePlayer == Some(ByeChoice(pool)) && ms[0].blackPlayer.None? &&
        forall n :: 1 <= n < |ms| ==> IsGame(ms[n])
      else
        forall n :: 0 <= n < |ms| ==> IsGame(ms[n])
  {
  }

  /** The participants of a game built from a pair are exactly that pair's. */
  lemma GameOccupants(ranked: seq<Participant>, pair: (nat, nat), roundNumber: int, coin: bool, id: int)
    requires pair.0 < |ranked| && pair.1 < |ranked|
    ensures Occupants(GameMatch(ranked, pair, roundNumber, coin, id)) == PairIds(ranked, pair)
  {
  }

  /** The games of the greedy pairs: disjoint, and never a participant against itself. */
  lemma GamesDisjoint(ranked: seq<Participant>, roundNumber: int, coins: seq<bool>, firstId: int)
    ensures var ms := PairMatches(ranked, Greedy(ranked, 0, {}), roundNumber, coins, firstId);
      Disjoint(ms) &&
      (forall n :: 0 <= n < |ms| ==> ms[n].whitePlayer.value.id != ms[n].blackPlayer.value.id) &&
      (forall n :: 0 <= n < |ms| ==> Occupants(ms[n]) == PairIds(ranked, Greedy(ranked, 0, {})[n]))
  {
    var r := Greedy(ranked, 0, {});
    GreedyLegal(ranked, 0, {});
    forall n | 0 <= n < |r|
      ensures Occupants(PairMatches(ranked, r, roundNumber, coins, firstId)[n]) == PairIds(ranked, r[n])
    {
      GameOccupants(ranked, r[n], roundNumber, Coin(coins, n), firstId + n);
    }
  }

  /** Every participant of a game of the greedy pairs is a member of the ranked list. */
  lemma GamesFromRanked(ranked: seq<Participant>, roundNumber: int, coins: seq<bool>, firstId: int)
    ensures var ms := PairMatches(ranked, Greedy(ranked, 0, {}), roundNumber, coins, firstId);
      forall n :: 0 <= n < |ms| ==> ms[n].whitePlayer.value in ranked && ms[n].blackPlayer.value in ranked
  {
  }

  lemma ConcatDisjoint(head: seq<Match>, games: seq<Match>)
    requires |head| <= 1 && Disjoint(games)
    requires forall n, m :: 0 <= n < |head| && 0 <= m < |games| ==> Occupants(head[n]) !! Occupants(games[m])
    ensures Disjoint(head + games)
  {
    var ms := head + games;
    forall n, m | 0 <= n < m < |ms| ensures Occupants(ms[n]) !! Occupants(ms[m]) {
      if n >= |head| {
        assert ms[n] == games[n - |head|];
      }
      assert ms[m] == games[m - |head|];
    }
  }

  /** A leading bye, if any, ahead of the games: every game sits after it. */
  lemma HeadGames(head: seq<Match>, games: seq<Match>)
    requires forall n :: 0 <= n < |head| ==> IsBye(head[n])
    ensures forall n :: 0 <= n < |head + games| && IsGame((head + games)[n]) ==>
      n >= |head| && (head + games)[n] == games[n - |head|]
  {
  }

  /** The games never seat a participant whose id no member of `ranked` carries. */
  lemma GamesAvoid(ranked: seq<Participant>, id: int, roundNumber: int, coins: seq<bool>, firstId: int)
    requires forall x :: x in ranked ==> x.id != id
    ensures var games := PairMatches(ranked, Greedy(ranked, 0, {}), roundNumber, coins, firstId);
      forall m :: 0 <= m < |games| ==> id !in Occupants(games[m])
  {
    GamesFromRanked(ranked, roundNumber, coins, firstId);
  }

  /** A leading bye whose recipient is not ranked, followed by the games of the ranked list. */
  lemma RoundDisjoint(head: seq<Match>, ranked: seq<Participant>, roundNumber: int, coins: seq<bool>, firstId: int)
    requires |head| <= 1 && forall n :: 0 <= n < |head| ==> IsBye(head[n])
    requires forall n :: 0 <= n < |head| ==> forall x :: x in ranked ==> x.id !in Occupants(head[n])
    ensures Disjoint(head + PairMatches(ranked, Greedy(ranked, 0, {}), roundNumber, coins, firstId))
    ensures SelfFree(head + PairMatches(ranked, Greedy(ranked, 0, {}), roundNumber, coins, firstId))
  {
    var games := PairMatches(ranked, Greedy(ranked, 0, {}), roundNumber, coins, firstId);
    GamesDisjoint(ranked, roundNumber, coins, firstId);
    GamesFromRanked(ranked, roundNumber, coins, firstId);
    HeadGames(head, games);
    ConcatDisjoint(head, games);
  }

  /** The bye match, if any, seats nobody left to pair. */
  lemma HeadApart(pool: seq<Participant>, roundNumber: int, startId: int)
    ensures var head := Head(pool, roundNumber, startId);
      |head| <= 1 && (forall n :: 0 <= n < |head| ==> IsBye(head[n])) &&
      forall n :: 0 <= n < |head| ==> forall x :: x in Ranked(Rest(pool)) ==> x.id !in Occupants(head[n])
  {
    if |pool| % 2 != 0 {
      forall x | x in Ranked(Rest(pool)) ensures x.id != ByeChoice(pool).id {
        RankedMembers(Rest(pool), x);
      }
    }
  }

  /**
   * No participant id occurs in two matches of a generated round, and no
   * match sets a participant against itself; in particular the bye recipient
   * plays no game.
   */
  lemma PairingsDisjoint(pool: seq<Participant>, roundNumber: int, coins: seq<bool>, startId: int)
    ensures Disjoint(Pairings(pool, roundNumber, coins, startId))
    ensures SelfFree(Pairings(pool, roundNumber, coins, startId))
  {
    HeadApart(pool, roundNumber, startId);
    RoundDisjoint(Head(pool, roundNumber, startId), Ranked(Rest(pool)), roundNumber, coins, startId + |Head(pool, roundNumber, startId)|);
  }

  /** Having played is symmetric within the pool: each of two members lists the other or neither does. */
  predicate SymmetricOpponents(pool: seq<Participant>)
  {
    forall a, b :: a in pool && b in pool ==> (b.id in a.opponentsPlayedIds <==> a.id in b.opponentsPlayedIds)
  }

  /** Neither side of a game has listed the other. */
  predicate Fresh(m: Match)
    requires IsGame(m)
  {
    m.whitePlayer.value.id !in m.blackPlayer.value.opponentsPlayedIds &&
    m.blackPlayer.value.id !in m.whitePlayer.value.opponentsPlayedIds
  }

  /** Every game of the round is `Fresh`. */
  predicate AllFresh(ms: seq<Match>)
  {
    forall n :: 0 <= n < |ms| && IsGame(ms[n]) ==> Fresh(ms[n])
  }

  lemma GamesNoRematch(ranked: seq<Participant>, roundNumber: int, coins: seq<bool>, firstId: int)
    requires SymmetricOpponents(ranked)
    ensures AllFresh(PairMatches(ranked, Greedy(ranked, 0, {}), roundNumber, coins, firstId))
  {
    var r := Greedy(ranked, 0, {});
    GreedyLegal(ranked, 0, {});
    forall n | 0 <= n < |r| ensures Fresh(PairMatches(ranked, r, roundNumber, coins, firstId)[n]) {
      assert Legal(ranked, {}, r[n]);
      assert ranked[r[n].0] in ranked && ranked[r[n].1] in ranked;
    }
  }

  lemma RoundNoRematch(head: seq<Match>, ranked: seq<Participant>, roundNumber: int, coins: seq<bool>, firstId: int)
    requires SymmetricOpponents(ranked)
    requires forall n :: 0 <= n < |head| ==> IsBye(head[n])
    ensures AllFresh(head + PairMatches(ranked, Greedy(ranked, 0, {}), roundNumber, coins, firstId))
  {
    var games := PairMatches(ranked, Greedy(ranked, 0, {}), roundNumber, coins, firstId);
    GamesNoRematch(ranked, roundNumber, coins, firstId);
    HeadGames(head, games);
  }

  /** When every two members of `ranked` have met, by the lists of the first, the greedy loop forms no pair. */
  lemma {:induction false} GreedyAllMet(ranked: seq<Participant>, p: nat, paired: set<int>)
    requires p <= |ranked|
    requires forall i, j :: 0 <= i < |ranked| && 0 <= j < |ranked| ==>
      ranked[j].id == ranked[i].id || ranked[j].id in ranked[i].opponentsPlayedIds
    ensures Greedy(ranked, p, paired) == []
    decreases |ranked| - p
  {
    if p < |ranked| {
      GreedyAllMet(ranked, p + 1, paired);
      if ranked[p].id !in paired {
        assert FirstPartner(ranked, p, paired, 0).None?;
      }
    }
  }

  /**
   * An even field in which everybody has met everybody gets a round without
   * a single match: nobody is left without a listed meeting to pair.
   */
  lemma AllMetEmptyRound(pool: seq<Participant>, roundNumber: int, coins: seq<bool>, startId: int)
    requires |pool| % 2 == 0
    requires forall x, y :: x in pool && y in pool ==> x.id == y.id || y.id in x.opponentsPlayedIds
    ensures Pairings(pool, roundNumber, coins, startId) == []
  {
    var ranked := Ranked(Rest(pool));
    forall x | x in ranked ensures x in pool {
      RankedMembers(pool, x);
    }
    GreedyAllMet(ranked, 0, {});
  }

  /** Symmetry survives taking out the bye and ranking the rest. */
  lemma RankedFromPool(pool: seq<Participant>)
    requires SymmetricOpponents(pool)
    ensures SymmetricOpponents(Ranked(Rest(pool)))
  {
    forall x | x in Ranked(Rest(pool)) ensures x in pool {
      RankedMembers(Rest(pool), x);
    }
    SymmetricSub(pool, Ranked(Rest(pool)));
  }

  lemma SymmetricSub(pool: seq<Participant>, sub: seq<Participant>)
    requires SymmetricOpponents(pool)
    requires forall x :: x in sub ==> x in pool
    ensures SymmetricOpponents(sub)
  {
  }

  /**
   * The greedy loop only checks its own player's list, so when the lists are
   * symmetric (as recomputed standings are) no game of the generated round
   * repeats a meeting recorded on either side.
   */
  lemma PairingsNoRematch(pool: seq<Participant>, roundNumber: int, coins: seq<bool>, startId: int)
    requires SymmetricOpponents(pool)
    ensures AllFresh(Pairings(pool, roundNumber, coins, startId))
  {
    RankedFromPool(pool);
    RoundNoRematch(Head(pool, roundNumber, startId), Ranked(Rest(pool)), roundNumber, coins, startId + |Head(pool, roundNumber, startId)|);
  }
}
