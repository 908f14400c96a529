/**
 * The three orders in which the tournament sorts its participants, and the
 * stable sort used for all of them.
 *
 * Every order compares an integer key lexicographically: ascending
 * (score, buchholz) to pick the bye, descending (score, buchholz) to rank the
 * pairing pool, and descending score, descending buchholz, ascending name for
 * the standings table. `Array.prototype.sort` is stable, so `SortBy` is a
 * stable insertion sort: participants whose keys are equal keep the order
 * they had before sorting.
 */
module Ordering {
  import opened Types

  /** Lexicographic order on integer sequences; a proper prefix comes first. */
  predicate LexLe(a: seq<int>, b: seq<int>)
    decreases |a|
  {
    a == [] || (b != [] && (a[0] < b[0] || (a[0] == b[0] && LexLe(a[1..], b[1..]))))
  }

  lemma {:induction false} LexLeTotal(a: seq<int>, b: seq<int>)
    ensures LexLe(a, b) || LexLe(b, a)
    decreases |a|
  {
    if a != [] && b != [] && a[0] == b[0] {
      LexLeTotal(a[1..], b[1..]);
    }
  }

  lemma {:induction false} LexLeTransitive(a: seq<int>, b: seq<int>, c: seq<int>)
    requires LexLe(a, b) && LexLe(b, c)
    ensures LexLe(a, c)
    decreases |a|
  {
    if a != [] && a[0] == b[0] && b[0] == c[0] {
      LexLeTransitive(a[1..], b[1..], c[1..]);
    }
  }

  lemma {:induction false} LexLeReflexive(a: seq<int>)
    ensures LexLe(a, a)
    decreases |a|
  {
    if a != [] {
      LexLeReflexive(a[1..]);
    }
  }

  lemma {:induction false} LexLeAntisymmetric(a: seq<int>, b: seq<int>)
    requires LexLe(a, b) && LexLe(b, a)
    ensures a == b
    decreases |a|
  {
    if a != [] {
      LexLeAntisymmetric(a[1..], b[1..]);
      assert a == [a[0]] + a[1..] && b == [b[0]] + b[1..];
    }
  }

  datatype SortOrder = ByeOrder | RankOrder | StandingsOrder

  /** Character codes of a name; names compare by code point. */
  function Codes(s: string): (c: seq<int>)
    ensures |c| == |s|
  {
    seq(|s|, i requires 0 <= i < |s| => s[i] as int)
  }

  function Key(o: SortOrder, p: Participant): seq<int>
  {
    match o
    case ByeOrder => [p.score, p.buchholz]
    case RankOrder => [-p.score, -p.buchholz]
    case StandingsOrder => [-p.score, -p.buchholz] + Codes(p.name)
  }

  /** `p` may come before `q` in order `o`. */
  predicate Precedes(o: SortOrder, p: Participant, q: Participant)
  {
    LexLe(Key(o, p), Key(o, q))
  }

  predicate Sorted(o: SortOrder, s: seq<Participant>)
  {
    forall i, j :: 0 <= i < j < |s| ==> Precedes(o, s[i], s[j])
  }

  /** Names in the standings: plain lexicographic order of code points. */
  predicate NameLe(a: string, b: string)
  {
    LexLe(Codes(a), Codes(b))
  }

  /** Ascending (score, buchholz): the lowest standing comes first. */
  lemma ByeOrderMeaning(p: Participant, q: Participant)
    ensures Precedes(ByeOrder, p, q) <==>
              (p.score < q.score || (p.score == q.score && p.buchholz <= q.buchholz))
  {
    var a, b := Key(ByeOrder, p), Key(ByeOrder, q);
    assert a[1..] == [p.buchholz] && b[1..] == [q.buchholz];
    assert a[1..][1..] == [] && b[1..][1..] == [];
    assert LexLe(a[1..], b[1..]) <==> p.buchholz <= q.buchholz;
  }

  /** Descending (score, buchholz): the highest standing comes first. */
  lemma RankOrderMeaning(p: Participant, q: Participant)
    ensures Precedes(RankOrder, p, q) <==>
              (p.score > q.score || (p.score == q.score && p.buchholz >= q.buchholz))
  {
    var a, b := Key(RankOrder, p), Key(RankOrder, q);
    assert a[1..] == [-p.buchholz] && b[1..] == [-q.buchholz];
    assert a[1..][1..] == [] && b[1..][1..] == [];
    assert LexLe(a[1..], b[1..]) <==> p.buchholz >= q.buchholz;
  }

  /** Descending score, then descending buchholz, then ascending name. */
  lemma StandingsOrderMeaning(p: Participant, q: Participant)
    ensures Precedes(StandingsOrder, p, q) <==>
              || p.score > q.score
              || (p.score == q.score && p.buchholz > q.buchholz)
              || (p.score == q.score && p.buchholz == q.buchholz && NameLe(p.name, q.name))
  {
    var a, b := Key(StandingsOrder, p), Key(StandingsOrder, q);
    assert a[1..] == [-p.buchholz] + Codes(p.name) && b[1..] == [-q.buchholz] + Codes(q.name);
    assert a[1..][1..] == Codes(p.name) && b[1..][1..] == Codes(q.name);
    assert LexLe(a[1..], b[1..]) <==>
             (p.buchholz > q.buchholz || (p.buchholz == q.buchholz && NameLe(p.name, q.name)));
  }

  /** The key function of order `o`. */
  function KeyOf(o: SortOrder): Participant -> seq<int>
  {
    p => Key(o, p)
  }

  /** `s` is ordered by `key`. */
  predicate SortedBy<T>(key: T -> seq<int>, s: seq<T>)
  {
    forall i, j :: 0 <= i < j < |s| ==> LexLe(key(s[i]), key(s[j]))
  }

  /** Puts `x` into the sorted `s` after every element whose key is not above its own. */
  function Insert<T>(key: T -> seq<int>, s: seq<T>, x: T): (r: seq<T>)
    ensures |r| == |s| + 1
  {
    if s == [] then [x]
    else if LexLe(key(s[0]), key(x)) then
      [s[0]] + Insert(key, s[1..], x)
    else [x] + s
  }

  /** Stable sort of `s` by `key` (a model of `Array.prototype.sort`). */
  function Sort<T>(key: T -> seq<int>, s: seq<T>): (r: seq<T>)
    ensures |r| == |s|
  {
    if s == [] then [] else Insert(key, Sort(key, s[..|s| - 1]), s[|s| - 1])
  }

  /** Stable sort of participants in order `o`. */
  function SortBy(o: SortOrder, s: seq<Participant>): (r: seq<Participant>)
    ensures |r| == |s|
  {
    Sort(KeyOf(o), s)
  }

  lemma {:induction false} InsertPermutes<T>(key: T -> seq<int>, s: seq<T>, x: T)
    ensures multiset(Insert(key, s, x)) == multiset(s) + multiset{x}
    decreases |s|
  {
    if s != [] && LexLe(key(s[0]), key(x)) {
      InsertPermutes(key, s[1..], x);
      assert s == [s[0]] + s[1..];
    }
  }

  lemma {:induction false} SortPermutes<T>(key: T -> seq<int>, s: seq<T>)
    ensures multiset(Sort(key, s)) == multiset(s)
    decreases |s|
  {
    if s != [] {
      var init, x := s[..|s| - 1], s[|s| - 1];
      SortPermutes(key, init);
      InsertPermutes(key, Sort(key, init), x);
      assert s == init + [x];
    }
  }

  /** The sort only reorders: the result is a permutation of the input. */
  lemma SortByPermutes(o: SortOrder, s: seq<Participant>)
    ensures multiset(SortBy(o, s)) == multiset(s)
  {
    SortPermutes(KeyOf(o), s);
  }

  lemma {:induction false} InsertSorted<T>(key: T -> seq<int>, s: seq<T>, x: T)
    requires SortedBy(key, s)
    ensures SortedBy(key, Insert(key, s, x))
    decreases |s|
  {
    if s == [] {
    } else if LexLe(key(s[0]), key(x)) {
      InsertSorted(key, s[1..], x);
      var tail := Insert(key, s[1..], x);
      InsertPermutes(key, s[1..], x);
      forall k | 0 <= k < |tail| ensures LexLe(key(s[0]), key(tail[k])) {
        assert tail[k] in multiset(tail);
        if tail[k] != x {
          assert tail[k] in s[1..];
        }
      }
    } else {
      LexLeTotal(key(x), key(s[0]));
      forall k | 0 <= k < |s| ensures LexLe(key(x), key(s[k])) {
        if k > 0 {
          LexLeTransitive(key(x), key(s[0]), key(s[k]));
        }
      }
    }
  }

  lemma {:induction false} SortSorted<T>(key: T -> seq<int>, s: seq<T>)
    ensures SortedBy(key, Sort(key, s))
    decreases |s|
  {
    if s != [] {
      SortSorted(key, s[..|s| - 1]);
      InsertSorted(key, Sort(key, s[..|s| - 1]), s[|s| - 1]);
    }
  }

  /** The sort's result is ordered: each participant may precede every later one. */
  lemma SortBySorted(o: SortOrder, s: seq<Participant>)
    ensures Sorted(o, SortBy(o, s))
  {
    SortSorted(KeyOf(o), s);
  }

  /** The elements of `s` whose key is `v`, in their order in `s`. */
  function Ties<T>(key: T -> seq<int>, s: seq<T>, v: seq<int>): seq<T>
  {
    if s == [] then []
    else (if key(s[0]) == v then [s[0]] else []) + Ties(key, s[1..], v)
  }

  lemma {:induction false} TiesAppend<T>(key: T -> seq<int>, s: seq<T>, t: seq<T>, v: seq<int>)
    ensures Ties(key, s + t, v) == Ties(key, s, v) + Ties(key, t, v)
    decreases |s|
  {
    if s == [] {
      assert s + t == t;
    } else {
      var h := if key(s[0]) == v then [s[0]] else [];
      assert (s + t)[0] == s[0] && (s + t)[1..] == s[1..] + t;
      assert Ties(key, s + t, v) == h + Ties(key, s[1..] + t, v);
      TiesAppend(key, s[1..], t, v);
      ConcatAssoc(h, Ties(key, s[1..], v), Ties(key, t, v));
    }
  }

  lemma ConcatAssoc<T>(a: seq<T>, b: seq<T>, c: seq<T>)
    ensures a + (b + c) == (a + b) + c
  {
  }

  lemma {:induction false} TiesNone<T>(key: T -> seq<int>, s: seq<T>, v: seq<int>)
    requires forall k :: 0 <= k < |s| ==> key(s[k]) != v
    ensures Ties(key, s, v) == []
    decreases |s|
  {
    if s != [] {
      TiesNone(key, s[1..], v);
    }
  }

  lemma SortedTail<T>(key: T -> seq<int>, s: seq<T>)
    requires SortedBy(key, s) && s != []
    ensures SortedBy(key, s[1..])
  {
    forall i, j | 0 <= i < j < |s[1..]| ensures LexLe(key(s[1..][i]), key(s[1..][j])) {
      assert s[1..][i] == s[i + 1] && s[1..][j] == s[j + 1];
    }
  }

  /** Every element of a sorted `s` whose first key is above `key(x)` is above it too. */
  lemma TiesAboveKey<T>(key: T -> seq<int>, s: seq<T>, x: T, v: seq<int>)
    requires SortedBy(key, s) && s != [] && !LexLe(key(s[0]), key(x))
    ensures Ties(key, [x] + s, v) == Ties(key, s, v) + (if key(x) == v then [x] else [])
  {
    assert ([x] + s)[0] == x && ([x] + s)[1..] == s;
    if key(x) == v {
      forall k | 0 <= k < |s| ensures key(s[k]) != v {
        if k == 0 {
          LexLeReflexive(key(x));
        } else {
          assert LexLe(key(s[0]), key(s[k]));
        }
      }
      TiesNone(key, s, v);
    }
  }

  /** One step of `Insert` passing over `s[0]` keeps the ties of the rest. */
  lemma TiesInsertStep<T>(key: T -> seq<int>, s: seq<T>, x: T, v: seq<int>)
    requires s != [] && LexLe(key(s[0]), key(x))
    requires Ties(key, Insert(key, s[1..], x), v) == Ties(key, s[1..], v) + (if key(x) == v then [x] else [])
    ensures Ties(key, Insert(key, s, x), v) == Ties(key, s, v) + (if key(x) == v then [x] else [])
  {
    var rest := Insert(key, s[1..], x);
    var r := [s[0]] + rest;
    assert r[0] == s[0] && r[1..] == rest;
    assert Insert(key, s, x) == r;
    var f0 := if key(s[0]) == v then [s[0]] else [];
    var fx := if key(x) == v then [x] else [];
    calc {
      Ties(key, r, v);
      f0 + Ties(key, rest, v);
      f0 + (Ties(key, s[1..], v) + fx);
      (f0 + Ties(key, s[1..], v)) + fx;
      Ties(key, s, v) + fx;
    }
  }

  lemma {:induction false} InsertTies<T>(key: T -> seq<int>, s: seq<T>, x: T, v: seq<int>)
    requires SortedBy(key, s)
    ensures Ties(key, Insert(key, s, x), v) == Ties(key, s, v) + (if key(x) == v then [x] else [])
    decreases |s|
  {
    if s == [] {
      assert Insert(key, s, x) == [x] && [x][1..] == [];
    } else if LexLe(key(s[0]), key(x)) {
      SortedTail(key, s);
      InsertTies(key, s[1..], x, v);
      TiesInsertStep(key, s, x, v);
    } else {
      assert Insert(key, s, x) == [x] + s;
      TiesAboveKey(key, s, x, v);
    }
  }

  lemma {:induction false} SortStable<T>(key: T -> seq<int>, s: seq<T>, v: seq<int>)
    ensures Ties(key, Sort(key, s), v) == Ties(key, s, v)
    decreases |s|
  {
    if s != [] {
      var init, x := s[..|s| - 1], s[|s| - 1];
      SortStable(key, init, v);
      SortSorted(key, init);
      InsertTies(key, Sort(key, init), x, v);
      TiesAppend(key, init, [x], v);
      assert s == init + [x];
      assert Sort(key, s) == Insert(key, Sort(key, init), x);
      assert Ties(key, [x], v) == (if key(x) == v then [x] else []) by {
        assert [x][1..] == [];
      }
    }
  }

  /**
   * Stability: participants whose keys tie in order `o` come out of the
   * sort in the order they went in.
   */
  lemma SortByStable(o: SortOrder, s: seq<Participant>, v: seq<int>)
    ensures Ties(KeyOf(o), SortBy(o, s), v) == Ties(KeyOf(o), s, v)
  {
    SortStable(KeyOf(o), s, v);
  }
}
