/** `Counter(users).most_common(n)`: the distinct senders in order of first
    occurrence with their counts, stably sorted by descending count, cut to
    the first `n`. For `n >= 0`, `heapq.nlargest`, which `most_common` calls
    when `n` is given, returns the same list as `sorted(..., reverse=True)[:n]`;
    for `n < 0` it returns the empty list. */
module MostCommon {

  type Entry = (string, nat)

  /** How often `x` occurs in `users`. */
  function Count(users: seq<string>, x: string): nat {
    if users == [] then 0
    else Count(users[..|users| - 1], x) + (if users[|users| - 1] == x then 1 else 0)
  }

  /** The index of the first occurrence of `x`, or `|users|` if there is none. */
  function FirstIndex(users: seq<string>, x: string): nat {
    if users == [] then 0
    else if users[0] == x then 0
    else 1 + FirstIndex(users[1..], x)
  }

  lemma {:induction false} FirstIndexSpec(users: seq<string>, x: string)
    ensures x !in users ==> FirstIndex(users, x) == |users|
    ensures x in users ==> FirstIndex(users, x) < |users| && users[FirstIndex(users, x)] == x
    ensures forall k :: 0 <= k < FirstIndex(users, x) && k < |users| ==> users[k] != x
  {
    if users != [] && users[0] != x {
      FirstIndexSpec(users[1..], x);
      assert forall k :: 1 <= k < |users| ==> users[k] == users[1..][k - 1];
    }
  }

  lemma {:induction false} FirstIndexAppend(p: seq<string>, y: string, x: string)
    ensures FirstIndex(p + [y], x) == if x in p then FirstIndex(p, x) else if x == y then |p| else |p| + 1
  {
    if p != [] {
      assert (p + [y])[1..] == p[1..] + [y];
      FirstIndexAppend(p[1..], y, x);
    }
  }

  /** The distinct elements of `users` in order of first occurrence: the key
      order of a `Counter` built from `users`. */
  function Distinct(users: seq<string>): seq<string> {
    if users == [] then []
    else
      var p := users[..|users| - 1];
      if users[|users| - 1] in p then Distinct(p) else Distinct(p) + [users[|users| - 1]]
  }

  lemma {:induction false} DistinctFacts(users: seq<string>)
    ensures forall x :: x in Distinct(users) <==> x in users
    ensures forall i, j :: 0 <= i < j < |Distinct(users)| ==>
      FirstIndex(users, Distinct(users)[i]) < FirstIndex(users, Distinct(users)[j])
  {
    if users != [] {
      var p, y := users[..|users| - 1], users[|users| - 1];
      assert users == p + [y];
      DistinctFacts(p);
      forall x | x in p ensures FirstIndex(users, x) == FirstIndex(p, x) {
        FirstIndexAppend(p, y, x);
      }
      if y !in p {
        FirstIndexAppend(p, y, y);
        var d := Distinct(p);
        forall i | 0 <= i < |d| ensures FirstIndex(users, d[i]) < |p| {
          assert d[i] in p;
          FirstIndexSpec(p, d[i]);
        }
      }
    }
  }

  /** The `Counter`: each distinct sender with its count, in key order. */
  function Tally(users: seq<string>): seq<Entry> {
    var d := Distinct(users);
    seq(|d|, i requires 0 <= i < |d| => (d[i], Count(users, d[i])))
  }

  /** Insert `e` after every entry whose count is at least `e`'s: the step of
      a stable sort by descending count. */
  function InsertByCount(e: Entry, r: seq<Entry>): seq<Entry> {
    if r == [] then [e]
    else if r[0].1 >= e.1 then [r[0]] + InsertByCount(e, r[1..])
    else [e] + r
  }

  /** Stable insertion sort by descending count. */
  function SortByCount(s: seq<Entry>): seq<Entry> {
    if s == [] then [] else InsertByCount(s[|s| - 1], SortByCount(s[..|s| - 1]))
  }

  /** The first `n` entries; none when `n` is not positive. */
  function Take(s: seq<Entry>, n: int): seq<Entry> {
    if n <= 0 then [] else if n >= |s| then s else s[..n]
  }

  /** `Counter(users).most_common(n)`. */
  function MostCommonOf(users: seq<string>, n: int): seq<Entry> {
    Take(SortByCount(Tally(users)), n)
  }

  /** `a` comes before `b` in `most_common` order: a higher count, or the same
      count and an earlier first occurrence. */
  predicate Outranks(users: seq<string>, a: Entry, b: Entry) {
    a.1 > b.1 || (a.1 == b.1 && FirstIndex(users, a.0) < FirstIndex(users, b.0))
  }

  predicate StrictlyRanked(users: seq<string>, s: seq<Entry>) {
    forall i, j :: 0 <= i < j < |s| ==> Outranks(users, s[i], s[j])
  }

  lemma {:induction false} InsertPermutes(e: Entry, r: seq<Entry>)
    ensures multiset(InsertByCount(e, r)) == multiset(r) + multiset{e}
  {
    if r != [] && r[0].1 >= e.1 {
      InsertPermutes(e, r[1..]);
      assert r == [r[0]] + r[1..];
    }
  }

  lemma {:induction false} SortPermutes(s: seq<Entry>)
    ensures multiset(SortByCount(s)) == multiset(s)
  {
    if s != [] {
      SortPermutes(s[..|s| - 1]);
      InsertPermutes(s[|s| - 1], SortByCount(s[..|s| - 1]));
      assert s == s[..|s| - 1] + [s[|s| - 1]];
    }
  }

  /** Inserting an entry that occurs later than everything already sorted
      keeps the list strictly ranked. */
  lemma {:induction false} InsertRanked(users: seq<string>, e: Entry, r: seq<Entry>)
    requires StrictlyRanked(users, r)
    requires forall k :: 0 <= k < |r| ==> FirstIndex(users, r[k].0) < FirstIndex(users, e.0)
    ensures StrictlyRanked(users, InsertByCount(e, r))
  {
    if r != [] {
      if r[0].1 >= e.1 {
        var tail := r[1..];
        InsertRanked(users, e, tail);
        var t := InsertByCount(e, tail);
        InsertPermutes(e, tail);
        forall j | 0 <= j < |t| ensures Outranks(users, r[0], t[j]) {
          assert t[j] in multiset(t);
          if t[j] != e {
            assert t[j] in tail;
            var k :| 0 <= k < |tail| && tail[k] == t[j];
            assert r[k + 1] == t[j];
          }
        }
        var out := [r[0]] + t;
        forall i, j | 0 <= i < j < |out| ensures Outranks(users, out[i], out[j]) {
          if i == 0 {
            assert out[j] == t[j - 1];
          } else {
            assert out[i] == t[i - 1] && out[j] == t[j - 1];
          }
        }
      } else {
        var out := [e] + r;
        forall i, j | 0 <= i < j < |out| ensures Outranks(users, out[i], out[j]) {
          if i == 0 {
            assert out[j] == r[j - 1];
            if j > 1 {
              assert Outranks(users, r[0], r[j - 1]);
            }
          } else {
            assert out[i] == r[i - 1] && out[j] == r[j - 1];
          }
        }
      }
    }
  }

  /** Stably sorting a list held in order of first occurrence ranks it by
      descending count, ties by first occurrence. */
  lemma {:induction false} SortRanked(users: seq<string>, s: seq<Entry>)
    requires forall i, j :: 0 <= i < j < |s| ==> FirstIndex(users, s[i].0) < FirstIndex(users, s[j].0)
    ensures StrictlyRanked(users, SortByCount(s))
  {
    if s != [] {
      var p, e := s[..|s| - 1], s[|s| - 1];
      SortRanked(users, p);
      var sp := SortByCount(p);
      SortPermutes(p);
      forall k | 0 <= k < |sp| ensures FirstIndex(users, sp[k].0) < FirstIndex(users, e.0) {
        assert sp[k] in multiset(p);
        var m :| 0 <= m < |p| && p[m] == sp[k];
        assert s[m] == p[m];
      }
      InsertRanked(users, e, sp);
    }
  }

  /** The stably sorted tally: a ranked permutation of the counter. */
  lemma SortedTally(users: seq<string>)
    ensures |SortByCount(Tally(users))| == |Distinct(users)|
    ensures StrictlyRanked(users, SortByCount(Tally(users)))
    ensures forall i :: 0 <= i < |SortByCount(Tally(users))| ==>
      var e := SortByCount(Tally(users))[i]; e.0 in users && e.1 == Count(users, e.0)
    ensures forall x :: x in users ==> (x, Count(users, x)) in SortByCount(Tally(users))
  {
    var t := Tally(users);
    var d := Distinct(users);
    var s := SortByCount(t);
    DistinctFacts(users);
    SortRanked(users, t);
    SortPermutes(t);
    assert |s| == |multiset(s)| == |multiset(t)| == |t|;
    forall i | 0 <= i < |s| ensures s[i].0 in users && s[i].1 == Count(users, s[i].0) {
      assert s[i] in multiset(t);
      var k :| 0 <= k < |t| && t[k] == s[i];
    }
    forall x | x in users ensures (x, Count(users, x)) in s {
      var k :| 0 <= k < |d| && d[k] == x;
      assert t[k] == (x, Count(users, x));
      assert t[k] in multiset(s);
    }
  }

  /** At most `n` entries, and exactly `n` unless there are fewer senders. */
  lemma MostCommonSize(users: seq<string>, n: int)
    ensures |MostCommonOf(users, n)| == if n <= 0 then 0 else if n < |Distinct(users)| then n else |Distinct(users)|
    ensures |MostCommonOf(users, n)| <= (if n <= 0 then 0 else n)
  {
    SortedTally(users);
  }

  /** Each entry is a sender that occurs, with its exact count. */
  lemma MostCommonCounts(users: seq<string>, n: int)
    ensures forall i :: 0 <= i < |MostCommonOf(users, n)| ==>
      var e := MostCommonOf(users, n)[i]; e.0 in users && e.1 == Count(users, e.0)
  {
    SortedTally(users);
  }

  /** Counts do not increase along the result; equal counts keep the order of
      first occurrence; no sender appears twice. */
  lemma MostCommonOrder(users: seq<string>, n: int)
    ensures forall i, j :: 0 <= i < j < |MostCommonOf(users, n)| ==>
      MostCommonOf(users, n)[i].1 >= MostCommonOf(users, n)[j].1
    ensures forall i, j :: 0 <= i < j < |MostCommonOf(users, n)| && MostCommonOf(users, n)[i].1 == MostCommonOf(users, n)[j].1 ==>
      FirstIndex(users, MostCommonOf(users, n)[i].0) < FirstIndex(users, MostCommonOf(users, n)[j].0)
    ensures forall i, j :: 0 <= i < j < |MostCommonOf(users, n)| ==>
      MostCommonOf(users, n)[i].0 != MostCommonOf(users, n)[j].0
  {
    var r := MostCommonOf(users, n);
    var s := SortByCount(Tally(users));
    SortedTally(users);
    assert forall i :: 0 <= i < |r| ==> r[i] == s[i];
    forall i, j | 0 <= i < j < |r| ensures r[i].0 != r[j].0 && Outranks(users, r[i], r[j]) {
      assert Outranks(users, s[i], s[j]);
    }
  }

  /** A sender left out of the result is outranked by every sender in it. */
  lemma MostCommonOmitted(users: seq<string>, n: int, x: string)
    requires x in users
    requires forall i :: 0 <= i < |MostCommonOf(users, n)| ==> MostCommonOf(users, n)[i].0 != x
    ensures forall i :: 0 <= i < |MostCommonOf(users, n)| ==>
      Outranks(users, MostCommonOf(users, n)[i], (x, Count(users, x)))
  {
    var r := MostCommonOf(users, n);
    var s := SortByCount(Tally(users));
    SortedTally(users);
    var k :| 0 <= k < |s| && s[k] == (x, Count(users, x));
    assert forall i :: 0 <= i < |r| ==> r[i] == s[i];
  }

  /** No votes, no entries. */
  lemma MostCommonEmpty(n: int)
    ensures MostCommonOf([], n) == []
  {
  }
}
