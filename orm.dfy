/**
  The query semantics of the object-relational mapper that the application relies on.
  A table is a sequence of rows kept in the model's default ordering; a query set is
  the subsequence of rows that satisfy its filter, in that same order.
 */
module Orm {
  import opened Wrappers

  /** `filter(...)` / `exclude(...)`: the rows satisfying `p`, in table order. */
  function Filter<T(!new)>(s: seq<T>, p: T -> bool): (r: seq<T>)
    ensures |r| <= |s|
    ensures forall x :: x in r <==> x in s && p(x)
  {
    if s == [] then []
    else (if p(s[0]) then [s[0]] else []) + Filter(s[1..], p)
  }

  /** The three outcomes of `get(...)`. */
  datatype Lookup<T> = DoesNotExist | MultipleObjectsReturned | Found(value: T)

  /** `get(...)` applied to the query set `matches`: succeeds only when exactly one row matches. */
  function Get<T(!new)>(matches: seq<T>): (r: Lookup<T>)
    ensures r.Found? <==> |matches| == 1
    ensures r.Found? ==> r.value in matches && forall x :: x in matches ==> x == r.value
    ensures r.DoesNotExist? <==> matches == []
  {
    if |matches| == 0 then DoesNotExist
    else if |matches| == 1 then Found(matches[0])
    else MultipleObjectsReturned
  }

  /** `first()` applied to the query set `matches`: its first row in order, if any. */
  function First<T>(matches: seq<T>): (r: Option<T>)
    ensures r.None? <==> matches == []
    ensures r.Some? ==> r.value in matches && r.value == matches[0]
  {
    if matches == [] then None else Some(matches[0])
  }

  /** The query set in reverse order, as `order_by('-key')` yields it from one ordered by `key`. */
  function Reversed<T>(s: seq<T>): (r: seq<T>)
    ensures |r| == |s|
    ensures forall i :: 0 <= i < |s| ==> r[i] == s[|s| - 1 - i]
  {
    if s == [] then [] else Reversed(s[1..]) + [s[0]]
  }

  /** Reversing keeps exactly the same rows. */
  lemma ReversedMembers<T(!new)>(s: seq<T>)
    ensures forall x :: x in Reversed(s) <==> x in s
  {
    var r := Reversed(s);
    forall x | x in s ensures x in r {
      var k :| 0 <= k < |s| && s[k] == x;
      assert r[|s| - 1 - k] == x;
    }
  }

  /** A filter keeps any relation that holds between every earlier and later row. */
  lemma {:induction false} FilterKeepsPairwise<T(!new)>(s: seq<T>, p: T -> bool, rel: (T, T) -> bool)
    requires forall i, j :: 0 <= i < j < |s| ==> rel(s[i], s[j])
    ensures forall i, j :: 0 <= i < j < |Filter(s, p)| ==> rel(Filter(s, p)[i], Filter(s, p)[j])
  {
    if s != [] {
      var tail := s[1..];
      assert forall i, j :: 0 <= i < j < |tail| ==> tail[i] == s[i + 1] && tail[j] == s[j + 1];
      FilterKeepsPairwise(tail, p, rel);
      var rest := Filter(tail, p);
      assert forall i, j :: 0 <= i < j < |rest| ==> rel(rest[i], rest[j]);
      forall x | x in tail ensures rel(s[0], x) {
        var k :| 0 <= k < |tail| && tail[k] == x;
        assert s[k + 1] == x;
      }
      var r := Filter(s, p);
      if p(s[0]) {
        assert r == [s[0]] + rest;
        forall i, j | 0 <= i < j < |r| ensures rel(r[i], r[j]) {
          assert r[j] == rest[j - 1];
          if i == 0 {
            assert rest[j - 1] in tail;
          } else {
            assert r[i] == rest[i - 1];
            assert rel(rest[i - 1], rest[j - 1]);
          }
        }
      } else {
        assert r == rest;
      }
    }
  }

  /**
    A query set holds at most one row when no two rows it admits may stand in `rel`
    and every earlier row of the table stands in `rel` to every later one (a unique key).
   */
  lemma {:induction false} FilterOfUniqueKey<T(!new)>(s: seq<T>, p: T -> bool, rel: (T, T) -> bool)
    requires forall i, j :: 0 <= i < j < |s| ==> rel(s[i], s[j])
    requires forall x, y :: p(x) && p(y) ==> !rel(x, y)
    ensures |Filter(s, p)| <= 1
  {
    if s != [] {
      var tail := s[1..];
      assert forall i, j :: 0 <= i < j < |tail| ==> tail[i] == s[i + 1] && tail[j] == s[j + 1];
      FilterOfUniqueKey(tail, p, rel);
      var rest := Filter(tail, p);
      if p(s[0]) {
        forall x | x in tail ensures rel(s[0], x) {
          var k :| 0 <= k < |tail| && tail[k] == x;
          assert s[k + 1] == x;
        }
        assert forall x :: x in rest ==> !rel(s[0], x);
        assert forall x :: x !in rest;
        NoMembersMeansEmpty(rest);
      }
    }
  }

  /** A sequence with no members is empty. */
  lemma NoMembersMeansEmpty<T>(s: seq<T>)
    ensures (forall x :: x !in s) ==> s == []
  {
    if s != [] {
      assert s[0] in s;
    }
  }

  /** A row appended to the table is appended to every query set it satisfies. */
  lemma {:induction false} FilterAppend<T(!new)>(s: seq<T>, x: T, p: T -> bool)
    ensures Filter(s + [x], p) == Filter(s, p) + (if p(x) then [x] else [])
  {
    if s == [] {
      assert s + [x] == [x];
      assert [x][1..] == [];
    } else {
      assert (s + [x])[1..] == s[1..] + [x];
      FilterAppend(s[1..], x, p);
    }
  }

  /** Two sequences that agree position by position on `p` have equally many elements satisfying it. */
  lemma {:induction false} FilterCountAgrees<T(!new)>(s: seq<T>, t: seq<T>, p: T -> bool)
    requires |s| == |t| && forall i :: 0 <= i < |s| ==> p(s[i]) == p(t[i])
    ensures |Filter(s, p)| == |Filter(t, p)|
  {
    if s != [] {
      assert forall i :: 0 <= i < |s| - 1 ==> s[1..][i] == s[i + 1] && t[1..][i] == t[i + 1];
      FilterCountAgrees(s[1..], t[1..], p);
    }
  }

  /** Filtering distributes over concatenation. */
  lemma {:induction false} FilterConcat<T(!new)>(s: seq<T>, t: seq<T>, p: T -> bool)
    ensures Filter(s + t, p) == Filter(s, p) + Filter(t, p)
  {
    if s == [] {
      assert s + t == t;
    } else {
      assert (s + t)[0] == s[0] && (s + t)[1..] == s[1..] + t;
      FilterConcat(s[1..], t, p);
    }
  }

  /** A filter every element passes keeps the whole sequence. */
  lemma {:induction false} FilterKeepsAll<T(!new)>(s: seq<T>, p: T -> bool)
    requires forall i :: 0 <= i < |s| ==> p(s[i])
    ensures Filter(s, p) == s
  {
    if s != [] {
      assert forall i :: 0 <= i < |s| - 1 ==> s[1..][i] == s[i + 1];
      FilterKeepsAll(s[1..], p);
    }
  }
}
