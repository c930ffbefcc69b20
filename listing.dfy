/** Result listings sorted by a timestamp, newest first
    (`.sort({ createdAt: -1 })`), and `.skip(n).limit(m)` windows. */
module Listing {

  /** `s` is ordered by `time`, latest first. */
  predicate NewestFirst<T>(s: seq<T>, time: T -> int) {
    forall i, j :: 0 <= i < j < |s| ==> time(s[i]) >= time(s[j])
  }

  /** Inserts `x` into a newest-first list, before the first entry that is not newer. */
  function InsertNewest<T>(x: T, s: seq<T>, time: T -> int): (r: seq<T>)
    requires NewestFirst(s, time)
    ensures NewestFirst(r, time)
    ensures multiset(r) == multiset(s) + multiset{x}
  {
    if s == [] || time(x) >= time(s[0]) then
      [x] + s
    else
      var rest := InsertNewest(x, s[1..], time);
      assert forall k :: 0 <= k < |s[1..]| ==> s[1..][k] == s[k + 1];
      AtMostOfPermutation(rest, s[1..], x, time(s[0]), time);
      ConsNewest(s[0], rest, time);
      assert s == [s[0]] + s[1..];
      [s[0]] + rest
  }

  /** Every entry of `s` is at most `t` in time. */
  predicate AtMost<T>(s: seq<T>, t: int, time: T -> int) {
    forall k :: 0 <= k < |s| ==> time(s[k]) <= t
  }

  /** A rearrangement of `s` plus `x` stays bounded when `s` and `x` are. */
  lemma AtMostOfPermutation<T>(rest: seq<T>, s: seq<T>, x: T, t: int, time: T -> int)
    requires multiset(rest) == multiset(s) + multiset{x}
    requires time(x) <= t && AtMost(s, t, time)
    ensures AtMost(rest, t, time)
  {
    forall k | 0 <= k < |rest| ensures time(rest[k]) <= t {
      var y := rest[k];
      assert y in multiset(rest);
      if y != x {
        assert y in multiset(s);
        var j :| 0 <= j < |s| && s[j] == y;
      }
    }
  }

  /** An entry no older than everything after it can head a newest-first list. */
  lemma ConsNewest<T>(h: T, rest: seq<T>, time: T -> int)
    requires NewestFirst(rest, time) && AtMost(rest, time(h), time)
    ensures NewestFirst([h] + rest, time)
  {
    var r := [h] + rest;
    forall i, j | 0 <= i < j < |r| ensures time(r[i]) >= time(r[j]) {
      assert r[j] == rest[j - 1];
      if i > 0 {
        assert r[i] == rest[i - 1];
      }
    }
  }

  /** The elements of `items`, each exactly once, newest first. Ties come out
      in an unspecified order, as they do from the document store. */
  method SortNewestFirst<T(==)>(items: set<T>, time: T -> int) returns (r: seq<T>)
    ensures NewestFirst(r, time)
    ensures multiset(r) == multiset(items)
  {
    r := [];
    var remaining := items;
    while remaining != {}
      invariant remaining <= items
      invariant NewestFirst(r, time)
      invariant multiset(r) + multiset(remaining) == multiset(items)
      decreases |remaining|
    {
      var x :| x in remaining;
      r := InsertNewest(x, r, time);
      assert multiset(remaining - {x}) + multiset{x} == multiset(remaining);
      remaining := remaining - {x};
    }
  }

  /** `.skip(skip).limit(limit)` applied to an ordered result. */
  function Window<T>(s: seq<T>, skip: nat, limit: nat): (r: seq<T>)
    ensures |r| <= limit
    ensures skip <= |s| ==> r == s[skip..if skip + limit <= |s| then skip + limit else |s|]
    ensures skip >= |s| ==> r == []
  {
    var lo := if skip <= |s| then skip else |s|;
    var hi := if lo + limit <= |s| then lo + limit else |s|;
    s[lo..hi]
  }

  /** A prefix grows by the next element. */
  lemma TakeOneMore<T>(s: seq<T>, i: nat)
    requires i < |s|
    ensures s[..i] + [s[i]] == s[..i + 1]
  {
  }
}
