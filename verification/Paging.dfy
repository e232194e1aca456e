/** Keyset pagination over ORDER BY: each page starts after the last key of the page before. */
module Paging {
  import opened Base
  import opened Order

  function Following(keys: Keys, bound: seq<int>): Keys { map id | id in keys && Less(bound, keys[id]) :: keys[id] }

  lemma FollowingDistinct(keys: Keys, bound: seq<int>)
    requires Distinct(keys)
    ensures Distinct(Following(keys, bound))
  {
    forall x, y ensures Apart(Following(keys, bound), x, y) { assert Apart(keys, x, y); }
  }

  predicate PageSizes(limits: seq<nat>) { forall i :: 0 <= i < |limits| ==> limits[i] >= 1 }

  /** The rows of successive pages of the given sizes, up to and including the first short page;
      None if the sizes run out before that. */
  function ReadPages(keys: Keys, limits: seq<nat>): Option<seq<Bytes>>
    requires Distinct(keys) && PageSizes(limits)
    decreases |limits|
  {
    if limits == [] then None
    else
      var s, n := OrderBy(keys), limits[0];
      if |s| < n then Some(s)
      else
        FollowingDistinct(keys, keys[s[n - 1]]);
        var rest := ReadPages(Following(keys, keys[s[n - 1]]), limits[1..]);
        if rest.None? then None else Some(s[..n] + rest.value)
  }

  /** Restarting after the n-th row leaves exactly the rest of the listing. */
  lemma RestAfter(keys: Keys, n: nat)
    requires Distinct(keys) && 0 < n <= |keys|
    ensures OrderBy(keys)[n - 1] in keys
    ensures Distinct(Following(keys, keys[OrderBy(keys)[n - 1]]))
    ensures OrderBy(Following(keys, keys[OrderBy(keys)[n - 1]])) == OrderBy(keys)[n..]
    ensures |Following(keys, keys[OrderBy(keys)[n - 1]])| == |keys| - n
  {
    var s := OrderBy(keys);
    assert s[n - 1] in keys;
    var rest := Following(keys, keys[s[n - 1]]);
    FollowingDistinct(keys, keys[s[n - 1]]);
    OrderByAscending(keys);
    OrderByAscending(rest);
    forall id ensures id in rest <==> id in s[n..] {
      RestMembership(keys, s, n, id);
    }
    AscendingSuffix(keys, rest, s, n);
    SameMembersSameLength(OrderBy(rest), s[n..], rest);
    AscendingUnique(rest, OrderBy(rest), s[n..]);
  }

  lemma RestMembership(keys: Keys, s: seq<Bytes>, n: nat, id: Bytes)
    requires Ascending(keys, s) && 0 < n <= |s| && forall x :: x in s <==> x in keys
    ensures id in Following(keys, keys[s[n - 1]]) <==> id in s[n..]
  {
    var bound := keys[s[n - 1]];
    if id in keys {
      var i :| 0 <= i < |s| && s[i] == id;
      if i < n - 1 {
        LessAsymmetric(keys[id], bound);
      } else if i == n - 1 {
        LessIrreflexive(bound);
      } else {
        assert s[n..][i - n] == id;
      }
      if id in s[n..] {
        var j :| 0 <= j < |s| - n && s[n..][j] == id;
        assert s[n + j] == id;
      }
    } else {
      assert id !in s;
    }
  }

  lemma AscendingSuffix(keys: Keys, rest: Keys, s: seq<Bytes>, n: nat)
    requires Ascending(keys, s) && n <= |s|
    requires forall id :: id in s[n..] ==> id in rest && id in keys && rest[id] == keys[id]
    ensures Ascending(rest, s[n..])
  {
  }

  lemma SameMembersSameLength(a: seq<Bytes>, b: seq<Bytes>, keys: Keys)
    requires Ascending(keys, a) && Ascending(keys, b)
    requires forall x :: x in a <==> x in b
    ensures |a| == |b|
  {
    IdsCount(keys, a);
    IdsCount(keys, b);
    assert Ids(a) == Ids(b);
  }

  lemma ShortPage(keys: Keys, limits: seq<nat>)
    requires Distinct(keys) && limits != [] && PageSizes(limits) && |keys| < limits[0]
    ensures ReadPages(keys, limits) == Some(OrderBy(keys))
  {
  }

  /** How reading goes on after a full page. */
  lemma FullPage(keys: Keys, limits: seq<nat>, last: Bytes)
    requires Distinct(keys) && limits != [] && PageSizes(limits) && limits[0] <= |keys|
    requires last == OrderBy(keys)[limits[0] - 1] && last in keys && Distinct(Following(keys, keys[last]))
    ensures PageSizes(limits[1..]) && First(keys, limits[0]) == OrderBy(keys)[..limits[0]]
    ensures var rest := ReadPages(Following(keys, keys[last]), limits[1..]);
            ReadPages(keys, limits) == if rest.None? then None else Some(First(keys, limits[0]) + rest.value)
  {
  }

  lemma JoinPage(keys: Keys, limits: seq<nat>, last: Bytes)
    requires Distinct(keys) && limits != [] && PageSizes(limits) && limits[0] <= |keys|
    requires last == OrderBy(keys)[limits[0] - 1] && last in keys && Distinct(Following(keys, keys[last]))
    requires PageSizes(limits[1..])
    requires ReadPages(Following(keys, keys[last]), limits[1..]) == Some(OrderBy(Following(keys, keys[last])))
    ensures ReadPages(keys, limits) == Some(OrderBy(keys))
  {
    RestAfter(keys, limits[0]);
    FullPage(keys, limits, last);
    SplitAt(OrderBy(keys), limits[0]);
  }

  lemma RestSize(keys: Keys, limits: seq<nat>, last: Bytes)
    requires Distinct(keys) && limits != [] && PageSizes(limits) && limits[0] <= |keys|
    requires last == OrderBy(keys)[limits[0] - 1]
    ensures last in keys && Distinct(Following(keys, keys[last]))
    ensures |Following(keys, keys[last])| == |keys| - limits[0] && PageSizes(limits[1..])
  {
    RestAfter(keys, limits[0]);
  }

  lemma SplitAt(s: seq<Bytes>, n: nat)
    requires n <= |s|
    ensures s[..n] + s[n..] == s
  {
  }

  /** However the page sizes are chosen, enough nonempty pages read the whole listing and stop. */
  lemma {:induction false} ReadPagesExact(keys: Keys, limits: seq<nat>)
    requires Distinct(keys) && |limits| > |keys| && PageSizes(limits)
    ensures ReadPages(keys, limits) == Some(OrderBy(keys))
    decreases |limits|
  {
    if |keys| < limits[0] {
      ShortPage(keys, limits);
    } else {
      var last := OrderBy(keys)[limits[0] - 1];
      RestSize(keys, limits, last);
      ReadPagesExact(Following(keys, keys[last]), limits[1..]);
      JoinPage(keys, limits, last);
    }
  }
}
