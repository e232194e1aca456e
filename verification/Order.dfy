/** ORDER BY ... LIMIT over rows that carry composite sort keys. */
module Order {
  import opened Base

  /** Row-wise comparison of composite keys: numbers first, then the octets of the row's ID. */
  predicate Less(a: seq<int>, b: seq<int>) {
    b != [] && (a == [] || a[0] < b[0] || (a[0] == b[0] && Less(a[1..], b[1..])))
  }

  /** The sort keys of the selected rows, by row ID. */
  type Keys = map<Bytes, seq<int>>

  ghost predicate Distinct(keys: Keys) { forall x, y :: Apart(keys, x, y) }

  predicate Apart(keys: Keys, x: Bytes, y: Bytes) {
    x in keys && y in keys && x != y ==> keys[x] != keys[y]
  }

  lemma {:induction false} LessIrreflexive(a: seq<int>)
    ensures !Less(a, a)
  {
    if a != [] {
      LessIrreflexive(a[1..]);
    }
  }

  lemma {:induction false} LessTransitive(a: seq<int>, b: seq<int>, c: seq<int>)
    requires Less(a, b) && Less(b, c)
    ensures Less(a, c)
  {
    if a != [] && a[0] == b[0] == c[0] {
      LessTransitive(a[1..], b[1..], c[1..]);
    }
  }

  lemma {:induction false} LessTotal(a: seq<int>, b: seq<int>)
    ensures a == b || Less(a, b) || Less(b, a)
  {
    if a != [] && b != [] && a[0] == b[0] {
      LessTotal(a[1..], b[1..]);
      assert a == [a[0]] + a[1..] && b == [b[0]] + b[1..];
    }
  }

  lemma LessAsymmetric(a: seq<int>, b: seq<int>)
    requires Less(a, b)
    ensures !Less(b, a) && a != b
  {
  }

  /** Text order by octets: the first difference decides, and a prefix comes first. */
  predicate TextBefore(a: Bytes, b: Bytes) {
    (|a| < |b| && a == b[..|a|]) || exists k :: 0 <= k < |a| && DiffersFirstAt(a, b, k)
  }

  predicate DiffersFirstAt(a: Bytes, b: Bytes, k: nat)
    requires k < |a|
  {
    k < |b| && a[..k] == b[..k] && a[k] < b[k]
  }

  lemma {:induction false} LessIsTextOrder(a: Bytes, b: Bytes)
    ensures Less(a, b) ==> TextBefore(a, b)
  {
    if a != [] && b != [] && a[0] == b[0] && Less(a, b) {
      LessIsTextOrder(a[1..], b[1..]);
      assert a == [a[0]] + a[1..] && b == [b[0]] + b[1..];
      if k :| 0 <= k < |a| - 1 && DiffersFirstAt(a[1..], b[1..], k) {
        assert a[..k + 1] == [a[0]] + a[1..][..k] && b[..k + 1] == [b[0]] + b[1..][..k];
        assert DiffersFirstAt(a, b, k + 1);
      }
    } else if a != [] && Less(a, b) {
      assert DiffersFirstAt(a, b, 0);
    }
  }

  lemma {:induction false} TextOrderIsLess(a: Bytes, b: Bytes)
    ensures TextBefore(a, b) ==> Less(a, b)
  {
    if a != [] && b != [] && TextBefore(a, b) {
      if k :| 0 <= k < |a| && DiffersFirstAt(a, b, k) {
        if k > 0 {
          assert a[0] == a[..k][0] == b[..k][0] == b[0];
          assert a[1..][..k - 1] == a[..k][1..] && b[1..][..k - 1] == b[..k][1..];
          assert DiffersFirstAt(a[1..], b[1..], k - 1);
        }
      } else {
        assert a[0] == b[..|a|][0] == b[0];
        assert a[1..] == b[..|a|][1..] == b[1..][..|a| - 1];
      }
      TextOrderIsLess(a[1..], b[1..]);
    }
  }

  predicate IsLeast(keys: Keys, m: Bytes) {
    m in keys && forall x :: x in keys && x != m ==> Less(keys[m], keys[x])
  }

  lemma RemoveDistinct(keys: Keys, x: Bytes)
    requires Distinct(keys)
    ensures Distinct(keys - {x})
  {
    forall a, b ensures Apart(keys - {x}, a, b) { assert Apart(keys, a, b); }
  }

  lemma {:induction false} LeastExists(keys: Keys)
    requires keys != map[] && Distinct(keys)
    ensures exists m :: m in keys && IsLeast(keys, m)
    decreases |keys|
  {
    var x :| x in keys;
    var rest := keys - {x};
    if rest == map[] {
      assert keys.Keys == {x} + rest.Keys;
      assert IsLeast(keys, x);
    } else {
      assert |rest| < |keys| by {
        assert rest.Keys == keys.Keys - {x};
      }
      RemoveDistinct(keys, x);
      LeastExists(rest);
      var m :| m in rest && IsLeast(rest, m);
      LessTotal(keys[x], keys[m]);
      assert Apart(keys, x, m);
      if Less(keys[x], keys[m]) {
        forall y | y in keys && y != x ensures Less(keys[x], keys[y]) {
          if y != m {
            assert y in rest;
            LessTransitive(keys[x], keys[m], keys[y]);
          }
        }
        assert IsLeast(keys, x);
      } else {
        forall y | y in keys && y != m ensures Less(keys[m], keys[y]) {
          assert y == x || y in rest;
        }
        assert IsLeast(keys, m);
      }
    }
  }

  lemma LeastUnique(keys: Keys, m: Bytes, n: Bytes)
    requires IsLeast(keys, m) && IsLeast(keys, n)
    ensures m == n
  {
    if m != n {
      LessAsymmetric(keys[m], keys[n]);
    }
  }

  /** The row that sorts first. */
  function Least(keys: Keys): (m: Bytes)
    requires keys != map[] && Distinct(keys)
    ensures IsLeast(keys, m)
  {
    LeastExists(keys);
    assert forall a, b :: IsLeast(keys, a) && IsLeast(keys, b) ==> a == b by {
      forall a, b | IsLeast(keys, a) && IsLeast(keys, b) ensures a == b { LeastUnique(keys, a, b); }
    }
    var m :| m in keys && IsLeast(keys, m);
    m
  }

  predicate Ascending(keys: Keys, s: seq<Bytes>) {
    && (forall i :: 0 <= i < |s| ==> s[i] in keys)
    && (forall i, j :: 0 <= i < j < |s| ==> Less(keys[s[i]], keys[s[j]]))
  }

  /** All selected rows in key order. */
  function OrderBy(keys: Keys): (s: seq<Bytes>)
    requires Distinct(keys)
    ensures |s| == |keys|
    ensures forall x :: x in s <==> x in keys
    decreases |keys|
  {
    if keys == map[] then []
    else
      var m := Least(keys);
      assert (keys - {m}).Keys == keys.Keys - {m};
      RemoveDistinct(keys, m);
      [m] + OrderBy(keys - {m})
  }

  /** ORDER BY key LIMIT n */
  function First(keys: Keys, n: nat): seq<Bytes>
    requires Distinct(keys)
  {
    OrderBy(keys)[..Min(n, |keys|)]
  }

  lemma {:induction false} OrderByAscending(keys: Keys)
    requires Distinct(keys)
    ensures Ascending(keys, OrderBy(keys))
    decreases |keys|
  {
    if keys != map[] {
      var m := Least(keys);
      var rest := keys - {m};
      assert rest.Keys == keys.Keys - {m};
      RemoveDistinct(keys, m);
      OrderByAscending(rest);
      PrependLeast(keys, m, OrderBy(rest));
    }
  }

  lemma PrependLeast(keys: Keys, m: Bytes, s: seq<Bytes>)
    requires IsLeast(keys, m) && Ascending(keys - {m}, s)
    ensures Ascending(keys, [m] + s)
  {
  }

  lemma AscendingIsDistinct(keys: Keys, s: seq<Bytes>)
    requires Ascending(keys, s)
    ensures forall i, j :: 0 <= i < j < |s| ==> s[i] != s[j]
  {
    forall i, j | 0 <= i < j < |s| ensures s[i] != s[j] {
      LessAsymmetric(keys[s[i]], keys[s[j]]);
    }
  }

  /** There is only one way to list the same rows in ascending order. */
  lemma {:induction false} AscendingUnique(keys: Keys, s: seq<Bytes>, t: seq<Bytes>)
    requires Ascending(keys, s) && Ascending(keys, t)
    requires forall x :: x in s <==> x in t
    requires |s| == |t|
    ensures s == t
  {
    if s != [] {
      if s[0] != t[0] {
        assert s[0] in t && t[0] in s;
        LessAsymmetric(keys[s[0]], keys[t[0]]);
      }
      AscendingIsDistinct(keys, s);
      AscendingIsDistinct(keys, t);
      forall x ensures x in s[1..] <==> x in t[1..] {
        SameTail(s, t, x);
        SameTail(t, s, x);
      }
      AscendingUnique(keys, s[1..], t[1..]);
    }
  }

  lemma SameTail(s: seq<Bytes>, t: seq<Bytes>, x: Bytes)
    requires s != [] && t != [] && s[0] == t[0]
    requires forall y :: y in s ==> y in t
    requires forall i, j :: 0 <= i < j < |s| ==> s[i] != s[j]
    ensures x in s[1..] ==> x in t[1..]
  {
    if x in s[1..] {
      var i :| 0 < i < |s| && s[i] == x;
      assert x != s[0] && x in t;
    }
  }

  /** What LIMIT keeps sorts before what it leaves. */
  lemma FirstBeforeRest(keys: Keys, n: nat, x: Bytes, y: Bytes)
    requires Distinct(keys) && x in First(keys, n) && y in keys && y !in First(keys, n)
    ensures x in keys && Less(keys[x], keys[y])
  {
    OrderByAscending(keys);
    var s := OrderBy(keys);
    var i :| 0 <= i < |First(keys, n)| && First(keys, n)[i] == x;
    assert y in s;
    var j :| 0 <= j < |s| && s[j] == y;
    assert j >= |First(keys, n)|;
  }

  function Ids(s: seq<Bytes>): (ids: set<Bytes>)
    ensures forall x :: x in ids <==> x in s
  {
    set i | 0 <= i < |s| :: s[i]
  }

  lemma {:induction false} IdsCount(keys: Keys, s: seq<Bytes>)
    requires Ascending(keys, s)
    ensures |Ids(s)| == |s|
  {
    if s == [] {
      assert Ids(s) == {};
    } else {
      var p := s[..|s| - 1];
      assert forall i :: 0 <= i < |p| ==> p[i] == s[i];
      IdsCount(keys, p);
      AscendingIsDistinct(keys, s);
      assert Ids(s) == Ids(p) + {s[|s| - 1]};
      assert s[|s| - 1] !in Ids(p);
    }
  }

  lemma FirstCount(keys: Keys, n: nat)
    requires Distinct(keys)
    ensures |Ids(First(keys, n))| == Min(n, |keys|)
  {
    OrderByAscending(keys);
    AscendingPrefix(keys, OrderBy(keys), Min(n, |keys|));
    IdsCount(keys, First(keys, n));
  }

  lemma AllFirst(keys: Keys, n: nat, x: Bytes)
    requires Distinct(keys) && |keys| <= n && x in keys
    ensures x in First(keys, n)
  {
  }

  lemma AscendingTail(keys: Keys, s: seq<Bytes>)
    requires Ascending(keys, s) && s != []
    ensures Ascending(keys, s[1..])
  {
  }

  lemma AscendingPrefix(keys: Keys, s: seq<Bytes>, n: nat)
    requires Ascending(keys, s) && n <= |s|
    ensures Ascending(keys, s[..n])
  {
  }

  /** A row is left out only by n rows that sort before it. */
  lemma LeftOut(keys: Keys, n: nat, x: Bytes)
    requires Distinct(keys) && x in keys && x !in Ids(First(keys, n))
    ensures |keys| > n
    ensures forall y :: y in Ids(First(keys, n)) ==> y in keys && Less(keys[y], keys[x])
  {
    if |keys| <= n {
      AllFirst(keys, n, x);
    }
    forall y | y in Ids(First(keys, n)) ensures y in keys && Less(keys[y], keys[x]) {
      FirstBeforeRest(keys, n, y, x);
    }
  }
}
