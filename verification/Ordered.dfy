/** The key order in which a `BTreeMap` is walked. */
module Ordered {

  ghost predicate TotalOrder<T(!new)>(leq: (T, T) -> bool) {
    && (forall x, y :: leq(x, y) || leq(y, x))
    && (forall x, y :: leq(x, y) && leq(y, x) ==> x == y)
    && (forall x, y, z :: leq(x, y) && leq(y, z) ==> leq(x, z))
  }

  predicate IsLeast<T(!new, ==)>(k: T, keys: set<T>, leq: (T, T) -> bool) {
    k in keys && forall x | x in keys :: leq(k, x)
  }

  lemma {:induction false} LeastExists<T(!new)>(keys: set<T>, leq: (T, T) -> bool) returns (least: T)
    requires TotalOrder(leq) && keys != {}
    ensures IsLeast(least, keys, leq)
  {
    var k :| k in keys;
    least := k;
    if keys != {k} {
      var m := LeastExists(keys - {k}, leq);
      if !leq(k, m) {
        least := m;
      }
      forall x | x in keys ensures leq(least, x) {
        if x != k {
          assert x in keys - {k} && leq(m, x);
        }
      }
    }
  }

  lemma ThereIsALeast<T(!new)>(keys: set<T>, leq: (T, T) -> bool)
    requires TotalOrder(leq) && keys != {}
    ensures exists k | k in keys :: IsLeast(k, keys, leq)
  {
    var k := LeastExists(keys, leq);
  }

  /** The keys of a map, smallest first. */
  function Ascending<T(!new, ==)>(keys: set<T>, leq: (T, T) -> bool): (s: seq<T>)
    requires TotalOrder(leq)
    ensures |s| == |keys|
    ensures forall x :: x in s <==> x in keys
    ensures forall i, j | 0 <= i < j < |s| :: leq(s[i], s[j]) && s[i] != s[j]
  {
    if keys == {} then []
    else
      ThereIsALeast(keys, leq);
      var k :| k in keys && IsLeast(k, keys, leq);
      [k] + Ascending(keys - {k}, leq)
  }

  // ----- integers -----

  const INT_ORDER: (int, int) -> bool := (x, y) => x <= y

  lemma IntOrderIsTotal()
    ensures TotalOrder(INT_ORDER)
  {
  }

  // ----- strings, by scalar value, which is the order of their UTF-8 bytes -----

  predicate StringLeq(s: string, t: string) {
    s == [] || (t != [] && (s[0] < t[0] || (s[0] == t[0] && StringLeq(s[1..], t[1..]))))
  }

  /** In front of it, or smaller at the first character that differs. */
  lemma {:induction false} StringLeqMeans(s: string, t: string)
    ensures StringLeq(s, t)
       <==> s <= t || exists i | 0 <= i < |s| && i < |t| :: s[..i] == t[..i] && s[i] < t[i]
  {
    if s != [] && t != [] && s[0] == t[0] {
      StringLeqMeans(s[1..], t[1..]);
      assert s == [s[0]] + s[1..] && t == [t[0]] + t[1..];
      if i :| 0 <= i < |s[1..]| && i < |t[1..]| && s[1..][..i] == t[1..][..i] && s[1..][i] < t[1..][i] {
        assert s[..i + 1] == [s[0]] + s[1..][..i] && t[..i + 1] == [t[0]] + t[1..][..i];
        assert s[i + 1] < t[i + 1];
      }
      if i :| 0 <= i < |s| && i < |t| && s[..i] == t[..i] && s[i] < t[i] {
        assert s[1..][..i - 1] == s[..i][1..] && t[1..][..i - 1] == t[..i][1..];
        assert s[1..][i - 1] < t[1..][i - 1];
      }
    } else if s != [] && t != [] && s[0] < t[0] {
      assert s[..0] == t[..0];
    } else if s != [] && t != [] {
      assert forall i | 0 < i < |s| && i < |t| :: s[..i][0] == s[0] && t[..i][0] == t[0];
    }
  }

  const STRING_ORDER: (string, string) -> bool := (s, t) => StringLeq(s, t)

  lemma {:induction false} StringLeqTotal(s: string, t: string)
    ensures StringLeq(s, t) || StringLeq(t, s)
    ensures StringLeq(s, t) && StringLeq(t, s) ==> s == t
  {
    if s != [] && t != [] {
      StringLeqTotal(s[1..], t[1..]);
      assert s == [s[0]] + s[1..] && t == [t[0]] + t[1..];
    }
  }

  lemma {:induction false} StringLeqTransitive(s: string, t: string, u: string)
    requires StringLeq(s, t) && StringLeq(t, u)
    ensures StringLeq(s, u)
  {
    if s != [] && s[0] == t[0] == u[0] {
      StringLeqTransitive(s[1..], t[1..], u[1..]);
    }
  }

  lemma StringOrderIsTotal()
    ensures TotalOrder(STRING_ORDER)
  {
    forall s, t ensures STRING_ORDER(s, t) || STRING_ORDER(t, s)
      ensures STRING_ORDER(s, t) && STRING_ORDER(t, s) ==> s == t
    {
      StringLeqTotal(s, t);
    }
    forall s, t, u | STRING_ORDER(s, t) && STRING_ORDER(t, u) ensures STRING_ORDER(s, u) {
      StringLeqTransitive(s, t, u);
    }
  }

  /** The keys of a string-keyed map, in the order the map is walked. */
  function StringKeys(keys: set<string>): (s: seq<string>)
    ensures |s| == |keys|
    ensures forall x :: x in s <==> x in keys
    ensures forall i, j | 0 <= i < j < |s| :: s[i] != s[j] && StringLeq(s[i], s[j])
  {
    StringOrderIsTotal();
    Ascending(keys, STRING_ORDER)
  }

  /** The keys of an integer-keyed map, in the order the map is walked. */
  function IntKeys(keys: set<int>): (s: seq<int>)
    ensures |s| == |keys|
    ensures forall x :: x in s <==> x in keys
    ensures forall i, j | 0 <= i < j < |s| :: s[i] < s[j]
  {
    IntOrderIsTotal();
    Ascending(keys, INT_ORDER)
  }

  /** Walking a string-keyed map: each key once, and the order is the map's. */
  method Walk(keys: set<string>) returns (order: seq<string>)
    ensures forall x :: x in order <==> x in keys
  {
    order := StringKeys(keys);
  }
}
