/** Options, C++ arithmetic on signed numbers, and the few facts about sequences and
    ordered maps that the rest of the project leans on. */
module Basics {

  datatype Option<+T> = None | Some(value: T)

  datatype Result<+T, +E> = Ok(value: T) | Err(error: E)

  /** C++ integer division: towards zero. */
  function TruncDiv(a: int, b: int): int
    requires b > 0
  {
    if a >= 0 then a / b else -((-a) / b)
  }

  lemma DivBounds(a: int, d: int)
    requires d > 0
    ensures (a / d) * d <= a < (a / d) * d + d
  {
  }

  lemma {:induction false} MulMonotone(x: int, y: int, d: int)
    requires d >= 0 && x <= y
    ensures x * d <= y * d
    decreases y - x
  {
    if x < y {
      MulMonotone(x, y - 1, d);
      assert y * d == (y - 1) * d + d;
    }
  }

  lemma DivMonotone(a: int, b: int, d: int)
    requires d > 0 && a <= b
    ensures a / d <= b / d
  {
    var q, r := a / d, b / d;
    DivBounds(a, d);
    DivBounds(b, d);
    Quotients(q, r, d);
  }

  lemma Quotients(q: int, r: int, d: int)
    requires d > 0 && q * d < r * d + d
    ensures q <= r
  {
    if q > r {
      assert (r + 1) * d == r * d + d;
      MulMonotone(r + 1, q, d);
    }
  }

  /** The start of the tumbling bucket that holds a time never moves back. */
  lemma TruncDivMonotone(a: int, b: int, d: int)
    requires d > 0 && a <= b
    ensures TruncDiv(a, d) * d <= TruncDiv(b, d) * d
  {
    if 0 <= a {
      DivMonotone(a, b, d);
    } else if b < 0 {
      DivMonotone(-b, -a, d);
    } else {
      DivMonotone(0, -a, d);
      DivMonotone(0, b, d);
    }
    MulMonotone(TruncDiv(a, d), TruncDiv(b, d), d);
  }

  function Ceil(x: real): int {
    -((-x).Floor)
  }

  /** C++ conversion of a floating value to an integer: towards zero. */
  function Trunc(x: real): int {
    if x >= 0.0 then x.Floor else Ceil(x)
  }

  function GetOr<K, V>(m: map<K, V>, k: K, default: V): V {
    if k in m then m[k] else default
  }

  function Map<S, T>(f: S -> T, s: seq<S>): (r: seq<T>)
    ensures |r| == |s| && forall i :: 0 <= i < |s| ==> r[i] == f(s[i])
  {
    seq(|s|, i requires 0 <= i < |s| => f(s[i]))
  }

  // ---- filtering -------------------------------------------------------------

  function Filter<T>(keep: T -> bool, s: seq<T>): seq<T> {
    if s == [] then []
    else if keep(s[0]) then [s[0]] + Filter(keep, s[1..])
    else Filter(keep, s[1..])
  }

  lemma {:induction false} FilterMembers<T(!new)>(keep: T -> bool, s: seq<T>)
    ensures |Filter(keep, s)| <= |s|
    ensures forall x :: x in Filter(keep, s) <==> x in s && keep(x)
  {
    if s != [] {
      FilterMembers(keep, s[1..]);
      assert s == [s[0]] + s[1..];
    }
  }

  lemma {:induction false} FilterAppend<T(!new)>(keep: T -> bool, s: seq<T>, t: seq<T>)
    ensures Filter(keep, s + t) == Filter(keep, s) + Filter(keep, t)
  {
    if s == [] {
      assert s + t == t;
    } else {
      FilterAppend(keep, s[1..], t);
      assert (s + t)[0] == s[0] && (s + t)[1..] == s[1..] + t;
    }
  }

  lemma {:induction false} FilterAll<T(!new)>(keep: T -> bool, s: seq<T>)
    requires forall x :: x in s ==> keep(x)
    ensures Filter(keep, s) == s
  {
    if s != [] {
      FilterAll(keep, s[1..]);
    }
  }

  lemma {:induction false} FilterNone<T(!new)>(keep: T -> bool, s: seq<T>)
    requires forall x :: x in s ==> !keep(x)
    ensures Filter(keep, s) == []
  {
    if s != [] {
      FilterNone(keep, s[1..]);
    }
  }

  lemma {:induction false} FilterSwap<T(!new)>(p: T -> bool, q: T -> bool, s: seq<T>)
    ensures Filter(p, Filter(q, s)) == Filter(q, Filter(p, s))
  {
    if s != [] {
      FilterSwap(p, q, s[1..]);
    }
  }

  /** Filtering by a weaker test first changes nothing. */
  lemma {:induction false} FilterWeaker<T(!new)>(strong: T -> bool, weak: T -> bool, s: seq<T>)
    requires forall x :: x in s && strong(x) ==> weak(x)
    ensures Filter(strong, Filter(weak, s)) == Filter(strong, s)
  {
    if s != [] {
      FilterWeaker(strong, weak, s[1..]);
    }
  }

  // ---- ordered maps ----------------------------------------------------------

  predicate StrictlyAscending(s: seq<int>) {
    forall i, j :: 0 <= i < j < |s| ==> s[i] < s[j]
  }

  predicate IsLeast(k: int, keys: set<int>) {
    k in keys && forall j :: j in keys ==> k <= j
  }

  lemma {:induction false} LeastFrom(k: int, keys: set<int>)
    requires k in keys
    ensures exists m :: IsLeast(m, keys)
    decreases |keys|
  {
    if j :| j in keys && j < k {
      var rest := keys - {k};
      LeastFrom(j, rest);
      var m :| IsLeast(m, rest);
      forall x | x in keys ensures m <= x {
        assert m <= j && (x == k || x in rest);
      }
      assert IsLeast(m, keys);
    } else {
      assert IsLeast(k, keys);
    }
  }

  lemma LeastExists(keys: set<int>)
    ensures keys == {} || exists k :: IsLeast(k, keys)
  {
    if forall k :: k !in keys {
      assert keys == {};
    } else {
      var k :| k in keys;
      LeastFrom(k, keys);
    }
  }

  /** The order in which std::map visits its keys. */
  function Ascending(keys: set<int>): seq<int> {
    if keys == {} then []
    else
      LeastExists(keys);
      var k :| IsLeast(k, keys);
      [k] + Ascending(keys - {k})
  }

  lemma {:induction false} AscendingMembers(keys: set<int>)
    ensures forall k :: k in Ascending(keys) <==> k in keys
    ensures |Ascending(keys)| == |keys|
  {
    if keys != {} {
      LeastExists(keys);
      var k :| IsLeast(k, keys) && Ascending(keys) == [k] + Ascending(keys - {k});
      AscendingMembers(keys - {k});
    }
  }

  lemma {:induction false} AscendingOrder(keys: set<int>)
    ensures StrictlyAscending(Ascending(keys))
  {
    if keys != {} {
      LeastExists(keys);
      var k :| IsLeast(k, keys) && Ascending(keys) == [k] + Ascending(keys - {k});
      var tail := Ascending(keys - {k});
      AscendingOrder(keys - {k});
      AscendingMembers(keys - {k});
      forall i | 0 <= i < |tail| ensures k < tail[i] {
        assert tail[i] in tail;
      }
    }
  }

  lemma SubsetSize(a: set<int>, b: set<int>)
    requires a <= b
    ensures |a| <= |b|
  {
    assert b == a + (b - a);
  }

  lemma FewerKeys<V, W>(a: map<int, V>, b: map<int, W>)
    requires a.Keys <= b.Keys
    ensures |a| <= |b|
  {
    SubsetSize(a.Keys, b.Keys);
    assert |a.Keys| == |a| && |b.Keys| == |b|;
  }
}
