/** Order-preserving list operations with the semantics of Ruby's `Array`:
    `a - b` (Minus), `a & b` (Intersect), `map { }.flatten` (FlatMap),
    `select` (Filter) and `join` (Join). */
module Seqs {

  /** No element occurs twice. */
  predicate Distinct<T(==)>(s: seq<T>) {
    forall i, j :: 0 <= i < j < |s| ==> s[i] != s[j]
  }

  /** `sub` is `s` with some elements deleted and the rest in their original order. */
  predicate IsSubsequence<T(==)>(sub: seq<T>, s: seq<T>)
    decreases |s|
  {
    if |sub| == 0 then true
    else if |s| == 0 then false
    else if sub[0] == s[0] then IsSubsequence(sub[1..], s[1..])
    else IsSubsequence(sub, s[1..])
  }

  lemma {:induction false} SubsequenceMembers<T>(sub: seq<T>, s: seq<T>)
    requires IsSubsequence(sub, s)
    ensures forall x :: x in sub ==> x in s
    decreases |s|
  {
    if |sub| > 0 {
      if sub[0] == s[0] {
        SubsequenceMembers(sub[1..], s[1..]);
        assert sub == [sub[0]] + sub[1..];
      } else {
        SubsequenceMembers(sub, s[1..]);
      }
    }
  }

  /** A subsequence of a list without repetitions is fixed by the elements it
      keeps: the ordering ensures of Minus and Intersect therefore determine
      their results completely. */
  lemma {:induction false} SubsequenceDeterminedByMembers<T>(r1: seq<T>, r2: seq<T>, s: seq<T>)
    requires Distinct(s)
    requires IsSubsequence(r1, s) && IsSubsequence(r2, s)
    requires forall x :: x in r1 <==> x in r2
    ensures r1 == r2
    decreases |s|
  {
    if |s| == 0 {
      assert |r1| == 0 && |r2| == 0;
    } else {
      var s0 := s[0];
      var tail := s[1..];
      assert Distinct(tail) by {
        forall i, j | 0 <= i < j < |tail| ensures tail[i] != tail[j] {
          assert tail[i] == s[i + 1] && tail[j] == s[j + 1];
        }
      }
      assert s0 !in tail by {
        forall i | 0 <= i < |tail| ensures tail[i] != s0 {
          assert tail[i] == s[i + 1];
        }
      }
      if s0 in r1 {
        StartsWithHead(r1, s);
        StartsWithHead(r2, s);
        var t1, t2 := r1[1..], r2[1..];
        SubsequenceMembers(t1, tail);
        SubsequenceMembers(t2, tail);
        assert r1 == [s0] + t1 && r2 == [s0] + t2;
        forall x ensures x in t1 <==> x in t2 {
          if x in t1 {
            assert x in r2 && x != s0;
          }
          if x in t2 {
            assert x in r1 && x != s0;
          }
        }
        SubsequenceDeterminedByMembers(t1, t2, tail);
      } else {
        if |r1| > 0 {
          assert r1[0] in r1;
        }
        if |r2| > 0 {
          assert r2[0] in r2;
        }
        SubsequenceDeterminedByMembers(r1, r2, tail);
      }
    }
  }

  /** When the first element of a list without repetitions is kept, it comes first. */
  lemma {:induction false} StartsWithHead<T>(r: seq<T>, s: seq<T>)
    requires |s| > 0 && Distinct(s)
    requires IsSubsequence(r, s) && s[0] in r
    ensures |r| > 0 && r[0] == s[0] && IsSubsequence(r[1..], s[1..])
  {
    if r[0] != s[0] {
      SubsequenceMembers(r, s[1..]);
      assert false;
    }
  }

  /** Ruby `a - b`: the elements of `a` that do not occur in `b`, in `a`'s order,
      repetitions in `a` kept. */
  function Minus<T(==,!new)>(a: seq<T>, b: seq<T>): (r: seq<T>)
    ensures forall x :: x in r <==> x in a && x !in b
    ensures |r| <= |a|
  {
    if |a| == 0 then []
    else
      var rest := Minus(a[1..], b);
      assert a == [a[0]] + a[1..];
      if a[0] in b then rest else [a[0]] + rest
  }

  /** `a - b` keeps `a`'s order, and has no repetitions when `a` has none. */
  lemma {:induction false} MinusKeepsOrder<T(!new)>(a: seq<T>, b: seq<T>)
    ensures IsSubsequence(Minus(a, b), a)
    ensures Distinct(a) ==> Distinct(Minus(a, b))
  {
    if |a| > 0 {
      var rest := Minus(a[1..], b);
      MinusKeepsOrder(a[1..], b);
      if Distinct(a) {
        DistinctTail(a);
      }
      if a[0] in b {
        assert |rest| > 0 ==> rest[0] in rest;
      } else {
        var r := [a[0]] + rest;
        assert r[1..] == rest;
        if Distinct(a) {
          forall i, j | 0 <= i < j < |r| ensures r[i] != r[j] {
            if i == 0 {
              assert r[j] == rest[j - 1] && r[j] in rest;
            } else {
              assert r[i] == rest[i - 1] && r[j] == rest[j - 1];
            }
          }
        }
      }
    }
  }

  /** Nothing is left of `a - b` when every element of `a` occurs in `b`. */
  lemma MinusCovered<T(!new)>(a: seq<T>, b: seq<T>)
    requires forall x :: x in a ==> x in b
    ensures Minus(a, b) == []
  {
  }

  /** The tail of a list without repetitions has none, and lacks the head. */
  lemma DistinctTail<T>(a: seq<T>)
    requires |a| > 0 && Distinct(a)
    ensures a[0] !in a[1..] && Distinct(a[1..])
  {
    forall i | 0 <= i < |a[1..]| ensures a[1..][i] != a[0] {
      assert a[1..][i] == a[i + 1];
    }
    forall i, j | 0 <= i < j < |a[1..]| ensures a[1..][i] != a[1..][j] {
      assert a[1..][i] == a[i + 1] && a[1..][j] == a[j + 1];
    }
  }

  /** Ruby `a & b`: the elements of `a` that occur in `b` and not in `seen`, in
      `a`'s order, each kept at its first occurrence only. */
  function IntersectUnseen<T(==,!new)>(a: seq<T>, b: seq<T>, seen: set<T>): (r: seq<T>)
    ensures forall x :: x in r <==> x in a && x in b && x !in seen
    ensures Distinct(r)
  {
    if |a| == 0 then []
    else
      assert a == [a[0]] + a[1..];
      if a[0] in b && a[0] !in seen then
        [a[0]] + IntersectUnseen(a[1..], b, seen + {a[0]})
      else
        IntersectUnseen(a[1..], b, seen)
  }

  lemma {:induction false} IntersectUnseenKeepsOrder<T(!new)>(a: seq<T>, b: seq<T>, seen: set<T>)
    ensures IsSubsequence(IntersectUnseen(a, b, seen), a)
  {
    if |a| > 0 {
      if a[0] in b && a[0] !in seen {
        var rest := IntersectUnseen(a[1..], b, seen + {a[0]});
        IntersectUnseenKeepsOrder(a[1..], b, seen + {a[0]});
        assert ([a[0]] + rest)[1..] == rest;
      } else {
        var rest := IntersectUnseen(a[1..], b, seen);
        IntersectUnseenKeepsOrder(a[1..], b, seen);
        assert |rest| > 0 ==> rest[0] in rest;
      }
    }
  }

  /** Ruby `a & b`: the common elements, in `a`'s order, without repetitions. */
  function Intersect<T(==,!new)>(a: seq<T>, b: seq<T>): (r: seq<T>)
    ensures forall x :: x in r <==> x in a && x in b
    ensures Distinct(r)
  {
    IntersectUnseen(a, b, {})
  }

  /** `a & b` keeps `a`'s order. */
  lemma IntersectKeepsOrder<T(!new)>(a: seq<T>, b: seq<T>)
    ensures IsSubsequence(Intersect(a, b), a)
  {
    IntersectUnseenKeepsOrder(a, b, {});
  }

  /** Ruby `xs.map { |x| f(x) }`. */
  function Map<T, U>(xs: seq<T>, f: T -> U): (r: seq<U>)
    ensures |r| == |xs|
    ensures forall i :: 0 <= i < |xs| ==> r[i] == f(xs[i])
  {
    seq(|xs|, i requires 0 <= i < |xs| => f(xs[i]))
  }

  /** Ruby `xs.map { |x| f(x) }.flatten` where every block returns a list. */
  function FlatMap<T(!new), U(!new)>(xs: seq<T>, f: T -> seq<U>): (r: seq<U>)
    ensures forall u :: u in r <==> exists x :: x in xs && u in f(x)
    ensures (forall x :: x in xs ==> f(x) == []) ==> r == []
  {
    if |xs| == 0 then []
    else
      assert xs == [xs[0]] + xs[1..];
      f(xs[0]) + FlatMap(xs[1..], f)
  }

  /** Ruby `xs.select { |x| p(x) }`. */
  function Filter<T(==,!new)>(xs: seq<T>, p: T -> bool): (r: seq<T>)
    ensures forall x :: x in r <==> x in xs && p(x)
    ensures IsSubsequence(r, xs)
    ensures multiset(r) <= multiset(xs)
  {
    if |xs| == 0 then []
    else
      assert xs == [xs[0]] + xs[1..];
      var rest := Filter(xs[1..], p);
      if p(xs[0]) then [xs[0]] + rest
      else
        assert |rest| > 0 ==> rest[0] in rest;
        rest
  }

  /** Ruby `parts.join(sep)`. */
  function Join<T>(parts: seq<seq<T>>, sep: seq<T>): seq<T>
  {
    if |parts| == 0 then []
    else if |parts| == 1 then parts[0]
    else parts[0] + sep + Join(parts[1..], sep)
  }

  lemma JoinCons<T>(x: seq<T>, more: seq<seq<T>>, sep: seq<T>)
    requires |more| > 0
    ensures Join([x] + more, sep) == x + sep + Join(more, sep)
  {
    assert ([x] + more)[1..] == more;
  }

  lemma JoinOne<T>(x: seq<T>, sep: seq<T>)
    ensures Join([x], sep) == x
  {
  }
}
