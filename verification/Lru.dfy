/**
 The `lru` crate's `LruCache`, as a sequence of key and value pairs, most recently used first.
 */
module Lru {
  import opened Basics

  ghost predicate Distinct<K(!new), V(!new)>(l: seq<(K, V)>) {
    forall i, j | 0 <= i < j < |l| :: l[i].0 != l[j].0
  }

  ghost predicate Holds<K(!new), V(!new)>(l: seq<(K, V)>, k: K) {
    exists i | 0 <= i < |l| :: l[i].0 == k
  }

  /** `peek`: the value of a key, without touching the order. */
  function Find<K(==,!new), V(!new)>(l: seq<(K, V)>, k: K): (r: Option<V>)
    ensures r.Some? <==> Holds(l, k)
    ensures r.Some? ==> (k, r.value) in l
  {
    if l == [] then None
    else if l[0].0 == k then Some(l[0].1)
    else
      assert Holds(l, k) <==> Holds(l[1..], k) by {
        if Holds(l, k) {
          var i :| 0 <= i < |l| && l[i].0 == k;
          assert l[1..][i - 1].0 == k;
        }
        if Holds(l[1..], k) {
          var i :| 0 <= i < |l[1..]| && l[1..][i].0 == k;
          assert l[i + 1].0 == k;
        }
      }
      Find(l[1..], k)
  }

  /** `pop`: everything but the key, in the same order. */
  function Without<K(==,!new), V(!new)>(l: seq<(K, V)>, k: K): (r: seq<(K, V)>)
    ensures |r| <= |l|
    ensures forall p :: p in r <==> p in l && p.0 != k
  {
    if l == [] then []
    else if l[0].0 == k then Without(l[1..], k)
    else [l[0]] + Without(l[1..], k)
  }

  /** `get`: the key becomes the most recently used one. */
  function Promote<K(==,!new), V(!new)>(l: seq<(K, V)>, k: K): seq<(K, V)> {
    match Find(l, k)
    case None => l
    case Some(v) => [(k, v)] + Without(l, k)
  }

  /** `put` on a cache of capacity `cap`: an update moves the key to the front, an insertion into a full cache drops the last pair. */
  function Put<K(==,!new), V(!new)>(l: seq<(K, V)>, cap: nat, k: K, v: V): seq<(K, V)> {
    if Find(l, k).Some? then [(k, v)] + Without(l, k)
    else if |l| >= cap && l != [] then [(k, v)] + l[..|l| - 1]
    else [(k, v)] + l
  }

  lemma DistinctFind<K(!new), V(!new)>(l: seq<(K, V)>, i: nat)
    requires Distinct(l) && i < |l|
    ensures Find(l, l[i].0) == Some(l[i].1)
  {
    assert Holds(l, l[i].0);
    var v := Find(l, l[i].0).value;
    var j :| 0 <= j < |l| && l[j] == (l[i].0, v);
  }

  /** In a list of distinct keys, looking up and occurring are the same. */
  lemma FindIn<K(!new), V(!new)>(l: seq<(K, V)>, k: K, v: V)
    requires Distinct(l)
    ensures Find(l, k) == Some(v) <==> (k, v) in l
  {
    if (k, v) in l {
      var i :| 0 <= i < |l| && l[i] == (k, v);
      DistinctFind(l, i);
    }
  }

  lemma {:induction false} WithoutDistinct<K(!new), V(!new)>(l: seq<(K, V)>, k: K)
    requires Distinct(l)
    ensures Distinct(Without(l, k))
    ensures Find(l, k).None? ==> Without(l, k) == l
    ensures Find(l, k).Some? ==> |Without(l, k)| == |l| - 1
  {
    if l != [] {
      var t := l[1..];
      assert Distinct(t);
      WithoutDistinct(t, k);
      if l[0].0 == k {
        forall i | 0 <= i < |t| ensures t[i].0 != k {
          assert t[i] == l[i + 1];
        }
        assert Find(t, k).None?;
      } else {
        var r := Without(t, k);
        forall i | 0 <= i < |r| ensures r[i].0 != l[0].0 {
          assert r[i] in t;
          var j :| 0 <= j < |t| && t[j] == r[i];
          assert l[j + 1].0 == r[i].0;
        }
      }
    }
  }

  lemma ConsDistinct<K(!new), V(!new)>(l: seq<(K, V)>, k: K, v: V)
    requires Distinct(l) && !Holds(l, k)
    ensures Distinct([(k, v)] + l)
  {
  }

  lemma PushFrontDistinct<K(!new), V(!new)>(l: seq<(K, V)>, k: K, v: V)
    requires Distinct(l)
    ensures Distinct([(k, v)] + Without(l, k))
  {
    WithoutDistinct(l, k);
    var r := Without(l, k);
    forall i | 0 <= i < |r| ensures r[i].0 != k {
      assert r[i] in r;
    }
  }

  lemma PrefixDistinct<K(!new), V(!new)>(l: seq<(K, V)>, n: nat)
    requires Distinct(l) && n <= |l|
    ensures Distinct(l[..n])
  {
  }

  lemma CutConcat<T>(x: T, t: seq<T>, i: nat)
    requires 0 < i <= |t|
    ensures ([x] + t)[..i] + ([x] + t)[i + 1..] == [x] + (t[..i - 1] + t[i..])
  {
  }

  /** `pop` cuts out the pair of the key, wherever it stands. */
  lemma {:induction false} WithoutIsCut<K(!new), V(!new)>(l: seq<(K, V)>, k: K, i: nat)
    requires Distinct(l) && i < |l| && l[i].0 == k
    ensures Without(l, k) == l[..i] + l[i + 1..]
  {
    var t := l[1..];
    assert Distinct(t) && l == [l[0]] + t;
    if i == 0 {
      forall j | 0 <= j < |t| ensures t[j].0 != k {
        assert t[j] == l[j + 1];
      }
      WithoutDistinct(t, k);
      assert l[..0] + l[1..] == t;
    } else {
      WithoutIsCut(t, k, i - 1);
      CutConcat(l[0], t, i);
    }
  }

  /** `get` takes the pair of the key to the front and leaves the order of the others. */
  lemma PromoteMoves<K(!new), V(!new)>(l: seq<(K, V)>, k: K, i: nat)
    requires Distinct(l) && i < |l| && l[i].0 == k
    ensures Promote(l, k) == [l[i]] + l[..i] + l[i + 1..]
  {
    DistinctFind(l, i);
    WithoutIsCut(l, k, i);
    assert [l[i]] + (l[..i] + l[i + 1..]) == [l[i]] + l[..i] + l[i + 1..];
  }

  /** `get` of a key that is not there changes nothing. */
  lemma PromoteMisses<K(!new), V(!new)>(l: seq<(K, V)>, k: K)
    requires forall i | 0 <= i < |l| :: l[i].0 != k
    ensures Promote(l, k) == l && Find(l, k).None?
  {
    assert !Holds(l, k);
  }

  /** `put` of a key that is there sets its new pair in front and takes the old one out. */
  lemma PutReplaces<K(!new), V(!new)>(l: seq<(K, V)>, cap: nat, k: K, v: V, i: nat)
    requires Distinct(l) && i < |l| && l[i].0 == k
    ensures Put(l, cap, k, v) == [(k, v)] + l[..i] + l[i + 1..]
  {
    DistinctFind(l, i);
    WithoutIsCut(l, k, i);
    assert [(k, v)] + (l[..i] + l[i + 1..]) == [(k, v)] + l[..i] + l[i + 1..];
  }

  /** `put` of a new key sets its pair in front, and drops the last one of a full cache. */
  lemma PutAdds<K(!new), V(!new)>(l: seq<(K, V)>, cap: nat, k: K, v: V)
    requires 0 < cap && |l| <= cap && forall i | 0 <= i < |l| :: l[i].0 != k
    ensures Put(l, cap, k, v) == [(k, v)] + (if |l| == cap then l[..cap - 1] else l)
  {
    assert !Holds(l, k);
  }

  /** `get` keeps exactly the pairs it found, and the keys distinct. */
  lemma PromoteKeeps<K(!new), V(!new)>(l: seq<(K, V)>, k: K)
    requires Distinct(l)
    ensures Distinct(Promote(l, k)) && |Promote(l, k)| == |l|
    ensures forall p :: p in Promote(l, k) <==> p in l
    ensures Find(l, k).Some? ==> Promote(l, k)[0] == (k, Find(l, k).value)
  {
    WithoutDistinct(l, k);
    if Find(l, k).Some? {
      var v := Find(l, k).value;
      PushFrontDistinct(l, k, v);
      forall p | p in l ensures p in Promote(l, k) {
        if p.0 == k {
          FindIn(l, k, p.1);
        }
      }
    }
  }

  /** `put` keeps the keys distinct and the size within the capacity, and only drops or replaces pairs. */
  lemma PutKeeps<K(!new), V(!new)>(l: seq<(K, V)>, cap: nat, k: K, v: V)
    requires Distinct(l) && 0 < cap && |l| <= cap
    ensures Distinct(Put(l, cap, k, v)) && |Put(l, cap, k, v)| <= cap
    ensures Find(Put(l, cap, k, v), k) == Some(v)
    ensures forall p | p in Put(l, cap, k, v) :: p == (k, v) || (p in l && p.0 != k)
  {
    if Find(l, k).Some? {
      WithoutDistinct(l, k);
      PushFrontDistinct(l, k, v);
    } else {
      var r := if |l| >= cap then l[..|l| - 1] else l;
      PrefixDistinct(l, |r|);
      PrefixMisses(l, k, |r|);
      ConsDistinct(r, k, v);
      assert Put(l, cap, k, v) == [(k, v)] + r;
      hide Put;
      hide Find;
    }
  }

  /** A key that is not there is not in any beginning of the list. */
  lemma PrefixMisses<K(!new), V(!new)>(l: seq<(K, V)>, k: K, n: nat)
    requires Find(l, k).None? && n <= |l|
    ensures Find(l[..n], k).None? && forall p | p in l[..n] :: p in l && p.0 != k
  {
    hide Find;
    forall i | 0 <= i < n ensures l[..n][i].0 != k {
      assert !Holds(l, k) && l[..n][i] == l[i];
    }
  }

  lemma DropFirst<T>(x: T, l: seq<T>, i: nat)
    requires i < |l|
    ensures ([x] + l[..i] + l[i + 1..])[..0] + ([x] + l[..i] + l[i + 1..])[1..] == l[..i] + l[i + 1..]
  {
  }

  /** `get` and then `pop` take the pair out. */
  lemma PromoteThenPop<K(!new), V(!new)>(l: seq<(K, V)>, k: K, i: nat)
    requires Distinct(l) && i < |l| && l[i].0 == k
    ensures Without(Promote(l, k), k) == l[..i] + l[i + 1..]
  {
    PromoteMoves(l, k, i);
    PromoteKeeps(l, k);
    var m := Promote(l, k);
    assert m[0].0 == k;
    hide Promote;
    WithoutIsCut(m, k, 0);
    hide Without;
    DropFirst(l[i], l, i);
  }
}
