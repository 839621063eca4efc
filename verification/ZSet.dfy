/**
 Sorted sets (t_zset.c): a hash table from members to scores beside a skiplist of the same elements. Every command keeps
 the two in agreement, so that the table says what the set is, and the list is its one sorted listing.
 */
module ZSet {
  import opened Bytes
  import opened ZSkiplist
  import SkiplistShape

  // ----- The list and the table

  /** The list holds exactly the elements of the table, each once. */
  ghost predicate Agree<T(!new)>(es: seq<Elem<T>>, dict: map<T, real>) {
    && DistinctObjs(es)
    && (forall k :: 0 <= k < |es| ==> es[k].obj in dict && dict[es[k].obj] == es[k].score)
    && (forall o :: o in dict ==> Elem(dict[o], o) in es)
  }

  /** Only one sorted list agrees with a table. */
  lemma ListIsDetermined<T(!new)>(cmp: (T, T) -> int, a: seq<Elem<T>>, b: seq<Elem<T>>, dict: map<T, real>)
    requires StrictOrder(cmp) && Sorted(cmp, a) && Sorted(cmp, b) && Agree(a, dict) && Agree(b, dict)
    ensures a == b
  {
    AgreeSize(a, dict);
    AgreeSize(b, dict);
    SamePrefix(cmp, a, b, dict, |a|);
    assert a[..|a|] == a && b[..|a|] == b;
  }

  lemma {:induction false} SamePrefix<T(!new)>(cmp: (T, T) -> int, a: seq<Elem<T>>, b: seq<Elem<T>>, dict: map<T, real>, i: nat)
    requires StrictOrder(cmp) && Sorted(cmp, a) && Sorted(cmp, b) && Agree(a, dict) && Agree(b, dict)
    requires i <= |a| == |b|
    ensures a[..i] == b[..i]
  {
    if i > 0 {
      SamePrefix(cmp, a, b, dict, i - 1);
      var n := i - 1;
      var j := NotBefore(cmp, a, b, dict, n);
      var k := NotBefore(cmp, b, a, dict, n);
      PrecedesTotal(cmp, a[n], b[n]);
      assert a[..i] == a[..n] + [a[n]] && b[..i] == b[..n] + [b[n]];
    }
  }

  /** Where an element of one list is in the other: not among the elements that are the same. */
  lemma NotBefore<T(!new)>(cmp: (T, T) -> int, a: seq<Elem<T>>, b: seq<Elem<T>>, dict: map<T, real>, n: nat) returns (j: nat)
    requires StrictOrder(cmp) && Sorted(cmp, a) && Sorted(cmp, b) && Agree(a, dict) && Agree(b, dict)
    requires n < |a| == |b| && a[..n] == b[..n]
    ensures n <= j < |b| && b[j] == a[n] && (j > n ==> Precedes(cmp, b[n], a[n]))
  {
    assert a[n] == Elem(dict[a[n].obj], a[n].obj);
    j :| 0 <= j < |b| && b[j] == a[n];
  }

  lemma {:induction false} AgreeSize<T(!new)>(es: seq<Elem<T>>, dict: map<T, real>)
    requires Agree(es, dict)
    ensures |es| == |dict|
    decreases |es|
  {
    if es == [] {
      assert forall o :: o !in dict;
      assert dict == map[];
    } else {
      var n := |es| - 1;
      var o := es[n].obj;
      DeleteAgree(es, dict, n);
      assert es[..n] + es[n + 1..] == es[..n];
      AgreeSize(es[..n], dict - {o});
      assert dict.Keys == (dict - {o}).Keys + {o} && |dict.Keys| == |dict| && |(dict - {o}).Keys| == |dict - {o}|;
    }
  }

  lemma InsertAgree<T(!new)>(es: seq<Elem<T>>, dict: map<T, real>, p: nat, score: real, obj: T)
    requires Agree(es, dict) && p <= |es| && obj !in dict
    ensures Agree(es[..p] + [Elem(score, obj)] + es[p..], dict[obj := score])
  {
    var es', dict' := es[..p] + [Elem(score, obj)] + es[p..], dict[obj := score];
    assert forall k :: 0 <= k < |es'| ==> es'[k] == if k < p then es[k] else if k == p then Elem(score, obj) else es[k - 1];
    forall o | o in dict' ensures Elem(dict'[o], o) in es' {
      if o == obj {
        assert es'[p] == Elem(dict'[o], o);
      } else {
        var k :| 0 <= k < |es| && es[k] == Elem(dict[o], o);
        assert es'[if k < p then k else k + 1] == es[k];
      }
    }
  }

  lemma DeleteAgree<T(!new)>(es: seq<Elem<T>>, dict: map<T, real>, p: nat)
    requires Agree(es, dict) && p < |es|
    ensures Agree(es[..p] + es[p + 1..], dict - {es[p].obj})
  {
    var es', dict' := es[..p] + es[p + 1..], dict - {es[p].obj};
    assert forall k :: 0 <= k < |es'| ==> es'[k] == es[if k < p then k else k + 1];
    forall o | o in dict' ensures Elem(dict'[o], o) in es' {
      var k :| 0 <= k < |es| && es[k] == Elem(dict[o], o);
      assert es'[if k < p then k else k - 1] == es[k];
    }
  }

  /** Taking a slice out of both. */
  lemma TakenOutAgree<T(!new)>(es: seq<Elem<T>>, now: seq<Elem<T>>, dict: map<T, real>, dict': map<T, real>, lo: nat, n: nat)
    requires Agree(es, dict) && TakenOut(es, now, dict, dict', lo, n)
    ensures Agree(now, dict') && |dict'| == |dict| - n
  {
    hide *;
    TakenOutIs(es, now, dict, dict', lo, n);
    WithoutAgrees(es, dict, lo, n);
    AgreeSize(es, dict);
    AgreeSize(now, dict');
  }

  /** A slice, and what is left without it, by positions. */
  lemma WithoutAt<T>(es: seq<Elem<T>>, lo: nat, n: nat)
    requires lo + n <= |es|
    ensures |Without(es, lo, n)| == |es| - n
    ensures forall k :: 0 <= k < |es| - n ==> Without(es, lo, n)[k] == es[if k < lo then k else k + n]
    ensures forall k :: 0 <= k < |es| && !(lo <= k < lo + n) ==> es[k] in Without(es, lo, n)
  {
    forall k | 0 <= k < |es| && !(lo <= k < lo + n) ensures es[k] in Without(es, lo, n) {
      assert Without(es, lo, n)[if k < lo then k else k - n] == es[k];
    }
  }

  lemma WithoutAgrees<T(!new)>(es: seq<Elem<T>>, dict: map<T, real>, lo: nat, n: nat)
    requires Agree(es, dict) && lo + n <= |es|
    ensures Agree(Without(es, lo, n), dict - Objs(es[lo..lo + n]))
  {
    hide Without, Objs;
    WithoutAt(es, lo, n);
    SliceGone(es, dict, lo, n);
    var now, dict' := Without(es, lo, n), dict - Objs(es[lo..lo + n]);
    forall k | 0 <= k < |now| ensures now[k].obj in dict' && dict'[now[k].obj] == now[k].score {
      assert es[if k < lo then k else k + n].obj in dict';
    }
    forall o | o in dict' ensures Elem(dict'[o], o) in now {
      var k :| 0 <= k < |es| && es[k] == Elem(dict[o], o);
    }
  }

  /** An element of the list is found through the table. */
  lemma InTable<T(!new)>(es: seq<Elem<T>>, dict: map<T, real>)
    requires Agree(es, dict)
    ensures forall e :: e in es <==> e.obj in dict && dict[e.obj] == e.score
    ensures |es| == |dict|
  {
    AgreeSize(es, dict);
  }

  /** The objects of a slice, when the slice is what has scores in a range. */
  lemma SliceInRange<T(!new)>(es: seq<Elem<T>>, dict: map<T, real>, lo: nat, n: nat, range: Range)
    requires Agree(es, dict) && lo + n <= |es|
    requires forall k :: 0 <= k < |es| ==> (InRange(es[k].score, range) <==> lo <= k < lo + n)
    ensures dict - Objs(es[lo..lo + n]) == map o | o in dict && !InRange(dict[o], range) :: dict[o]
  {
    forall o | o in dict ensures o in Objs(es[lo..lo + n]) <==> InRange(dict[o], range) {
      var k :| 0 <= k < |es| && es[k] == Elem(dict[o], o);
      if lo <= k < lo + n {
        assert es[lo..lo + n][k - lo] == es[k];
      }
      if o in Objs(es[lo..lo + n]) {
        var e :| e in es[lo..lo + n] && e.obj == o;
        var j :| lo <= j < lo + n && es[j] == e;
      }
    }
  }

  /** What ZADD makes of a set: later elements win. */
  function AddAll<T>(dict: map<T, real>, elements: seq<Elem<T>>): map<T, real> {
    if elements == [] then dict
    else AddAll(dict, elements[..|elements| - 1])[elements[|elements| - 1].obj := elements[|elements| - 1].score]
  }

  lemma AddNone<T>(dict: map<T, real>, elements: seq<Elem<T>>)
    ensures AddAll(dict, elements[..0]) == dict
  {}

  lemma AddAllNext<T>(dict: map<T, real>, elements: seq<Elem<T>>, j: nat)
    requires j < |elements|
    ensures AddAll(dict, elements[..j + 1]) == AddAll(dict, elements[..j])[elements[j].obj := elements[j].score]
  {
    assert elements[..j + 1][..j] == elements[..j];
  }

  lemma OneMore<T>(dict: map<T, real>, o: T, score: real)
    ensures |dict[o := score]| == |dict| + if o in dict then 0 else 1
  {
    var dict' := dict[o := score];
    assert dict'.Keys == dict.Keys + {o} && |dict'.Keys| == |dict'| && |dict.Keys| == |dict|;
  }

  lemma OneLess<T>(dict: map<T, real>, o: T)
    requires o in dict
    ensures |dict - {o}| == |dict| - 1
  {
    assert dict.Keys == (dict - {o}).Keys + {o} && |(dict - {o}).Keys| == |dict - {o}| && |dict.Keys| == |dict|;
  }

  /** What ZREM leaves of a set. */
  function Rest<T(==)>(dict: map<T, real>, objs: seq<T>): map<T, real> {
    map o | o in dict && o !in objs :: dict[o]
  }

  lemma RestNone<T>(dict: map<T, real>, objs: seq<T>)
    ensures Rest(dict, objs[..0]) == dict && objs[..|objs|] == objs
  {}

  lemma RestNext<T>(dict: map<T, real>, objs: seq<T>, j: nat)
    requires j < |objs|
    ensures Rest(dict, objs[..j + 1]) == Rest(dict, objs[..j]) - {objs[j]}
  {
    assert objs[..j + 1] == objs[..j] + [objs[j]];
  }

  lemma NothingLeft<T>(dict: map<T, real>, objs: seq<T>, j: nat)
    requires j <= |objs| && |Rest(dict, objs[..j])| == 0
    ensures Rest(dict, objs) == Rest(dict, objs[..j])
  {
    assert Rest(dict, objs[..j]) == map[];
    forall o | o in dict ensures o in objs {
      assert o !in Rest(dict, objs[..j]);
    }
  }

  /** The positions that ZREMRANGEBYRANK means: indexes from the end are negative. */
  function FromEnd(i: int, n: nat): int {
    if i < 0 then n + i else i
  }

  // ----- The commands

  class SortedSet<T(==, !new)> {
    const zsl: Skiplist<T>
    var dict: map<T, real>

    ghost predicate Valid()
      reads this, zsl, zsl.nodes
    {
      zsl.Valid() && Agree(zsl.Contents(), dict)
    }

    lemma ValidIs()
      ensures Valid() <==> zsl.Valid() && Agree(zsl.Contents(), dict)
    {}

    /** createZsetObject. */
    constructor (cmp: (T, T) -> int)
      requires StrictOrder(cmp)
      ensures Valid() && dict == map[] && zsl.cmp == cmp && fresh(zsl) && fresh(zsl.nodes)
    {
      zsl := new Skiplist(cmp);
      dict := map[];
    }

    /** zslInsert and dictAdd, or the new score of an entry that is kept. */
    method Put(score: real, ele: T, h: nat)
      requires zsl.Valid() && Agree(zsl.Contents(), dict - {ele}) && 1 <= h <= ZSKIPLIST_MAXLEVEL
      modifies this, zsl, zsl.nodes
      ensures Valid() && dict == old(dict)[ele := score]
      ensures forall k :: 0 <= k < |zsl.nodes| ==> zsl.nodes[k] in old(zsl.nodes) || fresh(zsl.nodes[k])
    {
      hide *;
      ghost var es, rest := zsl.Contents(), dict - {ele};
      InTable(es, rest);
      ghost var x, p := zsl.Insert(score, ele, h);
      InsertAgree(es, rest, p, score, ele);
      assert rest[ele := score] == dict[ele := score];
      dict := dict[ele := score];
      InsSubset(old(zsl.nodes), p, x);
      ValidIs();
    }

    lemma InsSubset(ns: seq<Node<T>>, p: nat, x: Node<T>)
      requires p < |ns|
      ensures forall k :: 0 <= k < |SkiplistShape.Ins(ns, p, x)| ==> SkiplistShape.Ins(ns, p, x)[k] in ns || SkiplistShape.Ins(ns, p, x)[k] == x
    {}

    /** zslDelete of an element whose score the table knows: it always is there. */
    method Take(score: real, ele: T)
      requires Valid() && ele in dict && dict[ele] == score
      modifies zsl, zsl.nodes
      ensures zsl.Valid() && Agree(zsl.Contents(), dict - {ele})
      ensures forall k :: 0 <= k < |zsl.nodes| ==> zsl.nodes[k] in old(zsl.nodes)
    {
      hide *;
      ValidIs();
      ghost var es := zsl.Contents();
      InTable(es, dict);
      assert Elem(score, ele) in es;
      var found := zsl.Delete(score, ele);
      assert found;
      ghost var p :| 0 <= p < |es| && es[p] == Elem(score, ele) && zsl.Contents() == es[..p] + es[p + 1..];
      DeleteAgree(es, dict, p);
    }

    /** One element of zaddGenericCommand; with `incr` the score is an increment. */
    method ZaddOne(score0: real, ele: T, incr: bool, h: nat) returns (added: bool, score: real)
      requires Valid() && 1 <= h <= ZSKIPLIST_MAXLEVEL
      modifies this, zsl, zsl.nodes
      ensures Valid() && dict == old(dict)[ele := score] && (added <==> ele !in old(dict))
      ensures score == if incr && ele in old(dict) then score0 + old(dict)[ele] else score0
      ensures forall k :: 0 <= k < |zsl.nodes| ==> zsl.nodes[k] in old(zsl.nodes) || fresh(zsl.nodes[k])
    {
      hide *;
      ValidIs();
      score, added := score0, ele !in dict;
      if ele in dict {
        var curscore := dict[ele];
        if incr {
          score := score + curscore;
        }
        if score != curscore {
          Take(curscore, ele);
          Put(score, ele, h);
        }
      } else {
        assert dict - {ele} == dict;
        Put(score, ele, h);
      }
    }

    /** ZADD: the answer is how many elements are new. */
    method Zadd(elements: seq<Elem<T>>, heights: seq<nat>) returns (added: nat)
      requires Valid() && |heights| == |elements| && forall j :: 0 <= j < |heights| ==> 1 <= heights[j] <= ZSKIPLIST_MAXLEVEL
      modifies this, zsl, zsl.nodes
      ensures Valid() && dict == AddAll(old(dict), elements) && added == |dict| - |old(dict)|
    {
      hide *;
      AddNone(dict, elements);
      added := 0;
      var j := 0;
      while j < |elements|
        invariant 0 <= j <= |elements| && Valid() && dict == AddAll(old(dict), elements[..j])
        invariant added == |dict| - |old(dict)|
        invariant forall k :: 0 <= k < |zsl.nodes| ==> zsl.nodes[k] in old(zsl.nodes) || fresh(zsl.nodes[k])
      {
        AddAllNext(old(dict), elements, j);
        OneMore(dict, elements[j].obj, elements[j].score);
        var isNew, score := ZaddOne(elements[j].score, elements[j].obj, false, heights[j]);
        if isNew {
          added := added + 1;
        }
        j := j + 1;
      }
      assert elements[..j] == elements;
    }

    /** One element of zremCommand. */
    method ZremOne(ele: T) returns (deleted: bool)
      requires Valid()
      modifies this, zsl, zsl.nodes
      ensures Valid() && dict == old(dict) - {ele} && (deleted <==> ele in old(dict))
      ensures |dict| == |old(dict)| - if deleted then 1 else 0
      ensures forall k :: 0 <= k < |zsl.nodes| ==> zsl.nodes[k] in old(zsl.nodes)
    {
      hide *;
      ValidIs();
      deleted := ele in dict;
      if deleted {
        OneLess(dict, ele);
        Take(dict[ele], ele);
        dict := dict - {ele};
        ValidIs();
      } else {
        assert dict - {ele} == dict;
      }
    }

    /** ZREM: the answer is how many were there; when the set is empty it goes away at once. */
    method Zrem(objs: seq<T>) returns (deleted: nat)
      requires Valid()
      modifies this, zsl, zsl.nodes
      ensures Valid() && dict == Rest(old(dict), objs) && deleted == |old(dict)| - |dict|
    {
      hide *;
      deleted := 0;
      var j := 0;
      RestNone(dict, objs);
      while j < |objs|
        invariant 0 <= j <= |objs| && Valid() && dict == Rest(old(dict), objs[..j])
        invariant deleted == |old(dict)| - |dict|
        invariant forall k :: 0 <= k < |zsl.nodes| ==> zsl.nodes[k] in old(zsl.nodes)
      {
        RestNext(old(dict), objs, j);
        var was := ZremOne(objs[j]);
        j := j + 1;
        if was {
          deleted := deleted + 1;
          if |dict| == 0 {
            NothingLeft(old(dict), objs, j);
            return;
          }
        }
      }
    }

    /** ZREMRANGEBYSCORE. */
    method ZremRangeByScore(range: Range) returns (deleted: nat)
      requires Valid()
      modifies this, zsl, zsl.nodes
      ensures Valid() && dict == (map o | o in old(dict) && !InRange(old(dict)[o], range) :: old(dict)[o])
      ensures deleted == |old(dict)| - |dict|
    {
      hide *;
      ValidIs();
      ghost var es, d := zsl.Contents(), dict;
      deleted, dict := zsl.DeleteRangeByScore(range, dict);
      ghost var lo :| 0 <= lo && TakenOut(es, zsl.Contents(), d, dict, lo, deleted)
                      && forall k :: 0 <= k < |es| ==> (InRange(es[k].score, range) <==> lo <= k < lo + deleted);
      TakenOutIs(es, zsl.Contents(), d, dict, lo, deleted);
      SliceInRange(es, d, lo, deleted, range);
      TakenOutAgree(es, zsl.Contents(), d, dict, lo, deleted);
      ValidIs();
    }

    /** ZREMRANGEBYRANK, with 0-based positions, negative from the end. */
    method ZremRangeByRank(start0: int, end0: int) returns (deleted: nat)
      requires Valid()
      modifies this, zsl, zsl.nodes
      ensures Valid() && deleted == |old(dict)| - |dict|
      ensures var n, es := |old(dict)|, old(zsl.Contents());
              && |es| == n
              && forall k :: 0 <= k < n ==> (es[k].obj !in dict <==> FromEnd(start0, n) <= k <= FromEnd(end0, n))
      ensures forall o :: o in dict ==> o in old(dict) && dict[o] == old(dict)[o]
    {
      hide *;
      ValidIs();
      FromEndIs();
      ghost var es, d := zsl.Contents(), dict;
      InTable(es, dict);
      LengthIs();
      var llen := zsl.length;
      var start := if start0 < 0 then llen + start0 else start0;
      var end := if end0 < 0 then llen + end0 else end0;
      start := if start < 0 then 0 else start;
      if start > end || start >= llen {
        AllThere(es, dict);
        return 0;
      }
      end := if end >= llen then llen - 1 else end;
      deleted, dict := zsl.DeleteRangeByRank(start + 1, end + 1, dict);
      PositionsAre(start + 1, end + 1, |es|);
      TakenOutIs(es, zsl.Contents(), d, dict, start, deleted);
      TakenOutAgree(es, zsl.Contents(), d, dict, start, deleted);
      SliceGone(es, d, start, deleted);
      ValidIs();
    }

    lemma LengthIs()
      requires zsl.Valid()
      ensures zsl.length == |zsl.Contents()|
    {}

    /** ZRANK and ZREVRANK: an element that is there always has a rank. */
    method Zrank(ele: T, reverse: bool) returns (rank: Option<nat>)
      requires Valid()
      ensures rank == None <==> ele !in dict
      ensures rank.Some? ==> rank.value < zsl.length == |dict|
      ensures rank.Some? ==> zsl.Contents()[if reverse then zsl.length - 1 - rank.value else rank.value] == Elem(dict[ele], ele)
    {
      hide *;
      ValidIs();
      LengthIs();
      if ele !in dict {
        return None;
      }
      AgreeDistinct(zsl.Contents(), dict);
      InTable(zsl.Contents(), dict);
      var score := dict[ele];
      assert Elem(score, ele) in zsl.Contents();
      ghost var k :| 0 <= k < zsl.length && zsl.Contents()[k] == Elem(score, ele);
      var r; ghost var p;
      r, p := zsl.GetRank(score, ele);
      assert zsl.Contents()[k] == Elem(score, ele) && r == k + 1;
      return Some(if reverse then zsl.length - r else r - 1);
    }
  }

  lemma AgreeDistinct<T(!new)>(es: seq<Elem<T>>, dict: map<T, real>)
    requires Agree(es, dict)
    ensures DistinctObjs(es)
  {}

  lemma FromEndIs()
    ensures forall i: int, n: nat :: FromEnd(i, n) == if i < 0 then n + i else i
  {}

  lemma PositionsAre(start: nat, end: nat, n: nat)
    requires 0 < start <= end <= n
    ensures FirstIndex(start, n) == start - 1 && CountRanks(start, end, n) == end - start + 1
  {}

  lemma AllThere<T(!new)>(es: seq<Elem<T>>, dict: map<T, real>)
    requires Agree(es, dict)
    ensures forall k :: 0 <= k < |es| ==> es[k].obj in dict
  {}

  lemma SliceGone<T(!new)>(es: seq<Elem<T>>, dict: map<T, real>, lo: nat, n: nat)
    requires Agree(es, dict) && lo + n <= |es|
    ensures forall k :: 0 <= k < |es| ==> (es[k].obj !in dict - Objs(es[lo..lo + n]) <==> lo <= k < lo + n)
  {
    forall k | 0 <= k < |es| ensures es[k].obj !in dict - Objs(es[lo..lo + n]) <==> lo <= k < lo + n {
      if lo <= k < lo + n {
        assert es[lo..lo + n][k - lo] == es[k];
      }
      if es[k].obj in Objs(es[lo..lo + n]) {
        var e :| e in es[lo..lo + n] && e.obj == es[k].obj;
        var j :| lo <= j < lo + n && es[j] == e;
      }
    }
  }
}
