/**
 ZUNIONSTORE and ZINTERSTORE (t_zset.c), in exact arithmetic: the sources are sorted by size, may repeat, and only
 later ones are searched for a member; the result is nevertheless the aggregate over all sources that hold it.
 */
module Zunion {
  import opened Bytes

  type Key = seq<byte>
  type Member = seq<byte>

  datatype Obj = ZSetObj(z: map<Member, real>) | SetObj(m: set<Member>) | OtherObj

  datatype Aggregate = Sum | Min | Max

  datatype Op = Union | Inter

  /** A source: the object read, its members with their scores, and its weight. A key that does not exist is empty. */
  datatype Src = Src(subject: Option<Key>, members: map<Member, real>, weight: real)

  // ----- Aggregates

  /** zunionInterAggregate. */
  function Combine(a: Aggregate, target: real, val: real): real {
    match a
    case Sum => target + val
    case Min => if val < target then val else target
    case Max => if val > target then val else target
  }

  /** The aggregate of some values, from the left. */
  function Total(a: Aggregate, xs: seq<real>): real
    requires xs != []
  {
    if |xs| == 1 then xs[0] else Combine(a, Total(a, xs[..|xs| - 1]), xs[|xs| - 1])
  }

  lemma CombineLaws(a: Aggregate, x: real, y: real, z: real)
    ensures Combine(a, x, y) == Combine(a, y, x)
    ensures Combine(a, Combine(a, x, y), z) == Combine(a, x, Combine(a, y, z))
  {}

  function Without<T>(xs: seq<T>, i: nat): (r: seq<T>)
    requires i < |xs|
    ensures |r| == |xs| - 1 && multiset(r) == multiset(xs) - multiset{xs[i]}
  {
    assert xs == xs[..i] + [xs[i]] + xs[i + 1..];
    xs[..i] + xs[i + 1..]
  }

  lemma TotalMore(a: Aggregate, xs: seq<real>, x: real)
    requires xs != []
    ensures Total(a, xs + [x]) == Combine(a, Total(a, xs), x)
  {
    assert (xs + [x])[..|xs|] == xs;
  }

  /** Any of the values may be taken last. */
  lemma {:induction false} TakeLast(a: Aggregate, xs: seq<real>, i: nat)
    requires |xs| > 1 && i < |xs|
    ensures Total(a, xs) == Combine(a, Total(a, Without(xs, i)), xs[i])
    decreases |xs|
  {
    hide Combine, Without;
    var n := |xs| - 1;
    var most, last := xs[..n], xs[n];
    WithoutLast(xs, i);
    if i != n {
      if n == 1 {
        CombineLaws(a, xs[0], last, last);
      } else {
        TakeLast(a, most, i);
        TotalMore(a, Without(most, i), last);
        var t := Total(a, Without(most, i));
        CombineLaws(a, t, xs[i], last);
        CombineLaws(a, xs[i], last, last);
        CombineLaws(a, t, last, xs[i]);
      }
    }
  }

  lemma WithoutLast<T>(xs: seq<T>, i: nat)
    requires |xs| > 1 && i < |xs|
    ensures var n := |xs| - 1;
            && (i == n ==> Without(xs, i) == xs[..n])
            && (i < n ==> Without(xs, i) == Without(xs[..n], i) + [xs[n]])
            && (n == 1 && i == 0 ==> Without(xs, i) == [xs[1]] && xs[..n] == [xs[0]])
  {
    var n := |xs| - 1;
    if i < n {
      assert xs[i + 1..] == xs[..n][i + 1..] + [xs[n]];
    }
  }

  /** The aggregate does not depend on the order of the values. */
  lemma {:induction false} TotalPermuted(a: Aggregate, xs: seq<real>, ys: seq<real>)
    requires multiset(xs) == multiset(ys) && xs != [] && ys != []
    ensures Total(a, xs) == Total(a, ys)
    decreases |xs|
  {
    assert |multiset(xs)| == |xs| && |multiset(ys)| == |ys|;
    var n := |xs| - 1;
    var last := xs[n];
    assert last in multiset(ys);
    var i :| 0 <= i < |ys| && ys[i] == last;
    assert xs == xs[..n] + [last];
    if n > 0 {
      TakeLast(a, ys, i);
      TotalPermuted(a, xs[..n], Without(ys, i));
    }
  }

  // ----- What the sources hold

  function Weighted(s: Src, score: real): real {
    s.weight * score
  }

  /** The weighted score of a member in one source, if it holds it. */
  function One(s: Src, m: Member): (r: seq<real>)
    ensures |r| == if m in s.members then 1 else 0
  {
    if m in s.members then [Weighted(s, s.members[m])] else []
  }

  /** The weighted scores of a member in the sources that hold it. */
  function Scores(src: seq<Src>, m: Member): seq<real> {
    if src == [] then [] else Scores(src[..|src| - 1], m) + One(src[|src| - 1], m)
  }

  lemma {:induction false} ScoresAppend(a: seq<Src>, b: seq<Src>, m: Member)
    ensures Scores(a + b, m) == Scores(a, m) + Scores(b, m)
  {
    hide One;
    if b == [] {
      assert a + b == a;
      assert Scores(a, m) + [] == Scores(a, m);
    } else {
      var n := |b| - 1;
      assert (a + b)[..|a + b| - 1] == a + b[..n];
      ScoresAppend(a, b[..n], m);
      Assoc(Scores(a, m), Scores(b[..n], m), One(b[n], m));
    }
  }

  lemma ScoresOne(s: Src, m: Member)
    ensures Scores([s], m) == One(s, m)
  {
    hide One;
    assert [s][..0] == [];
    assert [] + One(s, m) == One(s, m);
  }

  lemma {:induction false} ScoresEmpty(src: seq<Src>, m: Member)
    ensures Scores(src, m) == [] <==> forall i :: 0 <= i < |src| ==> m !in src[i].members
    ensures |Scores(src, m)| == |src| <==> forall i :: 0 <= i < |src| ==> m in src[i].members
    ensures |Scores(src, m)| <= |src|
  {
    if src != [] {
      ScoresEmpty(src[..|src| - 1], m);
    }
  }

  /** Sorting the sources changes the order of a member's scores at most. */
  lemma {:induction false} ScoresPermuted(a: seq<Src>, b: seq<Src>, m: Member)
    requires multiset(a) == multiset(b)
    ensures multiset(Scores(a, m)) == multiset(Scores(b, m))
    decreases |a|
  {
    hide One;
    assert |multiset(a)| == |a| && |multiset(b)| == |b|;
    if a != [] {
      var n := |a| - 1;
      var last := a[n];
      assert last in multiset(b);
      var i :| 0 <= i < |b| && b[i] == last;
      assert a == a[..n] + [last];
      ScoresPermuted(a[..n], Without(b, i), m);
      ScoresSplit(b, i, m);
      ScoresOne(last, m);
    }
  }

  lemma ScoresSplit(b: seq<Src>, i: nat, m: Member)
    requires i < |b|
    ensures multiset(Scores(b, m)) == multiset(Scores(Without(b, i), m)) + multiset(Scores([b[i]], m))
  {
    assert b == b[..i] + ([b[i]] + b[i + 1..]);
    ScoresAppend(b[..i], [b[i]] + b[i + 1..], m);
    ScoresAppend([b[i]], b[i + 1..], m);
    ScoresAppend(b[..i], b[i + 1..], m);
  }

  /** The result the commands promise. */
  ghost predicate Right(src: seq<Src>, op: Op, a: Aggregate, dst: map<Member, real>) {
    && (forall m :: m in dst <==> if op == Union then Scores(src, m) != [] else |Scores(src, m)| == |src|)
    && (forall m :: m in dst ==> Scores(src, m) != [] && dst[m] == Total(a, Scores(src, m)))
  }

  /** What is right for the sorted sources is right for the sources as they were given. */
  lemma RightPermuted(src: seq<Src>, sorted: seq<Src>, op: Op, a: Aggregate, dst: map<Member, real>)
    requires multiset(src) == multiset(sorted) && Right(sorted, op, a, dst)
    ensures Right(src, op, a, dst)
  {
    assert |multiset(src)| == |src| && |multiset(sorted)| == |sorted|;
    forall m ensures |Scores(src, m)| == |Scores(sorted, m)|
      ensures Scores(src, m) != [] ==> Total(a, Scores(src, m)) == Total(a, Scores(sorted, m))
    {
      ScoresPermuted(src, sorted, m);
      assert |multiset(Scores(src, m))| == |Scores(src, m)| && |multiset(Scores(sorted, m))| == |Scores(sorted, m)|;
      if Scores(src, m) != [] {
        TotalPermuted(a, Scores(src, m), Scores(sorted, m));
      }
    }
  }

  // ----- The command

  /** The same object is the same members. */
  ghost predicate Consistent(src: seq<Src>) {
    forall i, j :: 0 <= i < |src| && 0 <= j < |src| && src[i].subject == src[j].subject ==> src[i].members == src[j].members
  }

  function Size(s: Src): nat {
    |s.members|
  }

  ghost predicate BySize(src: seq<Src>) {
    forall i, j :: 0 <= i < j < |src| ==> Size(src[i]) <= Size(src[j])
  }

  function Insert(src: seq<Src>, k: nat, s: Src): (r: seq<Src>)
    requires k <= |src|
    ensures |r| == |src| + 1 && r[k] == s
    ensures (forall i :: 0 <= i < k ==> r[i] == src[i]) && (forall i :: k < i < |r| ==> r[i] == src[i - 1])
  {
    src[..k] + [s] + src[k..]
  }

  lemma InsertBySize(src: seq<Src>, k: nat, s: Src)
    requires BySize(src) && k <= |src|
    requires (forall i :: 0 <= i < k ==> Size(src[i]) <= Size(s)) && (forall i :: k <= i < |src| ==> Size(s) <= Size(src[i]))
    ensures BySize(Insert(src, k, s))
  {
    hide Insert, Size;
  }

  lemma InsertMembers(src: seq<Src>, k: nat, s: Src)
    requires k <= |src|
    ensures multiset(Insert(src, k, s)) == multiset(src) + multiset{s}
  {
    assert src == src[..k] + src[k..];
  }

  lemma BelowAll(src: seq<Src>, k: nat, s: Src)
    requires BySize(src) && k <= |src| && (k > 0 ==> Size(src[k - 1]) <= Size(s))
    ensures forall i :: 0 <= i < k ==> Size(src[i]) <= Size(s)
  {}

  /** qsort with zuiCompareByCardinality. */
  method SortByCardinality(src: seq<Src>) returns (sorted: seq<Src>)
    ensures multiset(sorted) == multiset(src) && BySize(sorted)
  {
    hide BySize, Insert, Size;
    sorted := [];
    var n := 0;
    assert src[..0] == [];
    EmptyBySize();
    while n < |src|
      invariant 0 <= n <= |src| && multiset(sorted) == multiset(src[..n]) && BySize(sorted)
    {
      var k := |sorted|;
      while k > 0 && Size(src[n]) < Size(sorted[k - 1])
        invariant 0 <= k <= |sorted|
        invariant forall i :: k <= i < |sorted| ==> Size(src[n]) <= Size(sorted[i])
      {
        k := k - 1;
      }
      BelowAll(sorted, k, src[n]);
      InsertBySize(sorted, k, src[n]);
      InsertMembers(sorted, k, src[n]);
      assert src[..n + 1] == src[..n] + [src[n]];
      sorted := Insert(sorted, k, src[n]);
      n := n + 1;
    }
    assert src[..n] == src;
  }

  lemma EmptyBySize()
    ensures BySize([])
  {}

  /** A later source for a member that is being aggregated: its weighted score, if it holds the member. */
  method Later(src: seq<Src>, i: nat, j: nat, m: Member, score: real) returns (found: bool, value: real)
    requires Consistent(src) && i < j < |src| && m in src[i].members && score == src[i].members[m]
    ensures One(src[j], m) == if found then [value] else []
  {
    if src[j].subject == src[i].subject {
      // the object that is being iterated is not searched
      return true, Weighted(src[j], score);
    } else if m in src[j].members {
      return true, Weighted(src[j], src[j].members[m]);
    }
    return false, 0.0;
  }

  lemma ScoresTake(src: seq<Src>, i: nat, j: nat, m: Member)
    requires i <= j < |src|
    ensures Scores(src[i..j + 1], m) == Scores(src[i..j], m) + One(src[j], m)
  {
    hide One;
    assert src[i..j + 1] == src[i..j] + [src[j]];
    ScoresAppend(src[i..j], [src[j]], m);
    ScoresOne(src[j], m);
  }

  /** The score of a member first held by source i; none when a source lacks it and it has to be in all. */
  method ScoreFrom(src: seq<Src>, i: nat, m: Member, op: Op, a: Aggregate) returns (all: bool, score: real)
    requires Consistent(src) && i < |src| && m in src[i].members
    ensures Scores(src[i..], m) != []
    ensures op == Union ==> all
    ensures op == Inter ==> (all <==> |Scores(src[i..], m)| == |src| - i)
    ensures all ==> score == Total(a, Scores(src[i..], m))
  {
    hide One, Combine;
    score := Weighted(src[i], src[i].members[m]);
    var j := i + 1;
    ScoresFirst(src, i, m);
    while j < |src|
      invariant i < j <= |src| && Scores(src[i..j], m) != [] && score == Total(a, Scores(src[i..j], m))
      invariant op == Inter ==> |Scores(src[i..j], m)| == j - i
    {
      ScoresTake(src, i, j, m);
      var found, value := Later(src, i, j, m, src[i].members[m]);
      if found {
        TotalMore(a, Scores(src[i..j], m), value);
        score := Combine(a, score, value);
      } else {
        assert Scores(src[i..j], m) + [] == Scores(src[i..j], m);
        if op == Inter {
          NotInAll(src, i, j, m);
          return false, score;
        }
      }
      j := j + 1;
    }
    assert src[i..j] == src[i..];
    all := true;
  }

  lemma ScoresFirst(src: seq<Src>, i: nat, m: Member)
    requires i < |src| && m in src[i].members
    ensures Scores(src[i..i + 1], m) == [Weighted(src[i], src[i].members[m])]
  {
    assert src[i..i + 1] == [src[i]];
    ScoresOne(src[i], m);
  }

  lemma NotInAll(src: seq<Src>, i: nat, j: nat, m: Member)
    requires i <= j < |src| && One(src[j], m) == []
    ensures |Scores(src[i..], m)| < |src| - i && Scores(src[i..], m) == Scores(src[i..j + 1], m) + Scores(src[j + 1..], m)
    ensures Scores(src[i..j + 1], m) != [] ==> Scores(src[i..], m) != []
  {
    assert src[i..] == src[i..j + 1] + src[j + 1..];
    ScoresAppend(src[i..j + 1], src[j + 1..], m);
    ScoresEmpty(src[i..], m);
    assert src[i..][j - i] == src[j];
  }

  /**
   ZINTERSTORE: the members of the first source, the smallest, are searched in the others, in no more turns than any
   source has members; a search never meets an empty source.
   */
  method Intersect(src: seq<Src>, a: Aggregate) returns (dst: map<Member, real>, ghost turns: nat)
    requires Consistent(src) && BySize(src) && src != []
    ensures Right(src, Inter, a, dst)
    ensures forall i :: 0 <= i < |src| ==> turns <= Size(src[i])
  {
    hide Scores, Total;
    dst, turns := map[], 0;
    assert src[0..] == src;
    if Size(src[0]) > 0 {
      var rest := src[0].members.Keys;
      KeysCount(src[0]);
      while rest != {}
        invariant rest <= src[0].members.Keys && turns + |rest| == Size(src[0])
        invariant forall m :: m in dst <==> m in src[0].members && m !in rest && |Scores(src, m)| == |src|
        invariant forall m :: m in dst ==> Scores(src, m) != [] && dst[m] == Total(a, Scores(src, m))
        decreases rest
      {
        assert forall i :: 0 < i < |src| ==> Size(src[i]) > 0;
        var m :| m in rest;
        var all, score := ScoreFrom(src, 0, m, Inter, a);
        if all {
          dst := dst[m := score];
        }
        rest := rest - {m};
        turns := turns + 1;
      }
    }
    forall m | |Scores(src, m)| == |src| ensures m in src[0].members {
      ScoresEmpty(src, m);
    }
  }

  lemma KeysCount(s: Src)
    ensures |s.members.Keys| == Size(s)
  {}

  /** ZUNIONSTORE: a member is aggregated at the first source that holds it. */
  method Unite(src: seq<Src>, a: Aggregate) returns (dst: map<Member, real>)
    requires Consistent(src)
    ensures Right(src, Union, a, dst)
  {
    hide Scores, Total;
    dst := map[];
    var i := 0;
    while i < |src|
      invariant 0 <= i <= |src|
      invariant forall m :: m in dst <==> exists k :: 0 <= k < i && m in src[k].members
      invariant forall m :: m in dst ==> Scores(src, m) != [] && dst[m] == Total(a, Scores(src, m))
    {
      dst := UniteOne(src, i, a, dst);
      i := i + 1;
    }
    forall m ensures m in dst <==> Scores(src, m) != [] {
      ScoresEmpty(src, m);
    }
  }

  /** The members of source i. */
  method UniteOne(src: seq<Src>, i: nat, a: Aggregate, dst0: map<Member, real>) returns (dst: map<Member, real>)
    requires Consistent(src) && i < |src|
    requires forall m :: m in dst0 <==> exists k :: 0 <= k < i && m in src[k].members
    requires forall m :: m in dst0 ==> Scores(src, m) != [] && dst0[m] == Total(a, Scores(src, m))
    ensures forall m :: m in dst <==> exists k :: 0 <= k < i + 1 && m in src[k].members
    ensures forall m :: m in dst ==> Scores(src, m) != [] && dst[m] == Total(a, Scores(src, m))
  {
    hide Scores, Total;
    dst := dst0;
    var rest := src[i].members.Keys;
    while rest != {}
      invariant rest <= src[i].members.Keys
      invariant forall m :: m in dst <==> m in dst0 || (m in src[i].members && m !in rest)
      invariant forall m :: m in dst ==> Scores(src, m) != [] && dst[m] == Total(a, Scores(src, m))
      decreases rest
    {
      var m :| m in rest;
      if m !in dst {
        FirstHolder(src, i, m);
        var all, score := ScoreFrom(src, i, m, Union, a);
        dst := dst[m := score];
      }
      rest := rest - {m};
    }
  }

  /** Sources before the first that holds a member do not count. */
  lemma FirstHolder(src: seq<Src>, i: nat, m: Member)
    requires i < |src| && forall k :: 0 <= k < i ==> m !in src[k].members
    ensures Scores(src[i..], m) == Scores(src, m)
  {
    assert src == src[..i] + src[i..];
    ScoresAppend(src[..i], src[i..], m);
    ScoresEmpty(src[..i], m);
  }

  lemma ConsistentPermuted(src: seq<Src>, sorted: seq<Src>)
    requires Consistent(src) && multiset(sorted) == multiset(src)
    ensures Consistent(sorted)
  {
    forall i, j | 0 <= i < |sorted| && 0 <= j < |sorted| && sorted[i].subject == sorted[j].subject
      ensures sorted[i].members == sorted[j].members
    {
      assert sorted[i] in multiset(src) && sorted[j] in multiset(src);
      var i' :| 0 <= i' < |src| && src[i'] == sorted[i];
      var j' :| 0 <= j' < |src| && src[j'] == sorted[j];
    }
  }

  // ----- The database

  function MembersOf(o: Obj): map<Member, real> {
    match o
    case ZSetObj(z) => z
    case SetObj(m) => map x | x in m :: 1.0
    case OtherObj => map[]
  }

  function SourceAt(db: map<Key, Obj>, key: Key, weight: real): Src {
    if key in db then Src(Some(key), MembersOf(db[key]), weight) else Src(None, map[], weight)
  }

  function Sources(db: map<Key, Obj>, keys: seq<Key>, weights: seq<real>): (r: seq<Src>)
    requires |weights| == |keys|
    ensures |r| == |keys| && forall i :: 0 <= i < |r| ==> r[i] == SourceAt(db, keys[i], weights[i])
  {
    seq(|keys|, i requires 0 <= i < |keys| => SourceAt(db, keys[i], weights[i]))
  }

  datatype Reply = Stored(n: nat) | WrongType

  /**
   zunionInterGenericCommand, the arguments having been read. The sources are read before the destination is replaced,
   so the destination may be one of them; an empty result leaves no key.
   */
  method ZunionInterGenericCommand(db: map<Key, Obj>, dstkey: Key, op: Op, keys: seq<Key>, weights: seq<real>, a: Aggregate)
    returns (reply: Reply, db': map<Key, Obj>)
    requires keys != [] && |weights| == |keys|
    ensures (exists i :: 0 <= i < |keys| && keys[i] in db && db[keys[i]].OtherObj?) ==> reply == WrongType && db' == db
    ensures !(exists i :: 0 <= i < |keys| && keys[i] in db && db[keys[i]].OtherObj?) ==>
              exists dst :: Right(Sources(db, keys, weights), op, a, dst) && reply == Stored(|dst|)
                            && db' == if dst == map[] then db - {dstkey} else db[dstkey := ZSetObj(dst)]
  {
    hide Right;
    var src: seq<Src> := [];
    var i := 0;
    while i < |keys|
      invariant 0 <= i <= |keys| && src == Sources(db, keys[..i], weights[..i])
      invariant forall k :: 0 <= k < i ==> !(keys[k] in db && db[keys[k]].OtherObj?)
    {
      if keys[i] in db && db[keys[i]].OtherObj? {
        return WrongType, db;
      }
      src := src + [SourceAt(db, keys[i], weights[i])];
      i := i + 1;
    }
    assert keys[..i] == keys && weights[..i] == weights;
    var sorted := SortByCardinality(src);
    ConsistentPermuted(src, sorted);
    var dst;
    if op == Inter {
      assert |multiset(src)| == |src| && |multiset(sorted)| == |sorted|;
      ghost var turns;
      dst, turns := Intersect(sorted, a);
    } else {
      dst := Unite(sorted, a);
    }
    RightPermuted(src, sorted, op, a, dst);
    db' := db - {dstkey};
    if dst != map[] {
      db' := db'[dstkey := ZSetObj(dst)];
      assert db' == db[dstkey := ZSetObj(dst)];
    }
    reply := Stored(|dst|);
  }
}
