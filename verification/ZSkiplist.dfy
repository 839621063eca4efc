/**
 The sorted-set skiplist (t_zset.c): nodes with per-level links and spans, back pointers, a tail, a length and a
 level, updated in place.  The order of objects is any strict total order `cmp`; scores are exact numbers.
 */
module ZSkiplist {
  import opened Bytes
  import opened SkiplistShape

  const ZSKIPLIST_MAXLEVEL := 32

  // ----- Elements and their order

  datatype Elem<T> = Elem(score: real, obj: T)

  ghost predicate ChainAt<T(!new)>(cmp: (T, T) -> int, x: T, y: T, z: T) {
    cmp(x, y) < 0 && cmp(y, z) < 0 ==> cmp(x, z) < 0
  }

  ghost predicate StrictOrder<T(!new)>(cmp: (T, T) -> int) {
    && (forall x, y :: cmp(x, y) < 0 <==> cmp(y, x) > 0)
    && (forall x, y :: cmp(x, y) == 0 <==> x == y)
    && (forall x, y, z {:trigger ChainAt(cmp, x, y, z)} :: ChainAt(cmp, x, y, z))
  }

  predicate Precedes<T>(cmp: (T, T) -> int, a: Elem<T>, b: Elem<T>) {
    a.score < b.score || (a.score == b.score && cmp(a.obj, b.obj) < 0)
  }

  lemma PrecedesTotal<T(!new)>(cmp: (T, T) -> int, a: Elem<T>, b: Elem<T>)
    requires StrictOrder(cmp)
    ensures Precedes(cmp, a, b) || a == b || Precedes(cmp, b, a)
    ensures !(Precedes(cmp, a, b) && Precedes(cmp, b, a)) && !Precedes(cmp, a, a)
  {}

  ghost predicate Sorted<T>(cmp: (T, T) -> int, es: seq<Elem<T>>) {
    forall i, j :: 0 <= i < j < |es| ==> Precedes(cmp, es[i], es[j])
  }

  /** A range of scores, each end inclusive or exclusive. */
  datatype Range = Range(min: real, max: real, minex: bool, maxex: bool)

  predicate GteMin(value: real, spec: Range) {
    if spec.minex then value > spec.min else value >= spec.min
  }

  predicate LteMax(value: real, spec: Range) {
    if spec.maxex then value < spec.max else value <= spec.max
  }

  predicate InRange(value: real, spec: Range) {
    GteMin(value, spec) && LteMax(value, spec)
  }

  /** The conditions under which the searches of t_zset.c step forward. */
  datatype Probe<T> =
    | Before(e: Elem<T>)          // zslInsert, zslDelete
    | UpTo(e: Elem<T>)            // zslGetRank
    | BelowMin(range: Range)      // zslFirstInRange, zslDeleteRangeByScore
    | WithinMax(range: Range)     // zslLastInRange
    | RankBelow(rank: nat)        // zslDeleteRangeByRank
    | RankUpTo(rank: nat)         // zslGetElementByRank

  /** Does a search step onto the element `e`, which stands at position `pos`? */
  predicate Passes<T>(cmp: (T, T) -> int, probe: Probe<T>, e: Elem<T>, pos: nat) {
    match probe
    case Before(b) => Precedes(cmp, e, b)
    case UpTo(b) => e.score < b.score || (e.score == b.score && cmp(e.obj, b.obj) <= 0)
    case BelowMin(range) => !GteMin(e.score, range)
    case WithinMax(range) => LteMax(e.score, range)
    case RankBelow(rank) => pos < rank
    case RankUpTo(rank) => pos <= rank
  }

  predicate PassAt<T>(cmp: (T, T) -> int, es: seq<Elem<T>>, probe: Probe<T>, k: nat)
    requires 1 <= k <= |es|
  {
    Passes(cmp, probe, es[k - 1], k)
  }

  /** The last position that passes; positions count from 1. */
  ghost function Cut<T>(cmp: (T, T) -> int, es: seq<Elem<T>>, probe: Probe<T>, n: nat): (p: nat)
    requires n <= |es|
    ensures p <= n
    ensures p > 0 ==> PassAt(cmp, es, probe, p)
    ensures forall k :: p < k <= n ==> !PassAt(cmp, es, probe, k)
  {
    if n == 0 then 0 else if PassAt(cmp, es, probe, n) then n else Cut(cmp, es, probe, n - 1)
  }

  /** Exactly the first `p` elements pass. */
  ghost predicate Cuts<T>(cmp: (T, T) -> int, es: seq<Elem<T>>, probe: Probe<T>, p: nat) {
    p <= |es| && forall k :: 1 <= k <= |es| ==> (PassAt(cmp, es, probe, k) <==> k <= p)
  }

  lemma CutsAt<T>(cmp: (T, T) -> int, es: seq<Elem<T>>, probe: Probe<T>, p: nat, k: nat)
    requires Cuts(cmp, es, probe, p) && 1 <= k <= |es|
    ensures Passes(cmp, probe, es[k - 1], k) <==> k <= p
  {
    assert PassAt(cmp, es, probe, k) <==> k <= p;
  }

  /** Every search splits a sorted list into elements that pass and elements that do not. */
  lemma ProbesCut<T(!new)>(cmp: (T, T) -> int, es: seq<Elem<T>>, probe: Probe<T>)
    requires StrictOrder(cmp) && Sorted(cmp, es)
    ensures Cuts(cmp, es, probe, Cut(cmp, es, probe, |es|))
  {
    var p := Cut(cmp, es, probe, |es|);
    forall k | 1 <= k < p ensures PassAt(cmp, es, probe, k) {
      assert Precedes(cmp, es[k - 1], es[p - 1]);
      PassesDown(cmp, probe, es[k - 1], k, es[p - 1], p);
    }
  }

  lemma PassesDown<T(!new)>(cmp: (T, T) -> int, probe: Probe<T>, a: Elem<T>, i: nat, b: Elem<T>, j: nat)
    requires StrictOrder(cmp) && Precedes(cmp, a, b) && i < j && Passes(cmp, probe, b, j)
    ensures Passes(cmp, probe, a, i)
  {
    if probe.Before? || probe.UpTo? {
      assert ChainAt(cmp, a.obj, b.obj, probe.e.obj);
    }
  }

  // ----- Nodes and the table of their links

  datatype Link<T> = Link(forward: Node?<T>, span: int)

  class Node<T> {
    const score: real
    const obj: Option<T>
    var backward: Node?<T>
    var level: seq<Link<T>>

    /** zslCreateNode; the links are set by the caller. */
    constructor (height: nat, score: real, obj: Option<T>)
      ensures this.score == score && this.obj == obj
      ensures backward == null && |level| == height && forall i :: 0 <= i < height ==> level[i] == Link(null, 0)
    {
      this.score, this.obj := score, obj;
      backward, level := null, seq(height, i => Link(null, 0));
    }
  }

  ghost function At<T>(nodes: seq<Node<T>>, k: nat): Node?<T> {
    if k < |nodes| then nodes[k] else null
  }

  /** The heights of the nodes, from the table of their links. */
  ghost function Heights<T>(tb: seq<seq<Link<T>>>): (hs: seq<nat>)
    ensures |hs| == |tb| && forall k :: 0 <= k < |tb| ==> hs[k] == |tb[k]|
  {
    seq(|tb|, k requires 0 <= k < |tb| => |tb[k]|)
  }

  /** The node reached next from `k` at level `i`. */
  ghost function NextOf<T>(tb: seq<seq<Link<T>>>, k: nat, i: nat): (n: nat)
    requires k < |tb|
    ensures k < n <= |tb|
    ensures n < |tb| ==> i < |tb[n]|
  {
    Next(Heights(tb), k, i)
  }

  /** The last node up to `p` that reaches level `i`. */
  ghost function LastUpTo<T>(tb: seq<seq<Link<T>>>, p: nat, i: nat): (r: nat)
    requires p < |tb| && i < |tb[0]|
    ensures r <= p && i < |tb[r]|
  {
    Prev(Heights(tb), p, i)
  }

  /** A node taller than all behind it up to `p`. */
  ghost predicate Tallest<T>(tb: seq<seq<Link<T>>>, q: nat, p: nat)
    requires p < |tb|
  {
    q <= p && forall m :: q < m <= p ==> |tb[m]| < |tb[q]|
  }

  lemma LastIsTallest<T>(tb: seq<seq<Link<T>>>, p: nat, i: nat)
    requires p < |tb| && i < |tb[0]|
    ensures Tallest(tb, LastUpTo(tb, p, i), p)
  {
    var hs, r := Heights(tb), LastUpTo(tb, p, i);
    forall m | r < m <= p ensures |tb[m]| < |tb[r]| {
      assert hs[m] <= i < hs[r];
    }
  }

  lemma TallestIsLast<T>(tb: seq<seq<Link<T>>>, p: nat, q: nat)
    requires p < |tb| && Tallest(tb, q, p) && 0 < |tb[q]| <= |tb[0]|
    ensures LastUpTo(tb, p, |tb[q]| - 1) == q
  {
    PrevIs(Heights(tb), p, |tb[q]| - 1, q);
  }

  lemma IsLast<T>(tb: seq<seq<Link<T>>>, p: nat, i: nat, r: nat)
    requires r <= p < |tb| && i < |tb[r]| && i < |tb[0]| && NextOf(tb, r, i) > p
    ensures r == LastUpTo(tb, p, i)
  {
    PathEnds(Heights(tb), p, i, r);
  }

  /** The level-`i` link of node `k` is what the heights prescribe; above the list's level only the target counts. */
  ghost predicate WiredAt<T>(nodes: seq<Node<T>>, tb: seq<seq<Link<T>>>, level: nat, k: nat, i: nat)
    requires |nodes| == |tb| && k < |tb| && i < |tb[k]|
  {
    && tb[k][i].forward == At(nodes, Next(Heights(tb), k, i))
    && (i < level ==> tb[k][i].span == Dist(Heights(tb), k, i))
  }

  ghost predicate Wired<T>(nodes: seq<Node<T>>, tb: seq<seq<Link<T>>>, level: nat) {
    && |nodes| == |tb|
    && forall k, i :: 0 <= k < |tb| && 0 <= i < |tb[k]| ==> WiredAt(nodes, tb, level, k, i)
  }

  ghost predicate Distinct<A>(s: seq<A>) {
    forall i, j :: 0 <= i < j < |s| ==> s[i] != s[j]
  }

  /** A header of full height, distinct nodes with objects, no node higher than `level`. */
  ghost predicate Towers<T>(nodes: seq<Node<T>>, tb: seq<seq<Link<T>>>, level: nat) {
    && |nodes| == |tb| >= 1
    && Distinct(nodes)
    && 1 <= level <= ZSKIPLIST_MAXLEVEL == |tb[0]|
    && nodes[0].obj.None?
    && (forall k :: 1 <= k < |tb| ==> 1 <= |tb[k]| <= level)
    && (forall k :: 1 <= k < |nodes| ==> nodes[k].obj.Some?)
  }

  function ElemOf<T>(n: Node<T>): Elem<T>
    requires n.obj.Some?
  {
    Elem(n.score, n.obj.value)
  }

  /** The elements of the list in level-0 order, without the header. */
  ghost function ElemsOf<T>(nodes: seq<Node<T>>): (es: seq<Elem<T>>)
    requires |nodes| >= 1 && forall k :: 1 <= k < |nodes| ==> nodes[k].obj.Some?
    ensures |es| == |nodes| - 1 && forall k :: 1 <= k < |nodes| ==> es[k - 1] == ElemOf(nodes[k])
  {
    seq(|nodes| - 1, k requires 0 <= k < |nodes| - 1 => ElemOf(nodes[k + 1]))
  }

  // ----- Inserting and deleting in the table

  /** Link (k, i) of the table after a node of height `h` is put behind `p`. */
  ghost predicate InsertedAt<T>(tb: seq<seq<Link<T>>>, tb': seq<seq<Link<T>>>, level: nat, p: nat, x: Node<T>, h: nat, k: nat, i: nat)
    requires p < |tb| && |tb[0]| == ZSKIPLIST_MAXLEVEL && |tb'| == |tb| + 1
    requires k <= p && i < |tb[k]| == |tb'[k]|
  {
    tb'[k][i] ==
    if i < level && i < ZSKIPLIST_MAXLEVEL && k == Prev(Heights(tb), p, i)
    then (if i < h then Link(x, p - k + 1) else Link(tb[k][i].forward, tb[k][i].span + 1))
    else tb[k][i]
  }

  /** The whole table after a node `x` of height `h` is put behind `p`. */
  ghost predicate Inserted<T>(tb: seq<seq<Link<T>>>, tb': seq<seq<Link<T>>>, level: nat, p: nat, x: Node<T>, h: nat) {
    && p < |tb| && |tb[0]| == ZSKIPLIST_MAXLEVEL && |tb'| == |tb| + 1
    && (forall k :: 0 <= k <= p ==> |tb'[k]| == |tb[k]|)
    && (forall k, i :: 0 <= k <= p && 0 <= i < |tb[k]| ==> InsertedAt(tb, tb', level, p, x, h, k, i))
    && (forall k :: p < k < |tb| ==> tb'[k + 1] == tb[k])
    && |tb'[p + 1]| == h <= level <= ZSKIPLIST_MAXLEVEL
    && (forall i :: 0 <= i < h ==>
          var u := Prev(Heights(tb), p, i);
          tb'[p + 1][i] == Link(tb[u][i].forward, tb[u][i].span - (p - u)))
  }

  lemma InsertedHeights<T>(tb: seq<seq<Link<T>>>, tb': seq<seq<Link<T>>>, level: nat, p: nat, x: Node<T>, h: nat)
    requires Inserted(tb, tb', level, p, x, h)
    ensures Heights(tb') == Ins(Heights(tb), p, h)
  {
    var hs, hs' := Heights(tb), Heights(tb');
    forall k | p < k < |tb| ensures hs'[k + 1] == hs[k] {
      assert tb'[k + 1] == tb[k];
    }
  }

  /** Nothing reaches above the level of the list but the header. */
  lemma NothingAbove<T>(tb: seq<seq<Link<T>>>, level: nat, k: nat, i: nat)
    requires forall k :: 1 <= k < |tb| ==> |tb[k]| <= level
    requires k < |tb| && level <= i < |tb[k]|
    ensures k == 0 && Next(Heights(tb), k, i) == |tb|
  {
    NextIs(Heights(tb), 0, i, |tb|);
  }

  lemma InsertWires<T>(nodes: seq<Node<T>>, tb: seq<seq<Link<T>>>, tb': seq<seq<Link<T>>>, level: nat, p: nat, x: Node<T>, h: nat)
    requires Wired(nodes, tb, level) && Inserted(tb, tb', level, p, x, h)
    requires forall k :: 1 <= k < |tb| ==> |tb[k]| <= level
    ensures Wired(Ins(nodes, p, x), tb', level)
  {
    forall k, i | 0 <= k < |tb'| && 0 <= i < |tb'[k]| ensures WiredAt(Ins(nodes, p, x), tb', level, k, i) {
      hide *;
      InsertWiresAt(nodes, tb, tb', level, p, x, h, k, i);
    }
  }

  lemma InsertWiresAt<T>(nodes: seq<Node<T>>, tb: seq<seq<Link<T>>>, tb': seq<seq<Link<T>>>, level: nat, p: nat, x: Node<T>, h: nat,
                         k: nat, i: nat)
    requires Wired(nodes, tb, level) && Inserted(tb, tb', level, p, x, h)
    requires forall k :: 1 <= k < |tb| ==> |tb[k]| <= level
    requires k < |tb'| && i < |tb'[k]|
    ensures |Ins(nodes, p, x)| == |tb'|
    ensures WiredAt(Ins(nodes, p, x), tb', level, k, i)
  {
    hide *;
    InsSize(nodes, p, x);
    InsertedHeights(tb, tb', level, p, x, h);
    InsertedFacts(nodes, tb, tb', level, p, x, h, k, i);
    if k <= p {
      if level <= i {
        NothingAbove(tb, level, k, i);
      }
      InsertWiresBefore(nodes, tb, tb', level, p, x, h, k, i);
    } else if k == p + 1 {
      InsertWiresNew(nodes, tb, tb', level, p, x, h, i);
    } else {
      InsertWiresAfter(nodes, tb, tb', level, p, x, h, k - 1, i);
    }
  }

  lemma InsSize<A>(s: seq<A>, p: nat, x: A)
    ensures p < |s| ==> |Ins(s, p, x)| == |s| + 1
  {}

  /** What the two predicates say about link (k, i) of the new table. */
  lemma InsertedFacts<T>(nodes: seq<Node<T>>, tb: seq<seq<Link<T>>>, tb': seq<seq<Link<T>>>, level: nat, p: nat, x: Node<T>, h: nat,
                         k: nat, i: nat)
    requires Wired(nodes, tb, level) && Inserted(tb, tb', level, p, x, h)
    requires k < |tb'| && i < |tb'[k]|
    ensures |nodes| == |tb| && |tb'| == |tb| + 1 && p < |tb| && |tb[0]| == ZSKIPLIST_MAXLEVEL && h == |tb'[p + 1]| <= level <= ZSKIPLIST_MAXLEVEL
    ensures k <= p ==> |tb[k]| == |tb'[k]| && WiredAt(nodes, tb, level, k, i) && InsertedAt(tb, tb', level, p, x, h, k, i)
    ensures k == p + 1 ==>
              var u := Prev(Heights(tb), p, i);
              && WiredAt(nodes, tb, level, u, i)
              && tb'[p + 1][i] == Link(tb[u][i].forward, tb[u][i].span - (p - u))
    ensures k > p + 1 ==> tb'[k] == tb[k - 1] && WiredAt(nodes, tb, level, k - 1, i)
  {
    hide WiredAt, InsertedAt;
    if k == p + 1 {
      assert WiredAt(nodes, tb, level, Prev(Heights(tb), p, i), i);
    } else if k > p {
      assert tb'[(k - 1) + 1] == tb[k - 1];
    }
  }

  lemma InsertWiresBefore<T>(nodes: seq<Node<T>>, tb: seq<seq<Link<T>>>, tb': seq<seq<Link<T>>>, level: nat, p: nat, x: Node<T>,
                             h: nat, k: nat, i: nat)
    requires |nodes| == |tb| && |tb'| == |tb| + 1 && p < |tb| && |tb[0]| == ZSKIPLIST_MAXLEVEL && h <= level <= ZSKIPLIST_MAXLEVEL
    requires Heights(tb') == Ins(Heights(tb), p, h)
    requires k <= p && i < |tb[k]| == |tb'[k]|
    requires WiredAt(nodes, tb, level, k, i) && InsertedAt(tb, tb', level, p, x, h, k, i)
    requires level <= i ==> Next(Heights(tb), k, i) == |tb|
    ensures WiredAt(Ins(nodes, p, x), tb', level, k, i)
  {
    hide Ins;
    var hs := Heights(tb);
    if i < level {
      CrossingIsPrev(hs, p, i, k);
    }
    if Next(hs, k, i) <= p {
      NextInsBefore(hs, p, h, k, i);
    } else {
      NextInsAcross(hs, p, h, k, i);
    }
  }

  lemma InsertWiresNew<T>(nodes: seq<Node<T>>, tb: seq<seq<Link<T>>>, tb': seq<seq<Link<T>>>, level: nat, p: nat, x: Node<T>, h: nat, i: nat)
    requires |nodes| == |tb| && |tb'| == |tb| + 1 && p < |tb| && |tb[0]| == ZSKIPLIST_MAXLEVEL
    requires Heights(tb') == Ins(Heights(tb), p, h)
    requires i < h == |tb'[p + 1]| <= level <= ZSKIPLIST_MAXLEVEL
    requires var u := Prev(Heights(tb), p, i);
             && WiredAt(nodes, tb, level, u, i)
             && tb'[p + 1][i] == Link(tb[u][i].forward, tb[u][i].span - (p - u))
    ensures WiredAt(Ins(nodes, p, x), tb', level, p + 1, i)
  {
    hide Ins;
    NextInsNew(Heights(tb), p, h, Prev(Heights(tb), p, i), i);
  }

  lemma InsertWiresAfter<T>(nodes: seq<Node<T>>, tb: seq<seq<Link<T>>>, tb': seq<seq<Link<T>>>, level: nat, p: nat, x: Node<T>,
                            h: nat, k: nat, i: nat)
    requires |nodes| == |tb| && |tb'| == |tb| + 1 && p < k < |tb| && i < |tb[k]| && tb'[k + 1] == tb[k]
    requires Heights(tb') == Ins(Heights(tb), p, h)
    requires WiredAt(nodes, tb, level, k, i)
    ensures WiredAt(Ins(nodes, p, x), tb', level, k + 1, i)
  {
    hide Ins;
    NextInsAfter(Heights(tb), p, h, k, i);
  }

  /** Link (k, i), which passes over or ends at the node behind `p`, once that node is gone. */
  ghost function Shortened<T>(nodes: seq<Node<T>>, tb: seq<seq<Link<T>>>, p: nat, k: nat, i: nat): Link<T>
    requires |nodes| == |tb| && p + 1 < |tb| && k < |tb| && i < |tb[k]|
  {
    if tb[k][i].forward == nodes[p + 1] && i < |tb[p + 1]|
    then Link(tb[p + 1][i].forward, tb[k][i].span + tb[p + 1][i].span - 1)
    else Link(tb[k][i].forward, tb[k][i].span - 1)
  }

  /**
   The table after the node behind `p` is unlinked is the one that inserting that node would turn back: its links
   are spliced out of those that reached it, and every other link over it is one shorter.
   */
  ghost predicate DeletedAt<T>(nodes: seq<Node<T>>, tb: seq<seq<Link<T>>>, tb': seq<seq<Link<T>>>, level: nat, p: nat, k: nat, i: nat)
    requires |nodes| == |tb| && p + 1 < |tb| && |tb[0]| == ZSKIPLIST_MAXLEVEL && |tb'| == |tb| - 1
    requires k <= p && i < |tb[k]| == |tb'[k]|
  {
    tb'[k][i] ==
    if i < level && i < ZSKIPLIST_MAXLEVEL && k == Prev(Heights(tb), p, i)
    then Shortened(nodes, tb, p, k, i)
    else tb[k][i]
  }

  ghost predicate Deleted<T>(nodes: seq<Node<T>>, tb: seq<seq<Link<T>>>, tb': seq<seq<Link<T>>>, level: nat, p: nat) {
    && |nodes| == |tb| && p + 1 < |tb| && |tb[0]| == ZSKIPLIST_MAXLEVEL && |tb'| == |tb| - 1
    && (forall k :: 0 <= k <= p ==> |tb'[k]| == |tb[k]|)
    && (forall k, i :: 0 <= k <= p && 0 <= i < |tb[k]| ==> DeletedAt(nodes, tb, tb', level, p, k, i))
    && (forall k :: p + 1 < k < |tb| ==> tb'[k - 1] == tb[k])
  }

  lemma DeletedHeights<T>(nodes: seq<Node<T>>, tb: seq<seq<Link<T>>>, tb': seq<seq<Link<T>>>, level: nat, p: nat)
    requires Deleted(nodes, tb, tb', level, p)
    ensures Heights(tb) == Ins(Heights(tb'), p, |tb[p + 1]|)
    ensures forall i :: 0 <= i < ZSKIPLIST_MAXLEVEL ==> Prev(Heights(tb), p, i) == Prev(Heights(tb'), p, i)
  {
    var hs, hs' := Heights(tb), Heights(tb');
    forall k | p + 1 < k < |tb| ensures hs'[k - 1] == hs[k] {
      assert tb'[k - 1] == tb[k];
    }
    forall i | 0 <= i < ZSKIPLIST_MAXLEVEL ensures Prev(hs, p, i) == Prev(hs', p, i) {
      PrevIs(hs', p, i, Prev(hs, p, i));
    }
  }

  lemma DeleteWires<T>(nodes: seq<Node<T>>, tb: seq<seq<Link<T>>>, tb': seq<seq<Link<T>>>, level: nat, p: nat)
    requires Wired(nodes, tb, level) && Deleted(nodes, tb, tb', level, p) && Distinct(nodes)
    requires level <= ZSKIPLIST_MAXLEVEL && forall k :: 1 <= k < |tb| ==> |tb[k]| <= level
    ensures Wired(Del(nodes, p), tb', level)
  {
    forall k, i | 0 <= k < |tb'| && 0 <= i < |tb'[k]| ensures WiredAt(Del(nodes, p), tb', level, k, i) {
      hide *;
      DeleteWiresAt(nodes, tb, tb', level, p, k, i);
    }
  }

  lemma DeleteWiresAt<T>(nodes: seq<Node<T>>, tb: seq<seq<Link<T>>>, tb': seq<seq<Link<T>>>, level: nat, p: nat, k: nat, i: nat)
    requires Wired(nodes, tb, level) && Deleted(nodes, tb, tb', level, p) && Distinct(nodes)
    requires level <= ZSKIPLIST_MAXLEVEL && forall k :: 1 <= k < |tb| ==> |tb[k]| <= level
    requires k < |tb'| && i < |tb'[k]|
    ensures |Del(nodes, p)| == |tb'|
    ensures WiredAt(Del(nodes, p), tb', level, k, i)
  {
    DeletedHeights(nodes, tb, tb', level, p);
    hide WiredAt, DeletedAt;
    if k <= p {
      if level <= i {
        NothingAbove(tb, level, k, i);
      }
      assert i < |tb[p + 1]| ==> WiredAt(nodes, tb, level, p + 1, i);
      DeleteWiresBefore(nodes, tb, tb', level, p, k, i);
    } else {
      assert tb'[(k + 1) - 1] == tb[k + 1];
      DeleteWiresAfter(nodes, tb, tb', level, p, k, i);
    }
  }

  lemma AtDel<T>(nodes: seq<Node<T>>, p: nat, k: nat)
    requires p + 1 < |nodes|
    ensures k <= p ==> At(Del(nodes, p), k) == At(nodes, k)
    ensures p < k ==> At(Del(nodes, p), k) == At(nodes, k + 1)
  {}

  lemma DeleteWiresAfter<T>(nodes: seq<Node<T>>, tb: seq<seq<Link<T>>>, tb': seq<seq<Link<T>>>, level: nat, p: nat, k: nat, i: nat)
    requires |nodes| == |tb| == |tb'| + 1 && p < k < |tb'| && i < |tb'[k]| && tb'[k] == tb[k + 1]
    requires Heights(tb) == Ins(Heights(tb'), p, |tb[p + 1]|)
    requires WiredAt(nodes, tb, level, k + 1, i)
    ensures WiredAt(Del(nodes, p), tb', level, k, i)
  {
    NextInsAfter(Heights(tb'), p, |tb[p + 1]|, k, i);
    AtDel(nodes, p, Next(Heights(tb'), k, i));
  }

  lemma DeleteWiresBefore<T>(nodes: seq<Node<T>>, tb: seq<seq<Link<T>>>, tb': seq<seq<Link<T>>>, level: nat, p: nat, k: nat, i: nat)
    requires |nodes| == |tb| == |tb'| + 1 && p + 1 < |tb| && |tb[0]| == |tb'[0]| == ZSKIPLIST_MAXLEVEL && Distinct(nodes)
    requires Heights(tb) == Ins(Heights(tb'), p, |tb[p + 1]|) && |tb[p + 1]| <= level <= ZSKIPLIST_MAXLEVEL
    requires i < ZSKIPLIST_MAXLEVEL ==> Prev(Heights(tb), p, i) == Prev(Heights(tb'), p, i)
    requires k <= p && i < |tb[k]| == |tb'[k]|
    requires WiredAt(nodes, tb, level, k, i) && DeletedAt(nodes, tb, tb', level, p, k, i)
    requires i < |tb[p + 1]| ==> WiredAt(nodes, tb, level, p + 1, i)
    requires level <= i ==> Next(Heights(tb), k, i) == |tb|
    ensures WiredAt(Del(nodes, p), tb', level, k, i)
  {
    var hs', h, n := Heights(tb'), |tb[p + 1]|, Next(Heights(tb'), k, i);
    if i < level {
      CrossingIsPrev(hs', p, i, k);
    }
    if n <= p {
      AtDel(nodes, p, n);
      NextInsBefore(hs', p, h, k, i);
    } else {
      NextInsAcross(hs', p, h, k, i);
      DeleteWiresAcross(nodes, tb, tb', level, p, k, i, n);
    }
  }

  /** The link goes over the place of the deletion: from the deleted node on, or one step less far. */
  lemma DeleteWiresAcross<T>(nodes: seq<Node<T>>, tb: seq<seq<Link<T>>>, tb': seq<seq<Link<T>>>, level: nat, p: nat, k: nat, i: nat, n: nat)
    requires |nodes| == |tb| == |tb'| + 1 && p + 1 < |tb| && |tb[0]| == |tb'[0]| == ZSKIPLIST_MAXLEVEL && Distinct(nodes)
    requires Heights(tb) == Ins(Heights(tb'), p, |tb[p + 1]|) && |tb[p + 1]| <= level <= ZSKIPLIST_MAXLEVEL
    requires i < ZSKIPLIST_MAXLEVEL ==> Prev(Heights(tb), p, i) == Prev(Heights(tb'), p, i)
    requires k <= p && i < |tb[k]| == |tb'[k]|
    requires WiredAt(nodes, tb, level, k, i) && DeletedAt(nodes, tb, tb', level, p, k, i)
    requires i < |tb[p + 1]| ==> WiredAt(nodes, tb, level, p + 1, i)
    requires level <= i ==> Next(Heights(tb), k, i) == |tb|
    requires n == Next(Heights(tb'), k, i) > p && (i < level ==> Prev(Heights(tb'), p, i) == k)
    requires Next(Ins(Heights(tb'), p, |tb[p + 1]|), k, i) == if i < |tb[p + 1]| then p + 1 else n + 1
    ensures WiredAt(Del(nodes, p), tb', level, k, i)
  {
    var hs', h := Heights(tb'), |tb[p + 1]|;
    AtDel(nodes, p, n);
    if i < h {
      NextInsNew(hs', p, h, k, i);
      hide Distinct;
      assert tb[k][i].forward == nodes[p + 1] && tb'[k][i] == Link(tb[p + 1][i].forward, tb[k][i].span + tb[p + 1][i].span - 1);
    } else if i < level {
      NotTheSame(nodes, p + 1, n + 1);
      hide Distinct;
      assert tb[k][i].forward == At(nodes, n + 1);
      assert tb'[k][i] == Link(tb[k][i].forward, tb[k][i].span - 1);
    }
  }

  lemma NotTheSame<T>(nodes: seq<Node<T>>, j: nat, k: nat)
    requires Distinct(nodes) && j < |nodes| && j != k
    ensures At(nodes, k) != nodes[j]
  {}

  // ----- The search path and the steps of an insertion, on the table of links

  /** `rank` gives, for each level of the list, the last node up to `p` that reaches it, and `update` that node. */
  ghost predicate PathTo<T>(nodes: seq<Node<T>>, tb: seq<seq<Link<T>>>, level: nat, p: nat, update: seq<Node<T>>, rank: seq<nat>) {
    && p < |nodes| == |tb| && |tb[0]| == |update| == |rank| == ZSKIPLIST_MAXLEVEL && level <= ZSKIPLIST_MAXLEVEL
    && forall i :: 0 <= i < level ==> rank[i] == LastUpTo(tb, p, i) && update[i] == nodes[rank[i]]
  }

  lemma IsPath<T>(nodes: seq<Node<T>>, tb: seq<seq<Link<T>>>, level: nat, p: nat, update: seq<Node<T>>, rank: seq<nat>)
    requires p < |nodes| == |tb| && |tb[0]| == |update| == |rank| == ZSKIPLIST_MAXLEVEL && level <= ZSKIPLIST_MAXLEVEL
    requires forall i :: 0 <= i < level ==> rank[i] == LastUpTo(tb, p, i) && update[i] == nodes[rank[i]]
    ensures PathTo(nodes, tb, level, p, update, rank)
  {}

  /** The new node has been spliced into the levels below `n`. */
  ghost predicate Spliced<T>(tb: seq<seq<Link<T>>>, tb': seq<seq<Link<T>>>, p: nat, rank: seq<nat>, x: Node<T>, n: nat) {
    && |tb'| == |tb| && n <= |rank|
    && (forall k :: 0 <= k < |tb| ==> |tb'[k]| == |tb[k]|)
    && (forall k, i {:trigger tb'[k][i]} :: 0 <= k < |tb| && 0 <= i < |tb[k]| ==>
          tb'[k][i] == if i < n && k == rank[i] then Link(x, p - k + 1) else tb[k][i])
  }

  /** The links over the new node have grown by one at levels lo..n. */
  ghost predicate Stretched<T>(tb: seq<seq<Link<T>>>, tb': seq<seq<Link<T>>>, rank: seq<nat>, lo: nat, n: nat) {
    && |tb'| == |tb| && n <= |rank|
    && (forall k :: 0 <= k < |tb| ==> |tb'[k]| == |tb[k]|)
    && (forall k, i {:trigger tb'[k][i]} :: 0 <= k < |tb| && 0 <= i < |tb[k]| ==>
          tb'[k][i] == if lo <= i < n && k == rank[i] then Link(tb[k][i].forward, tb[k][i].span + 1) else tb[k][i])
  }

  /** The links of the new node below level `n`. */
  ghost predicate NewLinks<T>(tb: seq<seq<Link<T>>>, links: seq<Link<T>>, p: nat, rank: seq<nat>, n: nat) {
    && n <= |rank| && n <= |links|
    && forall i :: 0 <= i < n ==>
         && rank[i] < |tb| && i < |tb[rank[i]]|
         && links[i] == Link(tb[rank[i]][i].forward, tb[rank[i]][i].span - (p - rank[i]))
  }

  /** The links of the node behind `p` have been cut out of the levels below `n`. */
  ghost predicate Cutting<T>(nodes: seq<Node<T>>, tb: seq<seq<Link<T>>>, tb': seq<seq<Link<T>>>, rank: seq<nat>, p: nat, n: nat) {
    && |tb'| == |tb| == |nodes| && p + 1 < |tb| && n <= |rank|
    && (forall k :: 0 <= k < |tb| ==> |tb'[k]| == |tb[k]|)
    && (forall k, i {:trigger tb'[k][i]} :: 0 <= k < |tb| && 0 <= i < |tb[k]| ==>
          tb'[k][i] == if i < n && k == rank[i] then Shortened(nodes, tb, p, k, i) else tb[k][i])
  }

  lemma CuttingStep<T>(nodes: seq<Node<T>>, tb: seq<seq<Link<T>>>, tb': seq<seq<Link<T>>>, rank: seq<nat>, p: nat, n: nat)
    requires Cutting(nodes, tb, tb', rank, p, n) && n < |rank| && rank[n] <= p && n < |tb[rank[n]]|
    requires forall i :: 0 <= i < n ==> rank[i] <= p
    ensures |tb'| == |tb| && n < |tb'[rank[n]]| && tb'[rank[n]][n] == tb[rank[n]][n] && tb'[p + 1] == tb[p + 1]
    ensures Cutting(nodes, tb, SetAt(tb', rank[n], n, Shortened(nodes, tb, p, rank[n], n)), rank, p, n + 1)
  {}

  lemma CuttingNone<T>(nodes: seq<Node<T>>, tb: seq<seq<Link<T>>>, rank: seq<nat>, p: nat)
    requires |tb| == |nodes| && p + 1 < |tb|
    ensures Cutting(nodes, tb, tb, rank, p, 0)
  {}

  lemma CuttingHeights<T>(nodes: seq<Node<T>>, tb: seq<seq<Link<T>>>, tb': seq<seq<Link<T>>>, rank: seq<nat>, p: nat, n: nat)
    requires Cutting(nodes, tb, tb', rank, p, n)
    ensures Heights(tb') == Heights(tb)
  {}

  /** The loop of zslDeleteNode makes the table of the shorter list. */
  lemma DeletionComplete<T>(nodes: seq<Node<T>>, tb: seq<seq<Link<T>>>, tb': seq<seq<Link<T>>>, level: nat, p: nat,
                            update: seq<Node<T>>, rank: seq<nat>)
    requires PathTo(nodes, tb, level, p, update, rank) && Cutting(nodes, tb, tb', rank, p, level)
    ensures Deleted(nodes, tb, Del(tb', p), level, p)
  {
    var d := Del(tb', p);
    forall k, i | 0 <= k <= p && 0 <= i < |tb[k]| ensures |d[k]| == |tb[k]| && DeletedAt(nodes, tb, d, level, p, k, i) {
      assert d[k] == tb'[k];
      if i < level {
        assert rank[i] == LastUpTo(tb, p, i);
      }
      assert i < |tb'[k]| && tb'[k][i] == tb'[k][i];
    }
    forall k | p + 1 < k < |tb| ensures d[k - 1] == tb[k] {
      assert d[k - 1] == tb'[k];
      forall i | 0 <= i < |tb[k]| ensures tb'[k][i] == tb[k][i] {
        if i < level {
          assert rank[i] == LastUpTo(tb, p, i) <= p;
        }
      }
    }
  }

  /** The search path stays good when the node behind its end goes away. */
  lemma PathStays<T>(nodes: seq<Node<T>>, tb: seq<seq<Link<T>>>, tb': seq<seq<Link<T>>>, level: nat, p: nat,
                     update: seq<Node<T>>, rank: seq<nat>)
    requires PathTo(nodes, tb, level, p, update, rank) && Deleted(nodes, tb, tb', level, p)
    ensures PathTo(Del(nodes, p), tb', level, p, update, rank)
  {
    DeletedHeights(nodes, tb, tb', level, p);
    forall i | 0 <= i < level ensures rank[i] == LastUpTo(tb', p, i) && update[i] == Del(nodes, p)[rank[i]] {
      assert rank[i] == LastUpTo(tb, p, i);
    }
  }

  lemma PathLower<T>(nodes: seq<Node<T>>, tb: seq<seq<Link<T>>>, level: nat, level': nat, p: nat, update: seq<Node<T>>, rank: seq<nat>)
    requires PathTo(nodes, tb, level, p, update, rank) && level' <= level
    ensures PathTo(nodes, tb, level', p, update, rank)
  {}

  lemma PathRanks<T>(nodes: seq<Node<T>>, tb: seq<seq<Link<T>>>, level: nat, p: nat, update: seq<Node<T>>, rank: seq<nat>)
    requires PathTo(nodes, tb, level, p, update, rank)
    ensures level <= |rank| && forall i :: 0 <= i < level ==> rank[i] <= p
  {
    forall i | 0 <= i < level ensures rank[i] <= p {
      assert rank[i] == LastUpTo(tb, p, i);
    }
  }

  /** A link to the node behind `p` means that node reaches the level. */
  lemma ReachesNext<T>(nodes: seq<Node<T>>, tb: seq<seq<Link<T>>>, level: nat, p: nat, k: nat, i: nat)
    requires Wired(nodes, tb, level) && Distinct(nodes) && p + 1 < |nodes| && k <= p && i < |tb[k]|
    requires tb[k][i].forward == nodes[p + 1]
    ensures i < |tb[p + 1]|
  {
    assert WiredAt(nodes, tb, level, k, i);
    assert NextOf(tb, k, i) == p + 1;
  }

  /** The first link of any node is the next node. */
  lemma FirstLink<T>(nodes: seq<Node<T>>, tb: seq<seq<Link<T>>>, level: nat, k: nat)
    requires Wired(nodes, tb, level) && Towers(nodes, tb, level) && k < |nodes|
    ensures 0 < |tb[k]| && tb[k][0].forward == At(nodes, k + 1)
  {
    assert WiredAt(nodes, tb, level, k, 0);
  }

  /** Without links at its top level a list may be lowered by one; with one there, it is as low as it can be. */
  lemma LowerLevel<T>(nodes: seq<Node<T>>, tb: seq<seq<Link<T>>>, level: nat)
    requires Wired(nodes, tb, level) && Towers(nodes, tb, level) && level > 1
    ensures tb[0][level - 1].forward == null ==> Wired(nodes, tb, level - 1) && Towers(nodes, tb, level - 1)
    ensures tb[0][level - 1].forward != null ==> Tight(tb, level)
  {
    assert WiredAt(nodes, tb, level, 0, level - 1);
    var n := NextOf(tb, 0, level - 1);
    if n < |tb| {
      assert |tb[n]| == level;
    } else {
      forall k | 1 <= k < |tb| ensures |tb[k]| <= level - 1 {
        assert Heights(tb)[k] == |tb[k]|;
      }
      var l := level - 1;
      forall k, i | 0 <= k < |tb| && 0 <= i < |tb[k]| ensures WiredAt(nodes, tb, l, k, i) {
        assert WiredAt(nodes, tb, level, k, i);
      }
    }
  }

  /** One link of the table replaced. */
  ghost function SetAt<T>(tb: seq<seq<Link<T>>>, k: nat, i: nat, link: Link<T>): (r: seq<seq<Link<T>>>)
    requires k < |tb| && i < |tb[k]|
  {
    tb[k := tb[k][i := link]]
  }

  lemma SplicedStep<T>(tb: seq<seq<Link<T>>>, tb': seq<seq<Link<T>>>, p: nat, rank: seq<nat>, x: Node<T>, n: nat)
    requires Spliced(tb, tb', p, rank, x, n) && n < |rank| && rank[n] < |tb| && n < |tb[rank[n]]|
    ensures n < |tb'[rank[n]]| && tb'[rank[n]][n] == tb[rank[n]][n]
    ensures Spliced(tb, SetAt(tb', rank[n], n, Link(x, p - rank[n] + 1)), p, rank, x, n + 1)
  {}

  lemma StretchedStep<T>(tb: seq<seq<Link<T>>>, tb': seq<seq<Link<T>>>, rank: seq<nat>, lo: nat, n: nat)
    requires Stretched(tb, tb', rank, lo, n) && lo <= n < |rank| && rank[n] < |tb| && n < |tb[rank[n]]|
    ensures n < |tb'[rank[n]]| && tb'[rank[n]][n] == tb[rank[n]][n]
    ensures Stretched(tb, SetAt(tb', rank[n], n, Link(tb[rank[n]][n].forward, tb[rank[n]][n].span + 1)), rank, lo, n + 1)
  {}

  lemma SplicedNone<T>(tb: seq<seq<Link<T>>>, p: nat, rank: seq<nat>, x: Node<T>, lo: nat)
    requires lo <= |rank|
    ensures Spliced(tb, tb, p, rank, x, 0) && Stretched(tb, tb, rank, lo, lo)
  {}

  /** Both loops of zslInsert together make the table of the longer list. */
  lemma InsertionComplete<T>(nodes: seq<Node<T>>, tb: seq<seq<Link<T>>>, tb1: seq<seq<Link<T>>>, tb2: seq<seq<Link<T>>>,
                             level: nat, p: nat, update: seq<Node<T>>, rank: seq<nat>, x: Node<T>, links: seq<Link<T>>)
    requires PathTo(nodes, tb, level, p, update, rank) && |links| <= level
    requires Spliced(tb, tb1, p, rank, x, |links|) && Stretched(tb1, tb2, rank, |links|, level)
    requires NewLinks(tb, links, p, rank, |links|)
    requires forall k :: 1 <= k < |tb| ==> |tb[k]| <= level
    ensures Inserted(tb, Ins(tb2, p, links), level, p, x, |links|)
  {
    var tb', h := Ins(tb2, p, links), |links|;
    forall k, i | 0 <= k <= p && 0 <= i < |tb[k]| ensures |tb'[k]| == |tb[k]| && InsertedAt(tb, tb', level, p, x, h, k, i) {
      assert tb'[k] == tb2[k];
      if i < level {
        assert rank[i] == LastUpTo(tb, p, i);
      }
      assert tb1[k][i] == if i < h && k == rank[i] then Link(x, p - k + 1) else tb[k][i];
      assert i < |tb1[k]| && tb2[k][i] == if h <= i < level && k == rank[i] then Link(tb1[k][i].forward, tb1[k][i].span + 1) else tb1[k][i];
    }
    forall k | p < k < |tb| ensures tb'[k + 1] == tb[k] {
      assert tb'[k + 1] == tb2[k];
      RowUnchanged(nodes, tb, tb1, tb2, level, p, update, rank, x, h, k);
    }
  }

  lemma RowUnchanged<T>(nodes: seq<Node<T>>, tb: seq<seq<Link<T>>>, tb1: seq<seq<Link<T>>>, tb2: seq<seq<Link<T>>>,
                        level: nat, p: nat, update: seq<Node<T>>, rank: seq<nat>, x: Node<T>, h: nat, k: nat)
    requires PathTo(nodes, tb, level, p, update, rank) && h <= level
    requires Spliced(tb, tb1, p, rank, x, h) && Stretched(tb1, tb2, rank, h, level)
    requires p < k < |tb|
    ensures tb2[k] == tb[k]
  {
    forall i | 0 <= i < |tb[k]| ensures tb2[k][i] == tb[k][i] {
      if i < level {
        assert rank[i] == LastUpTo(tb, p, i) <= p;
      }
    }
  }

  /** The header's links at levels lo..n have been given the span of the whole list. */
  ghost predicate Raised<T>(tb: seq<seq<Link<T>>>, tb': seq<seq<Link<T>>>, length: nat, lo: nat, n: nat) {
    && |tb'| == |tb| >= 1 && n <= |tb[0]| == |tb'[0]|
    && (forall k :: 1 <= k < |tb| ==> tb'[k] == tb[k])
    && (forall i {:trigger tb'[0][i]} :: 0 <= i < |tb[0]| ==>
          tb'[0][i] == if lo <= i < n then Link(tb[0][i].forward, length) else tb[0][i])
  }

  lemma RaisedStep<T>(tb: seq<seq<Link<T>>>, tb': seq<seq<Link<T>>>, length: nat, lo: nat, n: nat)
    requires Raised(tb, tb', length, lo, n) && lo <= n < |tb[0]|
    ensures Raised(tb, SetAt(tb', 0, n, Link(tb'[0][n].forward, length)), length, lo, n + 1)
  {}

  lemma RaisedNone<T>(tb: seq<seq<Link<T>>>, length: nat, lo: nat)
    requires 1 <= |tb| && lo <= |tb[0]|
    ensures Raised(tb, tb, length, lo, lo)
  {}

  lemma RaisedHeights<T>(tb: seq<seq<Link<T>>>, tb': seq<seq<Link<T>>>, length: nat, lo: nat, n: nat)
    requires Raised(tb, tb', length, lo, n)
    ensures Heights(tb') == Heights(tb)
  {
    forall k | 0 <= k < |tb| ensures |tb'[k]| == |tb[k]| {
      assert k > 0 ==> tb'[k] == tb[k];
    }
  }

  lemma RaisedWires<T>(nodes: seq<Node<T>>, tb: seq<seq<Link<T>>>, tb': seq<seq<Link<T>>>, lo: nat, h: nat)
    requires Wired(nodes, tb, lo) && |tb| >= 1 && lo <= h && Raised(tb, tb', |nodes| - 1, lo, h)
    requires forall k :: 1 <= k < |tb| ==> |tb[k]| <= lo
    ensures Wired(nodes, tb', h)
  {
    RaisedHeights(tb, tb', |nodes| - 1, lo, h);
    forall k, i | 0 <= k < |tb'| && 0 <= i < |tb'[k]| ensures WiredAt(nodes, tb', h, k, i) {
      assert k > 0 ==> tb'[k] == tb[k];
      assert WiredAt(nodes, tb, lo, k, i);
      if lo <= i {
        NothingAbove(tb, lo, k, i);
      }
    }
  }

  lemma RaisedPath<T>(nodes: seq<Node<T>>, tb: seq<seq<Link<T>>>, tb': seq<seq<Link<T>>>, lo: nat, h: nat, p: nat,
                      update: seq<Node<T>>, rank: seq<nat>, update': seq<Node<T>>, rank': seq<nat>)
    requires PathTo(nodes, tb, lo, p, update, rank) && lo <= h <= ZSKIPLIST_MAXLEVEL && Raised(tb, tb', |nodes| - 1, lo, h)
    requires forall k :: 1 <= k < |tb| ==> |tb[k]| <= lo
    requires |update'| == |rank'| == ZSKIPLIST_MAXLEVEL
    requires forall i :: 0 <= i < lo ==> update'[i] == update[i] && rank'[i] == rank[i]
    requires forall i :: lo <= i < h ==> update'[i] == nodes[0] && rank'[i] == 0
    ensures PathTo(nodes, tb', h, p, update', rank')
  {
    RaisedHeights(tb, tb', |nodes| - 1, lo, h);
    forall i | 0 <= i < h ensures rank'[i] == LastUpTo(tb', p, i) && update'[i] == nodes[rank'[i]] {
      if lo <= i {
        PrevIs(Heights(tb), p, i, 0);
      } else {
        assert rank[i] == LastUpTo(tb, p, i);
      }
    }
  }

  lemma PathAt<T>(nodes: seq<Node<T>>, tb: seq<seq<Link<T>>>, level: nat, p: nat, update: seq<Node<T>>, rank: seq<nat>, i: nat)
    requires PathTo(nodes, tb, level, p, update, rank) && i < level
    ensures |rank| == |update| == ZSKIPLIST_MAXLEVEL && level <= ZSKIPLIST_MAXLEVEL
    ensures rank[i] <= p < |nodes| == |tb| && update[i] == nodes[rank[i]] && i < |tb[rank[i]]| && rank[i] == LastUpTo(tb, p, i)
  {}

  lemma NewLinksStep<T>(tb: seq<seq<Link<T>>>, links: seq<Link<T>>, p: nat, rank: seq<nat>, n: nat, link: Link<T>)
    requires NewLinks(tb, links, p, rank, n) && n < |links| && n < |rank| && rank[n] < |tb| && n < |tb[rank[n]]|
    requires link == Link(tb[rank[n]][n].forward, tb[rank[n]][n].span - (p - rank[n]))
    ensures NewLinks(tb, links[n := link], p, rank, n + 1)
  {}

  lemma DistinctIns<A>(s: seq<A>, p: nat, x: A)
    requires Distinct(s) && p < |s| && x !in s
    ensures Distinct(Ins(s, p, x))
  {
    var t := Ins(s, p, x);
    forall i, j | 0 <= i < j < |t| ensures t[i] != t[j] {
      var i', j' := if i <= p then i else i - 1, if j <= p then j else j - 1;
      if i == p + 1 {
        assert t[j] == s[j - 1];
      } else if j == p + 1 {
        assert t[i] == s[i];
      } else {
        assert t[i] == s[i'] && t[j] == s[j'];
      }
    }
  }

  lemma DistinctDel<A>(s: seq<A>, p: nat)
    requires Distinct(s) && p + 1 < |s|
    ensures Distinct(Del(s, p))
  {
    var t := Del(s, p);
    forall i, j | 0 <= i < j < |t| ensures t[i] != t[j] {
      var i', j' := if i <= p then i else i + 1, if j <= p then j else j + 1;
      assert t[i] == s[i'] && t[j] == s[j'];
    }
  }

  lemma TowersIns<T>(nodes: seq<Node<T>>, tb: seq<seq<Link<T>>>, level: nat, p: nat, x: Node<T>, links: seq<Link<T>>)
    requires Towers(nodes, tb, level) && p < |nodes| && x !in nodes && x.obj.Some? && 1 <= |links| <= level
    ensures Towers(Ins(nodes, p, x), Ins(tb, p, links), level)
  {
    DistinctIns(nodes, p, x);
    hide Distinct;
  }

  lemma TowersDel<T>(nodes: seq<Node<T>>, tb: seq<seq<Link<T>>>, level: nat, p: nat)
    requires Towers(nodes, tb, level) && p + 1 < |nodes|
    ensures Towers(Del(nodes, p), Del(tb, p), level)
  {
    DistinctDel(nodes, p);
    hide Distinct;
  }

  /** Levels of equal heights make equal towers. */
  lemma TowersSameHeights<T>(nodes: seq<Node<T>>, tb: seq<seq<Link<T>>>, tb': seq<seq<Link<T>>>, level: nat)
    requires Towers(nodes, tb, level) && Heights(tb') == Heights(tb)
    ensures Towers(nodes, tb', level)
  {
    hide Distinct;
    forall k | 0 <= k < |tb| ensures |tb'[k]| == |tb[k]| {
      assert Heights(tb)[k] == Heights(tb')[k];
    }
  }

  lemma SplicedHeights<T>(tb: seq<seq<Link<T>>>, tb1: seq<seq<Link<T>>>, tb2: seq<seq<Link<T>>>, p: nat, rank: seq<nat>, x: Node<T>,
                          h: nat, lo: nat, n: nat)
    requires Spliced(tb, tb1, p, rank, x, h) && Stretched(tb1, tb2, rank, lo, n)
    ensures Heights(tb2) == Heights(tb)
  {}

  lemma TightIns<T>(tb: seq<seq<Link<T>>>, tb': seq<seq<Link<T>>>, level: nat, level': nat, p: nat, links: seq<Link<T>>)
    requires Tight(tb, level) && Heights(tb') == Heights(tb) && p < |tb| && 1 <= |links|
    requires level' == if |links| > level then |links| else level
    ensures Tight(Ins(tb', p, links), level')
  {
    var t := Ins(tb', p, links);
    if level' == |links| {
      assert |t[p + 1]| == level';
    } else if level' != 1 {
      var k :| 1 <= k < |tb| && |tb[k]| == level;
      assert Heights(tb')[k] == Heights(tb)[k];
      assert |t[if k <= p then k else k + 1]| == level';
    }
  }

  /** Putting an element where its search ends keeps the order. */
  lemma SortedIns<T(!new)>(cmp: (T, T) -> int, es: seq<Elem<T>>, e: Elem<T>, p: nat)
    requires StrictOrder(cmp) && Sorted(cmp, es) && Cuts(cmp, es, Before(e), p) && e !in es
    ensures Sorted(cmp, es[..p] + [e] + es[p..])
  {
    var t := es[..p] + [e] + es[p..];
    forall i, j | 0 <= i < j < |t| ensures Precedes(cmp, t[i], t[j]) {
      if i == p {
        CutsAt(cmp, es, Before(e), p, j);
        PrecedesTotal(cmp, es[j - 1], e);
      } else if j == p {
        CutsAt(cmp, es, Before(e), p, i + 1);
      }
    }
  }

  lemma SortedDel<T>(cmp: (T, T) -> int, es: seq<Elem<T>>, p: nat)
    requires Sorted(cmp, es) && p < |es|
    ensures Sorted(cmp, es[..p] + es[p + 1..])
  {}

  lemma ElemsIns<T>(nodes: seq<Node<T>>, p: nat, x: Node<T>)
    requires p < |nodes| && x.obj.Some? && forall k :: 1 <= k < |nodes| ==> nodes[k].obj.Some?
    ensures forall k :: 1 <= k < |nodes| + 1 ==> Ins(nodes, p, x)[k].obj.Some?
    ensures ElemsOf(Ins(nodes, p, x)) == ElemsOf(nodes)[..p] + [ElemOf(x)] + ElemsOf(nodes)[p..]
  {
    var t, es := Ins(nodes, p, x), ElemsOf(nodes);
    var r := es[..p] + [ElemOf(x)] + es[p..];
    forall k | 1 <= k < |t| ensures t[k].obj.Some? && r[k - 1] == ElemOf(t[k]) {
      if k > p + 1 {
        assert t[k] == nodes[k - 1];
      }
    }
    forall k | 0 <= k < |r| ensures r[k] == ElemsOf(t)[k] {
      assert ElemsOf(t)[(k + 1) - 1] == ElemOf(t[k + 1]);
    }
  }

  lemma ElemsDel<T>(nodes: seq<Node<T>>, p: nat)
    requires p + 1 < |nodes| && forall k :: 1 <= k < |nodes| ==> nodes[k].obj.Some?
    ensures forall k :: 1 <= k < |nodes| - 1 ==> Del(nodes, p)[k].obj.Some?
    ensures ElemsOf(Del(nodes, p)) == ElemsOf(nodes)[..p] + ElemsOf(nodes)[p + 1..]
  {
    var t, es := Del(nodes, p), ElemsOf(nodes);
    var r := es[..p] + es[p + 1..];
    forall k | 1 <= k < |t| ensures t[k].obj.Some? && r[k - 1] == ElemOf(t[k]) {
      if k > p {
        assert t[k] == nodes[k + 1];
      }
    }
    forall k | 0 <= k < |r| ensures r[k] == ElemsOf(t)[k] {
      assert ElemsOf(t)[(k + 1) - 1] == ElemOf(t[k + 1]);
    }
  }

  lemma RaisedRow<T>(tb: seq<seq<Link<T>>>, tb': seq<seq<Link<T>>>, length: nat, lo: nat, n: nat)
    requires Raised(tb, tb', length, lo, n)
    ensures |tb'| == |tb| >= 1 && |tb'[0]| == |tb[0]|
  {}

  lemma TowersHigher<T>(nodes: seq<Node<T>>, tb: seq<seq<Link<T>>>, level: nat, h: nat)
    requires Towers(nodes, tb, level) && level <= h <= ZSKIPLIST_MAXLEVEL
    ensures Towers(nodes, tb, h)
  {}

  lemma NewLinksNone<T>(tb: seq<seq<Link<T>>>, links: seq<Link<T>>, p: nat, rank: seq<nat>)
    ensures NewLinks(tb, links, p, rank, 0)
  {}

  lemma StretchedNone<T>(nodes: seq<Node<T>>, tb: seq<seq<Link<T>>>, tb1: seq<seq<Link<T>>>, level: nat, p: nat,
                         update: seq<Node<T>>, rank: seq<nat>, h: nat)
    requires PathTo(nodes, tb, level, p, update, rank) && h <= level
    ensures Stretched(tb1, tb1, rank, h, h)
  {}

  lemma SameHeight<T>(tb: seq<seq<Link<T>>>, tb': seq<seq<Link<T>>>, k: nat)
    requires Heights(tb') == Heights(tb) && k < |tb|
    ensures |tb'| == |tb| && |tb'[k]| == |tb[k]|
  {
    assert Heights(tb')[k] == Heights(tb)[k];
  }

  lemma FirstNewLink<T>(tb: seq<seq<Link<T>>>, links: seq<Link<T>>, p: nat, rank: seq<nat>, n: nat)
    requires NewLinks(tb, links, p, rank, n) && n > 0 && |rank| > 0 && rank[0] == p
    ensures p < |tb| && |tb[p]| > 0 && |links| > 0 && links[0].forward == tb[p][0].forward
  {}

  lemma InsHeader<A>(s: seq<A>, p: nat, x: A)
    requires p < |s|
    ensures Ins(s, p, x)[0] == s[0]
  {}

  lemma SameLength<T>(tb: seq<seq<Link<T>>>, tb': seq<seq<Link<T>>>)
    ensures Heights(tb') == Heights(tb) ==> |tb'| == |tb|
  {}

  lemma ElemOfNew<T>(x: Node<T>, score: real, obj: T)
    requires x.score == score && x.obj == Some(obj)
    ensures ElemOf(x) == Elem(score, obj)
  {}

  lemma ShortenedIs<T>(nodes: seq<Node<T>>, tb: seq<seq<Link<T>>>, p: nat, k: nat, i: nat)
    requires |nodes| == |tb| && p + 1 < |tb| && k < |tb| && i < |tb[k]|
    ensures tb[k][i].forward == nodes[p + 1] && i < |tb[p + 1]|
            ==> Shortened(nodes, tb, p, k, i) == Link(tb[p + 1][i].forward, tb[k][i].span + (tb[p + 1][i].span - 1))
    ensures tb[k][i].forward != nodes[p + 1] ==> Shortened(nodes, tb, p, k, i) == Link(tb[k][i].forward, tb[k][i].span - 1)
  {}

  lemma CutRow<T>(nodes: seq<Node<T>>, tb: seq<seq<Link<T>>>, tb': seq<seq<Link<T>>>, level: nat, rank: seq<nat>, p: nat,
                  update: seq<Node<T>>)
    requires PathTo(nodes, tb, level, p, update, rank) && Cutting(nodes, tb, tb', rank, p, level)
    ensures p + 1 < |tb| == |tb'| && tb'[p + 1] == tb[p + 1]
  {
    var k := p + 1;
    forall i | 0 <= i < |tb[k]| ensures tb'[k][i] == tb[k][i] {
      if i < level {
        assert rank[i] == LastUpTo(tb, p, i) <= p;
      }
    }
  }

  lemma TightOne<T>(tb: seq<seq<Link<T>>>)
    ensures Tight(tb, 1)
  {}

  lemma DelSubset<A>(s: seq<A>, p: nat)
    requires p + 1 < |s|
    ensures forall k :: 0 <= k < |Del(s, p)| ==> Del(s, p)[k] in s
  {}

  lemma DelHeader<A>(s: seq<A>, p: nat)
    requires p + 1 < |s|
    ensures Del(s, p)[0] == s[0]
  {}

  lemma AtNext<T>(nodes: seq<Node<T>>, p: nat)
    ensures p + 1 < |nodes| ==> At(nodes, p + 1) == nodes[p + 1]
    ensures p + 1 >= |nodes| ==> At(nodes, p + 1) == null
  {}

  lemma ElemFields<T>(n: Node<T>)
    requires n.obj.Some?
    ensures ElemOf(n) == Elem(n.score, n.obj.value)
  {}

  /** An element of a sorted list stands right behind the elements that precede it. */
  lemma FoundAtCut<T(!new)>(cmp: (T, T) -> int, es: seq<Elem<T>>, e: Elem<T>, p: nat)
    requires StrictOrder(cmp) && Sorted(cmp, es) && Cuts(cmp, es, Before(e), p)
    ensures e in es <==> p < |es| && es[p] == e
  {
    if e in es {
      var m :| 0 <= m < |es| && es[m] == e;
      CutsAt(cmp, es, Before(e), p, m + 1);
      PrecedesTotal(cmp, e, e);
      if p < m {
        CutsAt(cmp, es, Before(e), p, p + 1);
      }
    }
  }

  // ----- Positions and ranges of a sorted list

  /** No object occurs twice, as the hash table of a sorted set ensures. */
  ghost predicate DistinctObjs<T>(es: seq<Elem<T>>) {
    forall i, j :: 0 <= i < j < |es| ==> es[i].obj != es[j].obj
  }

  lemma RankFound<T(!new)>(cmp: (T, T) -> int, es: seq<Elem<T>>, e: Elem<T>, p: nat, rank: nat)
    requires Cuts(cmp, es, UpTo(e), p) && DistinctObjs(es) && StrictOrder(cmp)
    requires 1 <= rank <= p && es[rank - 1].obj == e.obj
    ensures forall k :: 0 <= k < |es| && es[k] == e ==> rank == k + 1
  {
    CutsAt(cmp, es, UpTo(e), p, rank);
  }

  lemma RankMissing<T(!new)>(cmp: (T, T) -> int, es: seq<Elem<T>>, e: Elem<T>, p: nat)
    requires Cuts(cmp, es, UpTo(e), p) && Sorted(cmp, es) && StrictOrder(cmp)
    ensures forall k :: 0 <= k < |es| && es[k] == e ==> p > 0 && es[p - 1] == e
  {
    forall k | 0 <= k < |es| && es[k] == e ensures p > 0 && es[p - 1] == e {
      CutsAt(cmp, es, UpTo(e), p, k + 1);
      PrecedesTotal(cmp, e, e);
      if k + 1 < p {
        CutsAt(cmp, es, UpTo(e), p, p);
        assert Precedes(cmp, es[k], es[p - 1]);
        PrecedesTotal(cmp, e, es[p - 1]);
      }
    }
  }

  lemma RankCut<T>(cmp: (T, T) -> int, es: seq<Elem<T>>, rank: nat, p: nat)
    requires Cuts(cmp, es, RankUpTo(rank), p)
    ensures p == if rank <= |es| then rank else |es|
  {
    if 1 <= rank <= |es| {
      CutsAt(cmp, es, RankUpTo(rank), p, rank);
    }
    if p < |es| {
      CutsAt(cmp, es, RankUpTo(rank), p, p + 1);
    }
    if p > 0 {
      CutsAt(cmp, es, RankUpTo(rank), p, p);
    }
  }

  /** The 0-based index at which the positions from `start` on begin in a list of `n` elements. */
  function FirstIndex(start: nat, n: nat): (lo: nat)
    ensures lo <= n
  {
    if start == 0 then 0 else if start - 1 <= n then start - 1 else n
  }

  /** How many of the positions start..end exist in a list of `n` elements. */
  function CountRanks(start: nat, end: nat, n: nat): (c: nat)
    ensures FirstIndex(start, n) + c <= n
  {
    var hi := if end <= n then end else n;
    if FirstIndex(start, n) <= hi then hi - FirstIndex(start, n) else 0
  }

  lemma CountIs(start: nat, end: nat, n: nat, removed: nat)
    requires FirstIndex(start, n) + removed <= n && (removed == 0 || FirstIndex(start, n) + removed <= end)
    requires FirstIndex(start, n) + removed == n || FirstIndex(start, n) + removed + 1 > end
    ensures removed == CountRanks(start, end, n)
  {}

  lemma RankBelowCut<T>(cmp: (T, T) -> int, es: seq<Elem<T>>, start: nat, p: nat)
    requires Cuts(cmp, es, RankBelow(start), p)
    ensures p == FirstIndex(start, |es|)
  {
    if p > 0 {
      CutsAt(cmp, es, RankBelow(start), p, p);
    }
    if p < |es| {
      CutsAt(cmp, es, RankBelow(start), p, p + 1);
    }
  }

  lemma ScoresAscend<T>(cmp: (T, T) -> int, es: seq<Elem<T>>)
    requires Sorted(cmp, es)
    ensures forall i, j :: 0 <= i <= j < |es| ==> es[i].score <= es[j].score
  {
    forall i, j | 0 <= i <= j < |es| ensures es[i].score <= es[j].score {
      if i < j {
        assert Precedes(cmp, es[i], es[j]);
      }
    }
  }

  lemma FirstOfRange<T>(cmp: (T, T) -> int, es: seq<Elem<T>>, range: Range, p: nat)
    requires Cuts(cmp, es, BelowMin(range), p) && es != [] && GteMin(es[|es| - 1].score, range)
    requires forall i, j :: 0 <= i <= j < |es| ==> es[i].score <= es[j].score
    ensures p < |es| && GteMin(es[p].score, range)
    ensures forall k :: 0 <= k < p ==> !InRange(es[k].score, range)
    ensures LteMax(es[p].score, range) <==> InRange(es[p].score, range)
    ensures !LteMax(es[p].score, range) ==> forall k :: 0 <= k < |es| ==> !InRange(es[k].score, range)
  {
    CutsAt(cmp, es, BelowMin(range), p, |es|);
    CutsAt(cmp, es, BelowMin(range), p, p + 1);
    forall k | 0 <= k < p ensures !InRange(es[k].score, range) {
      CutsAt(cmp, es, BelowMin(range), p, k + 1);
    }
  }

  lemma LastOfRange<T>(cmp: (T, T) -> int, es: seq<Elem<T>>, range: Range, p: nat)
    requires Cuts(cmp, es, WithinMax(range), p) && es != [] && LteMax(es[0].score, range)
    requires forall i, j :: 0 <= i <= j < |es| ==> es[i].score <= es[j].score
    ensures 1 <= p <= |es| && LteMax(es[p - 1].score, range)
    ensures forall k :: p - 1 < k < |es| ==> !InRange(es[k].score, range)
    ensures GteMin(es[p - 1].score, range) <==> InRange(es[p - 1].score, range)
    ensures !GteMin(es[p - 1].score, range) ==> forall k :: 0 <= k < |es| ==> !InRange(es[k].score, range)
  {
    CutsAt(cmp, es, WithinMax(range), p, 1);
    CutsAt(cmp, es, WithinMax(range), p, p);
    forall k | p - 1 < k < |es| ensures !InRange(es[k].score, range) {
      CutsAt(cmp, es, WithinMax(range), p, k + 1);
    }
  }

  /** `es` without `n` elements from `lo` on. */
  ghost function Without<T>(es: seq<Elem<T>>, lo: nat, n: nat): seq<Elem<T>>
    requires lo + n <= |es|
  {
    es[..lo] + es[lo + n..]
  }

  ghost function Objs<T>(es: seq<Elem<T>>): set<T> {
    set e | e in es :: e.obj
  }

  lemma WithoutNone<T>(es: seq<Elem<T>>, lo: nat)
    requires lo <= |es|
    ensures Without(es, lo, 0) == es
  {}

  lemma WithoutLength<T>(es: seq<Elem<T>>, lo: nat, n: nat)
    requires lo + n <= |es|
    ensures |Without(es, lo, n)| == |es| - n
  {}

  lemma WithoutNext<T>(es: seq<Elem<T>>, lo: nat, n: nat)
    requires lo + n < |es|
    ensures lo < |Without(es, lo, n)| && Without(es, lo, n)[lo] == es[lo + n]
  {}

  lemma WithoutStep<T>(es: seq<Elem<T>>, lo: nat, n: nat)
    requires lo + n <= |es| && lo < |Without(es, lo, n)|
    ensures lo + n < |es| && Without(es, lo, n)[lo] == es[lo + n]
    ensures Without(es, lo, n)[..lo] + Without(es, lo, n)[lo + 1..] == Without(es, lo, n + 1)
  {}

  lemma DictNone<T>(dict: map<T, real>, es: seq<Elem<T>>, lo: nat)
    requires lo <= |es|
    ensures dict == dict - Objs(es[lo..lo + 0])
  {
    assert es[lo..lo + 0] == [];
  }

  lemma DictStep<T>(dict: map<T, real>, es: seq<Elem<T>>, lo: nat, n: nat)
    requires lo + n < |es|
    ensures (dict - Objs(es[lo..lo + n])) - {es[lo + n].obj} == dict - Objs(es[lo..lo + (n + 1)])
  {
    assert es[lo..lo + (n + 1)] == es[lo..lo + n] + [es[lo + n]];
    assert Objs(es[lo..lo + (n + 1)]) == Objs(es[lo..lo + n]) + {es[lo + n].obj};
  }

  /** After `n` elements from `lo` on have been taken out of the list, and their objects out of the hash table. */
  ghost predicate TakenOut<T>(es: seq<Elem<T>>, now: seq<Elem<T>>, dict0: map<T, real>, dict: map<T, real>, lo: nat, n: nat) {
    lo + n <= |es| && now == Without(es, lo, n) && dict == dict0 - Objs(es[lo..lo + n])
  }

  lemma NoneTakenOut<T>(es: seq<Elem<T>>, dict: map<T, real>, lo: nat)
    requires lo <= |es|
    ensures TakenOut(es, es, dict, dict, lo, 0)
  {
    WithoutNone(es, lo);
    DictNone(dict, es, lo);
  }

  lemma OneTakenOut<T>(es: seq<Elem<T>>, now: seq<Elem<T>>, dict0: map<T, real>, dict: map<T, real>, lo: nat, n: nat)
    requires TakenOut(es, now, dict0, dict, lo, n) && lo < |now|
    ensures lo + n < |es| && now[lo] == es[lo + n]
    ensures TakenOut(es, now[..lo] + now[lo + 1..], dict0, dict - {now[lo].obj}, lo, n + 1)
  {
    WithoutStep(es, lo, n);
    DictStep(dict0, es, lo, n);
  }

  lemma TakenOutIs<T>(es: seq<Elem<T>>, now: seq<Elem<T>>, dict0: map<T, real>, dict: map<T, real>, lo: nat, n: nat)
    requires TakenOut(es, now, dict0, dict, lo, n)
    ensures lo + n <= |es| && now == Without(es, lo, n) && |now| == |es| - n && dict == dict0 - Objs(es[lo..lo + n])
  {
    WithoutLength(es, lo, n);
  }

  /** The elements between the cut and the first one past the maximum are exactly those in range. */
  lemma RangeIsSlice<T>(cmp: (T, T) -> int, es: seq<Elem<T>>, range: Range, p: nat, n: nat)
    requires Cuts(cmp, es, BelowMin(range), p) && Sorted(cmp, es) && p + n <= |es|
    requires forall k :: p <= k < p + n ==> LteMax(es[k].score, range)
    requires p + n < |es| ==> !LteMax(es[p + n].score, range)
    ensures forall k :: 0 <= k < |es| ==> (InRange(es[k].score, range) <==> p <= k < p + n)
  {
    ScoresAscend(cmp, es);
    forall k | 0 <= k < |es| ensures InRange(es[k].score, range) <==> p <= k < p + n {
      CutsAt(cmp, es, BelowMin(range), p, k + 1);
    }
  }

  // ----- The list

  ghost predicate Linked<T>(nodes: seq<Node<T>>, tb: seq<seq<Link<T>>>)
    reads nodes`level
  {
    |nodes| == |tb| && forall k :: 0 <= k < |nodes| ==> nodes[k].level == tb[k]
  }

  /** What the back pointer of node `k` must be: nothing for the header and the first node, else the node before. */
  ghost function NodeBefore<T>(nodes: seq<Node<T>>, k: nat): Node?<T>
    requires k < |nodes|
  {
    if k <= 1 then null else nodes[k - 1]
  }

  ghost predicate Backs<T>(nodes: seq<Node<T>>)
    reads nodes`backward
  {
    forall k {:trigger NodeBefore(nodes, k)} :: 0 <= k < |nodes| ==> nodes[k].backward == NodeBefore(nodes, k)
  }

  /** Back pointers while `x` is being put behind `p`. */
  ghost predicate BackedAround<T>(nodes: seq<Node<T>>, p: nat, x: Node<T>)
    reads nodes`backward, x`backward
  {
    && p < |nodes|
    && (forall k {:trigger NodeBefore(nodes, k)} :: 0 <= k < |nodes| && k != p + 1 ==> nodes[k].backward == NodeBefore(nodes, k))
    && (p + 1 < |nodes| ==> nodes[p + 1].backward == x)
    && x.backward == if p == 0 then null else nodes[p]
  }

  /** Back pointers while the node behind `p` is being taken out. */
  ghost predicate BackedPast<T>(nodes: seq<Node<T>>, p: nat)
    reads nodes`backward
  {
    && p + 1 < |nodes|
    && (forall k {:trigger NodeBefore(nodes, k)} :: 0 <= k < |nodes| && k != p + 2 ==> nodes[k].backward == NodeBefore(nodes, k))
    && (p + 2 < |nodes| ==> nodes[p + 2].backward == NodeBefore(nodes, p + 1))
  }

  lemma LinkedIns<T>(nodes: seq<Node<T>>, tb: seq<seq<Link<T>>>, p: nat, x: Node<T>)
    requires Linked(nodes, tb) && p < |nodes|
    ensures |tb| == |nodes| && Linked(Ins(nodes, p, x), Ins(tb, p, x.level))
  {
    var t := Ins(nodes, p, x);
    forall k | 0 <= k < |t| ensures t[k].level == Ins(tb, p, x.level)[k] {
      if k > p + 1 {
        assert t[k] == nodes[k - 1];
      }
    }
  }

  lemma LinkedDel<T>(nodes: seq<Node<T>>, tb: seq<seq<Link<T>>>, p: nat)
    requires Linked(nodes, tb) && p + 1 < |nodes|
    ensures |tb| == |nodes| && Linked(Del(nodes, p), Del(tb, p))
  {
    var t := Del(nodes, p);
    forall k | 0 <= k < |t| ensures t[k].level == Del(tb, p)[k] {
      if k > p {
        assert t[k] == nodes[k + 1];
      }
    }
  }

  lemma BacksIns<T>(nodes: seq<Node<T>>, p: nat, x: Node<T>)
    requires BackedAround(nodes, p, x)
    ensures Backs(Ins(nodes, p, x))
  {
    var t := Ins(nodes, p, x);
    forall k | 0 <= k < |t| ensures t[k].backward == NodeBefore(t, k) {
      if k <= p {
        assert t[k] == nodes[k] && NodeBefore(nodes, k) == NodeBefore(t, k);
      } else if k > p + 2 {
        assert t[k] == nodes[k - 1] && t[k - 1] == nodes[k - 2] && NodeBefore(nodes, k - 1) == NodeBefore(t, k);
      } else if k == p + 2 {
        assert t[k] == nodes[k - 1];
      }
    }
  }

  lemma BacksDel<T>(nodes: seq<Node<T>>, p: nat)
    requires BackedPast(nodes, p)
    ensures Backs(Del(nodes, p))
  {
    var t := Del(nodes, p);
    forall k | 0 <= k < |t| ensures t[k].backward == NodeBefore(t, k) {
      if k <= p {
        assert t[k] == nodes[k] && NodeBefore(nodes, k) == NodeBefore(t, k);
      } else if k > p + 1 {
        assert t[k] == nodes[k + 1] && t[k - 1] == nodes[k] && NodeBefore(nodes, k + 1) == NodeBefore(t, k);
      } else {
        assert t[k] == nodes[k + 1] && NodeBefore(nodes, p + 1) == NodeBefore(t, k);
      }
    }
  }

  lemma LastIns<A>(s: seq<A>, p: nat, x: A)
    requires p < |s|
    ensures |Ins(s, p, x)| == |s| + 1 && Ins(s, p, x)[|s|] == if p + 1 < |s| then s[|s| - 1] else x
  {}

  lemma LastDel<T>(s: seq<Node<T>>, p: nat)
    requires p + 1 < |s|
    ensures |Del(s, p)| == |s| - 1
    ensures p + 2 < |s| ==> Del(s, p)[|s| - 2] == s[|s| - 1]
    ensures p + 2 == |s| ==> NodeBefore(s, p + 1) == if |s| == 2 then null else Del(s, p)[|s| - 2]
  {}

  /** The list is no higher than its highest node. */
  ghost predicate Tight<T>(tb: seq<seq<Link<T>>>, level: nat) {
    level == 1 || exists k :: 1 <= k < |tb| && |tb[k]| == level
  }

  class Skiplist<T(==, !new)> {
    const cmp: (T, T) -> int
    const header: Node<T>
    var tail: Node?<T>
    var length: nat
    var level: nat
    ghost var nodes: seq<Node<T>>     // the header and the nodes in level-0 order
    ghost var tb: seq<seq<Link<T>>>   // their links

    /** Everything about nodes and links, apart from the level being minimal. */
    ghost predicate Core()
      reads this, nodes
    {
      Towers(nodes, tb, level) && nodes[0] == header && Wired(nodes, tb, level) && Linked(nodes, tb)
    }

    ghost predicate Valid()
      reads this, nodes
    {
      && Core()
      && length == |nodes| - 1
      && Tight(tb, level)
      && Backs(nodes)
      && tail == (if length == 0 then null else nodes[length])
      && StrictOrder(cmp) && Sorted(cmp, ElemsOf(nodes))
    }

    /** The elements in order. */
    ghost function Contents(): (es: seq<Elem<T>>)
      requires Valid()
      reads this, nodes
      ensures |es| == length
    {
      ElemsOf(nodes)
    }

    /** zslCreate. */
    constructor (cmp: (T, T) -> int)
      requires StrictOrder(cmp)
      ensures Valid() && Contents() == [] && this.cmp == cmp
      ensures fresh(nodes)
    {
      this.cmp := cmp;
      var h := new Node(ZSKIPLIST_MAXLEVEL, 0.0, None);
      header, tail, length, level := h, null, 0, 1;
      nodes, tb := [h], [h.level];
    }

    /** What the link of node `r` at level `i` holds. */
    lemma LinkAt(r: nat, i: nat)
      requires Core() && r < |nodes| && i < level && i < |tb[r]|
      ensures |nodes| == |tb| && |nodes[r].level| == |tb[r]| && |tb[0]| == ZSKIPLIST_MAXLEVEL
      ensures level <= ZSKIPLIST_MAXLEVEL
      ensures var n, link := NextOf(tb, r, i), nodes[r].level[i];
              && link.forward == At(nodes, n)
              && link.span == Dist(Heights(tb), r, i)
              && (n < |nodes| ==> link.forward == nodes[n] && r + link.span == n && nodes[n].obj.Some?)
              && (n == |nodes| ==> link.forward == null)
    {
      assert WiredAt(nodes, tb, level, r, i);
    }

    lemma CutFacts(probe: Probe<T>) returns (p: nat)
      requires Valid()
      ensures p <= length && Cuts(cmp, Contents(), probe, p)
      ensures |nodes| == |tb| == length + 1 && nodes[0] == header && |tb[0]| == ZSKIPLIST_MAXLEVEL
      ensures 1 <= level <= ZSKIPLIST_MAXLEVEL && 0 < |tb[p]| && LastUpTo(tb, p, 0) == p
    {
      p := Cut(cmp, Contents(), probe, length);
      ProbesCut(cmp, Contents(), probe);
    }

    /** The search loop shared by the operations: the nodes from which each level links over the cut. */
    method Descend(probe: Probe<T>) returns (x: Node<T>, update: seq<Node<T>>, rank: seq<nat>, ghost p: nat)
      requires Valid()
      ensures p <= length && Cuts(cmp, Contents(), probe, p)
      ensures PathTo(nodes, tb, level, p, update, rank)
      ensures x == nodes[p] && rank[0] == p
    {
      hide *;
      p := CutFacts(probe);
      x := header;
      update, rank := seq(ZSKIPLIST_MAXLEVEL, _ => header), seq(ZSKIPLIST_MAXLEVEL, _ => 0);
      var i: nat, r: nat := level, 0;
      while i > 0
        invariant 0 <= i <= level && r <= p && r < |nodes| && x == nodes[r]
        invariant i == level ==> r == 0
        invariant i < level ==> r == LastUpTo(tb, p, i)
        invariant |update| == |rank| == ZSKIPLIST_MAXLEVEL
        invariant forall j :: i <= j < level ==> rank[j] == LastUpTo(tb, p, j) && update[j] == nodes[rank[j]]
      {
        i := i - 1;
        x, r := Forward(probe, i, x, r, p);
        update, rank := update[i := x], rank[i := r];
      }
      IsPath(nodes, tb, level, p, update, rank);
    }

    /** One step of a search along level `i` from node `r`: the next node passes exactly when it is within the cut. */
    lemma StepFacts(probe: Probe<T>, p: nat, r: nat, i: nat)
      requires Valid() && i < level && p <= length && Cuts(cmp, Contents(), probe, p)
      requires r <= p && i < |tb[r]|
      ensures |nodes| == length + 1 == |tb| && i < |nodes[r].level|
      ensures var n, link := NextOf(tb, r, i), nodes[r].level[i];
              && (n < |nodes| ==> link.forward == nodes[n] && nodes[n].obj.Some? && r + link.span == n)
              && (n < |nodes| ==> (Passes(cmp, probe, ElemOf(nodes[n]), n) <==> n <= p))
              && (n == |nodes| ==> link.forward == null)
              && (n > p ==> r == LastUpTo(tb, p, i))
    {
      hide *;
      ValidSizes();
      LinkAt(r, i);
      var n := NextOf(tb, r, i);
      if n < |nodes| {
        ElemAt(n);
        CutsAt(cmp, Contents(), probe, p, n);
      }
      if n > p {
        IsLast(tb, p, i, r);
      }
    }

    lemma ValidSizes()
      requires Valid()
      ensures Core() && |nodes| == |tb| == length + 1
    {}

    lemma ElemAt(n: nat)
      requires Valid() && 1 <= n < |nodes|
      ensures n <= length && nodes[n].obj.Some? && Contents()[n - 1] == ElemOf(nodes[n])
    {}

    /** The inner loop of a search: along level `i` while the next node passes. */
    method Forward(probe: Probe<T>, i: nat, x0: Node<T>, r0: nat, ghost p: nat) returns (x: Node<T>, r: nat)
      requires Valid() && i < level && p <= length && Cuts(cmp, Contents(), probe, p)
      requires r0 <= p && x0 == nodes[r0] && i < |tb[r0]|
      ensures r <= p && r == LastUpTo(tb, p, i) && x == nodes[r]
    {
      hide *;
      x, r := x0, r0;
      StepFacts(probe, p, r, i);
      while true
        invariant r <= p < |nodes| == |tb| && x == nodes[r] && i < |tb[r]|
        decreases p - r
      {
        StepFacts(probe, p, r, i);
        if !(x.level[i].forward != null && Passes(cmp, probe, ElemOf(x.level[i].forward), r + x.level[i].span)) {
          break;
        }
        r := r + x.level[i].span;
        x := x.level[i].forward;
      }
    }

    // ----- Changing one link

    /** One level of a node is overwritten, and the table with it. */
    method SetLink(n: Node<T>, i: nat, link: Link<T>, ghost k: nat)
      requires Linked(nodes, tb) && Distinct(nodes) && k < |nodes| && n == nodes[k] && i < |n.level|
      modifies n`level, this`tb
      ensures k < |old(tb)| && i < |old(tb)[k]| && tb == SetAt(old(tb), k, i, link) && Linked(nodes, tb)
      ensures |n.level| == old(|n.level|)
    {
      n.level := n.level[i := link];
      tb := SetAt(tb, k, i, link);
    }

    lemma TableRow(k: nat)
      requires Linked(nodes, tb) && k < |nodes|
      ensures k < |tb| && nodes[k].level == tb[k]
    {}

    // ----- zslInsert

    lemma CoreFacts()
      requires Core()
      ensures Linked(nodes, tb) && Distinct(nodes) && Towers(nodes, tb, level) && Wired(nodes, tb, level)
      ensures 1 <= |nodes| == |tb| && nodes[0] == header && |tb[0]| == ZSKIPLIST_MAXLEVEL && 1 <= level <= ZSKIPLIST_MAXLEVEL
      ensures forall k :: 1 <= k < |tb| ==> |tb[k]| <= level
      ensures forall k :: 1 <= k < |nodes| ==> nodes[k].obj.Some?
    {}

    /** The first loop behind the search: levels above the present one start at the header and span the whole list. */
    method RaiseLevel(h: nat, update0: seq<Node<T>>, rank0: seq<nat>, ghost p: nat)
      returns (update: seq<Node<T>>, rank: seq<nat>)
      requires Core() && length == |nodes| - 1 && level <= h <= ZSKIPLIST_MAXLEVEL
      requires PathTo(nodes, tb, level, p, update0, rank0)
      modifies this`level, this`tb, nodes`level
      ensures Core() && level == h
      ensures PathTo(nodes, tb, level, p, update, rank) && Heights(tb) == Heights(old(tb))
      ensures rank[0] == rank0[0]
    {
      hide *;
      CoreFacts();
      PathAt(nodes, tb, level, p, update0, rank0, 0);
      update, rank := update0, rank0;
      ghost var tb0 := tb;
      RaisedNone(tb, length, level);
      var i := level;
      while i < h
        invariant level == old(level) <= i <= h && |update| == |rank| == ZSKIPLIST_MAXLEVEL
        invariant Linked(nodes, tb) && Raised(tb0, tb, length, level, i)
        invariant forall j :: 0 <= j < level ==> update[j] == update0[j] && rank[j] == rank0[j]
        invariant forall j :: level <= j < i ==> update[j] == nodes[0] && rank[j] == 0
      {
        rank, update := rank[i := 0], update[i := header];
        RaisedRow(tb0, tb, length, level, i);
        TableRow(0);
        RaisedStep(tb0, tb, length, level, i);
        SetLink(header, i, Link(header.level[i].forward, length), 0);
        i := i + 1;
      }
      RaisedPath(nodes, tb0, tb, level, h, p, update0, rank0, update, rank);
      RaisedWires(nodes, tb0, tb, level, h);
      RaisedHeights(tb0, tb, length, level, h);
      TowersSameHeights(nodes, tb0, tb, level);
      TowersHigher(nodes, tb, level, h);
      level := h;
      IsCore();
    }

    lemma IsCore()
      requires Towers(nodes, tb, level) && nodes[0] == header && Wired(nodes, tb, level) && Linked(nodes, tb)
      ensures Core()
    {}

    /** The splicing loop of zslInsert. */
    method Splice(x: Node<T>, update: seq<Node<T>>, rank: seq<nat>, ghost p: nat)
      requires Linked(nodes, tb) && Distinct(nodes) && x !in nodes && |x.level| <= level
      requires PathTo(nodes, tb, level, p, update, rank) && |rank| > 0 && rank[0] == p
      modifies x`level, nodes`level, this`tb
      ensures Linked(nodes, tb) && |x.level| == old(|x.level|)
      ensures Spliced(old(tb), tb, p, rank, x, |x.level|) && NewLinks(old(tb), x.level, p, rank, |x.level|)
    {
      hide *;
      var i := 0;
      ghost var tb0 := tb;
      SplicedNone(tb, p, rank, x, 0);
      NewLinksNone(tb, x.level, p, rank);
      while i < |x.level|
        invariant 0 <= i <= |x.level| == old(|x.level|)
        invariant Linked(nodes, tb) && Spliced(tb0, tb, p, rank, x, i) && NewLinks(tb0, x.level, p, rank, i)
      {
        PathAt(nodes, tb0, level, p, update, rank, i);
        SplicedStep(tb0, tb, p, rank, x, i);
        TableRow(rank[i]);
        var link := Link(update[i].level[i].forward, update[i].level[i].span - (rank[0] - rank[i]));
        NewLinksStep(tb0, x.level, p, rank, i, link);
        x.level := x.level[i := link];
        SetLink(update[i], i, Link(x, (rank[0] - rank[i]) + 1), rank[i]);
        i := i + 1;
      }
    }

    /** The loop that lengthens the links passing over the new node. */
    method Stretch(h: nat, update: seq<Node<T>>, rank: seq<nat>, ghost p: nat, ghost tb0: seq<seq<Link<T>>>)
      requires Linked(nodes, tb) && Distinct(nodes) && h <= level && |tb0| == |tb|
      requires PathTo(nodes, tb0, level, p, update, rank) && Heights(tb) == Heights(tb0)
      modifies nodes`level, this`tb
      ensures Linked(nodes, tb) && Stretched(old(tb), tb, rank, h, level)
    {
      hide *;
      var i := h;
      ghost var tb1 := tb;
      StretchedNone(nodes, tb0, tb, level, p, update, rank, h);
      while i < level
        invariant h <= i <= level
        invariant Linked(nodes, tb) && Stretched(tb1, tb, rank, h, i)
      {
        PathAt(nodes, tb0, level, p, update, rank, i);
        SameHeight(tb0, tb1, rank[i]);
        StretchedStep(tb1, tb, rank, h, i);
        TableRow(rank[i]);
        SetLink(update[i], i, Link(update[i].level[i].forward, update[i].level[i].span + 1), rank[i]);
        i := i + 1;
      }
    }

    lemma ValidFacts()
      requires Valid()
      ensures Core() && length == |nodes| - 1 && Tight(tb, level) && Backs(nodes) && StrictOrder(cmp)
      ensures tail == (if length == 0 then null else nodes[length])
      ensures Contents() == ElemsOf(nodes) && Sorted(cmp, Contents()) && |Contents()| == length
    {}

    lemma IsValid(es: seq<Elem<T>>)
      requires Core() && length == |nodes| - 1 && Tight(tb, level) && Backs(nodes) && StrictOrder(cmp)
      requires tail == (if length == 0 then null else nodes[length])
      requires (forall k :: 1 <= k < |nodes| ==> nodes[k].obj.Some?) && es == ElemsOf(nodes) && Sorted(cmp, es)
      ensures Valid() && Contents() == es
    {}

    /** Back pointers and tail at the end of zslInsert. */
    method BackIn(x: Node<T>, prev: Node<T>, ghost p: nat)
      requires Backs(nodes) && Distinct(nodes) && x !in nodes
      requires p < |nodes| && prev == nodes[p] && nodes[0] == header
      requires |x.level| > 0 && x.level[0].forward == At(nodes, p + 1)
      modifies this`tail, x`backward, nodes`backward
      ensures BackedAround(nodes, p, x) && tail == if p + 1 < |nodes| then old(tail) else x
    {
      x.backward := if prev == header then null else prev;
      if x.level[0].forward != null {
        x.level[0].forward.backward := x;
      } else {
        tail := x;
      }
      forall j | 0 <= j < |nodes| && j != p + 1 ensures nodes[j].backward == NodeBefore(nodes, j) {
        assert p + 1 < |nodes| ==> nodes[j] != nodes[p + 1];
        assert old(nodes[j].backward) == NodeBefore(nodes, j);
      }
    }

    /** The end of zslInsert: back pointers, tail and length. */
    method LinkIn(x: Node<T>, prev: Node<T>, ghost p: nat)
      requires Linked(nodes, tb) && Backs(nodes) && Distinct(nodes) && x !in nodes
      requires length == |nodes| - 1 && p < |nodes| && prev == nodes[p] && nodes[0] == header
      requires |x.level| > 0 && x.level[0].forward == At(nodes, p + 1)
      requires tail == (if length == 0 then null else nodes[length])
      modifies this`tail, this`length, this`nodes, this`tb, x`backward, nodes`backward
      ensures nodes == Ins(old(nodes), p, x) && |old(tb)| == |old(nodes)| && tb == Ins(old(tb), p, x.level)
      ensures Linked(nodes, tb) && Backs(nodes)
      ensures length == |nodes| - 1 && tail == nodes[length]
    {
      hide *;
      BackIn(x, prev, p);
      LinkedIns(nodes, tb, p, x);
      BacksIns(nodes, p, x);
      LastIns(nodes, p, x);
      length := length + 1;
      nodes, tb := Ins(nodes, p, x), Ins(tb, p, x.level);
    }

    /** The search and the raising of the level with which zslInsert begins. */
    method Locate(e: Elem<T>, h: nat) returns (update: seq<Node<T>>, rank: seq<nat>, ghost p: nat)
      requires Valid() && 1 <= h <= ZSKIPLIST_MAXLEVEL
      modifies this`level, this`tb, nodes`level
      ensures Core() && level == (if h > old(level) then h else old(level)) && length == |nodes| - 1
      ensures PathTo(nodes, tb, level, p, update, rank) && p <= length && |rank| == |update| == ZSKIPLIST_MAXLEVEL && rank[0] == p
      ensures update[0] == nodes[p]
      ensures Heights(tb) == Heights(old(tb)) && Cuts(cmp, old(Contents()), Before(e), p)
    {
      hide *;
      ValidFacts();
      var at;
      at, update, rank, p := Descend(Before(e));
      CoreFacts();
      PathAt(nodes, tb, level, p, update, rank, 0);
      if h > level {
        update, rank := RaiseLevel(h, update, rank, p);
      }
      CoreFacts();
      PathAt(nodes, tb, level, p, update, rank, 0);
    }

    /** The loops and the pointer updates with which zslInsert ends. */
    method Thread(x: Node<T>, update: seq<Node<T>>, rank: seq<nat>, ghost p: nat)
      requires Core() && length == |nodes| - 1 && Backs(nodes) && x !in nodes && 1 <= |x.level| <= level && x.obj.Some?
      requires PathTo(nodes, tb, level, p, update, rank) && |rank| == |update| == ZSKIPLIST_MAXLEVEL && rank[0] == p < |nodes|
      requires update[0] == nodes[p]
      requires tail == (if length == 0 then null else nodes[length])
      modifies this`tail, this`length, this`nodes, this`tb, x, nodes
      ensures Core() && length == |nodes| - 1 && Backs(nodes) && nodes == Ins(old(nodes), p, x)
      ensures tail == nodes[length] && |x.level| == old(|x.level|)
      ensures exists t :: Heights(t) == Heights(old(tb)) && p < |t| && tb == Ins(t, p, x.level)
    {
      hide *;
      CoreFacts();
      var h := |x.level|;
      ghost var ns, tb0 := nodes, tb;
      FirstLink(nodes, tb, level, p);
      Splice(x, update, rank, p);
      ghost var tb1 := tb;
      SplicedNone(tb1, p, rank, x, h);
      SplicedHeights(tb0, tb1, tb1, p, rank, x, h, h, h);
      SameLength(tb0, tb1);
      Stretch(h, update, rank, p, tb0);
      ghost var tb2 := tb;
      SplicedHeights(tb0, tb1, tb2, p, rank, x, h, h, level);
      FirstNewLink(tb0, x.level, p, rank, h);
      LinkIn(x, update[0], p);
      SameLength(tb0, tb2);
      InsertionComplete(ns, tb0, tb1, tb2, level, p, update, rank, x, x.level);
      InsertWires(ns, tb0, tb, level, p, x, h);
      TowersSameHeights(ns, tb0, tb2, level);
      TowersIns(ns, tb2, level, p, x, x.level);
      InsHeader(ns, p, x);
      IsCore();
    }

    /** zslInsert, for whatever level `h` the random choice gives; the caller has checked that the element is new. */
    method Insert(score: real, obj: T, h: nat) returns (x: Node<T>, ghost p: nat)
      requires Valid() && 1 <= h <= ZSKIPLIST_MAXLEVEL && Elem(score, obj) !in Contents()
      modifies this, nodes
      ensures p <= |old(Contents())| < |old(nodes)|
      ensures Valid() && fresh(x) && nodes == Ins(old(nodes), p, x) && |x.level| == h
      ensures Contents() == old(Contents())[..p] + [Elem(score, obj)] + old(Contents())[p..]
    {
      hide *;
      ghost var es, tbOld, levelOld, ns := Contents(), tb, level, nodes;
      ValidFacts();
      var update, rank;
      update, rank, p := Locate(Elem(score, obj), h);
      SameLength(tbOld, tb);
      CoreFacts();
      x := new Node(h, score, Some(obj));
      ghost var tb0 := tb;
      Thread(x, update, rank, p);
      ghost var t :| Heights(t) == Heights(tb0) && p < |t| && tb == Ins(t, p, x.level);
      TightIns(tbOld, t, levelOld, level, p, x.level);
      ElemsIns(ns, p, x);
      ElemOfNew(x, score, obj);
      SortedIns(cmp, es, Elem(score, obj), p);
      IsValid(es[..p] + [Elem(score, obj)] + es[p..]);
    }

    // ----- zslDeleteNode and zslDelete

    /** The loop of zslDeleteNode over the levels. */
    method CutOut(x: Node<T>, update: seq<Node<T>>, ghost rank: seq<nat>, ghost p: nat)
      requires Core() && p + 1 < |nodes| && x == nodes[p + 1] && PathTo(nodes, tb, level, p, update, rank)
      modifies this`tb, nodes`level
      ensures Linked(nodes, tb) && Cutting(nodes, old(tb), tb, rank, p, level)
    {
      hide *;
      CoreFacts();
      ghost var tb0 := tb;
      PathRanks(nodes, tb, level, p, update, rank);
      CuttingNone(nodes, tb, rank, p);
      var i := 0;
      while i < level
        invariant 0 <= i <= level
        invariant Linked(nodes, tb) && Cutting(nodes, tb0, tb, rank, p, i)
      {
        PathAt(nodes, tb0, level, p, update, rank, i);
        CuttingStep(nodes, tb0, tb, rank, p, i);
        TableRow(rank[i]);
        TableRow(p + 1);
        var u := update[i];
        ShortenedIs(nodes, tb0, p, rank[i], i);
        if u.level[i].forward == x {
          ReachesNext(nodes, tb0, level, p, rank[i], i);
          SetLink(u, i, Link(x.level[i].forward, u.level[i].span + (x.level[i].span - 1)), rank[i]);
        } else {
          SetLink(u, i, Link(u.level[i].forward, u.level[i].span - 1), rank[i]);
        }
        i := i + 1;
      }
    }

    /** Back pointer and tail in zslDeleteNode. */
    method BackOut(x: Node<T>, ghost p: nat)
      requires Backs(nodes) && Distinct(nodes) && p + 1 < |nodes| && x == nodes[p + 1]
      requires |x.level| > 0 && x.level[0].forward == At(nodes, p + 2)
      modifies this`tail, nodes`backward
      ensures BackedPast(nodes, p) && tail == if p + 2 < |nodes| then old(tail) else NodeBefore(nodes, p + 1)
    {
      assert x.backward == NodeBefore(nodes, p + 1);
      if x.level[0].forward != null {
        x.level[0].forward.backward := x.backward;
      } else {
        tail := x.backward;
      }
      forall j | 0 <= j < |nodes| && j != p + 2 ensures nodes[j].backward == NodeBefore(nodes, j) {
        assert p + 2 < |nodes| ==> nodes[j] != nodes[p + 2];
        assert old(nodes[j].backward) == NodeBefore(nodes, j);
      }
    }

    /** The pointer updates of zslDeleteNode. */
    method LinkOut(x: Node<T>, ghost p: nat)
      requires Linked(nodes, tb) && Backs(nodes) && Distinct(nodes)
      requires length == |nodes| - 1 && p + 1 < |nodes| && x == nodes[p + 1]
      requires |x.level| > 0 && x.level[0].forward == At(nodes, p + 2)
      requires tail == nodes[length]
      modifies this`tail, this`length, this`nodes, this`tb, nodes`backward
      ensures nodes == Del(old(nodes), p) && |old(tb)| == |old(nodes)| && tb == Del(old(tb), p)
      ensures Linked(nodes, tb) && Backs(nodes)
      ensures length == |nodes| - 1 && tail == if length == 0 then null else nodes[length]
    {
      hide *;
      BackOut(x, p);
      LinkedDel(nodes, tb, p);
      BacksDel(nodes, p);
      LastDel(nodes, p);
      length := length - 1;
      nodes, tb := Del(nodes, p), Del(tb, p);
    }

    /** The last loop of zslDeleteNode: the level falls while the top level is empty. */
    method LowerTo(ghost p: nat, ghost update: seq<Node<T>>, ghost rank: seq<nat>)
      requires Core() && PathTo(nodes, tb, level, p, update, rank)
      modifies this`level
      ensures Core() && level <= old(level) && Tight(tb, level) && PathTo(nodes, tb, level, p, update, rank)
    {
      hide *;
      CoreFacts();
      TableRow(0);
      while level > 1 && header.level[level - 1].forward == null
        invariant 1 <= level <= old(level) && Core() && PathTo(nodes, tb, level, p, update, rank)
      {
        CoreFacts();
        LowerLevel(nodes, tb, level);
        PathLower(nodes, tb, level, level - 1, p, update, rank);
        level := level - 1;
        IsCore();
      }
      CoreFacts();
      if level > 1 {
        LowerLevel(nodes, tb, level);
      } else {
        TightOne(tb);
      }
    }

    /** zslDeleteNode: takes out the node behind the path, which afterwards leads to the same place. */
    method DeleteNode(x: Node<T>, update: seq<Node<T>>, ghost rank: seq<nat>, ghost p: nat)
      requires Valid() && p + 1 < |nodes| && x == nodes[p + 1] && PathTo(nodes, tb, level, p, update, rank)
      modifies this, nodes
      ensures Valid() && nodes == Del(old(nodes), p) && p < |old(Contents())|
      ensures Contents() == old(Contents())[..p] + old(Contents())[p + 1..]
      ensures PathTo(nodes, tb, level, p, update, rank)
    {
      hide *;
      ghost var es, ns, tb0 := Contents(), nodes, tb;
      ValidFacts();
      CoreFacts();
      FirstLink(nodes, tb, level, p + 1);
      CutOut(x, update, rank, p);
      ghost var tb1 := tb;
      CuttingHeights(ns, tb0, tb1, rank, p, level);
      SameLength(tb0, tb1);
      CutRow(ns, tb0, tb1, level, rank, p, update);
      TableRow(p + 1);
      LinkOut(x, p);
      DeletionComplete(ns, tb0, tb1, level, p, update, rank);
      DeleteWires(ns, tb0, tb, level, p);
      PathStays(ns, tb0, tb, level, p, update, rank);
      TowersSameHeights(ns, tb0, tb1, level);
      TowersDel(ns, tb1, level, p);
      DelHeader(ns, p);
      IsCore();
      LowerTo(p, update, rank);
      ElemsDel(ns, p);
      SortedDel(cmp, es, p);
      CoreFacts();
      IsValid(es[..p] + es[p + 1..]);
    }

    /** zslDelete: removes the element if it is there, and says so. */
    method Delete(score: real, obj: T) returns (found: bool)
      requires Valid()
      modifies this, nodes
      ensures Valid() && (found <==> Elem(score, obj) in old(Contents()))
      ensures forall n :: n in nodes ==> n in old(nodes)
      ensures !found ==> nodes == old(nodes) && Contents() == old(Contents())
      ensures found ==> exists p :: (0 <= p < |old(Contents())| && old(Contents())[p] == Elem(score, obj)
                                     && Contents() == old(Contents())[..p] + old(Contents())[p + 1..])
    {
      hide *;
      var e := Elem(score, obj);
      ghost var es := Contents();
      ValidFacts();
      CoreFacts();
      var x, update, rank;
      ghost var p;
      x, update, rank, p := Descend(Before(e));
      FirstLink(nodes, tb, level, p);
      TableRow(p);
      FoundAtCut(cmp, es, e, p);
      x := x.level[0].forward;
      if x != null {
        AtNext(nodes, p);
        ElemAt(p + 1);
        ElemFields(x);
        if score == x.score && x.obj == Some(obj) {
          DelSubset(nodes, p);
          DeleteNode(x, update, rank, p);
          return true;
        }
      } else {
        AtNext(nodes, p);
      }
      return false;
    }

    // ----- Ranks

    /**
     zslGetRank, which after each level compares the object of the node it has come to. The search ends behind `p`
     elements. The object is found when it is among these and its node is taller than all behind it up to there, as it
     is when the element itself is in the list.
     */
    method GetRank(score: real, obj: T) returns (rank: nat, ghost p: nat)
      requires Valid() && DistinctObjs(Contents())
      ensures Cuts(cmp, Contents(), UpTo(Elem(score, obj)), p) && p <= length < |tb|
      ensures rank > 0 ==> rank <= p && Contents()[rank - 1].obj == obj && Tallest(tb, rank, p)
      ensures rank == 0 ==> forall q :: 1 <= q <= p && Contents()[q - 1].obj == obj ==> !Tallest(tb, q, p)
      ensures forall k :: 0 <= k < length && Contents()[k] == Elem(score, obj) ==> rank == k + 1
    {
      hide *;
      var e := Elem(score, obj);
      p := CutFacts(UpTo(e));
      ValidFacts();
      var x: Node<T>, i: nat := header, level;
      rank := 0;
      while i > 0
        invariant 0 <= i <= level && rank <= p && x == nodes[rank]
        invariant i < level ==> rank == LastUpTo(tb, p, i)
        invariant i == level ==> rank == 0
        invariant i == 0 ==> x.obj != Some(obj)
        invariant forall j :: i <= j < level ==> nodes[LastUpTo(tb, p, j)].obj != Some(obj)
      {
        i := i - 1;
        x, rank := Forward(UpTo(e), i, x, rank, p);
        if x.obj == Some(obj) {
          HeaderHasNoObj();
          ElemAt(rank);
          ElemFields(x);
          RankFound(cmp, Contents(), e, p, rank);
          LastIsTallest(tb, p, i);
          return;
        }
      }
      RankMissing(cmp, Contents(), e, p);
      if p > 0 {
        ElemAt(p);
        ElemFields(x);
      }
      rank := 0;
      forall q | 1 <= q <= p && Contents()[q - 1].obj == obj ensures !Tallest(tb, q, p) {
        ElemAt(q);
        ElemFields(nodes[q]);
        HeightOf(q);
        if Tallest(tb, q, p) {
          TallestIsLast(tb, p, q);
        }
      }
    }

    lemma HeightOf(q: nat)
      requires Valid() && 1 <= q <= length
      ensures q < |tb| && 0 < |tb[q]| <= level <= |tb[0]|
    {}

    lemma SearchEnd(p: nat)
      requires Valid() && p <= length
      ensures |tb| == length + 1 && 0 < |tb[0]| && LastUpTo(tb, p, 0) == p
    {}

    lemma HeaderHasNoObj()
      requires Valid()
      ensures 0 < |nodes| && nodes[0].obj == None
    {}

    /** zslGetElementByRank: the node at a 1-based position, the header for 0, null beyond the end. */
    method GetElementByRank(rank: nat) returns (x: Node?<T>)
      requires Valid()
      ensures x == if rank <= length then nodes[rank] else null
    {
      hide *;
      ghost var p := CutFacts(RankUpTo(rank));
      RankCut(cmp, Contents(), rank, p);
      ValidFacts();
      x := header;
      var traversed: nat, i: nat := 0, level;
      while i > 0
        invariant 0 <= i <= level && traversed <= p && x == nodes[traversed]
        invariant i < level ==> traversed == LastUpTo(tb, p, i)
        invariant i == level ==> traversed == 0
        invariant i == 0 ==> traversed != rank
      {
        i := i - 1;
        x, traversed := Forward(RankUpTo(rank), i, x, traversed, p);
        if traversed == rank {
          return;
        }
      }
      return null;
    }

    // ----- Ranges

    /** zslIsInRange: a quick test that can only exclude. */
    method IsInRange(range: Range) returns (r: bool)
      requires Valid()
      ensures !r ==> forall k :: 0 <= k < length ==> !InRange(Contents()[k].score, range)
      ensures r ==> length > 0 && GteMin(Contents()[length - 1].score, range) && LteMax(Contents()[0].score, range)
    {
      hide Wired, Towers, Linked, Backs, Tight, StrictOrder, WiredAt;
      ValidFacts();
      CoreFacts();
      FirstLink(nodes, tb, level, 0);
      TableRow(0);
      AtNext(nodes, 0);
      if length > 0 {
        ElemAt(1);
        ElemAt(length);
        ElemFields(nodes[1]);
        ElemFields(nodes[length]);
      }
      ScoresAscend(cmp, Contents());
      if range.min > range.max || (range.min == range.max && (range.minex || range.maxex)) {
        return false;
      }
      if tail == null || !GteMin(tail.score, range) {
        return false;
      }
      var first := header.level[0].forward;
      if first == null || !LteMax(first.score, range) {
        return false;
      }
      return true;
    }

    /** zslFirstInRange. */
    method FirstInRange(range: Range) returns (x: Node?<T>)
      requires Valid()
      ensures x == null ==> forall k :: 0 <= k < length ==> !InRange(Contents()[k].score, range)
      ensures x != null ==> exists k :: (0 <= k < length && x == nodes[k + 1] && InRange(Contents()[k].score, range)
                && forall j :: 0 <= j < k ==> !InRange(Contents()[j].score, range))
    {
      hide *;
      x := null;
      var some := IsInRange(range);
      if !some {
        return;
      }
      ValidFacts();
      CoreFacts();
      var update, rank;
      ghost var p;
      x, update, rank, p := Descend(BelowMin(range));
      FirstLink(nodes, tb, level, p);
      TableRow(p);
      AtNext(nodes, p);
      ScoresAscend(cmp, Contents());
      FirstOfRange(cmp, Contents(), range, p);
      x := x.level[0].forward;
      ElemAt(p + 1);
      ElemFields(x);
      if !LteMax(x.score, range) {
        return null;
      }
      assert 0 <= p < length && x == nodes[p + 1];
    }

    /** zslLastInRange. */
    method LastInRange(range: Range) returns (x: Node?<T>)
      requires Valid()
      ensures x == null ==> forall k :: 0 <= k < length ==> !InRange(Contents()[k].score, range)
      ensures x != null ==> exists k :: (0 <= k < length && x == nodes[k + 1] && InRange(Contents()[k].score, range)
                && forall j :: k < j < length ==> !InRange(Contents()[j].score, range))
    {
      hide *;
      x := null;
      var some := IsInRange(range);
      if !some {
        return;
      }
      ValidFacts();
      var update, rank;
      ghost var p;
      x, update, rank, p := Descend(WithinMax(range));
      ScoresAscend(cmp, Contents());
      LastOfRange(cmp, Contents(), range, p);
      ElemAt(p);
      ElemFields(x);
      if !GteMin(x.score, range) {
        return null;
      }
      assert 0 <= p - 1 < length && x == nodes[(p - 1) + 1];
    }

    /**
     The deletion loop of both range deletions: with one search path, takes out node after node behind `p` while
     `more` says so, and their objects out of the hash table.
     */
    method DeleteNext(x: Node<T>, update: seq<Node<T>>, ghost rank: seq<nat>, ghost p: nat, dict: map<T, real>)
      returns (next: Node?<T>, dict': map<T, real>)
      requires Valid() && p + 1 < |nodes| && x == nodes[p + 1] && PathTo(nodes, tb, level, p, update, rank)
      modifies this, nodes
      ensures Valid() && nodes == Del(old(nodes), p) && p < |old(Contents())|
      ensures Contents() == old(Contents())[..p] + old(Contents())[p + 1..]
      ensures PathTo(nodes, tb, level, p, update, rank)
      ensures next == At(nodes, p + 1) && dict' == dict - {old(Contents())[p].obj}
    {
      hide *;
      ValidFacts();
      CoreFacts();
      FirstLink(nodes, tb, level, p + 1);
      TableRow(p + 1);
      ElemAt(p + 1);
      ElemFields(x);
      AtDel(nodes, p, p + 1);
      next := x.level[0].forward;
      DeleteNode(x, update, rank, p);
      dict' := dict - {x.obj.value};
    }

    /** One turn of either deletion loop. */
    method TakeNext(x: Node<T>, update: seq<Node<T>>, ghost rank: seq<nat>, ghost p: nat, dict: map<T, real>,
                    ghost es: seq<Elem<T>>, ghost dict0: map<T, real>, ghost n: nat)
      returns (next: Node?<T>, dict': map<T, real>)
      requires Valid() && p < length && x == At(nodes, p + 1) && PathTo(nodes, tb, level, p, update, rank)
      requires TakenOut(es, Contents(), dict0, dict, p, n)
      modifies this, nodes
      ensures Valid() && length + 1 == old(length) && p <= length && p + n < |es|
      ensures PathTo(nodes, tb, level, p, update, rank) && next == At(nodes, p + 1)
      ensures forall k :: 0 <= k < |nodes| ==> nodes[k] in old(nodes)
      ensures TakenOut(es, Contents(), dict0, dict', p, n + 1)
    {
      hide *;
      ValidFacts();
      AtNext(nodes, p);
      OneTakenOut(es, Contents(), dict0, dict, p, n);
      DelSubset(nodes, p);
      next, dict' := DeleteNext(x, update, rank, p, dict);
      ValidFacts();
    }

    /** zslDeleteRangeByScore: exactly the elements in range leave the list and the hash table. */
    method DeleteRangeByScore(range: Range, dict: map<T, real>) returns (removed: nat, dict': map<T, real>)
      requires Valid()
      modifies this, nodes
      ensures Valid()
      ensures exists lo :: 0 <= lo && TakenOut(old(Contents()), Contents(), dict, dict', lo, removed)
                && forall k :: 0 <= k < |old(Contents())| ==>
                     (InRange(old(Contents())[k].score, range) <==> lo <= k < lo + removed)
    {
      hide *;
      ghost var es := Contents();
      ValidFacts();
      var x: Node?<T>, update, rank;
      ghost var p;
      x, update, rank, p := Descend(BelowMin(range));
      x := Behind(x, p);
      removed, dict' := 0, dict;
      NoneTakenOut(es, dict, p);
      while x != null && LteMax(x.score, range)
        invariant Valid() && TakenOut(es, Contents(), dict, dict', p, removed)
        invariant PathTo(nodes, tb, level, p, update, rank) && p <= length && x == At(nodes, p + 1)
        invariant forall k :: 0 <= k < |nodes| ==> nodes[k] in old(nodes)
        invariant forall k :: p <= k < p + removed && k < |es| ==> LteMax(es[k].score, range)
        decreases length
      {
        FirstBehind(p, x);
        OneTakenOut(es, Contents(), dict, dict', p, removed);
        x, dict' := TakeNext(x, update, rank, p, dict', es, dict, removed);
        removed := removed + 1;
      }
      TakenOutIs(es, Contents(), dict, dict', p, removed);
      ValidFacts();
      if p < length {
        FirstBehind(p, x);
        WithoutNext(es, p, removed);
      }
      RangeIsSlice(cmp, es, range, p, removed);
    }

    /** The node behind the first `p` holds element `p`. */
    lemma FirstBehind(p: nat, x: Node?<T>)
      requires Valid() && x == At(nodes, p + 1) && (x != null || p < length)
      ensures p < length == |Contents()| && x != null && Contents()[p].score == x.score
    {
      AtNext(nodes, p);
      ElemAt(p + 1);
      ElemFields(x);
    }

    /** zslDeleteRangeByRank: exactly the 1-based positions start..end (inclusive) leave the list and the hash table. */
    method DeleteRangeByRank(start: nat, end: nat, dict: map<T, real>) returns (removed: nat, dict': map<T, real>)
      requires Valid()
      modifies this, nodes
      ensures Valid()
      ensures removed == CountRanks(start, end, |old(Contents())|)
      ensures TakenOut(old(Contents()), Contents(), dict, dict', FirstIndex(start, |old(Contents())|), removed)
    {
      hide *;
      ghost var es := Contents();
      ValidFacts();
      var x: Node?<T>, update, rank;
      ghost var p;
      x, update, rank, p := Descend(RankBelow(start));
      RankBelowCut(cmp, es, start, p);
      CoreFacts();
      PathAt(nodes, tb, level, p, update, rank, 0);
      SearchEnd(p);
      var traversed := rank[0] + 1;
      x := Behind(x, p);
      removed, dict' := 0, dict;
      NoneTakenOut(es, dict, p);
      while x != null && traversed <= end
        invariant Valid() && TakenOut(es, Contents(), dict, dict', p, removed)
        invariant PathTo(nodes, tb, level, p, update, rank) && p <= length && x == At(nodes, p + 1)
        invariant forall k :: 0 <= k < |nodes| ==> nodes[k] in old(nodes)
        invariant traversed == p + removed + 1 && (removed == 0 || p + removed <= end)
        decreases length
      {
        FirstBehind(p, x);
        x, dict' := TakeNext(x, update, rank, p, dict', es, dict, removed);
        removed, traversed := removed + 1, traversed + 1;
      }
      TakenOutIs(es, Contents(), dict, dict', p, removed);
      ValidFacts();
      AtNext(nodes, p);
      CountIs(start, end, |es|, removed);
    }

    /** The node behind the end of a search. */
    method Behind(x: Node<T>, ghost p: nat) returns (next: Node?<T>)
      requires Valid() && p < |nodes| && x == nodes[p]
      ensures next == At(nodes, p + 1)
    {
      hide *;
      ValidFacts();
      CoreFacts();
      FirstLink(nodes, tb, level, p);
      TableRow(p);
      next := x.level[0].forward;
    }
  }

  /** zslGetElementByRank and zslGetRank undo each other. */
  method RankRoundTrip<T(==, !new)>(z: Skiplist<T>, rank: nat) returns (back: nat)
    requires z.Valid() && DistinctObjs(z.Contents()) && 1 <= rank <= z.length
    ensures back == rank
  {
    var x := z.GetElementByRank(rank);
    z.ElemAt(rank);
    ElemFields(x);
    assert z.Contents()[rank - 1] == Elem(x.score, x.obj.value);
    ghost var p;
    back, p := z.GetRank(x.score, x.obj.value);
    assert z.Contents()[rank - 1] == Elem(x.score, x.obj.value);
  }

  method RankRoundTripBack<T(==, !new)>(z: Skiplist<T>, score: real, obj: T) returns (x: Node?<T>)
    requires z.Valid() && DistinctObjs(z.Contents()) && Elem(score, obj) in z.Contents()
    ensures x != null && x.score == score && x.obj == Some(obj)
  {
    ghost var k :| 0 <= k < z.length && z.Contents()[k] == Elem(score, obj);
    var rank; ghost var p;
    rank, p := z.GetRank(score, obj);
    assert z.Contents()[k] == Elem(score, obj) && rank == k + 1;
    x := z.GetElementByRank(rank);
    z.ElemAt(rank);
    assert z.Contents()[rank - 1] == ElemOf(x);
    ElemFields(x);
  }
}
