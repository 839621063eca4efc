/**
 The shape of a skiplist (t_zset.c): which node each level links to and over what distance, as a function of the
 node heights alone.  Position 0 is the header; `|hs|` stands for the end of the list.
 */
module SkiplistShape {

  /** The first position after `k` whose node reaches level `i`, or the end. */
  function Next(hs: seq<nat>, k: nat, i: nat): (r: nat)
    requires k < |hs|
    ensures k < r <= |hs|
    ensures r < |hs| ==> hs[r] > i
    ensures forall m :: k < m < r ==> hs[m] <= i
    decreases |hs| - k
  {
    if k + 1 == |hs| || hs[k + 1] > i then k + 1 else Next(hs, k + 1, i)
  }

  /** The last position up to `p` whose node reaches level `i`. */
  function Prev(hs: seq<nat>, p: nat, i: nat): (r: nat)
    requires p < |hs| && hs[0] > i
    ensures r <= p && hs[r] > i
    ensures forall m :: r < m <= p ==> hs[m] <= i
  {
    if hs[p] > i then p else Prev(hs, p - 1, i)
  }

  /** The span of the level-`i` link at `k`: level-0 steps to its target, or the number of nodes behind `k`. */
  function Dist(hs: seq<nat>, k: nat, i: nat): (d: nat)
    requires k < |hs|
  {
    if Next(hs, k, i) == |hs| then |hs| - 1 - k else Next(hs, k, i) - k
  }

  lemma NextIs(hs: seq<nat>, k: nat, i: nat, r: nat)
    requires k < r <= |hs|
    requires r < |hs| ==> hs[r] > i
    requires forall m :: k < m < r ==> hs[m] <= i
    ensures Next(hs, k, i) == r
  {}

  lemma PrevIs(hs: seq<nat>, p: nat, i: nat, r: nat)
    requires r <= p < |hs| && hs[0] > i && hs[r] > i
    requires forall m :: r < m <= p ==> hs[m] <= i
    ensures Prev(hs, p, i) == r
  {}

  /** Only one node up to `p` links over `p` at level `i`. */
  lemma CrossingIsPrev(hs: seq<nat>, p: nat, i: nat, k: nat)
    requires k <= p < |hs| && hs[0] > i && hs[k] > i
    ensures Next(hs, k, i) > p <==> k == Prev(hs, p, i)
  {}

  /** `hs` with a node of height `h` put behind position `p`. */
  function Ins<A>(hs: seq<A>, p: nat, h: A): (r: seq<A>)
    requires p < |hs|
    ensures |r| == |hs| + 1
    ensures forall k :: 0 <= k <= p ==> r[k] == hs[k]
    ensures r[p + 1] == h
    ensures forall k :: p + 1 < k < |r| ==> r[k] == hs[k - 1]
  {
    hs[..p + 1] + [h] + hs[p + 1..]
  }

  /** `hs` without the node behind position `p`. */
  function Del<A>(hs: seq<A>, p: nat): (r: seq<A>)
    requires p + 1 < |hs|
    ensures |r| == |hs| - 1
    ensures forall k :: 0 <= k <= p ==> r[k] == hs[k]
    ensures forall k :: p < k < |r| ==> r[k] == hs[k + 1]
  {
    hs[..p + 1] + hs[p + 2..]
  }

  lemma NextInsBefore(hs: seq<nat>, p: nat, h: nat, k: nat, i: nat)
    requires k <= p < |hs| && Next(hs, k, i) <= p
    ensures Next(Ins(hs, p, h), k, i) == Next(hs, k, i)
  {
    NextIs(Ins(hs, p, h), k, i, Next(hs, k, i));
  }

  lemma NextInsAcross(hs: seq<nat>, p: nat, h: nat, k: nat, i: nat)
    requires k <= p < |hs| && Next(hs, k, i) > p
    ensures Next(Ins(hs, p, h), k, i) == if h > i then p + 1 else Next(hs, k, i) + 1
  {
    NextIs(Ins(hs, p, h), k, i, if h > i then p + 1 else Next(hs, k, i) + 1);
  }

  lemma NextInsAfter(hs: seq<nat>, p: nat, h: nat, k: nat, i: nat)
    requires p < k < |hs|
    ensures Next(Ins(hs, p, h), k + 1, i) == Next(hs, k, i) + 1
  {
    NextIs(Ins(hs, p, h), k + 1, i, Next(hs, k, i) + 1);
  }

  lemma NextInsNew(hs: seq<nat>, p: nat, h: nat, k: nat, i: nat)
    requires k <= p < |hs| && Next(hs, k, i) > p
    ensures Next(Ins(hs, p, h), p + 1, i) == Next(hs, k, i) + 1
  {
    NextIs(Ins(hs, p, h), p + 1, i, Next(hs, k, i) + 1);
  }

  /** The search path: from `r` at level `i`, stepping while the target is still within `p`, ends at Prev. */
  lemma PathEnds(hs: seq<nat>, p: nat, i: nat, r: nat)
    requires r <= p < |hs| && hs[0] > i && hs[r] > i && Next(hs, r, i) > p
    ensures r == Prev(hs, p, i)
  {
    PrevIs(hs, p, i, r);
  }
}
