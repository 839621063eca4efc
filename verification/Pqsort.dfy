/**
 Partial quicksort (pqsort.c): Bentley and McIlroy's quicksort which skips the parts that lie outside the
 requested range of indices.  Positions are element indices; `es`, the element size, only enters the lemma about
 the pruning test, which the source makes on byte addresses.
 */
module Pqsort {

  ghost predicate TransitiveAt<T(!new)>(cmp: (T, T) -> int, x: T, y: T, z: T) {
    cmp(x, y) <= 0 && cmp(y, z) <= 0 ==> cmp(x, z) <= 0
  }

  /** What pqsort needs of its comparison function: any total preorder. */
  ghost predicate TotalPreorder<T(!new)>(cmp: (T, T) -> int) {
    && (forall x, y :: cmp(x, y) < 0 <==> cmp(y, x) > 0)
    && (forall x, y, z {:trigger TransitiveAt(cmp, x, y, z)} :: TransitiveAt(cmp, x, y, z))
  }

  lemma Chain<T(!new)>(cmp: (T, T) -> int, x: T, y: T, z: T)
    requires TotalPreorder(cmp) && cmp(x, y) <= 0 && cmp(y, z) <= 0
    ensures cmp(x, z) <= 0
  {
    assert TransitiveAt(cmp, x, y, z);
  }

  // ----- Permuting a range

  /** `t` is `s` with the elements of positions lo..hi rearranged. */
  ghost predicate Permuted<T>(s: seq<T>, t: seq<T>, lo: nat, hi: nat) {
    && lo <= hi <= |s| == |t|
    && s[..lo] == t[..lo]
    && s[hi..] == t[hi..]
    && multiset(s[lo..hi]) == multiset(t[lo..hi])
  }

  lemma PermutedOutside<T>(s: seq<T>, t: seq<T>, lo: nat, hi: nat, k: nat)
    requires Permuted(s, t, lo, hi) && k < |s| && (k < lo || hi <= k)
    ensures s[k] == t[k]
  {
    if k < lo {
      assert s[k] == s[..lo][k];
    } else {
      assert s[k] == s[hi..][k - hi] == t[hi..][k - hi];
    }
  }

  /** Every element of the range was in the range before. */
  lemma PermutedFrom<T>(s: seq<T>, t: seq<T>, lo: nat, hi: nat, j: nat) returns (i: nat)
    requires Permuted(s, t, lo, hi) && lo <= j < hi
    ensures lo <= i < hi && s[i] == t[j]
  {
    assert t[j] == t[lo..hi][j - lo];
    assert t[j] in multiset(t[lo..hi]);
    assert t[j] in s[lo..hi];
    var k :| 0 <= k < |s[lo..hi]| && s[lo..hi][k] == t[j];
    i := lo + k;
  }

  /** Rearranging a part rearranges any range around it. */
  lemma PermutedWider<T>(s: seq<T>, t: seq<T>, lo: nat, hi: nat, lo': nat, hi': nat)
    requires Permuted(s, t, lo', hi') && lo <= lo' && hi' <= hi <= |s|
    ensures Permuted(s, t, lo, hi)
  {
    assert s[..lo] == s[..lo'][..lo] && t[..lo] == t[..lo'][..lo];
    assert s[hi..] == s[hi'..][hi - hi'..] && t[hi..] == t[hi'..][hi - hi'..];
    assert s[lo..hi] == s[..lo'][lo..] + s[lo'..hi'] + s[hi'..][..hi - hi'];
    assert t[lo..hi] == t[..lo'][lo..] + t[lo'..hi'] + t[hi'..][..hi - hi'];
  }

  lemma PermutedTrans<T>(s: seq<T>, t: seq<T>, u: seq<T>, lo: nat, hi: nat)
    requires Permuted(s, t, lo, hi) && Permuted(t, u, lo, hi)
    ensures Permuted(s, u, lo, hi)
  {}

  lemma PermutedRefl<T>(s: seq<T>, lo: nat, hi: nat)
    requires lo <= hi <= |s|
    ensures Permuted(s, s, lo, hi)
  {}

  /** `s` with the elements at `i` and `j` exchanged. */
  ghost function With<T>(s: seq<T>, i: nat, j: nat): seq<T>
    requires i < |s| && j < |s|
  {
    s[i := s[j]][j := s[i]]
  }

  lemma SwapPermutes<T>(s: seq<T>, i: nat, j: nat, lo: nat, hi: nat)
    requires lo <= i < hi <= |s| && lo <= j < hi
    ensures Permuted(s, With(s, i, j), lo, hi)
  {
    var t := With(s, i, j);
    assert t[lo..hi] == s[lo..hi][i - lo := s[j]][j - lo := s[i]];
  }

  method Swap<T>(a: array<T>, i: nat, j: nat, ghost lo: nat, ghost hi: nat)
    requires lo <= i < hi <= a.Length && lo <= j < hi
    modifies a
    ensures a[..] == With(old(a[..]), i, j)
    ensures Permuted(old(a[..]), a[..], lo, hi)
  {
    hide Permuted;
    SwapPermutes(a[..], i, j, lo, hi);
    a[i], a[j] := a[j], a[i];
  }

  // ----- What the sort promises

  /** Position `k` holds an element that a full sort of lo..hi could put there. */
  ghost predicate Placed<T>(s: seq<T>, cmp: (T, T) -> int, lo: nat, hi: nat, k: nat)
    requires lo <= k < hi <= |s|
  {
    && (forall i :: lo <= i < k ==> cmp(s[i], s[k]) <= 0)
    && (forall j :: k < j < hi ==> cmp(s[k], s[j]) <= 0)
  }

  /** Every position of l..r (inclusive) inside lo..hi is as after a full sort of lo..hi. */
  ghost predicate Selected<T>(s: seq<T>, cmp: (T, T) -> int, lo: nat, hi: nat, l: int, r: int) {
    && lo <= hi <= |s|
    && forall k :: lo <= k < hi && l <= k <= r ==> Placed(s, cmp, lo, hi, k)
  }

  ghost predicate Sorted<T>(s: seq<T>, cmp: (T, T) -> int, lo: nat, hi: nat) {
    lo <= hi <= |s| && forall i, j :: lo <= i < j < hi ==> cmp(s[i], s[j]) <= 0
  }

  /** The positions lo0..lo need no more work, whatever happens inside lo..hi. */
  ghost predicate Settled<T>(s: seq<T>, cmp: (T, T) -> int, lo0: nat, lo: nat, hi: nat, l: int, r: int) {
    && lo0 <= lo <= hi <= |s|
    && (forall i, j :: lo0 <= i < lo <= j < hi ==> cmp(s[i], s[j]) <= 0)
    && (forall k :: lo0 <= k < lo && l <= k <= r ==> Placed(s, cmp, lo0, hi, k))
  }

  /** The three parts of a partitioned range: smaller than, equal to and greater than the pivot. */
  ghost predicate Split<T>(s: seq<T>, cmp: (T, T) -> int, lo: nat, lt: nat, gt: nat, hi: nat, v: T) {
    && lo <= lt <= gt <= hi <= |s|
    && (forall k :: lo <= k < lt ==> cmp(s[k], v) < 0)
    && (forall k :: lt <= k < gt ==> cmp(s[k], v) == 0)
    && (forall k :: gt <= k < hi ==> cmp(s[k], v) > 0)
  }

  // ----- Insertion sort and the median of three

  /** The insertion sort used for short ranges and when a partition moved nothing. */
  method InsertionSort<T(!new)>(a: array<T>, lo: nat, n: nat, cmp: (T, T) -> int)
    requires TotalPreorder(cmp) && lo + n <= a.Length
    modifies a
    ensures Permuted(old(a[..]), a[..], lo, lo + n)
    ensures Sorted(a[..], cmp, lo, lo + n)
  {
    hide *;
    var pm := lo + 1;
    PermutedRefl(a[..], lo, lo + n);
    SortedShort(a[..], cmp, lo, if n == 0 then lo else lo + 1);
    while pm < lo + n
      invariant lo + 1 <= pm && (pm <= lo + n || n == 0)
      invariant Sorted(a[..], cmp, lo, if n == 0 then lo else pm)
      invariant Permuted(old(a[..]), a[..], lo, lo + n)
    {
      ghost var s := a[..];
      Sink(a, lo, pm, lo + n, cmp);
      PermutedTrans(old(a[..]), s, a[..], lo, lo + n);
      pm := pm + 1;
    }
  }

  lemma SortedShort<T>(s: seq<T>, cmp: (T, T) -> int, lo: nat, hi: nat)
    requires lo <= hi <= |s| && hi <= lo + 1
    ensures Sorted(s, cmp, lo, hi)
  {}

  /** lo..pm is sorted apart from the element at `pl`, which is at most every later one. */
  ghost predicate Sinking<T>(s: seq<T>, cmp: (T, T) -> int, lo: nat, pm: nat, pl: nat) {
    && lo <= pl <= pm < |s|
    && forall i, j :: lo <= i < j <= pm && j != pl ==> cmp(s[i], s[j]) <= 0
  }

  lemma SinkingStep<T(!new)>(s: seq<T>, cmp: (T, T) -> int, lo: nat, pm: nat, pl: nat)
    requires TotalPreorder(cmp) && Sinking(s, cmp, lo, pm, pl) && lo < pl && cmp(s[pl - 1], s[pl]) > 0
    ensures Sinking(With(s, pl, pl - 1), cmp, lo, pm, pl - 1)
  {}

  lemma SinkingStart<T>(s: seq<T>, cmp: (T, T) -> int, lo: nat, pm: nat)
    requires Sorted(s, cmp, lo, pm) && pm < |s|
    ensures Sinking(s, cmp, lo, pm, pm)
  {}

  lemma SinkingEnd<T(!new)>(s: seq<T>, cmp: (T, T) -> int, lo: nat, pm: nat, pl: nat)
    requires TotalPreorder(cmp) && Sinking(s, cmp, lo, pm, pl) && (pl == lo || cmp(s[pl - 1], s[pl]) <= 0)
    ensures Sorted(s, cmp, lo, pm + 1)
  {
    hide TotalPreorder;
    if pl > lo {
      forall i | lo <= i < pl - 1 ensures cmp(s[i], s[pl]) <= 0 {
        Chain(cmp, s[i], s[pl - 1], s[pl]);
      }
    }
  }

  /** Moves a[pm] down to its place among the sorted a[lo..pm]. */
  method Sink<T(!new)>(a: array<T>, lo: nat, pm: nat, ghost hi: nat, cmp: (T, T) -> int)
    requires TotalPreorder(cmp) && lo < pm < hi <= a.Length && Sorted(a[..], cmp, lo, pm)
    modifies a
    ensures Permuted(old(a[..]), a[..], lo, hi)
    ensures Sorted(a[..], cmp, lo, pm + 1)
  {
    hide *;
    var pl := pm;
    PermutedRefl(a[..], lo, hi);
    SinkingStart(a[..], cmp, lo, pm);
    while pl > lo && cmp(a[pl - 1], a[pl]) > 0
      invariant lo <= pl <= pm
      invariant Sinking(a[..], cmp, lo, pm, pl)
      invariant Permuted(old(a[..]), a[..], lo, hi)
    {
      ghost var s := a[..];
      SinkingStep(s, cmp, lo, pm, pl);
      Swap(a, pl, pl - 1, lo, hi);
      PermutedTrans(old(a[..]), s, a[..], lo, hi);
      pl := pl - 1;
    }
    SinkingEnd(a[..], cmp, lo, pm, pl);
  }

  /** `x`, `m`, `y` are the three positions `i`, `j`, `k` in the order of their elements. */
  ghost predicate IsMiddle<T>(s: seq<T>, cmp: (T, T) -> int, i: nat, j: nat, k: nat, x: nat, m: nat, y: nat) {
    && multiset{x, m, y} == multiset{i, j, k}
    && x < |s| && m < |s| && y < |s|
    && cmp(s[x], s[m]) <= 0 && cmp(s[m], s[y]) <= 0
  }

  /** The position among three whose element is the middle one. */
  method Med3<T(!new)>(a: array<T>, i: nat, j: nat, k: nat, cmp: (T, T) -> int) returns (m: nat)
    requires TotalPreorder(cmp) && i < a.Length && j < a.Length && k < a.Length
    ensures m == i || m == j || m == k
    ensures exists x: nat, y: nat :: IsMiddle(a[..], cmp, i, j, k, x, m, y)
  {
    ghost var x: nat, y: nat;
    if cmp(a[i], a[j]) < 0 {
      if cmp(a[j], a[k]) < 0 {
        m, x, y := j, i, k;
      } else if cmp(a[i], a[k]) < 0 {
        m, x, y := k, i, j;
      } else {
        m, x, y := i, k, j;
      }
    } else if cmp(a[j], a[k]) > 0 {
      m, x, y := j, k, i;
    } else if cmp(a[i], a[k]) < 0 {
      m, x, y := i, j, k;
    } else {
      m, x, y := k, j, i;
    }
    assert multiset{x, m, y} == multiset{i, j, k};
    assert IsMiddle(a[..], cmp, i, j, k, x, m, y);
  }

  /** The pivot's position: the middle, a median of three, or for long ranges a median of medians. */
  method ChoosePivot<T(!new)>(a: array<T>, lo: nat, n: nat, cmp: (T, T) -> int) returns (pm: nat)
    requires TotalPreorder(cmp) && 7 <= n && lo + n <= a.Length
    ensures lo <= pm < lo + n
  {
    pm := lo + n / 2;
    if n > 7 {
      var pl, pn := lo, lo + n - 1;
      if n > 40 {
        var d := n / 8;
        pl := Med3(a, pl, pl + d, pl + 2 * d, cmp);
        pm := Med3(a, pm - d, pm, pm + d, cmp);
        pn := Med3(a, pn - 2 * d, pn - d, pn, cmp);
      }
      pm := Med3(a, pl, pm, pn, cmp);
    }
  }

  // ----- Partitioning

  /**
   The state of the four pointers: equal elements collect at both ends, smaller ones before pb, greater ones
   behind pc; what lies between is unread.
   */
  ghost predicate Scanning<T>(s: seq<T>, cmp: (T, T) -> int, lo: nat, hi: nat, pa: int, pb: int, pc: int, pd: int)
    requires lo < hi <= |s|
  {
    && lo < pa <= pb <= pc + 1
    && pc <= pd < hi
    && (forall k :: lo <= k < pa ==> cmp(s[k], s[lo]) == 0)
    && (forall k :: pa <= k < pb ==> cmp(s[k], s[lo]) < 0)
    && (forall k :: pc < k <= pd ==> cmp(s[k], s[lo]) > 0)
    && (forall k :: pd < k < hi ==> cmp(s[k], s[lo]) == 0)
  }

  lemma ScannedUp<T>(s: seq<T>, cmp: (T, T) -> int, lo: nat, hi: nat, pa: nat, pb: nat, pc: int, pd: int)
    requires lo < hi <= |s| && Scanning(s, cmp, lo, hi, pa, pb, pc, pd) && pb <= pc
    ensures cmp(s[pb], s[lo]) == 0 ==> Scanning(With(s, pa, pb), cmp, lo, hi, pa + 1, pb + 1, pc, pd)
    ensures cmp(s[pb], s[lo]) < 0 ==> Scanning(s, cmp, lo, hi, pa, pb + 1, pc, pd)
  {}

  lemma ScannedDown<T>(s: seq<T>, cmp: (T, T) -> int, lo: nat, hi: nat, pa: nat, pb: nat, pc: int, pd: int)
    requires lo < hi <= |s| && Scanning(s, cmp, lo, hi, pa, pb, pc, pd) && pb <= pc
    ensures cmp(s[pc], s[lo]) == 0 ==> Scanning(With(s, pc, pd), cmp, lo, hi, pa, pb, pc - 1, pd - 1)
    ensures cmp(s[pc], s[lo]) > 0 ==> Scanning(s, cmp, lo, hi, pa, pb, pc - 1, pd)
    ensures pb < pc ==> With(s, pc, pd)[pb] == s[pb] && With(s, pc, pd)[lo] == s[lo]
  {}

  lemma ScanningBounds<T>(s: seq<T>, cmp: (T, T) -> int, lo: nat, hi: nat, pa: int, pb: int, pc: int, pd: int)
    requires lo < hi <= |s| && Scanning(s, cmp, lo, hi, pa, pb, pc, pd)
    ensures lo < pa <= pb <= pc + 1 && pc <= pd < hi
  {}

  /** The scan from the left: stops at an element greater than the pivot. */
  method ScanUp<T(!new)>(a: array<T>, lo: nat, hi: nat, cmp: (T, T) -> int, pa0: nat, pb0: nat, pc: int, ghost pd: int)
    returns (pa: nat, pb: nat, swapped: bool)
    requires lo < hi <= a.Length && Scanning(a[..], cmp, lo, hi, pa0, pb0, pc, pd)
    modifies a
    ensures Scanning(a[..], cmp, lo, hi, pa, pb, pc, pd) && pb0 <= pb && pa0 <= pa
    ensures pb <= pc ==> cmp(a[pb], a[lo]) > 0
    ensures Permuted(old(a[..]), a[..], lo, hi)
  {
    hide *;
    PermutedRefl(a[..], lo, hi);
    ScanningBounds(a[..], cmp, lo, hi, pa0, pb0, pc, pd);
    pa, pb, swapped := pa0, pb0, false;
    while pb <= pc && cmp(a[pb], a[lo]) <= 0
      invariant pb0 <= pb <= pc + 1 && pa0 <= pa <= pb
      invariant Scanning(a[..], cmp, lo, hi, pa, pb, pc, pd)
      invariant Permuted(old(a[..]), a[..], lo, hi)
      decreases pc - pb
    {
      ghost var s := a[..];
      ScannedUp(s, cmp, lo, hi, pa, pb, pc, pd);
      if cmp(a[pb], a[lo]) == 0 {
        swapped := true;
        Swap(a, pa, pb, lo, hi);
        PermutedTrans(old(a[..]), s, a[..], lo, hi);
        pa := pa + 1;
      }
      pb := pb + 1;
    }
  }

  /** The scan from the right: stops at an element smaller than the pivot. */
  method ScanDown<T(!new)>(a: array<T>, lo: nat, hi: nat, cmp: (T, T) -> int, ghost pa: nat, pb: nat, pc0: int, pd0: int)
    returns (pc: int, pd: int, swapped: bool)
    requires lo < hi <= a.Length && Scanning(a[..], cmp, lo, hi, pa, pb, pc0, pd0)
    requires pb <= pc0 ==> cmp(a[pb], a[lo]) > 0
    modifies a
    ensures pa <= pb <= pc + 1 && Scanning(a[..], cmp, lo, hi, pa, pb, pc, pd) && pc <= pc0 && pd <= pd0
    ensures pb <= pc ==> cmp(a[pc], a[lo]) < 0
    ensures pb <= pc ==> cmp(a[pb], a[lo]) > 0
    ensures Permuted(old(a[..]), a[..], lo, hi)
  {
    hide *;
    PermutedRefl(a[..], lo, hi);
    ScanningBounds(a[..], cmp, lo, hi, pa, pb, pc0, pd0);
    pc, pd, swapped := pc0, pd0, false;
    while pb <= pc && cmp(a[pc], a[lo]) >= 0
      invariant pb <= pc + 1 && pc <= pc0 && pc <= pd <= pd0 < hi
      invariant pb <= pc ==> cmp(a[..][pb], a[..][lo]) > 0
      invariant Scanning(a[..], cmp, lo, hi, pa, pb, pc, pd)
      invariant Permuted(old(a[..]), a[..], lo, hi)
      decreases pc - pb
    {
      ghost var s := a[..];
      ScannedDown(s, cmp, lo, hi, pa, pb, pc, pd);
      if cmp(a[pc], a[lo]) == 0 {
        swapped := true;
        Swap(a, pc, pd, lo, hi);
        PermutedTrans(old(a[..]), s, a[..], lo, hi);
        pd := pd - 1;
      }
      pc := pc - 1;
    }
  }

  lemma ScanningExchange<T>(s: seq<T>, cmp: (T, T) -> int, lo: nat, hi: nat, pa: nat, pb: nat, pc: int, pd: int)
    requires lo < hi <= |s| && Scanning(s, cmp, lo, hi, pa, pb, pc, pd) && pb <= pc
    requires cmp(s[pb], s[lo]) > 0 && cmp(s[pc], s[lo]) < 0
    ensures Scanning(With(s, pb, pc), cmp, lo, hi, pa, pb + 1, pc - 1, pd)
  {}

  lemma ScanningStarts<T(!new)>(s: seq<T>, cmp: (T, T) -> int, lo: nat, hi: nat)
    requires TotalPreorder(cmp) && lo + 1 < hi <= |s|
    ensures Scanning(s, cmp, lo, hi, lo + 1, lo + 1, hi - 1, hi - 1) && Permuted(s, s, lo, hi)
  {}

  /** Exchanges the two elements at which the scans stopped. */
  method Exchange<T(!new)>(a: array<T>, lo: nat, hi: nat, cmp: (T, T) -> int, ghost pa: nat, pb: nat, pc: int, ghost pd: int)
    requires lo < hi <= a.Length && Scanning(a[..], cmp, lo, hi, pa, pb, pc, pd) && pb <= pc
    requires cmp(a[pb], a[lo]) > 0 && cmp(a[pc], a[lo]) < 0
    modifies a
    ensures pb + 1 <= pc && Scanning(a[..], cmp, lo, hi, pa, pb + 1, pc - 1, pd)
    ensures Permuted(old(a[..]), a[..], lo, hi)
  {
    ghost var s := a[..];
    Swap(a, pb, pc, lo, hi);
    ScanningExchange(s, cmp, lo, hi, pa, pb, pc, pd);
  }

  /** The partitioning loop, the pivot being at `lo`. */
  method Partition<T(!new)>(a: array<T>, lo: nat, hi: nat, cmp: (T, T) -> int)
    returns (pa: nat, pb: nat, pc: int, pd: int, swapped: bool)
    requires TotalPreorder(cmp) && lo + 1 < hi <= a.Length
    modifies a
    ensures Scanning(a[..], cmp, lo, hi, pa, pb, pc, pd) && pb == pc + 1
    ensures Permuted(old(a[..]), a[..], lo, hi)
  {
    hide *;
    pa, pb, pc, pd, swapped := lo + 1, lo + 1, hi - 1, hi - 1, false;
    ScanningStarts(a[..], cmp, lo, hi);
    while true
      invariant lo < pa <= pb <= pc + 1 && pc <= pd < hi
      invariant Scanning(a[..], cmp, lo, hi, pa, pb, pc, pd)
      invariant Permuted(old(a[..]), a[..], lo, hi)
      decreases pc - pb
    {
      ghost var s0 := a[..];
      var up, down;
      pa, pb, up := ScanUp(a, lo, hi, cmp, pa, pb, pc, pd);
      ghost var s1 := a[..];
      pc, pd, down := ScanDown(a, lo, hi, cmp, pa, pb, pc, pd);
      swapped := swapped || up || down;
      PermutedTrans(s0, s1, a[..], lo, hi);
      PermutedTrans(old(a[..]), s0, a[..], lo, hi);
      if pb > pc {
        break;
      }
      ghost var s2 := a[..];
      Exchange(a, lo, hi, cmp, pa, pb, pc, pd);
      PermutedTrans(old(a[..]), s2, a[..], lo, hi);
      swapped := true;
      pb, pc := pb + 1, pc - 1;
    }
  }

  /** `t` is `s` with the `n` elements at `i` and the `n` elements at `j` exchanged. */
  ghost predicate Exchanged<T>(s: seq<T>, t: seq<T>, i: nat, j: nat, n: nat) {
    && i + n <= j && j + n <= |s| == |t|
    && (forall k {:trigger t[k]} :: i <= k < i + n ==> t[k] == s[k + (j - i)])
    && (forall k {:trigger t[k]} :: j <= k < j + n ==> t[k] == s[k - (j - i)])
    && (forall k {:trigger t[k]} :: 0 <= k < |s| && !(i <= k < i + n) && !(j <= k < j + n) ==> t[k] == s[k])
  }

  lemma ExchangedNone<T>(s: seq<T>, i: nat, j: nat)
    requires i <= j <= |s|
    ensures Exchanged(s, s, i, j, 0)
  {}

  lemma ExchangedStep<T>(s: seq<T>, t: seq<T>, i: nat, j: nat, m: nat)
    requires Exchanged(s, t, i, j, m) && i + m < j && j + m < |s|
    ensures Exchanged(s, With(t, i + m, j + m), i, j, m + 1)
  {}

  /** Exchanges two stretches of the same length that do not overlap. */
  method VecSwap<T>(a: array<T>, i: nat, j: nat, n: nat, ghost lo: nat, ghost hi: nat)
    requires lo <= i && i + n <= j && j + n <= hi <= a.Length
    modifies a
    ensures Permuted(old(a[..]), a[..], lo, hi)
    ensures Exchanged(old(a[..]), a[..], i, j, n)
  {
    hide *;
    var m := 0;
    PermutedRefl(a[..], lo, hi);
    ExchangedNone(a[..], i, j);
    while m < n
      invariant 0 <= m <= n
      invariant Permuted(old(a[..]), a[..], lo, hi)
      invariant Exchanged(old(a[..]), a[..], i, j, m)
    {
      ghost var s := a[..];
      Swap(a, i + m, j + m, lo, hi);
      PermutedTrans(old(a[..]), s, a[..], lo, hi);
      ExchangedStep(old(a[..]), s, i, j, m);
      m := m + 1;
    }
  }

  /** `t` is the partition after its left exchange; the equal elements on the right are still at the end. */
  ghost predicate HalfGathered<T>(t: seq<T>, cmp: (T, T) -> int, lo: nat, lt: nat, pb: nat, pd: int, hi: nat, v: T) {
    && lo <= lt < pb <= pd + 1 <= hi <= |t|
    && (forall k :: lo <= k < lt ==> cmp(t[k], v) < 0)
    && (forall k :: lt <= k < pb ==> cmp(t[k], v) == 0)
    && (forall k :: pb <= k <= pd ==> cmp(t[k], v) > 0)
    && (forall k :: pd < k < hi ==> cmp(t[k], v) == 0)
  }

  /** Moving the equal elements on the left to the middle. */
  lemma GatherLeft<T>(s: seq<T>, t: seq<T>, cmp: (T, T) -> int, lo: nat, hi: nat, pa: nat, pb: nat, pc: int, pd: int, v: T)
    requires lo < hi <= |s| && Scanning(s, cmp, lo, hi, pa, pb, pc, pd) && pb == pc + 1 && v == s[lo]
    requires var r := if pa - lo < pb - pa then pa - lo else pb - pa;
             Exchanged(s, t, lo, pb - r, r)
    ensures HalfGathered(t, cmp, lo, lo + (pb - pa), pb, pd, hi, v)
  {
    var r := if pa - lo < pb - pa then pa - lo else pb - pa;
    var lt := lo + (pb - pa);
    forall k | lo <= k < lt ensures cmp(t[k], v) < 0 {
      assert t[k] == if k < lo + r then s[k + (pb - r - lo)] else s[k];
    }
    forall k | lt <= k < pb ensures cmp(t[k], v) == 0 {
      assert t[k] == if pb - r <= k then s[k - (pb - r - lo)] else s[k];
    }
  }

  /** Moving the equal elements on the right to the middle. */
  lemma GatherRight<T>(s: seq<T>, t: seq<T>, cmp: (T, T) -> int, lo: nat, lt: nat, hi: nat, pb: nat, pd: int, v: T, r: nat)
    requires HalfGathered(s, cmp, lo, lt, pb, pd, hi, v)
    requires r == if pd + 1 - pb < hi - pd - 1 then pd + 1 - pb else hi - pd - 1
    requires Exchanged(s, t, pb, hi - r, r)
    ensures Split(t, cmp, lo, lt, hi - (pd + 1 - pb), hi, v)
  {
    var gt := hi - (pd + 1 - pb);
    forall k | gt <= k < hi ensures cmp(t[k], v) > 0 {
      assert t[k] == if hi - r <= k then s[k - (hi - r - pb)] else s[k];
    }
    forall k | pb <= k < gt ensures cmp(t[k], v) == 0 {
      assert t[k] == if k < pb + r then s[k + (hi - r - pb)] else s[k];
    }
  }

  method GatherLeftEquals<T(!new)>(a: array<T>, lo: nat, hi: nat, cmp: (T, T) -> int, pa: nat, pb: nat, ghost pc: int, ghost pd: int)
    returns (lt: nat, ghost v: T)
    requires lo < hi <= a.Length && Scanning(a[..], cmp, lo, hi, pa, pb, pc, pd) && pb == pc + 1
    modifies a
    ensures Permuted(old(a[..]), a[..], lo, hi)
    ensures HalfGathered(a[..], cmp, lo, lt, pb, pd, hi, v)
  {
    hide Permuted, Exchanged, HalfGathered;
    v := a[lo];
    lt := lo + (pb - pa);
    var r := if pa - lo < pb - pa then pa - lo else pb - pa;
    ghost var s := a[..];
    VecSwap(a, lo, pb - r, r, lo, hi);
    GatherLeft(s, a[..], cmp, lo, hi, pa, pb, pc, pd, v);
  }

  method GatherRightEquals<T(!new)>(a: array<T>, lo: nat, lt: nat, hi: nat, ghost cmp: (T, T) -> int, pb: nat, pd: int, ghost v: T)
    returns (gt: nat)
    requires hi <= a.Length && HalfGathered(a[..], cmp, lo, lt, pb, pd, hi, v)
    modifies a
    ensures Permuted(old(a[..]), a[..], lo, hi)
    ensures Split(a[..], cmp, lo, lt, gt, hi, v) && lt < gt
  {
    hide Permuted, Exchanged, Split;
    gt := hi - (pd + 1 - pb);
    var r := if pd + 1 - pb < hi - pd - 1 then pd + 1 - pb else hi - pd - 1;
    ghost var s := a[..];
    VecSwap(a, pb, hi - r, r, lo, hi);
    GatherRight(s, a[..], cmp, lo, lt, hi, pb, pd, v, r);
  }

  // ----- The sort

  /** A rearranged range keeps every bound its elements had. */
  lemma PermutedBounds<T>(s: seq<T>, t: seq<T>, cmp: (T, T) -> int, lo: nat, hi: nat, v: T)
    requires Permuted(s, t, lo, hi)
    ensures (forall k :: lo <= k < hi ==> cmp(s[k], v) < 0) ==> forall k :: lo <= k < hi ==> cmp(t[k], v) < 0
    ensures (forall k :: lo <= k < hi ==> cmp(v, s[k]) <= 0) ==> forall k :: lo <= k < hi ==> cmp(v, t[k]) <= 0
  {
    forall k | lo <= k < hi
      ensures (forall i :: lo <= i < hi ==> cmp(s[i], v) < 0) ==> cmp(t[k], v) < 0
      ensures (forall i :: lo <= i < hi ==> cmp(v, s[i]) <= 0) ==> cmp(v, t[k]) <= 0
    {
      var i := PermutedFrom(s, t, lo, hi, k);
    }
  }

  /** Rearranging the unfinished range keeps the finished positions finished. */
  lemma SettledStays<T>(s: seq<T>, t: seq<T>, cmp: (T, T) -> int, lo0: nat, lo: nat, hi: nat, l: int, r: int)
    requires Settled(s, cmp, lo0, lo, hi, l, r) && Permuted(s, t, lo, hi)
    ensures Settled(t, cmp, lo0, lo, hi, l, r)
  {
    forall k | 0 <= k < |s| && (k < lo || hi <= k) ensures t[k] == s[k] {
      PermutedOutside(s, t, lo, hi, k);
    }
    forall i, j | lo0 <= i < lo <= j < hi ensures cmp(t[i], t[j]) <= 0 {
      PermutedBounds(s, t, cmp, lo, hi, s[i]);
    }
    forall k | lo0 <= k < lo && l <= k <= r ensures Placed(t, cmp, lo0, hi, k) {
      assert Placed(s, cmp, lo0, hi, k);
    }
  }

  /** Sorting the part below the pivot keeps the partition. */
  lemma SplitStays<T>(s: seq<T>, t: seq<T>, cmp: (T, T) -> int, lo: nat, lt: nat, gt: nat, hi: nat, v: T)
    requires Split(s, cmp, lo, lt, gt, hi, v) && Permuted(s, t, lo, lt)
    ensures Split(t, cmp, lo, lt, gt, hi, v)
  {
    forall k | 0 <= k < |s| && lt <= k ensures t[k] == s[k] {
      PermutedOutside(s, t, lo, lt, k);
    }
    PermutedBounds(s, t, cmp, lo, lt, v);
  }

  /** In a partitioned range every element is at most every later one of another part. */
  lemma SplitOrders<T(!new)>(s: seq<T>, cmp: (T, T) -> int, lo: nat, lt: nat, gt: nat, hi: nat, v: T, i: nat, j: nat)
    requires TotalPreorder(cmp) && Split(s, cmp, lo, lt, gt, hi, v)
    requires lo <= i < hi && lo <= j < hi && i < j && (i < gt && lt <= j)
    ensures cmp(s[i], s[j]) <= 0
  {
    assert cmp(v, s[j]) <= 0;
    assert TransitiveAt(cmp, s[i], v, s[j]);
  }

  /** With the lower part done and the middle equal to the pivot, everything below `gt` is finished. */
  lemma Advance<T(!new)>(s: seq<T>, cmp: (T, T) -> int, lo0: nat, lo: nat, lt: nat, gt: nat, hi: nat, v: T, l: int, r: int)
    requires TotalPreorder(cmp) && Settled(s, cmp, lo0, lo, hi, l, r)
    requires Split(s, cmp, lo, lt, gt, hi, v) && Selected(s, cmp, lo, lt, l, r)
    ensures Settled(s, cmp, lo0, gt, hi, l, r)
  {
    forall i, j | lo0 <= i < gt <= j < hi ensures cmp(s[i], s[j]) <= 0 {
      if lo <= i {
        SplitOrders(s, cmp, lo, lt, gt, hi, v, i, j);
      }
    }
    forall k | lo0 <= k < gt && l <= k <= r ensures Placed(s, cmp, lo0, hi, k) {
      if lo <= k {
        AdvancePlaced(s, cmp, lo0, lo, lt, gt, hi, v, l, r, k);
      }
    }
  }

  lemma AdvancePlaced<T(!new)>(s: seq<T>, cmp: (T, T) -> int, lo0: nat, lo: nat, lt: nat, gt: nat, hi: nat, v: T,
                               l: int, r: int, k: nat)
    requires TotalPreorder(cmp) && Settled(s, cmp, lo0, lo, hi, l, r)
    requires Split(s, cmp, lo, lt, gt, hi, v) && Selected(s, cmp, lo, lt, l, r)
    requires lo <= k < gt && l <= k <= r
    ensures Placed(s, cmp, lo0, hi, k)
  {
    if k < lt {
      assert Placed(s, cmp, lo, lt, k);
    }
    forall i | lo0 <= i < k ensures cmp(s[i], s[k]) <= 0 {
      if lo <= i && lt <= k {
        SplitOrders(s, cmp, lo, lt, gt, hi, v, i, k);
      }
    }
    forall j | k < j < hi ensures cmp(s[k], s[j]) <= 0 {
      if lt <= j {
        SplitOrders(s, cmp, lo, lt, gt, hi, v, k, j);
      }
    }
  }

  /** Finishing the rest finishes the whole range. */
  lemma SettledFinish<T>(s: seq<T>, cmp: (T, T) -> int, lo0: nat, lo: nat, hi: nat, l: int, r: int)
    requires Settled(s, cmp, lo0, lo, hi, l, r) && Selected(s, cmp, lo, hi, l, r)
    ensures Selected(s, cmp, lo0, hi, l, r)
  {
    forall k | lo0 <= k < hi && l <= k <= r ensures Placed(s, cmp, lo0, hi, k) {
      if lo <= k {
        assert Placed(s, cmp, lo, hi, k);
      }
    }
  }

  /** The source's test, on the addresses of the range's first byte and last byte, that a part can be skipped. */
  predicate Pruned(lo: nat, hi: nat, l: nat, r: nat) {
    (l < lo && r < lo) || (l >= hi && r >= hi)
  }

  /** The test on byte addresses, with `base` the address of the whole array, is the test on indices. */
  lemma PrunedOnAddresses(base: nat, es: nat, lo: nat, hi: nat, l: nat, r: nat)
    requires 0 < es && lo < hi
    ensures var lrange, rrange := base + l * es, base + (r + 1) * es - 1;
            var first, last := base + lo * es, base + lo * es + (hi - lo) * es - 1;
            ((lrange < first && rrange < first) || (lrange > last && rrange > last)) <==> Pruned(lo, hi, l, r)
  {
    assert lo * es + (hi - lo) * es == hi * es;
    Scaled(l, lo, es);
    Scaled(l, hi, es);
    Scaled(r + 1, lo, es);
    Scaled(r, lo, es);
    Scaled(r + 1, hi, es);
    Scaled(r, hi, es);
    assert (r + 1) * es == r * es + es;
  }

  lemma Scaled(x: nat, y: nat, es: nat)
    requires 0 < es
    ensures x < y <==> x * es < y * es
    ensures x < y ==> x * es + es <= y * es
  {
    if x < y {
      ScaledBelow(x, y, es);
    } else if y < x {
      ScaledBelow(y, x, es);
    }
  }

  lemma {:induction false} ScaledBelow(x: nat, y: nat, es: nat)
    requires x < y
    ensures x * es + es <= y * es
    decreases y - x
  {
    assert (x + 1) * es == x * es + es;
    if x + 1 < y {
      ScaledBelow(x + 1, y, es);
    }
  }

  /**
   _pqsort on the `n` elements at `lo0`: rearranges them so that every position of l..r in that range is placed.
   The source's `goto loop` on the upper part is the loop.
   */
  method PqsortRange<T(!new)>(a: array<T>, lo0: nat, n0: nat, cmp: (T, T) -> int, l: nat, r: nat)
    requires TotalPreorder(cmp) && lo0 + n0 <= a.Length
    modifies a
    ensures Permuted(old(a[..]), a[..], lo0, lo0 + n0)
    ensures Selected(a[..], cmp, lo0, lo0 + n0, l, r)
    decreases n0, 1
  {
    hide *;
    var lo, n, more := lo0, n0, true;
    SettledAtStart(a[..], cmp, lo0, lo0 + n0, l, r);
    while more
      invariant lo + n == lo0 + n0 && lo0 <= lo
      invariant Permuted(old(a[..]), a[..], lo0, lo0 + n0)
      invariant Settled(a[..], cmp, lo0, lo, lo + n, l, r)
      invariant !more ==> Selected(a[..], cmp, lo, lo + n, l, r)
      decreases more, n
    {
      ghost var s := a[..];
      var done, gt := PqsortStep(a, lo0, lo, n, cmp, l, r);
      PermutedWider(s, a[..], lo0, lo0 + n0, lo, lo + n);
      PermutedTrans(old(a[..]), s, a[..], lo0, lo0 + n0);
      if done {
        more := false;
      } else {
        lo, n := gt, lo + n - gt;
        if n <= 1 || Pruned(lo, lo + n, l, r) {
          more := false;
          NothingToSelect(a[..], cmp, lo, lo + n, l, r);
        }
      }
    }
    SettledFinish(a[..], cmp, lo0, lo, lo + n, l, r);
  }

  lemma SettledAtStart<T>(s: seq<T>, cmp: (T, T) -> int, lo0: nat, hi: nat, l: nat, r: nat)
    requires lo0 <= hi <= |s|
    ensures Settled(s, cmp, lo0, lo0, hi, l, r) && Permuted(s, s, lo0, hi)
  {}

  /** A skipped part holds no requested position, or a single element. */
  lemma NothingToSelect<T>(s: seq<T>, cmp: (T, T) -> int, lo: nat, hi: nat, l: nat, r: nat)
    requires lo <= hi <= |s| && (hi - lo <= 1 || Pruned(lo, hi, l, r))
    ensures Selected(s, cmp, lo, hi, l, r)
  {}

  /** Chooses the pivot and partitions; `still` reports that no exchange was needed. */
  method SplitRange<T(!new)>(a: array<T>, lo: nat, n: nat, cmp: (T, T) -> int)
    returns (still: bool, lt: nat, gt: nat, ghost v: T)
    requires TotalPreorder(cmp) && 7 <= n && lo + n <= a.Length
    modifies a
    ensures Permuted(old(a[..]), a[..], lo, lo + n)
    ensures !still ==> Split(a[..], cmp, lo, lt, gt, lo + n, v) && lt < gt
  {
    hide *;
    ghost var s0 := a[..];
    var pm := ChoosePivot(a, lo, n, cmp);
    Swap(a, lo, pm, lo, lo + n);
    ghost var s1 := a[..];
    var pa, pb, pc, pd, swapped := Partition(a, lo, lo + n, cmp);
    ghost var s2 := a[..];
    PermutedTrans(s0, s1, s2, lo, lo + n);
    still, lt, gt, v := true, lo, lo, a[lo];
    if swapped {
      still := false;
      ScanningBounds(a[..], cmp, lo, lo + n, pa, pb, pc, pd);
      lt, v := GatherLeftEquals(a, lo, lo + n, cmp, pa, pb, pc, pd);
      ghost var s3 := a[..];
      gt := GatherRightEquals(a, lo, lt, lo + n, cmp, pb, pd, v);
      PermutedTrans(s0, s2, s3, lo, lo + n);
      PermutedTrans(s0, s3, a[..], lo, lo + n);
    }
  }

  /** The recursive call on the part below the pivot, unless it lies outside the requested positions. */
  method PqsortLower<T(!new)>(a: array<T>, ghost lo0: nat, lo: nat, lt: nat, ghost gt: nat, ghost hi: nat, cmp: (T, T) -> int,
                              ghost v: T, l: nat, r: nat)
    requires TotalPreorder(cmp) && hi <= a.Length
    requires Settled(a[..], cmp, lo0, lo, hi, l, r) && Split(a[..], cmp, lo, lt, gt, hi, v) && lt < gt
    modifies a
    ensures Permuted(old(a[..]), a[..], lo, hi)
    ensures Settled(a[..], cmp, lo0, gt, hi, l, r)
    decreases lt - lo, 2
  {
    hide *;
    ghost var s := a[..];
    SplitBounds(s, cmp, lo, lt, gt, hi, v);
    SettledAtStart(s, cmp, lo, hi, l, r);
    if lt - lo <= 1 || Pruned(lo, lt, l, r) {
      NothingToSelect(s, cmp, lo, lt, l, r);
    } else {
      PqsortRange(a, lo, lt - lo, cmp, l, r);
      PermutedWider(s, a[..], lo, hi, lo, lt);
      SplitStays(s, a[..], cmp, lo, lt, gt, hi, v);
      SettledStays(s, a[..], cmp, lo0, lo, hi, l, r);
    }
    Advance(a[..], cmp, lo0, lo, lt, gt, hi, v, l, r);
  }

  lemma SortedIsSelected<T>(s: seq<T>, cmp: (T, T) -> int, lo: nat, hi: nat, l: int, r: int)
    requires Sorted(s, cmp, lo, hi)
    ensures Selected(s, cmp, lo, hi, l, r)
  {}

  /** The two places where _pqsort ends with an insertion sort. */
  method FinishBySorting<T(!new)>(a: array<T>, ghost lo0: nat, lo: nat, n: nat, cmp: (T, T) -> int, ghost l: nat, ghost r: nat)
    requires TotalPreorder(cmp) && lo + n <= a.Length && Settled(a[..], cmp, lo0, lo, lo + n, l, r)
    modifies a
    ensures Permuted(old(a[..]), a[..], lo, lo + n)
    ensures Settled(a[..], cmp, lo0, lo, lo + n, l, r) && Selected(a[..], cmp, lo, lo + n, l, r)
  {
    hide *;
    ghost var s := a[..];
    InsertionSort(a, lo, n, cmp);
    SettledStays(s, a[..], cmp, lo0, lo, lo + n, l, r);
    SortedIsSelected(a[..], cmp, lo, lo + n, l, r);
  }

  /** One turn of _pqsort: sorts a short range, or partitions it and recurs into the lower part. */
  method PqsortStep<T(!new)>(a: array<T>, ghost lo0: nat, lo: nat, n: nat, cmp: (T, T) -> int, l: nat, r: nat)
    returns (done: bool, gt: nat)
    requires TotalPreorder(cmp) && lo + n <= a.Length
    requires Settled(a[..], cmp, lo0, lo, lo + n, l, r)
    modifies a
    ensures Permuted(old(a[..]), a[..], lo, lo + n)
    ensures done ==> Settled(a[..], cmp, lo0, lo, lo + n, l, r) && Selected(a[..], cmp, lo, lo + n, l, r)
    ensures !done ==> lo < gt <= lo + n && Settled(a[..], cmp, lo0, gt, lo + n, l, r)
    decreases n, 0
  {
    hide *;
    if n < 7 {
      FinishBySorting(a, lo0, lo, n, cmp, l, r);
      return true, lo;
    }
    ghost var s := a[..];
    var still, lt;
    ghost var v;
    still, lt, gt, v := SplitRange(a, lo, n, cmp);
    ghost var t := a[..];
    SettledStays(s, t, cmp, lo0, lo, lo + n, l, r);
    done := still;
    if still {
      FinishBySorting(a, lo0, lo, n, cmp, l, r);
    } else {
      SplitBounds(t, cmp, lo, lt, gt, lo + n, v);
      PqsortLower(a, lo0, lo, lt, gt, lo + n, cmp, v, l, r);
    }
    PermutedTrans(s, t, a[..], lo, lo + n);
  }

  lemma SplitBounds<T>(s: seq<T>, cmp: (T, T) -> int, lo: nat, lt: nat, gt: nat, hi: nat, v: T)
    requires Split(s, cmp, lo, lt, gt, hi, v)
    ensures lo <= lt <= gt <= hi <= |s|
  {}

  /** pqsort on a whole array, for the positions l..r inclusive. */
  method Pqsort<T(!new)>(a: array<T>, cmp: (T, T) -> int, l: nat, r: nat)
    requires TotalPreorder(cmp)
    modifies a
    ensures multiset(a[..]) == multiset(old(a[..]))
    ensures Selected(a[..], cmp, 0, a.Length, l, r)
  {
    ghost var s := a[..];
    PqsortRange(a, 0, a.Length, cmp, l, r);
    assert s[0..a.Length] == s && a[..][0..a.Length] == a[..];
  }

  // ----- A placed position is the position of a full sort, up to ties

  /** How many elements are greater than `v`. */
  ghost function CountAbove<T>(s: seq<T>, cmp: (T, T) -> int, v: T): nat {
    if s == [] then 0 else (if cmp(s[0], v) > 0 then 1 else 0) + CountAbove(s[1..], cmp, v)
  }

  lemma {:induction false} CountAboveConcat<T>(s: seq<T>, t: seq<T>, cmp: (T, T) -> int, v: T)
    ensures CountAbove(s + t, cmp, v) == CountAbove(s, cmp, v) + CountAbove(t, cmp, v)
  {
    if s == [] {
      assert s + t == t;
    } else {
      assert (s + t)[1..] == s[1..] + t;
      CountAboveConcat(s[1..], t, cmp, v);
    }
  }

  lemma {:induction false} CountAbovePermuted<T>(s: seq<T>, t: seq<T>, cmp: (T, T) -> int, v: T)
    requires multiset(s) == multiset(t)
    ensures CountAbove(s, cmp, v) == CountAbove(t, cmp, v)
  {
    if s == [] {
      assert |t| == |multiset(t)| == 0;
    } else {
      var k := WithoutFirst(s, t);
      CountAbovePermuted(s[1..], t[..k] + t[k + 1..], cmp, v);
      CountAboveConcat(t[..k], t[k + 1..], cmp, v);
      CountAboveConcat(t[..k], [t[k]] + t[k + 1..], cmp, v);
      CountAboveConcat([t[k]], t[k + 1..], cmp, v);
    }
  }

  lemma WithoutFirst<T>(s: seq<T>, t: seq<T>) returns (k: nat)
    requires multiset(s) == multiset(t) && s != []
    ensures k < |t| && t[k] == s[0] && multiset(s[1..]) == multiset(t[..k] + t[k + 1..])
    ensures t == t[..k] + ([t[k]] + t[k + 1..])
  {
    assert s[0] in multiset(t);
    k :| 0 <= k < |t| && t[k] == s[0];
    assert s == [s[0]] + s[1..];
    assert t == t[..k] + ([t[k]] + t[k + 1..]);
    assert multiset(s) == multiset{s[0]} + multiset(s[1..]);
    assert multiset(t) == multiset(t[..k]) + (multiset{s[0]} + multiset(t[k + 1..]));
    assert multiset(s[1..]) == multiset(s) - multiset{s[0]} == multiset(t) - multiset{s[0]};
  }

  lemma {:induction false} CountAboveBounds<T>(s: seq<T>, cmp: (T, T) -> int, v: T)
    ensures CountAbove(s, cmp, v) <= |s|
    ensures (forall i :: 0 <= i < |s| ==> cmp(s[i], v) <= 0) ==> CountAbove(s, cmp, v) == 0
    ensures (forall i :: 0 <= i < |s| ==> cmp(s[i], v) > 0) ==> CountAbove(s, cmp, v) == |s|
  {
    if s != [] {
      CountAboveBounds(s[1..], cmp, v);
    }
  }

  /** An element of a full sort at `k` cannot be above the one placed there. */
  lemma NotAbove<T(!new)>(s: seq<T>, q: seq<T>, cmp: (T, T) -> int, k: nat)
    requires TotalPreorder(cmp) && multiset(s) == multiset(q) && Sorted(q, cmp, 0, |q|)
    requires k < |s| == |q| && Placed(s, cmp, 0, |s|, k)
    ensures cmp(q[k], s[k]) <= 0
  {
    if cmp(q[k], s[k]) > 0 {
      var v := s[k];
      forall j | 0 <= j < |q[k..]| ensures cmp(q[k..][j], v) > 0 {
        assert TransitiveAt(cmp, q[k], q[k + j], v);
      }
      assert q == q[..k] + q[k..] && s == s[..k + 1] + s[k + 1..];
      CountAboveConcat(q[..k], q[k..], cmp, v);
      CountAboveConcat(s[..k + 1], s[k + 1..], cmp, v);
      CountAboveBounds(q[k..], cmp, v);
      CountAboveBounds(s[..k + 1], cmp, v);
      CountAboveBounds(s[k + 1..], cmp, v);
      CountAbovePermuted(s, q, cmp, v);
    }
  }

  ghost function Flip<T(!new)>(cmp: (T, T) -> int): (T, T) -> int {
    (x, y) => cmp(y, x)
  }

  ghost function Reversed<T>(s: seq<T>): (r: seq<T>)
    ensures |r| == |s| && forall k :: 0 <= k < |s| ==> r[k] == s[|s| - 1 - k]
    ensures multiset(r) == multiset(s)
  {
    if s == [] then []
    else
      assert s == [s[0]] + s[1..];
      Reversed(s[1..]) + [s[0]]
  }

  /** Each selected position holds, up to ties, what any full sort of the same elements holds there. */
  lemma SelectedAgreesWithSort<T(!new)>(s: seq<T>, q: seq<T>, cmp: (T, T) -> int, l: nat, r: nat, k: nat)
    requires TotalPreorder(cmp) && multiset(s) == multiset(q) && Sorted(q, cmp, 0, |q|)
    requires Selected(s, cmp, 0, |s|, l, r) && l <= k <= r && k < |s|
    ensures |q| == |s| && cmp(q[k], s[k]) == 0
  {
    assert |s| == |multiset(s)| == |q|;
    assert Placed(s, cmp, 0, |s|, k);
    NotAbove(s, q, cmp, k);
    NotBelow(s, q, cmp, k);
  }

  /** An element of a full sort at `k` cannot be below the one placed there: the same, read backwards. */
  lemma NotBelow<T(!new)>(s: seq<T>, q: seq<T>, cmp: (T, T) -> int, k: nat)
    requires TotalPreorder(cmp) && multiset(s) == multiset(q) && Sorted(q, cmp, 0, |q|)
    requires k < |s| == |q| && Placed(s, cmp, 0, |s|, k)
    ensures cmp(q[k], s[k]) >= 0
  {
    var s', q', f := Reversed(s), Reversed(q), Flip(cmp);
    FlipIsPreorder(cmp);
    assert Sorted(q', f, 0, |q'|) && Placed(s', f, 0, |s'|, |s| - 1 - k) by {
      hide TotalPreorder;
    }
    NotAbove(s', q', f, |s| - 1 - k);
    FlippedSign(cmp, s[k], q[k]);
  }

  lemma FlippedSign<T(!new)>(cmp: (T, T) -> int, x: T, y: T)
    requires TotalPreorder(cmp)
    ensures cmp(x, y) <= 0 <==> cmp(y, x) >= 0
  {}

  lemma FlipIsPreorder<T(!new)>(cmp: (T, T) -> int)
    requires TotalPreorder(cmp)
    ensures TotalPreorder(Flip(cmp))
    ensures forall x, y :: Flip(cmp)(x, y) == cmp(y, x)
  {
    var f := Flip(cmp);
    forall x, y, z {:trigger TransitiveAt(f, x, y, z)} ensures TransitiveAt(f, x, y, z) {
      assert TransitiveAt(cmp, z, y, x);
    }
  }
}
