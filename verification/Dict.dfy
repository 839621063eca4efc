/**
 The incrementally rehashed hash table (dict.c): two tables of bucket chains, of which the first is migrated bucket
 by bucket into the second while the dictionary is in use, and safe iterators that hold the migration still.
 */
module Dict {

  const DICT_HT_INITIAL_SIZE: nat := 4
  const DICT_FORCE_RESIZE_RATIO := 5
  const LONG_MAX := 0x7FFF_FFFF_FFFF_FFFF

  // ----- Bucket indices

  /** The bitwise conjunction of two natural numbers. */
  function BitAnd(a: nat, b: nat): (r: nat)
    ensures r <= b
  {
    if a == 0 || b == 0 then 0
    else 2 * BitAnd(a / 2, b / 2) + (if a % 2 == 1 && b % 2 == 1 then 1 else 0)
  }

  function Pow2(e: nat): (r: nat)
    ensures r > 0
  {
    if e == 0 then 1 else 2 * Pow2(e - 1)
  }

  /** For a table whose size is a power of two the mask gives the remainder of the hash by the size. */
  lemma {:induction false} MaskIsRemainder(h: nat, e: nat)
    ensures BitAnd(h, Pow2(e) - 1) == h % Pow2(e)
  {
    if h != 0 && e != 0 {
      MaskIsRemainder(h / 2, e - 1);
      var n := Pow2(e - 1);
      assert (2 * n - 1) / 2 == n - 1 && (2 * n - 1) % 2 == 1;
      assert h == 2 * (h / 2) + h % 2;
      HalfRemainder(h, n);
    }
  }

  lemma HalfRemainder(h: nat, n: nat)
    requires n > 0
    ensures h % (2 * n) == 2 * (h / 2 % n) + h % 2
  {
    var q, r := h / 2 / n, h / 2 % n;
    assert h / 2 == q * n + r;
    assert h == q * (2 * n) + (2 * r + h % 2);
    DivModUnique(h, 2 * n, q, 2 * r + h % 2);
  }

  lemma DivModUnique(a: nat, m: nat, q: nat, r: nat)
    requires m > 0 && r < m && a == q * m + r
    ensures a % m == r
  {
    var q' := a / m;
    assert a == m * q' + a % m;
    assert m * q' == q * m + (q' - q) * m && q * m == m * q' + (q - q') * m;
    if q < q' {
      AtLeastOnce(q' - q, m);
    } else if q' < q {
      AtLeastOnce(q - q', m);
    }
  }

  lemma AtLeastOnce(x: nat, m: nat)
    requires x > 0
    ensures x * m >= m
  {}

  /** _dictNextPower: the smallest power of two that is at least `size` and the initial size. */
  method NextPower(size: nat) returns (i: nat)
    ensures size >= LONG_MAX ==> i == LONG_MAX
    ensures size < LONG_MAX ==> size <= i && DICT_HT_INITIAL_SIZE <= i && (i == DICT_HT_INITIAL_SIZE || i / 2 < size)
    ensures size < LONG_MAX ==> exists e :: i == Pow2(e)
  {
    i := DICT_HT_INITIAL_SIZE;
    if size >= LONG_MAX {
      return LONG_MAX;
    }
    ghost var e: nat := 2;
    assert Pow2(2) == 2 * Pow2(1) == 4;
    while i < size
      invariant DICT_HT_INITIAL_SIZE <= i == Pow2(e) && (i == DICT_HT_INITIAL_SIZE || i / 2 < size)
      decreases size - i
    {
      i := i * 2;
      e := e + 1;
    }
  }

  // ----- Entries, chains and what a pair of tables holds

  class Entry<K, V> {
    const key: K
    var val: V
    var next: Entry?<K, V>

    constructor (key: K, val: V, next: Entry?<K, V>)
      ensures this.key == key && this.val == val && this.next == next
    {
      this.key, this.val, this.next := key, val, next;
    }
  }

  /** The position of a key in a chain, or the chain's length. */
  ghost function IndexIn<K, V>(chain: seq<Entry<K, V>>, k: K): (r: nat)
    ensures r <= |chain|
    ensures r < |chain| ==> chain[r].key == k
    ensures forall j :: 0 <= j < r ==> chain[j].key != k
  {
    if chain == [] then 0 else if chain[0].key == k then 0 else 1 + IndexIn(chain[1..], k)
  }

  lemma IndexIs<K, V>(chain: seq<Entry<K, V>>, k: K, r: nat)
    requires r <= |chain| && (r < |chain| ==> chain[r].key == k)
    requires forall j :: 0 <= j < r ==> chain[j].key != k
    ensures IndexIn(chain, k) == r
  {}

  ghost function Bucket<K>(hash: K -> nat, k: K, size: nat): (b: nat)
    requires size > 0
    ensures b < size
  {
    BitAnd(hash(k), size - 1)
  }

  lemma IsBucket<K>(hash: K -> nat, k: K, size: nat)
    requires size > 0
    ensures BitAnd(hash(k), size - 1) == Bucket(hash, k, size) < size
  {}

  /** The chain a key belongs to; no chain when there is no table. */
  ghost function ChainOf<K, V>(hash: K -> nat, c: seq<seq<Entry<K, V>>>, k: K): seq<Entry<K, V>> {
    if c == [] then [] else c[Bucket(hash, k, |c|)]
  }

  ghost predicate Has<K, V>(hash: K -> nat, c: seq<seq<Entry<K, V>>>, k: K) {
    IndexIn(ChainOf(hash, c, k), k) < |ChainOf(hash, c, k)|
  }

  ghost function EntryIn<K, V>(hash: K -> nat, c: seq<seq<Entry<K, V>>>, k: K): (e: Entry?<K, V>)
    ensures e != null ==> e.key == k
  {
    if Has(hash, c, k) then ChainOf(hash, c, k)[IndexIn(ChainOf(hash, c, k), k)] else null
  }

  /** The entry of a key in a pair of tables, the first table being searched first. */
  ghost function Get<K, V>(hash: K -> nat, c0: seq<seq<Entry<K, V>>>, c1: seq<seq<Entry<K, V>>>, k: K): (e: Entry?<K, V>)
    ensures e != null ==> e.key == k
  {
    if Has(hash, c0, k) then EntryIn(hash, c0, k) else EntryIn(hash, c1, k)
  }

  /** Every entry is in the bucket of its key, and no key occurs twice in a chain. */
  ghost predicate Placed<K, V>(hash: K -> nat, c: seq<seq<Entry<K, V>>>) {
    && (forall b, j {:trigger c[b][j]} :: 0 <= b < |c| && 0 <= j < |c[b]| ==> Bucket(hash, c[b][j].key, |c|) == b)
    && (forall b :: 0 <= b < |c| ==> DistinctKeys(c[b]))
  }

  ghost predicate DistinctKeys<K, V>(chain: seq<Entry<K, V>>) {
    forall i, j :: 0 <= i < j < |chain| ==> chain[i].key != chain[j].key
  }

  /** No key is in both tables. */
  ghost predicate Apart<K(!new), V>(hash: K -> nat, c0: seq<seq<Entry<K, V>>>, c1: seq<seq<Entry<K, V>>>) {
    forall k :: !(Has(hash, c0, k) && Has(hash, c1, k))
  }

  /** The number of entries of a table. */
  ghost function Total<A>(c: seq<seq<A>>): nat {
    if c == [] then 0 else |c[0]| + Total(c[1..])
  }

  lemma {:induction false} TotalUpdate<A>(c: seq<seq<A>>, b: nat, x: seq<A>)
    requires b < |c|
    ensures Total(c[b := x]) == Total(c) - |c[b]| + |x|
  {
    if b == 0 {
      assert c[0 := x][1..] == c[1..];
    } else {
      assert c[b := x][1..] == c[1..][b - 1 := x];
      TotalUpdate(c[1..], b - 1, x);
    }
  }

  lemma {:induction false} TotalZero<A>(c: seq<seq<A>>)
    ensures Total(c) == 0 <==> forall b :: 0 <= b < |c| ==> c[b] == []
  {
    if c != [] {
      TotalZero(c[1..]);
      assert forall b :: 1 <= b < |c| ==> c[b] == c[1..][b - 1];
    }
  }

  /** An entry at a place of a well-placed table is what searching for its key finds. */
  lemma FoundAt<K, V>(hash: K -> nat, c: seq<seq<Entry<K, V>>>, b: nat, j: nat)
    requires Placed(hash, c) && b < |c| && j < |c[b]|
    ensures Has(hash, c, c[b][j].key) && EntryIn(hash, c, c[b][j].key) == c[b][j]
  {
    assert DistinctKeys(c[b]);
    IndexIs(c[b], c[b][j].key, j);
  }

  /** A key that is found has a place. */
  lemma PlaceOf<K, V>(hash: K -> nat, c: seq<seq<Entry<K, V>>>, k: K) returns (b: nat, j: nat)
    requires Has(hash, c, k)
    ensures b < |c| && b == Bucket(hash, k, |c|) && j < |c[b]| && c[b][j] == EntryIn(hash, c, k)
  {
    b, j := Bucket(hash, k, |c|), IndexIn(ChainOf(hash, c, k), k);
  }

  // ----- The three changes of a table: an entry pushed on a chain, popped off a chain, taken out of a chain

  ghost function Push<K, V>(c: seq<seq<Entry<K, V>>>, b: nat, e: Entry<K, V>): seq<seq<Entry<K, V>>>
    requires b < |c|
  {
    c[b := [e] + c[b]]
  }

  ghost function TakeOut<K, V>(c: seq<seq<Entry<K, V>>>, b: nat, j: nat): seq<seq<Entry<K, V>>>
    requires b < |c| && j < |c[b]|
  {
    c[b := c[b][..j] + c[b][j + 1..]]
  }

  lemma PushFind<K, V>(chain: seq<Entry<K, V>>, e: Entry<K, V>, k: K)
    ensures IndexIn([e] + chain, k) == if e.key == k then 0 else 1 + IndexIn(chain, k)
  {
    assert ([e] + chain)[1..] == chain;
  }

  lemma TakeOutFind<K, V>(chain: seq<Entry<K, V>>, j: nat, k: K)
    requires DistinctKeys(chain) && j < |chain|
    ensures var rest := chain[..j] + chain[j + 1..];
            && (IndexIn(rest, k) < |rest| <==> IndexIn(chain, k) < |chain| && k != chain[j].key)
            && (IndexIn(rest, k) < |rest| ==> rest[IndexIn(rest, k)] == chain[IndexIn(chain, k)])
  {
    var rest, r := chain[..j] + chain[j + 1..], IndexIn(chain, k);
    if r == |chain| || r == j {
      IndexIs(rest, k, |rest|);
    } else {
      IndexIs(rest, k, if r < j then r else r - 1);
    }
  }

  lemma PushPlaced<K(!new), V>(hash: K -> nat, c: seq<seq<Entry<K, V>>>, b: nat, e: Entry<K, V>)
    requires Placed(hash, c) && b < |c| && Bucket(hash, e.key, |c|) == b && !Has(hash, c, e.key)
    ensures Placed(hash, Push(c, b, e))
    ensures forall k :: EntryIn(hash, Push(c, b, e), k) == if k == e.key then e else EntryIn(hash, c, k)
    ensures forall k :: Has(hash, Push(c, b, e), k) <==> k == e.key || Has(hash, c, k)
    ensures Total(Push(c, b, e)) == Total(c) + 1
  {
    var d := Push(c, b, e);
    TotalUpdate(c, b, d[b]);
    PushFinds(hash, c, b, e);
    forall b', j | 0 <= b' < |d| && 0 <= j < |d[b']| ensures Bucket(hash, d[b'][j].key, |d|) == b' {
      if b' == b && j > 0 {
        assert d[b][j] == c[b][j - 1];
      } else if b' != b {
        assert d[b'][j] == c[b'][j];
      }
    }
    PushDistinct(c[b], e);
  }

  lemma PushFinds<K(!new), V>(hash: K -> nat, c: seq<seq<Entry<K, V>>>, b: nat, e: Entry<K, V>)
    requires b < |c| && Bucket(hash, e.key, |c|) == b
    ensures forall k :: EntryIn(hash, Push(c, b, e), k) == if k == e.key then e else EntryIn(hash, c, k)
    ensures forall k :: Has(hash, Push(c, b, e), k) <==> k == e.key || Has(hash, c, k)
  {
    var d := Push(c, b, e);
    forall k ensures EntryIn(hash, d, k) == (if k == e.key then e else EntryIn(hash, c, k))
      ensures Has(hash, d, k) <==> k == e.key || Has(hash, c, k)
    {
      PushFind(c[b], e, k);
    }
  }

  lemma PushDistinct<K, V>(chain: seq<Entry<K, V>>, e: Entry<K, V>)
    requires DistinctKeys(chain) && IndexIn(chain, e.key) == |chain|
    ensures DistinctKeys([e] + chain)
  {}

  lemma TakeOutPlaced<K(!new), V>(hash: K -> nat, c: seq<seq<Entry<K, V>>>, b: nat, j: nat)
    requires Placed(hash, c) && b < |c| && j < |c[b]|
    ensures Placed(hash, TakeOut(c, b, j))
    ensures forall k :: EntryIn(hash, TakeOut(c, b, j), k) == if k == c[b][j].key then null else EntryIn(hash, c, k)
    ensures forall k :: Has(hash, TakeOut(c, b, j), k) <==> k != c[b][j].key && Has(hash, c, k)
    ensures Total(TakeOut(c, b, j)) == Total(c) - 1
  {
    var d, e := TakeOut(c, b, j), c[b][j];
    TotalUpdate(c, b, d[b]);
    assert DistinctKeys(c[b]) && Bucket(hash, e.key, |c|) == b;
    forall k ensures EntryIn(hash, d, k) == (if k == e.key then null else EntryIn(hash, c, k))
      ensures Has(hash, d, k) <==> k != e.key && Has(hash, c, k)
    {
      TakeOutFind(c[b], j, k);
    }
    forall b', i | 0 <= b' < |d| && 0 <= i < |d[b']| ensures Bucket(hash, d[b'][i].key, |d|) == b' {
      if b' == b {
        assert d[b][i] == c[b][if i < j then i else i + 1];
      } else {
        assert d[b'][i] == c[b'][i];
      }
    }
  }

  // ----- Chains in the heap

  ghost function HeadOf<K, V>(chain: seq<Entry<K, V>>): Entry?<K, V> {
    if chain == [] then null else chain[0]
  }

  ghost function After<K, V>(chain: seq<Entry<K, V>>, j: nat): Entry?<K, V> {
    if j + 1 < |chain| then chain[j + 1] else null
  }

  ghost predicate ChainLinked<K, V>(head: Entry?<K, V>, chain: seq<Entry<K, V>>)
    reads chain`next
  {
    && head == HeadOf(chain)
    && forall j {:trigger After(chain, j)} :: 0 <= j < |chain| ==> chain[j].next == After(chain, j)
  }

  ghost function Entries<K, V>(c: seq<seq<Entry<K, V>>>): (s: set<Entry<K, V>>)
    ensures forall b, j {:trigger c[b][j]} :: 0 <= b < |c| && 0 <= j < |c[b]| ==> c[b][j] in s
  {
    set b, j | 0 <= b < |c| && 0 <= j < |c[b]| :: c[b][j]
  }

  ghost predicate Linked<K, V>(buckets: seq<Entry?<K, V>>, c: seq<seq<Entry<K, V>>>)
    reads Entries(c)`next
  {
    |buckets| == |c| && forall b :: 0 <= b < |c| ==> ChainLinked(buckets[b], c[b])
  }

  lemma LinkedPop<K, V>(buckets: seq<Entry?<K, V>>, c: seq<seq<Entry<K, V>>>, b: nat)
    requires Linked(buckets, c) && b < |c| && c[b] != []
    ensures buckets[b] == c[b][0] && Linked(buckets[b := c[b][0].next], TakeOut(c, b, 0))
  {
    assert ChainLinked(buckets[b], c[b]);
    var chain := c[b];
    var rest := chain[..0] + chain[1..];
    assert chain[0].next == After(chain, 0);
    forall j | 0 <= j < |rest| ensures rest[j].next == After(rest, j) {
      assert rest[j] == chain[j + 1] && chain[j + 1].next == After(chain, j + 1);
    }
  }

  lemma LinkedPush<K, V>(buckets: seq<Entry?<K, V>>, c: seq<seq<Entry<K, V>>>, b: nat, e: Entry<K, V>)
    requires Linked(buckets, c) && b < |c| && e.next == buckets[b]
    ensures Linked(buckets[b := e], Push(c, b, e))
  {
    assert ChainLinked(buckets[b], c[b]);
    var chain := [e] + c[b];
    forall j | 0 <= j < |chain| ensures chain[j].next == After(chain, j) {
      if j > 0 {
        assert c[b][j - 1].next == After(c[b], j - 1);
      }
    }
  }

  lemma EntriesPush<K, V>(c: seq<seq<Entry<K, V>>>, b: nat, e: Entry<K, V>)
    requires b < |c|
    ensures Entries(Push(c, b, e)) == Entries(c) + {e}
  {
    var d := Push(c, b, e);
    forall x | x in Entries(c) + {e} ensures x in Entries(d) {
      if x == e {
        assert d[b][0] == e;
      } else {
        var b', j :| 0 <= b' < |c| && 0 <= j < |c[b']| && c[b'][j] == x;
        assert d[b'][if b' == b then j + 1 else j] == x;
      }
    }
    forall x | x in Entries(d) ensures x in Entries(c) + {e} {
      var b', j :| 0 <= b' < |d| && 0 <= j < |d[b']| && d[b'][j] == x;
      assert b' == b && j > 0 ==> c[b][j - 1] == x;
      assert b' != b ==> c[b'][j] == x;
    }
  }

  lemma EntriesTakeOut<K, V>(hash: K -> nat, c: seq<seq<Entry<K, V>>>, b: nat, j: nat)
    requires Placed(hash, c) && b < |c| && j < |c[b]|
    ensures Entries(TakeOut(c, b, j)) == Entries(c) - {c[b][j]}
  {
    var d, e := TakeOut(c, b, j), c[b][j];
    assert DistinctKeys(c[b]) && Bucket(hash, e.key, |c|) == b;
    forall x | x in Entries(c) - {e} ensures x in Entries(d) {
      var b', i :| 0 <= b' < |c| && 0 <= i < |c[b']| && c[b'][i] == x;
      assert d[b'][if b' == b && i > j then i - 1 else i] == x;
    }
    forall x | x in Entries(d) ensures x in Entries(c) - {e} {
      var b', i :| 0 <= b' < |d| && 0 <= i < |d[b']| && d[b'][i] == x;
      if b' == b {
        assert c[b][if i < j then i else i + 1] == x;
      } else {
        assert c[b'][i] == x && Bucket(hash, x.key, |c|) == b';
      }
    }
  }

  lemma EntryHas<K, V>(hash: K -> nat, c: seq<seq<Entry<K, V>>>, e: Entry<K, V>)
    requires Placed(hash, c)
    ensures e in Entries(c) <==> EntryIn(hash, c, e.key) == e
    ensures e in Entries(c) ==> Has(hash, c, e.key)
  {
    if e in Entries(c) {
      var b, j :| 0 <= b < |c| && 0 <= j < |c[b]| && c[b][j] == e;
      FoundAt(hash, c, b, j);
    }
    if EntryIn(hash, c, e.key) == e {
      var b, j := PlaceOf(hash, c, e.key);
    }
  }

  /** Moving the head of chain `b` of the first table to the second keeps everything but the place of that entry. */
  lemma MoveKeeps<K(!new), V>(hash: K -> nat, c0: seq<seq<Entry<K, V>>>, c1: seq<seq<Entry<K, V>>>, b: nat)
    requires Placed(hash, c0) && Placed(hash, c1) && Apart(hash, c0, c1) && c1 != [] && b < |c0| && c0[b] != []
    ensures var e := c0[b][0];
            var h := Bucket(hash, e.key, |c1|);
            var d0, d1 := TakeOut(c0, b, 0), Push(c1, h, e);
            && Placed(hash, d0) && Placed(hash, d1) && Apart(hash, d0, d1)
            && Total(d0) + 1 == Total(c0) && Total(d1) == Total(c1) + 1
            && (forall k :: Get(hash, d0, d1, k) == Get(hash, c0, c1, k))
            && Entries(d0) == Entries(c0) - {e} && Entries(d1) == Entries(c1) + {e} && e !in Entries(c1)
  {
    var e := c0[b][0];
    var h := Bucket(hash, e.key, |c1|);
    FoundAt(hash, c0, b, 0);
    EntryHas(hash, c1, e);
    TakeOutPlaced(hash, c0, b, 0);
    PushPlaced(hash, c1, h, e);
    EntriesTakeOut(hash, c0, b, 0);
    EntriesPush(c1, h, e);
    hide Placed, Push, TakeOut, Entries, Has;
    var d0, d1 := TakeOut(c0, b, 0), Push(c1, h, e);
    forall k ensures Get(hash, d0, d1, k) == Get(hash, c0, c1, k) {
      assert Has(hash, d0, k) <==> k != e.key && Has(hash, c0, k);
      assert EntryIn(hash, d1, k) == if k == e.key then e else EntryIn(hash, c1, k);
      assert EntryIn(hash, d0, k) == if k == e.key then null else EntryIn(hash, c0, k);
    }
  }

  /** A table with entries has a chain that is not empty. */
  lemma SomeChain<A>(c: seq<seq<A>>, r: nat)
    requires Total(c) > 0 && r <= |c| && forall b :: 0 <= b < r ==> c[b] == []
    ensures r < |c| && exists b :: r <= b < |c| && c[b] != []
  {
    TotalZero(c);
  }

  lemma HeadIsNull<K, V>(buckets: seq<Entry?<K, V>>, c: seq<seq<Entry<K, V>>>, b: nat)
    requires Linked(buckets, c) && b < |c|
    ensures |buckets| == |c| && buckets[b] == HeadOf(c[b])
    ensures buckets[b] == null <==> c[b] == []
    ensures c[b] != [] ==> buckets[b] == c[b][0]
  {
    assert ChainLinked(buckets[b], c[b]);
  }

  lemma TakeOutSize<K, V>(c: seq<seq<Entry<K, V>>>, b: nat, j: nat)
    requires b < |c| && j < |c[b]|
    ensures |TakeOut(c, b, j)| == |c| && |TakeOut(c, b, j)[b]| == |c[b]| - 1
    ensures forall i :: 0 <= i < |c| && i != b ==> TakeOut(c, b, j)[i] == c[i]
  {}

  lemma PushSize<K, V>(c: seq<seq<Entry<K, V>>>, b: nat, e: Entry<K, V>)
    requires b < |c|
    ensures |Push(c, b, e)| == |c|
  {}

  /** A table without entries changes nothing, whether it replaces no table or stands second. */
  lemma EmptyTable<K(!new), V>(hash: K -> nat, buckets: seq<Entry?<K, V>>, c: seq<seq<Entry<K, V>>>, c0: seq<seq<Entry<K, V>>>)
    requires |buckets| == |c| > 0
    requires forall b :: 0 <= b < |c| ==> buckets[b] == null && c[b] == []
    ensures Placed(hash, c) && Linked(buckets, c) && Total(c) == 0 && Entries(c) == {}
    ensures Apart(hash, c, []) && Apart(hash, c0, c)
    ensures forall k :: Get(hash, c, [], k) == null && Get<K, V>(hash, [], [], k) == null && Get(hash, c0, c, k) == Get(hash, c0, [], k)
    ensures Total<Entry<K, V>>([]) == 0 && Entries<K, V>([]) == {} && Placed<K, V>(hash, [])
  {
    TotalZero(c);
    forall b | 0 <= b < |c| ensures ChainLinked(buckets[b], c[b]) {}
  }

  /** A pushed key that neither table holds keeps the tables apart. */
  lemma PushKeeps<K(!new), V>(hash: K -> nat, c0: seq<seq<Entry<K, V>>>, c1: seq<seq<Entry<K, V>>>, b: nat, e: Entry<K, V>)
    requires Placed(hash, c0) && Placed(hash, c1) && Apart(hash, c0, c1) && Get(hash, c0, c1, e.key) == null
    ensures b < |c0| && b == Bucket(hash, e.key, |c0|) ==>
              var d := Push(c0, b, e);
              && Placed(hash, d) && Apart(hash, d, c1) && Total(d) == Total(c0) + 1 && Entries(d) == Entries(c0) + {e}
              && forall k :: Get(hash, d, c1, k) == if k == e.key then e else Get(hash, c0, c1, k)
    ensures b < |c1| && b == Bucket(hash, e.key, |c1|) ==>
              var d := Push(c1, b, e);
              && Placed(hash, d) && Apart(hash, c0, d) && Total(d) == Total(c1) + 1 && Entries(d) == Entries(c1) + {e}
              && forall k :: Get(hash, c0, d, k) == if k == e.key then e else Get(hash, c0, c1, k)
  {
    NullMeansAbsent(hash, c0, c1, e.key);
    if b < |c0| && b == Bucket(hash, e.key, |c0|) {
      PushPlaced(hash, c0, b, e);
      EntriesPush(c0, b, e);
    }
    if b < |c1| && b == Bucket(hash, e.key, |c1|) {
      PushPlaced(hash, c1, b, e);
      EntriesPush(c1, b, e);
    }
    hide Placed, Push, Entries, Has, EntryIn;
  }

  lemma NullMeansAbsent<K, V>(hash: K -> nat, c0: seq<seq<Entry<K, V>>>, c1: seq<seq<Entry<K, V>>>, k: K)
    ensures Get(hash, c0, c1, k) == null <==> !Has(hash, c0, k) && !Has(hash, c1, k)
  {}

  /** An entry taken out of the first table. */
  lemma TakeOutKeeps<K(!new), V>(hash: K -> nat, c0: seq<seq<Entry<K, V>>>, c1: seq<seq<Entry<K, V>>>, b: nat, j: nat)
    requires Placed(hash, c0) && Placed(hash, c1) && Apart(hash, c0, c1) && b < |c0| && j < |c0[b]|
    ensures var d := TakeOut(c0, b, j);
            && Placed(hash, d) && Apart(hash, d, c1) && Total(d) == Total(c0) - 1
            && Entries(d) == Entries(c0) - {c0[b][j]} && c0[b][j] !in Entries(c1)
            && forall k :: Get(hash, d, c1, k) == if k == c0[b][j].key then null else Get(hash, c0, c1, k)
  {
    TakeOutPlaced(hash, c0, b, j);
    EntriesTakeOut(hash, c0, b, j);
    FoundAt(hash, c0, b, j);
    EntryHas(hash, c1, c0[b][j]);
    AbsentIsNull(hash, c1, c0[b][j].key);
    hide Placed, TakeOut, Entries, EntryIn, Has, Total;
  }

  /** An entry taken out of the second table. */
  lemma TakeOutKeeps1<K(!new), V>(hash: K -> nat, c0: seq<seq<Entry<K, V>>>, c1: seq<seq<Entry<K, V>>>, b: nat, j: nat)
    requires Placed(hash, c0) && Placed(hash, c1) && Apart(hash, c0, c1) && b < |c1| && j < |c1[b]|
    ensures var d := TakeOut(c1, b, j);
            && Placed(hash, d) && Apart(hash, c0, d) && Total(d) == Total(c1) - 1
            && Entries(d) == Entries(c1) - {c1[b][j]} && c1[b][j] !in Entries(c0)
            && forall k :: Get(hash, c0, d, k) == if k == c1[b][j].key then null else Get(hash, c0, c1, k)
  {
    TakeOutPlaced(hash, c1, b, j);
    EntriesTakeOut(hash, c1, b, j);
    FoundAt(hash, c1, b, j);
    EntryHas(hash, c0, c1[b][j]);
    hide Placed, TakeOut, Entries, EntryIn, Has, Total;
  }

  lemma AbsentIsNull<K(!new), V>(hash: K -> nat, c: seq<seq<Entry<K, V>>>, k: K)
    ensures EntryIn(hash, c, k) == null <==> !Has(hash, c, k)
  {}

  /** An entry of one table is not in the other. */
  lemma InOneTable<K(!new), V>(hash: K -> nat, c0: seq<seq<Entry<K, V>>>, c1: seq<seq<Entry<K, V>>>, e: Entry<K, V>)
    requires Placed(hash, c0) && Placed(hash, c1) && Apart(hash, c0, c1)
    ensures !(e in Entries(c0) && e in Entries(c1))
  {
    EntryHas(hash, c0, e);
    EntryHas(hash, c1, e);
  }

  /** Searching one chain. */
  method SearchChain<K(==), V>(head: Entry?<K, V>, key: K, ghost chain: seq<Entry<K, V>>)
    returns (he: Entry?<K, V>, prevHe: Entry?<K, V>)
    requires ChainLinked(head, chain)
    ensures var j := IndexIn(chain, key);
            && he == (if j < |chain| then chain[j] else null)
            && (j < |chain| ==> prevHe == if j == 0 then null else chain[j - 1])
  {
    he, prevHe := head, null;
    ghost var j := 0;
    while he != null && he.key != key
      invariant j <= |chain| && he == (if j < |chain| then chain[j] else null)
      invariant prevHe == if j == 0 then null else chain[j - 1]
      invariant forall i :: 0 <= i < j ==> chain[i].key != key
      decreases |chain| - j
    {
      assert he.next == After(chain, j);
      prevHe, he, j := he, he.next, j + 1;
    }
    IndexIs(chain, key, j);
  }

  /** Unlinking an entry from its chain, as dictGenericDelete does. */
  method Unlink<K(!new), V>(ghost hash: K -> nat, buckets: seq<Entry?<K, V>>, idx: nat, he: Entry<K, V>, prevHe: Entry?<K, V>,
                      ghost c: seq<seq<Entry<K, V>>>, ghost j: nat)
    returns (buckets': seq<Entry?<K, V>>)
    requires Linked(buckets, c) && Placed(hash, c) && idx < |c| && j < |c[idx]| && c[idx][j] == he
    requires prevHe == if j == 0 then null else c[idx][j - 1]
    modifies (if prevHe == null then {} else {prevHe})`next
    ensures Linked(buckets', TakeOut(c, idx, j)) && |buckets'| == |buckets|
  {
    assert ChainLinked(buckets[idx], c[idx]) && DistinctKeys(c[idx]);
    assert he.next == After(c[idx], j);
    if prevHe != null {
      prevHe.next := he.next;
      buckets' := buckets;
    } else {
      buckets' := buckets[idx := he.next];
    }
    ghost var chain := c[idx];
    ghost var rest := chain[..j] + chain[j + 1..];
    forall i | 0 <= i < |rest| ensures rest[i].next == After(rest, i) {
      var i' := if i < j then i else i + 1;
      assert rest[i] == chain[i'] && old(chain[i'].next) == After(chain, i');
      assert i' + 1 != j ==> prevHe == null || chain[i'] != prevHe;
    }
    forall b | 0 <= b < |c| ensures ChainLinked(buckets'[b], TakeOut(c, idx, j)[b]) {
      if b != idx {
        assert old(ChainLinked(buckets[b], c[b]));
        forall i | 0 <= i < |c[b]| ensures c[b][i].next == After(c[b], i) {
          assert Bucket(hash, c[b][i].key, |c|) == b && Bucket(hash, he.key, |c|) == idx;
          assert prevHe != null ==> Bucket(hash, c[idx][j - 1].key, |c|) == idx;
          assert old(c[b][i].next) == After(c[b], i);
        }
      }
    }
  }

  ghost predicate Spot<K, V>(c: seq<seq<Entry<K, V>>>, idx: nat, j: nat, he: Entry<K, V>, prevHe: Entry?<K, V>) {
    idx < |c| && j < |c[idx]| && c[idx][j] == he && prevHe == if j == 0 then null else c[idx][j - 1]
  }

  method SearchBucket<K(==), V>(ghost hash: K -> nat, key: K, buckets: seq<Entry?<K, V>>, ghost c: seq<seq<Entry<K, V>>>, idx: nat)
    returns (he: Entry?<K, V>, prevHe: Entry?<K, V>, ghost j: nat)
    requires Linked(buckets, c) && c != [] && idx == Bucket(hash, key, |c|)
    ensures he == EntryIn(hash, c, key) && (he != null <==> Has(hash, c, key))
    ensures he != null ==> Spot(c, idx, j, he, prevHe)
  {
    assert ChainLinked(buckets[idx], c[idx]);
    he, prevHe := SearchChain(buckets[idx], key, c[idx]);
    j := IndexIn(c[idx], key);
  }

  lemma InFirst<K, V>(hash: K -> nat, c0: seq<seq<Entry<K, V>>>, c1: seq<seq<Entry<K, V>>>, k: K)
    ensures Get(hash, c0, c1, k) == if Has(hash, c0, k) then EntryIn(hash, c0, k) else EntryIn(hash, c1, k)
    ensures c1 == [] ==> EntryIn(hash, c1, k) == null
  {}

  lemma NothingAt<K, V>(hash: K -> nat, c1: seq<seq<Entry<K, V>>>, k: K)
    ensures c1 == [] ==> Get(hash, [], c1, k) == null
  {}

  lemma NoTableNoEntries<K, V>(c: seq<seq<Entry<K, V>>>)
    ensures c == [] ==> Total(c) == 0
  {}

  /** A table is the same, or is made, empty, where there was none. */
  ghost predicate SameOrNew<K, V>(c: seq<seq<Entry<K, V>>>, d: seq<seq<Entry<K, V>>>) {
    d == c || (c == [] && Entries(d) == {})
  }

  lemma IsSameOrNew<K, V>(c: seq<seq<Entry<K, V>>>, d: seq<seq<Entry<K, V>>>)
    ensures d == c || (c == [] && Entries(d) == {}) ==> SameOrNew(c, d)
  {}

  /** At most `e` has been pushed on one chain of the table, or put into a table made where there was none. */
  ghost predicate Grown<K, V>(c: seq<seq<Entry<K, V>>>, d: seq<seq<Entry<K, V>>>, e: Entry?<K, V>) {
    || SameOrNew(c, d)
    || (e != null && c == [] && Entries(d) == {e})
    || (e != null && exists b :: 0 <= b < |c| && d == Push(c, b, e))
  }

  lemma IsGrown<K, V>(c: seq<seq<Entry<K, V>>>, m: seq<seq<Entry<K, V>>>, d: seq<seq<Entry<K, V>>>, b: nat, e: Entry?<K, V>)
    requires SameOrNew(c, m)
    ensures d == m ==> Grown(c, d, e)
    ensures e != null && b < |m| && d == Push(m, b, e) ==> Grown(c, d, e)
  {
    if e != null && b < |m| && d == Push(m, b, e) {
      EntriesPush(m, b, e);
    }
  }

  /** `e` has been taken out of the table if it was in it. */
  ghost predicate Taken<K, V>(c: seq<seq<Entry<K, V>>>, d: seq<seq<Entry<K, V>>>, e: Entry?<K, V>) {
    || (d == c && (e != null ==> e !in Entries(c)))
    || (exists b, j: nat {:trigger TakeOut(c, b, j)} :: 0 <= b < |c| && j < |c[b]| && c[b][j] == e && d == TakeOut(c, b, j))
  }

  lemma NothingTaken<K, V>(c: seq<seq<Entry<K, V>>>)
    ensures Taken(c, c, null)
  {}

  lemma OneTaken<K(!new), V>(hash: K -> nat, c: seq<seq<Entry<K, V>>>, other: seq<seq<Entry<K, V>>>, idx: nat, j: nat, he: Entry<K, V>, prevHe: Entry?<K, V>)
    requires Spot(c, idx, j, he, prevHe) && Placed(hash, c) && Placed(hash, other)
    requires Apart(hash, c, other) || Apart(hash, other, c)
    ensures Taken(c, TakeOut(c, idx, j), he) && Taken(other, other, he)
    ensures idx < |c| && j < |c[idx]| && c[idx][j] == he && prevHe == if j == 0 then null else c[idx][j - 1]
    ensures he in Entries(c) && he !in Entries(other)
    ensures prevHe != null ==> prevHe in Entries(c) && prevHe !in Entries(other)
  {
    EntryHas(hash, c, he);
    EntryHas(hash, other, he);
    if prevHe != null {
      EntryHas(hash, c, prevHe);
      EntryHas(hash, other, prevHe);
    }
    hide Placed;
  }

  datatype Table<K, V> = Table(buckets: seq<Entry?<K, V>>, used: nat)

  // ----- The dictionary

  class Dict<K(==, !new), V> {
    const hash: K -> nat
    var ht0: Table<K, V>
    var ht1: Table<K, V>
    var rehashidx: int       // -1 when no migration is going on
    var iterators: nat       // safe iterators running
    ghost var c0: seq<seq<Entry<K, V>>>
    ghost var c1: seq<seq<Entry<K, V>>>
    ghost var repr: set<Entry<K, V>>

    /** The two tables and the state of the migration, apart from the links in the heap. */
    ghost predicate Shape()
      reads this`ht0, this`ht1, this`rehashidx, this`c0, this`c1, this`repr
    {
      && Placed(hash, c0) && Placed(hash, c1) && Apart(hash, c0, c1)
      && repr == Entries(c0) + Entries(c1)
      && ht0.used == Total(c0) && ht1.used == Total(c1)
      && |ht0.buckets| == |c0| && |ht1.buckets| == |c1|
      && (rehashidx == -1 ==> c1 == [])
      && (rehashidx != -1 ==> 0 <= rehashidx <= |c0| && c0 != [] && c1 != [])
      && forall b :: 0 <= b < rehashidx ==> c0[b] == []
    }

    ghost predicate Valid()
      reads this`ht0, this`ht1, this`rehashidx, this`c0, this`c1, this`repr, repr`next
    {
      Shape() && Linked(ht0.buckets, c0) && Linked(ht1.buckets, c1)
    }

    /** The entry of a key, wherever the migration has brought it. */
    ghost function At(k: K): (e: Entry?<K, V>)
      reads this`c0, this`c1
      ensures e != null ==> e.key == k
    {
      Get(hash, c0, c1, k)
    }

    /** The map the dictionary stands for. */
    ghost function Contents(): map<K, V>
      reads this`c0, this`c1, this`repr, repr`val
    {
      map k | k in (set e | e in repr :: e.key) && At(k) != null && At(k) in repr :: At(k).val
    }

    lemma ContentsAt(k: K)
      requires Shape()
      ensures k in Contents() <==> At(k) != null
      ensures At(k) != null ==> At(k) in repr && Contents()[k] == At(k).val
    {
      if At(k) != null {
        var e := At(k);
        if Has(hash, c0, k) {
          EntryHas(hash, c0, e);
        } else {
          EntryHas(hash, c1, e);
        }
        assert e in repr;
      }
    }

    constructor (hash: K -> nat)
      ensures Valid() && Contents() == map[] && rehashidx == -1 && iterators == 0 && this.hash == hash
    {
      this.hash := hash;
      ht0, ht1 := Table([], 0), Table([], 0);
      rehashidx, iterators := -1, 0;
      c0, c1, repr := [], [], {};
    }

    lemma AllContents()
      requires Shape()
      ensures forall k {:trigger At(k)} :: (k in Contents() <==> At(k) != null)
                && (At(k) != null ==> At(k) in repr && Contents()[k] == At(k).val)
    {
      forall k ensures (k in Contents() <==> At(k) != null) && (At(k) != null ==> At(k) in repr && Contents()[k] == At(k).val) {
        ContentsAt(k);
      }
    }

    lemma IsContents(m: map<K, V>)
      requires Shape()
      requires forall k {:trigger At(k)} :: (k in m <==> At(k) != null) && (At(k) != null ==> m[k] == At(k).val)
      ensures Contents() == m
    {
      AllContents();
      forall k ensures k in Contents() <==> k in m {
        assert At(k) == At(k);
      }
    }

    // ----- Migration

    /** The state while chain `b` of the first table is being moved: its remaining entries start at `de`. */
    ghost predicate Moving(b: nat, de: Entry?<K, V>)
      reads this`ht0, this`ht1, this`rehashidx, this`c0, this`c1, this`repr, repr`next
    {
      && Shape() && b < |c0| && b == rehashidx && c1 != []
      && Linked(ht0.buckets[b := de], c0) && Linked(ht1.buckets, c1)
    }

    lemma MovingFacts(b: nat, de: Entry?<K, V>)
      requires Moving(b, de)
      ensures Shape() && b == rehashidx && b < |c0| == |ht0.buckets| && c1 != [] && |c1| == |ht1.buckets|
      ensures Linked(ht0.buckets[b := de], c0) && Linked(ht1.buckets, c1)
      ensures de == null <==> c0[b] == []
      ensures de != null ==> c0[b] != [] && de == c0[b][0] && de in repr && de in Entries(c0)
      ensures Placed(hash, c0) && Placed(hash, c1) && Apart(hash, c0, c1)
      ensures ht0.used == Total(c0) && ht1.used == Total(c1) && repr == Entries(c0) + Entries(c1)
    {
      HeadIsNull(ht0.buckets[b := de], c0, b);
    }

    lemma StillMoving(b: nat, de: Entry?<K, V>, d0: seq<seq<Entry<K, V>>>)
      requires Placed(hash, c0) && Placed(hash, c1) && Apart(hash, c0, c1)
      requires ht0.used == Total(c0) && ht1.used == Total(c1) && repr == Entries(c0) + Entries(c1)
      requires b < |c0| == |ht0.buckets| == |d0| && |c1| == |ht1.buckets| && c1 != [] && b == rehashidx
      requires forall i :: 0 <= i < |c0| && i != b ==> c0[i] == d0[i]
      requires forall i :: 0 <= i < b ==> d0[i] == []
      requires Linked(ht0.buckets[b := de], c0) && Linked(ht1.buckets, c1)
      ensures Moving(b, de)
    {}

    /** The body of the inner loop of dictRehash. */
    method MoveEntry(de: Entry<K, V>, ghost b: nat) returns (nextde: Entry?<K, V>)
      requires Moving(b, de)
      modifies this`ht0, this`ht1, this`c0, this`c1, de`next
      ensures Moving(b, nextde) && b < |old(c0)| == |c0| && |c0[b]| + 1 == |old(c0)[b]|
      ensures forall k :: At(k) == old(At(k))
      ensures repr == old(repr) && ht0.buckets == old(ht0.buckets)
      ensures Total(c0) + 1 == old(Total(c0))
    {
      hide *;
      AtIs();
      MovingFacts(b, de);
      ghost var d0, d1 := c0, c1;
      MoveKeeps(hash, c0, c1, b);
      EmptyBefore();
      nextde := de.next;
      ghost var bs := ht0.buckets;
      LinkedPop(bs[b := de], c0, b);
      assert bs[b := de][b := nextde] == bs[b := nextde];
      var h := BitAnd(hash(de.key), |ht1.buckets| - 1);
      IsBucket(hash, de.key, |ht1.buckets|);
      HeadIsNull(ht1.buckets, c1, h);
      TakeOutSize(c0, b, 0);
      PushSize(c1, h, de);
      c0 := TakeOut(c0, b, 0);
      assert Linked(bs[b := nextde], c0) && de !in Entries(c0);
      de.next := ht1.buckets[h];
      assert Linked(bs[b := nextde], c0);
      LinkedPush(ht1.buckets, c1, h, de);
      ht1 := Table(ht1.buckets[h := de], ht1.used + 1);
      ht0 := Table(ht0.buckets, ht0.used - 1);
      c1 := Push(c1, h, de);
      StillMoving(b, nextde, d0);
      AtIs();
    }

    lemma EmptyBefore()
      requires Shape()
      ensures forall i :: 0 <= i < rehashidx ==> i < |c0| && c0[i] == []
    {}

    lemma AtIs()
      ensures forall k :: At(k) == Get(hash, c0, c1, k)
    {}

    /** One step of dictRehash: the whole chain at rehashidx moves. */
    method MoveBucket()
      requires Valid() && 0 <= rehashidx < |c0|
      modifies this`ht0, this`ht1, this`c0, this`c1, this`rehashidx, repr`next
      ensures Valid() && rehashidx == old(rehashidx) + 1
      ensures (forall k :: At(k) == old(At(k))) && repr == old(repr)
      ensures forall e :: e in old(repr) ==> e.val == old(e.val)
      ensures |c0| == |old(c0)| && Total(c0) + |old(c0)[old(rehashidx)]| == Total(old(c0))
    {
      hide *;
      ValidFacts();
      HeadIsNull(ht0.buckets, c0, rehashidx);
      var de := ht0.buckets[rehashidx];
      ghost var n, t, b := |c0[rehashidx]|, Total(c0), rehashidx;
      assert ht0.buckets[b := de] == ht0.buckets;
      StartMoving(b, de);
      while de != null
        invariant rehashidx == b < |c0| == |old(c0)| && Moving(b, de) && ht0.buckets == old(ht0.buckets)
        invariant (forall k :: At(k) == old(At(k))) && repr == old(repr)
        invariant forall e :: e in old(repr) ==> e.val == old(e.val)
        invariant |c0[b]| <= n && Total(c0) + (n - |c0[b]|) == t
        decreases |c0[b]|
      {
        MovingFacts(b, de);
        de := MoveEntry(de, b);
      }
      MovingFacts(b, de);
      ht0 := Table(ht0.buckets[rehashidx := null], ht0.used);
      rehashidx := rehashidx + 1;
      MovedBucket(b);
    }

    lemma ValidFacts()
      requires Valid()
      ensures Shape() && Linked(ht0.buckets, c0) && Linked(ht1.buckets, c1)
      ensures Placed(hash, c0) && Placed(hash, c1) && Apart(hash, c0, c1)
      ensures ht0.used == Total(c0) && ht1.used == Total(c1) && |ht0.buckets| == |c0| && |ht1.buckets| == |c1|
      ensures repr == Entries(c0) + Entries(c1)
      ensures rehashidx == -1 ==> c1 == []
      ensures rehashidx != -1 ==> 0 <= rehashidx <= |c0| && c0 != [] && c1 != []
      ensures forall b :: 0 <= b < rehashidx ==> c0[b] == []
    {}

    lemma StartMoving(b: nat, de: Entry?<K, V>)
      requires Valid() && b == rehashidx < |c0| && ht0.buckets[b := de] == ht0.buckets
      ensures Moving(b, de)
    {}

    lemma MovedBucket(b: nat)
      requires rehashidx == b + 1 <= |c0| && c1 != []
      requires Placed(hash, c0) && Placed(hash, c1) && Apart(hash, c0, c1)
      requires ht0.used == Total(c0) && ht1.used == Total(c1) && |ht0.buckets| == |c0| && |ht1.buckets| == |c1|
      requires repr == Entries(c0) + Entries(c1)
      requires forall i :: 0 <= i < b + 1 ==> c0[i] == []
      requires Linked(ht0.buckets, c0) && Linked(ht1.buckets, c1)
      ensures Valid()
    {}

    /** The first table is empty: the second takes its place. */
    method SwapTables()
      requires Valid() && rehashidx != -1 && ht0.used == 0
      modifies this`ht0, this`ht1, this`c0, this`c1, this`rehashidx
      ensures Valid() && rehashidx == -1
      ensures (forall k :: At(k) == old(At(k))) && repr == old(repr)
      ensures c0 == old(c1) && c0 != []
    {
      TotalZero(c0);
      assert Entries(c0) == {};
      ht0, ht1, rehashidx := ht1, Table([], 0), -1;
      c0, c1 := c1, [];
      assert Entries(c1) == {};
    }

    /** dictRehash: `n` steps of migration; false when the migration is over or was not going on. */
    method Rehash(n: nat) returns (more: bool)
      requires Valid()
      modifies this`ht0, this`ht1, this`c0, this`c1, this`rehashidx, repr`next
      ensures Valid() && Contents() == old(Contents()) && repr == old(repr)
      ensures forall k :: At(k) == old(At(k))
      ensures more ==> rehashidx != -1
      ensures old(c0) != [] ==> c0 != []
      ensures !more ==> rehashidx == -1
      ensures old(rehashidx) == -1 ==> c0 == old(c0) && c1 == old(c1)
    {
      hide *;
      ValidFacts();
      AllContents();
      if rehashidx == -1 {
        return false;
      }
      var m := n;
      while m > 0
        invariant Valid() && rehashidx != -1 && c0 != []
        invariant forall e :: e in old(repr) ==> e.val == old(e.val)
        invariant (forall k :: At(k) == old(At(k))) && repr == old(repr)
      {
        ValidFacts();
        if ht0.used == 0 {
          SwapTables();
          ValidFacts();
          IsContents(old(Contents()));
          return false;
        }
        SomeChain(c0, rehashidx);
        SkipEmpty();
        MoveBucket();
        m := m - 1;
      }
      ValidFacts();
      IsContents(old(Contents()));
      return true;
    }

    /** The loop over empty buckets; it cannot run past the table because the table still holds an entry. */
    method SkipEmpty()
      requires Valid() && 0 <= rehashidx < |c0| && exists b :: rehashidx <= b < |c0| && c0[b] != []
      modifies this`rehashidx
      ensures Valid() && 0 <= rehashidx < |c0| && c0[rehashidx] != [] && c0 == old(c0) && c1 == old(c1)
      ensures (forall k :: At(k) == old(At(k))) && repr == old(repr)
    {
      hide *;
      AtIs();
      ValidFacts();
      while ht0.buckets[rehashidx] == null
        invariant Valid() && 0 <= rehashidx < |c0| && |ht0.buckets| == |c0|
        invariant exists b :: rehashidx <= b < |c0| && c0[b] != []
        decreases |c0| - rehashidx
      {
        ValidFacts();
        HeadIsNull(ht0.buckets, c0, rehashidx);
        rehashidx := rehashidx + 1;
        ValidWhen();
      }
      HeadIsNull2(rehashidx);
      AtIs();
    }

    lemma HeadIsNull2(b: nat)
      requires Valid() && b < |c0|
      ensures |ht0.buckets| == |c0| && (ht0.buckets[b] == null <==> c0[b] == [])
    {
      HeadIsNull(ht0.buckets, c0, b);
    }

    lemma ValidWhen()
      requires Placed(hash, c0) && Placed(hash, c1) && Apart(hash, c0, c1)
      requires ht0.used == Total(c0) && ht1.used == Total(c1) && |ht0.buckets| == |c0| && |ht1.buckets| == |c1|
      requires repr == Entries(c0) + Entries(c1)
      requires rehashidx == -1 ==> c1 == []
      requires rehashidx != -1 ==> 0 <= rehashidx <= |c0| && c0 != [] && c1 != []
      requires forall b :: 0 <= b < rehashidx ==> c0[b] == []
      requires Linked(ht0.buckets, c0) && Linked(ht1.buckets, c1)
      ensures Valid()
    {}

    /** _dictRehashStep: one step, unless a safe iterator is running. */
    method RehashStep()
      requires Valid()
      modifies this`ht0, this`ht1, this`c0, this`c1, this`rehashidx, repr`next
      ensures Valid() && Contents() == old(Contents()) && repr == old(repr)
      ensures forall k :: At(k) == old(At(k))
      ensures iterators > 0 || old(rehashidx) == -1 ==> c0 == old(c0) && c1 == old(c1) && rehashidx == old(rehashidx)
      ensures old(c0) != [] ==> c0 != []
    {
      hide *;
      ValidFacts();
      if rehashidx != -1 && iterators == 0 {
        var more := Rehash(1);
        ValidFacts();
      }
    }

    /** Validity does not depend on the values. */
    twostate lemma StillValid()
      requires old(Valid())
      requires ht0 == old(ht0) && ht1 == old(ht1) && c0 == old(c0) && c1 == old(c1) && repr == old(repr)
      requires rehashidx == old(rehashidx) && forall e :: e in repr ==> e.next == old(e.next)
      ensures Valid()
    {}

    // ----- Growing

    /** dictExpand: a larger, empty table; the first one a dictionary gets is used at once, later ones start a migration. */
    method Expand(size: nat) returns (ok: bool)
      requires Valid()
      modifies this`ht0, this`ht1, this`c0, this`c1, this`rehashidx
      ensures Valid() && Contents() == old(Contents()) && repr == old(repr)
      ensures forall k :: At(k) == old(At(k))
      ensures ok <==> old(rehashidx) == -1 && old(ht0.used) <= size
      ensures !ok ==> c0 == old(c0) && c1 == old(c1) && rehashidx == old(rehashidx)
      ensures ok && old(c0) == [] ==> c0 != [] && c1 == [] && rehashidx == -1 && Entries(c0) == {}
      ensures ok && old(c0) != [] ==> c0 == old(c0) && c1 != [] && rehashidx == 0 && Entries(c1) == {}
    {
      var realsize := NextPower(size);
      if rehashidx != -1 || ht0.used > size {
        return false;
      }
      Install(realsize);
      return true;
    }

    /** The second half of dictExpand. */
    method Install(realsize: nat)
      requires Valid() && rehashidx == -1 && realsize > 0
      modifies this`ht0, this`ht1, this`c0, this`c1, this`rehashidx
      ensures Valid() && Contents() == old(Contents()) && repr == old(repr)
      ensures forall k :: At(k) == old(At(k))
      ensures old(c0) == [] ==> c0 != [] && c1 == [] && rehashidx == -1 && Entries(c0) == {}
      ensures old(c0) != [] ==> c0 == old(c0) && c1 != [] && rehashidx == 0 && Entries(c1) == {}
    {
      hide *;
      AllContents2();
      AtIs();
      ValidFacts();
      var n := Table(seq(realsize, _ => null), 0);
      ghost var c: seq<seq<Entry<K, V>>> := seq(realsize, _ => []);
      EmptyTable(hash, n.buckets, c, c0);
      if |ht0.buckets| == 0 {
        ht0, c0 := n, c;
      } else {
        ht1, c1 := n, c;
        rehashidx := 0;
      }
      ValidWhen();
      AtIs();
      IsContents2(old(Contents()));
    }

    lemma AllContents2()
      requires Valid()
      ensures forall k {:trigger At(k)} :: (k in Contents() <==> At(k) != null)
                && (At(k) != null ==> At(k) in repr && Contents()[k] == At(k).val)
    {
      AllContents();
    }

    lemma IsContents2(m: map<K, V>)
      requires Valid()
      requires forall k {:trigger At(k)} :: (k in m <==> At(k) != null) && (At(k) != null ==> m[k] == At(k).val)
      ensures Contents() == m
    {
      IsContents(m);
    }

    /** _dictExpandIfNeeded; `canResize` is the global dict_can_resize. It never fails. */
    method ExpandIfNeeded(canResize: bool) returns (ok: bool)
      requires Valid()
      modifies this`ht0, this`ht1, this`c0, this`c1, this`rehashidx
      ensures ok && c0 != []
      ensures Valid() && Contents() == old(Contents()) && repr == old(repr)
      ensures forall k :: At(k) == old(At(k))
      ensures SameOrNew(old(c0), c0) && SameOrNew(old(c1), c1)
    {
      hide *;
      ValidFacts();
      IsSameOrNew(c0, c0);
      IsSameOrNew(c1, c1);
      if rehashidx != -1 {
        return true;
      }
      NoTableNoEntries(c0);
      if |ht0.buckets| == 0 {
        ok := Expand(DICT_HT_INITIAL_SIZE);
      } else if ht0.used >= |ht0.buckets| && (canResize || ht0.used / |ht0.buckets| > DICT_FORCE_RESIZE_RATIO) {
        ok := Expand((if |ht0.buckets| > ht0.used then |ht0.buckets| else ht0.used) * 2);
      } else {
        return true;
      }
      IsSameOrNew(old(c0), c0);
      IsSameOrNew(old(c1), c1);
    }

    // ----- Searching

    /** The search both tables get: in the first one, then in the second while a migration is going on. */
    method SearchTables(key: K) returns (he: Entry?<K, V>, prevHe: Entry?<K, V>, table: int, idx: nat, ghost j: nat)
      requires Valid() && c0 != []
      ensures he == At(key) && 0 <= table <= 1
      ensures he != null ==> Spot(if table == 0 then c0 else c1, idx, j, he, prevHe)
      ensures he == null ==> table == (if rehashidx == -1 then 0 else 1)
      ensures he == null ==> idx == Bucket(hash, key, |if rehashidx == -1 then c0 else c1|)
    {
      hide *;
      ValidFacts();
      AtIs();
      var h := hash(key);
      idx := BitAnd(h, |ht0.buckets| - 1);
      IsBucket(hash, key, |ht0.buckets|);
      he, prevHe, j := SearchBucket(hash, key, ht0.buckets, c0, idx);
      InFirst(hash, c0, c1, key);
      if he != null {
        return he, prevHe, 0, idx, j;
      }
      if rehashidx == -1 {
        return null, null, 0, idx, 0;
      }
      idx := BitAnd(h, |ht1.buckets| - 1);
      IsBucket(hash, key, |ht1.buckets|);
      he, prevHe, j := SearchBucket(hash, key, ht1.buckets, c1, idx);
      table := 1;
    }

    /** dictFind. */
    method Find(key: K) returns (he: Entry?<K, V>)
      requires Valid()
      modifies this`ht0, this`ht1, this`c0, this`c1, this`rehashidx, repr`next
      ensures he == old(At(key)) == At(key)
      ensures key in Contents() <==> he != null
      ensures he != null ==> he in repr && he.key == key && he.val == Contents()[key]
      ensures Valid() && Contents() == old(Contents()) && repr == old(repr)
      ensures iterators > 0 ==> c0 == old(c0) && c1 == old(c1)
      ensures forall k :: At(k) == old(At(k))
    {
      hide *;
      ValidFacts();
      AtIs();
      AllContents2();
      if |ht0.buckets| == 0 {
        NothingAt(hash, c1, key);
        return null;
      }
      if rehashidx != -1 {
        RehashStep();
      }
      AllContents2();
      var prevHe, table, idx;
      ghost var j;
      he, prevHe, table, idx, j := SearchTables(key);
    }

    // ----- Adding

    /** _dictKeyIndex: the index the key would get, in the second table while a migration is going on. */
    method KeyIndex(key: K, canResize: bool) returns (index: int)
      requires Valid()
      modifies this`ht0, this`ht1, this`c0, this`c1, this`rehashidx
      ensures index == -1 <==> key in old(Contents())
      ensures c0 != [] && (rehashidx != -1 ==> c1 != [])
      ensures index != -1 ==> index == Bucket(hash, key, |if rehashidx == -1 then c0 else c1|) && At(key) == null
      ensures Valid() && Contents() == old(Contents()) && repr == old(repr)
      ensures SameOrNew(old(c0), c0) && SameOrNew(old(c1), c1)
      ensures forall k :: At(k) == old(At(k))
    {
      hide *;
      var expanded := ExpandIfNeeded(canResize);
      ValidFacts();
      AllContents2();
      var he, prevHe, table, idx;
      ghost var j;
      he, prevHe, table, idx, j := SearchTables(key);
      index := if he != null then -1 else idx;
    }

    /** dictAdd: the entry made, when the key is new, is given as a ghost result. */
    method Add(key: K, val: V, canResize: bool) returns (ok: bool, ghost e: Entry?<K, V>)
      requires Valid()
      modifies this`ht0, this`ht1, this`c0, this`c1, this`rehashidx, this`repr, repr`next
      ensures ok <==> key !in old(Contents())
      ensures Valid() && Contents() == if ok then old(Contents())[key := val] else old(Contents())
      ensures ok <==> e != null
      ensures e != null ==> fresh(e) && e.key == key && repr == old(repr) + {e}
      ensures e == null ==> repr == old(repr)
      ensures forall k :: At(k) == if ok && k == key then e else old(At(k))
      ensures forall x :: x in old(repr) ==> x.val == old(x.val)
      ensures iterators > 0 ==> Grown(old(c0), c0, e) && Grown(old(c1), c1, e)
    {
      hide *;
      e := null;
      if rehashidx != -1 {
        RehashStep();
      }
      ghost var d0, d1 := c0, c1;
      var index := KeyIndex(key, canResize);
      IsGrown(d0, c0, c0, 0, null);
      IsGrown(d1, c1, c1, 0, null);
      if index == -1 {
        return false, null;
      }
      ghost var m0, m1 := c0, c1;
      ghost var m, here := Contents(), repr;
      AllContents2();
      e := Insert(index, key, val);
      ok := true;
      IsGrown(d0, m0, c0, index, e);
      IsGrown(d1, m1, c1, index, e);
      IsContents2(m[key := val]);
    }

    /** The second half of dictAdd: a new entry at the head of chain `index`. */
    method Insert(index: nat, key: K, val: V) returns (e: Entry<K, V>)
      requires Valid() && c0 != [] && At(key) == null && index == Bucket(hash, key, |if rehashidx == -1 then c0 else c1|)
      modifies this`ht0, this`ht1, this`c0, this`c1, this`repr
      ensures Valid() && fresh(e) && e.key == key && e.val == val && repr == old(repr) + {e}
      ensures forall k :: At(k) == if k == key then e else old(At(k))
      ensures if rehashidx == -1 then index < |old(c0)| && c0 == Push(old(c0), index, e) && c1 == old(c1)
              else index < |old(c1)| && c0 == old(c0) && c1 == Push(old(c1), index, e)
    {
      hide *;
      AtIs();
      ValidFacts();
      if rehashidx == -1 {
        IsBucket(hash, key, |ht0.buckets|);
        e := new Entry(key, val, ht0.buckets[index]);
        PushKeeps(hash, c0, c1, index, e);
        PushSize(c0, index, e);
        LinkedPush(ht0.buckets, c0, index, e);
        ht0 := Table(ht0.buckets[index := e], ht0.used + 1);
        c0 := Push(c0, index, e);
      } else {
        IsBucket(hash, key, |ht1.buckets|);
        e := new Entry(key, val, ht1.buckets[index]);
        PushKeeps(hash, c0, c1, index, e);
        PushSize(c1, index, e);
        LinkedPush(ht1.buckets, c1, index, e);
        ht1 := Table(ht1.buckets[index := e], ht1.used + 1);
        c1 := Push(c1, index, e);
      }
      repr := repr + {e};
      AtIs();
      ValidWhen();
    }

    /** dictReplace: true when the key was new, false when its value was replaced. */
    method Replace(key: K, val: V, canResize: bool) returns (added: bool, ghost e: Entry?<K, V>)
      requires Valid()
      modifies this`ht0, this`ht1, this`c0, this`c1, this`rehashidx, this`repr, repr`next, repr`val
      ensures added <==> key !in old(Contents())
      ensures Valid() && Contents() == old(Contents())[key := val]
      ensures added <==> e != null
      ensures e != null ==> fresh(e) && e.key == key && repr == old(repr) + {e}
      ensures e == null ==> repr == old(repr)
      ensures iterators > 0 ==> Grown(old(c0), c0, e) && Grown(old(c1), c1, e)
    {
      hide *;
      added, e := Add(key, val, canResize);
      if added {
        return;
      }
      var entry := Find(key);
      AllContents2();
      ghost var m := Contents();
      label Found:
      entry.val := val;
      StillValid@Found();
      IsContents2(m[key := val]);
    }

    // ----- Deleting

    /** dictGenericDelete: the entry removed, if any, is given as a ghost result. */
    method Delete(key: K) returns (ok: bool, ghost e: Entry?<K, V>)
      requires Valid()
      modifies this`ht0, this`ht1, this`c0, this`c1, this`rehashidx, this`repr, repr`next
      ensures ok <==> key in old(Contents())
      ensures Valid() && Contents() == old(Contents()) - {key}
      ensures e == old(At(key)) && repr == old(repr) - {e}
      ensures iterators > 0 ==> Taken(old(c0), c0, e) && Taken(old(c1), c1, e)
    {
      hide *;
      ValidFacts();
      AtIs();
      AllContents2();
      if |ht0.buckets| == 0 {
        NothingAt(hash, c1, key);
        NothingTaken(c0);
        NothingTaken(c1);
        return false, null;
      }
      if rehashidx != -1 {
        RehashStep();
      }
      AllContents2();
      ghost var m := Contents();
      var he, prevHe, table, idx;
      ghost var j;
      he, prevHe, table, idx, j := SearchTables(key);
      e := he;
      if he == null {
        NothingTaken(c0);
        NothingTaken(c1);
        return false, null;
      }
      TakeOutEntry(he, prevHe, table, idx, j);
      IsContents2(m - {key});
      return true, e;
    }

    /** Unlinking what the search found. */
    method TakeOutEntry(he: Entry<K, V>, prevHe: Entry?<K, V>, table: int, idx: nat, ghost j: nat)
      requires Valid() && c0 != [] && 0 <= table <= 1 && At(he.key) == he
      requires Spot(if table == 0 then c0 else c1, idx, j, he, prevHe)
      modifies this`ht0, this`ht1, this`c0, this`c1, this`repr, repr`next
      ensures Valid() && repr == old(repr) - {he}
      ensures forall k :: At(k) == if k == he.key then null else old(At(k))
      ensures Taken(old(c0), c0, he) && Taken(old(c1), c1, he)
    {
      hide *;
      AtIs();
      ValidFacts();
      ghost var c := if table == 0 then c0 else c1;
      OneTaken(hash, c, if table == 0 then c1 else c0, idx, j, he, prevHe);
      if table == 0 {
        var buckets := Unlink(hash, ht0.buckets, idx, he, prevHe, c0, j);
        TakeOutKeeps(hash, c0, c1, idx, j);
        TakeOutSize(c0, idx, j);
        ht0 := Table(buckets, ht0.used - 1);
        c0 := TakeOut(c0, idx, j);
      } else {
        var buckets := Unlink(hash, ht1.buckets, idx, he, prevHe, c1, j);
        TakeOutKeeps1(hash, c0, c1, idx, j);
        TakeOutSize(c1, idx, j);
        ht1 := Table(buckets, ht1.used - 1);
        c1 := TakeOut(c1, idx, j);
      }
      repr := repr - {he};
      AtIs();
      ValidWhen();
    }
  }
}
