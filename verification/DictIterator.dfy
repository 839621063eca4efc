/**
 Safe iterators over a dictionary (dict.c): while one is running the migration stands still, and its owner may look
 up, add, replace and delete between two steps.
 */
module DictIterator {
  import opened D = Dict

  // ----- What an iterator has still to return

  /** The entries of a chain from `e` on; none when `e` is null. */
  ghost function Tail<K, V>(chain: seq<Entry<K, V>>, e: Entry?<K, V>): set<Entry<K, V>> {
    set i, j | 0 <= i <= j < |chain| && chain[i] == e :: chain[j]
  }

  /** The entries of the chains after number `index`. */
  ghost function Later<K, V>(c: seq<seq<Entry<K, V>>>, index: int): set<Entry<K, V>> {
    set b, j | index < b < |c| && 0 <= b && 0 <= j < |c[b]| :: c[b][j]
  }

  /** What is ahead in one table: the rest of chain `index` from `e` on, and the chains after it. */
  ghost function Ahead<K, V>(c: seq<seq<Entry<K, V>>>, index: int, e: Entry?<K, V>): set<Entry<K, V>> {
    (if 0 <= index < |c| then Tail(c[index], e) else {}) + Later(c, index)
  }

  /** What is ahead of an iterator: the rest of its table, and all of the second table while it is in the first. */
  ghost function Remaining<K, V>(c0: seq<seq<Entry<K, V>>>, c1: seq<seq<Entry<K, V>>>, table: int, index: int, e: Entry?<K, V>): set<Entry<K, V>> {
    if table == 0 then Ahead(c0, index, e) + Entries(c1) else Ahead(c1, index, e)
  }

  /** `e` is null or an entry of chain `index`. */
  ghost predicate AtPlace<K, V>(c: seq<seq<Entry<K, V>>>, index: int, e: Entry?<K, V>) {
    e != null ==> 0 <= index < |c| && e in c[index]
  }

  lemma AllAhead<K, V>(c: seq<seq<Entry<K, V>>>)
    ensures Ahead(c, -1, null) == Entries(c) == Later(c, -1)
  {}

  lemma TailOfHead<K, V>(chain: seq<Entry<K, V>>)
    ensures forall x :: x in Tail(chain, HeadOf(chain)) <==> x in chain
  {
    forall x | x in chain ensures x in Tail(chain, HeadOf(chain)) {
      var j :| 0 <= j < |chain| && chain[j] == x;
      assert chain[0] == HeadOf(chain);
    }
  }

  /** The rest of a chain is its first entry and the rest after that. */
  lemma TailStep<K, V>(chain: seq<Entry<K, V>>, i: nat)
    requires i < |chain| && DistinctKeys(chain)
    ensures Tail(chain, chain[i]) == Tail(chain, After(chain, i)) + {chain[i]}
    ensures chain[i] !in Tail(chain, After(chain, i))
    ensures After(chain, i) != null ==> After(chain, i) in chain && After(chain, i).key != chain[i].key
  {
    var e, n := chain[i], After(chain, i);
    forall x | x in Tail(chain, e) ensures x in Tail(chain, n) + {e} {
      var i', j :| 0 <= i' <= j < |chain| && chain[i'] == e && chain[j] == x;
      assert i' == i;
      if j > i {
        assert chain[i + 1] == n;
      }
    }
    forall x | x in Tail(chain, n) ensures x in Tail(chain, e) && x != e {
      var i', j :| 0 <= i' <= j < |chain| && chain[i'] == n && chain[j] == x;
      assert i' == i + 1;
    }
  }

  /** The chains after `index`, one chain on. */
  lemma LaterStep<K, V>(c: seq<seq<Entry<K, V>>>, index: int)
    requires -1 <= index < |c| - 1
    ensures Later(c, index) == Ahead(c, index + 1, HeadOf(c[index + 1]))
  {
    TailOfHead(c[index + 1]);
    forall x | x in Later(c, index) ensures x in Ahead(c, index + 1, HeadOf(c[index + 1])) {
      var b, j :| index < b < |c| && 0 <= j < |c[b]| && c[b][j] == x;
    }
    forall x | x in Tail(c[index + 1], HeadOf(c[index + 1])) ensures x in Later(c, index) {
      var j :| 0 <= j < |c[index + 1]| && c[index + 1][j] == x;
    }
  }

  /** No entry is in two chains of a table. */
  lemma InOneChain<K, V>(hash: K -> nat, c: seq<seq<Entry<K, V>>>, index: nat, x: Entry<K, V>)
    requires Placed(hash, c) && index < |c| && x in c[index]
    ensures x !in Later(c, index)
  {
    var i :| 0 <= i < |c[index]| && c[index][i] == x;
    assert Bucket(hash, c[index][i].key, |c|) == index;
  }

  // ----- What additions and deletions change

  lemma TailPush<K, V>(chain: seq<Entry<K, V>>, x: Entry<K, V>, e: Entry?<K, V>)
    requires e != x
    ensures Tail([x] + chain, e) == Tail(chain, e)
  {
    var d := [x] + chain;
    forall y | y in Tail(chain, e) ensures y in Tail(d, e) {
      var i, j :| 0 <= i <= j < |chain| && chain[i] == e && chain[j] == y;
      assert d[i + 1] == e && d[j + 1] == y;
    }
    forall y | y in Tail(d, e) ensures y in Tail(chain, e) {
      var i, j :| 0 <= i <= j < |d| && d[i] == e && d[j] == y;
      assert i > 0 && chain[i - 1] == e && chain[j - 1] == y;
    }
  }

  lemma LaterPush<K, V>(c: seq<seq<Entry<K, V>>>, b: nat, x: Entry<K, V>, index: int)
    requires b < |c|
    ensures Later(c, index) <= Later(Push(c, b, x), index) <= Later(c, index) + {x}
  {
    var d := Push(c, b, x);
    forall y | y in Later(c, index) ensures y in Later(d, index) {
      var b', j :| index < b' < |c| && 0 <= b' && 0 <= j < |c[b']| && c[b'][j] == y;
      assert d[b'][if b' == b then j + 1 else j] == y;
    }
    forall y | y in Later(d, index) ensures y in Later(c, index) + {x} {
      var b', j :| index < b' < |d| && 0 <= b' && 0 <= j < |d[b']| && d[b'][j] == y;
      if b' != b {
        assert c[b'][j] == y;
      } else if j > 0 {
        assert c[b'][j - 1] == y;
      }
    }
  }

  /** Growing a table adds at most the new entry to what is ahead. */
  lemma GrownAhead<K, V>(c: seq<seq<Entry<K, V>>>, d: seq<seq<Entry<K, V>>>, x: Entry?<K, V>, index: int, e: Entry?<K, V>)
    requires Grown(c, d, x) && AtPlace(c, index, e) && -1 <= index && (x != null ==> x != e)
    ensures Ahead(c, index, e) <= Ahead(d, index, e)
    ensures forall y :: y in Ahead(d, index, e) ==> y in Ahead(c, index, e) || y == x
    ensures AtPlace(d, index, e)
  {
    if d == c {
    } else if c == [] {
      forall y | y in Ahead(d, index, e) ensures y in Entries(d) {}
    } else {
      var b :| 0 <= b < |c| && d == Push(c, b, x);
      LaterPush(c, b, x, index);
      if b == index {
        TailPush(c[b], x, e);
      }
    }
  }

  lemma TailTakeOut<K, V>(chain: seq<Entry<K, V>>, k: nat, e: Entry?<K, V>)
    requires DistinctKeys(chain) && k < |chain| && e != chain[k]
    ensures Tail(chain[..k] + chain[k + 1..], e) == Tail(chain, e) - {chain[k]}
    ensures e != null && e in chain ==> e in chain[..k] + chain[k + 1..]
  {
    var d, x := chain[..k] + chain[k + 1..], chain[k];
    assert forall i :: 0 <= i < k ==> d[i] == chain[i];
    assert forall i :: k <= i < |d| ==> d[i] == chain[i + 1];
    forall y | y in Tail(chain, e) - {x} ensures y in Tail(d, e) {
      var i, j :| 0 <= i <= j < |chain| && chain[i] == e && chain[j] == y;
      assert d[if i < k then i else i - 1] == e && d[if j < k then j else j - 1] == y;
    }
    forall y | y in Tail(d, e) ensures y in Tail(chain, e) - {x} {
      var i, j :| 0 <= i <= j < |d| && d[i] == e && d[j] == y;
      assert chain[if i < k then i else i + 1] == e && chain[if j < k then j else j + 1] == y;
    }
    if e != null && e in chain {
      var i :| 0 <= i < |chain| && chain[i] == e;
      assert d[if i < k then i else i - 1] == e;
    }
  }

  lemma LaterTakeOut<K, V>(hash: K -> nat, c: seq<seq<Entry<K, V>>>, b: nat, k: nat, index: int)
    requires Placed(hash, c) && b < |c| && k < |c[b]|
    ensures Later(TakeOut(c, b, k), index) == Later(c, index) - {c[b][k]}
  {
    var d, x := TakeOut(c, b, k), c[b][k];
    assert DistinctKeys(c[b]);
    forall y | y in Later(c, index) - {x} ensures y in Later(d, index) {
      var b', j :| index < b' < |c| && 0 <= b' && 0 <= j < |c[b']| && c[b'][j] == y;
      assert d[b'][if b' == b && j > k then j - 1 else j] == y;
    }
    forall y | y in Later(d, index) ensures y in Later(c, index) - {x} {
      var b', j :| index < b' < |d| && 0 <= b' && 0 <= j < |d[b']| && d[b'][j] == y;
      assert c[b'][if b' == b && j >= k then j + 1 else j] == y;
      assert Bucket(hash, c[b][k].key, |c|) == b;
    }
  }

  /** Taking out an entry other than the one the iterator goes to next takes it out of what is ahead. */
  lemma TakenAhead<K, V>(hash: K -> nat, c: seq<seq<Entry<K, V>>>, d: seq<seq<Entry<K, V>>>, x: Entry?<K, V>, index: int, e: Entry?<K, V>)
    requires Taken(c, d, x) && Placed(hash, c) && AtPlace(c, index, e) && (x != null ==> x != e)
    ensures forall y :: y in Ahead(d, index, e) <==> y in Ahead(c, index, e) && y != x
    ensures AtPlace(d, index, e)
  {
    if d == c && (x == null || x !in Entries(c)) {
      forall y | y in Ahead(c, index, e) ensures y in Entries(c) {}
    } else {
      var b, k: nat :| 0 <= b < |c| && k < |c[b]| && c[b][k] == x && d == TakeOut(c, b, k);
      LaterTakeOut(hash, c, b, k, index);
      if b == index {
        TailTakeOut(c[b], k, e);
      } else if 0 <= index < |c| {
        assert forall j :: 0 <= j < |c[index]| ==> Bucket(hash, c[index][j].key, |c|) == index;
        assert Bucket(hash, c[b][k].key, |c|) == b;
      }
    }
  }

  // ----- The iterator's invariant

  /**
   The promise of an iterator that stands before `e`: what it has returned is not ahead of it, and what was there at
   its first step and is still there has been returned or is ahead.
   */
  ghost predicate Sound<K, V>(c0: seq<seq<Entry<K, V>>>, c1: seq<seq<Entry<K, V>>>, table: int, index: int, e: Entry?<K, V>,
                              visited: set<Entry<K, V>>, start: set<Entry<K, V>>) {
    && 0 <= table <= 1 && -1 <= index
    && AtPlace(if table == 0 then c0 else c1, index, e)
    && visited !! Remaining(c0, c1, table, index, e)
    && forall x :: x in start && (x in Entries(c0) || x in Entries(c1)) ==> x in visited || x in Remaining(c0, c1, table, index, e)
  }

  lemma StartSound<K, V>(c0: seq<seq<Entry<K, V>>>, c1: seq<seq<Entry<K, V>>>, start: set<Entry<K, V>>)
    ensures Sound(c0, c1, 0, -1, null, {}, start)
  {
    AllAhead(c0);
  }

  lemma GrownSound<K, V>(c0: seq<seq<Entry<K, V>>>, c1: seq<seq<Entry<K, V>>>, d0: seq<seq<Entry<K, V>>>, d1: seq<seq<Entry<K, V>>>,
                         x: Entry?<K, V>, table: int, index: int, e: Entry?<K, V>, visited: set<Entry<K, V>>, start: set<Entry<K, V>>)
    requires Sound(c0, c1, table, index, e, visited, start) && Grown(c0, d0, x) && Grown(c1, d1, x)
    requires x != null ==> x !in visited && x !in start && x != e
    ensures Sound(d0, d1, table, index, e, visited, start)
  {
    GrownAhead(c0, d0, x, if table == 0 then index else -1, if table == 0 then e else null);
    GrownAhead(c1, d1, x, if table == 0 then -1 else index, if table == 0 then null else e);
    GrownAhead(c0, d0, x, -1, null);
    GrownAhead(c1, d1, x, -1, null);
    AllAhead(c0);
    AllAhead(c1);
    AllAhead(d0);
    AllAhead(d1);
    hide Grown, AtPlace, Ahead, Later, Entries;
  }

  lemma TakenEntries<K, V>(hash: K -> nat, c: seq<seq<Entry<K, V>>>, d: seq<seq<Entry<K, V>>>, x: Entry?<K, V>)
    requires Taken(c, d, x) && Placed(hash, c)
    ensures forall y :: y in Entries(d) <==> y in Entries(c) && y != x
  {
    hide *;
    NullAtPlace(c);
    TakenAhead(hash, c, d, x, -1, null);
    AllAhead(c);
    AllAhead(d);
  }

  lemma NullAtPlace<K, V>(c: seq<seq<Entry<K, V>>>)
    ensures AtPlace(c, -1, null)
  {}

  lemma TakenRemaining<K, V>(hash: K -> nat, c0: seq<seq<Entry<K, V>>>, c1: seq<seq<Entry<K, V>>>, d0: seq<seq<Entry<K, V>>>, d1: seq<seq<Entry<K, V>>>,
                             x: Entry?<K, V>, table: int, index: int, e: Entry?<K, V>)
    requires Taken(c0, d0, x) && Taken(c1, d1, x) && Placed(hash, c0) && Placed(hash, c1)
    requires AtPlace(if table == 0 then c0 else c1, index, e) && (x != null ==> x != e)
    ensures AtPlace(if table == 0 then d0 else d1, index, e)
    ensures forall y :: y in Remaining(d0, d1, table, index, e) <==> y in Remaining(c0, c1, table, index, e) && y != x
  {
    if table == 0 {
      TakenAhead(hash, c0, d0, x, index, e);
      TakenEntries(hash, c1, d1, x);
    } else {
      TakenAhead(hash, c1, d1, x, index, e);
    }
    hide Taken, AtPlace, Ahead, Entries, Placed;
  }

  lemma TakenSound<K, V>(hash: K -> nat, c0: seq<seq<Entry<K, V>>>, c1: seq<seq<Entry<K, V>>>, d0: seq<seq<Entry<K, V>>>, d1: seq<seq<Entry<K, V>>>,
                         x: Entry?<K, V>, table: int, index: int, e: Entry?<K, V>, visited: set<Entry<K, V>>, start: set<Entry<K, V>>)
    requires Sound(c0, c1, table, index, e, visited, start) && Taken(c0, d0, x) && Taken(c1, d1, x)
    requires Placed(hash, c0) && Placed(hash, c1) && (x != null ==> x != e)
    ensures Sound(d0, d1, table, index, e, visited, start)
  {
    TakenRemaining(hash, c0, c1, d0, d1, x, table, index, e);
    TakenEntries(hash, c0, d0, x);
    TakenEntries(hash, c1, d1, x);
    hide Taken, AtPlace, Entries, Placed, Remaining;
  }

  /** On to the next chain of the table. */
  lemma NextChain<K, V>(c0: seq<seq<Entry<K, V>>>, c1: seq<seq<Entry<K, V>>>, table: int, index: int,
                        visited: set<Entry<K, V>>, start: set<Entry<K, V>>)
    requires Sound(c0, c1, table, index, null, visited, start)
    requires var c := if table == 0 then c0 else c1;
             index + 1 < |c|
    ensures var c := if table == 0 then c0 else c1;
            Sound(c0, c1, table, index + 1, HeadOf(c[index + 1]), visited, start)
  {
    LaterStep(if table == 0 then c0 else c1, index);
    NullTail(if table == 0 then c0 else c1, index);
  }

  lemma NullTail<K, V>(c: seq<seq<Entry<K, V>>>, index: int)
    ensures Ahead(c, index, null) == Later(c, index)
  {}

  /** On to the second table. */
  lemma NextTable<K, V>(c0: seq<seq<Entry<K, V>>>, c1: seq<seq<Entry<K, V>>>, index: int,
                        visited: set<Entry<K, V>>, start: set<Entry<K, V>>)
    requires Sound(c0, c1, 0, index, null, visited, start) && index + 1 >= |c0| && c1 != []
    ensures Sound(c0, c1, 1, 0, HeadOf(c1[0]), visited, start)
  {
    LaterStep(c1, -1);
    AllAhead(c1);
    NullTail(c0, index);
    assert Later(c0, index) == {};
  }

  /** No chain and no table left: nothing is ahead. */
  lemma NothingAhead<K, V>(c0: seq<seq<Entry<K, V>>>, c1: seq<seq<Entry<K, V>>>, table: int, index: int,
                           visited: set<Entry<K, V>>, start: set<Entry<K, V>>)
    requires Sound(c0, c1, table, index, null, visited, start)
    requires var c := if table == 0 then c0 else c1;
             index + 1 >= |c| && (table == 0 ==> c1 == [])
    ensures Sound(c0, c1, table, index + 1, null, visited, start)
    ensures forall x :: x in start && (x in Entries(c0) || x in Entries(c1)) ==> x in visited
  {
    NullTail(if table == 0 then c0 else c1, index);
    NullTail(if table == 0 then c0 else c1, index + 1);
    assert Later(if table == 0 then c0 else c1, index) == {};
    assert Later(if table == 0 then c0 else c1, index + 1) == {};
  }

  /** Returning the entry the iterator stands before. */
  lemma ReturnEntry<K(!new), V>(hash: K -> nat, c0: seq<seq<Entry<K, V>>>, c1: seq<seq<Entry<K, V>>>, table: int, index: int, e: Entry<K, V>, i: nat,
                          visited: set<Entry<K, V>>, start: set<Entry<K, V>>)
    requires Sound(c0, c1, table, index, e, visited, start) && Placed(hash, c0) && Placed(hash, c1) && Apart(hash, c0, c1)
    requires var c := if table == 0 then c0 else c1;
             0 <= index < |c| && i < |c[index]| && c[index][i] == e
    ensures var c := if table == 0 then c0 else c1;
            && Sound(c0, c1, table, index, After(c[index], i), visited + {e}, start)
            && (After(c[index], i) != null ==> After(c[index], i).key != e.key)
    ensures e !in visited && (e in Entries(c0) || e in Entries(c1))
  {
    var c := if table == 0 then c0 else c1;
    assert DistinctKeys(c[index]);
    TailStep(c[index], i);
    InOneChain(hash, c, index, e);
    InOneTable(hash, c0, c1, e);
    assert e in Tail(c[index], e);
    hide Placed, Apart, Tail, Later, Entries;
  }

  /** The links of the chain an entry is in. */
  lemma NextIs<K, V>(buckets: seq<Entry?<K, V>>, c: seq<seq<Entry<K, V>>>, index: int, e: Entry<K, V>) returns (i: nat)
    requires Linked(buckets, c) && AtPlace(c, index, e)
    ensures 0 <= index < |c| && i < |c[index]| && c[index][i] == e && e.next == After(c[index], i)
  {
    i :| 0 <= i < |c[index]| && c[index][i] == e;
    assert ChainLinked(buckets[index], c[index]);
    assert e.next == After(c[index], i);
  }

  class SafeIterator<K(==, !new), V> {
    const d: D.Dict<K, V>
    var table: int
    var index: int
    var entry: Entry?<K, V>
    var nextEntry: Entry?<K, V>
    ghost var visited: set<Entry<K, V>>    // the entries returned
    ghost var start: set<Entry<K, V>>      // the entries present at the first step

    ghost predicate Started()
      reads this
    {
      !(index == -1 && table == 0)
    }

    ghost predicate Valid()
      reads this, d, d.repr`next
    {
      && d.Valid()
      && (entry == null ==> nextEntry == null)
      && (entry != null && nextEntry != null ==> entry.key != nextEntry.key)
      && (Started() ==> d.iterators > 0)
      && (!Started() ==> entry == null && visited == {})
      && Sound(d.c0, d.c1, table, index, nextEntry, visited, start)
    }

    constructor (d: D.Dict<K, V>)
      requires d.Valid()
      ensures Valid() && !Started() && this.d == d && visited == {}
    {
      this.d := d;
      table, index, entry, nextEntry, visited, start := 0, -1, null, null, {}, {};
      StartSound<K, V>(d.c0, d.c1, {});
    }

    /** The invariant of the iterator's promise while it stands before `e`. */
    ghost predicate Before(e: Entry?<K, V>)
      reads this`table, this`index, this`visited, this`start, d`c0, d`c1
    {
      Sound(d.c0, d.c1, table, index, e, visited, start)
    }

    ghost function Size(): nat
      reads this`table, d`ht0, d`ht1
    {
      if table == 0 then |d.ht0.buckets| else |d.ht1.buckets|
    }

    lemma SizeIs()
      ensures Size() == if table == 0 then |d.ht0.buckets| else |d.ht1.buckets|
    {}

    /** The case of dictNext in which a chain is finished: on to the next chain, or to the second table. */
    method ToNextChain() returns (ended: bool)
      requires d.Valid() && Before(null) && entry == null
      modifies this`table, this`index, this`entry
      ensures d.Valid() && Before(entry) && !(index == -1 && table == 0)
      ensures ended ==> entry == null && start * d.repr <= visited
      ensures !ended ==> table == old(table) ==> old(index) < index <= Size()
      ensures !ended ==> table != old(table) ==> old(table) == 0 && table == 1
      ensures 0 <= table <= 1
    {
      hide *;
      d.ValidFacts();
      BeforeFacts(null);
      BeforeWhen();
      var size := if table == 0 then |d.ht0.buckets| else |d.ht1.buckets|;
      index := index + 1;
      if index >= size {
        if d.rehashidx != -1 && table == 0 {
          NextTable(d.c0, d.c1, index - 1, visited, start);
          table, index := 1, 0;
        } else {
          NothingAhead(d.c0, d.c1, table, index - 1, visited, start);
          InRepr(d.c0, d.c1, d.repr);
          BeforeWhen();
          return true;
        }
      } else {
        NextChain(d.c0, d.c1, table, index - 1, visited, start);
      }
      ended := false;
      if table == 0 {
        HeadIsNull(d.ht0.buckets, d.c0, index);
        entry := d.ht0.buckets[index];
      } else {
        HeadIsNull(d.ht1.buckets, d.c1, index);
        entry := d.ht1.buckets[index];
      }
      BeforeWhen();
      SizeIs();
    }

    /** The end of dictNext: the entry found is the one to return, and the one after it is kept for the next step. */
    method Take() returns (r: Entry<K, V>)
      requires d.Valid() && entry != null && Before(entry) && d.iterators > 0 && !(index == -1 && table == 0)
      modifies this`nextEntry, this`visited
      ensures Valid() && Started() && r == entry && r in d.repr && r !in old(visited) && visited == old(visited) + {r}
    {
      hide *;
      d.ValidFacts();
      BeforeFacts(entry);
      InRepr(d.c0, d.c1, d.repr);
      ghost var i;
      if table == 0 {
        i := NextIs(d.ht0.buckets, d.c0, index, entry);
      } else {
        i := NextIs(d.ht1.buckets, d.c1, index, entry);
      }
      ReturnEntry(d.hash, d.c0, d.c1, table, index, entry, i, visited, start);
      nextEntry := entry.next;
      visited := visited + {entry};
      BeforeWhen();
      IsValid();
      return entry;
    }

    /** dictNext: null when no entry is left. */
    method Next() returns (r: Entry?<K, V>)
      requires Valid()
      modifies this, d`iterators
      ensures Valid() && Started()
      ensures start == if old(Started()) then old(start) else d.repr
      ensures d.iterators == old(d.iterators) + if old(Started()) then 0 else 1
      ensures r == entry
      ensures r != null ==> r in d.repr && r !in old(visited) && visited == old(visited) + {r}
      ensures r == null ==> visited == old(visited) && start * d.repr <= visited
    {
      hide *;
      Facts();
      ghost var first := index == -1 && table == 0;
      if first {
        start := d.repr;
        StartSound(d.c0, d.c1, start);
      }
      BeforeWhen();
      while true
        invariant d.Valid() && 0 <= table <= 1
        invariant d.iterators == old(d.iterators) + if first && !(index == -1 && table == 0) then 1 else 0
        invariant !(index == -1 && table == 0) ==> d.iterators > 0
        invariant first || !(index == -1 && table == 0)
        invariant index == -1 && table == 0 ==> entry == null
        invariant start == (if first then d.repr else old(start)) && visited == old(visited)
        invariant entry == null ==> nextEntry == null
        invariant Before(nextEntry)
        decreases 1 - table, Size() - index, if entry == null then 0 else 1
      {
        if entry == null {
          if index == -1 && table == 0 {
            d.iterators := d.iterators + 1;
          }
          var ended := ToNextChain();
          if ended {
            BeforeFacts(null);
            IsValid();
            return null;
          }
        } else {
          entry := nextEntry;
        }
        if entry != null {
          r := Take();
          return;
        }
      }
    }

    /** dictReleaseIterator. */
    method Release()
      requires Valid()
      modifies d`iterators
      ensures d.Valid() && d.iterators == old(d.iterators) - if Started() then 1 else 0
    {
      if !(index == -1 && table == 0) {
        d.iterators := d.iterators - 1;
      }
    }

    lemma BeforeFacts(e: Entry?<K, V>)
      requires Before(e)
      ensures Sound(d.c0, d.c1, table, index, e, visited, start)
      ensures 0 <= table <= 1 && -1 <= index && AtPlace(if table == 0 then d.c0 else d.c1, index, e)
    {}

    lemma BeforeWhen()
      ensures forall e :: Sound(d.c0, d.c1, table, index, e, visited, start) <==> Before(e)
    {}

    lemma Facts()
      requires Valid()
      ensures d.Valid() && Sound(d.c0, d.c1, table, index, nextEntry, visited, start)
      ensures entry == null ==> nextEntry == null
      ensures entry != null && nextEntry != null ==> entry.key != nextEntry.key
      ensures Started() ==> d.iterators > 0
      ensures !Started() ==> entry == null && visited == {}
      ensures Started() <==> !(index == -1 && table == 0)
    {}

    lemma IsValid()
      requires d.Valid() && Sound(d.c0, d.c1, table, index, nextEntry, visited, start)
      requires entry == null ==> nextEntry == null
      requires entry != null && nextEntry != null ==> entry.key != nextEntry.key
      requires d.iterators > 0 && !(index == -1 && table == 0)
      ensures Valid() && Started()
    {}
  }

  // ----- Using the dictionary between two steps

  /** What the owner of a safe iterator may do between two steps. */
  datatype Action<K, V> =
    | Step
    | Look(key: K)
    | Include(key: K, val: V, canResize: bool)
    | Assign(key: K, val: V, canResize: bool)
    | DeleteCurrent

  /** After an addition (or a mere search) by the owner the iterator still keeps its promise. */
  twostate lemma StaysAfterAdding<K(!new), V>(it: SafeIterator<K, V>, new e: Entry?<K, V>)
    requires old(it.Valid()) && old(it.Started()) && it.d.Valid() && unchanged(it) && it.d.iterators == old(it.d.iterators)
    requires Grown(old(it.d.c0), it.d.c0, e) && Grown(old(it.d.c1), it.d.c1, e)
    requires e != null ==> fresh(e)
    ensures it.Valid() && it.Started()
  {
    assert e != null ==> e !in it.visited && e !in it.start && e != it.nextEntry;
    GrownSound(old(it.d.c0), old(it.d.c1), it.d.c0, it.d.c1, e, it.table, it.index, it.nextEntry, it.visited, it.start);
  }

  lemma SameIsGrown<K, V>(c: seq<seq<Entry<K, V>>>)
    ensures Grown(c, c, null)
  {}

  method LookUp<K(==, !new), V>(it: SafeIterator<K, V>, key: K)
    requires it.Valid() && it.Started()
    modifies it.d, it.d.repr`next, it.d.repr`val
    ensures it.Valid() && it.Started() && unchanged(it) && it.d.iterators == old(it.d.iterators)
    ensures forall e :: e in it.d.repr ==> e in old(it.d.repr) || fresh(e)
  {
    hide *;
    it.Facts();
    SameIsGrown(it.d.c0);
    SameIsGrown(it.d.c1);
    var he := it.d.Find(key);
    StaysAfterAdding(it, null);
  }

  method Include<K(==, !new), V>(it: SafeIterator<K, V>, key: K, val: V, canResize: bool)
    requires it.Valid() && it.Started()
    modifies it.d, it.d.repr`next, it.d.repr`val
    ensures it.Valid() && it.Started() && unchanged(it) && it.d.iterators == old(it.d.iterators)
    ensures forall e :: e in it.d.repr ==> e in old(it.d.repr) || fresh(e)
  {
    hide *;
    it.Facts();
    var ok;
    ghost var e;
    ok, e := it.d.Add(key, val, canResize);
    StaysAfterAdding(it, e);
  }

  method Assign<K(==, !new), V>(it: SafeIterator<K, V>, key: K, val: V, canResize: bool)
    requires it.Valid() && it.Started()
    modifies it.d, it.d.repr`next, it.d.repr`val
    ensures it.Valid() && it.Started() && unchanged(it) && it.d.iterators == old(it.d.iterators)
    ensures forall e :: e in it.d.repr ==> e in old(it.d.repr) || fresh(e)
  {
    hide *;
    it.Facts();
    var added;
    ghost var e;
    added, e := it.d.Replace(key, val, canResize);
    StaysAfterAdding(it, e);
  }

  method DeleteCurrent<K(==, !new), V>(it: SafeIterator<K, V>)
    requires it.Valid() && it.Started()
    modifies it.d, it.d.repr`next, it.d.repr`val
    ensures it.Valid() && it.Started() && unchanged(it) && it.d.iterators == old(it.d.iterators)
    ensures forall e :: e in it.d.repr ==> e in old(it.d.repr) || fresh(e)
  {
    hide *;
    it.Facts();
    if it.entry != null {
      var ok;
      ghost var e;
      it.d.ValidFacts();
      ghost var c0, c1 := it.d.c0, it.d.c1;
      ok, e := it.d.Delete(it.entry.key);
      TakenSound(it.d.hash, c0, c1, it.d.c0, it.d.c1, e, it.table, it.index, it.nextEntry, it.visited, it.start);
      it.IsValid();
    }
  }

  /** One action other than a step. */
  method Perform<K(==, !new), V>(it: SafeIterator<K, V>, a: Action<K, V>)
    requires it.Valid() && it.Started() && a != Step
    modifies it.d, it.d.repr`next, it.d.repr`val
    ensures it.Valid() && it.Started() && unchanged(it) && it.d.iterators == old(it.d.iterators)
    ensures forall e :: e in it.d.repr ==> e in old(it.d.repr) || fresh(e)
  {
    if a.Look? {
      LookUp(it, a.key);
    } else if a.Include? {
      Include(it, a.key, a.val, a.canResize);
    } else if a.Assign? {
      Assign(it, a.key, a.val, a.canResize);
    } else {
      DeleteCurrent(it);
    }
  }

  /**
   A whole iteration, whatever its owner does in between: no entry is returned twice, and once the iterator has
   answered null every entry that was there at the first step and has not been deleted has been returned.
   */
  method Iterate<K(==, !new), V>(d: D.Dict<K, V>, script: seq<Action<K, V>>) returns (out: seq<Entry<K, V>>, ended: bool)
    requires d.Valid()
    modifies d, d.repr`next, d.repr`val
    ensures d.Valid() && d.iterators == old(d.iterators)
    ensures forall i, j :: 0 <= i < j < |out| ==> out[i] != out[j]
    ensures ended ==> forall e :: e in old(d.repr) && e in d.repr ==> e in out
    ensures forall e :: e in out ==> e in old(d.repr) || fresh(e)
  {
    hide *;
    var it := new SafeIterator(d);
    var e := it.Next();
    out, ended := if e == null then [] else [e], e == null;
    var i := 0;
    while i < |script|
      invariant 0 <= i <= |script| && it.Valid() && it.Started() && d.iterators == old(d.iterators) + 1
      invariant it.start == old(d.repr) && it.d == d
      invariant forall x :: x in it.visited <==> x in out
      invariant forall i, j :: 0 <= i < j < |out| ==> out[i] != out[j]
      invariant ended ==> forall e :: e in old(d.repr) && e in d.repr ==> e in out
      invariant forall e :: e in out || e in d.repr ==> e in old(d.repr) || fresh(e)
    {
      if script[i] == Step {
        e := it.Next();
        if e == null {
          ended := true;
        } else {
          out := out + [e];
        }
      } else {
        Perform(it, script[i]);
      }
      i := i + 1;
    }
    it.Facts();
    it.Release();
  }

  lemma InRepr<K, V>(c0: seq<seq<Entry<K, V>>>, c1: seq<seq<Entry<K, V>>>, repr: set<Entry<K, V>>)
    requires repr == Entries(c0) + Entries(c1)
    ensures forall x :: x in repr <==> x in Entries(c0) || x in Entries(c1)
  {}
}
