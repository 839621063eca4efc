/**
 Blocking list operations (t_list.c): clients wait for keys, and a push hands its value to the first client that can
 take it, which may push it on to another key for which clients wait in turn.
 */
module Blocking {
  import opened Bytes
  import opened Lists

  type Key = seq<byte>
  type Blob = seq<byte>
  type ClientId = nat

  datatype Obj = ListObj(xs: seq<Blob>) | OtherObj

  /** What a blocked client waits for; `since` numbers the clients in the order in which they blocked. */
  datatype Bpop = Bpop(keys: seq<Key>, target: Option<Key>, since: nat)

  datatype Reply =
    | Popped(c: ClientId, key: Key, ele: Blob)
    | Moved(c: ClientId, ele: Blob)
    | WrongType(c: ClientId)
    | Length(c: ClientId, n: nat)
    | Null(c: ClientId)

  datatype State = State(
    db: map<Key, Obj>,
    blocking: map<Key, seq<ClientId>>,   // db->blocking_keys
    bpop: map<ClientId, Bpop>,           // the blocked clients
    replies: seq<Reply>,
    unblocked: seq<ClientId>,            // server.unblocked_clients
    clock: nat,                          // how many clients have blocked so far
    vector: seq<Blob>,                   // argv of the client whose command is being executed
    dirty: nat                           // server.dirty: the command is propagated when it has grown
  )

  const LPUSH: Blob := [76, 80, 85, 83, 72]
  const RPUSH: Blob := [82, 80, 85, 83, 72]
  const RPOPLPUSH: Blob := [82, 80, 79, 80, 76, 80, 85, 83, 72]

  // ----- The two sides of the index

  function Waiting(blocking: map<Key, seq<ClientId>>, k: Key): seq<ClientId> {
    if k in blocking then blocking[k] else []
  }

  function KeysOf(bpop: map<ClientId, Bpop>, c: ClientId): seq<Key> {
    if c in bpop then bpop[c].keys else []
  }

  /** Both sides of the index have every pair of a key and a client equally often, and no list is left empty. */
  ghost predicate Mirror(s: State) {
    && (forall k: Key, c: ClientId :: Count(Waiting(s.blocking, k), c) == Count(KeysOf(s.bpop, c), k))
    && (forall k :: k in s.blocking ==> s.blocking[k] != [])
  }

  /** The clients waiting for a key are in the order in which they blocked. */
  ghost predicate Ordered(s: State) {
    && (forall k: Key, i, j {:trigger Waiting(s.blocking, k)[i], Waiting(s.blocking, k)[j]} :: 0 <= i < j < |Waiting(s.blocking, k)| ==> Earlier(s, Waiting(s.blocking, k)[i], Waiting(s.blocking, k)[j]))
    && (forall c: ClientId :: c in s.bpop ==> s.bpop[c].since < s.clock)
  }

  predicate Earlier(s: State, c: ClientId, d: ClientId) {
    c in s.bpop && d in s.bpop && (c == d || s.bpop[c].since < s.bpop[d].since)
  }

  /** A client that moves its element waits for one key only. */
  ghost predicate Shaped(s: State) {
    forall c: ClientId :: c in s.bpop && s.bpop[c].target.Some? ==> |s.bpop[c].keys| == 1
  }

  /** A list that has become empty does not exist. */
  ghost predicate Filled(db: map<Key, Obj>) {
    forall k :: k in db && db[k].ListObj? ==> db[k].xs != []
  }

  ghost predicate Valid(s: State) {
    Mirror(s) && Ordered(s) && Shaped(s)
  }

  // ----- Unblocking

  function Drop(blocking: map<Key, seq<ClientId>>, k: Key, c: ClientId): map<Key, seq<ClientId>> {
    var l := RemoveFirst(Waiting(blocking, k), c);
    if l == [] then blocking - {k} else blocking[k := l]
  }

  function DropAll(blocking: map<Key, seq<ClientId>>, keys: seq<Key>, c: ClientId): map<Key, seq<ClientId>> {
    if keys == [] then blocking else Drop(DropAll(blocking, keys[..|keys| - 1], c), keys[|keys| - 1], c)
  }

  /** unblockClientWaitingData. */
  function Unblock(s: State, c: ClientId): State
    requires c in s.bpop
  {
    State(s.db, DropAll(s.blocking, s.bpop[c].keys, c), s.bpop - {c}, s.replies, s.unblocked + [c], s.clock, s.vector, s.dirty)
  }

  lemma WaitingDrop(blocking: map<Key, seq<ClientId>>, k: Key, c: ClientId, k': Key)
    ensures Waiting(Drop(blocking, k, c), k') == if k' == k then RemoveFirst(Waiting(blocking, k), c) else Waiting(blocking, k')
  {}

  lemma {:induction false} CountTake(keys: seq<Key>, j: nat, k: Key)
    requires j < |keys|
    ensures Count(keys[..j + 1], k) == Count(keys[..j], k) + if keys[j] == k then 1 else 0
  {
    assert keys[..j + 1] == keys[..j] + [keys[j]];
    CountAppend(keys[..j], [keys[j]], k);
  }

  /** Removing a client for every key it waits for: its entries go, all others stay. */
  lemma {:induction false} DropAllCounts(blocking: map<Key, seq<ClientId>>, keys: seq<Key>, c: ClientId, k: Key, d: ClientId)
    requires forall k: Key :: Count(Waiting(blocking, k), c) >= Count(keys, k)
    ensures Count(Waiting(DropAll(blocking, keys, c), k), d) == Count(Waiting(blocking, k), d) - if d == c then Count(keys, k) else 0
    decreases |keys|
  {
    if keys != [] {
      var n := |keys| - 1;
      var most, last := keys[..n], keys[n];
      assert keys[..n + 1] == keys;
      forall k: Key ensures Count(Waiting(blocking, k), c) >= Count(most, k) {
        CountTake(keys, n, k);
      }
      CountTake(keys, n, k);
      CountTake(keys, n, last);
      DropAllCounts(blocking, most, c, k, d);
      DropAllCounts(blocking, most, c, last, c);
      var b := DropAll(blocking, most, c);
      CountIn(Waiting(b, last), c);
      WaitingDrop(b, last, c, k);
      if k == last {
        CountRemove(Waiting(b, last), c, d);
      }
    }
  }

  lemma {:induction false} DropAllNonEmpty(blocking: map<Key, seq<ClientId>>, keys: seq<Key>, c: ClientId)
    requires forall k :: k in blocking ==> blocking[k] != []
    ensures forall k :: k in DropAll(blocking, keys, c) ==> DropAll(blocking, keys, c)[k] != []
    decreases |keys|
  {
    if keys != [] {
      DropAllNonEmpty(blocking, keys[..|keys| - 1], c);
    }
  }

  lemma {:induction false} DropAllKeepsOrder(blocking: map<Key, seq<ClientId>>, keys: seq<Key>, c: ClientId, k: Key, i: nat, j: nat)
    returns (i': nat, j': nat)
    requires i < j < |Waiting(DropAll(blocking, keys, c), k)|
    ensures i' < j' < |Waiting(blocking, k)|
    ensures Waiting(blocking, k)[i'] == Waiting(DropAll(blocking, keys, c), k)[i] && Waiting(blocking, k)[j'] == Waiting(DropAll(blocking, keys, c), k)[j]
    decreases |keys|
  {
    if keys == [] {
      i', j' := i, j;
    } else {
      var most, last := keys[..|keys| - 1], keys[|keys| - 1];
      var b := DropAll(blocking, most, c);
      WaitingDrop(b, last, c, k);
      i', j' := i, j;
      if k == last {
        i', j' := RemoveKeepsOrder(Waiting(b, k), c, i, j);
      }
      i', j' := DropAllKeepsOrder(blocking, most, c, k, i', j');
    }
  }

  lemma UnblockMirror(s: State, c: ClientId)
    requires Mirror(s) && c in s.bpop
    ensures Mirror(Unblock(s, c))
  {
    var t, keys := Unblock(s, c), s.bpop[c].keys;
    forall k: Key ensures Count(Waiting(s.blocking, k), c) >= Count(keys, k) {
      assert Count(Waiting(s.blocking, k), c) == Count(KeysOf(s.bpop, c), k);
    }
    forall k: Key, d: ClientId ensures Count(Waiting(t.blocking, k), d) == Count(KeysOf(t.bpop, d), k) {
      DropAllCounts(s.blocking, keys, c, k, d);
      assert Count(Waiting(s.blocking, k), d) == Count(KeysOf(s.bpop, d), k);
    }
    DropAllNonEmpty(s.blocking, keys, c);
  }

  lemma UnblockOrdered(s: State, c: ClientId)
    requires Mirror(s) && Ordered(s) && c in s.bpop
    ensures Ordered(Unblock(s, c))
  {
    var t, keys := Unblock(s, c), s.bpop[c].keys;
    UnblockMirror(s, c);
    forall k: Key, i, j | 0 <= i < j < |Waiting(t.blocking, k)| ensures Earlier(t, Waiting(t.blocking, k)[i], Waiting(t.blocking, k)[j]) {
      var i', j' := DropAllKeepsOrder(s.blocking, keys, c, k, i, j);
      assert Earlier(s, Waiting(s.blocking, k)[i'], Waiting(s.blocking, k)[j']);
      WaiterBlocked(t, k, Waiting(t.blocking, k)[i]);
      WaiterBlocked(t, k, Waiting(t.blocking, k)[j]);
    }
  }

  /** Who waits for a key is blocked, and blocked for that key. */
  lemma WaiterBlocked(s: State, k: Key, c: ClientId)
    requires Mirror(s) && c in Waiting(s.blocking, k)
    ensures c in s.bpop && k in s.bpop[c].keys
  {
    CountIn(Waiting(s.blocking, k), c);
    CountIn(KeysOf(s.bpop, c), k);
    assert Count(Waiting(s.blocking, k), c) == Count(KeysOf(s.bpop, c), k);
  }

  lemma UnblockValid(s: State, c: ClientId)
    requires Valid(s) && c in s.bpop
    ensures Valid(Unblock(s, c))
  {
    UnblockMirror(s, c);
    UnblockOrdered(s, c);
  }

  // ----- Blocking

  function BlockAll(blocking: map<Key, seq<ClientId>>, keys: seq<Key>, c: ClientId): map<Key, seq<ClientId>> {
    if keys == [] then blocking
    else
      var b := BlockAll(blocking, keys[..|keys| - 1], c);
      var k := keys[|keys| - 1];
      b[k := Waiting(b, k) + [c]]
  }

  /** blockForKeys. */
  function Block(s: State, c: ClientId, keys: seq<Key>, target: Option<Key>): State {
    State(s.db, BlockAll(s.blocking, keys, c), s.bpop[c := Bpop(keys, target, s.clock)], s.replies, s.unblocked, s.clock + 1, s.vector, s.dirty)
  }

  function Repeat(n: nat, c: ClientId): (r: seq<ClientId>)
    ensures |r| == n && forall i :: 0 <= i < n ==> r[i] == c
  {
    seq(n, _ => c)
  }

  /** A key's list gets the client once for each time the key is given, behind those already waiting. */
  lemma {:induction false} BlockAllWaiting(blocking: map<Key, seq<ClientId>>, keys: seq<Key>, c: ClientId, k: Key)
    ensures Waiting(BlockAll(blocking, keys, c), k) == Waiting(blocking, k) + Repeat(Count(keys, k), c)
    decreases |keys|
  {
    if keys != [] {
      var n := |keys| - 1;
      BlockAllWaiting(blocking, keys[..n], c, k);
      assert keys[..n + 1] == keys;
      CountTake(keys, n, k);
      var a, b: seq<ClientId> := Repeat(Count(keys[..n], k), c), Repeat(Count(keys, k), c);
      assert keys[n] == k ==> a + [c] == b;
    }
  }

  lemma {:induction false} CountRepeat(n: nat, c: ClientId, d: ClientId)
    ensures Count(Repeat(n, c), d) == if d == c then n else 0
  {
    if n > 0 {
      assert Repeat(n, c)[1..] == Repeat(n - 1, c);
      CountRepeat(n - 1, c, d);
    }
  }

  lemma BlockValid(s: State, c: ClientId, keys: seq<Key>, target: Option<Key>)
    requires Valid(s) && c !in s.bpop && (target.Some? ==> |keys| == 1)
    ensures Valid(Block(s, c, keys, target))
  {
    var t := Block(s, c, keys, target);
    forall k: Key, d: ClientId ensures Count(Waiting(t.blocking, k), d) == Count(KeysOf(t.bpop, d), k) {
      BlockAllWaiting(s.blocking, keys, c, k);
      CountAppend(Waiting(s.blocking, k), Repeat(Count(keys, k), c), d);
      CountRepeat(Count(keys, k), c, d);
      assert Count(Waiting(s.blocking, k), d) == Count(KeysOf(s.bpop, d), k);
    }
    BlockNonEmpty(s.blocking, keys, c);
    forall k: Key, i, j | 0 <= i < j < |Waiting(t.blocking, k)| ensures Earlier(t, Waiting(t.blocking, k)[i], Waiting(t.blocking, k)[j]) {
      BlockAllWaiting(s.blocking, keys, c, k);
      var before := Waiting(s.blocking, k);
      if j < |before| {
        assert Earlier(s, before[i], before[j]);
      } else if i < |before| {
        WaiterBlocked(s, k, before[i]);
      }
    }
  }

  lemma {:induction false} BlockNonEmpty(blocking: map<Key, seq<ClientId>>, keys: seq<Key>, c: ClientId)
    requires forall k :: k in blocking ==> blocking[k] != []
    ensures forall k :: k in BlockAll(blocking, keys, c) ==> BlockAll(blocking, keys, c)[k] != []
    decreases |keys|
  {
    if keys != [] {
      BlockNonEmpty(blocking, keys[..|keys| - 1], c);
    }
  }

  // ----- Serving a push

  /** Can the client take an element? One that moves it needs a list, or nothing, at its target. */
  predicate CanTake(s: State, c: ClientId) {
    c in s.bpop && (s.bpop[c].target.Some? && s.bpop[c].target.value in s.db ==> s.db[s.bpop[c].target.value].ListObj?)
  }

  function Answer(s: State, r: Reply): State {
    s.(replies := s.replies + [r])
  }

  function PushHead(db: map<Key, Obj>, k: Key, ele: Blob): map<Key, Obj> {
    db[k := ListObj([ele] + (if k in db && db[k].ListObj? then db[k].xs else []))]
  }

  datatype Served = Served(s: State, done: bool)

  /** handleClientsWaitingListPush: the element goes to the first client waiting for the key that can take it. */
  function Serve(s: State, key: Key, ele: Blob): (r: Served)
    ensures |r.s.bpop| <= |s.bpop| && (r.done ==> |r.s.bpop| < |s.bpop|)
    decreases |s.bpop|, 0
  {
    var waiting := Waiting(s.blocking, key);
    if waiting == [] || waiting[0] !in s.bpop then Served(s, false)
    else
      var c := waiting[0];
      var t := Unblock(s, c);
      assert t.bpop == s.bpop - {c} && |t.bpop| < |s.bpop| by {
        SizeDrops(s.bpop, c);
      }
      match s.bpop[c].target
      case None => Served(Answer(t, Popped(c, key, ele)), true)
      case Some(dst) =>
        if CanTake(s, c) then Served(HandlePush(t, c, dst, ele, [LPUSH, dst, ele]), true)
        else Serve(Answer(t, WrongType(c)), key, ele)
  }

  /**
   rpoplpushHandlePush: the element is pushed on another key, which may have clients waiting in turn. If nobody takes
   it there, the command of the pushing client is rewritten to `vector`.
   */
  function HandlePush(s: State, c: ClientId, dst: Key, ele: Blob, vector: seq<Blob>): (t: State)
    ensures |t.bpop| <= |s.bpop|
    decreases |s.bpop|, 1
  {
    var r := Serve(s, dst, ele);
    Answer(if r.done then r.s else PutHead(r.s, dst, ele, vector), Moved(c, ele))
  }

  function PutHead(s: State, k: Key, ele: Blob, vector: seq<Blob>): State {
    s.(db := PushHead(s.db, k, ele), vector := vector, dirty := s.dirty + 1)
  }

  lemma SizeDrops(m: map<ClientId, Bpop>, c: ClientId)
    requires c in m
    ensures |m - {c}| < |m|
  {
    assert m.Keys == (m - {c}).Keys + {c};
    assert |(m - {c}).Keys| == |m - {c}|;
  }

  lemma AnswerValid(s: State, r: Reply)
    requires Valid(s)
    ensures Valid(Answer(s, r))
  {
    var t := Answer(s, r);
    forall k: Key, i, j | 0 <= i < j < |Waiting(t.blocking, k)| ensures Earlier(t, Waiting(t.blocking, k)[i], Waiting(t.blocking, k)[j]) {
      assert Earlier(s, Waiting(s.blocking, k)[i], Waiting(s.blocking, k)[j]);
    }
  }

  lemma PutHeadValid(s: State, k: Key, ele: Blob, vector: seq<Blob>)
    requires Valid(s)
    ensures Valid(PutHead(s, k, ele, vector))
  {
    var t := PutHead(s, k, ele, vector);
    forall k: Key, i, j | 0 <= i < j < |Waiting(t.blocking, k)| ensures Earlier(t, Waiting(t.blocking, k)[i], Waiting(t.blocking, k)[j]) {
      assert Earlier(s, Waiting(s.blocking, k)[i], Waiting(s.blocking, k)[j]);
    }
  }

  lemma FirstWaits(s: State, key: Key)
    requires Valid(s) && Waiting(s.blocking, key) != []
    ensures Waiting(s.blocking, key)[0] in s.bpop && |Unblock(s, Waiting(s.blocking, key)[0]).bpop| < |s.bpop|
  {
    WaiterBlocked(s, key, Waiting(s.blocking, key)[0]);
    SizeDrops(s.bpop, Waiting(s.blocking, key)[0]);
  }

  /** Serving a push keeps the index, whatever chain of pushes it starts. */
  lemma {:induction false} ServeValid(s: State, key: Key, ele: Blob)
    requires Valid(s)
    ensures Valid(Serve(s, key, ele).s)
    decreases |s.bpop|, 0
  {
    hide Valid;
    var waiting := Waiting(s.blocking, key);
    if waiting != [] {
      FirstWaits(s, key);
      var c := waiting[0];
      var t := Unblock(s, c);
      UnblockValid(s, c);
      match s.bpop[c].target
      case None => AnswerValid(t, Popped(c, key, ele));
      case Some(dst) =>
        if CanTake(s, c) {
          HandlePushValid(t, c, dst, ele, [LPUSH, dst, ele]);
        } else {
          AnswerValid(t, WrongType(c));
          ServeValid(Answer(t, WrongType(c)), key, ele);
        }
    }
  }

  lemma {:induction false} HandlePushValid(s: State, c: ClientId, dst: Key, ele: Blob, vector: seq<Blob>)
    requires Valid(s)
    ensures Valid(HandlePush(s, c, dst, ele, vector))
    decreases |s.bpop|, 1
  {
    hide Valid;
    ServeValid(s, dst, ele);
    var r := Serve(s, dst, ele);
    PutHeadValid(r.s, dst, ele, vector);
    AnswerValid(if r.done then r.s else PutHead(r.s, dst, ele, vector), Moved(c, ele));
  }

  // ----- Where the element goes

  datatype Destination = Nowhere | ToClient(c: ClientId, key: Key) | ToList(key: Key)

  function PoppedIn(rs: seq<Reply>): seq<Reply> {
    if rs == [] then []
    else PoppedIn(rs[..|rs| - 1]) + (if rs[|rs| - 1].Popped? then [rs[|rs| - 1]] else [])
  }

  lemma PoppedAnswer(rs: seq<Reply>, r: Reply)
    ensures PoppedIn(rs + [r]) == PoppedIn(rs) + if r.Popped? then [r] else []
  {
    assert (rs + [r])[..|rs|] == rs;
  }

  /** Between the states the element has gone to the destination, and nowhere else. */
  ghost predicate Delivered(s: State, t: State, ele: Blob, d: Destination) {
    && t.db == (if d.ToList? then PushHead(s.db, d.key, ele) else s.db)
    && PoppedIn(t.replies) == PoppedIn(s.replies) + (if d.ToClient? then [Popped(d.c, d.key, ele)] else [])
    && (d.ToList? && d.key in s.db ==> s.db[d.key].ListObj?)
  }

  /** The command of the pushing client has become the push that was made, if one was made. */
  ghost predicate Rewritten(s: State, t: State, ele: Blob, d: Destination) {
    if d.ToList? then t.vector == [LPUSH, d.key, ele] && t.dirty == s.dirty + 1 else t.vector == s.vector && t.dirty == s.dirty
  }

  /** A push that is served gives the element to exactly one client that pops it, or puts it in exactly one list. */
  lemma {:induction false} ServeDelivers(s: State, key: Key, ele: Blob) returns (d: Destination)
    ensures Delivered(s, Serve(s, key, ele).s, ele, d) && Rewritten(s, Serve(s, key, ele).s, ele, d)
    ensures Serve(s, key, ele).done <==> d != Nowhere
    decreases |s.bpop|, 0
  {
    var waiting := Waiting(s.blocking, key);
    d := Nowhere;
    if waiting != [] && waiting[0] in s.bpop {
      var c := waiting[0];
      var t := Unblock(s, c);
      SizeDrops(s.bpop, c);
      match s.bpop[c].target
      case None =>
        PoppedAnswer(t.replies, Popped(c, key, ele));
        d := ToClient(c, key);
      case Some(dst) =>
        if CanTake(s, c) {
          d := HandlePushDelivers(t, c, dst, ele, [LPUSH, dst, ele]);
        } else {
          PoppedAnswer(t.replies, WrongType(c));
          d := ServeDelivers(Answer(t, WrongType(c)), key, ele);
        }
    }
  }

  lemma {:induction false} HandlePushDelivers(s: State, c: ClientId, dst: Key, ele: Blob, vector: seq<Blob>) returns (d: Destination)
    requires dst in s.db ==> s.db[dst].ListObj?
    ensures Delivered(s, HandlePush(s, c, dst, ele, vector), ele, d) && d != Nowhere
    ensures HandlePush(s, c, dst, ele, vector).vector
         == if Serve(s, dst, ele).done then (if d.ToList? then [LPUSH, d.key, ele] else s.vector) else vector
    ensures HandlePush(s, c, dst, ele, vector).dirty == s.dirty + if d.ToList? then 1 else 0
    ensures !Serve(s, dst, ele).done ==> d == ToList(dst)
    decreases |s.bpop|, 1
  {
    var r := Serve(s, dst, ele);
    d := ServeDelivers(s, dst, ele);
    PoppedAnswer(r.s.replies, Moved(c, ele));
    if !r.done {
      d := ToList(dst);
    }
  }

  // ----- Who is served

  /** A client that cannot take the element waits for this key only: unblocking it takes one entry off the list. */
  lemma SkipOne(s: State, key: Key)
    requires Valid(s) && Waiting(s.blocking, key) != [] && !CanTake(s, Waiting(s.blocking, key)[0])
    ensures Waiting(s.blocking, key)[0] in s.bpop
    ensures var c := Waiting(s.blocking, key)[0];
            var t := Answer(Unblock(s, c), WrongType(c));
            && Valid(t) && t.db == s.db && t.replies == s.replies + [WrongType(c)]
            && t.bpop == s.bpop - {c} && |t.bpop| < |s.bpop|
            && Waiting(t.blocking, key) == Waiting(s.blocking, key)[1..]
            && c !in Waiting(t.blocking, key)
            && forall ele :: Serve(s, key, ele) == Serve(t, key, ele)
  {
    var c := Waiting(s.blocking, key)[0];
    FirstWaits(s, key);
    WaiterBlocked(s, key, c);
    UnblockValid(s, c);
    var u := Unblock(s, c);
    AnswerValid(u, WrongType(c));
    var keys := s.bpop[c].keys;
    assert |keys| == 1 && keys[0] == key && keys[..0] == [];
    assert DropAll(s.blocking, keys, c) == Drop(DropAll(s.blocking, [], c), key, c);
    if c in Waiting(u.blocking, key) {
      WaiterBlocked(u, key, c);
    }
  }

  /** Replies are only ever added, and no client gets blocked. */
  lemma {:induction false} RepliesGrow(s: State, key: Key, ele: Blob)
    ensures s.replies <= Serve(s, key, ele).s.replies
    ensures forall c :: c in Serve(s, key, ele).s.bpop ==> c in s.bpop
    decreases |s.bpop|, 0
  {
    var waiting := Waiting(s.blocking, key);
    if waiting != [] && waiting[0] in s.bpop {
      var c := waiting[0];
      SizeDrops(s.bpop, c);
      match s.bpop[c].target
      case None =>
      case Some(dst) =>
        if CanTake(s, c) {
          RepliesGrow(Unblock(s, c), dst, ele);
        } else {
          RepliesGrow(Answer(Unblock(s, c), WrongType(c)), key, ele);
        }
    }
  }

  /** What a push has made the server answer. */
  function Answers(s: State, t: State): seq<Reply>
    requires s.replies <= t.replies
  {
    t.replies[|s.replies|..]
  }

  /** Those waiting before the first that can take the element are told that their target has the wrong type. */
  ghost predicate Turned(replies: seq<Reply>, waiting: seq<ClientId>, i: nat) {
    i <= |waiting| && i <= |replies| && forall j :: 0 <= j < i ==> replies[j] == WrongType(waiting[j])
  }

  function Received(s: State, c: ClientId, key: Key, ele: Blob): Reply
    requires c in s.bpop
  {
    if s.bpop[c].target == None then Popped(c, key, ele) else Moved(c, ele)
  }

  /** The answers of a push: the first `i` clients are turned away, and the last answer is the one given. */
  ghost predicate Outcome(s: State, u: State, waiting: seq<ClientId>, i: nat, last: Reply) {
    && i < |waiting| && s.replies <= u.replies
    && Turned(Answers(s, u), waiting, i) && i < |Answers(s, u)| && Answers(s, u)[|Answers(s, u)| - 1] == last
    && (last.Popped? ==> |Answers(s, u)| == i + 1)
    && forall j :: 0 <= j <= i ==> waiting[j] !in u.bpop
  }

  lemma CanTakeIs(s: State, c: ClientId)
    ensures CanTake(s, c) ==> c in s.bpop
  {}

  lemma ReceivedSame(s: State, t: State, c: ClientId, key: Key, ele: Blob)
    requires c in s.bpop && c in t.bpop && s.bpop[c] == t.bpop[c]
    ensures Received(s, c, key, ele) == Received(t, c, key, ele)
  {}

  lemma OutcomeNext(s: State, t: State, u: State, c: ClientId, waiting: seq<ClientId>, i: nat, last: Reply)
    requires Outcome(t, u, waiting, i, last) && t.replies == s.replies + [WrongType(c)] && c !in u.bpop
    ensures Outcome(s, u, [c] + waiting, i + 1, last)
  {
    AnswersAfter(s, t, u, WrongType(c));
    forall j | 0 <= j <= i + 1 ensures ([c] + waiting)[j] !in u.bpop {
      if j > 0 {
        assert ([c] + waiting)[j] == waiting[j - 1];
      }
    }
  }

  /**
   First come, first served: of the clients waiting for the key the first that can take the element gets it, which
   is the last answer given; those before it in the list are turned away.
   */
  lemma {:induction false} FirstComeFirstServed(s: State, key: Key, ele: Blob, i: nat)
    requires Valid(s) && i < |Waiting(s.blocking, key)| && CanTake(s, Waiting(s.blocking, key)[i])
    requires forall j :: 0 <= j < i ==> !CanTake(s, Waiting(s.blocking, key)[j])
    ensures Serve(s, key, ele).done
    ensures Outcome(s, Serve(s, key, ele).s, Waiting(s.blocking, key), i, Received(s, Waiting(s.blocking, key)[i], key, ele))
    decreases i
  {
    hide *;
    if i == 0 {
      FirstServed(s, key, ele);
    } else {
      var waiting := Waiting(s.blocking, key);
      var c := waiting[0];
      SkipOne(s, key);
      CanTakeIs(s, waiting[i]);
      var t := Answer(Unblock(s, c), WrongType(c));
      StillTake(s, t, c, waiting);
      assert waiting[1..][i - 1] == waiting[i];
      FirstComeFirstServed(t, key, ele, i - 1);
      RepliesGrow(t, key, ele);
      CanTakeIs(t, waiting[i]);
      ReceivedSame(s, t, waiting[i], key, ele);
      assert waiting == [c] + waiting[1..];
      OutcomeNext(s, t, Serve(t, key, ele).s, c, waiting[1..], i - 1, Received(s, waiting[i], key, ele));
    }
  }

  /**
   Of all blocked clients that wait for the key and can take the element, the one that gets it has been blocked the
   longest.
   */
  lemma ServedIsOldest(s: State, key: Key, ele: Blob, i: nat, d: ClientId)
    requires Valid(s) && i < |Waiting(s.blocking, key)| && CanTake(s, Waiting(s.blocking, key)[i])
    requires forall j :: 0 <= j < i ==> !CanTake(s, Waiting(s.blocking, key)[j])
    requires d in s.bpop && key in s.bpop[d].keys && CanTake(s, d)
    ensures var c := Waiting(s.blocking, key)[i];
            && Outcome(s, Serve(s, key, ele).s, Waiting(s.blocking, key), i, Received(s, c, key, ele))
            && (d == c || s.bpop[c].since < s.bpop[d].since)
  {
    FirstComeFirstServed(s, key, ele, i);
    var waiting := Waiting(s.blocking, key);
    BlockedWaits(s, key, d);
    var j :| 0 <= j < |waiting| && waiting[j] == d;
    if i < j {
      assert Earlier(s, waiting[i], waiting[j]);
    }
  }

  /** Who is blocked for a key waits in its list. */
  lemma BlockedWaits(s: State, k: Key, c: ClientId)
    requires Mirror(s) && c in s.bpop && k in s.bpop[c].keys
    ensures c in Waiting(s.blocking, k)
  {
    CountIn(Waiting(s.blocking, k), c);
    CountIn(KeysOf(s.bpop, c), k);
    assert Count(Waiting(s.blocking, k), c) == Count(KeysOf(s.bpop, c), k);
  }

  lemma FirstServed(s: State, key: Key, ele: Blob)
    requires Valid(s) && Waiting(s.blocking, key) != [] && CanTake(s, Waiting(s.blocking, key)[0])
    ensures Serve(s, key, ele).done
    ensures Outcome(s, Serve(s, key, ele).s, Waiting(s.blocking, key), 0, Received(s, Waiting(s.blocking, key)[0], key, ele))
  {
    var c := Waiting(s.blocking, key)[0];
    RepliesGrow(s, key, ele);
    FirstWaits(s, key);
    if s.bpop[c].target.Some? {
      RepliesGrow(Unblock(s, c), s.bpop[c].target.value, ele);
    }
  }

  lemma AnswersAfter(s: State, t: State, u: State, r: Reply)
    requires t.replies == s.replies + [r] && t.replies <= u.replies
    ensures s.replies <= u.replies && Answers(s, u) == [r] + Answers(t, u)
  {}

  /** All clients waiting have been turned away, and nothing else has happened. */
  ghost predicate AllTurned(s: State, u: State, waiting: seq<ClientId>) {
    && s.replies <= u.replies && Turned(Answers(s, u), waiting, |waiting|) && |Answers(s, u)| == |waiting|
    && u.db == s.db
  }

  lemma AllTurnedNext(s: State, t: State, u: State, c: ClientId, waiting: seq<ClientId>)
    requires AllTurned(t, u, waiting) && t.replies == s.replies + [WrongType(c)] && t.db == s.db
    ensures AllTurned(s, u, [c] + waiting)
  {
    AnswersAfter(s, t, u, WrongType(c));
  }

  /** When nobody can take the element all waiting clients are turned away, and the push goes on as usual. */
  lemma {:induction false} NobodyServed(s: State, key: Key, ele: Blob)
    requires Valid(s) && forall j :: 0 <= j < |Waiting(s.blocking, key)| ==> !CanTake(s, Waiting(s.blocking, key)[j])
    ensures !Serve(s, key, ele).done && AllTurned(s, Serve(s, key, ele).s, Waiting(s.blocking, key))
    ensures Waiting(Serve(s, key, ele).s.blocking, key) == []
    decreases |Waiting(s.blocking, key)|
  {
    var waiting := Waiting(s.blocking, key);
    if waiting != [] {
      hide *;
      var c := waiting[0];
      SkipOne(s, key);
      var t := Answer(Unblock(s, c), WrongType(c));
      StillTake(s, t, c, waiting);
      NobodyServed(t, key, ele);
      assert waiting == [c] + waiting[1..];
      AllTurnedNext(s, t, Serve(t, key, ele).s, c, waiting[1..]);
    }
  }

  /** Somebody takes the element exactly if one of those waiting can take it, which can be seen before the push. */
  lemma ServedExact(s: State, key: Key, ele: Blob)
    requires Valid(s)
    ensures Serve(s, key, ele).done <==> exists i :: 0 <= i < |Waiting(s.blocking, key)| && CanTake(s, Waiting(s.blocking, key)[i])
  {
    hide *;
    var waiting := Waiting(s.blocking, key);
    if exists i :: 0 <= i < |waiting| && CanTake(s, waiting[i]) {
      var i := FirstTaker(s, waiting);
      FirstComeFirstServed(s, key, ele, i);
    } else {
      NobodyServed(s, key, ele);
    }
  }

  lemma {:induction false} FirstTaker(s: State, waiting: seq<ClientId>) returns (i: nat)
    requires exists i :: 0 <= i < |waiting| && CanTake(s, waiting[i])
    ensures i < |waiting| && CanTake(s, waiting[i]) && forall j :: 0 <= j < i ==> !CanTake(s, waiting[j])
  {
    i := 0;
    while !CanTake(s, waiting[i])
      invariant i < |waiting| && forall j :: 0 <= j < i ==> !CanTake(s, waiting[j])
      invariant exists k :: i <= k < |waiting| && CanTake(s, waiting[k])
      decreases |waiting| - i
    {
      i := i + 1;
    }
  }

  /** Unblocking one client changes nothing for what the others can take. */
  lemma StillTake(s: State, t: State, c: ClientId, waiting: seq<ClientId>)
    requires t.db == s.db && t.bpop == s.bpop - {c} && waiting != [] && waiting[0] == c && c !in waiting[1..]
    ensures forall j :: 0 <= j < |waiting| - 1 ==> CanTake(t, waiting[1..][j]) == CanTake(s, waiting[j + 1])
  {
    forall j | 0 <= j < |waiting| - 1 ensures CanTake(t, waiting[1..][j]) == CanTake(s, waiting[j + 1]) {
      assert waiting[1..][j] == waiting[j + 1] != c;
    }
  }

  /** The position of the first key that is there. */
  function FirstPresent(db: map<Key, Obj>, keys: seq<Key>): (j: nat)
    ensures j <= |keys| && (j < |keys| ==> keys[j] in db) && forall i :: 0 <= i < j ==> keys[i] !in db
  {
    if keys == [] || keys[0] in db then 0 else 1 + FirstPresent(db, keys[1..])
  }

  lemma FirstPresentIs(db: map<Key, Obj>, keys: seq<Key>, j: nat)
    requires j <= |keys| && (j < |keys| ==> keys[j] in db) && forall i :: 0 <= i < j ==> keys[i] !in db
    ensures FirstPresent(db, keys) == j
  {}

  // ----- The server

  class Server {
    var db: map<Key, Obj>
    var blockingKeys: map<Key, seq<ClientId>>
    var bpop: map<ClientId, Bpop>
    var blockedClients: nat          // bpop_blocked_clients
    var replies: seq<Reply>
    var unblockedClients: seq<ClientId>
    var clock: nat
    var vector: seq<Blob>            // c->argv of the client whose command is being executed
    var dirty: nat

    ghost function Now(): State
      reads this
    {
      State(db, blockingKeys, bpop, replies, unblockedClients, clock, vector, dirty)
    }

    ghost predicate Ok()
      reads this
    {
      Valid(Now()) && blockedClients == |bpop|
    }

    constructor ()
      ensures Ok() && Filled(db) && Now() == State(map[], map[], map[], [], [], 0, [], 0)
    {
      db, blockingKeys, bpop, blockedClients, replies, unblockedClients, clock, vector, dirty := map[], map[], map[], 0, [], [], 0, [], 0;
    }

    /** blockForKeys. */
    method BlockForKeys(c: ClientId, keys: seq<Key>, target: Option<Key>)
      requires Ok() && c !in bpop && (target.Some? ==> |keys| == 1)
      modifies this
      ensures Ok() && Now() == Block(old(Now()), c, keys, target)
    {
      hide *;
      NowIs();
      BlockValid(Now(), c, keys, target);
      ghost var s := Now();
      var j := 0;
      BlockNone(blockingKeys, keys, c);
      while j < |keys|
        invariant 0 <= j <= |keys| && blockingKeys == BlockAll(old(blockingKeys), keys[..j], c)
        invariant db == old(db) && bpop == old(bpop) && replies == old(replies) && unblockedClients == old(unblockedClients)
        invariant clock == old(clock) && blockedClients == old(blockedClients) && vector == old(vector) && dirty == old(dirty)
      {
        BlockNext(old(blockingKeys), keys, j, c);
        WaitingIs(blockingKeys, keys[j]);
        var l := if keys[j] in blockingKeys then blockingKeys[keys[j]] else [];
        blockingKeys := blockingKeys[keys[j] := l + [c]];
        j := j + 1;
      }
      assert keys[..j] == keys;
      SizeGrows(bpop, c, Bpop(keys, target, clock));
      bpop := bpop[c := Bpop(keys, target, clock)];
      clock := clock + 1;
      blockedClients := blockedClients + 1;
      NowIs();
      BlockIs(s, c, keys, target);
    }

    /** unblockClientWaitingData; the list of every key it waits for is found, and the client in it. */
    method UnblockClientWaitingData(c: ClientId)
      requires Ok() && c in bpop
      modifies this
      ensures Ok() && Now() == Unblock(old(Now()), c)
    {
      hide *;
      NowIs();
      UnblockValid(Now(), c);
      ghost var s := Now();
      var keys := bpop[c].keys;
      var j := 0;
      DropNone(blockingKeys, keys, c);
      while j < |keys|
        invariant 0 <= j <= |keys| && blockingKeys == DropAll(old(blockingKeys), keys[..j], c)
        invariant db == old(db) && bpop == old(bpop) && replies == old(replies) && unblockedClients == old(unblockedClients)
        invariant clock == old(clock) && blockedClients == old(blockedClients) && vector == old(vector) && dirty == old(dirty)
      {
        DropNext(old(blockingKeys), keys, j, c);
        StillThere(s, c, j);
        DropOne(keys[j], c);
        j := j + 1;
      }
      assert keys[..j] == keys;
      SizeDropsOne(bpop, c);
      bpop := bpop - {c};
      blockedClients := blockedClients - 1;
      unblockedClients := unblockedClients + [c];
      NowIs();
      UnblockIs(s, c);
    }

    /** One key of unblockClientWaitingData. */
    method DropOne(k: Key, c: ClientId)
      requires k in blockingKeys && c in blockingKeys[k]
      modifies this`blockingKeys
      ensures blockingKeys == Drop(old(blockingKeys), k, c)
    {
      var l := RemoveFirst(blockingKeys[k], c);
      blockingKeys := if l == [] then blockingKeys - {k} else blockingKeys[k := l];
    }

    /**
     pushGenericCommand. A client that moves what it gets may rewrite the command under way, which shortens the loop;
     the key is never there already when the list is added.
     */
    method PushGenericCommand(c: ClientId, head: bool)
      requires Ok() && Filled(db) && c !in bpop && |vector| >= 3
      modifies this
      ensures Ok() && Filled(db)
      ensures var key, eles := old(vector[1]), old(vector[2..]);
              Now() == if old(vector[1] in db && db[vector[1]].OtherObj?) then Answer(old(Now()), WrongType(c))
                       else var p := PushMany(old(Now()), key, eles, head); Answer(p.s, Length(c, p.n))
    {
      hide *;
      NowIs();
      var key := vector[1];
      if key in db && db[key].OtherObj? {
        Respond(WrongType(c));
        return;
      }
      ghost var s, eles, stopped := Now(), vector[2..], false;
      var mayHaveWaitingClients, addlen, pushed, j := key !in db, 0, 0, 2;
      PushingStarts(s, key, eles, head);
      while j < |vector|
        invariant 2 <= j && Ok() && Filled(db) && c !in bpop
        invariant stopped ==> Stopped(s, Now(), key, eles, addlen) && mayHaveWaitingClients && pushed == 0 && |vector| <= j
        invariant !stopped ==> vector == s.vector && j <= |vector| && Pushing(s, Now(), key, eles, head, j - 2, addlen, pushed, mayHaveWaitingClients)
        decreases if stopped then 0 else |s.vector| - j
      {
        ghost var before, may := Now(), mayHaveWaitingClients;
        NowIs();
        assert eles[j - 2] == vector[j];
        ListIsThere(s, before, key, eles, head, j - 2, addlen, pushed, may);
        if mayHaveWaitingClients {
          var served := Offer(c, key, vector[j]);
          NowIs();
          if served {
            PushingServed(s, before, key, eles, head, j - 2, addlen, pushed);
            stopped := db != before.db;
            addlen, j := addlen + 1, j + 1;
            continue;
          }
          mayHaveWaitingClients := false;
          PushingTurns(s, before, key, eles, head, j - 2, addlen, pushed);
        }
        PushingOne(s, before, Now(), key, eles, head, j - 2, addlen, pushed, may);
        ListTypePush(key, vector[j], head);
        pushed, j := pushed + 1, j + 1;
      }
      PushEnds(c, s, key, eles, head, addlen, pushed, mayHaveWaitingClients, stopped);
    }

    /** The answer of pushGenericCommand, after its loop. */
    method PushEnds(c: ClientId, ghost s: State, key: Key, ghost eles: seq<Blob>, ghost head: bool, addlen: nat, pushed: nat, may: bool, ghost stopped: bool)
      requires Ok()
      requires stopped ==> Stopped(s, Now(), key, eles, addlen) && may && pushed == 0
      requires !stopped ==> Pushing(s, Now(), key, eles, head, |eles|, addlen, pushed, may)
      modifies this
      ensures Ok() && db == old(db)
      ensures var p := PushMany(s, key, eles, head); Now() == Answer(p.s, Length(c, p.n))
    {
      hide *;
      NowIs();
      if stopped {
        PushingStops(s, Now(), key, eles, head, addlen);
      } else {
        PushingEnds(s, Now(), key, eles, head, addlen, pushed, may);
      }
      ListAtIs(db, key);
      AddDirty(pushed);
      Respond(Length(c, addlen + if may then 0 else |ListAt(db, key)|));
    }

    /** blockingPopGenericCommand, outside MULTI: the first key that holds a list is popped; otherwise the client blocks. */
    method BlockingPopGenericCommand(c: ClientId, keys: seq<Key>, head: bool)
      requires Ok() && Filled(db) && c !in bpop
      modifies this
      ensures Ok() && Filled(db)
      ensures var j := FirstPresent(old(db), keys);
              Now() == if j == |keys| then Block(old(Now()), c, keys, None)
                       else if old(db)[keys[j]].OtherObj? then Answer(old(Now()), WrongType(c))
                       else Pop(old(Now()), c, keys[j], head)
    {
      hide *;
      NowIs();
      var j := 0;
      while j < |keys|
        invariant 0 <= j <= |keys| && forall i :: 0 <= i < j ==> keys[i] !in db
      {
        if keys[j] in db {
          FirstPresentIs(db, keys, j);
          if db[keys[j]].OtherObj? {
            Respond(WrongType(c));
          } else {
            PopGenericCommand(c, keys[j], head);
          }
          return;
        }
        j := j + 1;
      }
      FirstPresentIs(db, keys, j);
      BlockForKeys(c, keys, None);
      BlockKeepsDb(old(Now()), c, keys);
    }

    /** addReply of a whole answer. */
    method Respond(r: Reply)
      requires Ok()
      modifies this
      ensures Ok() && db == old(db) && Now() == Answer(old(Now()), r)
    {
      AnswerValid(Now(), r);
      AddReply(r);
    }

    lemma BlockKeepsDb(s: State, c: ClientId, keys: seq<Key>)
      requires Now() == Block(s, c, keys, None)
      ensures db == s.db
    {}

    /** popGenericCommand on a key that holds a list. */
    method PopGenericCommand(c: ClientId, key: Key, head: bool)
      requires Ok() && Filled(db) && key in db && db[key].ListObj?
      modifies this
      ensures Ok() && Filled(db) && Now() == Pop(old(Now()), c, key, head)
    {
      hide Valid;
      var xs := db[key].xs;
      var value := if head then xs[0] else xs[|xs| - 1];
      xs := if head then xs[1..] else xs[..|xs| - 1];
      DbValid(Now(), PutList(db, key, xs));
      db := if xs == [] then db - {key} else db[key := ListObj(xs)];
      DirtyValid(Now(), dirty + 1);
      dirty := dirty + 1;
      AnswerValid(Now(), Popped(c, key, value));
      AddReply(Popped(c, key, value));
    }

    /** brpoplpushCommand, outside MULTI. */
    method BrpoplpushCommand(c: ClientId)
      requires Ok() && Filled(db) && c !in bpop && |vector| >= 3
      modifies this
      ensures Ok() && Filled(db)
      ensures old(vector[1] !in db) ==> Now() == Block(old(Now()), c, [old(vector[1])], Some(old(vector[2])))
      ensures old(vector[1] in db && (db[vector[1]].OtherObj? || (vector[2] in db && db[vector[2]].OtherObj?)))
              ==> Now() == Answer(old(Now()), WrongType(c))
      ensures old(vector[1] in db && db[vector[1]].ListObj? && (vector[2] in db ==> db[vector[2]].ListObj?))
              ==> Now() == MoveOn(old(Now()), c, old(vector[1]), old(vector[2]))
    {
      var src := vector[1];
      if src !in db {
        BlockForKeys(c, [src], Some(vector[2]));
      } else if db[src].OtherObj? {
        AnswerValid(Now(), WrongType(c));
        AddReply(WrongType(c));
      } else {
        RpoplpushCommand(c);
      }
    }

    /** rpoplpushCommand on a source that holds a list. */
    method RpoplpushCommand(c: ClientId)
      requires Ok() && Filled(db) && c !in bpop && |vector| >= 3 && vector[1] in db && db[vector[1]].ListObj?
      modifies this
      ensures Ok() && Filled(db)
      ensures old(vector[2] in db && db[vector[2]].OtherObj?) ==> Now() == Answer(old(Now()), WrongType(c))
      ensures !old(vector[2] in db && db[vector[2]].OtherObj?) ==> Now() == MoveOn(old(Now()), c, old(vector[1]), old(vector[2]))
    {
      hide *;
      NowIs();
      var src, dst := vector[1], vector[2];
      if dst in db && db[dst].OtherObj? {
        Respond(WrongType(c));
        return;
      }
      ghost var s := Now();
      FilledAt(db, src);
      var xs := db[src].xs;
      var value := xs[|xs| - 1];
      StoreList(src, xs[..|xs| - 1]);
      NowIs();
      ghost var t := Now();
      WithDb(s, src, xs[..|xs| - 1]);
      RewritingIs(c, dst, value);
      ghost var d := HandlePushDelivers(t, c, dst, value, [RPOPLPUSH, src, dst]);
      RpoplpushHandlePush(c, c, dst, if dst in db then Some(db[dst]) else None, value);
      NowIs();
      MoveOnIs(s, c, src, dst);
      MoveFilled(s.db, t, Now(), src, value, d);
      TrimIs(db, src);
      if ListAt(db, src) == [] {
        DbDelete(src);
      }
      AddDirty(1);
    }

    /** An element is offered to the clients waiting for the key; putting it in a list rewrites the command. */
    method Offer(c: ClientId, key: Key, ele: Blob) returns (served: bool)
      requires Ok() && Filled(db) && c !in bpop
      modifies this
      ensures Ok() && Filled(db) && c !in bpop && Served(Now(), served) == Serve(old(Now()), key, ele)
      ensures if db == old(db) then vector == old(vector) else served && |vector| == 3
    {
      hide *;
      ghost var before := Now();
      NowIs();
      ghost var d := ServeDelivers(before, key, ele);
      ServeKeepsOut(before, key, ele, c);
      served := HandleClientsWaitingListPush(c, key, ele);
      NowIs();
      KeepsFilled(before, Now(), ele, d);
      StopsWhenListed(before, Now(), ele, d);
    }

    /** listTypePush, on a list that is created when it is not there. */
    method ListTypePush(key: Key, ele: Blob, head: bool)
      requires Ok() && Filled(db) && (key in db ==> db[key].ListObj?)
      modifies this
      ensures Ok() && Filled(db) && vector == old(vector) && bpop == old(bpop)
      ensures var xs := if old(key in db) then old(db[key].xs) else [];
              Now() == With(old(Now()), key, if head then [ele] + xs else xs + [ele])
    {
      hide *;
      var lobj := if key in db then db[key].xs else [];
      lobj := if head then [ele] + lobj else lobj + [ele];
      FilledWith(db, key, lobj);
      StoreList(key, lobj);
    }

    /** The list at a key becomes `xs`. */
    method StoreList(key: Key, xs: seq<Blob>)
      requires Ok()
      modifies this
      ensures Ok() && Now() == With(old(Now()), key, xs) && db == old(db)[key := ListObj(xs)] && vector == old(vector) && bpop == old(bpop)
    {
      DbValid(Now(), db[key := ListObj(xs)]);
      db := db[key := ListObj(xs)];
    }

    /** dbDelete. */
    method DbDelete(key: Key)
      requires Ok()
      modifies this
      ensures Ok() && Now() == (var was := old(Now()); was.(db := was.db - {key})) && db == old(db) - {key}
    {
      DbValid(Now(), db - {key});
      db := db - {key};
    }

    method AddDirty(n: nat)
      requires Ok()
      modifies this
      ensures Ok() && Now() == (var was := old(Now()); was.(dirty := was.dirty + n)) && db == old(db)
    {
      DirtyValid(Now(), dirty + n);
      dirty := dirty + n;
    }

    lemma RewritingIs(c: ClientId, dstkey: Key, value: Blob)
      requires |vector| >= 3
      ensures Rewriting(c, c, dstkey, value) == [RPOPLPUSH, vector[1], vector[2]]
    {}

    /** The timeout of a blocked client (closeTimedoutClients). */
    method Timeout(c: ClientId)
      requires Ok() && c in bpop
      modifies this
      ensures Ok() && Now() == Unblock(Answer(old(Now()), Null(c)), c)
    {
      AnswerValid(Now(), Null(c));
      AddReply(Null(c));
      UnblockClientWaitingData(c);
    }

    lemma NowIs()
      ensures Now() == State(db, blockingKeys, bpop, replies, unblockedClients, clock, vector, dirty)
      ensures Ok() <==> Valid(Now()) && blockedClients == |bpop|
    {}

    method AddReply(r: Reply)
      modifies this`replies
      ensures replies == old(replies) + [r]
    {
      replies := replies + [r];
    }

    /** handleClientsWaitingListPush. */
    method HandleClientsWaitingListPush(origclient: ClientId, key: Key, ele: Blob) returns (served: bool)
      requires Ok() && origclient !in bpop
      modifies this
      ensures Ok() && Served(Now(), served) == Serve(old(Now()), key, ele)
      decreases |bpop|, 0
    {
      hide Valid;
      if key !in blockingKeys {
        return false;
      }
      var numclients := |blockingKeys[key]|;
      while numclients > 0
        invariant Ok() && origclient !in bpop && numclients == |Waiting(blockingKeys, key)| && |bpop| <= |old(bpop)|
        invariant Serve(Now(), key, ele) == Serve(old(Now()), key, ele)
        decreases numclients
      {
        ghost var s := Now();
        NotEmpty(s, key);
        numclients := numclients - 1;
        var receiver := blockingKeys[key][0];
        FirstWaits(s, key);
        var dstkey := bpop[receiver].target;
        UnblockClientWaitingData(receiver);
        match dstkey
        case None =>
          AddReply(Popped(receiver, key, ele));
          AnswerValid(Unblock(s, receiver), Popped(receiver, key, ele));
          return true;
        case Some(dst) =>
          var dstobj := if dst in db then Some(db[dst]) else None;
          if !(dstobj.Some? && dstobj.value.OtherObj?) {
            RpoplpushHandlePush(origclient, receiver, dst, dstobj, ele);
            return true;
          }
          AddReply(WrongType(receiver));
          SkipOne(s, key);
      }
      return false;
    }

    /** The arguments rpoplpushHandlePush gives the command of the pushing client. */
    ghost function Rewriting(origclient: ClientId, c: ClientId, dstkey: Key, value: Blob): seq<Blob>
      reads this
      requires c == origclient ==> |vector| >= 3
    {
      if c != origclient then [LPUSH, dstkey, value] else [RPOPLPUSH, vector[1], vector[2]]
    }

    /** rpoplpushHandlePush; `origclient` is the client whose command is being executed. */
    method RpoplpushHandlePush(origclient: ClientId, c: ClientId, dstkey: Key, dstobj: Option<Obj>, value: Blob)
      requires Ok() && origclient !in bpop && (c == origclient ==> |vector| >= 3)
      requires dstobj == (if dstkey in db then Some(db[dstkey]) else None) && (dstobj.Some? ==> dstobj.value.ListObj?)
      modifies this
      ensures Ok() && Now() == HandlePush(old(Now()), c, dstkey, value, old(Rewriting(origclient, c, dstkey, value)))
      decreases |bpop|, 1
    {
      hide Valid;
      ghost var s := Now();
      ghost var rewriting := Rewriting(origclient, c, dstkey, value);
      HandlePushValid(s, c, dstkey, value, rewriting);
      ghost var d := ServeDelivers(s, dstkey, value);
      var served := HandleClientsWaitingListPush(origclient, dstkey, value);
      if !served {
        var xs := match dstobj case None => [] case Some(o) => o.xs;
        db := db[dstkey := ListObj([value] + xs)];
        vector := if c != origclient then [LPUSH, dstkey, value] else [RPOPLPUSH, vector[1], vector[2]];
        dirty := dirty + 1;
      }
      AddReply(Moved(c, value));
    }
  }

  lemma BlockNone(blocking: map<Key, seq<ClientId>>, keys: seq<Key>, c: ClientId)
    ensures BlockAll(blocking, keys[..0], c) == blocking
  {}

  lemma BlockNext(blocking: map<Key, seq<ClientId>>, keys: seq<Key>, j: nat, c: ClientId)
    requires j < |keys|
    ensures var b := BlockAll(blocking, keys[..j], c);
            BlockAll(blocking, keys[..j + 1], c) == b[keys[j] := Waiting(b, keys[j]) + [c]]
  {
    assert keys[..j + 1][..j] == keys[..j];
  }

  lemma WaitingIs(blocking: map<Key, seq<ClientId>>, k: Key)
    ensures Waiting(blocking, k) == if k in blocking then blocking[k] else []
  {}

  lemma BlockIs(s: State, c: ClientId, keys: seq<Key>, target: Option<Key>)
    ensures Block(s, c, keys, target)
         == State(s.db, BlockAll(s.blocking, keys, c), s.bpop[c := Bpop(keys, target, s.clock)], s.replies, s.unblocked, s.clock + 1, s.vector, s.dirty)
  {}

  lemma DropNone(blocking: map<Key, seq<ClientId>>, keys: seq<Key>, c: ClientId)
    ensures DropAll(blocking, keys[..0], c) == blocking
  {}

  lemma DropNext(blocking: map<Key, seq<ClientId>>, keys: seq<Key>, j: nat, c: ClientId)
    requires j < |keys|
    ensures DropAll(blocking, keys[..j + 1], c) == Drop(DropAll(blocking, keys[..j], c), keys[j], c)
  {
    assert keys[..j + 1][..j] == keys[..j];
  }

  lemma UnblockIs(s: State, c: ClientId)
    requires c in s.bpop
    ensures Unblock(s, c) == State(s.db, DropAll(s.blocking, s.bpop[c].keys, c), s.bpop - {c}, s.replies, s.unblocked + [c], s.clock, s.vector, s.dirty)
  {}

  /** The state of the list of a key, as the commands change it. */
  function ListAt(db: map<Key, Obj>, k: Key): seq<Blob> {
    if k in db && db[k].ListObj? then db[k].xs else []
  }

  function PutList(db: map<Key, Obj>, k: Key, xs: seq<Blob>): map<Key, Obj> {
    if xs == [] then db - {k} else db[k := ListObj(xs)]
  }

  /** A push of one element by a client, on a key that holds a list or nothing: waiting clients come first. */
  function Push(s: State, key: Key, ele: Blob, head: bool): State {
    var xs := ListAt(s.db, key);
    if key !in s.db && Serve(s, key, ele).done then Serve(s, key, ele).s
    else
      var t := if key in s.db then s else Serve(s, key, ele).s;
      t.(db := t.db[key := ListObj(if head then [ele] + xs else xs + [ele])], dirty := t.dirty + 1)
  }

  /** An element pushed on a key that is not there ends in exactly one list, or with exactly one client. */
  lemma PushDelivers(s: State, key: Key, ele: Blob, head: bool) returns (d: Destination)
    requires key !in s.db
    ensures d != Nowhere && Delivered(s, Push(s, key, ele, head), ele, d)
    ensures d == ToList(key) || Serve(s, key, ele).done
  {
    d := ServeDelivers(s, key, ele);
    if !Serve(s, key, ele).done {
      d := ToList(key);
      assert [] + [ele] == [ele] + [];
    }
  }

  /**
   How many of the elements are taken by waiting clients, one after the other, and the state after that. The one that
   ends in a list is the last, since the command is rewritten to a push of that element alone.
   */
  datatype Taken = Taken(s: State, n: nat, stopped: bool)

  function TakeMany(s: State, key: Key, eles: seq<Blob>): (m: Taken)
    ensures m.n <= |eles| && (m.stopped ==> m.n > 0)
    decreases |eles|
  {
    if eles == [] then Taken(s, 0, false)
    else
      var r := Serve(s, key, eles[0]);
      if !r.done then Taken(r.s, 0, false)
      else if r.s.db != s.db then Taken(r.s, 1, true)
      else var m := TakeMany(r.s, key, eles[1..]); Taken(m.s, m.n + 1, m.stopped)
  }

  /** A list after pushes at one of its ends. */
  function PushAll(xs: seq<Blob>, eles: seq<Blob>, head: bool): (r: seq<Blob>)
    ensures |r| == |xs| + |eles|
  {
    if eles == [] then xs
    else
      var r := PushAll(xs, eles[..|eles| - 1], head);
      if head then [eles[|eles| - 1]] + r else r + [eles[|eles| - 1]]
  }

  /** A push of several elements: the state, the number answered, and the elements that are never looked at. */
  datatype Pushed = Pushed(s: State, n: nat, lost: seq<Blob>)

  function PushMany(s: State, key: Key, eles: seq<Blob>, head: bool): Pushed {
    if key in s.db then
      var xs := PushAll(ListAt(s.db, key), eles, head);
      Pushed(With(s, key, xs).(dirty := s.dirty + |eles|), |xs|, [])
    else
      var m := TakeMany(s, key, eles);
      if m.stopped || m.n == |eles| then Pushed(m.s, m.n, eles[m.n..])
      else
        Pushed(With(m.s, key, PushAll([], eles[m.n..], head)).(dirty := m.s.dirty + |eles| - m.n), |eles|, [])
  }

  /** A push of one element is never cut short. */
  lemma OneElement(s: State, key: Key, ele: Blob, head: bool)
    ensures PushMany(s, key, [ele], head).s == Push(s, key, ele, head) && PushMany(s, key, [ele], head).lost == []
  {
    hide Serve, PushAll;
    var d := ServeDelivers(s, key, ele);
    var r := Serve(s, key, ele);
    assert [ele][1..] == [] && [ele][0..] == [ele];
    assert TakeMany(r.s, key, []) == Taken(r.s, 0, false);
    PushAllSingle(ListAt(s.db, key), ele, head);
    PushAllSingle([], ele, head);
  }

  lemma PushAllSingle(xs: seq<Blob>, ele: Blob, head: bool)
    ensures PushAll(xs, [ele], head) == if head then [ele] + xs else xs + [ele]
  {
    assert [ele][..0] == [];
  }

  /** As long as no element has ended in a list, no list has changed. */
  lemma {:induction false} TakenKeepsDb(s: State, key: Key, eles: seq<Blob>)
    ensures var m := TakeMany(s, key, eles);
            !m.stopped ==> m.s.db == s.db && m.s.vector == s.vector && m.s.dirty == s.dirty
    decreases |eles|
  {
    if eles != [] {
      var r := Serve(s, key, eles[0]);
      var d := ServeDelivers(s, key, eles[0]);
      if d.ToList? {
        HeadGrows(s.db, d.key, eles[0]);
      } else if r.done {
        TakenKeepsDb(r.s, key, eles[1..]);
      }
    }
  }

  lemma HeadGrows(db: map<Key, Obj>, k: Key, ele: Blob)
    requires k in db ==> db[k].ListObj?
    ensures PushHead(db, k, ele) != db
  {
    if k in db {
      assert |PushHead(db, k, ele)[k].xs| == |db[k].xs| + 1;
    }
  }

  /** Where the loop of pushGenericCommand stands, `j` elements being done and the command not having been rewritten. */
  ghost predicate Pushing(s: State, now: State, key: Key, eles: seq<Blob>, head: bool, j: nat, addlen: nat, pushed: nat, may: bool) {
    && j <= |eles|
    && if may then
         && key !in s.db && addlen == j && pushed == 0 && now.db == s.db
         && var m := TakeMany(now, key, eles[j..]);
            TakeMany(s, key, eles) == Taken(m.s, j + m.n, m.stopped)
       else if key in s.db then
         addlen == 0 && pushed == j && now == s.(db := s.db[key := ListObj(PushAll(ListAt(s.db, key), eles[..j], head))])
       else
         var m := TakeMany(s, key, eles);
         && !m.stopped && addlen == m.n < j && key !in m.s.db && pushed == j - m.n
         && now == m.s.(db := m.s.db[key := ListObj(PushAll([], eles[m.n..j], head))])
  }

  /** An element has ended in a list. */
  ghost predicate Stopped(s: State, now: State, key: Key, eles: seq<Blob>, addlen: nat) {
    key !in s.db && TakeMany(s, key, eles) == Taken(now, addlen, true)
  }

  lemma PushingStarts(s: State, key: Key, eles: seq<Blob>, head: bool)
    requires key in s.db ==> s.db[key].ListObj?
    ensures Pushing(s, s, key, eles, head, 0, 0, 0, key !in s.db)
  {
    assert eles[0..] == eles && eles[..0] == [];
    assert key in s.db ==> s.db[key := ListObj(ListAt(s.db, key))] == s.db;
  }

  lemma ListIsThere(s: State, now: State, key: Key, eles: seq<Blob>, head: bool, j: nat, addlen: nat, pushed: nat, may: bool)
    requires Pushing(s, now, key, eles, head, j, addlen, pushed, may)
    ensures !may ==> key in now.db && now.db[key].ListObj?
  {}

  lemma KeepsFilled(s: State, t: State, ele: Blob, d: Destination)
    requires Delivered(s, t, ele, d) && Filled(s.db)
    ensures Filled(t.db) && (d == Nowhere ==> t.db == s.db)
  {}

  /** The command is rewritten exactly when the element ends in a list. */
  lemma StopsWhenListed(s: State, t: State, ele: Blob, d: Destination)
    requires Delivered(s, t, ele, d) && Rewritten(s, t, ele, d)
    ensures if t.db == s.db then t.vector == s.vector else |t.vector| == 3
  {
    if d.ToList? {
      HeadGrows(s.db, d.key, ele);
    }
  }

  /** A client that was not blocked is not blocked by a push either. */
  lemma ServeKeepsOut(s: State, key: Key, ele: Blob, c: ClientId)
    requires c !in s.bpop
    ensures c !in Serve(s, key, ele).s.bpop
  {
    RepliesGrow(s, key, ele);
  }

  lemma PushingServed(s: State, now: State, key: Key, eles: seq<Blob>, head: bool, j: nat, addlen: nat, pushed: nat)
    requires Pushing(s, now, key, eles, head, j, addlen, pushed, true) && j < |eles| && Serve(now, key, eles[j]).done
    ensures pushed == 0
    ensures var t := Serve(now, key, eles[j]).s;
            if t.db == now.db then Pushing(s, t, key, eles, head, j + 1, addlen + 1, pushed, true) else Stopped(s, t, key, eles, addlen + 1)
  {
    assert eles[j..][1..] == eles[j + 1..];
  }

  /** The first element that nobody takes. */
  lemma PushingTurns(s: State, now: State, key: Key, eles: seq<Blob>, head: bool, j: nat, addlen: nat, pushed: nat)
    requires Pushing(s, now, key, eles, head, j, addlen, pushed, true) && j < |eles| && !Serve(now, key, eles[j]).done
    ensures TakeMany(s, key, eles) == Taken(Serve(now, key, eles[j]).s, j, false) && key !in s.db && addlen == j
    ensures key !in Serve(now, key, eles[j]).s.db
  {
    var d := ServeDelivers(now, key, eles[j]);
    assert eles[j..][0] == eles[j];
  }

  function With(s: State, key: Key, xs: seq<Blob>): State {
    s.(db := s.db[key := ListObj(xs)])
  }

  lemma WithDb(s: State, key: Key, xs: seq<Blob>)
    ensures With(s, key, xs).db == s.db[key := ListObj(xs)]
  {}

  lemma PushAllOne(xs: seq<Blob>, eles: seq<Blob>, n: nat, j: nat, head: bool)
    requires n <= j < |eles|
    ensures var r := PushAll(xs, eles[n..j], head);
            PushAll(xs, eles[n..j + 1], head) == if head then [eles[j]] + r else r + [eles[j]]
  {
    assert eles[n..j + 1][..j - n] == eles[n..j];
  }

  lemma WithWith(s: State, key: Key, xs: seq<Blob>, ys: seq<Blob>)
    ensures With(With(s, key, xs), key, ys) == With(s, key, ys)
  {
    assert s.db[key := ListObj(xs)][key := ListObj(ys)] == s.db[key := ListObj(ys)];
  }

  /** One element more on the list. */
  lemma PushingOne(s: State, before: State, now: State, key: Key, eles: seq<Blob>, head: bool, j: nat, addlen: nat, pushed: nat, may: bool)
    requires Pushing(s, before, key, eles, head, j, addlen, pushed, may) && j < |eles|
    requires if may then TakeMany(s, key, eles) == Taken(now, j, false) && key !in now.db && key !in s.db && addlen == j else now == before
    ensures key in now.db ==> now.db[key].ListObj?
    ensures var xs := if key in now.db then now.db[key].xs else [];
            Pushing(s, With(now, key, if head then [eles[j]] + xs else xs + [eles[j]]), key, eles, head, j + 1, addlen, pushed + 1, false)
  {
    hide TakeMany, PushAll, Serve;
    if may {
      PushAllNone(eles, j, head);
      PushAllOne([], eles, j, j, head);
    } else if key in s.db {
      assert eles[0..j] == eles[..j] && eles[0..j + 1] == eles[..j + 1];
      var xs := ListAt(s.db, key);
      PushAllOne(xs, eles, 0, j, head);
      WithWith(s, key, PushAll(xs, eles[..j], head), PushAll(xs, eles[..j + 1], head));
    } else {
      var m := TakeMany(s, key, eles);
      PushAllOne([], eles, m.n, j, head);
      WithWith(m.s, key, PushAll([], eles[m.n..j], head), PushAll([], eles[m.n..j + 1], head));
    }
  }

  lemma PushAllNone(eles: seq<Blob>, j: nat, head: bool)
    requires j <= |eles|
    ensures PushAll([], eles[j..j], head) == []
  {}

  lemma PushingEnds(s: State, now: State, key: Key, eles: seq<Blob>, head: bool, addlen: nat, pushed: nat, may: bool)
    requires Pushing(s, now, key, eles, head, |eles|, addlen, pushed, may)
    ensures var p := PushMany(s, key, eles, head);
            p.s == now.(dirty := now.dirty + pushed) && p.n == addlen + if may then 0 else |ListAt(now.db, key)|
  {
    assert eles[|eles|..] == [] && eles[..|eles|] == eles;
    assert forall n :: 0 <= n <= |eles| ==> eles[n..|eles|] == eles[n..];
  }

  lemma PushingStops(s: State, now: State, key: Key, eles: seq<Blob>, head: bool, addlen: nat)
    requires Stopped(s, now, key, eles, addlen)
    ensures PushMany(s, key, eles, head).s == now.(dirty := now.dirty + 0) && PushMany(s, key, eles, head).n == addlen
  {}

  // ----- What becomes of the elements

  ghost function PickKey(db: map<Key, Obj>): (k: Key)
    requires db != map[]
    ensures k in db
  {
    var k :| k in db;
    k
  }

  /** The elements of all lists. */
  ghost function Elements(db: map<Key, Obj>): multiset<Blob>
    decreases |db|
  {
    if db == map[] then multiset{}
    else
      var k := PickKey(db);
      assert db.Keys == (db - {k}).Keys + {k} && |(db - {k}).Keys| == |db - {k}|;
      multiset(ListAt(db, k)) + Elements(db - {k})
  }

  /** The elements handed to clients. */
  ghost function Given(popped: seq<Reply>): multiset<Blob> {
    if popped == [] then multiset{}
    else Given(popped[..|popped| - 1]) + (match popped[|popped| - 1] case Popped(_, _, ele) => multiset{ele} case _ => multiset{})
  }

  /** All elements that are in a list or have been handed to a client. */
  ghost function Held(s: State): multiset<Blob> {
    Elements(s.db) + Given(PoppedIn(s.replies))
  }

  lemma {:induction false} ElementsWithout(db: map<Key, Obj>, k: Key)
    requires k in db
    ensures Elements(db) == multiset(ListAt(db, k)) + Elements(db - {k})
    decreases |db|
  {
    var k0 := PickKey(db);
    ElementsStep(db);
    KeysDrop(db, k);
    if k != k0 {
      hide Elements;
      ElementsWithout(db - {k0}, k);
      ElementsWithout(db - {k}, k0);
      assert db - {k0} - {k} == db - {k} - {k0};
      assert ListAt(db - {k0}, k) == ListAt(db, k) && ListAt(db - {k}, k0) == ListAt(db, k0);
    }
  }

  lemma ElementsStep(db: map<Key, Obj>)
    requires db != map[]
    ensures var k := PickKey(db); Elements(db) == multiset(ListAt(db, k)) + Elements(db - {k}) && |db - {k}| < |db|
  {
    KeysDrop(db, PickKey(db));
  }

  lemma KeysDrop(db: map<Key, Obj>, k: Key)
    requires k in db
    ensures |db - {k}| < |db|
  {
    assert db.Keys == (db - {k}).Keys + {k} && |(db - {k}).Keys| == |db - {k}|;
  }

  lemma ElementsWith(db: map<Key, Obj>, k: Key, xs: seq<Blob>)
    ensures Elements(db[k := ListObj(xs)]) + multiset(ListAt(db, k)) == Elements(db) + multiset(xs)
  {
    hide Elements;
    var db' := db[k := ListObj(xs)];
    ElementsWithout(db', k);
    if k in db {
      ElementsWithout(db, k);
      assert db' - {k} == db - {k};
    } else {
      assert db' - {k} == db;
    }
  }

  lemma GivenOne(popped: seq<Reply>, c: ClientId, key: Key, ele: Blob)
    ensures Given(popped + [Popped(c, key, ele)]) == Given(popped) + multiset{ele}
  {
    assert (popped + [Popped(c, key, ele)])[..|popped|] == popped;
  }

  lemma DeliveredHeld(s: State, t: State, ele: Blob, d: Destination)
    requires Delivered(s, t, ele, d)
    ensures Held(t) == Held(s) + if d == Nowhere then multiset{} else multiset{ele}
  {
    hide Elements, Given, PoppedIn;
    assert PoppedIn(s.replies) + [] == PoppedIn(s.replies);
    match d
    case Nowhere =>
    case ToClient(c, key) => GivenOne(PoppedIn(s.replies), c, key, ele);
    case ToList(key) =>
      HeadElements(s.db, key, ele);
  }

  lemma HeadElements(db: map<Key, Obj>, k: Key, ele: Blob)
    requires k in db ==> db[k].ListObj?
    ensures Elements(PushHead(db, k, ele)) == Elements(db) + multiset{ele}
  {
    hide Elements;
    var xs := ListAt(db, k);
    ElementsWith(db, k, [ele] + xs);
    Cancel(Elements(PushHead(db, k, ele)), Elements(db), multiset{ele}, multiset(xs));
  }

  lemma Cancel(a: multiset<Blob>, b: multiset<Blob>, c: multiset<Blob>, l: multiset<Blob>)
    requires a + l == b + (c + l)
    ensures a == b + c
  {
    forall x ensures a[x] == (b + c)[x] {
      assert (a + l)[x] == (b + (c + l))[x];
    }
  }

  lemma WithElements(s: State, k: Key, xs: seq<Blob>, more: seq<Blob>)
    requires multiset(xs) == multiset(ListAt(s.db, k)) + multiset(more)
    ensures Held(With(s, k, xs)) == Held(s) + multiset(more)
  {
    hide Elements, Given, PoppedIn;
    ElementsWith(s.db, k, xs);
    Cancel(Elements(With(s, k, xs).db), Elements(s.db), multiset(more), multiset(ListAt(s.db, k)));
  }

  lemma DirtyHeld(s: State, dirty: nat)
    ensures Held(s.(dirty := dirty)) == Held(s)
  {}

  lemma {:induction false} TakenHeld(s: State, key: Key, eles: seq<Blob>)
    ensures var m := TakeMany(s, key, eles); Held(m.s) == Held(s) + multiset(eles[..m.n])
    decreases |eles|
  {
    hide Delivered, Held;
    if eles != [] {
      var r := Serve(s, key, eles[0]);
      var d := ServeDelivers(s, key, eles[0]);
      DeliveredHeld(s, r.s, eles[0], d);
      var m := TakeMany(r.s, key, eles[1..]);
      if r.done && r.s.db != s.db {
        assert eles[..1] == [eles[0]];
      } else if r.done {
        TakenHeld(r.s, key, eles[1..]);
        assert eles[..m.n + 1] == [eles[0]] + eles[1..][..m.n];
      }
    }
  }

  lemma {:induction false} PushAllElements(xs: seq<Blob>, eles: seq<Blob>, head: bool)
    ensures multiset(PushAll(xs, eles, head)) == multiset(xs) + multiset(eles)
  {
    if eles != [] {
      var n := |eles| - 1;
      PushAllElements(xs, eles[..n], head);
      assert eles == eles[..n] + [eles[n]];
    }
  }

  /** A push loses the elements it never looks at, and no other: all else is in a list or with a client, once. */
  lemma PushHeld(s: State, key: Key, eles: seq<Blob>, head: bool)
    ensures var p := PushMany(s, key, eles, head); Held(p.s) + multiset(p.lost) == Held(s) + multiset(eles)
  {
    hide Held, PushAll, TakeMany;
    if key in s.db {
      var xs := PushAll(ListAt(s.db, key), eles, head);
      PushAllElements(ListAt(s.db, key), eles, head);
      WithElements(s, key, xs, eles);
      DirtyHeld(With(s, key, xs), s.dirty + |eles|);
    } else {
      var m := TakeMany(s, key, eles);
      var rest := eles[m.n..];
      TakenHeld(s, key, eles);
      TakenKeepsDb(s, key, eles);
      assert eles == eles[..m.n] + rest;
      if !m.stopped && rest != [] {
        var xs := PushAll([], rest, head);
        PushAllElements([], rest, head);
        WithElements(m.s, key, xs, rest);
        DirtyHeld(With(m.s, key, xs), m.s.dirty + |eles| - m.n);
      }
    }
  }

  /** RPOPLPUSH keeps every element, whoever gets it. */
  lemma MoveHeld(s: State, c: ClientId, src: Key, dst: Key)
    requires ListAt(s.db, src) != [] && (dst in s.db ==> s.db[dst].ListObj?)
    ensures Held(MoveOn(s, c, src, dst)) == Held(s)
  {
    hide Elements, Given, PoppedIn, Serve;
    var xs := ListAt(s.db, src);
    var n := |xs| - 1;
    var t := With(s, src, xs[..n]);
    ElementsWith(s.db, src, xs[..n]);
    assert xs == xs[..n] + [xs[n]];
    Cancel(Elements(s.db), Elements(t.db), multiset{xs[n]}, multiset(xs[..n]));
    var d := HandlePushDelivers(t, c, dst, xs[n], [RPOPLPUSH, src, dst]);
    var u := HandlePush(t, c, dst, xs[n], [RPOPLPUSH, src, dst]);
    DeliveredHeld(t, u, xs[n], d);
    assert Held(u) == Held(s);
    EmptyListHeld(u, src);
    DirtyHeld(u, u.dirty + 1);
    DirtyHeld(u.(db := u.db - {src}), u.dirty + 1);
  }

  /** Deleting an empty list takes no element away. */
  lemma EmptyListHeld(s: State, k: Key)
    ensures ListAt(s.db, k) == [] ==> Held(s.(db := s.db - {k})) == Held(s)
  {
    if k in s.db {
      ElementsWithout(s.db, k);
    } else {
      assert s.db - {k} == s.db;
    }
  }

  // ----- When a push loses elements

  /** The state after the first `i` elements have been taken. */
  function After(s: State, key: Key, eles: seq<Blob>, i: nat): State
    requires i <= |eles|
    decreases i
  {
    if i == 0 then s else After(Serve(s, key, eles[0]).s, key, eles[1..], i - 1)
  }

  /** A waiting client takes element `i`. */
  predicate IsTaken(s: State, key: Key, eles: seq<Blob>, i: nat)
    requires i < |eles|
  {
    Serve(After(s, key, eles, i), key, eles[i]).done
  }

  /** Element `i` is taken, and handed on until it is in a list. */
  predicate EndsInList(s: State, key: Key, eles: seq<Blob>, i: nat)
    requires i < |eles|
  {
    Serve(After(s, key, eles, i), key, eles[i]).s.db != After(s, key, eles, i).db
  }

  lemma {:induction false} TakenExact(s: State, key: Key, eles: seq<Blob>)
    ensures var m := TakeMany(s, key, eles);
            && (forall i :: 0 <= i < m.n ==> IsTaken(s, key, eles, i))
            && (forall i :: 0 <= i < m.n ==> (EndsInList(s, key, eles, i) <==> m.stopped && i == m.n - 1))
            && (!m.stopped && m.n < |eles| ==> !IsTaken(s, key, eles, m.n))
    decreases |eles|
  {
    hide Serve;
    if eles != [] {
      var r := Serve(s, key, eles[0]);
      if r.done && r.s.db == s.db {
        var rest := eles[1..];
        TakenExact(r.s, key, rest);
        forall i: nat | 0 < i < |eles|
          ensures IsTaken(s, key, eles, i) == IsTaken(r.s, key, rest, i - 1) && EndsInList(s, key, eles, i) == EndsInList(r.s, key, rest, i - 1)
        {
          assert eles[i] == rest[i - 1] && After(s, key, eles, i) == After(r.s, key, rest, i - 1);
        }
      }
    }
  }

  /**
   Elements are lost exactly when one before the last is taken and ends in a list, all before it having been taken:
   the loop ends there.
   */
  lemma LostExact(s: State, key: Key, eles: seq<Blob>, head: bool)
    ensures PushMany(s, key, eles, head).lost != [] <==>
            key !in s.db && exists i: nat :: i + 1 < |eles| && EndsInList(s, key, eles, i) && forall j: nat :: j <= i ==> IsTaken(s, key, eles, j)
  {
    hide Serve, After, IsTaken, EndsInList;
    if key !in s.db {
      TakenExact(s, key, eles);
      var m := TakeMany(s, key, eles);
      if m.stopped && m.n < |eles| {
        var i: nat := m.n - 1;
        assert EndsInList(s, key, eles, i) && forall j: nat :: j <= i ==> IsTaken(s, key, eles, j);
      }
    }
  }

  /** No client that waits for the key moves what it gets. */
  ghost predicate OnlyPoppers(s: State, key: Key) {
    forall c: ClientId :: c in s.bpop && key in s.bpop[c].keys ==> s.bpop[c].target == None
  }

  /** Then nothing is lost, which can be seen before the push. */
  lemma {:induction false} OnlyPoppersLoseNothing(s: State, key: Key, eles: seq<Blob>, head: bool)
    requires Valid(s) && OnlyPoppers(s, key)
    ensures PushMany(s, key, eles, head).lost == []
  {
    PoppersTake(s, key, eles);
  }

  lemma {:induction false} PoppersTake(s: State, key: Key, eles: seq<Blob>)
    requires Valid(s) && OnlyPoppers(s, key)
    ensures !TakeMany(s, key, eles).stopped
    decreases |eles|
  {
    hide Valid;
    if eles != [] && Waiting(s.blocking, key) != [] {
      var c := Waiting(s.blocking, key)[0];
      FirstWaits(s, key);
      WaitsFor(s, key, c);
      var t := Answer(Unblock(s, c), Popped(c, key, eles[0]));
      UnblockValid(s, c);
      AnswerValid(Unblock(s, c), Popped(c, key, eles[0]));
      PoppersTake(t, key, eles[1..]);
    }
  }

  /** How many elements are taken then: one for each client waiting, as long as there are elements. */
  lemma {:induction false} PoppersTakeEach(s: State, key: Key, eles: seq<Blob>)
    requires Valid(s) && OnlyPoppers(s, key)
    ensures var n := |Clients(Waiting(s.blocking, key))|;
            TakeMany(s, key, eles).n == if n < |eles| then n else |eles|
    decreases |eles|
  {
    hide Valid;
    var waiting := Waiting(s.blocking, key);
    if waiting == [] {
      WaitersCount(waiting);
    } else if eles != [] {
      var c := waiting[0];
      FirstWaits(s, key);
      WaitsFor(s, key, c);
      var t := Answer(Unblock(s, c), Popped(c, key, eles[0]));
      UnblockValid(s, c);
      AnswerValid(Unblock(s, c), Popped(c, key, eles[0]));
      PoppersTakeEach(t, key, eles[1..]);
      OthersWait(s, key, c);
      assert Serve(s, key, eles[0]) == Served(t, true);
      WaitersLess(waiting, Waiting(t.blocking, key), c);
    } else {
      TakeNone(s, key);
    }
  }

  /** The clients in a list, each once. */
  function Clients(waiting: seq<ClientId>): set<ClientId> {
    set c | c in waiting
  }

  lemma WaitersCount(waiting: seq<ClientId>)
    ensures |Clients(waiting)| == 0 <==> waiting == []
  {
    if waiting != [] {
      assert waiting[0] in Clients(waiting);
    } else {
      assert Clients(waiting) == {};
    }
  }

  lemma WaitersLess(waiting: seq<ClientId>, rest: seq<ClientId>, c: ClientId)
    requires c in waiting && forall d :: d in rest <==> d in waiting && d != c
    ensures |Clients(rest)| == |Clients(waiting)| - 1
  {
    assert Clients(rest) == Clients(waiting) - {c};
  }

  lemma TakeNone(s: State, key: Key)
    ensures TakeMany(s, key, []) == Taken(s, 0, false)
  {}

  /** When a client is unblocked, all others go on waiting. */
  lemma OthersWait(s: State, k: Key, c: ClientId)
    requires Valid(s) && c in s.bpop
    ensures forall d :: d in Waiting(Unblock(s, c).blocking, k) <==> d in Waiting(s.blocking, k) && d != c
  {
    var t := Unblock(s, c);
    UnblockMirror(s, c);
    forall d: ClientId ensures d in Waiting(t.blocking, k) <==> d in Waiting(s.blocking, k) && d != c {
      assert Count(Waiting(t.blocking, k), d) == Count(KeysOf(t.bpop, d), k);
      assert Count(Waiting(s.blocking, k), d) == Count(KeysOf(s.bpop, d), k);
      CountIn(Waiting(t.blocking, k), d);
      CountIn(Waiting(s.blocking, k), d);
    }
  }

  lemma WaitsFor(s: State, k: Key, c: ClientId)
    requires Valid(s) && c in Waiting(s.blocking, k)
    ensures c in s.bpop && k in s.bpop[c].keys
  {
    WaiterBlocked(s, k, c);
  }

  /**
   When the first client waiting can take the element, and moves it to a key for which nobody else waits, the command
   answers 1, and all elements but the first are gone.
   */
  lemma MoverLoses(s: State, key: Key, eles: seq<Blob>, head: bool)
    requires key !in s.db && eles != [] && Waiting(s.blocking, key) != [] && CanTake(s, Waiting(s.blocking, key)[0])
    requires var c := Waiting(s.blocking, key)[0];
             s.bpop[c].target.Some? && Waiting(Unblock(s, c).blocking, s.bpop[c].target.value) == []
    ensures var p := PushMany(s, key, eles, head);
            p.n == 1 && p.lost == eles[1..] && p.s.db == PushHead(s.db, s.bpop[Waiting(s.blocking, key)[0]].target.value, eles[0])
  {
    var c := Waiting(s.blocking, key)[0];
    var dst := s.bpop[c].target.value;
    var t, vector := Unblock(s, c), [LPUSH, dst, eles[0]];
    assert HandlePush(t, c, dst, eles[0], vector) == Answer(PutHead(t, dst, eles[0], vector), Moved(c, eles[0])) by {
      assert Serve(t, dst, eles[0]) == Served(t, false);
    }
    HeadGrows(s.db, dst, eles[0]);
  }

  /** One client is blocked, for `key`, and moves what it gets to `dst`. */
  function OneMover(key: Key, c: ClientId, dst: Key): State {
    State(map[], map[key := [c]], map[c := Bpop([key], Some(dst), 0)], [], [], 1, [], 0)
  }

  lemma OneMoverValid(key: Key, c: ClientId, dst: Key)
    ensures Valid(OneMover(key, c, dst))
  {
    var none := State(map[], map[], map[], [], [], 0, [], 0);
    EmptyValid();
    BlockValid(none, c, [key], Some(dst));
    assert BlockAll(map[], [key][..0], c) == map[] && Waiting(map[], key) + [c] == [c];
    assert BlockAll(map[], [key], c) == map[key := [c]];
    assert Block(none, c, [key], Some(dst)) == OneMover(key, c, dst);
  }

  lemma EmptyValid()
    ensures Valid(State(map[], map[], map[], [], [], 0, [], 0))
  {}

  /** Two elements pushed where one client waits to move what it gets: the second is neither in a list nor with a client. */
  lemma SecondIsLost(key: Key, c: ClientId, dst: Key, a: Blob, b: Blob, head: bool)
    ensures Valid(OneMover(key, c, dst))
    ensures var p := PushMany(OneMover(key, c, dst), key, [a, b], head);
            p.n == 1 && p.lost == [b] && p.s.db == map[dst := ListObj([a])] && Held(p.s) == multiset{a}
  {
    var s := OneMover(key, c, dst);
    OneMoverValid(key, c, dst);
    hide Valid, Held, TakeMany, Serve, PushMany;
    assert DropAll(s.blocking, [key], c) == map[] by {
      assert [key][..0] == [];
      assert DropAll(s.blocking, [key], c) == Drop(DropAll(s.blocking, [], c), key, c);
    }
    MoverLoses(s, key, [a, b], head);
    PushHeld(s, key, [a, b], head);
    assert [a] + [] == [a] && PushHead(map[], dst, a) == map[dst := ListObj([a])];
    NothingHeld(s);
    assert multiset([a, b]) == multiset{a} + multiset{b} && multiset([b]) == multiset{b};
    Cancel(Held(PushMany(s, key, [a, b], head).s), multiset{}, multiset{a}, multiset{b});
  }

  lemma NothingHeld(s: State)
    requires s.db == map[] && s.replies == []
    ensures Held(s) == multiset{}
  {
  }

  // ----- What the replicas and the append only file get

  /** The command executed where no client waits. */
  function Replay(db: map<Key, Obj>, vector: seq<Blob>): map<Key, Obj> {
    var s := State(db, map[], map[], [], [], 0, vector, 0);
    if |vector| < 3 then db
    else if vector[0] == RPOPLPUSH then
      if ListAt(db, vector[1]) == [] || (vector[2] in db && db[vector[2]].OtherObj?) then db else MoveOn(s, 0, vector[1], vector[2]).db
    else if vector[1] in db && db[vector[1]].OtherObj? then db
    else PushMany(s, vector[1], vector[2..], vector[0] == LPUSH).s.db
  }

  /** A dataset that follows the commands executed, as they were rewritten; one that changed nothing is not propagated. */
  function Follow(s: State, t: State): map<Key, Obj> {
    if t.dirty > s.dirty then Replay(s.db, t.vector) else s.db
  }

  lemma ReplayPush(db: map<Key, Obj>, key: Key, eles: seq<Blob>, head: bool)
    requires eles != [] && (key in db ==> db[key].ListObj?)
    ensures Replay(db, [if head then LPUSH else RPUSH, key] + eles) == db[key := ListObj(PushAll(ListAt(db, key), eles, head))]
  {
    var vector := [if head then LPUSH else RPUSH, key] + eles;
    assert vector[2..] == eles && vector[1] == key && |LPUSH| < |RPOPLPUSH| && |RPUSH| < |RPOPLPUSH| && LPUSH[0] != RPUSH[0];
    var s := State(db, map[], map[], [], [], 0, vector, 0);
    assert Serve(s, key, eles[0]) == Served(s, false);
    assert eles[0..] == eles;
  }

  /**
   The followers of a push end up with the same dataset, except when clients pop some of the elements and the others
   stay in the list: the command is propagated with all of them.
   */
  lemma PushFollowed(s: State, key: Key, eles: seq<Blob>, head: bool)
    requires eles != [] && s.vector == [if head then LPUSH else RPUSH, key] + eles && (key in s.db ==> s.db[key].ListObj?)
    ensures var m := TakeMany(s, key, eles);
            var p := PushMany(s, key, eles, head);
            Follow(s, p.s) == p.s.db <==> key in s.db || m.stopped || m.n == 0 || m.n == |eles|
  {
    var p, m := PushMany(s, key, eles, head), TakeMany(s, key, eles);
    ReplayPush(s.db, key, eles, head);
    if key in s.db {
      assert p.s.dirty > s.dirty;
    } else if m.stopped {
      var k, ele := StoppedInto(s, key, eles);
      ReplayHead(s.db, k, ele);
    } else {
      TakenKeepsDb(s, key, eles);
      if m.n == 0 {
        assert eles[0..] == eles;
      } else if m.n < |eles| {
        assert |p.s.db[key].xs| == |eles| - m.n;
        assert |Replay(s.db, s.vector)[key].xs| == |eles|;
      }
    }
  }

  /**
   As long as nobody waits to move what it gets: exactly when the list is there, nobody waits, or as many clients wait as
   there are elements.
   */
  lemma PushFollowedByPoppers(s: State, key: Key, eles: seq<Blob>, head: bool)
    requires Valid(s) && OnlyPoppers(s, key)
    requires eles != [] && s.vector == [if head then LPUSH else RPUSH, key] + eles && (key in s.db ==> s.db[key].ListObj?)
    ensures var waiting := Waiting(s.blocking, key);
            Follow(s, PushMany(s, key, eles, head).s) == PushMany(s, key, eles, head).s.db
            <==> key in s.db || waiting == [] || |eles| <= |Clients(waiting)|
  {
    hide Valid, TakeMany, Follow, PushMany;
    PushFollowed(s, key, eles, head);
    PoppersTake(s, key, eles);
    PoppersTakeEach(s, key, eles);
    var waiting := Waiting(s.blocking, key);
    WaitersCount(waiting);
  }

  /** One client is blocked, for `key`, and pops what it gets. */
  function OnePopper(db: map<Key, Obj>, key: Key, c: ClientId, vector: seq<Blob>): State {
    State(db, map[key := [c]], map[c := Bpop([key], None, 0)], [], [], 1, vector, 0)
  }

  lemma OnePopperValid(db: map<Key, Obj>, key: Key, c: ClientId, vector: seq<Blob>)
    ensures Valid(OnePopper(db, key, c, vector))
  {
    var none := State(db, map[], map[], [], [], 0, vector, 0);
    BlockValid(none, c, [key], None);
    assert BlockAll(map[], [key][..0], c) == map[] && Waiting(map[], key) + [c] == [c];
    assert BlockAll(map[], [key], c) == map[key := [c]];
    assert Block(none, c, [key], None) == OnePopper(db, key, c, vector);
  }

  lemma OnePopperServed(db: map<Key, Obj>, key: Key, c: ClientId, vector: seq<Blob>, a: Blob)
    ensures Serve(OnePopper(db, key, c, vector), key, a) == Served(State(db, map[], map[], [Popped(c, key, a)], [c], 1, vector, 0), true)
  {
    var s := OnePopper(db, key, c, vector);
    assert DropAll(s.blocking, [key], c) == map[] by {
      assert [key][..0] == [];
      assert DropAll(s.blocking, [key], c) == Drop(DropAll(s.blocking, [], c), key, c);
    }
    assert s.bpop - {c} == map[];
  }

  /** Two elements pushed where one client waits: the list has the second, its followers have both. */
  lemma FollowersHaveBoth(key: Key, c: ClientId, a: Blob, b: Blob)
    ensures var s := OnePopper(map[], key, c, [RPUSH, key, a, b]);
            var t := PushMany(s, key, [a, b], false).s;
            Valid(s) && t.db == map[key := ListObj([b])] && Follow(s, t) == map[key := ListObj([a, b])]
  {
    var s := OnePopper(map[], key, c, [RPUSH, key, a, b]);
    OnePopperValid(map[], key, c, s.vector);
    hide Valid, Serve, PushAll;
    OnePopperServed(map[], key, c, s.vector, a);
    var u := Serve(s, key, a).s;
    NobodyWaits(u, key, b);
    assert [a, b][1..] == [b] && [a, b][1..][0] == b;
    assert TakeMany(u, key, [b]) == Taken(u, 0, false);
    assert TakeMany(s, key, [a, b]) == Taken(u, 1, false);
    PushAllSingle([], b, false);
    assert [] + [b] == [b];
    assert [RPUSH, key] + [a, b] == s.vector;
    ReplayPush(map[], key, [a, b], false);
    PushAllTwo(a, b);
  }

  lemma NobodyWaits(s: State, key: Key, ele: Blob)
    requires Waiting(s.blocking, key) == []
    ensures Serve(s, key, ele) == Served(s, false)
  {}

  lemma PushAllTwo(a: Blob, b: Blob)
    ensures PushAll([], [a, b], false) == [a, b]
  {
    assert [a, b][..1] == [a];
    PushAllSingle([], a, false);
  }

  /** The list in which the last element taken has ended, as the command says. */
  lemma {:induction false} StoppedInto(s: State, key: Key, eles: seq<Blob>) returns (k: Key, ele: Blob)
    requires TakeMany(s, key, eles).stopped
    ensures var m := TakeMany(s, key, eles);
            && m.s.vector == [LPUSH, k, ele] && m.s.dirty == s.dirty + 1
            && m.s.db == PushHead(s.db, k, ele) && (k in s.db ==> s.db[k].ListObj?)
    decreases |eles|
  {
    var r := Serve(s, key, eles[0]);
    var d := ServeDelivers(s, key, eles[0]);
    if r.s.db != s.db {
      k, ele := d.key, eles[0];
    } else {
      if d.ToList? {
        HeadGrows(s.db, d.key, eles[0]);
      }
      k, ele := StoppedInto(r.s, key, eles[1..]);
    }
  }

  lemma ReplayMove(db: map<Key, Obj>, src: Key, dst: Key)
    requires ListAt(db, src) != [] && (dst in db ==> db[dst].ListObj?)
    ensures var xs := ListAt(db, src);
            var db' := PushHead(db[src := ListObj(xs[..|xs| - 1])], dst, xs[|xs| - 1]);
            Replay(db, [RPOPLPUSH, src, dst]) == Trim(db', src)
  {
    var xs := ListAt(db, src);
    var n := |xs| - 1;
    var t := With(State(db, map[], map[], [], [], 0, [RPOPLPUSH, src, dst], 0), src, xs[..n]);
    assert Serve(t, dst, xs[n]) == Served(t, false);
  }

  /** What RPOPLPUSH leaves: the list shorter by its last element, which has gone to one destination. */
  lemma MoveLeaves(s: State, c: ClientId, src: Key, dst: Key) returns (d: Destination)
    requires ListAt(s.db, src) != [] && (dst in s.db ==> s.db[dst].ListObj?)
    ensures var xs := ListAt(s.db, src);
            var t, ele := With(s, src, xs[..|xs| - 1]), xs[|xs| - 1];
            var u := MoveOn(s, c, src, dst);
            && u.db == Trim(if d.ToList? then PushHead(t.db, d.key, ele) else t.db, src) && u.dirty > s.dirty && d != Nowhere
            && u.vector == (if !Serve(t, dst, ele).done then [RPOPLPUSH, src, dst] else if d.ToList? then [LPUSH, d.key, ele] else s.vector)
            && (!Serve(t, dst, ele).done ==> d == ToList(dst)) && (d.ToList? && d.key in t.db ==> t.db[d.key].ListObj?)
  {
    hide Serve, HandlePush, Trim, PoppedIn;
    var xs := ListAt(s.db, src);
    var t := With(s, src, xs[..|xs| - 1]);
    d := HandlePushDelivers(t, c, dst, xs[|xs| - 1], [RPOPLPUSH, src, dst]);
  }

  /**
   The followers of RPOPLPUSH end up with the same dataset exactly when nobody who waits for the target can take the
   element.
   */
  lemma MoveFollowed(s: State, c: ClientId, src: Key, dst: Key)
    requires Valid(s) && s.vector == [RPOPLPUSH, src, dst]
    requires ListAt(s.db, src) != [] && (dst in s.db ==> s.db[dst].ListObj?)
    ensures Follow(s, MoveOn(s, c, src, dst)) == MoveOn(s, c, src, dst).db
       <==> forall i :: 0 <= i < |Waiting(s.blocking, dst)| ==> !CanTake(s, Waiting(s.blocking, dst)[i])
  {
    hide Valid, Follow, MoveOn, Serve;
    var xs := ListAt(s.db, src);
    var t := With(s, src, xs[..|xs| - 1]);
    DbValid(s, t.db);
    ServedExact(t, dst, xs[|xs| - 1]);
    forall d ensures CanTake(t, d) == CanTake(s, d) {}
    MoveFollowedIfNotServed(s, c, src, dst);
  }

  /** The only element of a list moved to where one client waits: the client has it, the followers have it in the target. */
  lemma FollowersKeepElement(src: Key, dst: Key, c: ClientId, d: ClientId, a: Blob)
    requires src != dst
    ensures var s := OnePopper(map[src := ListObj([a])], dst, d, [RPOPLPUSH, src, dst]);
            var t := MoveOn(s, c, src, dst);
            Valid(s) && t.db == map[] && t.replies == [Popped(d, dst, a), Moved(c, a)] && Follow(s, t) == map[dst := ListObj([a])]
  {
    var db: map<Key, Obj> := map[src := ListObj([a])];
    var s := OnePopper(db, dst, d, [RPOPLPUSH, src, dst]);
    OnePopperValid(db, dst, d, s.vector);
    hide Valid, Serve, Replay;
    var empty: map<Key, Obj> := map[src := ListObj([])];
    assert [a][..0] == [] && db[src := ListObj([])] == empty;
    assert With(s, src, []) == OnePopper(empty, dst, d, s.vector);
    OnePopperServed(empty, dst, d, s.vector, a);
    ReplayMove(db, src, dst);
    assert [a] + [] == [a];
    assert empty - {src} == map[];
    assert Trim(PushHead(empty, dst, a), src) == map[dst := ListObj([a])];
  }

  /** The same in terms of the run. */
  lemma MoveFollowedIfNotServed(s: State, c: ClientId, src: Key, dst: Key)
    requires s.vector == [RPOPLPUSH, src, dst]
    requires ListAt(s.db, src) != [] && (dst in s.db ==> s.db[dst].ListObj?)
    ensures var xs := ListAt(s.db, src);
            Follow(s, MoveOn(s, c, src, dst)) == MoveOn(s, c, src, dst).db
            <==> !Serve(With(s, src, xs[..|xs| - 1]), dst, xs[|xs| - 1]).done
  {
    hide Serve, HandlePush, MoveOn, Replay, PushAll, Trim, PushHead;
    var xs := ListAt(s.db, src);
    var n := |xs| - 1;
    var t := With(s, src, xs[..n]);
    var d := MoveLeaves(s, c, src, dst);
    ReplayMove(s.db, src, dst);
    if d.ToList? && Serve(t, dst, xs[n]).done {
      ReplayHead(s.db, d.key, xs[n]);
      PopMatters(s.db, src, d.key, xs, xs[n]);
    } else if d.ToClient? {
      PushMatters(t.db, src, dst, xs[n]);
    }
  }

  lemma ReplayHead(db: map<Key, Obj>, k: Key, ele: Blob)
    requires k in db ==> db[k].ListObj?
    ensures Replay(db, [LPUSH, k, ele]) == PushHead(db, k, ele)
  {
    assert [LPUSH, k] + [ele] == [LPUSH, k, ele];
    ReplayPush(db, k, [ele], true);
    PushAllSingle(ListAt(db, k), ele, true);
  }

  lemma PopMatters(db: map<Key, Obj>, src: Key, k: Key, xs: seq<Blob>, ele: Blob)
    requires ListAt(db, src) == xs != []
    ensures Trim(PushHead(db[src := ListObj(xs[..|xs| - 1])], k, ele), src) != PushHead(db, k, ele)
  {
    var db' := PushHead(db[src := ListObj(xs[..|xs| - 1])], k, ele);
    assert |ListAt(Trim(db', src), src)| == |ListAt(db', src)| < |ListAt(PushHead(db, k, ele), src)|;
  }

  lemma PushMatters(db: map<Key, Obj>, src: Key, k: Key, ele: Blob)
    ensures Trim(db, src) != Trim(PushHead(db, k, ele), src)
  {
    assert |ListAt(Trim(db, src), k)| == |ListAt(db, k)| < |ListAt(PushHead(db, k, ele), k)| == |ListAt(Trim(PushHead(db, k, ele), src), k)|;
  }

  lemma FilledWith(db: map<Key, Obj>, key: Key, xs: seq<Blob>)
    requires Filled(db) && xs != []
    ensures Filled(db[key := ListObj(xs)])
  {}

  lemma ListAtIs(db: map<Key, Obj>, key: Key)
    ensures ListAt(db, key) == if key in db && db[key].ListObj? then db[key].xs else []
  {}

  /** A pop from a list that is not empty. */
  function Pop(s: State, c: ClientId, key: Key, head: bool): State
    requires ListAt(s.db, key) != []
  {
    var xs := ListAt(s.db, key);
    var n := |xs| - 1;
    Answer(s.(db := PutList(s.db, key, if head then xs[1..] else xs[..n]), dirty := s.dirty + 1), Popped(c, key, if head then xs[0] else xs[n]))
  }

  /** An empty list is deleted. */
  function Trim(db: map<Key, Obj>, k: Key): map<Key, Obj> {
    if ListAt(db, k) == [] then db - {k} else db
  }

  /** RPOPLPUSH from a list that is not empty; its key goes when its list is empty at the end. */
  function MoveOn(s: State, c: ClientId, src: Key, dst: Key): State
    requires ListAt(s.db, src) != []
  {
    var xs := ListAt(s.db, src);
    var n := |xs| - 1;
    var t := HandlePush(With(s, src, xs[..n]), c, dst, xs[n], [RPOPLPUSH, src, dst]);
    t.(db := Trim(t.db, src), dirty := t.dirty + 1)
  }

  lemma TrimIs(db: map<Key, Obj>, k: Key)
    ensures Trim(db, k) == if ListAt(db, k) == [] then db - {k} else db
  {}

  lemma FilledAt(db: map<Key, Obj>, k: Key)
    requires Filled(db) && k in db && db[k].ListObj?
    ensures db[k].xs != [] && ListAt(db, k) == db[k].xs
  {}

  lemma MoveOnIs(s: State, c: ClientId, src: Key, dst: Key)
    requires ListAt(s.db, src) != []
    ensures var xs := ListAt(s.db, src);
            var n := |xs| - 1;
            var t := HandlePush(With(s, src, xs[..n]), c, dst, xs[n], [RPOPLPUSH, src, dst]);
            MoveOn(s, c, src, dst) == t.(db := Trim(t.db, src), dirty := t.dirty + 1)
  {}

  /** The source is the only list that can be empty. */
  lemma MoveFilled(db: map<Key, Obj>, s: State, t: State, src: Key, ele: Blob, d: Destination)
    requires Filled(db) && src in db && src in s.db && s.db == db[src := s.db[src]] && Delivered(s, t, ele, d)
    ensures ListAt(t.db, src) == [] ==> Filled(t.db - {src})
    ensures ListAt(t.db, src) != [] ==> Filled(t.db)
  {}

  lemma DbValid(s: State, db: map<Key, Obj>)
    requires Valid(s)
    ensures Valid(s.(db := db))
  {
    var t := s.(db := db);
    forall k: Key, i, j | 0 <= i < j < |Waiting(t.blocking, k)| ensures Earlier(t, Waiting(t.blocking, k)[i], Waiting(t.blocking, k)[j]) {
      assert Earlier(s, Waiting(s.blocking, k)[i], Waiting(s.blocking, k)[j]);
    }
  }

  lemma DirtyValid(s: State, dirty: nat)
    requires Valid(s)
    ensures Valid(s.(dirty := dirty))
  {
    var t := s.(dirty := dirty);
    forall k: Key, i, j | 0 <= i < j < |Waiting(t.blocking, k)| ensures Earlier(t, Waiting(t.blocking, k)[i], Waiting(t.blocking, k)[j]) {
      assert Earlier(s, Waiting(s.blocking, k)[i], Waiting(s.blocking, k)[j]);
    }
  }

  lemma SizeGrows(m: map<ClientId, Bpop>, c: ClientId, b: Bpop)
    requires c !in m
    ensures |m[c := b]| == |m| + 1
  {
    assert m[c := b].Keys == m.Keys + {c};
    assert |m[c := b].Keys| == |m[c := b]|;
  }

  lemma SizeDropsOne(m: map<ClientId, Bpop>, c: ClientId)
    requires c in m
    ensures |m - {c}| == |m| - 1
  {
    assert m.Keys == (m - {c}).Keys + {c};
    assert |(m - {c}).Keys| == |m - {c}|;
  }

  lemma NotEmpty(s: State, key: Key)
    requires |Waiting(s.blocking, key)| > 0
    ensures key in s.blocking && s.blocking[key] == Waiting(s.blocking, key)
  {}

  /** While a client is being unblocked, the lists of the keys still to do have it. */
  lemma StillThere(s: State, c: ClientId, j: nat)
    requires Valid(s) && c in s.bpop && j < |s.bpop[c].keys|
    ensures var keys := s.bpop[c].keys;
            var b := DropAll(s.blocking, keys[..j], c);
            keys[j] in b && c in b[keys[j]]
  {
    var keys := s.bpop[c].keys;
    forall k: Key ensures Count(Waiting(s.blocking, k), c) >= Count(keys[..j], k) {
      assert Count(Waiting(s.blocking, k), c) == Count(KeysOf(s.bpop, c), k);
      CountSplit(keys, j, k);
    }
    var k := keys[j];
    DropAllCounts(s.blocking, keys[..j], c, k, c);
    assert Count(Waiting(s.blocking, k), c) == Count(KeysOf(s.bpop, c), k);
    CountSplit(keys, j, k);
    CountIn(Waiting(DropAll(s.blocking, keys[..j], c), k), c);
  }

  lemma CountSplit(keys: seq<Key>, j: nat, k: Key)
    requires j < |keys|
    ensures Count(keys, k) >= Count(keys[..j], k) + if keys[j] == k then 1 else 0
  {
    assert keys == keys[..j + 1] + keys[j + 1..];
    CountAppend(keys[..j + 1], keys[j + 1..], k);
    CountTake(keys, j, k);
  }
}
