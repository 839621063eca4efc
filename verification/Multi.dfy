/**
 Transactions (multi.c): commands queued after MULTI are executed by EXEC unless a key the client watches has been
 touched since it was watched.
 */
module Multi {
  import opened Bytes
  import opened Lists

  type Key = seq<byte>
  type Id = nat

  datatype Loc = Loc(db: nat, key: Key)

  datatype Client<C> = Client(
    multi: bool,            // REDIS_MULTI
    dirty: bool,            // REDIS_DIRTY_CAS
    queue: seq<C>,          // mstate.commands
    watched: seq<Loc>       // watched_keys
  )

  /** What a command leaves: the new data and the keys it signals as modified. */
  datatype Effect<V> = Effect(data: map<Loc, V>, touched: seq<Loc>)

  function Lookup<V>(data: map<Loc, V>, l: Loc): Option<V> {
    if l in data then Some(data[l]) else None
  }

  function Watchers(watching: map<Loc, seq<Id>>, l: Loc): seq<Id> {
    if l in watching then watching[l] else []
  }

  /** The two sides of the index have the same pairs, each once, and no list is left empty. */
  ghost predicate Mirror<C>(clients: map<Id, Client<C>>, watching: map<Loc, seq<Id>>) {
    && (forall l: Loc, c: Id {:trigger c in Watchers(watching, l)} :: c in Watchers(watching, l) <==> c in clients && l in clients[c].watched)
    && (forall l :: l in watching ==> watching[l] != [] && NoRepeats(watching[l]))
    && (forall c :: c in clients ==> NoRepeats(clients[c].watched))
  }

  /** A command that has been executed: the keys it signalled, and what it left. */
  datatype Moment<V> = Moment(signalled: set<Loc>, data: map<Loc, V>)

  /** Everything executed so far, from the data the server started with. */
  datatype Past<V> = Past(start: map<Loc, V>, moments: seq<Moment<V>>)

  /** The data before moment `i`. */
  function DataAt<V>(past: Past<V>, i: nat): map<Loc, V>
    requires i <= |past.moments|
  {
    if i == 0 then past.start else past.moments[i - 1].data
  }

  ghost predicate SignalledSince<V>(past: Past<V>, i: nat, l: Loc) {
    exists j: nat :: i <= j < |past.moments| && l in past.moments[j].signalled
  }

  /** What has happened to the keys a client watches: those touched, and when each was watched. */
  datatype History = History(touched: set<Loc>, since: map<Loc, nat>)

  /** The dirty flag tells exactly whether a watched key has been touched. */
  ghost predicate Told<C>(c: Client<C>, h: History) {
    && (c.dirty <==> h.touched != {})
    && (forall l :: l in h.touched ==> l in c.watched)
    && (!c.multi ==> c.queue == [])
  }

  /** The keys touched are those of the watched keys that have been signalled since they were watched. */
  ghost predicate Recorded<C, V>(c: Client<C>, h: History, past: Past<V>) {
    forall l :: l in c.watched ==>
      l in h.since && h.since[l] <= |past.moments| && (l in h.touched <==> SignalledSince(past, h.since[l], l))
  }

  /** No key the client watches has been signalled since it was watched. */
  ghost predicate Untouched<C, V>(c: Client<C>, h: History, past: Past<V>) {
    forall l :: l in c.watched && l in h.since ==> !SignalledSince(past, h.since[l], l)
  }

  // ----- Changes of the index

  lemma WatchMirror<C>(clients: map<Id, Client<C>>, watching: map<Loc, seq<Id>>, c: Id, l: Loc)
    requires Mirror(clients, watching) && c in clients && l !in clients[c].watched
    ensures Mirror(clients[c := clients[c].(watched := clients[c].watched + [l])], watching[l := Watchers(watching, l) + [c]])
  {
    var cl := clients[c].(watched := clients[c].watched + [l]);
    var clients', watching' := clients[c := cl], watching[l := Watchers(watching, l) + [c]];
    assert c !in Watchers(watching, l);
    forall l': Loc, d: Id ensures d in Watchers(watching', l') <==> d in clients' && l' in clients'[d].watched {
      assert d in Watchers(watching, l') <==> d in clients && l' in clients[d].watched;
    }
  }

  function Unlist(watching: map<Loc, seq<Id>>, l: Loc, c: Id): map<Loc, seq<Id>> {
    var r := RemoveFirst(Watchers(watching, l), c);
    if r == [] then watching - {l} else watching[l := r]
  }

  /** A client that has been taken off the list of its first watched key no longer watches it. */
  lemma UnwatchMirror<C>(clients: map<Id, Client<C>>, watching: map<Loc, seq<Id>>, c: Id)
    requires Mirror(clients, watching) && c in clients && clients[c].watched != []
    ensures clients[c].watched[0] in watching && c in watching[clients[c].watched[0]]
    ensures Mirror(clients[c := clients[c].(watched := clients[c].watched[1..])], Unlist(watching, clients[c].watched[0], c))
  {
    var ws := clients[c].watched;
    var l := ws[0];
    assert c in Watchers(watching, l);
    RemoveMembers(Watchers(watching, l), c);
    var clients', watching' := clients[c := clients[c].(watched := ws[1..])], Unlist(watching, l, c);
    forall l': Loc, d: Id ensures d in Watchers(watching', l') <==> d in clients' && l' in clients'[d].watched {
      assert d in Watchers(watching, l') <==> d in clients && l' in clients[d].watched;
      assert ws == [l] + ws[1..];
    }
  }

  // ----- Touching

  /** A client, and its history, after a key has been touched. */
  function TouchClient<C>(c: Client<C>, l: Loc): Client<C> {
    if l in c.watched then c.(dirty := true) else c
  }

  function TouchHistory<C>(h: History, c: Client<C>, l: Loc): History {
    if l in c.watched then h.(touched := h.touched + {l}) else h
  }

  lemma TouchTold<C>(c: Client<C>, h: History, l: Loc)
    requires Told(c, h)
    ensures Told(TouchClient(c, l), TouchHistory(h, c, l))
    ensures l in c.watched ==> l in TouchHistory(h, c, l).touched
  {
    if l in c.watched {
      assert l in TouchHistory(h, c, l).touched;
    }
  }

  lemma WatchTold<C, V>(c: Client<C>, h: History, l: Loc, past: Past<V>)
    requires Told(c, h) && Recorded(c, h, past) && l !in c.watched
    ensures var c', h' := c.(watched := c.watched + [l]), h.(since := h.since[l := |past.moments|]);
            Told(c', h') && Recorded(c', h', past) && l !in h.touched
  {}

  /** The moment in which the keys touched were signalled is over. */
  lemma RecordedNext<C, V>(c: Client<C>, h: History, h': History, past: Past<V>, m: Moment<V>)
    requires Recorded(c, h, past) && h'.since == h.since
    requires forall l :: l in c.watched ==> (l in h'.touched <==> l in h.touched || l in m.signalled)
    ensures Recorded(c, h', past.(moments := past.moments + [m]))
  {
    var past' := past.(moments := past.moments + [m]);
    forall l | l in c.watched
      ensures h'.since[l] <= |past'.moments| && (l in h'.touched <==> SignalledSince(past', h'.since[l], l))
    {
      var i := h.since[l];
      if SignalledSince(past', i, l) {
        var j: nat :| i <= j < |past'.moments| && l in past'.moments[j].signalled;
        if j < |past.moments| {
          assert l in past.moments[j].signalled;
        }
      }
      if l in h.touched {
        var j: nat :| i <= j < |past.moments| && l in past.moments[j].signalled;
        assert past'.moments[j] == past.moments[j];
      }
      if l in m.signalled {
        assert past'.moments[|past.moments|] == m;
      }
    }
  }

  /** Nothing changes for the others when a client that watches nothing is gone. */
  lemma FreeMirror<C>(clients: map<Id, Client<C>>, watching: map<Loc, seq<Id>>, c: Id)
    requires Mirror(clients, watching) && c in clients && clients[c].watched == []
    ensures Mirror(clients - {c}, watching)
  {
    forall l: Loc, d: Id ensures d in Watchers(watching, l) <==> d in clients - {c} && l in (clients - {c})[d].watched {
      assert d in Watchers(watching, l) <==> d in clients && l in clients[d].watched;
    }
  }

  lemma WatchersAre<C>(clients: map<Id, Client<C>>, watching: map<Loc, seq<Id>>, l: Loc)
    requires Mirror(clients, watching)
    ensures forall c: Id :: c in Watchers(watching, l) <==> c in clients && l in clients[c].watched
    ensures NoRepeats(Watchers(watching, l))
  {}

  lemma TouchMirror<C>(clients: map<Id, Client<C>>, watching: map<Loc, seq<Id>>, c: Id, cl: Client<C>)
    requires Mirror(clients, watching) && c in clients && cl.watched == clients[c].watched
    ensures Mirror(clients[c := cl], watching)
  {
    var clients' := clients[c := cl];
    forall l: Loc, d: Id ensures d in Watchers(watching, l) <==> d in clients' && l in clients'[d].watched {
      assert d in Watchers(watching, l) <==> d in clients && l in clients[d].watched;
    }
  }

  /** The commands of a queue, one after the other. */
  function RunAll<C, V>(effect: (C, map<Loc, V>) -> Effect<V>, queue: seq<C>, data: map<Loc, V>): map<Loc, V> {
    if queue == [] then data else effect(queue[|queue| - 1], RunAll(effect, queue[..|queue| - 1], data)).data
  }

  /** The keys of a database, or of all of them. */
  predicate InFlush(l: Loc, dbid: Option<nat>) {
    dbid == None || l.db == dbid.value
  }

  function SetOf(ls: seq<Loc>): set<Loc> {
    set l | l in ls
  }

  /** The keys that a flush removes. */
  function Flushing<V>(data: map<Loc, V>, dbid: Option<nat>): set<Loc> {
    set l | l in data && InFlush(l, dbid)
  }

  // ----- The server

  class Server<C(!new), V(!new)> {
    const effect: (C, map<Loc, V>) -> Effect<V>
    var clients: map<Id, Client<C>>
    var watching: map<Loc, seq<Id>>           // watched_keys of all databases
    var data: map<Loc, V>
    ghost var history: map<Id, History>
    ghost var past: Past<V>

    /** The index and the flags are right. */
    ghost predicate Indexed()
      reads this
    {
      && Mirror(clients, watching) && history.Keys == clients.Keys
      && forall c :: c in clients ==> Told(clients[c], history[c])
    }

    /** The histories tell what has happened. */
    ghost predicate Remembered()
      reads this
    {
      && history.Keys == clients.Keys && data == DataAt(past, |past.moments|)
      && forall c :: c in clients ==> Recorded(clients[c], history[c], past)
    }

    ghost predicate Valid()
      reads this
    {
      Indexed() && Remembered()
    }

    constructor (effect: (C, map<Loc, V>) -> Effect<V>, data: map<Loc, V>)
      ensures Valid() && clients == map[] && this.effect == effect && this.data == data && past == Past(data, [])
    {
      this.effect, this.data, past := effect, data, Past(data, []);
      clients, watching, history := map[], map[], map[];
    }

    /** A new connection. */
    method Connect(c: Id)
      requires Valid() && c !in clients
      modifies this`clients, this`history
      ensures Valid() && clients == old(clients)[c := Client(false, false, [], [])] && history == old(history)[c := History({}, map[])]
    {
      forall l: Loc, d: Id ensures d in Watchers(watching, l) ==> d in clients && l in clients[d].watched {}
      clients := clients[c := Client(false, false, [], [])];
      history := history[c := History({}, map[])];
      forall l: Loc, d: Id ensures d in Watchers(watching, l) <==> d in clients && l in clients[d].watched {
        assert d in Watchers(watching, l) <==> d in old(clients) && l in old(clients)[d].watched;
      }
    }

    /** watchForKey, outside MULTI. */
    method WatchForKey(c: Id, l: Loc)
      requires Valid() && c in clients
      modifies this`clients, this`watching, this`history
      ensures Valid()
      ensures clients == if l in old(clients)[c].watched then old(clients)
                         else old(clients)[c := old(clients)[c].(watched := old(clients)[c].watched + [l])]
      ensures c in old(history)
      ensures history == if l in old(clients)[c].watched then old(history)
                         else old(history)[c := old(history)[c].(since := old(history)[c].since[l := |past.moments|])]
    {
      if l in clients[c].watched {
        return;
      }
      hide Mirror, Told, Recorded, DataAt;
      WatchMirror(clients, watching, c, l);
      ghost var h := history[c];
      WatchTold(clients[c], h, l, past);
      watching := watching[l := (if l in watching then watching[l] else []) + [c]];
      clients := clients[c := clients[c].(watched := clients[c].watched + [l])];
      history := history[c := h.(since := h.since[l := |past.moments|])];
    }

    /** A client is marked in touchWatchedKey. */
    method MarkDirty(c: Id, l: Loc)
      requires Indexed() && c in clients && l in clients[c].watched
      modifies this`clients, this`history
      ensures Indexed() && c in old(history)
      ensures clients == old(clients)[c := TouchClient(old(clients)[c], l)]
      ensures history == old(history)[c := TouchHistory(old(history)[c], old(clients)[c], l)]
    {
      hide Mirror, Told;
      TouchTold(clients[c], history[c], l);
      TouchMirror(clients, watching, c, TouchClient(clients[c], l));
      history := history[c := TouchHistory(history[c], clients[c], l)];
      clients := clients[c := clients[c].(dirty := true)];
    }

    lemma Facts()
      requires Indexed()
      ensures Mirror(clients, watching) && history.Keys == clients.Keys
      ensures forall c :: c in clients ==> Told(clients[c], history[c])
    {}

    lemma Memories()
      requires Remembered()
      ensures history.Keys == clients.Keys && data == DataAt(past, |past.moments|)
      ensures forall c :: c in clients ==> Recorded(clients[c], history[c], past)
    {}

    lemma IsIndexed()
      requires Mirror(clients, watching) && history.Keys == clients.Keys
      requires forall c :: c in clients ==> Told(clients[c], history[c])
      ensures Indexed()
    {}

    lemma ValidIs()
      ensures Valid() <==> Indexed() && Remembered()
    {}

    /** touchWatchedKey. */
    method TouchWatchedKey(l: Loc)
      requires Indexed()
      modifies this`clients, this`history
      ensures Indexed() && clients.Keys == old(clients.Keys) == history.Keys == old(history.Keys)
      ensures forall c :: c in clients ==> clients[c] == TouchClient(old(clients)[c], l)
      ensures forall c :: c in clients ==> history[c] == TouchHistory(old(history)[c], old(clients)[c], l)
    {
      hide *;
      Facts();
      WatchersAre(clients, watching, l);
      WatchersIs(watching, l);
      var list := if l in watching then watching[l] else [];
      ghost var watchers := Watchers(watching, l);
      var i := 0;
      while i < |list|
        invariant 0 <= i <= |list| && Indexed() && clients.Keys == old(clients.Keys) == history.Keys == old(history.Keys)
        invariant forall c :: c in clients && c in list[..i] ==> clients[c] == TouchClient(old(clients)[c], l)
        invariant forall c :: c in clients && c in list[..i] ==> history[c] == TouchHistory(old(history)[c], old(clients)[c], l)
        invariant forall c :: c in clients && c !in list[..i] ==> clients[c] == old(clients)[c] && history[c] == old(history)[c]
      {
        var c := list[i];
        NotBefore(list, i);
        MarkDirty(c, l);
        i := i + 1;
      }
      assert list[..i] == list;
      TouchedAll(old(clients), clients, old(history), history, list, l);
    }

    /** call: a command is executed and the keys it modifies are signalled. */
    method Call(cmd: C)
      requires Valid()
      modifies this`clients, this`history, this`data, this`past
      ensures Valid() && clients.Keys == old(clients.Keys)
      ensures var e := effect(cmd, old(data));
              data == e.data && past == old(past).(moments := old(past).moments + [Moment(SetOf(e.touched), e.data)])
      ensures clients.Keys == history.Keys == old(history.Keys)
      ensures forall c :: c in clients ==> Same(clients[c], old(clients)[c])
      ensures forall c :: c in clients ==> history[c] == TouchedBy(old(history)[c], clients[c], effect(cmd, old(data)).touched)
    {
      hide *;
      ValidIs();
      Memories();
      Facts();
      var e := effect(cmd, data);
      data := e.data;
      IsIndexed();
      TouchAll(e.touched);
      forall c | c in clients ensures Recorded(clients[c], history[c], past.(moments := past.moments + [Moment(SetOf(e.touched), e.data)])) {
        Signalled(old(clients)[c], clients[c], old(history)[c], past, e.touched, e.data);
      }
      Pass(SetOf(e.touched));
    }

    /** The moment is over. */
    ghost method Pass(signalled: set<Loc>)
      requires Indexed()
      requires forall c :: c in clients && c in history ==> Recorded(clients[c], history[c], past.(moments := past.moments + [Moment(signalled, data)]))
      modifies this`past
      ensures Valid() && past == old(past).(moments := old(past).moments + [Moment(signalled, data)])
    {
      past := past.(moments := past.moments + [Moment(signalled, data)]);
    }

    /** The keys a command modifies are signalled. */
    method TouchAll(ls: seq<Loc>)
      requires Indexed()
      modifies this`clients, this`history
      ensures Indexed() && clients.Keys == old(clients.Keys) == history.Keys == old(history.Keys)
      ensures forall c :: c in clients ==> Same(clients[c], old(clients)[c])
      ensures forall c :: c in clients ==> history[c] == TouchedBy(old(history)[c], clients[c], ls)
    {
      hide *;
      Facts();
      var i := 0;
      forall c | c in clients ensures Same(clients[c], clients[c]) && history[c] == TouchedBy(history[c], clients[c], ls[..0]) {
        TouchedNone(history[c], clients[c], ls, clients[c]);
      }
      while i < |ls|
        invariant 0 <= i <= |ls| && Indexed() && clients.Keys == old(clients.Keys) == history.Keys == old(history.Keys)
        invariant forall c :: c in clients ==> Same(clients[c], old(clients)[c])
        invariant forall c :: c in clients ==> history[c] == TouchedBy(old(history)[c], clients[c], ls[..i])
      {
        ghost var cs, hs := clients, history;
        TouchWatchedKey(ls[i]);
        forall c | c in clients ensures Same(clients[c], old(clients)[c]) && history[c] == TouchedBy(old(history)[c], clients[c], ls[..i + 1]) {
          TouchedNext(old(history)[c], cs[c], ls, i, old(clients)[c]);
        }
        i := i + 1;
      }
      assert ls[..i] == ls;
    }

    /** The inner loop of touchWatchedKeysOnFlush: one client. */
    method FlushClient(c: Id, dbid: Option<nat>)
      requires Indexed() && c in clients
      modifies this`clients, this`history
      ensures Indexed() && clients.Keys == old(clients.Keys) == history.Keys == old(history.Keys)
      ensures Same(clients[c], old(clients)[c]) && history[c] == FlushedBy(old(history)[c], clients[c].watched, data, dbid)
      ensures forall x :: x in clients && x != c ==> clients[x] == old(clients)[x] && history[x] == old(history)[x]
    {
      hide *;
      Facts();
      var ws := clients[c].watched;
      var i := 0;
      FlushedNone(old(history)[c], ws, data, dbid, clients[c]);
      while i < |ws|
        invariant 0 <= i <= |ws| && Indexed() && clients.Keys == old(clients.Keys) == history.Keys == old(history.Keys)
        invariant Same(clients[c], old(clients)[c]) && clients[c].watched == ws && history[c] == FlushedBy(old(history)[c], ws[..i], data, dbid)
        invariant forall x :: x in clients && x != c ==> clients[x] == old(clients)[x] && history[x] == old(history)[x]
      {
        // the key is there and will be removed
        ghost var cl := clients[c];
        if InFlush(ws[i], dbid) && ws[i] in data {
          MarkDirty(c, ws[i]);
        }
        FlushedNext(old(history)[c], cl, ws, i, data, dbid, old(clients)[c]);
        i := i + 1;
      }
      assert ws[..i] == ws;
    }

    /** touchWatchedKeysOnFlush. */
    method TouchWatchedKeysOnFlush(dbid: Option<nat>)
      requires Indexed()
      modifies this`clients, this`history
      ensures Indexed() && clients.Keys == old(clients.Keys) == history.Keys == old(history.Keys)
      ensures forall c :: c in clients ==> Same(clients[c], old(clients)[c])
      ensures forall c :: c in clients ==> history[c] == FlushedBy(old(history)[c], clients[c].watched, data, dbid)
    {
      hide *;
      Facts();
      var todo := clients.Keys;
      forall c | c in clients ensures Same(clients[c], clients[c]) {
        FlushedNone(history[c], [], data, dbid, clients[c]);
      }
      while todo != {}
        invariant todo <= clients.Keys && Indexed() && clients.Keys == old(clients.Keys) == history.Keys == old(history.Keys)
        invariant forall c :: c in todo ==> clients[c] == old(clients)[c] && history[c] == old(history)[c]
        invariant forall c :: c in clients ==> Same(clients[c], old(clients)[c])
        invariant forall c :: c in clients && c !in todo ==> history[c] == FlushedBy(old(history)[c], clients[c].watched, data, dbid)
        decreases |todo|
      {
        var c :| c in todo;
        FlushClient(c, dbid);
        todo := todo - {c};
      }
    }

    /** FLUSHDB and FLUSHALL: the keys that go are signalled. */
    method Flush(dbid: Option<nat>)
      requires Valid()
      modifies this`clients, this`history, this`data, this`past
      ensures Valid() && data == map l | l in old(data) && !InFlush(l, dbid) :: old(data)[l]
      ensures past == old(past).(moments := old(past).moments + [Moment(Flushing(old(data), dbid), data)])
      ensures clients.Keys == old(clients.Keys) == history.Keys == old(history.Keys)
      ensures forall c :: c in clients ==> Same(clients[c], old(clients)[c])
      ensures forall c :: c in clients ==> history[c] == FlushedBy(old(history)[c], clients[c].watched, old(data), dbid)
    {
      hide *;
      ValidIs();
      Memories();
      TouchWatchedKeysOnFlush(dbid);
      ghost var gone := Flushing(data, dbid);
      Facts();
      data := map l | l in data && !InFlush(l, dbid) :: data[l];
      IsIndexed();
      forall c | c in clients ensures Recorded(clients[c], history[c], past.(moments := past.moments + [Moment(gone, data)])) {
        Flushed(old(clients)[c], clients[c], old(history)[c], past, old(data), dbid, data);
      }
      Pass(gone);
    }

    /** All but one client are told; that one is about to be cleaned up. */
    ghost predicate ValidBut(c: Id)
      reads this
    {
      && Mirror(clients, watching) && history.Keys == clients.Keys && data == DataAt(past, |past.moments|)
      && forall x :: x in clients && x != c ==> Told(clients[x], history[x]) && Recorded(clients[x], history[x], past)
    }

    /** unwatchAllKeys: to clean the dirty flag is up to the caller. */
    method UnwatchAllKeys(c: Id)
      requires ValidBut(c) && c in clients
      modifies this`clients, this`watching
      ensures ValidBut(c) && clients == old(clients)[c := old(clients)[c].(watched := [])]
    {
      hide Told, Recorded, Mirror, DataAt;
      while clients[c].watched != []
        invariant ValidBut(c) && c in clients && clients == old(clients)[c := old(clients)[c].(watched := clients[c].watched)]
        decreases |clients[c].watched|
      {
        var l := clients[c].watched[0];
        UnwatchMirror(clients, watching, c);
        var list := RemoveFirst(watching[l], c);
        UnlistIs(watching, l, c);
        watching := if list == [] then watching - {l} else watching[l := list];
        clients := clients[c := clients[c].(watched := clients[c].watched[1..])];
      }
    }

    /** A client that watches nothing, has no queue and is not dirty. */
    method Settle(c: Id)
      requires ValidBut(c) && c in clients && clients[c].watched == [] && !clients[c].dirty && (!clients[c].multi ==> clients[c].queue == [])
      modifies this`history
      ensures Valid() && history == old(history)[c := History({}, map[])]
    {
      history := history[c := History({}, map[])];
    }

    /** MULTI; nested calls are refused. */
    method MultiCommand(c: Id) returns (ok: bool)
      requires Valid() && c in clients
      modifies this`clients
      ensures Valid() && (ok <==> !old(clients)[c].multi)
      ensures clients == if ok then old(clients)[c := old(clients)[c].(multi := true)] else old(clients)
    {
      if clients[c].multi {
        return false;
      }
      TouchMirror(clients, watching, c, clients[c].(multi := true));
      clients := clients[c := clients[c].(multi := true)];
      return true;
    }

    /** queueMultiCommand. */
    method QueueMultiCommand(c: Id, cmd: C)
      requires Valid() && c in clients && clients[c].multi
      modifies this`clients
      ensures Valid() && clients == old(clients)[c := old(clients)[c].(queue := old(clients)[c].queue + [cmd])]
    {
      TouchMirror(clients, watching, c, clients[c].(queue := clients[c].queue + [cmd]));
      clients := clients[c := clients[c].(queue := clients[c].queue + [cmd])];
    }

    /** Everything a client had queued and watched is given up. */
    method Abandon(c: Id)
      requires Valid() && c in clients
      modifies this`clients, this`watching, this`history
      ensures Valid() && clients == old(clients)[c := Client(false, false, [], [])]
      ensures history == old(history)[c := History({}, map[])]
    {
      hide Told, Recorded, Mirror, DataAt;
      TouchMirror(clients, watching, c, Client(false, false, [], clients[c].watched));
      clients := clients[c := Client(false, false, [], clients[c].watched)];
      UnwatchAllKeys(c);
      Settle(c);
    }

    /** DISCARD. */
    method DiscardCommand(c: Id) returns (ok: bool)
      requires Valid() && c in clients
      modifies this`clients, this`watching, this`history
      ensures Valid() && (ok <==> old(clients)[c].multi)
      ensures clients == if ok then old(clients)[c := Client(false, false, [], [])] else old(clients)
    {
      if !clients[c].multi {
        return false;
      }
      Abandon(c);
      return true;
    }

    /** UNWATCH; inside MULTI it is only queued. */
    method UnwatchCommand(c: Id)
      requires Valid() && c in clients && !clients[c].multi
      modifies this`clients, this`watching, this`history
      ensures Valid() && clients == old(clients)[c := Client(false, false, [], [])]
    {
      Abandon(c);
    }

    /** A connection is closed (freeClient). */
    method FreeClient(c: Id)
      requires Valid() && c in clients
      modifies this`clients, this`watching, this`history
      ensures Valid() && clients == old(clients) - {c}
    {
      hide Told, Recorded, Mirror, DataAt;
      Abandon(c);
      FreeMirror(clients, watching, c);
      clients, history := clients - {c}, history - {c};
    }

    /** EXEC: the queue is executed exactly when no watched key has been signalled since it was watched. */
    method ExecCommand(c: Id) returns (executed: bool)
      requires Valid() && c in clients
      modifies this
      ensures Valid() && clients.Keys == old(clients.Keys)
      ensures executed <==> old(clients)[c].multi && c in old(history) && Untouched(old(clients)[c], old(history)[c], old(past))
      ensures data == if executed then RunAll(effect, old(clients)[c].queue, old(data)) else old(data)
      ensures clients[c] == if old(clients)[c].multi then Client(false, false, [], []) else old(clients)[c]
      ensures !executed ==> past == old(past)
      ensures !executed ==> forall x :: x in clients && x != c ==> clients[x] == old(clients)[x] && history[x] == old(history)[x]
    {
      hide *;
      ValidIs();
      Facts();
      Memories();
      DirtyTells(clients[c], history[c], past);
      if !clients[c].multi {
        return false;
      }
      if clients[c].dirty {
        Abandon(c);
        return false;
      }
      BecomesValidBut(c);
      UnwatchAllKeys(c);
      Settle(c);
      ValidIs();
      var queue := clients[c].queue;
      var j := 0;
      RunNone(effect, queue, data);
      while j < |queue|
        invariant 0 <= j <= |queue| && Valid() && clients.Keys == old(clients.Keys) && data == RunAll(effect, queue[..j], old(data))
        invariant clients[c].watched == []
      {
        RunNext(effect, queue, j, old(data));
        Call(queue[j]);
        SameWatched(clients[c]);
        j := j + 1;
      }
      assert queue[..j] == queue;
      Abandon(c);
      return true;
    }

    lemma BecomesValidBut(c: Id)
      requires Valid()
      ensures ValidBut(c)
    {}
  }

  lemma SameWatched<C>(c: Client<C>)
    ensures forall d: Client<C> :: Same(c, d) ==> c.watched == d.watched
  {}

  lemma DirtyTells<C, V>(c: Client<C>, h: History, past: Past<V>)
    requires Told(c, h) && Recorded(c, h, past)
    ensures c.dirty <==> !Untouched(c, h, past)
  {
    if l :| l in h.touched {
      assert SignalledSince(past, h.since[l], l);
    }
    if l :| l in c.watched && SignalledSince(past, h.since[l], l) {
      assert l in h.touched;
    }
  }

  lemma RunNone<C, V>(effect: (C, map<Loc, V>) -> Effect<V>, queue: seq<C>, data: map<Loc, V>)
    ensures RunAll(effect, queue[..0], data) == data
  {}

  lemma RunNext<C, V>(effect: (C, map<Loc, V>) -> Effect<V>, queue: seq<C>, j: nat, data: map<Loc, V>)
    requires j < |queue|
    ensures RunAll(effect, queue[..j + 1], data) == effect(queue[j], RunAll(effect, queue[..j], data)).data
  {
    assert queue[..j + 1][..j] == queue[..j];
  }

  lemma UnlistIs(watching: map<Loc, seq<Id>>, l: Loc, c: Id)
    requires l in watching
    ensures Unlist(watching, l, c) == var r := RemoveFirst(watching[l], c); if r == [] then watching - {l} else watching[l := r]
  {}

  /** The history after a flush: keys that were there have been touched. */
  ghost function FlushedBy<V>(h: History, ls: seq<Loc>, data: map<Loc, V>, dbid: Option<nat>): History {
    h.(touched := h.touched + (set l | l in ls && InFlush(l, dbid) && l in data))
  }

  lemma FlushedNone<C, V>(h: History, ls: seq<Loc>, data: map<Loc, V>, dbid: Option<nat>, c: Client<C>)
    ensures FlushedBy(h, ls[..0], data, dbid) == h && Same(c, c)
  {
    assert FlushedBy(h, ls[..0], data, dbid).touched == h.touched;
  }

  lemma FlushedNext<C, V>(h: History, c: Client<C>, ls: seq<Loc>, i: nat, data: map<Loc, V>, dbid: Option<nat>, c0: Client<C>)
    requires i < |ls| && c.watched == ls && Same(c, c0)
    ensures var b := FlushedBy(h, ls[..i], data, dbid);
            FlushedBy(h, ls[..i + 1], data, dbid) == if InFlush(ls[i], dbid) && ls[i] in data then TouchHistory(b, c, ls[i]) else b
    ensures Same(TouchClient(c, ls[i]), c0) && TouchClient(c, ls[i]).watched == ls
  {
    assert ls[..i + 1] == ls[..i] + [ls[i]];
    var a, b := FlushedBy(h, ls[..i + 1], data, dbid), FlushedBy(h, ls[..i], data, dbid);
    assert a.touched == if InFlush(ls[i], dbid) && ls[i] in data then b.touched + {ls[i]} else b.touched;
  }

  lemma Flushed<C, V>(c0: Client<C>, c: Client<C>, h: History, past: Past<V>, d: map<Loc, V>, dbid: Option<nat>, data: map<Loc, V>)
    requires Recorded(c0, h, past) && Same(c, c0)
    ensures Recorded(c, FlushedBy(h, c.watched, d, dbid), past.(moments := past.moments + [Moment(Flushing(d, dbid), data)]))
  {
    assert Recorded(c, h, past);
    RecordedNext(c, h, FlushedBy(h, c.watched, d, dbid), past, Moment(Flushing(d, dbid), data));
  }

  // ----- What EXEC sees

  /** A key has been the same all the time from one moment on. */
  ghost predicate Steady<V(!new)>(past: Past<V>, l: Loc, i: nat) {
    forall j: nat :: i <= j <= |past.moments| ==> Lookup(DataAt(past, j), l) == Lookup(DataAt(past, i), l)
  }

  /** The command of moment `j` has changed a key without signalling it. */
  ghost predicate ChangedUnseen<V(!new)>(past: Past<V>, l: Loc, j: nat)
    requires j < |past.moments|
  {
    Lookup(DataAt(past, j + 1), l) != Lookup(DataAt(past, j), l) && l !in past.moments[j].signalled
  }

  /**
   A client whose EXEC will run sees every key it watches as it has been all the time since it was watched, exactly when
   no command since then has changed such a key without signalling it.
   */
  lemma ExecSeesWhatWasWatched<C, V(!new)>(c: Client<C>, h: History, past: Past<V>)
    requires Told(c, h) && Recorded(c, h, past) && !c.dirty
    ensures (forall l :: l in c.watched ==> Steady(past, l, h.since[l]))
       <==> forall l, j: nat :: l in c.watched && h.since[l] <= j < |past.moments| ==> !ChangedUnseen(past, l, j)
  {
    DirtyTells(c, h, past);
    forall l | l in c.watched
      ensures Steady(past, l, h.since[l]) <==> forall j: nat :: h.since[l] <= j < |past.moments| ==> !ChangedUnseen(past, l, j)
    {
      SteadyIs(past, l, h.since[l]);
    }
  }

  /** A key that is never signalled is steady exactly when it is never changed unseen. */
  lemma SteadyIs<V(!new)>(past: Past<V>, l: Loc, i: nat)
    requires i <= |past.moments| && !SignalledSince(past, i, l)
    ensures Steady(past, l, i) <==> forall j: nat :: i <= j < |past.moments| ==> !ChangedUnseen(past, l, j)
  {
    if forall j: nat :: i <= j < |past.moments| ==> !ChangedUnseen(past, l, j) {
      forall j: nat | i <= j <= |past.moments| ensures Lookup(DataAt(past, j), l) == Lookup(DataAt(past, i), l) {
        SteadyTo(past, l, i, j);
      }
    }
    if Steady(past, l, i) {
      forall j: nat | i <= j < |past.moments| ensures !ChangedUnseen(past, l, j) {
        assert Lookup(DataAt(past, j + 1), l) == Lookup(DataAt(past, i), l) == Lookup(DataAt(past, j), l);
      }
    }
  }

  lemma {:induction false} SteadyTo<V(!new)>(past: Past<V>, l: Loc, i: nat, j: nat)
    requires i <= j <= |past.moments| && !SignalledSince(past, i, l)
    requires forall k: nat :: i <= k < j ==> !ChangedUnseen(past, l, k)
    ensures Lookup(DataAt(past, j), l) == Lookup(DataAt(past, i), l)
  {
    if i < j {
      SteadyTo(past, l, i, j - 1);
      assert !ChangedUnseen(past, l, j - 1);
    }
  }

  // ----- A command that changes a key unseen

  datatype Value = ListValue(xs: seq<seq<byte>>) | OtherValue

  datatype Rpoplpush = Rpoplpush(src: Loc, dst: Loc)

  predicate HasList(data: map<Loc, Value>, l: Loc) {
    l in data && data[l].ListValue? && data[l].xs != []
  }

  /** rpoplpushCommand while no client waits for the target: the target is signalled only when it was there. */
  function RpoplpushEffect(cmd: Rpoplpush, data: map<Loc, Value>): Effect<Value> {
    if !HasList(data, cmd.src) || (cmd.dst in data && data[cmd.dst] == OtherValue) then Effect(data, [])
    else
      var xs := data[cmd.src].xs;
      var n := |xs| - 1;
      var popped := data[cmd.src := ListValue(xs[..n])];
      var dstobj := if cmd.dst in popped then popped[cmd.dst].xs else [];
      var pushed := popped[cmd.dst := ListValue([xs[n]] + dstobj)];
      Effect(if pushed[cmd.src] == ListValue([]) then pushed - {cmd.src} else pushed, (if cmd.dst in data then [cmd.dst] else []) + [cmd.src])
  }

  /** It signals every key it changes exactly when it does not create its target. */
  lemma RpoplpushSignals(cmd: Rpoplpush, data: map<Loc, Value>)
    ensures (forall l :: Lookup(RpoplpushEffect(cmd, data).data, l) != Lookup(data, l) ==> l in RpoplpushEffect(cmd, data).touched)
       <==> !(HasList(data, cmd.src) && cmd.dst !in data)
  {
    var e := RpoplpushEffect(cmd, data);
    if HasList(data, cmd.src) && cmd.dst !in data {
      assert Lookup(e.data, cmd.dst) != Lookup(data, cmd.dst) && cmd.dst !in e.touched;
    }
  }

  /** A client watches a key that is missing, RPOPLPUSH creates it, and EXEC is executed all the same. */
  method WatchedKeyIsCreated(src: Loc, dst: Loc, ele: seq<byte>) returns (executed: bool, before: map<Loc, Value>, after: map<Loc, Value>)
    requires src != dst
    ensures executed && dst !in before && dst in after && after[dst] == ListValue([ele])
  {
    before := map[src := ListValue([ele])];
    Created(src, dst, ele);
    hide RpoplpushEffect;
    var server := new Server(RpoplpushEffect, before);
    server.Connect(0);
    server.WatchForKey(0, dst);
    server.Call(Rpoplpush(src, dst));
    NeverSignalled(server.past, dst);
    var ok := server.MultiCommand(0);
    ghost var c, data := server.clients[0], server.data;
    assert Untouched(c, server.history[0], server.past);
    executed := server.ExecCommand(0);
    after := server.data;
    assert c.queue == [] && RunAll(server.effect, [], data) == data;
  }

  lemma Created(src: Loc, dst: Loc, ele: seq<byte>)
    requires src != dst
    ensures RpoplpushEffect(Rpoplpush(src, dst), map[src := ListValue([ele])]) == Effect(map[dst := ListValue([ele])], [src])
  {
    assert [ele][..0] == [] && [ele] + [] == [ele];
  }

  lemma NeverSignalled<V>(past: Past<V>, l: Loc)
    requires |past.moments| == 1 && l !in past.moments[0].signalled
    ensures !SignalledSince(past, 0, l)
  {}

  /** The same but for the dirty flag. */
  ghost predicate Same<C>(c: Client<C>, c': Client<C>) {
    c.multi == c'.multi && c.queue == c'.queue && c.watched == c'.watched
  }

  lemma WatchersIs(watching: map<Loc, seq<Id>>, l: Loc)
    ensures Watchers(watching, l) == if l in watching then watching[l] else []
  {}

  lemma NotBefore(list: seq<Id>, i: nat)
    requires NoRepeats(list) && i < |list|
    ensures list[i] !in list[..i] && list[..i + 1] == list[..i] + [list[i]]
  {}

  lemma TouchedAll<C>(cs: map<Id, Client<C>>, cs': map<Id, Client<C>>, hs: map<Id, History>, hs': map<Id, History>, list: seq<Id>, l: Loc)
    requires cs.Keys == cs'.Keys == hs.Keys == hs'.Keys && forall c :: c in cs && c !in list ==> l !in cs[c].watched
    requires forall c :: c in cs && c in list ==> cs'[c] == TouchClient(cs[c], l)
    requires forall c :: c in cs && c in list ==> hs'[c] == TouchHistory(hs[c], cs[c], l)
    requires forall c :: c in cs && c !in list ==> cs'[c] == cs[c] && hs'[c] == hs[c]
    ensures forall c :: c in cs ==> cs'[c] == TouchClient(cs[c], l) && hs'[c] == TouchHistory(hs[c], cs[c], l)
  {
    forall c | c in cs ensures cs'[c] == TouchClient(cs[c], l) && hs'[c] == TouchHistory(hs[c], cs[c], l) {
      NotTouched(cs[c], hs[c], l);
    }
  }

  lemma NotTouched<C>(c: Client<C>, h: History, l: Loc)
    ensures l !in c.watched ==> TouchClient(c, l) == c && TouchHistory(h, c, l) == h
  {}

  lemma Signalled<C, V>(c0: Client<C>, c: Client<C>, h: History, past: Past<V>, ls: seq<Loc>, data: map<Loc, V>)
    requires Recorded(c0, h, past) && Same(c, c0)
    ensures Recorded(c, TouchedBy(h, c, ls), past.(moments := past.moments + [Moment(SetOf(ls), data)]))
  {
    assert Recorded(c, h, past);
    RecordedNext(c, h, TouchedBy(h, c, ls), past, Moment(SetOf(ls), data));
  }

  /** The history after some keys have been touched. */
  function TouchedBy<C>(h: History, c: Client<C>, ls: seq<Loc>): History {
    h.(touched := h.touched + (set l | l in ls && l in c.watched))
  }

  lemma TouchedNone<C>(h: History, c: Client<C>, ls: seq<Loc>, c0: Client<C>)
    ensures TouchedBy(h, c, ls[..0]) == h && Same(c0, c0)
  {
    assert TouchedBy(h, c, ls[..0]).touched == h.touched;
  }

  lemma TouchedNext<C>(h: History, c: Client<C>, ls: seq<Loc>, i: nat, c0: Client<C>)
    requires i < |ls| && Same(c, c0)
    ensures TouchHistory(TouchedBy(h, c, ls[..i]), c, ls[i]) == TouchedBy(h, TouchClient(c, ls[i]), ls[..i + 1])
    ensures Same(TouchClient(c, ls[i]), c0)
  {
    assert ls[..i + 1] == ls[..i] + [ls[i]];
  }
}
