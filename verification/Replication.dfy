/**
 Replication (replication.c): a slave that asks for synchronisation is sent the dump of a background save, and then the
 commands executed since that save forked, which have been collected for it in the meantime.
 */
module Replication {
  import opened Bytes

  type Argv = seq<seq<byte>>

  // ----- Command streams

  /** What is put into the output buffer of a slave. */
  datatype Item = Select(db: nat) | Command(argv: Argv)

  /** A command and the database it is executed in. */
  datatype Fed = Fed(db: nat, argv: Argv)

  /** The database selected after a stream; a new connection has database 0. */
  function Selected(items: seq<Item>): nat {
    if items == [] then 0
    else match items[|items| - 1]
      case Select(db) => db
      case Command(_) => Selected(items[..|items| - 1])
  }

  /** What a slave that reads the stream executes. */
  function Executes(items: seq<Item>): seq<Fed> {
    if items == [] then []
    else
      var before := items[..|items| - 1];
      match items[|items| - 1]
      case Select(_) => Executes(before)
      case Command(argv) => Executes(before) + [Fed(Selected(before), argv)]
  }

  function Fold<D>(apply: (D, Fed) -> D, d: D, log: seq<Fed>): D {
    if log == [] then d else apply(Fold(apply, d, log[..|log| - 1]), log[|log| - 1])
  }

  lemma {:induction false} FoldAppend<D>(apply: (D, Fed) -> D, d: D, a: seq<Fed>, b: seq<Fed>)
    ensures Fold(apply, d, a + b) == Fold(apply, Fold(apply, d, a), b)
  {
    if b == [] {
      assert a + b == a;
    } else {
      assert (a + b)[..|a + b| - 1] == a + b[..|b| - 1];
      FoldAppend(apply, d, a, b[..|b| - 1]);
    }
  }

  // ----- Slaves

  datatype ReplState = WaitBgsaveStart | WaitBgsaveEnd | SendBulk | Online

  datatype Slave = Slave(
    id: nat,
    replstate: ReplState,
    slaveseldb: nat,
    reply: seq<Item>,        // the output buffer, all that was ever put in it after SYNC
    repldb: seq<byte>,       // the dump being sent
    repldboff: nat,
    sent: seq<byte>,         // the bytes of the dump written to the slave
    since: nat               // how many commands had been executed when the save it relies on forked
  )

  /** The body of the loop of replicationFeedSlaves. */
  function FeedOne(s: Slave, dictid: nat, argv: Argv): Slave {
    if s.replstate == WaitBgsaveStart then s
    else s.(reply := s.reply + (if s.slaveseldb != dictid then [Select(dictid)] else []) + [Command(argv)], slaveseldb := dictid)
  }

  /** The master knows which database the slave has selected. */
  predicate Aligned(s: Slave) {
    Selected(s.reply) == s.slaveseldb
  }

  /** The slave has been given exactly the commands executed since the save, each in its database. */
  predicate Complete(s: Slave, executed: seq<Fed>) {
    s.since <= |executed| && Executes(s.reply) == executed[s.since..]
  }

  lemma StreamSnoc(items: seq<Item>, i: Item)
    ensures Selected(items + [i]) == if i.Select? then i.db else Selected(items)
    ensures Executes(items + [i]) == if i.Select? then Executes(items) else Executes(items) + [Fed(Selected(items), i.argv)]
  {
    assert (items + [i])[..|items|] == items;
  }

  /**
   Feeding a command to a slave that has everything so far keeps that so exactly when the master is right about the
   selected database, or is to select another one anyway; either way it is right about it if it was, or if it selects.
   */
  lemma FeedExact(s: Slave, executed: seq<Fed>, dictid: nat, argv: Argv)
    requires s.replstate != WaitBgsaveStart && Complete(s, executed)
    ensures Complete(FeedOne(s, dictid, argv), executed + [Fed(dictid, argv)]) <==> Aligned(s) || dictid != s.slaveseldb
    ensures Aligned(FeedOne(s, dictid, argv)) <==> Aligned(s) || dictid != s.slaveseldb
  {
    var sel := if s.slaveseldb != dictid then [Select(dictid)] else [];
    if s.slaveseldb != dictid {
      StreamSnoc(s.reply, Select(dictid));
    } else {
      assert s.reply + sel == s.reply;
    }
    StreamSnoc(s.reply + sel, Command(argv));
    assert (executed + [Fed(dictid, argv)])[s.since..] == executed[s.since..] + [Fed(dictid, argv)];
    var got := Executes(s.reply + sel + [Command(argv)]);
    assert got[|got| - 1] == Fed(Selected(s.reply + sel), argv);
  }

  /** syncCommand with a save going on for another slave: that slave's buffer is copied, its database is not. */
  function Copied(id: nat, from: Slave): Slave {
    Slave(id, WaitBgsaveEnd, 0, from.reply, [], 0, [], from.since)
  }

  /** The copy has everything the other slave has; the master is right about its database exactly if that is database 0. */
  lemma CopyExact(id: nat, from: Slave, executed: seq<Fed>)
    requires Aligned(from) && Complete(from, executed)
    ensures Complete(Copied(id, from), executed)
    ensures Aligned(Copied(id, from)) <==> from.slaveseldb == 0
  {}

  /** What goes wrong otherwise: the next command of database 0 is executed by the slave in another database. */
  lemma CopyGoesAstray(id: nat, from: Slave, executed: seq<Fed>, argv: Argv)
    requires Aligned(from) && Complete(from, executed) && from.slaveseldb != 0
    ensures var s := FeedOne(Copied(id, from), 0, argv);
            !Complete(s, executed + [Fed(0, argv)]) && Executes(s.reply) == executed[from.since..] + [Fed(from.slaveseldb, argv)]
  {
    CopyExact(id, from, executed);
    FeedExact(Copied(id, from), executed, 0, argv);
    var none: seq<Item> := [];
    assert from.reply + none == from.reply;
    StreamSnoc(from.reply + none, Command(argv));
  }

  // ----- The master

  datatype Child<D> = Child(snapshot: D, forkAt: nat)

  /** What a slave has to have, in each of its states. */
  ghost predicate Served<D>(s: Slave, executed: seq<Fed>, child: Option<Child<D>>, apply: (D, Fed) -> D, start: D, dump: D -> seq<byte>) {
    match s.replstate
    case WaitBgsaveStart => child.Some? && s.reply == [] && s.slaveseldb == 0
    case WaitBgsaveEnd => child.Some? && s.since == child.value.forkAt && Aligned(s) && Complete(s, executed)
    case SendBulk =>
      && Aligned(s) && Complete(s, executed)
      && s.repldb == dump(Fold(apply, start, executed[..s.since])) && s.repldboff < |s.repldb| && s.sent == s.repldb[..s.repldboff]
    case Online =>
      && Aligned(s) && Complete(s, executed)
      && s.sent == dump(Fold(apply, start, executed[..s.since]))
  }

  /** What a slave has even when the dump it is given is not that of the save it relies on: all commands since then. */
  ghost predicate Tracked(s: Slave, executed: seq<Fed>, saving: bool) {
    match s.replstate
    case WaitBgsaveStart => saving && s.reply == [] && s.slaveseldb == 0
    case WaitBgsaveEnd => Aligned(s) && Complete(s, executed)
    case SendBulk => Aligned(s) && Complete(s, executed) && s.repldboff <= |s.repldb| && s.sent == s.repldb[..s.repldboff]
    case Online => Aligned(s) && Complete(s, executed)
  }

  lemma TrackedFeed(s: Slave, executed: seq<Fed>, saving: bool, dictid: nat, argv: Argv)
    requires Tracked(s, executed, saving)
    ensures Tracked(FeedOne(s, dictid, argv), executed + [Fed(dictid, argv)], saving)
  {
    if s.replstate != WaitBgsaveStart {
      FeedExact(s, executed, dictid, argv);
    }
  }

  lemma ServedIsTracked<D>(s: Slave, executed: seq<Fed>, child: Option<Child<D>>, apply: (D, Fed) -> D, start: D, dump: D -> seq<byte>)
    requires Served(s, executed, child, apply, start, dump)
    ensures Tracked(s, executed, child.Some?)
  {}

  /** A slave whose save never was, but whose commands since then are those since another save, is served by that. */
  lemma NoCommandSince<D>(s: Slave, executed: seq<Fed>, child: Child<D>, apply: (D, Fed) -> D, start: D, dump: D -> seq<byte>)
    requires Tracked(s, executed, true) && s.replstate == WaitBgsaveEnd
    ensures Served(s, executed, Some(child), apply, start, dump) <==> s.since == child.forkAt
  {}

  /** The dataset of a slave that has loaded what it is sent, and executed all in its buffer. */
  function Obtained<D>(s: Slave, apply: (D, Fed) -> D, load: seq<byte> -> D): D {
    Fold(apply, load(s.repldb), Executes(s.reply))
  }

  /** A dump later than what the slave relies on: the commands between the two are executed a second time. */
  lemma CommandsRepeated<D>(s: Slave, executed: seq<Fed>, at: nat, apply: (D, Fed) -> D, start: D, dump: D -> seq<byte>, load: seq<byte> -> D)
    requires Complete(s, executed) && s.since <= at <= |executed| && forall d :: load(dump(d)) == d
    requires s.repldb == dump(Fold(apply, start, executed[..at]))
    ensures var snapshot := Fold(apply, start, executed[..at]);
            Obtained(s, apply, load) == Fold(apply, Fold(apply, snapshot, executed[s.since..at]), executed[at..])
    ensures Fold(apply, start, executed) == Fold(apply, Fold(apply, start, executed[..at]), executed[at..])
  {
    assert executed[s.since..] == executed[s.since..at] + executed[at..];
    FoldAppend(apply, Fold(apply, start, executed[..at]), executed[s.since..at], executed[at..]);
    assert executed == executed[..at] + executed[at..];
    FoldAppend(apply, start, executed[..at], executed[at..]);
  }

  /**
   Such a slave has the dataset that the master has had, at every moment from the dump on, exactly when these commands
   change nothing in the dump; so it has when there are none.
   */
  lemma RepeatedExact<D>(s: Slave, executed: seq<Fed>, at: nat, apply: (D, Fed) -> D, start: D, dump: D -> seq<byte>, load: seq<byte> -> D)
    requires Complete(s, executed) && s.since <= at <= |executed| && forall d :: load(dump(d)) == d
    requires s.repldb == dump(Fold(apply, start, executed[..at]))
    ensures var snapshot := Fold(apply, start, executed[..at]);
            (forall k :: at <= k <= |executed| ==> Fold(apply, load(s.repldb), executed[s.since..k]) == Fold(apply, start, executed[..k]))
            <==> Fold(apply, snapshot, executed[s.since..at]) == snapshot
    ensures s.since == at ==> Obtained(s, apply, load) == Fold(apply, start, executed)
  {
    var snapshot := Fold(apply, start, executed[..at]);
    forall k | at <= k <= |executed|
      ensures Fold(apply, load(s.repldb), executed[s.since..k]) == Fold(apply, Fold(apply, snapshot, executed[s.since..at]), executed[at..k])
      ensures Fold(apply, start, executed[..k]) == Fold(apply, snapshot, executed[at..k])
    {
      assert executed[s.since..k] == executed[s.since..at] + executed[at..k];
      FoldAppend(apply, snapshot, executed[s.since..at], executed[at..k]);
      assert executed[..k] == executed[..at] + executed[at..k];
      FoldAppend(apply, start, executed[..at], executed[at..k]);
    }
    assert executed[at..at] == [];
    assert executed[s.since..at] == [] <==> s.since == at;
    CommandsRepeated(s, executed, at, apply, start, dump, load);
  }

  /** A slave that loads what it has been sent and executes its stream has the dataset of the master. */
  lemma OnlineSlaveIsCurrent<D>(s: Slave, executed: seq<Fed>, child: Option<Child<D>>, apply: (D, Fed) -> D, start: D, dump: D -> seq<byte>,
                                load: seq<byte> -> D)
    requires Served(s, executed, child, apply, start, dump) && s.replstate == Online && forall d :: load(dump(d)) == d
    ensures Fold(apply, load(s.sent), Executes(s.reply)) == Fold(apply, start, executed)
  {
    assert executed == executed[..s.since] + executed[s.since..];
    FoldAppend(apply, start, executed[..s.since], executed[s.since..]);
  }

  lemma ServedFeed<D>(s: Slave, executed: seq<Fed>, child: Option<Child<D>>, apply: (D, Fed) -> D, start: D, dump: D -> seq<byte>, dictid: nat, argv: Argv)
    requires Served(s, executed, child, apply, start, dump)
    ensures Served(FeedOne(s, dictid, argv), executed + [Fed(dictid, argv)], child, apply, start, dump)
  {
    if s.replstate != WaitBgsaveStart {
      FeedExact(s, executed, dictid, argv);
      assert (executed + [Fed(dictid, argv)])[..s.since] == executed[..s.since];
    }
  }

  /** All slaves being fed. */
  lemma FedAll<D>(ss: seq<Slave>, executed: seq<Fed>, child: Option<Child<D>>, apply: (D, Fed) -> D, start: D, dump: D -> seq<byte>, dictid: nat, argv: Argv)
    requires forall s :: s in ss ==> Tracked(s, executed, child.Some?)
    ensures forall i :: 0 <= i < |ss| ==> Tracked(FeedOne(ss[i], dictid, argv), executed + [Fed(dictid, argv)], child.Some?)
    ensures forall i :: 0 <= i < |ss| && Served(ss[i], executed, child, apply, start, dump) ==>
              Served(FeedOne(ss[i], dictid, argv), executed + [Fed(dictid, argv)], child, apply, start, dump)
  {
    hide Served, Tracked, FeedOne;
    forall i | 0 <= i < |ss|
      ensures Tracked(FeedOne(ss[i], dictid, argv), executed + [Fed(dictid, argv)], child.Some?)
      ensures Served(ss[i], executed, child, apply, start, dump) ==>
                Served(FeedOne(ss[i], dictid, argv), executed + [Fed(dictid, argv)], child, apply, start, dump)
    {
      TrackedFeed(ss[i], executed, child.Some?, dictid, argv);
      if Served(ss[i], executed, child, apply, start, dump) {
        ServedFeed(ss[i], executed, child, apply, start, dump, dictid, argv);
      }
    }
  }

  /** What a slave becomes when a save has ended; none when it is freed. */
  function AfterSave(s: Slave, ok: bool, canOpen: bool, file: seq<byte>, now: nat): Option<Slave> {
    if s.replstate == WaitBgsaveStart then Some(s.(replstate := WaitBgsaveEnd, since := now))
    else if s.replstate == WaitBgsaveEnd then
      (if ok && canOpen then Some(s.(repldb := file, repldboff := 0, sent := [], replstate := SendBulk)) else None)
    else Some(s)
  }

  /** Between the end of a save and the start of the next: slaves that wait for the next have nothing yet. */
  ghost predicate Settled<D>(s: Slave, executed: seq<Fed>, apply: (D, Fed) -> D, start: D, dump: D -> seq<byte>) {
    match s.replstate
    case WaitBgsaveStart => false
    case WaitBgsaveEnd => s.reply == [] && s.slaveseldb == 0 && s.since == |executed|
    case SendBulk => Served(s, executed, None, apply, start, dump)
    case Online => Served(s, executed, None, apply, start, dump)
  }

  /** The slave is given the file on disk as the dump it waits for. */
  predicate IsGivenFile(s: Slave, ok: bool, canOpen: nat -> bool) {
    s.replstate == WaitBgsaveEnd && ok && canOpen(s.id)
  }

  predicate HasDump(s: Slave) {
    s.replstate == SendBulk || s.replstate == Online
  }

  /** The slave is given a file that is not the dump of the save it relies on, or has been sent such a one. */
  ghost predicate Misled<D>(s: Slave, executed: seq<Fed>, apply: (D, Fed) -> D, start: D, dump: D -> seq<byte>, ok: bool, canOpen: nat -> bool, file: seq<byte>) {
    || (IsGivenFile(s, ok, canOpen) && s.since <= |executed| && file != dump(Fold(apply, start, executed[..s.since])))
    || (HasDump(s) && !Served(s, executed, None, apply, start, dump))
  }

  lemma AfterSaveSettled<D>(s: Slave, executed: seq<Fed>, apply: (D, Fed) -> D, start: D, dump: D -> seq<byte>,
                            ok: bool, canOpen: nat -> bool, file: seq<byte>)
    requires Tracked(s, executed, true) && forall d :: dump(d) != []
    ensures var r := AfterSave(s, ok, canOpen(s.id), file, |executed|);
            && (r.Some? ==> Tracked(r.value, executed, false))
            && (r.Some? ==> (Settled(r.value, executed, apply, start, dump) <==> !Misled(s, executed, apply, start, dump, ok, canOpen, file)))
            && (r.Some? && !Settled(r.value, executed, apply, start, dump) ==> HasDump(r.value))
            && (r == None ==> !Misled(s, executed, apply, start, dump, ok, canOpen, file))
  {
    var r := AfterSave(s, ok, canOpen(s.id), file, |executed|);
    if s.replstate == WaitBgsaveStart {
      assert executed[|executed|..] == [];
    }
  }

  /** All slaves after a save has ended. */
  function Promoted(ss: seq<Slave>, ok: bool, canOpen: nat -> bool, file: seq<byte>, now: nat): seq<Slave> {
    if ss == [] then []
    else
      var n := |ss| - 1;
      Promoted(ss[..n], ok, canOpen, file, now)
      + (match AfterSave(ss[n], ok, canOpen(ss[n].id), file, now) case Some(s) => [s] case None => [])
  }

  /** All slaves after a save are right so far exactly if none was misled. */
  lemma {:induction false} PromotedSettled<D>(ss: seq<Slave>, executed: seq<Fed>, apply: (D, Fed) -> D, start: D,
                                              dump: D -> seq<byte>, ok: bool, canOpen: nat -> bool, file: seq<byte>)
    requires (forall s :: s in ss ==> Tracked(s, executed, true)) && forall d :: dump(d) != []
    ensures var r := Promoted(ss, ok, canOpen, file, |executed|);
            && (forall s :: s in r ==> Tracked(s, executed, false))
            && (forall s :: s in r && !Settled(s, executed, apply, start, dump) ==> HasDump(s))
            && ((forall s :: s in r ==> Settled(s, executed, apply, start, dump))
                <==> forall s :: s in ss ==> !Misled(s, executed, apply, start, dump, ok, canOpen, file))
  {
    if ss != [] {
      hide Tracked, Settled, Misled, AfterSave, HasDump;
      var n := |ss| - 1;
      var most, last := ss[..n], ss[n];
      assert ss == most + [last];
      PromotedSettled(most, executed, apply, start, dump, ok, canOpen, file);
      AfterSaveSettled(last, executed, apply, start, dump, ok, canOpen, file);
      var a, o := Promoted(most, ok, canOpen, file, |executed|), AfterSave(last, ok, canOpen(last.id), file, |executed|);
      var b := match o case Some(s) => [s] case None => [];
      assert o.Some? ==> o.value in a + b;
      assert forall s :: s in a ==> s in a + b;
      assert forall s :: s in most ==> s in ss;
      assert last in ss;
    }
  }

  /** Those that wait for the end of the next save are those that waited for its start. */
  lemma {:induction false} PromotedWaiting(ss: seq<Slave>, ok: bool, canOpen: nat -> bool, file: seq<byte>, now: nat)
    ensures (exists s :: s in Promoted(ss, ok, canOpen, file, now) && s.replstate == WaitBgsaveEnd)
       <==> exists s :: s in ss && s.replstate == WaitBgsaveStart
  {
    if ss != [] {
      var n := |ss| - 1;
      PromotedWaiting(ss[..n], ok, canOpen, file, now);
      assert ss == ss[..n] + [ss[n]];
      var a, o := Promoted(ss[..n], ok, canOpen, file, now), AfterSave(ss[n], ok, canOpen(ss[n].id), file, now);
      var b := match o case Some(s) => [s] case None => [];
      assert o.Some? ==> o.value in a + b;
      assert forall s :: s in a ==> s in a + b;
    }
  }

  /** The next save: slaves that waited for it rely on it. */
  lemma NextSave<D>(s: Slave, executed: seq<Fed>, child: Option<Child<D>>, apply: (D, Fed) -> D, start: D, dump: D -> seq<byte>)
    requires Settled(s, executed, apply, start, dump)
    requires s.replstate == WaitBgsaveEnd ==> child.Some? && child.value.forkAt == |executed|
    ensures Served(s, executed, child, apply, start, dump)
  {}

  lemma UnsettledIsNotServed<D>(s: Slave, executed: seq<Fed>, child: Option<Child<D>>, apply: (D, Fed) -> D, start: D, dump: D -> seq<byte>)
    requires HasDump(s) && !Settled(s, executed, apply, start, dump)
    ensures !Served(s, executed, child, apply, start, dump)
  {}

  lemma TrackedOn(s: Slave, executed: seq<Fed>, saving: bool)
    requires Tracked(s, executed, false)
    ensures Tracked(s, executed, saving)
  {}

  const REDIS_IOBUF_LEN: nat := 1024 * 16

  /** The first slave for which differences are being collected since the save forked. */
  function FirstWaiting(slaves: seq<Slave>, from: nat): (r: Option<nat>)
    requires from <= |slaves|
    ensures r.Some? ==> from <= r.value < |slaves| && slaves[r.value].replstate == WaitBgsaveEnd
    decreases |slaves| - from
  {
    if from == |slaves| then None
    else if slaves[from].replstate == WaitBgsaveEnd then Some(from)
    else FirstWaiting(slaves, from + 1)
  }

  datatype SyncResult = Ignored | Refused | Accepted

  class Master<D(!new)> {
    const apply: (D, Fed) -> D
    const start: D
    const dump: D -> seq<byte>           // the bytes of a dump
    var dataset: D
    var slaves: seq<Slave>
    var child: Option<Child<D>>          // bgsavechildpid, with the memory of the child
    var rdbfile: seq<byte>               // the dump file on disk
    var executed: seq<Fed>               // all commands executed so far, for the model only

    ghost predicate Base()
      reads this
    {
      && dataset == Fold(apply, start, executed)
      && (child.Some? ==> child.value.forkAt <= |executed| && child.value.snapshot == Fold(apply, start, executed[..child.value.forkAt]))
      && forall d :: dump(d) != []
    }

    /** No slave has missed a command, or been fed one in the wrong database, since the save it relies on. */
    ghost predicate Coherent()
      reads this
    {
      Base() && forall i :: 0 <= i < |slaves| ==> Tracked(slaves[i], executed, child.Some?)
    }

    /** Besides, every slave has, or is going to have, the dump of that save. */
    ghost predicate Valid()
      reads this
    {
      Base() && forall i :: 0 <= i < |slaves| ==> Served(slaves[i], executed, child, apply, start, dump)
    }

    constructor (apply: (D, Fed) -> D, start: D, dump: D -> seq<byte>)
      requires forall d :: dump(d) != []
      ensures Valid() && Coherent() && slaves == [] && executed == [] && child == None && dataset == start
      ensures this.apply == apply && this.start == start && this.dump == dump
    {
      this.apply, this.start, this.dump := apply, start, dump;
      dataset, slaves, child, rdbfile, executed := start, [], None, [], [];
    }

    /** replicationFeedSlaves. */
    method ReplicationFeedSlaves(dictid: nat, argv: Argv)
      modifies this`slaves
      ensures |slaves| == |old(slaves)| && forall i :: 0 <= i < |slaves| ==> slaves[i] == FeedOne(old(slaves)[i], dictid, argv)
    {
      var i := 0;
      while i < |slaves|
        invariant 0 <= i <= |slaves| == |old(slaves)|
        invariant forall j :: 0 <= j < i ==> slaves[j] == FeedOne(old(slaves)[j], dictid, argv)
        invariant forall j :: i <= j < |slaves| ==> slaves[j] == old(slaves)[j]
      {
        var slave := slaves[i];
        if slave.replstate != WaitBgsaveStart {
          if slave.slaveseldb != dictid {
            slave := slave.(reply := slave.reply + [Select(dictid)], slaveseldb := dictid);
          } else {
            assert slave.reply + [] == slave.reply;
          }
          slave := slave.(reply := slave.reply + [Command(argv)]);
        }
        slaves := slaves[i := slave];
        i := i + 1;
      }
    }

    /** call: a command that changes the dataset is executed and fed to the slaves. */
    method Call(dictid: nat, argv: Argv)
      requires Coherent()
      modifies this
      ensures Coherent() && (old(Valid()) ==> Valid())
      ensures executed == old(executed) + [Fed(dictid, argv)] && dataset == apply(old(dataset), Fed(dictid, argv))
      ensures |slaves| == |old(slaves)| && child == old(child) && rdbfile == old(rdbfile)
      ensures forall i :: 0 <= i < |slaves| ==> slaves[i] == FeedOne(old(slaves)[i], dictid, argv)
    {
      hide *;
      ghost var before, valid := slaves, Valid();
      Facts();
      ServedWhenValid();
      FedAll(slaves, executed, child, apply, start, dump, dictid, argv);
      dataset := apply(dataset, Fed(dictid, argv));
      executed := executed + [Fed(dictid, argv)];
      StillBase(Fed(dictid, argv));
      label Executed:
      ReplicationFeedSlaves(dictid, argv);
      SameBase@Executed();
      IsCoherent();
      if valid {
        IsValid();
      }
    }

    lemma ValidIsCoherent()
      ensures Valid() ==> Coherent()
    {
      forall i | 0 <= i < |slaves| && Served(slaves[i], executed, child, apply, start, dump) ensures Tracked(slaves[i], executed, child.Some?) {
        ServedIsTracked(slaves[i], executed, child, apply, start, dump);
      }
    }

    lemma ServedWhenValid()
      ensures Valid() ==> forall i :: 0 <= i < |slaves| ==> Served(slaves[i], executed, child, apply, start, dump)
    {}

    twostate lemma SameBase()
      requires old(Base()) && executed == old(executed) && dataset == old(dataset) && child == old(child)
      ensures Base()
    {}

    twostate lemma StillBase(f: Fed)
      requires old(Base()) && executed == old(executed) + [f] && dataset == apply(old(dataset), f) && child == old(child)
      ensures Base()
    {
      assert executed[..|executed| - 1] == old(executed);
      assert child.Some? ==> executed[..child.value.forkAt] == old(executed)[..child.value.forkAt];
    }

    /** rdbSaveBackground. */
    method RdbSaveBackground(forkOk: bool) returns (ok: bool)
      requires Base()
      modifies this`child
      ensures ok <==> old(child) == None && forkOk
      ensures child == if ok then Some(Child(dataset, |executed|)) else old(child)
      ensures Base()
    {
      if child.Some? || !forkOk {
        return false;
      }
      child := Some(Child(dataset, |executed|));
      assert executed[..|executed|] == executed;
      return true;
    }

    /**
     syncCommand. Everything stays right unless the buffer of another slave is copied that has a database other than 0
     selected.
     */
    method SyncCommand(id: nat, alreadySlave: bool, linkDown: bool, pending: bool, forkOk: bool) returns (r: SyncResult)
      requires Coherent()
      modifies this`slaves, this`child
      ensures r == if alreadySlave then Ignored
                   else if linkDown || pending || (old(child) == None && !forkOk) then Refused
                   else Accepted
      ensures var f := FirstWaiting(old(slaves), 0);
              var astray := r == Accepted && old(child).Some? && f.Some? && old(slaves)[f.value].slaveseldb != 0;
              && (Coherent() <==> !astray) && (old(Valid()) ==> (Valid() <==> !astray))
              && slaves == if r != Accepted then old(slaves)
                           else if old(child) == None then old(slaves) + [Slave(id, WaitBgsaveEnd, 0, [], [], 0, [], |executed|)]
                           else if f.Some? then old(slaves) + [Copied(id, old(slaves)[f.value])]
                           else old(slaves) + [Slave(id, WaitBgsaveStart, 0, [], [], 0, [], 0)]
      ensures child == if r == Accepted && old(child) == None then Some(Child(dataset, |executed|)) else old(child)
    {
      if alreadySlave {
        return Ignored;
      }
      if linkDown || pending {
        return Refused;
      }
      var slave;
      if child.Some? {
        match FirstWaiting(slaves, 0)
        case Some(i) =>
          slave := Copied(id, slaves[i]);
          CopyExact(id, slaves[i], executed);
        case None =>
          slave := Slave(id, WaitBgsaveStart, 0, [], [], 0, [], 0);
      } else {
        var ok := RdbSaveBackground(forkOk);
        if !ok {
          return Refused;
        }
        slave := Slave(id, WaitBgsaveEnd, 0, [], [], 0, [], |executed|);
      }
      slaves := slaves + [slave];
      assert Tracked(slave, executed, child.Some?) <==> Aligned(slave);
      assert slaves[|slaves| - 1] == slave;
      return Accepted;
    }

    /** BGSAVE from a client: a save that no slave relies on. */
    method BgsaveCommand(forkOk: bool)
      requires Coherent()
      modifies this`child
      ensures Coherent() && (old(Valid()) ==> Valid())
      ensures old(child) == None && forkOk ==> (Valid() <==>
                forall s :: s in slaves ==> if s.replstate == WaitBgsaveEnd then s.since == |executed| else Served(s, executed, None, apply, start, dump))
      ensures child == if old(child) == None && forkOk then Some(Child(dataset, |executed|)) else old(child)
    {
      if child.Some? {
        return;
      }
      assert forall s :: s in slaves ==> Tracked(s, executed, false);
      var ok := RdbSaveBackground(forkOk);
    }

    /** freeClient of a slave. */
    method FreeSlave(i: nat)
      requires Coherent() && i < |slaves|
      modifies this`slaves
      ensures Coherent() && (old(Valid()) ==> Valid()) && slaves == old(slaves)[..i] + old(slaves)[i + 1..]
    {
      slaves := slaves[..i] + slaves[i + 1..];
    }

    lemma Facts()
      requires Coherent()
      ensures Base() && forall s :: s in slaves ==> Tracked(s, executed, child.Some?)
      ensures forall d :: dump(d) != []
    {}

    lemma IsCoherent()
      requires Base() && forall s :: s in slaves ==> Tracked(s, executed, child.Some?)
      ensures Coherent()
    {}

    lemma IsValid()
      requires Base() && forall s :: s in slaves ==> Served(s, executed, child, apply, start, dump)
      ensures Valid()
    {}

    lemma NotServed(s: Slave)
      requires s in slaves && !Served(s, executed, child, apply, start, dump)
      ensures !Valid()
    {}

    /** A slave that waits for the end of a save that is not going on. */
    lemma Stranded(s: Slave)
      requires s.replstate == WaitBgsaveEnd && child == None
      ensures !Served(s, executed, child, apply, start, dump)
    {}

    /** The loop of updateSlavesWaitingBgsave. */
    method PromoteSlaves(ok: bool, canOpen: nat -> bool) returns (startbgsave: bool)
      modifies this`slaves
      ensures slaves == Promoted(old(slaves), ok, canOpen, rdbfile, |executed|)
      ensures startbgsave <==> exists s :: s in old(slaves) && s.replstate == WaitBgsaveStart
    {
      startbgsave := false;
      var kept: seq<Slave> := [];
      var i := 0;
      while i < |slaves|
        invariant 0 <= i <= |slaves| && slaves == old(slaves)
        invariant kept == Promoted(slaves[..i], ok, canOpen, rdbfile, |executed|)
        invariant startbgsave <==> exists s :: s in slaves[..i] && s.replstate == WaitBgsaveStart
      {
        var s := slaves[i];
        assert slaves[..i + 1] == slaves[..i] + [s] && slaves[..i + 1][..i] == slaves[..i];
        match AfterSave(s, ok, canOpen(s.id), rdbfile, |executed|) {
          case Some(r) => kept := kept + [r];
          case None => assert kept + [] == kept;
        }
        startbgsave := startbgsave || s.replstate == WaitBgsaveStart;
        i := i + 1;
      }
      assert slaves[..i] == slaves;
      slaves := kept;
    }

    /**
     backgroundSaveDoneHandler and updateSlavesWaitingBgsave. The new dump has taken the place of the old one if the
     child was done with it, which a child that ended by exit tells; of one killed by a signal nothing is known, but its
     exit code reads 0. No command is ever missed. Everything is right exactly if no slave is given, or has been, a file
     that is not the dump of the save it relies on, and the fork for those that wait for the next save works.
     */
    method BackgroundSaveDoneHandler(bysignal: bool, exitcode: int, renamed: bool, canOpen: nat -> bool, forkOk: bool)
      requires Coherent() && child.Some? && (!bysignal ==> (renamed <==> exitcode == 0))
      modifies this
      ensures Coherent() && executed == old(executed) && dataset == old(dataset)
      ensures rdbfile == if renamed then dump(old(child).value.snapshot) else old(rdbfile)
      ensures slaves == Promoted(old(slaves), exitcode == 0, canOpen, rdbfile, |executed|)
      ensures var waiting := exists s :: s in old(slaves) && s.replstate == WaitBgsaveStart;
              var misled := exists s :: s in old(slaves) && Misled(s, executed, apply, start, dump, exitcode == 0, canOpen, rdbfile);
              && (Valid() <==> (forkOk || !waiting) && !misled)
              && (old(Valid()) ==> (misled <==> rdbfile != dump(old(child).value.snapshot) && exists s :: s in old(slaves) && IsGivenFile(s, exitcode == 0, canOpen)))
              && child == if forkOk && waiting then Some(Child(dataset, |executed|)) else None
    {
      hide *;
      Facts();
      ghost var valid := Valid();
      if renamed {
        rdbfile := dump(child.value.snapshot);
      }
      StillValid();
      if valid {
        MisledWhenValid(exitcode == 0, canOpen, rdbfile);
      }
      child := None;
      NoChild();
      PromotedSettled(slaves, executed, apply, start, dump, exitcode == 0, canOpen, rdbfile);
      PromotedWaiting(slaves, exitcode == 0, canOpen, rdbfile, |executed|);
      var startbgsave := PromoteSlaves(exitcode == 0, canOpen);
      if startbgsave {
        var started := RdbSaveBackground(forkOk);
      }
      forall s | s in slaves ensures Tracked(s, executed, child.Some?) {
        TrackedOn(s, executed, child.Some?);
      }
      IsCoherent();
      if s :| s in slaves && !Settled(s, executed, apply, start, dump) {
        UnsettledIsNotServed(s, executed, child, apply, start, dump);
        NotServed(s);
      } else if startbgsave && !forkOk {
        ghost var s :| s in slaves && s.replstate == WaitBgsaveEnd;
        Stranded(s);
        NotServed(s);
      } else {
        forall s | s in slaves ensures Served(s, executed, child, apply, start, dump) {
          NextSave(s, executed, child, apply, start, dump);
        }
        IsValid();
      }
    }

    /** In a state in which all is right, the slaves misled are those given a file that is not the dump of this save. */
    lemma MisledWhenValid(ok: bool, canOpen: nat -> bool, file: seq<byte>)
      requires Valid() && child.Some?
      ensures (exists s :: s in slaves && Misled(s, executed, apply, start, dump, ok, canOpen, file))
         <==> file != dump(child.value.snapshot) && exists s :: s in slaves && IsGivenFile(s, ok, canOpen)
    {
      forall s | s in slaves
        ensures Misled(s, executed, apply, start, dump, ok, canOpen, file) <==> file != dump(child.value.snapshot) && IsGivenFile(s, ok, canOpen)
      {
        assert Served(s, executed, child, apply, start, dump);
      }
    }

    /** The file on disk does not matter. */
    twostate lemma StillValid()
      requires dataset == old(dataset) && slaves == old(slaves) && child == old(child) && executed == old(executed)
      ensures Valid() <==> old(Valid())
      ensures old(Base()) ==> Base()
    {}

    twostate lemma NoChild()
      requires old(Base()) && child == None && dataset == old(dataset) && executed == old(executed)
      ensures Base()
    {}

    /**
     sendBulkToSlave: one write of at most a buffer of the dump; `nwritten` is what the write returned. A slave is
     freed when reading or writing fails, and is online once all has been sent.
     */
    method SendBulkToSlave(i: nat, readOk: bool, nwritten: int)
      requires Coherent() && i < |slaves| && slaves[i].replstate == SendBulk
      requires nwritten == -1 || (0 < nwritten <= REDIS_IOBUF_LEN && slaves[i].repldboff + nwritten <= |slaves[i].repldb|)
      modifies this`slaves
      ensures Coherent() && (old(Valid()) ==> Valid())
      ensures !readOk || nwritten == -1 ==> slaves == old(slaves)[..i] + old(slaves)[i + 1..]
      ensures readOk && nwritten != -1 ==> |slaves| == |old(slaves)| && slaves[i].repldboff == old(slaves)[i].repldboff + nwritten
      ensures readOk && nwritten != -1 ==> (slaves[i].replstate == Online <==> slaves[i].sent == slaves[i].repldb)
    {
      if !readOk || nwritten == -1 {
        FreeSlave(i);
        return;
      }
      var s := slaves[i];
      ghost var right := Served(s, executed, child, apply, start, dump);
      assert Tracked(s, executed, child.Some?);
      var off := s.repldboff + nwritten;
      assert s.repldb[..off] == s.repldb[..s.repldboff] + s.repldb[s.repldboff..off];
      s := s.(sent := s.sent + s.repldb[s.repldboff..off], repldboff := off);
      if off == |s.repldb| {
        assert s.repldb[..off] == s.repldb;
        s := s.(replstate := Online);
      } else {
        assert |s.sent| < |s.repldb|;
      }
      assert Tracked(s, executed, child.Some?) && (right ==> Served(s, executed, child, apply, start, dump));
      slaves := slaves[i := s];
    }
  }

  /**
   A dump is on disk, a command follows, a slave asks for synchronisation, and the save started for it is killed,
   for want of memory, say: the slave is sent the old dump, and the stream it is given does not have the command.
   */
  method SlaveOfKilledSave<D(!new)>(apply: (D, Fed) -> D, start: D, dump: D -> seq<byte>, argv: Argv) returns (slave: Slave, dataset: D)
    requires (forall d :: dump(d) != []) && dump(apply(start, Fed(0, argv))) != dump(start)
    ensures dataset == apply(start, Fed(0, argv))
    ensures slave.replstate == SendBulk && slave.repldb == dump(start) != dump(dataset) && slave.reply == []
  {
    var master := new Master(apply, start, dump);
    master.BgsaveCommand(true);
    master.BackgroundSaveDoneHandler(false, 0, true, _ => true, true);
    assert master.slaves == [];
    master.Call(0, argv);
    var r := master.SyncCommand(1, false, false, false, true);
    ghost var waiting := Slave(1, WaitBgsaveEnd, 0, [], [], 0, [], |master.executed|);
    assert master.slaves == [waiting];
    master.BackgroundSaveDoneHandler(true, 0, false, _ => true, true);
    assert [waiting][..0] == [] && Promoted([], true, _ => true, master.rdbfile, |master.executed|) == [];
    slave, dataset := master.slaves[0], master.dataset;
  }

  /** A slave that has asked for synchronisation during a save, after the fork for the next one has failed, and a command. */
  function StrandedSlave(argv: Argv): Slave {
    Slave(1, WaitBgsaveEnd, 0, [Command(argv)], [], 0, [], 0)
  }

  method Strand<D(!new)>(apply: (D, Fed) -> D, start: D, dump: D -> seq<byte>, argv: Argv) returns (master: Master<D>)
    requires forall d :: dump(d) != []
    ensures fresh(master) && master.apply == apply && master.start == start && master.dump == dump
    ensures master.Coherent() && master.child == None && master.slaves == [StrandedSlave(argv)]
    ensures master.executed == [Fed(0, argv)] && master.dataset == apply(start, Fed(0, argv))
  {
    hide Master.Coherent, Misled, Tracked, Served;
    master := new Master(apply, start, dump);
    master.BgsaveCommand(true);
    var r := master.SyncCommand(1, false, false, false, true);
    ghost var first := Slave(1, WaitBgsaveStart, 0, [], [], 0, [], 0);
    assert master.slaves == [first];
    PromotedOne(first, true, _ => true, dump(start), 0);
    master.BackgroundSaveDoneHandler(false, 0, true, _ => true, false);
    assert master.slaves == [first.(replstate := WaitBgsaveEnd)] && master.child == None;
    master.Call(0, argv);
    assert [] + [Command(argv)] == [Command(argv)];
    assert master.slaves == [StrandedSlave(argv)];
  }

  /**
   Another save follows, during which a second slave asks for synchronisation. Both are sent the dump that has the
   command, and execute it again.
   */
  method SlavesOfFailedFork<D(!new)>(apply: (D, Fed) -> D, start: D, dump: D -> seq<byte>, load: seq<byte> -> D, argv: Argv)
    returns (slaves: seq<Slave>, dataset: D)
    requires (forall d :: dump(d) != []) && forall d :: load(dump(d)) == d
    requires var f := Fed(0, argv); apply(apply(start, f), f) != apply(start, f)
    ensures dataset == apply(start, Fed(0, argv)) && |slaves| == 2
    ensures forall i :: 0 <= i < 2 ==> slaves[i].replstate == SendBulk && slaves[i].repldb == dump(dataset)
    ensures forall i :: 0 <= i < 2 ==> Obtained(slaves[i], apply, load) == apply(dataset, Fed(0, argv)) != dataset
  {
    hide Master.Coherent, Misled, Tracked, Served, Promoted;
    var master := Strand(apply, start, dump, argv);
    ghost var s := StrandedSlave(argv);
    master.BgsaveCommand(true);
    var r := master.SyncCommand(2, false, false, false, true);
    assert master.slaves == [s, Copied(2, s)];
    dataset := master.dataset;
    PromotedTwo(s, Copied(2, s), true, _ => true, dump(dataset), 1);
    PromotedOne(s, true, _ => true, dump(dataset), 1);
    PromotedOne(Copied(2, s), true, _ => true, dump(dataset), 1);
    master.BackgroundSaveDoneHandler(false, 0, true, _ => true, true);
    slaves := master.slaves;
    OneCommand(argv, apply, dataset);
  }

  lemma OneCommand<D>(argv: Argv, apply: (D, Fed) -> D, d: D)
    ensures Executes([Command(argv)]) == [Fed(0, argv)] && Fold(apply, d, [Fed(0, argv)]) == apply(d, Fed(0, argv))
  {
    assert [Command(argv)][..0] == [] && [Fed(0, argv)][..0] == [];
  }

  lemma PromotedOne(s: Slave, ok: bool, canOpen: nat -> bool, file: seq<byte>, now: nat)
    ensures Promoted([s], ok, canOpen, file, now) == match AfterSave(s, ok, canOpen(s.id), file, now) case Some(r) => [r] case None => []
  {
    assert [s][..0] == [];
  }

  lemma PromotedTwo(s: Slave, t: Slave, ok: bool, canOpen: nat -> bool, file: seq<byte>, now: nat)
    ensures Promoted([s, t], ok, canOpen, file, now)
         == Promoted([s], ok, canOpen, file, now) + Promoted([t], ok, canOpen, file, now)
  {
    assert [s, t][..1] == [s];
    PromotedOne(t, ok, canOpen, file, now);
  }
}
