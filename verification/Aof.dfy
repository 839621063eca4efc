/**
 The append only file (aof.c): commands are appended to a buffer, flushed to the file, and the file is replaced, by a
 child process, with a shorter one that rebuilds the dataset.
 */
module Aof {
  import opened Bytes
  import opened Decimal
  import opened AofFile
  import Networking

  type Time = t: int | IsInt64(t)
  type DbId = n: nat | n < 0x8000_0000

  /** An addition of C longs, with wrap-around. */
  function Long(x: int): Time {
    (x - LLONG_MIN) % 0x1_0000_0000_0000_0000 + LLONG_MIN
  }

  // ----- Datasets

  datatype Value =
    | Str(s: Blob)
    | List(xs: seq<Blob>)
    | Set(m: set<Blob>)
    | Hash(h: map<Blob, Blob>)
    | ZSet(z: map<Blob, Blob>)   // members with the text of their scores

  datatype Item = Item(value: Value, expire: Option<Time>)

  datatype Loc = Loc(db: DbId, key: Blob)

  type Data = map<Loc, Item>

  /** A key with an aggregate that has become empty does not exist. */
  predicate NonEmpty(v: Value) {
    match v
    case Str(_) => true
    case List(xs) => xs != []
    case Set(m) => m != {}
    case Hash(h) => h != map[]
    case ZSet(z) => z != map[]
  }

  ghost predicate WellFormed(d: Data) {
    forall l :: l in d ==> NonEmpty(d[l].value)
  }

  // ----- Commands and what they do

  const SELECT: Blob := [83, 69, 76, 69, 67, 84]
  const SET: Blob := [83, 69, 84]
  const RPUSH: Blob := [82, 80, 85, 83, 72]
  const SADD: Blob := [83, 65, 68, 68]
  const HSET: Blob := [72, 83, 69, 84]
  const ZADD: Blob := [90, 65, 68, 68]
  const EXPIREAT: Blob := [69, 88, 80, 73, 82, 69, 65, 84]
  const DEL: Blob := [68, 69, 76]

  /** The commands spelled out below. */
  predicate IsSpelled(a: Argv)
    requires a != []
  {
    if |a| == 2 then a[0] == DEL || (a[0] == SELECT && Parse(a[1]).Some? && 0 <= Parse(a[1]).value < 0x8000_0000)
    else if |a| == 3 then a[0] in {SET, RPUSH, SADD} || (a[0] == EXPIREAT && Parse(a[2]).Some?)
    else |a| == 4 && a[0] in {HSET, ZADD}
  }

  /** Any other command. */
  type Raw = a: Argv | 0 < |a| < 0x8000_0000 && !IsSpelled(a) witness Nameless

  const NoBytes: Blob := []
  const Nameless: Argv := [NoBytes]

  datatype Command =
    | SetKey(key: Blob, val: Blob)
    | RPush(key: Blob, elem: Blob)
    | SAdd(key: Blob, member: Blob)
    | HSet(key: Blob, field: Blob, val: Blob)
    | ZAdd(key: Blob, score: Blob, member: Blob)
    | ExpireAt(key: Blob, when: Time)
    | Del(key: Blob)
    | Other(argv: Raw)

  /** What the commands not spelled out here do: any deterministic function of the dataset. */
  type Semantics = (Raw, DbId, Data) -> Data

  function ValueAt(d: Data, l: Loc, empty: Value): Value {
    if l in d then d[l].value else empty
  }

  function ExpireOf(d: Data, l: Loc): Option<Time> {
    if l in d then d[l].expire else None
  }

  /** A command executed in database `db`, as it is executed while a file is loaded. */
  function Apply(other: Semantics, c: Command, db: DbId, d: Data): Data {
    match c
    case SetKey(key, val) => d[Loc(db, key) := Item(Str(val), None)]
    case RPush(key, elem) =>
      var l := Loc(db, key);
      (match ValueAt(d, l, List([]))
       case List(xs) => d[l := Item(List(xs + [elem]), ExpireOf(d, l))]
       case _ => d)
    case SAdd(key, member) =>
      var l := Loc(db, key);
      (match ValueAt(d, l, Set({}))
       case Set(m) => d[l := Item(Set(m + {member}), ExpireOf(d, l))]
       case _ => d)
    case HSet(key, field, val) =>
      var l := Loc(db, key);
      (match ValueAt(d, l, Hash(map[]))
       case Hash(h) => d[l := Item(Hash(h[field := val]), ExpireOf(d, l))]
       case _ => d)
    case ZAdd(key, score, member) =>
      var l := Loc(db, key);
      (match ValueAt(d, l, ZSet(map[]))
       case ZSet(z) => d[l := Item(ZSet(z[member := score]), ExpireOf(d, l))]
       case _ => d)
    case ExpireAt(key, when) =>
      var l := Loc(db, key);
      if l in d then d[l := Item(d[l].value, Some(when))] else d
    case Del(key) => d - {Loc(db, key)}
    case Other(argv) => other(argv, db, d)
  }

  // ----- Files and their replay

  datatype Record = Select(db: DbId) | Run(c: Command)

  /** What replaying has come to: the selected database and the dataset. */
  datatype Replayed = Replayed(db: DbId, data: Data)

  function Step(other: Semantics, r: Record, s: Replayed): Replayed {
    match r
    case Select(db) => Replayed(db, s.data)
    case Run(c) => Replayed(s.db, Apply(other, c, s.db, s.data))
  }

  function Replay(other: Semantics, rs: seq<Record>, s: Replayed): Replayed {
    if rs == [] then s else Step(other, rs[|rs| - 1], Replay(other, rs[..|rs| - 1], s))
  }

  const Start := Replayed(0, map[])

  lemma {:induction false} ReplayAppend(other: Semantics, a: seq<Record>, b: seq<Record>, s: Replayed)
    ensures Replay(other, a + b, s) == Replay(other, b, Replay(other, a, s))
  {
    if b == [] {
      assert a + b == a;
    } else {
      var n := |b| - 1;
      assert (a + b)[..|a + b| - 1] == a + b[..n];
      ReplayAppend(other, a, b[..n], s);
    }
  }

  lemma ReplayOne(other: Semantics, r: Record, s: Replayed)
    ensures Replay(other, [r], s) == Step(other, r, s)
  {
    assert [r][..0] == [];
  }

  lemma ReplayTwo(other: Semantics, q: Record, r: Record, s: Replayed)
    ensures Replay(other, [q, r], s) == Step(other, r, Step(other, q, s))
  {
    assert [q, r][..1] == [q];
    ReplayOne(other, q, s);
  }

  // ----- Requests of clients, and how they are fed

  /** A request: a command that is appended as it is, or one with a relative or passed time, which is translated. */
  datatype Request =
    | Plain(c: Command)
    | Expire(key: Blob, seconds: Time)
    | ExpireWhen(key: Blob, when: Time)
    | SetEx(key: Blob, seconds: Time, val: Blob)

  /** What a request does at time `now`. */
  function Execute(other: Semantics, q: Request, db: DbId, now: Time, d: Data): Data {
    match q
    case Plain(c) => Apply(other, c, db, d)
    case Expire(key, seconds) => ExpireKey(Loc(db, key), seconds, now, d)
    case ExpireWhen(key, when) => ExpireKey(Loc(db, key), Long(when - now), now, d)
    case SetEx(key, seconds, val) => if seconds <= 0 then d else d[Loc(db, key) := Item(Str(val), Some(Long(now + seconds)))]
  }

  /** expireGenericCommand, once it has the seconds to live. */
  function ExpireKey(l: Loc, seconds: Time, now: Time, d: Data): Data {
    if l !in d then d else if seconds <= 0 then d - {l} else d[l := Item(d[l].value, Some(Long(now + seconds)))]
  }

  /** Is the request fed? One that does nothing need not be. */
  predicate Dirty(q: Request, db: DbId, d: Data) {
    match q
    case Plain(c) => true
    case Expire(key, _) => Loc(db, key) in d
    case ExpireWhen(key, _) => Loc(db, key) in d
    case SetEx(_, seconds, _) => seconds > 0
  }

  /** The request as it stands when it is fed: an expiry that deleted the key at once has become a DEL. */
  function Rewritten(q: Request, now: Time): Request {
    match q
    case Expire(key, seconds) => if seconds <= 0 then Plain(Del(key)) else q
    case ExpireWhen(key, when) => if Long(when - now) <= 0 then Plain(Del(key)) else q
    case _ => q
  }

  /** The records feedAppendOnlyFile appends for a request, besides a SELECT; `now` is the time at which it is fed. */
  function Translated(q: Request, now: Time): seq<Record> {
    match q
    case Plain(c) => [Run(c)]
    case Expire(key, seconds) => [Run(ExpireAt(key, Long(now + seconds)))]
    case ExpireWhen(key, when) => [Run(ExpireAt(key, when))]
    case SetEx(key, seconds, val) => [Run(SetKey(key, val)), Run(ExpireAt(key, Long(now + seconds)))]
  }

  /** Time differences are exact, even where they wrap around. */
  lemma LongBack(when: Time, now: Time)
    ensures Long(now + Long(when - now)) == when
  {
    var k := (when - now - LLONG_MIN) / 0x1_0000_0000_0000_0000;
    LongIs(when - now, k);
    LongOf(now + Long(when - now), when, -k);
  }

  lemma LongIs(x: int, k: int)
    requires k == (x - LLONG_MIN) / 0x1_0000_0000_0000_0000
    ensures Long(x) == x - k * 0x1_0000_0000_0000_0000 && IsInt64(Long(x))
  {}

  lemma LongOf(x: int, t: Time, k: int)
    requires x == t + k * 0x1_0000_0000_0000_0000
    ensures Long(x) == t
  {
    assert IsInt64(t);
    LongIs(x, (x - LLONG_MIN) / 0x1_0000_0000_0000_0000);
  }

  lemma LongDiffers(now: Time, fed: Time, seconds: Time)
    requires now != fed
    ensures Long(now + seconds) != Long(fed + seconds)
  {
    LongIs(now + seconds, (now + seconds - LLONG_MIN) / 0x1_0000_0000_0000_0000);
    assert IsInt64(now) && IsInt64(fed);
    LongIs(fed + seconds, (fed + seconds - LLONG_MIN) / 0x1_0000_0000_0000_0000);
  }

  /** The clock was read alike when the request was executed and when it was fed, or was not needed. */
  predicate Timely(q: Request, now: Time, fed: Time) {
    now == fed || q.Plain? || q.ExpireWhen? || (q.Expire? && q.seconds <= 0)
  }

  /**
   The records of a request replay to what it did exactly when the clock was not read differently for the two, or
   they do not depend on it.
   */
  lemma TranslationExact(other: Semantics, q: Request, db: DbId, now: Time, fed: Time, d: Data)
    requires Dirty(q, db, d)
    ensures Replay(other, Translated(Rewritten(q, now), fed), Replayed(db, d)) == Replayed(db, Execute(other, q, db, now, d))
       <==> Timely(q, now, fed)
  {
    var rs, s := Translated(Rewritten(q, now), fed), Replayed(db, d);
    if q.ExpireWhen? {
      LongBack(q.when, now);
    }
    if |rs| == 1 {
      ReplayOne(other, rs[0], s);
    } else {
      ReplayTwo(other, rs[0], rs[1], s);
    }
    var l := Loc(db, match q case Plain(_) => [] case Expire(key, _) => key case ExpireWhen(key, _) => key case SetEx(key, _, _) => key);
    if now != fed && ((q.Expire? && q.seconds > 0) || q.SetEx?) {
      LongDiffers(now, fed, q.seconds);
      assert Replay(other, rs, s).data[l].expire == Some(Long(fed + q.seconds));
      assert Execute(other, q, db, now, d)[l].expire == Some(Long(now + q.seconds));
    }
  }

  lemma ReplaySnoc(other: Semantics, rs: seq<Record>, r: Record, s: Replayed)
    ensures Replay(other, rs + [r], s) == Step(other, r, Replay(other, rs, s))
  {
    assert (rs + [r])[..|rs|] == rs;
  }

  // ----- Records as bytes

  /** The command a record is written as. */
  function ToArgv(r: Record): (a: Argv)
    ensures 0 < |a| < 0x8000_0000
  {
    match r
    case Select(db) => TextShort(db); [SELECT, Text(db)]
    case Run(SetKey(key, val)) => [SET, key, val]
    case Run(RPush(key, elem)) => [RPUSH, key, elem]
    case Run(SAdd(key, member)) => [SADD, key, member]
    case Run(HSet(key, field, val)) => [HSET, key, field, val]
    case Run(ZAdd(key, score, member)) => [ZADD, key, score, member]
    case Run(ExpireAt(key, when)) => TextShort(when); [EXPIREAT, key, Text(when)]
    case Run(Del(key)) => [DEL, key]
    case Run(Other(argv)) => argv
  }

  /** The record a loaded command stands for: what executing it does. */
  function FromArgv(a: Argv): Record
    requires 0 < |a| < 0x8000_0000
  {
    if !IsSpelled(a) then Run(Other(a))
    else if a[0] == DEL then Run(Del(a[1]))
    else if a[0] == SELECT then Select(Parse(a[1]).value)
    else if a[0] == SET then Run(SetKey(a[1], a[2]))
    else if a[0] == RPUSH then Run(RPush(a[1], a[2]))
    else if a[0] == SADD then Run(SAdd(a[1], a[2]))
    else if a[0] == EXPIREAT then ParseExactlyTexts(a[2], Parse(a[2]).value); Run(ExpireAt(a[1], Parse(a[2]).value))
    else if a[0] == HSET then Run(HSet(a[1], a[2], a[3]))
    else Run(ZAdd(a[1], a[2], a[3]))
  }

  lemma RecordRoundTrip(r: Record)
    ensures FromArgv(ToArgv(r)) == r
  {
    assert |SELECT| == 6 && |SET| == 3 && |RPUSH| == 5 && |SADD| == |HSET| == |ZADD| == 4 && |EXPIREAT| == 8 && |DEL| == 3;
    assert SET[0] != DEL[0] && SADD[0] != HSET[0] && SADD[0] != ZADD[0] && HSET[0] != ZADD[0];
    match r
    case Select(db) => ParseExactlyTexts(Text(db), db);
    case Run(ExpireAt(_, when)) => ParseExactlyTexts(Text(when), when);
    case _ =>
  }

  function Argvs(rs: seq<Record>): (cmds: seq<Argv>)
    ensures |cmds| == |rs| && Loadable(cmds)
  {
    if rs == [] then [] else [ToArgv(rs[0])] + Argvs(rs[1..])
  }

  function Records(cmds: seq<Argv>): seq<Record>
    requires Loadable(cmds)
  {
    if cmds == [] then [] else [FromArgv(cmds[0])] + Records(cmds[1..])
  }

  lemma {:induction false} RecordsRoundTrip(rs: seq<Record>)
    ensures Records(Argvs(rs)) == rs
  {
    if rs != [] {
      RecordRoundTrip(rs[0]);
      RecordsRoundTrip(rs[1..]);
      assert Argvs(rs)[1..] == Argvs(rs[1..]) && [rs[0]] + rs[1..] == rs;
    }
  }

  lemma {:induction false} ArgvsAppend(a: seq<Record>, b: seq<Record>)
    ensures Argvs(a + b) == Argvs(a) + Argvs(b)
  {
    if a == [] {
      assert a + b == b;
    } else {
      assert (a + b)[1..] == a[1..] + b;
      ArgvsAppend(a[1..], b);
    }
  }

  lemma ArgvsTake(rs: seq<Record>, i: nat)
    requires i <= |rs|
    ensures Argvs(rs)[..i] == Argvs(rs[..i])
  {
    assert rs == rs[..i] + rs[i..];
    ArgvsAppend(rs[..i], rs[i..]);
  }

  /** The bytes of some records. */
  function Encoded(rs: seq<Record>): seq<byte> {
    Networking.EncodeAll(Argvs(rs))
  }

  lemma EncodedAppend(a: seq<Record>, b: seq<Record>)
    ensures Encoded(a + b) == Encoded(a) + Encoded(b)
  {
    ArgvsAppend(a, b);
    EncodeAllAppend(Argvs(a), Argvs(b));
  }

  lemma EncodedOne(r: Record)
    ensures Encoded([r]) == Networking.Encode(ToArgv(r)) && Encoded([]) == []
  {
    hide Networking.Encode;
    assert [r][1..] == [];
    assert Argvs([r]) == [ToArgv(r)] && Argvs([r])[1..] == [];
    assert Networking.EncodeAll(Argvs([r])) == Networking.Encode(ToArgv(r)) + Networking.EncodeAll(Argvs([r])[1..]);
    assert Networking.Encode(ToArgv(r)) + [] == Networking.Encode(ToArgv(r));
  }

  /** The dataset a file is loaded as: none when the server refuses it. */
  function Rebuilt(other: Semantics, file: seq<byte>): Option<Data> {
    match Load(file)
    case None => None
    case Some(cmds) => LoadLoadable(file); Some(Replay(other, Records(cmds), Start).data)
  }

  /** A file cut off after any number of bytes is accepted exactly at the end of a record, and rebuilds what the records do. */
  lemma TornRecords(other: Semantics, rs: seq<Record>, k: nat) returns (i: nat)
    requires k <= |Encoded(rs)|
    ensures Rebuilt(other, Encoded(rs)[..k]).Some? <==> AtBoundary(Argvs(rs), k)
    ensures i <= |rs| && (i < |rs| ==> k < |Encoded(rs[..i + 1])|)
    ensures Rebuilt(other, Encoded(rs)[..k]).Some? ==> Rebuilt(other, Encoded(rs)[..k]) == Some(Replay(other, rs[..i], Start).data)
  {
    hide Argvs, Load, Replay, Networking.EncodeAll;
    i := TornFile(Argvs(rs), k);
    ArgvsTake(rs, i);
    if i < |rs| {
      ArgvsTake(rs, i + 1);
    }
    RecordsRoundTrip(rs[..i]);
  }

  /** The bytes of all records rebuild what the records do. */
  lemma WholeRecords(other: Semantics, rs: seq<Record>)
    ensures Rebuilt(other, Encoded(rs)) == Some(Replay(other, rs, Start).data)
  {
    hide Argvs, Load, Replay;
    LoadReads(Argvs(rs), []);
    LoadNothing();
    assert Networking.EncodeAll(Argvs(rs)) + [] == Encoded(rs) && Argvs(rs) + [] == Argvs(rs);
    RecordsRoundTrip(rs);
  }

  /** loadAppendOnlyFile: the commands are executed one after the other, from database 0 and no data. */
  method LoadDataset(other: Semantics, file: seq<byte>) returns (d: Option<Data>)
    ensures d == Rebuilt(other, file)
  {
    hide Load, Networking.EncodeAll;
    var cmds := LoadAppendOnlyFile(file);
    if cmds == None {
      return None;
    }
    LoadLoadable(file);
    var s, i := Start, 0;
    ghost var rs := Records(cmds.value);
    RecordsAt(cmds.value);
    assert rs[..0] == [];
    while i < |cmds.value|
      invariant 0 <= i <= |cmds.value| && s == Replay(other, rs[..i], Start)
    {
      var r := FromArgv(cmds.value[i]);
      assert rs[..i + 1] == rs[..i] + [r];
      ReplaySnoc(other, rs[..i], r, Start);
      s := Step(other, r, s);
      i := i + 1;
    }
    assert rs[..i] == rs;
    return Some(s.data);
  }

  lemma {:induction false} RecordsAt(cmds: seq<Argv>)
    requires Loadable(cmds)
    ensures |Records(cmds)| == |cmds| && forall i :: 0 <= i < |cmds| ==> Records(cmds)[i] == FromArgv(cmds[i])
  {
    if cmds != [] {
      RecordsAt(cmds[1..]);
    }
  }

  // ----- Rewriting a dataset

  predicate Expired(i: Item, now: Time) {
    i.expire.Some? && i.expire.value < now
  }

  /** The dataset without the expiries that have passed: their keys are written, their expiries are not. */
  function Forget(d: Data, now: Time): Data {
    map l | l in d :: if Expired(d[l], now) then Item(d[l].value, None) else d[l]
  }

  /** A rewrite keeps the dataset exactly when no key has expired. */
  lemma ForgetExact(d: Data, now: Time)
    ensures Forget(d, now) == d <==> forall l :: l in d ==> !Expired(d[l], now)
  {
    if l :| l in d && Expired(d[l], now) {
      assert Forget(d, now)[l] != d[l];
    }
  }

  /** The part of a dataset in the databases below `j`, and at some more places. */
  ghost function Part(d: Data, j: nat, done: set<Loc>): Data {
    map l | l in d && (l.db < j || l in done) :: d[l]
  }

  /** The records for the elements of an aggregate: `out` turns a dataset without `l` into one with `part` at it. */
  ghost predicate Builds(other: Semantics, out: seq<Record>, l: Loc, d: Data, part: Value) {
    Replay(other, out, Replayed(l.db, d)) == Replayed(l.db, if NonEmpty(part) then d[l := Item(part, None)] else d)
  }

  method RewriteList(other: Semantics, key: Blob, xs: seq<Blob>, ghost db: DbId, ghost d: Data) returns (out: seq<Record>)
    requires Loc(db, key) !in d
    ensures Builds(other, out, Loc(db, key), d, List(xs))
  {
    out := [];
    var i := 0;
    while i < |xs|
      invariant 0 <= i <= |xs| && Builds(other, out, Loc(db, key), d, List(xs[..i]))
    {
      ReplaySnoc(other, out, Run(RPush(key, xs[i])), Replayed(db, d));
      assert xs[..i + 1] == xs[..i] + [xs[i]];
      out := out + [Run(RPush(key, xs[i]))];
      i := i + 1;
    }
    assert xs[..i] == xs;
  }

  method RewriteSet(other: Semantics, key: Blob, m: set<Blob>, ghost db: DbId, ghost d: Data) returns (out: seq<Record>)
    requires Loc(db, key) !in d
    ensures Builds(other, out, Loc(db, key), d, Set(m))
  {
    out := [];
    var rest := m;
    while rest != {}
      invariant rest <= m && Builds(other, out, Loc(db, key), d, Set(m - rest))
      decreases rest
    {
      var e :| e in rest;
      ReplaySnoc(other, out, Run(SAdd(key, e)), Replayed(db, d));
      assert m - (rest - {e}) == (m - rest) + {e};
      out := out + [Run(SAdd(key, e))];
      rest := rest - {e};
    }
    assert m - rest == m;
  }

  method RewriteHash(other: Semantics, key: Blob, h: map<Blob, Blob>, ghost db: DbId, ghost d: Data) returns (out: seq<Record>)
    requires Loc(db, key) !in d
    ensures Builds(other, out, Loc(db, key), d, Hash(h))
  {
    out := [];
    var rest := h.Keys;
    while rest != {}
      invariant rest <= h.Keys && Builds(other, out, Loc(db, key), d, Hash(h - rest))
      decreases rest
    {
      var f :| f in rest;
      ReplaySnoc(other, out, Run(HSet(key, f, h[f])), Replayed(db, d));
      assert h - (rest - {f}) == (h - rest)[f := h[f]];
      out := out + [Run(HSet(key, f, h[f]))];
      rest := rest - {f};
    }
    assert h - rest == h;
  }

  method RewriteZSet(other: Semantics, key: Blob, z: map<Blob, Blob>, ghost db: DbId, ghost d: Data) returns (out: seq<Record>)
    requires Loc(db, key) !in d
    ensures Builds(other, out, Loc(db, key), d, ZSet(z))
  {
    out := [];
    var rest := z.Keys;
    while rest != {}
      invariant rest <= z.Keys && Builds(other, out, Loc(db, key), d, ZSet(z - rest))
      decreases rest
    {
      var e :| e in rest;
      ReplaySnoc(other, out, Run(ZAdd(key, z[e], e)), Replayed(db, d));
      assert z - (rest - {e}) == (z - rest)[e := z[e]];
      out := out + [Run(ZAdd(key, z[e], e))];
      rest := rest - {e};
    }
    assert z - rest == z;
  }

  /** The records for the value of a key. */
  method RewriteValue(other: Semantics, l: Loc, v: Value, ghost d: Data) returns (out: seq<Record>)
    requires l !in d && NonEmpty(v)
    ensures Replay(other, out, Replayed(l.db, d)) == Replayed(l.db, d[l := Item(v, None)])
  {
    assert Loc(l.db, l.key) == l;
    match v
    case Str(s) =>
      out := [Run(SetKey(l.key, s))];
      ReplayOne(other, out[0], Replayed(l.db, d));
    case List(xs) => out := RewriteList(other, l.key, xs, l.db, d);
    case Set(m) => out := RewriteSet(other, l.key, m, l.db, d);
    case Hash(h) => out := RewriteHash(other, l.key, h, l.db, d);
    case ZSet(z) => out := RewriteZSet(other, l.key, z, l.db, d);
  }

  /** The records for one key. */
  method RewriteKey(other: Semantics, l: Loc, i: Item, now: Time, ghost d: Data) returns (out: seq<Record>)
    requires l !in d && NonEmpty(i.value)
    ensures Replay(other, out, Replayed(l.db, d))
         == Replayed(l.db, d[l := if Expired(i, now) then Item(i.value, None) else i])
  {
    out := RewriteValue(other, l, i.value, d);
    ghost var d' := d[l := Item(i.value, None)];
    if i.expire.Some? {
      var when := i.expire.value;
      assert i == Item(i.value, Some(when)) && Loc(l.db, l.key) == l;
      if when < now {
        return;
      }
      ReplaySnoc(other, out, Run(ExpireAt(l.key, when)), Replayed(l.db, d));
      out := out + [Run(ExpireAt(l.key, when))];
      assert Apply(other, ExpireAt(l.key, when), l.db, d') == d'[l := i] == d[l := i];
    } else {
      assert i == Item(i.value, None);
    }
  }

  /** rewriteAppendOnlyFile: the keys of a database are written in any order. */
  method RewriteAppendOnlyFile(other: Semantics, d: Data, dbnum: DbId, now: Time) returns (out: seq<Record>)
    requires WellFormed(d) && forall l :: l in d ==> l.db < dbnum
    ensures Replay(other, out, Start).data == Forget(d, now)
  {
    out := [];
    ghost var all := Forget(d, now);
    var j: DbId := 0;
    assert Part(all, 0, {}) == map[];
    while j < dbnum
      invariant 0 <= j <= dbnum && Replay(other, out, Start).data == Part(all, j, {})
    {
      var todo := set l | l in d && l.db == j;
      if todo == {} {
        assert Part(all, j + 1, {}) == Part(all, j, {});
      } else {
        var recs := RewriteDatabase(other, d, todo, j, now, Replay(other, out, Start));
        ReplayAppend(other, out, recs, Start);
        out := out + recs;
        assert Part(all, j + 1, {}) == Part(all, j, todo);
      }
      j := j + 1;
    }
    assert Part(all, dbnum, {}) == all;
  }

  /** One database: a SELECT and the records of every key. */
  method RewriteDatabase(other: Semantics, d: Data, todo: set<Loc>, j: DbId, now: Time, ghost s: Replayed) returns (out: seq<Record>)
    requires WellFormed(d) && (forall l :: l in todo <==> l in d && l.db == j) && s.data == Part(Forget(d, now), j, {})
    ensures Replay(other, out, s).data == Part(Forget(d, now), j, todo)
  {
    ghost var all := Forget(d, now);
    out := [Select(j)];
    ReplayOne(other, out[0], s);
    var rest := todo;
    while rest != {}
      invariant rest <= todo && Replay(other, out, s) == Replayed(j, Part(all, j, todo - rest))
      decreases rest
    {
      var l :| l in rest;
      ghost var before := Part(all, j, todo - rest);
      var recs := RewriteKey(other, l, d[l], now, before);
      ReplayAppend(other, out, recs, s);
      assert Part(all, j, todo - (rest - {l})) == before[l := all[l]];
      out := out + recs;
      rest := rest - {l};
    }
    assert todo - rest == todo;
  }

  // ----- The running server

  /** Appended after anything, these records lead to the dataset and to the database that is taken to be selected. */
  ghost predicate LeadsTo(other: Semantics, rs: seq<Record>, s: Replayed, seldb: int, d: Data) {
    var r := Replay(other, rs, s);
    r.data == d && (seldb == -1 || r.db == seldb)
  }

  ghost predicate Tame(other: Semantics, dbnum: DbId) {
    forall argv, db: DbId, d {:trigger other(argv, db, d)} :: db < dbnum && Sound(d, dbnum) ==> Sound(other(argv, db, d), dbnum)
  }

  ghost predicate Sound(d: Data, dbnum: DbId) {
    WellFormed(d) && forall l :: l in d ==> l.db < dbnum
  }

  lemma ApplySound(other: Semantics, dbnum: DbId, c: Command, db: DbId, d: Data)
    requires Tame(other, dbnum) && Sound(d, dbnum) && db < dbnum
    ensures Sound(Apply(other, c, db, d), dbnum)
  {
    var l := Loc(db, if c.Other? then [] else c.key);
    match c
    case SAdd(_, member) =>
      assert forall m: set<Blob> :: member in m + {member};
    case HSet(_, field, val) =>
      if ValueAt(d, l, Hash(map[])).Hash? {
        assert field in ValueAt(d, l, Hash(map[])).h[field := val];
      }
    case ZAdd(_, score, member) =>
      if ValueAt(d, l, ZSet(map[])).ZSet? {
        assert member in ValueAt(d, l, ZSet(map[])).z[member := score];
      }
    case _ =>
  }

  lemma ExecuteSound(other: Semantics, dbnum: DbId, q: Request, db: DbId, now: Time, d: Data)
    requires Tame(other, dbnum) && Sound(d, dbnum) && db < dbnum
    ensures Sound(Execute(other, q, db, now, d), dbnum)
  {
    if q.Plain? {
      ApplySound(other, dbnum, q.c, db, d);
    }
  }

  /** The records fed for a request: a SELECT first if another database was selected last. */
  function Feed(q: Request, db: DbId, seldb: int, now: Time): seq<Record> {
    (if db != seldb then [Select(db)] else []) + Translated(q, now)
  }

  /** A feed carries on what a file, or a buffer, leads to, exactly when it is timely. */
  lemma FeedLeads(other: Semantics, rs: seq<Record>, s: Replayed, seldb: int, d: Data, q: Request, db: DbId, now: Time, fed: Time)
    requires LeadsTo(other, rs, s, seldb, d) && Dirty(q, db, d)
    ensures LeadsTo(other, rs + Feed(Rewritten(q, now), db, seldb, fed), s, db, Execute(other, q, db, now, d)) <==> Timely(q, now, fed)
  {
    hide Execute, Timely, Apply;
    var t := Translated(Rewritten(q, now), fed);
    var r := Replay(other, rs, s);
    var f := Feed(Rewritten(q, now), db, seldb, fed);
    ReplayAppend(other, rs, f, s);
    ReplayAppend(other, if db != seldb then [Select(db)] else [], t, r);
    ReplayOne(other, Select(db), r);
    TranslationExact(other, q, db, now, fed, d);
    TranslatedStays(other, Rewritten(q, now), fed, Replayed(db, d));
  }

  /** The records of a request select no database. */
  lemma TranslatedStays(other: Semantics, q: Request, fed: Time, s: Replayed)
    ensures Replay(other, Translated(q, fed), s).db == s.db
  {
    var rs := Translated(q, fed);
    if |rs| == 1 {
      ReplayOne(other, rs[0], s);
    } else {
      ReplayTwo(other, rs[0], rs[1], s);
    }
  }

  /** The same from any database selected. */
  ghost predicate LeadsFromAll(other: Semantics, rs: seq<Record>, from: Data, seldb: int, d: Data) {
    forall db: DbId :: LeadsTo(other, rs, Replayed(db, from), seldb, d)
  }

  lemma FeedLeadsFromAll(other: Semantics, rs: seq<Record>, from: Data, seldb: int, d: Data, q: Request, db: DbId, now: Time, fed: Time)
    requires LeadsFromAll(other, rs, from, seldb, d) && Dirty(q, db, d) && Timely(q, now, fed)
    ensures LeadsFromAll(other, rs + Feed(Rewritten(q, now), db, seldb, fed), from, db, Execute(other, q, db, now, d))
  {
    forall db': DbId ensures LeadsTo(other, rs + Feed(Rewritten(q, now), db, seldb, fed), Replayed(db', from), db, Execute(other, q, db, now, d)) {
      FeedLeads(other, rs, Replayed(db', from), seldb, d, q, db, now, fed);
    }
  }

  lemma NotDirty(other: Semantics, q: Request, db: DbId, now: Time, d: Data)
    ensures !Dirty(q, db, d) ==> Execute(other, q, db, now, d) == d
  {}

  // ----- Files that end too soon, and rewritten ones

  /** Records up to `i` leave out the expiry of a SETEX, which is appended as two records. */
  ghost predicate HalfSetEx(rs: seq<Record>, i: nat) {
    && 0 < i < |rs| && rs[i - 1].Run? && rs[i].Run?
    && rs[i - 1].c.SetKey? && rs[i].c.ExpireAt? && rs[i - 1].c.key == rs[i].c.key
  }

  /**
   Records up to `i` rebuild a dataset there has been, not older than the one at `from`; or half of a SETEX is missing,
   at one of the places `halves` where a single request was fed as two records.
   */
  ghost predicate IsPast(other: Semantics, rs: seq<Record>, i: nat, history: seq<Data>, from: nat, halves: set<nat>) {
    i <= |rs| && ((i in halves && HalfSetEx(rs, i)) || exists h: nat :: from <= h < |history| && history[h] == Replay(other, rs[..i], Start).data)
  }

  ghost predicate AllPast(other: Semantics, rs: seq<Record>, n: nat, history: seq<Data>, from: nat, halves: set<nat>) {
    forall i: nat :: n <= i <= |rs| ==> IsPast(other, rs, i, history, from, halves)
  }

  lemma PastNow(other: Semantics, rs: seq<Record>, history: seq<Data>, from: nat, halves: set<nat>)
    requires from < |history| && Replay(other, rs, Start).data == history[|history| - 1]
    ensures AllPast(other, rs, |rs|, history, from, halves)
  {
    assert rs[..|rs|] == rs;
    forall i: nat | |rs| <= i <= |rs| ensures IsPast(other, rs, i, history, from, halves) {
      assert history[|history| - 1] == Replay(other, rs[..i], Start).data;
    }
  }

  /** The place in the records at which a request is half fed, if it is fed as two. */
  function Halves(q: Request, n: nat): set<nat> {
    if q.SetEx? && n > 0 then {n - 1} else {}
  }

  /** What is fed for a request leads to a past dataset after each of its records, but for half a SETEX. */
  lemma PastFeed(other: Semantics, rs: seq<Record>, n: nat, history: seq<Data>, from: nat, halves: set<nat>, seldb: int, d: Data, q: Request,
                 db: DbId, now: Time, fed: Time)
    requires n <= |rs| && AllPast(other, rs, n, history, from, halves) && from < |history| && history[|history| - 1] == d
    requires LeadsTo(other, rs, Start, seldb, d) && Dirty(q, db, d) && Timely(q, now, fed)
    ensures var rs' := rs + Feed(Rewritten(q, now), db, seldb, fed);
            AllPast(other, rs', n, history + [Execute(other, q, db, now, d)], from, halves + Halves(q, |rs'|))
  {
    hide Execute, Apply, IsSpelled, Timely;
    var f, d' := Feed(Rewritten(q, now), db, seldb, fed), Execute(other, q, db, now, d);
    var rs', history' := rs + f, history + [d'];
    var halves' := halves + Halves(q, |rs'|);
    FeedLeads(other, rs, Start, seldb, d, q, db, now, fed);
    forall i: nat | n <= i <= |rs'| ensures IsPast(other, rs', i, history', from, halves') {
      if i < |rs| {
        PastStays(other, rs, f, i, history, d', from, halves, halves');
      } else if i == |rs'| {
        assert rs'[..i] == rs' && history'[|history|] == d';
      } else if i == |rs| {
        assert rs'[..i] == rs && history'[|history| - 1] == d;
      } else if db != seldb && i == |rs| + 1 {
        assert rs'[..i] == rs + [Select(db)];
        ReplaySnoc(other, rs, Select(db), Start);
        assert history'[|history| - 1] == d;
      } else {
        assert HalfSetEx(rs', i);
      }
    }
  }

  lemma PastStays(other: Semantics, rs: seq<Record>, f: seq<Record>, i: nat, history: seq<Data>, d: Data, from: nat, halves: set<nat>, halves': set<nat>)
    requires IsPast(other, rs, i, history, from, halves) && i < |rs| && halves <= halves'
    ensures IsPast(other, rs + f, i, history + [d], from, halves')
  {
    assert (rs + f)[..i] == rs[..i];
    if !(i in halves && HalfSetEx(rs, i)) {
      var h: nat :| from <= h < |history| && history[h] == Replay(other, rs[..i], Start).data;
      assert (history + [d])[h] == history[h];
    }
  }

  /** The history grows. */
  lemma PastGrows(other: Semantics, rs: seq<Record>, n: nat, history: seq<Data>, d: Data, from: nat, halves: set<nat>)
    requires AllPast(other, rs, n, history, from, halves)
    ensures AllPast(other, rs, n, history + [d], from, halves)
  {
    forall i: nat | n <= i <= |rs| ensures IsPast(other, rs, i, history + [d], from, halves) {
      assert IsPast(other, rs, i, history, from, halves);
      if !(i in halves && HalfSetEx(rs, i)) {
        var h: nat :| from <= h < |history| && history[h] == Replay(other, rs[..i], Start).data;
        assert (history + [d])[h] == history[h];
      }
    }
  }

  /** What is lost with the second half of a SETEX: the key is there, and never expires. */
  lemma HalfSetExStays(other: Semantics, rs: seq<Record>, s: Replayed, key: Blob, val: Blob, seconds: Time, now: Time)
    requires seconds > 0
    ensures var r := Replay(other, rs, s);
            var l := Loc(r.db, key);
            var half := Replay(other, rs + [Translated(SetEx(key, seconds, val), now)[0]], s).data;
            half == r.data[l := Item(Str(val), None)] != Execute(other, SetEx(key, seconds, val), r.db, now, r.data)
  {
    ReplaySnoc(other, rs, Run(SetKey(key, val)), s);
    var r := Replay(other, rs, s);
    var l := Loc(r.db, key);
    assert r.data[l := Item(Str(val), None)][l].expire != Execute(other, SetEx(key, seconds, val), r.db, now, r.data)[l].expire;
  }

  /** Differences that begin with a SELECT do the same whatever database was selected before. */
  lemma {:induction false} FromAnyDatabase(other: Semantics, rs: seq<Record>, a: DbId, b: DbId, d: Data)
    requires rs != [] ==> rs[0].Select?
    ensures Replay(other, rs, Replayed(a, d)).data == Replay(other, rs, Replayed(b, d)).data
    ensures rs != [] ==> Replay(other, rs, Replayed(a, d)) == Replay(other, rs, Replayed(b, d))
  {
    if |rs| > 1 {
      FromAnyDatabase(other, rs[..|rs| - 1], a, b, d);
    }
  }

  /** What a rewritten file with the differences after it rebuilds. */
  lemma RewrittenRebuilds(other: Semantics, temp: seq<Record>, diff: seq<Record>, d: Data)
    requires Replay(other, temp, Start).data == d && (diff != [] ==> diff[0].Select?)
    ensures Replay(other, temp + diff, Start).data == Replay(other, diff, Replayed(0, d)).data
  {
    ReplayAppend(other, temp, diff, Start);
    FromAnyDatabase(other, diff, Replay(other, temp, Start).db, 0, d);
  }

  // ----- Keys that had expired when the dataset was rewritten

  /** The dataset with the expiries of some keys left out. */
  function Strip(d: Data, keys: set<Loc>): Data {
    map l | l in d :: if l in keys then Item(d[l].value, None) else d[l]
  }

  function ExpiredKeys(d: Data, now: Time): set<Loc> {
    set l | l in d && Expired(d[l], now)
  }

  lemma ForgetStrips(d: Data, now: Time)
    ensures Forget(d, now) == Strip(d, ExpiredKeys(d, now))
  {}

  /** Of some expired keys, those that no command has deleted; any command that finds one deletes it first (expireIfNeeded). */
  datatype Expiring = Expiring(db: DbId, keys: set<Loc>, ok: bool)

  function Track(rs: seq<Record>, t: Expiring): Expiring {
    if rs == [] then t
    else
      var u := Track(rs[..|rs| - 1], t);
      match rs[|rs| - 1]
      case Select(db) => u.(db := db)
      case Run(Other(_)) => u.(ok := false)
      case Run(Del(key)) => u.(keys := u.keys - {Loc(u.db, key)})
      case Run(c) => u.(ok := u.ok && Loc(u.db, c.key) !in u.keys)
  }

  /** Keys with an expiry, which a rewrite loses. */
  ghost predicate HaveExpiry(d: Data, keys: set<Loc>) {
    forall l :: l in keys ==> l in d && d[l].expire.Some?
  }

  /** While expired keys are only ever deleted, what a rewritten file rebuilds differs by their expiries only. */
  lemma {:induction false} TrackStrips(other: Semantics, rs: seq<Record>, db: DbId, d: Data, keys: set<Loc>)
    requires HaveExpiry(d, keys) && Track(rs, Expiring(db, keys, true)).ok
    ensures var t := Track(rs, Expiring(db, keys, true));
            var r := Replay(other, rs, Replayed(db, d));
            && t.db == r.db && HaveExpiry(r.data, t.keys)
            && Replay(other, rs, Replayed(db, Strip(d, keys))) == Replayed(r.db, Strip(r.data, t.keys))
  {
    if rs != [] {
      var n := |rs| - 1;
      TrackStrips(other, rs[..n], db, d, keys);
      var t, r := Track(rs[..n], Expiring(db, keys, true)), Replay(other, rs[..n], Replayed(db, d));
      match rs[n]
      case Select(_) =>
      case Run(Other(_)) =>
      case Run(Del(key)) =>
        assert Strip(r.data, t.keys) - {Loc(r.db, key)} == Strip(r.data - {Loc(r.db, key)}, t.keys - {Loc(r.db, key)});
      case Run(c) => StripApply(other, c, r.db, r.data, t.keys);
    }
  }

  lemma StripApply(other: Semantics, c: Command, db: DbId, d: Data, keys: set<Loc>)
    requires !c.Other? && !c.Del? && Loc(db, c.key) !in keys && HaveExpiry(d, keys)
    ensures HaveExpiry(Apply(other, c, db, d), keys)
    ensures Apply(other, c, db, Strip(d, keys)) == Strip(Apply(other, c, db, d), keys)
  {
    var l, e := Loc(db, c.key), Strip(d, keys);
    assert ExpireOf(e, l) == ExpireOf(d, l) && (l in d ==> e[l] == d[l]);
    hide Strip, HaveExpiry;
    match c
    case SetKey(_, val) => StripPut(d, keys, l, Item(Str(val), None));
    case RPush(_, elem) =>
      if ValueAt(d, l, List([])).List? {
        StripPut(d, keys, l, Item(List(ValueAt(d, l, List([])).xs + [elem]), ExpireOf(d, l)));
      }
    case SAdd(_, member) =>
      if ValueAt(d, l, Set({})).Set? {
        StripPut(d, keys, l, Item(Set(ValueAt(d, l, Set({})).m + {member}), ExpireOf(d, l)));
      }
    case HSet(_, field, val) =>
      if ValueAt(d, l, Hash(map[])).Hash? {
        StripPut(d, keys, l, Item(Hash(ValueAt(d, l, Hash(map[])).h[field := val]), ExpireOf(d, l)));
      }
    case ZAdd(_, score, member) =>
      if ValueAt(d, l, ZSet(map[])).ZSet? {
        StripPut(d, keys, l, Item(ZSet(ValueAt(d, l, ZSet(map[])).z[member := score]), ExpireOf(d, l)));
      }
    case ExpireAt(_, when) =>
      StripKeys(d, keys);
      if l in d {
        StripPut(d, keys, l, Item(d[l].value, Some(when)));
      }
  }

  lemma StripKeys(d: Data, keys: set<Loc>)
    ensures Strip(d, keys).Keys == d.Keys
  {}

  lemma StripPut(d: Data, keys: set<Loc>, l: Loc, i: Item)
    requires l !in keys && HaveExpiry(d, keys)
    ensures Strip(d, keys)[l := i] == Strip(d[l := i], keys) && HaveExpiry(d[l := i], keys)
  {}

  /**
   When expired keys are only ever deleted, the rewritten file rebuilds the dataset exactly if the differences delete all
   of those that had expired when it was written.
   */
  lemma ExpiredKeysHeal(other: Semantics, diff: seq<Record>, d: Data, now: Time)
    requires Track(diff, Expiring(0, ExpiredKeys(d, now), true)).ok
    ensures Replay(other, diff, Replayed(0, Forget(d, now))).data == Replay(other, diff, Replayed(0, d)).data
       <==> Track(diff, Expiring(0, ExpiredKeys(d, now), true)).keys == {}
  {
    ForgetStrips(d, now);
    TrackStrips(other, diff, 0, d, ExpiredKeys(d, now));
    var t, r := Track(diff, Expiring(0, ExpiredKeys(d, now), true)), Replay(other, diff, Replayed(0, d)).data;
    if l :| l in t.keys {
      assert Strip(r, t.keys)[l].expire != r[l].expire;
    } else {
      assert Strip(r, t.keys) == r;
    }
  }

  class Aof {
    const other: Semantics
    const dbnum: DbId
    var dataset: Data
    var appendseldb: int
    var aofbuf: seq<byte>
    var bgrewritebuf: seq<byte>
    var file: seq<byte>              // on disk, under the configured name
    var rewriting: bool              // bgrewritechildpid != -1
    var snapshot: Data               // the memory of the child
    var postponed: int               // aof_flush_postponed_start
    ghost var flushed: seq<Record>   // the records in the file
    ghost var pending: seq<Record>   // those in aofbuf
    ghost var diff: seq<Record>      // those in bgrewritebuf
    ghost var halves: set<nat>       // where in the records a SETEX was fed as two
    ghost var history: seq<Data>     // every dataset there has been
    ghost var diskAt: nat            // the one the file rebuilds
    ghost var forkAt: nat            // the one the child works on

    /** The bytes are those of the records. */
    ghost predicate Written()
      reads this
    {
      file == Encoded(flushed) && aofbuf == Encoded(pending) && bgrewritebuf == Encoded(diff)
    }

    /** What the records lead to. */
    ghost predicate Leads()
      reads this
    {
      && Tame(other, dbnum) && Sound(dataset, dbnum)
      && history != [] && history[|history| - 1] == dataset
      && diskAt < |history| && Replay(other, flushed, Start).data == history[diskAt]
      && LeadsTo(other, flushed + pending, Start, appendseldb, dataset)
      && AllPast(other, flushed + pending, |flushed|, history, diskAt, halves)
    }

    /** What the child works on, and what has happened since. */
    ghost predicate Rewrites()
      reads this
    {
      && (rewriting ==> Sound(snapshot, dbnum) && forkAt < |history| && history[forkAt] == snapshot)
      && (rewriting ==> LeadsFromAll(other, diff, snapshot, appendseldb, dataset))
      && (rewriting && diff == [] ==> appendseldb == -1)
      && (diff != [] ==> diff[0].Select?)
      && (!rewriting ==> diff == [])
    }

    ghost predicate Valid()
      reads this
    {
      Written() && Leads() && Rewrites()
    }

    /** A server that has loaded its file, which is the bytes of some records. */
    constructor (other: Semantics, dbnum: DbId, ghost records: seq<Record>, file: seq<byte>, dataset: Data)
      requires file == Encoded(records) && Rebuilt(other, file) == Some(dataset)
      requires Tame(other, dbnum) && Sound(dataset, dbnum)
      ensures Valid() && this.file == file && this.dataset == dataset && aofbuf == [] && !rewriting
      ensures this.other == other && this.dbnum == dbnum
    {
      this.other, this.dbnum, this.file, this.dataset := other, dbnum, file, dataset;
      appendseldb, aofbuf, bgrewritebuf, rewriting, snapshot, postponed := -1, [], [], false, map[], 0;
      flushed, pending, diff, halves := records, [], [], {};
      history, diskAt, forkAt := [dataset], 0, 0;
      new;
      WholeRecords(other, records);
      assert flushed + pending == records;
      PastNow(other, records, history, 0, {});
      EncodedOne(Select(0));
    }

    /** catAppendOnlyExpireAtCommand. */
    method CatAppendOnlyExpireAtCommand(buf: seq<byte>, key: Blob, seconds: Time, now: Time) returns (out: seq<byte>)
      ensures out == buf + Networking.Encode(ToArgv(Run(ExpireAt(key, Long(now + seconds)))))
    {
      var when := Long(now + seconds);
      TextShort(when);
      out := CatAppendOnlyGenericCommand(buf, [EXPIREAT, key, Text(when)]);
    }

    /** The part of feedAppendOnlyFile that translates the command. */
    method Translate(buf: seq<byte>, q: Request, now: Time) returns (out: seq<byte>)
      ensures out == buf + Encoded(Translated(q, now))
    {
      hide Networking.Encode, Networking.EncodeAll;
      EncodedTranslated(q, now);
      match q {
        case Expire(key, seconds) => out := CatAppendOnlyExpireAtCommand(buf, key, seconds, now);
        case SetEx(key, seconds, val) =>
          out := CatAppendOnlyGenericCommand(buf, [SET, key, val]);
          Assoc(buf, Networking.Encode(ToArgv(Run(SetKey(key, val)))), Networking.Encode(ToArgv(Run(ExpireAt(key, Long(now + seconds))))));
          out := CatAppendOnlyExpireAtCommand(out, key, seconds, now);
        case ExpireWhen(key, when) => out := CatAppendOnlyGenericCommand(buf, ToArgv(Run(ExpireAt(key, when))));
        case Plain(c) => out := CatAppendOnlyGenericCommand(buf, ToArgv(Run(c)));
      }
    }

    /** feedAppendOnlyFile. */
    method FeedAppendOnlyFile(q: Request, dictid: DbId, now: Time)
      modifies this`appendseldb, this`aofbuf, this`bgrewritebuf
      ensures appendseldb == dictid && aofbuf == old(aofbuf) + Encoded(Feed(q, dictid, old(appendseldb), now))
      ensures bgrewritebuf == if rewriting then old(bgrewritebuf) + Encoded(Feed(q, dictid, old(appendseldb), now)) else old(bgrewritebuf)
    {
      hide Networking.Encode, Encoded;
      var buf: seq<byte> := [];
      ghost var select := if dictid != appendseldb then [Select(dictid)] else [];
      EncodedOne(Select(dictid));
      if dictid != appendseldb {
        buf := CatAppendOnlyGenericCommand(buf, ToArgv(Select(dictid)));
        appendseldb := dictid;
      }
      assert buf == Encoded(select);
      buf := Translate(buf, q, now);
      EncodedAppend(select, Translated(q, now));
      aofbuf := aofbuf + buf;
      if rewriting {
        bgrewritebuf := bgrewritebuf + buf;
      }
    }

    /**
     call: a request of a client (or the DEL of an expired key) is executed, and fed when it has changed something. The
     clock is read at either time. Everything stays right exactly if that makes no difference.
     */
    method Call(q: Request, db: DbId, now: Time, fed: Time)
      requires Valid() && db < dbnum
      modifies this`dataset, this`appendseldb, this`aofbuf, this`bgrewritebuf, this`history, this`pending, this`diff, this`halves
      ensures dataset == Execute(other, q, db, now, old(dataset)) && history == old(history) + [dataset]
      ensures Valid() <==> !Dirty(q, db, old(dataset)) || Timely(q, now, fed)
      ensures halves == old(halves) + if Dirty(q, db, old(dataset)) then Halves(q, |flushed + pending|) else {}
    {
      hide *;
      Facts();
      ExecuteSound(other, dbnum, q, db, now, dataset);
      ghost var d, seldb, main, side, past := dataset, appendseldb, pending, diff, history;
      var dirty := Dirty(q, db, dataset);
      dataset := Execute(other, q, db, now, dataset);
      history := history + [dataset];
      if dirty {
        FeedAppendOnlyFile(Rewritten(q, now), db, fed);
        ghost var buf := Feed(Rewritten(q, now), db, seldb, fed);
        FeedFacts(other, flushed, main, past, diskAt, halves, seldb, d, q, db, now, fed);
        pending := main + buf;
        if rewriting {
          FeedDiff(other, side, snapshot, seldb, d, q, db, now, fed);
          diff := side + buf;
        }
        halves := halves + Halves(q, |flushed + pending|);
        if Timely(q, now, fed) {
          IsValid();
        } else if Valid() {
          Facts();
        }
      } else {
        NotDirty(other, q, db, now, d);
        PastGrows(other, flushed + main, |flushed|, past, d, diskAt, halves);
        assert halves + {} == halves;
        IsValid();
      }
    }

    lemma Facts()
      requires Valid()
      ensures file == Encoded(flushed) && aofbuf == Encoded(pending) && bgrewritebuf == Encoded(diff)
      ensures Tame(other, dbnum) && Sound(dataset, dbnum)
      ensures history != [] && history[|history| - 1] == dataset
      ensures diskAt < |history| && Replay(other, flushed, Start).data == history[diskAt]
      ensures LeadsTo(other, flushed + pending, Start, appendseldb, dataset)
      ensures AllPast(other, flushed + pending, |flushed|, history, diskAt, halves)
      ensures rewriting ==> Sound(snapshot, dbnum) && forkAt < |history| && history[forkAt] == snapshot
      ensures rewriting ==> LeadsFromAll(other, diff, snapshot, appendseldb, dataset)
      ensures rewriting && diff == [] ==> appendseldb == -1
      ensures diff != [] ==> diff[0].Select?
      ensures !rewriting ==> diff == []
    {}

    lemma DiffFacts()
      requires Valid()
      ensures bgrewritebuf == Encoded(diff) && (diff != [] ==> diff[0].Select?) && diskAt < |history|
    {}

    lemma IsValid()
      requires file == Encoded(flushed) && aofbuf == Encoded(pending) && bgrewritebuf == Encoded(diff)
      requires Tame(other, dbnum) && Sound(dataset, dbnum)
      requires history != [] && history[|history| - 1] == dataset
      requires diskAt < |history| && Replay(other, flushed, Start).data == history[diskAt]
      requires LeadsTo(other, flushed + pending, Start, appendseldb, dataset)
      requires AllPast(other, flushed + pending, |flushed|, history, diskAt, halves)
      requires rewriting ==> Sound(snapshot, dbnum) && forkAt < |history| && history[forkAt] == snapshot
      requires rewriting ==> LeadsFromAll(other, diff, snapshot, appendseldb, dataset)
      requires rewriting && diff == [] ==> appendseldb == -1
      requires diff != [] ==> diff[0].Select?
      requires !rewriting ==> diff == []
      ensures Valid()
    {}

    /** The bytes on disk are loaded as a dataset there has been. */
    lemma FileRebuilds()
      requires Valid()
      ensures diskAt < |history| && Rebuilt(other, file) == Some(history[diskAt])
    {
      WholeRecords(other, flushed);
    }

    /** Does flushAppendOnlyFile write, or put the write off? */
    predicate Writes(force: bool, everysec: bool, syncInProgress: bool, unixtime: int)
      reads this
    {
      aofbuf != [] && !(everysec && !force && syncInProgress && (postponed == 0 || unixtime - postponed < 2))
    }

    /** After a short write the file is refused, or rebuilds a dataset there has been, but for half a SETEX. */
    ghost predicate Survives(records: seq<Record>, n: nat)
      reads this
    {
      && (Rebuilt(other, file).Some? <==> AtBoundary(Argvs(records), |file|))
      && (Rebuilt(other, file).Some? ==>
            exists i: nat :: n <= i <= |records| && Rebuilt(other, file) == Some(Replay(other, records[..i], Start).data)
                             && IsPast(other, records, i, history, diskAt, halves))
    }

    /**
     flushAppendOnlyFile: the write may be put off while a background fsync is going on, for less than two seconds; a
     write of fewer bytes than there are (-1 for none) ends the server. The file then is loaded exactly if it ends with a
     whole command.
     */
    method FlushAppendOnlyFile(force: bool, everysec: bool, syncInProgress: bool, unixtime: int, nwritten: int) returns (exited: bool)
      requires Valid() && -1 <= nwritten <= |aofbuf|
      modifies this`aofbuf, this`file, this`postponed, this`diskAt, this`flushed, this`pending
      ensures var writes := old(Writes(force, everysec, syncInProgress, unixtime));
              && (exited <==> writes && nwritten != |old(aofbuf)|)
              && file == old(file) + old(aofbuf)[..if writes && nwritten > 0 then nwritten else 0]
      ensures !exited ==> Valid() && old(diskAt) <= diskAt && file + aofbuf == old(file + aofbuf)
      ensures !exited && (force || !everysec || !syncInProgress) ==> aofbuf == [] && history[diskAt] == dataset
      ensures exited ==> Survives(old(flushed + pending), old(|flushed|))
    {
      hide *;
      Facts();
      WritesIs(force, everysec, syncInProgress, unixtime);
      assert file + [] == file && aofbuf[..0] == [];
      if aofbuf == [] {
        NothingEncoded(pending);
        assert flushed + [] == flushed;
        diskAt := |history| - 1;
        AllWritten(other, flushed, appendseldb, dataset, history, halves);
        IsValid();
        return false;
      }
      if everysec && !force && syncInProgress {
        if postponed == 0 {
          postponed := unixtime;
          IsValid();
          return false;
        } else if unixtime - postponed < 2 {
          return false;
        }
      }
      exited := Write(nwritten);
    }

    /** The write of flushAppendOnlyFile. */
    method Write(nwritten: int) returns (exited: bool)
      requires Valid() && -1 <= nwritten <= |aofbuf|
      modifies this`aofbuf, this`file, this`postponed, this`diskAt, this`flushed, this`pending
      ensures (exited <==> nwritten != |old(aofbuf)|) && file == old(file) + old(aofbuf)[..if nwritten > 0 then nwritten else 0]
      ensures !exited ==> Valid() && old(diskAt) <= diskAt && file + aofbuf == old(file + aofbuf)
      ensures !exited ==> aofbuf == [] && history != [] && diskAt == |history| - 1 && history[diskAt] == dataset
      ensures exited ==> Survives(old(flushed + pending), old(|flushed|))
    {
      hide *;
      Facts();
      ghost var records := flushed + pending;
      EncodedAppend(flushed, pending);
      postponed := 0;
      var n := if nwritten > 0 then nwritten else 0;
      file := file + aofbuf[..n];
      if nwritten != |aofbuf| {
        ShortWrite(other, flushed, pending, n, history, diskAt, halves);
        SurvivesIs(records, |flushed|);
        return true;
      }
      assert aofbuf[..n] == aofbuf;
      aofbuf := [];
      flushed, pending := records, [];
      diskAt := |history| - 1;
      AllWritten(other, records, appendseldb, dataset, history, halves);
      EncodedOne(Select(0));
      assert records + [] == records && file + [] == file;
      IsValid();
      return false;
    }

    lemma WritesIs(force: bool, everysec: bool, syncInProgress: bool, unixtime: int)
      ensures Writes(force, everysec, syncInProgress, unixtime) <==>
              aofbuf != [] && !(everysec && !force && syncInProgress && (postponed == 0 || unixtime - postponed < 2))
    {}

    lemma SurvivesIs(records: seq<Record>, n: nat)
      requires Rebuilt(other, file).Some? <==> AtBoundary(Argvs(records), |file|)
      requires Rebuilt(other, file).Some? ==>
                 exists i: nat :: n <= i <= |records| && Rebuilt(other, file) == Some(Replay(other, records[..i], Start).data)
                                  && IsPast(other, records, i, history, diskAt, halves)
      ensures Survives(records, n)
    {}

    /** rewriteAppendOnlyFileBackground. */
    method RewriteAppendOnlyFileBackground(forkOk: bool) returns (ok: bool)
      requires Valid()
      modifies this`rewriting, this`snapshot, this`appendseldb, this`forkAt
      ensures Valid() && (ok <==> !old(rewriting) && forkOk)
      ensures ok ==> rewriting && snapshot == dataset && bgrewritebuf == []
      ensures !ok ==> rewriting == old(rewriting) && snapshot == old(snapshot) && appendseldb == old(appendseldb)
    {
      hide *;
      Facts();
      EncodedOne(Select(0));
      if rewriting || !forkOk {
        return false;
      }
      rewriting, snapshot := true, dataset;
      forkAt := |history| - 1;
      LeadsFromThere(other, flushed + pending, appendseldb, dataset);
      appendseldb := -1;
      IsValid();
      return true;
    }

    /** What the child writes to its file. */
    method WriteRecords(rs: seq<Record>) returns (out: seq<byte>)
      ensures out == Encoded(rs)
    {
      hide Networking.Encode, Encoded;
      out := [];
      var i := 0;
      EncodedOne(Select(0));
      assert rs[..0] == [];
      while i < |rs|
        invariant 0 <= i <= |rs| && out == Encoded(rs[..i])
      {
        assert rs[..i + 1] == rs[..i] + [rs[i]];
        EncodedAppend(rs[..i], [rs[i]]);
        EncodedOne(rs[i]);
        out := CatAppendOnlyGenericCommand(out, ToArgv(rs[i]));
        i := i + 1;
      }
      assert rs[..i] == rs;
    }

    /**
     backgroundRewriteDoneHandler, with what the child has written at time `now`. The new file takes the old one's
     place when every step has worked. It then rebuilds the snapshot, without the expiries that had passed, and the
     differences after it; everything stays right exactly if that is the dataset.
     */
    method BackgroundRewriteDoneHandler(bysignal: bool, exitcode: int, openOk: bool, writeOk: bool, renameOk: bool, now: Time)
      requires Valid() && rewriting
      modifies this`file, this`aofbuf, this`bgrewritebuf, this`rewriting, this`appendseldb, this`diskAt, this`flushed, this`pending, this`diff, this`halves
      ensures !rewriting && old(diskAt) <= diskAt
      ensures var switched := !bysignal && exitcode == 0 && openOk && writeOk && renameOk;
              var after := Replay(other, old(diff), Replayed(0, Forget(snapshot, now))).data;
              && (Valid() <==> !switched || after == dataset)
              && (switched ==> Rebuilt(other, file) == Some(after) && aofbuf == [] && history != [] && diskAt == |history| - 1)
              && (!switched ==> file == old(file) && aofbuf == old(aofbuf) && diskAt == old(diskAt))
              && ((forall l :: l in snapshot ==> !Expired(snapshot[l], now)) ==> after == dataset)
              && var t := Track(old(diff), Expiring(0, ExpiredKeys(snapshot, now), true));
                 (t.ok ==> (after == dataset <==> t.keys == {}))
    {
      hide *;
      Facts();
      ghost var after := Replay(other, diff, Replayed(0, Forget(snapshot, now))).data;
      WhenRight(now);
      EncodedOne(Select(0));
      if !bysignal && exitcode == 0 && openOk && writeOk && renameOk {
        SwitchFile(now);
        if after == dataset {
          LeadsToIs(other, flushed, Start, -1, dataset);
          PastNow(other, flushed, history, diskAt, halves);
          IsValid();
        } else if Valid() {
          Facts();
        }
      } else {
        bgrewritebuf, diff := [], [];
        rewriting := false;
        IsValid();
      }
    }

    /**
     When the rewritten file rebuilds the dataset: when no key of the snapshot had expired, and, as long as expired keys are
     only ever deleted, exactly when all of them have been.
     */
    lemma WhenRight(now: Time)
      requires Valid() && rewriting
      ensures var after := Replay(other, diff, Replayed(0, Forget(snapshot, now))).data;
              && ((forall l :: l in snapshot ==> !Expired(snapshot[l], now)) ==> after == dataset)
              && var t := Track(diff, Expiring(0, ExpiredKeys(snapshot, now), true));
                 (t.ok ==> (after == dataset <==> t.keys == {}))
    {
      hide Track, ExpiredKeys, Written, Leads;
      assert LeadsTo(other, diff, Replayed(0, snapshot), appendseldb, dataset);
      ForgetExact(snapshot, now);
      if Track(diff, Expiring(0, ExpiredKeys(snapshot, now), true)).ok {
        ExpiredKeysHeal(other, diff, snapshot, now);
      }
    }

    /** What the child has written. */
    method ChildFile(now: Time) returns (temp: seq<byte>, ghost recs: seq<Record>)
      requires Valid() && rewriting
      ensures temp == Encoded(recs) && Replay(other, recs, Start).data == Forget(snapshot, now)
    {
      hide *;
      Facts();
      SoundIs(snapshot, dbnum);
      var rs := RewriteAppendOnlyFile(other, snapshot, dbnum, now);
      recs := rs;
      temp := WriteRecords(rs);
    }

    /** The child's file, with the differences after it, takes the place of the file. */
    method SwitchFile(now: Time)
      requires Valid() && rewriting
      modifies this`file, this`aofbuf, this`bgrewritebuf, this`rewriting, this`appendseldb, this`diskAt, this`flushed, this`pending, this`diff, this`halves
      ensures !rewriting && aofbuf == [] == bgrewritebuf && pending == [] == diff && appendseldb == -1
      ensures history != [] && old(diskAt) <= diskAt == |history| - 1 && file == Encoded(flushed) && flushed + pending == flushed
      ensures var after := Replay(other, old(diff), Replayed(0, Forget(snapshot, now))).data;
              Rebuilt(other, file) == Some(after) && Replay(other, flushed, Start).data == after
    {
      hide *;
      DiffFacts();
      ghost var recs;
      var temp;
      temp, recs := ChildFile(now);
      RewrittenFile(other, recs, diff, Forget(snapshot, now));
      file := temp + bgrewritebuf;
      flushed, pending, diff, halves := recs + diff, [], [], {};
      appendseldb, rewriting := -1, false;
      aofbuf, bgrewritebuf := [], [];
      diskAt := |history| - 1;
    }
  }

  /** What a feed does to the file with its buffer. */
  lemma FeedFacts(other: Semantics, flushed: seq<Record>, main: seq<Record>, history: seq<Data>, from: nat, halves: set<nat>, seldb: int, d: Data,
                  q: Request, db: DbId, now: Time, fed: Time)
    requires LeadsTo(other, flushed + main, Start, seldb, d) && Dirty(q, db, d)
    requires AllPast(other, flushed + main, |flushed|, history, from, halves) && from < |history| && history[|history| - 1] == d
    ensures var f, d' := Feed(Rewritten(q, now), db, seldb, fed), Execute(other, q, db, now, d);
            && Encoded(main + f) == Encoded(main) + Encoded(f)
            && (LeadsTo(other, flushed + (main + f), Start, db, d') <==> Timely(q, now, fed))
            && (Timely(q, now, fed) ==>
                  AllPast(other, flushed + (main + f), |flushed|, history + [d'], from, halves + Halves(q, |flushed + (main + f)|)))
  {
    hide *;
    var f := Feed(Rewritten(q, now), db, seldb, fed);
    EncodedAppend(main, f);
    Assoc(flushed, main, f);
    FeedLeads(other, flushed + main, Start, seldb, d, q, db, now, fed);
    if Timely(q, now, fed) {
      PastFeed(other, flushed + main, |flushed|, history, from, halves, seldb, d, q, db, now, fed);
    }
  }

  /** What it does to the differences. */
  lemma FeedDiff(other: Semantics, side: seq<Record>, snapshot: Data, seldb: int, d: Data, q: Request, db: DbId, now: Time, fed: Time)
    requires LeadsFromAll(other, side, snapshot, seldb, d) && Dirty(q, db, d)
    requires if side == [] then seldb == -1 else side[0].Select?
    ensures var f, d' := Feed(Rewritten(q, now), db, seldb, fed), Execute(other, q, db, now, d);
            && Encoded(side + f) == Encoded(side) + Encoded(f)
            && side + f != [] && (side + f)[0].Select?
            && (Timely(q, now, fed) ==> LeadsFromAll(other, side + f, snapshot, db, d'))
  {
    hide *;
    var f := Feed(Rewritten(q, now), db, seldb, fed);
    EncodedAppend(side, f);
    FeedBegins(Rewritten(q, now), db, seldb, fed);
    if Timely(q, now, fed) {
      FeedLeadsFromAll(other, side, snapshot, seldb, d, q, db, now, fed);
    }
  }

  /** What a rewritten file with the differences after it is loaded as. */
  lemma RewrittenFile(other: Semantics, temp: seq<Record>, diff: seq<Record>, d: Data)
    requires Replay(other, temp, Start).data == d && (diff != [] ==> diff[0].Select?)
    ensures var after := Replay(other, diff, Replayed(0, d)).data;
            && Encoded(temp + diff) == Encoded(temp) + Encoded(diff) && temp + diff + [] == temp + diff
            && Replay(other, temp + diff, Start).data == after && Rebuilt(other, Encoded(temp + diff)) == Some(after)
  {
    hide *;
    RewrittenRebuilds(other, temp, diff, d);
    EncodedAppend(temp, diff);
    WholeRecords(other, temp + diff);
  }

  lemma SoundIs(d: Data, dbnum: DbId)
    requires Sound(d, dbnum)
    ensures WellFormed(d) && forall l :: l in d ==> l.db < dbnum
  {}

  lemma LeadsToIs(other: Semantics, rs: seq<Record>, s: Replayed, seldb: int, d: Data)
    ensures LeadsTo(other, rs, s, seldb, d) <==> Replay(other, rs, s).data == d && (seldb == -1 || Replay(other, rs, s).db == seldb)
  {}

  /** All records being in the file, it rebuilds the present dataset. */
  lemma AllWritten(other: Semantics, rs: seq<Record>, seldb: int, d: Data, history: seq<Data>, halves: set<nat>)
    requires LeadsTo(other, rs, Start, seldb, d) && history != [] && history[|history| - 1] == d
    ensures Replay(other, rs, Start).data == d && AllPast(other, rs, |rs|, history, |history| - 1, halves)
  {
    PastNow(other, rs, history, |history| - 1, halves);
  }

  /** From a snapshot just taken no record is needed, and any database may be taken to be selected. */
  lemma LeadsFromThere(other: Semantics, rs: seq<Record>, seldb: int, d: Data)
    requires LeadsTo(other, rs, Start, seldb, d)
    ensures LeadsTo(other, rs, Start, -1, d) && LeadsFromAll(other, [], d, -1, d)
  {}

  lemma FeedBegins(q: Request, db: DbId, seldb: int, now: Time)
    ensures Feed(q, db, seldb, now) != []
    ensures seldb == -1 ==> Feed(q, db, seldb, now)[0].Select?
  {}

  lemma EncodedTranslated(q: Request, now: Time)
    ensures Encoded(Translated(q, now)) == match q
      case Plain(c) => Networking.Encode(ToArgv(Run(c)))
      case Expire(key, seconds) => Networking.Encode(ToArgv(Run(ExpireAt(key, Long(now + seconds)))))
      case ExpireWhen(key, when) => Networking.Encode(ToArgv(Run(ExpireAt(key, when))))
      case SetEx(key, seconds, val) => Networking.Encode(ToArgv(Run(SetKey(key, val)))) + Networking.Encode(ToArgv(Run(ExpireAt(key, Long(now + seconds)))))
  {
    hide Networking.Encode, Encoded, Networking.EncodeAll;
    var rs := Translated(q, now);
    EncodedOne(rs[0]);
    if |rs| == 2 {
      EncodedOne(rs[1]);
      EncodedAppend([rs[0]], [rs[1]]);
      assert rs == [rs[0]] + [rs[1]];
    }
  }

  lemma NothingEncoded(rs: seq<Record>)
    requires Encoded(rs) == []
    ensures rs == []
  {
    if rs != [] {
      NotEmpty(ToArgv(rs[0]));
    }
  }

  /** A write of the first `n` bytes of what was pending. */
  lemma ShortWrite(other: Semantics, flushed: seq<Record>, pending: seq<Record>, n: nat, history: seq<Data>, from: nat, halves: set<nat>)
    requires n <= |Encoded(pending)| && AllPast(other, flushed + pending, |flushed|, history, from, halves)
    ensures var file, records := Encoded(flushed) + Encoded(pending)[..n], flushed + pending;
            && (Rebuilt(other, file).Some? <==> AtBoundary(Argvs(records), |file|))
            && (Rebuilt(other, file).Some? ==>
                  exists i: nat :: |flushed| <= i <= |records| && Rebuilt(other, file) == Some(Replay(other, records[..i], Start).data)
                                   && IsPast(other, records, i, history, from, halves))
  {
    hide Encoded, Rebuilt, Replay, AtBoundary, IsPast;
    var records := flushed + pending;
    EncodedAppend(flushed, pending);
    var k := |Encoded(flushed)| + n;
    assert Encoded(records)[..k] == Encoded(flushed) + Encoded(pending)[..n];
    var i := TornRecords(other, records, k);
    if i < |flushed| {
      assert flushed == flushed[..i + 1] + flushed[i + 1..] && records[..i + 1] == flushed[..i + 1];
      EncodedAppend(flushed[..i + 1], flushed[i + 1..]);
      assert false;
    }
    assert IsPast(other, records, i, history, from, halves);
  }
}
