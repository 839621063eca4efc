/** Objects and whole dumps (rdb.c): what rdbSave writes, rdbLoad reads back as the keys that have not expired. */
module RdbFile {
  import opened Bytes
  import Decimal
  import Intset
  import Lzf
  import AofFile
  import opened Rdb
  import opened Aof

  type Blob = AofFile.Blob

  const RDB_STRING := 0
  const RDB_LIST := 1
  const RDB_SET := 2
  const RDB_ZSET := 3
  const RDB_HASH := 4
  const RDB_SET_INTSET := 11

  // ----- Elements of aggregates

  /** What is read of an aggregate at a time: a string, a string and a score, or two strings. */
  datatype Kind = Single | Scored | Paired

  datatype Elem = Elem(first: Blob, second: Blob)

  const INF: seq<byte> := [105, 110, 102]
  const MINUS_INF: seq<byte> := [45, 105, 110, 102]
  const NAN: seq<byte> := [110, 97, 110]

  /** rdbLoadDoubleValue, up to the conversion of the text. */
  function LoadDouble(b: seq<byte>): (r: Option<Got<seq<byte>>>)
    ensures r.Some? ==> 0 < r.value.n <= |b|
  {
    if b == [] then None
    else
      var len: int := b[0];
      if len == 255 then Some(Got(MINUS_INF, 1))
      else if len == 254 then Some(Got(INF, 1))
      else if len == 253 then Some(Got(NAN, 1))
      else if len == 0 || |b| < 1 + len then None
      else Some(Got(b[1..1 + len], 1 + len))
  }

  function LoadElem(kind: Kind, b: seq<byte>): (r: Option<Got<Elem>>)
    ensures r.Some? ==> 0 < r.value.n <= |b|
  {
    match LoadString(b)
    case None => None
    case Some(g) =>
      if kind == Single then Some(Got(Elem(g.value, []), g.n))
      else
        match (if kind == Scored then LoadDouble(b[g.n..]) else LoadString(b[g.n..]))
        case None => None
        case Some(h) => Some(Got(Elem(g.value, h.value), g.n + h.n))
  }

  function LoadMany(kind: Kind, k: nat, b: seq<byte>): (r: Option<Got<seq<Elem>>>)
    ensures r.Some? ==> r.value.n <= |b| && |r.value.value| == k
  {
    if k == 0 then Some(Got([], 0))
    else match LoadMany(kind, k - 1, b)
      case None => None
      case Some(g) =>
        match LoadElem(kind, b[g.n..])
        case None => None
        case Some(h) => Some(Got(g.value + [h.value], g.n + h.n))
  }

  // ----- Values from elements

  function ListOf(es: seq<Elem>): seq<Blob> {
    if es == [] then [] else ListOf(es[..|es| - 1]) + [es[|es| - 1].first]
  }

  function SetOf(es: seq<Elem>): set<Blob> {
    if es == [] then {} else SetOf(es[..|es| - 1]) + {es[|es| - 1].first}
  }

  /** dictAdd keeps the value that is there. */
  function AddTo(m: map<Blob, Blob>, e: Elem): map<Blob, Blob> {
    if e.first in m then m else m[e.first := e.second]
  }

  function MapOf(es: seq<Elem>): map<Blob, Blob> {
    if es == [] then map[] else AddTo(MapOf(es[..|es| - 1]), es[|es| - 1])
  }

  function KindOf(otype: nat): Kind {
    if otype == RDB_ZSET then Scored else if otype == RDB_HASH then Paired else Single
  }

  function ValueOf(otype: nat, es: seq<Elem>): Value {
    if otype == RDB_LIST then List(ListOf(es))
    else if otype == RDB_SET then Set(SetOf(es))
    else if otype == RDB_ZSET then ZSet(MapOf(es))
    else Hash(MapOf(es))
  }

  /** A set kept as a block of integers: width and number in front; none when the sizes do not agree. */
  function LoadIntset(blob: seq<byte>): Option<set<Blob>> {
    if |blob| < 8 then None
    else
      var enc, n := Intset.Number(blob[..4]), Intset.Number(blob[4..8]);
      if !Intset.IsWidth(enc) || |blob| != 8 + Intset.Off(enc, n) then None else Some(TextsOf(blob[8..], enc, n))
  }

  /** The texts of the first `n` integers of a block. */
  function TextsOf(block: seq<byte>, enc: nat, n: nat): set<Blob>
    requires Intset.Holds(block, enc, n)
  {
    if n == 0 then {} else TextsOf(block, enc, n - 1) + {TextAt(block, enc, n - 1)}
  }

  function TextAt(block: seq<byte>, enc: nat, i: nat): Blob
    requires Intset.Holds(block, enc, i + 1)
  {
    Intset.Offs(enc, i);
    var v := Intset.Get(block, enc, i);
    Intset.LoadFits(block[Intset.Off(enc, i)..Intset.Off(enc, i + 1)], enc);
    Decimal.TextShort(v);
    Decimal.Text(v)
  }

  /** rdbLoadObject; of the packed encodings only that of sets of integers is among the types read. */
  function LoadObject(otype: nat, b: seq<byte>): (r: Option<Got<Value>>)
    ensures r.Some? ==> 0 < r.value.n <= |b|
  {
    if otype == RDB_STRING then
      match LoadString(b)
      case None => None
      case Some(g) => Some(Got(Str(g.value), g.n))
    else if otype == RDB_SET_INTSET then
      match LoadString(b)
      case None => None
      case Some(g) =>
        match LoadIntset(g.value)
        case None => None
        case Some(m) => Some(Got(Set(m), g.n))
    else if otype > RDB_HASH then None
    else
      match LoadLen(b)
      case None => None
      case Some(g) =>
        match LoadMany(KindOf(otype), g.value.len, b[g.n..])
        case None => None
        case Some(h) => Some(Got(ValueOf(otype, h.value), g.n + h.n))
  }

  // ----- Writing objects

  ghost predicate IsElem(kind: Kind, b: seq<byte>, e: Elem) {
    forall rest {:trigger b + rest} :: LoadElem(kind, b + rest) == Some(Got(e, |b|))
  }

  ghost predicate IsMany(kind: Kind, b: seq<byte>, es: seq<Elem>) {
    forall rest {:trigger b + rest} :: LoadMany(kind, |es|, b + rest) == Some(Got(es, |b|))
  }

  ghost predicate IsObject(otype: nat, b: seq<byte>, v: Value) {
    forall rest {:trigger b + rest} :: LoadObject(otype, b + rest) == Some(Got(v, |b|))
  }

  lemma StringRead(b: seq<byte>, s: seq<byte>, rest: seq<byte>)
    requires IsString(b, s)
    ensures LoadString(b + rest) == Some(Got(s, |b|)) && (b + rest)[|b|..] == rest
  {
    DropAppend(b, rest);
  }

  lemma SingleElem(b: seq<byte>, s: Blob)
    requires IsString(b, s)
    ensures IsElem(Single, b, Elem(s, []))
  {
    hide LoadString, IsString;
    forall rest ensures LoadElem(Single, b + rest) == Some(Got(Elem(s, []), |b|)) {
      StringRead(b, s, rest);
    }
  }

  lemma PairedElem(b: seq<byte>, s: Blob, c: seq<byte>, t: Blob)
    requires IsString(b, s) && IsString(c, t)
    ensures IsElem(Paired, b + c, Elem(s, t))
  {
    hide LoadString, IsString;
    forall rest ensures LoadElem(Paired, b + c + rest) == Some(Got(Elem(s, t), |b + c|)) {
      Assoc(b, c, rest);
      StringRead(b, s, c + rest);
      StringRead(c, t, rest);
    }
  }

  /** The texts rdbSaveDoubleValue can write. */
  predicate IsScore(t: seq<byte>) {
    t == INF || t == MINUS_INF || t == NAN || 0 < |t| < 253
  }

  function DoubleBytes(t: seq<byte>): seq<byte>
    requires IsScore(t)
  {
    if t == INF then [254] else if t == MINUS_INF then [255] else if t == NAN then [253] else [|t|] + t
  }

  lemma DoubleRead(t: seq<byte>, rest: seq<byte>)
    requires IsScore(t)
    ensures LoadDouble(DoubleBytes(t) + rest) == Some(Got(t, |DoubleBytes(t)|))
  {
    var b := DoubleBytes(t) + rest;
    if t != INF && t != MINUS_INF && t != NAN {
      assert b[1..1 + |t|] == t;
    }
  }

  lemma ScoredElem(b: seq<byte>, s: Blob, t: Blob)
    requires IsString(b, s) && IsScore(t)
    ensures IsElem(Scored, b + DoubleBytes(t), Elem(s, t))
  {
    hide LoadString, IsString, LoadDouble, DoubleBytes;
    var c := DoubleBytes(t);
    forall rest ensures LoadElem(Scored, b + c + rest) == Some(Got(Elem(s, t), |b + c|)) {
      Assoc(b, c, rest);
      StringRead(b, s, c + rest);
      DoubleRead(t, rest);
    }
  }

  lemma ManyNone(kind: Kind)
    ensures IsMany(kind, [], [])
  {}

  lemma ManySnoc(kind: Kind, b: seq<byte>, es: seq<Elem>, c: seq<byte>, e: Elem)
    requires IsMany(kind, b, es) && IsElem(kind, c, e)
    ensures IsMany(kind, b + c, es + [e])
  {
    hide LoadElem;
    forall rest ensures LoadMany(kind, |es + [e]|, b + c + rest) == Some(Got(es + [e], |b + c|)) {
      Assoc(b, c, rest);
      DropAppend(b, c + rest);
      assert LoadMany(kind, |es|, b + (c + rest)) == Some(Got(es, |b|));
      assert LoadElem(kind, c + rest) == Some(Got(e, |c|));
    }
  }

  lemma AggregateRead(otype: nat, l: seq<byte>, b: seq<byte>, es: seq<Elem>)
    requires RDB_LIST <= otype <= RDB_HASH && IsLen(l, |es|) && IsMany(KindOf(otype), b, es)
    ensures IsObject(otype, l + b, ValueOf(otype, es))
  {
    hide LoadLen, LoadMany, ValueOf, KindOf;
    forall rest ensures LoadObject(otype, l + b + rest) == Some(Got(ValueOf(otype, es), |l + b|)) {
      Assoc(l, b, rest);
      DropAppend(l, b + rest);
      assert LoadLen(l + (b + rest)) == Some(Got(Len(false, |es|), |l|));
      assert LoadMany(KindOf(otype), |es|, b + rest) == Some(Got(es, |b|));
    }
  }

  lemma StringObject(b: seq<byte>, s: Blob)
    requires IsString(b, s)
    ensures IsObject(RDB_STRING, b, Str(s))
  {
    hide LoadString, IsString;
    forall rest ensures LoadObject(RDB_STRING, b + rest) == Some(Got(Str(s), |b|)) {
      StringRead(b, s, rest);
    }
  }

  /** rdbSaveDoubleValue, given the text of the score. */
  method SaveDouble(fp: seq<byte>, t: seq<byte>) returns (fp': seq<byte>, ghost b: seq<byte>)
    requires IsScore(t)
    ensures fp' == fp + b && b == DoubleBytes(t)
  {
    b := DoubleBytes(t);
    if t == NAN {
      fp' := fp + [253];
    } else if t == INF || t == MINUS_INF {
      fp' := fp + [if t == MINUS_INF then 255 else 254];
    } else {
      fp' := fp + ([|t|] + t);
    }
  }

  // ----- Aggregates

  /** Within the limits of the format. */
  predicate Writable(v: Value, cfg: Config) {
    match v
    case Str(s) => Fits(s, cfg)
    case List(xs) => |xs| < UINT_MAX && forall x :: x in xs ==> Fits(x, cfg)
    case Set(m) => |m| < UINT_MAX && (forall x :: x in m ==> Fits(x, cfg)) && (cfg.asIntset(m) ==> FitsBlock(m, cfg))
    case Hash(h) => |h| < UINT_MAX && forall f :: f in h ==> Fits(f, cfg) && Fits(h[f], cfg)
    case ZSet(z) => |z| < UINT_MAX && forall x :: x in z ==> Fits(x, cfg) && IsScore(z[x])
  }

  /** A set can be kept as a block when all its members are texts of 64-bit integers. */
  predicate FitsBlock(m: set<Blob>, cfg: Config) {
    && (forall x :: x in m ==> Decimal.Parse(x).Some?)
    && 8 + 8 * (|m| + 1) < UINT_MAX && Lzf.MAX_OFF <= cfg.base && cfg.base + 8 + 8 * (|m| + 1) <= 0x1_0000_0000_0000_0000
    && Decimal.IsInt64(cfg.once(m))
  }

  /** getObjectSaveType. */
  function TypeOf(v: Value, cfg: Config): nat {
    match v
    case Set(m) => if cfg.asIntset(m) then RDB_SET_INTSET else RDB_SET
    case Str(_) => RDB_STRING
    case List(_) => RDB_LIST
    case ZSet(_) => RDB_ZSET
    case Hash(_) => RDB_HASH
  }

  lemma ElemsSnoc(es: seq<Elem>, e: Elem)
    ensures ListOf(es + [e]) == ListOf(es) + [e.first]
    ensures SetOf(es + [e]) == SetOf(es) + {e.first}
    ensures MapOf(es + [e]) == AddTo(MapOf(es), e)
    ensures |es + [e]| == |es| + 1
  {
    assert (es + [e])[..|es|] == es;
  }

  lemma NoElems()
    ensures ListOf([]) == [] && SetOf([]) == {} && MapOf([]) == map[]
  {}

  method SaveElem(fp: seq<byte>, kind: Kind, e: Elem, cfg: Config) returns (fp': seq<byte>, ghost c: seq<byte>)
    requires Fits(e.first, cfg) && match kind case Single => e.second == [] case Scored => IsScore(e.second) case Paired => Fits(e.second, cfg)
    ensures fp' == fp + c && IsElem(kind, c, e)
  {
    hide *;
    fp', c := SaveStringObject(fp, e.first, cfg);
    assert Elem(e.first, e.second) == e;
    ghost var d;
    match kind
    case Single =>
      SingleElem(c, e.first);
    case Scored =>
      fp', d := SaveDouble(fp', e.second);
      ScoredElem(c, e.first, e.second);
      Assoc(fp, c, d);
      c := c + d;
    case Paired =>
      fp', d := SaveStringObject(fp', e.second, cfg);
      PairedElem(c, e.first, d, e.second);
      Assoc(fp, c, d);
      c := c + d;
  }

  /** The elements written so far behind a length. */
  ghost predicate Written(fp0: seq<byte>, fp: seq<byte>, kind: Kind, l: seq<byte>, b: seq<byte>, es: seq<Elem>) {
    fp == fp0 + (l + b) && IsMany(kind, b, es)
  }

  lemma WrittenNone(fp0: seq<byte>, kind: Kind, l: seq<byte>)
    ensures Written(fp0, fp0 + l, kind, l, [], [])
  {
    ManyNone(kind);
    assert l + [] == l;
  }

  lemma WrittenSnoc(fp0: seq<byte>, fp: seq<byte>, kind: Kind, l: seq<byte>, b: seq<byte>, es: seq<Elem>, c: seq<byte>, e: Elem)
    requires Written(fp0, fp, kind, l, b, es) && IsElem(kind, c, e)
    ensures Written(fp0, fp + c, kind, l, b + c, es + [e])
  {
    ManySnoc(kind, b, es, c, e);
    Assoc(fp0, l + b, c);
    Assoc(l, b, c);
  }

  lemma WrittenAll(fp0: seq<byte>, fp: seq<byte>, otype: nat, l: seq<byte>, b: seq<byte>, es: seq<Elem>)
    requires RDB_LIST <= otype <= RDB_HASH && Written(fp0, fp, KindOf(otype), l, b, es) && IsLen(l, |es|) && l != []
    ensures fp == fp0 + (l + b) && l + b != [] && IsObject(otype, l + b, ValueOf(otype, es))
  {
    AggregateRead(otype, l, b, es);
  }

  method SaveList(fp: seq<byte>, xs: seq<Blob>, cfg: Config) returns (fp': seq<byte>, ghost o: seq<byte>)
    requires |xs| < UINT_MAX && forall x :: x in xs ==> Fits(x, cfg)
    ensures fp' == fp + o && o != [] && IsObject(RDB_LIST, o, List(xs))
  {
    hide *;
    ghost var l, b, es, c := [], [], [], [];
    fp', l := SaveLen(fp, |xs|);
    WrittenNone(fp, Single, l);
    NoElems();
    var i := 0;
    while i < |xs|
      invariant 0 <= i <= |xs| && Written(fp, fp', Single, l, b, es) && |es| == i && ListOf(es) == xs[..i]
    {
      var e := Elem(xs[i], []);
      ElemsSnoc(es, e);
      ghost var was := fp';
      fp', c := SaveElem(fp', Single, e, cfg);
      WrittenSnoc(fp, was, Single, l, b, es, c, e);
      b, es := b + c, es + [e];
      assert xs[..i + 1] == xs[..i] + [xs[i]];
      i := i + 1;
    }
    assert xs[..i] == xs;
    Kinds();
    WrittenAll(fp, fp', RDB_LIST, l, b, es);
    o := l + b;
  }

  lemma Kinds()
    ensures KindOf(RDB_LIST) == KindOf(RDB_SET) == Single && KindOf(RDB_ZSET) == Scored && KindOf(RDB_HASH) == Paired
    ensures RDB_LIST == 1 && RDB_SET == 2 && RDB_ZSET == 3 && RDB_HASH == 4
    ensures forall es :: ValueOf(RDB_LIST, es) == List(ListOf(es)) && ValueOf(RDB_SET, es) == Set(SetOf(es))
                         && ValueOf(RDB_ZSET, es) == ZSet(MapOf(es)) && ValueOf(RDB_HASH, es) == Hash(MapOf(es))
  {}

  /** The members of a set, in any order. */
  method SaveSet(fp: seq<byte>, m: set<Blob>, cfg: Config) returns (fp': seq<byte>, ghost o: seq<byte>)
    requires |m| < UINT_MAX && forall x :: x in m ==> Fits(x, cfg)
    ensures fp' == fp + o && o != [] && IsObject(RDB_SET, o, Set(m))
  {
    hide *;
    ghost var l, b, es, c := [], [], [], [];
    fp', l := SaveLen(fp, |m|);
    WrittenNone(fp, Single, l);
    NoElems();
    var rest := m;
    while rest != {}
      invariant rest <= m && Written(fp, fp', Single, l, b, es) && |es| + |rest| == |m| && SetOf(es) == m - rest
      decreases rest
    {
      var x :| x in rest;
      var e := Elem(x, []);
      ElemsSnoc(es, e);
      ghost var was := fp';
      fp', c := SaveElem(fp', Single, e, cfg);
      WrittenSnoc(fp, was, Single, l, b, es, c, e);
      b, es := b + c, es + [e];
      assert m - (rest - {x}) == (m - rest) + {x};
      rest := rest - {x};
    }
    assert m - rest == m;
    Kinds();
    WrittenAll(fp, fp', RDB_SET, l, b, es);
    o := l + b;
  }

  lemma AddNew(m: map<Blob, Blob>, rest: set<Blob>, x: Blob)
    requires rest <= m.Keys && x in rest
    ensures AddTo(m - rest, Elem(x, m[x])) == m - (rest - {x})
  {}

  /** The fields of a hash, or the members of a sorted set with their scores, in any order. */
  method SaveMap(fp: seq<byte>, otype: nat, m: map<Blob, Blob>, cfg: Config) returns (fp': seq<byte>, ghost o: seq<byte>)
    requires otype == 3 || otype == 4
    requires |m| < UINT_MAX && forall x :: x in m ==> Fits(x, cfg) && if otype == 3 then IsScore(m[x]) else Fits(m[x], cfg)
    ensures fp' == fp + o && o != [] && IsObject(otype, o, if otype == 3 then ZSet(m) else Hash(m))
  {
    hide *;
    Kinds();
    var kind := if otype == 3 then Scored else Paired;
    ghost var l, b, es, c := [], [], [], [];
    fp', l := SaveLen(fp, |m|);
    WrittenNone(fp, kind, l);
    NoElems();
    var rest := m.Keys;
    assert m - rest == map[];
    assert |m.Keys| == |m|;
    while rest != {}
      invariant rest <= m.Keys && Written(fp, fp', kind, l, b, es) && |es| + |rest| == |m| && MapOf(es) == m - rest
      decreases rest
    {
      var x :| x in rest;
      var e := Elem(x, m[x]);
      ElemsSnoc(es, e);
      AddNew(m, rest, x);
      ghost var was := fp';
      fp', c := SaveElem(fp', kind, e, cfg);
      WrittenSnoc(fp, was, kind, l, b, es, c, e);
      b, es := b + c, es + [e];
      rest := rest - {x};
    }
    assert m - rest == m;
    WrittenAll(fp, fp', otype, l, b, es);
    o := l + b;
  }

  // ----- Sets of integers in one block

  function ValueOfText(x: Blob): int {
    match Decimal.Parse(x) case None => 0 case Some(v) => v
  }

  function IntsOf(m: set<Blob>): set<int> {
    set x | x in m :: ValueOfText(x)
  }

  /** The object of a set of integers, which one more, wider perhaps, has once been in. */
  method BuildIntset(m: set<Blob>, once: int) returns (o: Intset.Intset)
    requires (forall x :: x in m ==> Decimal.Parse(x).Some?) && Decimal.IsInt64(once)
    ensures o.Valid() && o.Model() == IntsOf(m) && o.length <= |m| + 1
  {
    hide *;
    IntFits(once);
    o := new Intset.Intset();
    var was := o.Add(once);
    var rest, stays := m, false;
    NoInts(m);
    while rest != {}
      invariant rest <= m && o.Valid() && fresh(o) && fresh(o.contents) && o.Model() == IntsOf(m - rest) + {once}
      invariant o.length <= |m| - |rest| + 1
      invariant stays <==> once in IntsOf(m - rest)
      decreases rest
    {
      var x :| x in rest;
      var v := ValueOfText(x);
      ParsedFits(x);
      IntsNext(m, rest, x, once);
      stays := stays || v == once;
      was := o.Add(v);
      rest := rest - {x};
    }
    assert m - rest == m;
    OnceGone(IntsOf(m), once);
    if !stays {
      was := o.Remove(once);
    }
  }

  lemma NoInts(m: set<Blob>)
    ensures IntsOf(m - m) == {}
  {}

  lemma IntFits(v: int)
    requires Decimal.IsInt64(v)
    ensures Intset.Fits(v, Intset.INT64)
  {}

  lemma ParsedFits(x: Blob)
    requires Decimal.Parse(x).Some?
    ensures Intset.Fits(ValueOfText(x), Intset.INT64)
  {
    Decimal.ParseExactlyTexts(x, ValueOfText(x));
  }

  lemma IntsNext(m: set<Blob>, rest: set<Blob>, x: Blob, once: int)
    requires rest <= m && x in rest
    ensures IntsOf(m - (rest - {x})) == IntsOf(m - rest) + {ValueOfText(x)} && |rest - {x}| == |rest| - 1
    ensures IntsOf(m - rest) + {once} + {ValueOfText(x)} == IntsOf(m - (rest - {x})) + {once}
  {
    assert m - (rest - {x}) == (m - rest) + {x};
  }

  lemma OnceGone(a: set<int>, once: int)
    ensures if once in a then a + {once} == a else a + {once} - {once} == a
  {}

  /** Width and number in front of a block. */
  function BlobOf(enc: nat, n: nat, block: seq<byte>): seq<byte> {
    Intset.LowBytes(enc, 4) + Intset.LowBytes(n, 4) + block
  }

  function TextSet(vs: seq<int>): set<seq<byte>> {
    if vs == [] then {} else TextSet(vs[..|vs| - 1]) + {Decimal.Text(vs[|vs| - 1])}
  }

  lemma {:induction false} InTextSet(vs: seq<int>, x: seq<byte>)
    ensures x in TextSet(vs) <==> exists i :: 0 <= i < |vs| && x == Decimal.Text(vs[i])
  {
    if vs != [] {
      var n := |vs| - 1;
      InTextSet(vs[..n], x);
      assert forall i :: 0 <= i < n ==> vs[..n][i] == vs[i];
    }
  }

  lemma {:induction false} TextsAre(block: seq<byte>, enc: nat, n: nat)
    requires Intset.Holds(block, enc, n)
    ensures TextsOf(block, enc, n) == TextSet(Intset.Values(block, enc, n))
  {
    hide Intset.Get;
    if n > 0 {
      Intset.Offs(enc, n - 1);
      TextsAre(block, enc, n - 1);
      assert Intset.Values(block, enc, n)[..n - 1] == Intset.Values(block, enc, n - 1);
    }
  }

  /** The block of a set of integers is read back as the set. */
  lemma IntsetReads(enc: nat, n: nat, block: seq<byte>, m: set<Blob>)
    requires Intset.IsWidth(enc) && |block| == Intset.Off(enc, n) && n < UINT_MAX
    requires (forall x :: x in m ==> Decimal.Parse(x).Some?)
    requires Intset.SetOf(Intset.Values(block, enc, n)) == IntsOf(m)
    ensures LoadIntset(BlobOf(enc, n, block)) == Some(m)
  {
    var blob, vs := BlobOf(enc, n, block), Intset.Values(block, enc, n);
    HeaderReads(enc, n, block);
    TextsAre(block, enc, n);
    forall x ensures x in TextSet(vs) <==> x in m {
      InTextSet(vs, x);
      TextInSet(vs, m, x);
    }
    assert TextsOf(block, enc, n) == m;
  }

  lemma HeaderReads(enc: nat, n: nat, block: seq<byte>)
    requires Intset.IsWidth(enc) && n < UINT_MAX
    ensures var blob := BlobOf(enc, n, block);
            |blob| == 8 + |block| && Intset.Number(blob[..4]) == enc && Intset.Number(blob[4..8]) == n && blob[8..] == block
  {
    var blob := BlobOf(enc, n, block);
    assert blob[..4] == Intset.LowBytes(enc, 4) && blob[4..8] == Intset.LowBytes(n, 4) && blob[8..] == block;
    Intset.Powers();
    Intset.NumberOfLowBytes(enc, 4);
    Intset.NumberOfLowBytes(n, 4);
  }

  lemma TextInSet(vs: seq<int>, m: set<Blob>, x: seq<byte>)
    requires Intset.SetOf(vs) == IntsOf(m) && forall y :: y in m ==> Decimal.Parse(y).Some?
    ensures (exists i :: 0 <= i < |vs| && x == Decimal.Text(vs[i])) <==> x in m
  {
    if x in m {
      var v := ValueOfText(x);
      Decimal.ParseExactlyTexts(x, v);
      assert v in IntsOf(m);
      var i :| 0 <= i < |vs| && vs[i] == v;
    }
    if i :| 0 <= i < |vs| && x == Decimal.Text(vs[i]) {
      assert vs[i] in IntsOf(m);
      var y :| y in m && ValueOfText(y) == vs[i];
      Decimal.ParseExactlyTexts(y, vs[i]);
    }
  }

  lemma IntsetObject(b: seq<byte>, blob: seq<byte>, m: set<Blob>)
    requires IsString(b, blob) && LoadIntset(blob) == Some(m)
    ensures IsObject(RDB_SET_INTSET, b, Set(m))
  {
    hide LoadString, LoadIntset;
    forall rest ensures LoadObject(RDB_SET_INTSET, b + rest) == Some(Got(Set(m), |b|)) {
      assert LoadString(b + rest) == Some(Got(blob, |b|));
    }
  }

  /** A set of integers: its block is written as one string. */
  method SaveIntset(fp: seq<byte>, m: set<Blob>, cfg: Config) returns (fp': seq<byte>, ghost b: seq<byte>)
    requires FitsBlock(m, cfg)
    ensures fp' == fp + b && b != [] && IsObject(RDB_SET_INTSET, b, Set(m))
  {
    var o := BuildIntset(m, cfg.once(m));
    var blob := BlobOf(o.encoding, o.length, o.contents[..]);
    o.Facts();
    IntsetReads(o.encoding, o.length, o.contents[..], m);
    HeaderReads(o.encoding, o.length, o.contents[..]);
    fp', b := SaveRawString(fp, blob, cfg.compression, cfg.base);
    IntsetObject(b, blob, m);
  }

  /** rdbSaveObject. */
  method SaveObject(fp: seq<byte>, v: Value, cfg: Config) returns (fp': seq<byte>, ghost o: seq<byte>)
    requires Writable(v, cfg)
    ensures fp' == fp + o && o != [] && IsObject(TypeOf(v, cfg), o, v)
  {
    hide IsObject, Fits;
    match v
    case Str(s) =>
      fp', o := SaveStringObject(fp, s, cfg);
      StringObject(o, s);
    case List(xs) => fp', o := SaveList(fp, xs, cfg);
    case Set(m) =>
      if cfg.asIntset(m) {
        fp', o := SaveIntset(fp, m, cfg);
      } else {
        fp', o := SaveSet(fp, m, cfg);
      }
    case Hash(h) => fp', o := SaveMap(fp, 4, h, cfg);
    case ZSet(z) => fp', o := SaveMap(fp, 3, z, cfg);
  }

  // ----- Expiry times

  /** rdbSaveTime: the low 32 bits. */
  function TimeBytes(t: int): seq<byte> {
    [t % 256, t / 256 % 256, t / 0x1_0000 % 256, t / 0x100_0000 % 256]
  }

  /** rdbLoadTime; -1 stands for an error. */
  function LoadTime(b: seq<byte>): (r: Option<Time>)
    ensures r.Some? ==> |b| >= 4
  {
    if |b| < 4 then None
    else
      var t := Signed(I(b[0]) + I(b[1]) * 256 + I(b[2]) * 0x1_0000 + I(b[3]) * 0x100_0000, 0x8000_0000);
      if t == -1 then None else Some(t)
  }

  predicate IsTime(t: int) {
    -0x8000_0000 <= t <= 0x7FFF_FFFF && t != -1
  }

  /** A time is read back exactly when it fits in 32 bits and is not the one that stands for an error. */
  lemma TimeExact(t: int, rest: seq<byte>)
    ensures LoadTime(TimeBytes(t) + rest) == Some(t) <==> IsTime(t)
  {
    SignedBytes(t);
    var b := TimeBytes(t) + rest;
    assert b[0] == t % 256 && b[1] == t / 256 % 256 && b[2] == t / 0x1_0000 % 256 && b[3] == t / 0x100_0000 % 256;
  }

  // ----- Dumps

  datatype LoadConfig = LoadConfig(dbnum: DbId, now: Time, slave: bool)

  datatype Head = Head(expire: Option<Time>, otype: nat)

  /** The type of an entry, with its expiry time in front if there is one. */
  function LoadHead(b: seq<byte>): (r: Option<Got<Head>>)
    ensures r.Some? ==> 0 < r.value.n <= |b|
  {
    if b == [] then None
    else if b[0] != EXPIRETIME then Some(Got(Head(None, b[0]), 1))
    else match LoadTime(b[1..])
      case None => None
      case Some(t) => if |b| < 6 then None else Some(Got(Head(Some(t), b[5]), 6))
  }

  /** Is an entry dropped, because it has expired and this is not a slave? */
  predicate Dropped(expire: Option<Time>, cfg: LoadConfig) {
    !cfg.slave && expire.Some? && expire.value < cfg.now
  }

  /** The loop of rdbLoad; a key that is there already, like a short file, ends the server. */
  function LoadEntries(b: seq<byte>, db: DbId, d: Data, cfg: LoadConfig): Option<Data>
    decreases |b|
  {
    match LoadHead(b)
    case None => None
    case Some(h) =>
      if h.value.otype == EOF then Some(d)
      else if h.value.otype == SELECTDB then
        match LoadLen(b[h.n..])
        case None => None
        case Some(g) => if g.value.len >= cfg.dbnum then None else LoadEntries(b[h.n + g.n..], g.value.len, d, cfg)
      else
        match LoadKeyValue(h.value.otype, b[h.n..])
        case None => None
        case Some(kv) =>
          var l := Loc(db, kv.value.key);
          var rest := b[h.n + kv.n..];
          if Dropped(h.value.expire, cfg) then LoadEntries(rest, db, d, cfg)
          else if l in d then None
          else LoadEntries(rest, db, d[l := Item(kv.value.value, h.value.expire)], cfg)
  }

  datatype KeyValue = KeyValue(key: Blob, value: Value)

  function LoadKeyValue(otype: nat, b: seq<byte>): (r: Option<Got<KeyValue>>)
    ensures r.Some? ==> 0 < r.value.n <= |b|
  {
    match LoadString(b)
    case None => None
    case Some(k) =>
      match LoadObject(otype, b[k.n..])
      case None => None
      case Some(v) => Some(Got(KeyValue(k.value, v.value), k.n + v.n))
  }

  const MAGIC: seq<byte> := [82, 69, 68, 73, 83]
  const VERSION: seq<byte> := [48, 48, 48, 50]

  /** rdbLoad. */
  function LoadDump(file: seq<byte>, cfg: LoadConfig): Option<Data> {
    if |file| < 9 || file[..5] != MAGIC then None
    else
      var rdbver := Decimal.Atoi(file[5..9]);
      if rdbver < 1 || rdbver > 2 then None else LoadEntries(file[9..], 0, map[], cfg)
  }

  // ----- Writing a dump

  /** Reading on from these bytes in database `db` with `d` loaded leads to `db'` and `d'`. */
  ghost predicate Leads(b: seq<byte>, db: DbId, d: Data, db': DbId, d': Data, cfg: LoadConfig) {
    forall rest {:trigger b + rest} :: LoadEntries(b + rest, db, d, cfg) == LoadEntries(rest, db', d', cfg)
  }

  lemma LeadsOn(b: seq<byte>, db: DbId, d: Data, db1: DbId, d1: Data, c: seq<byte>, db2: DbId, d2: Data, cfg: LoadConfig)
    requires Leads(b, db, d, db1, d1, cfg) && Leads(c, db1, d1, db2, d2, cfg)
    ensures Leads(b + c, db, d, db2, d2, cfg)
  {
    forall rest ensures LoadEntries(b + c + rest, db, d, cfg) == LoadEntries(rest, db2, d2, cfg) {
      Assoc(b, c, rest);
      assert LoadEntries(b + (c + rest), db, d, cfg) == LoadEntries(c + rest, db1, d1, cfg);
    }
  }

  lemma SelectLeads(l: seq<byte>, j: DbId, db: DbId, d: Data, cfg: LoadConfig)
    requires IsLen(l, j) && j < cfg.dbnum
    ensures Leads([SELECTDB] + l, db, d, j, d, cfg)
  {
    var b: seq<byte> := [SELECTDB] + l;
    forall rest ensures LoadEntries(b + rest, db, d, cfg) == LoadEntries(rest, j, d, cfg) {
      assert (b + rest)[1..] == l + rest;
      assert (b + rest)[1 + |l|..] == rest;
    }
  }

  function HeadBytes(expire: Option<Time>, otype: nat): seq<byte>
    requires otype < EXPIRETIME
  {
    (match expire case None => [] case Some(t) => [EXPIRETIME] + TimeBytes(t)) + [otype]
  }

  lemma HeadRead(expire: Option<Time>, otype: nat, rest: seq<byte>)
    requires otype < EXPIRETIME && (expire.Some? ==> IsTime(expire.value))
    ensures LoadHead(HeadBytes(expire, otype) + rest) == Some(Got(Head(expire, otype), |HeadBytes(expire, otype)|))
  {
    var b := HeadBytes(expire, otype) + rest;
    if expire.Some? {
      assert b[1..] == TimeBytes(expire.value) + ([otype] + rest);
      TimeExact(expire.value, [otype] + rest);
    }
  }

  lemma KeyValueRead(k: seq<byte>, o: seq<byte>, key: Blob, v: Value, sc: Config, rest: seq<byte>)
    requires IsString(k, key) && IsObject(TypeOf(v, sc), o, v)
    ensures LoadKeyValue(TypeOf(v, sc), k + o + rest) == Some(Got(KeyValue(key, v), |k + o|))
    ensures (k + o + rest)[|k + o|..] == rest
  {
    hide LoadString, LoadObject, IsString, IsObject;
    Assoc(k, o, rest);
    StringRead(k, key, o + rest);
    ObjectRead(TypeOf(v, sc), o, v, rest);
    DropAppend(k + o, rest);
  }

  lemma EntryLeads(k: seq<byte>, o: seq<byte>, l: Loc, i: Item, sc: Config, d: Data, cfg: LoadConfig)
    requires IsString(k, l.key) && IsObject(TypeOf(i.value, sc), o, i.value) && (i.expire.Some? ==> IsTime(i.expire.value)) && l !in d
    ensures Leads(HeadBytes(i.expire, TypeOf(i.value, sc)) + k + o, l.db, d, l.db, if Dropped(i.expire, cfg) then d else d[l := i], cfg)
  {
    var h := HeadBytes(i.expire, TypeOf(i.value, sc));
    forall rest ensures LoadEntries(h + k + o + rest, l.db, d, cfg)
                     == LoadEntries(rest, l.db, if Dropped(i.expire, cfg) then d else d[l := i], cfg)
    {
      EntryLeadsBefore(h, k, o, l, i, sc, d, cfg, rest);
    }
  }

  lemma EntryLeadsBefore(h: seq<byte>, k: seq<byte>, o: seq<byte>, l: Loc, i: Item, sc: Config, d: Data, cfg: LoadConfig, rest: seq<byte>)
    requires IsString(k, l.key) && IsObject(TypeOf(i.value, sc), o, i.value) && (i.expire.Some? ==> IsTime(i.expire.value)) && l !in d
    requires h == HeadBytes(i.expire, TypeOf(i.value, sc))
    ensures LoadEntries(h + k + o + rest, l.db, d, cfg) == LoadEntries(rest, l.db, if Dropped(i.expire, cfg) then d else d[l := i], cfg)
  {
    hide *;
    TypeIs(i.value, sc);
    Assoc(h, k, o);
    Assoc(h, k + o, rest);
    HeadRead(i.expire, TypeOf(i.value, sc), k + o + rest);
    KeyValueRead(k, o, l.key, i.value, sc, rest);
    DropAppend(h, k + o + rest);
    DropDrop(h + (k + o + rest), |h|, |k + o|);
    assert Loc(l.db, l.key) == l && Item(i.value, i.expire) == i;
    EntryStep(h + (k + o + rest), l.db, d, cfg, Head(i.expire, TypeOf(i.value, sc)), |h|, KeyValue(l.key, i.value), |k + o|);
  }

  lemma EntryStep(b: seq<byte>, db: DbId, d: Data, cfg: LoadConfig, h: Head, n: nat, kv: KeyValue, m: nat)
    requires n <= |b| && LoadHead(b) == Some(Got(h, n)) && h.otype != EOF && h.otype != SELECTDB
    requires n + m <= |b| && LoadKeyValue(h.otype, b[n..]) == Some(Got(kv, m))
    ensures LoadEntries(b, db, d, cfg)
         == if Dropped(h.expire, cfg) then LoadEntries(b[n + m..], db, d, cfg)
            else if Loc(db, kv.key) in d then None
            else LoadEntries(b[n + m..], db, d[Loc(db, kv.key) := Item(kv.value, h.expire)], cfg)
  {
    hide LoadHead, LoadKeyValue, LoadLen, Dropped;
  }

  lemma TypeIs(v: Value, sc: Config)
    ensures TypeOf(v, sc) < EXPIRETIME && TypeOf(v, sc) != EOF && TypeOf(v, sc) != SELECTDB
  {}

  lemma ObjectRead(otype: nat, o: seq<byte>, v: Value, rest: seq<byte>)
    requires IsObject(otype, o, v)
    ensures LoadObject(otype, o + rest) == Some(Got(v, |o|))
  {}

  /** What is left of a dataset written at time `now`, once it has been loaded. */
  function Alive(d: Data, now: Time, lc: LoadConfig): Data {
    map l | l in d && !Expired(d[l], now) && !Dropped(d[l].expire, lc) :: d[l]
  }

  /** The dataset is within the limits of the format. */
  ghost predicate Storable(d: Data, dbnum: DbId, cfg: Config) {
    && dbnum < UINT_MAX
    && forall l :: l in d ==>
         l.db < dbnum && Fits(l.key, cfg) && Writable(d[l].value, cfg) && (d[l].expire.Some? ==> IsTime(d[l].expire.value))
  }

  lemma StorableAt(d: Data, dbnum: DbId, cfg: Config, l: Loc)
    requires Storable(d, dbnum, cfg) && l in d
    ensures l.db < dbnum && Fits(l.key, cfg) && Writable(d[l].value, cfg) && (d[l].expire.Some? ==> IsTime(d[l].expire.value))
  {}

  lemma PartNext(d: Data, now: Time, lc: LoadConfig, j: DbId, done: set<Loc>, l: Loc)
    requires l in d && l.db == j && l !in done
    ensures var all := Alive(d, now, lc);
            && l !in Part(all, j, done)
            && Part(all, j, done + {l}) == if Expired(d[l], now) || Dropped(d[l].expire, lc) then Part(all, j, done) else Part(all, j, done)[l := d[l]]
  {}

  /** One key with its value; a key that has expired is left out. */
  method SaveEntry(fp: seq<byte>, l: Loc, i: Item, now: Time, cfg: Config, ghost d: Data, ghost lc: LoadConfig) returns (fp': seq<byte>, ghost b: seq<byte>)
    requires Fits(l.key, cfg) && Writable(i.value, cfg) && (i.expire.Some? ==> IsTime(i.expire.value)) && l !in d
    ensures fp' == fp + b
    ensures Leads(b, l.db, d, l.db, if Expired(i, now) || Dropped(i.expire, lc) then d else d[l := i], lc)
  {
    hide Fits, Writable, Leads, LoadEntries, IsObject, IsString, Dropped;
    if i.expire.Some? && i.expire.value < now {
      LeadsNowhere(l.db, d, lc);
      assert fp + [] == fp;
      return fp, [];
    }
    TypeIs(i.value, cfg);
    ghost var k, o;
    fp' := fp;
    if i.expire.Some? {
      fp' := fp' + [EXPIRETIME];
      fp' := fp' + TimeBytes(i.expire.value);
    }
    fp' := fp' + [TypeOf(i.value, cfg)];
    ghost var h := HeadBytes(i.expire, TypeOf(i.value, cfg));
    HeadWritten(fp, i.expire, TypeOf(i.value, cfg));
    fp', k := SaveStringObject(fp', l.key, cfg);
    fp', o := SaveObject(fp', i.value, cfg);
    b := h + k + o;
    Assoc(fp, h, k);
    Assoc(fp, h + k, o);
    EntryLeads(k, o, l, i, cfg, d, lc);
  }

  lemma HeadWritten(fp: seq<byte>, expire: Option<Time>, otype: nat)
    requires otype < EXPIRETIME
    ensures fp + HeadBytes(expire, otype)
         == (if expire.Some? then fp + [EXPIRETIME] + TimeBytes(expire.value) else fp) + [otype]
  {
    if expire.Some? {
      Assoc(fp, [EXPIRETIME] + TimeBytes(expire.value), [otype]);
      Assoc(fp, [EXPIRETIME], TimeBytes(expire.value));
    } else {
      assert HeadBytes(expire, otype) == [otype];
    }
  }

  lemma LeadsNowhere(db: DbId, d: Data, cfg: LoadConfig)
    ensures Leads([], db, d, db, d, cfg)
  {
    forall rest: seq<byte> ensures LoadEntries([] + rest, db, d, cfg) == LoadEntries(rest, db, d, cfg) {
      assert [] + rest == rest;
    }
  }

  /** The keys of one database. */
  method SaveDatabase(fp: seq<byte>, d: Data, todo: set<Loc>, j: DbId, dbnum: DbId, now: Time, cfg: Config, ghost db: DbId, ghost lc: LoadConfig)
    returns (fp': seq<byte>, ghost b: seq<byte>)
    requires Storable(d, dbnum, cfg) && j < dbnum == lc.dbnum && forall l :: l in todo <==> l in d && l.db == j
    ensures fp' == fp + b
    ensures Leads(b, db, Part(Alive(d, now, lc), j, {}), j, Part(Alive(d, now, lc), j, todo), lc)
  {
    hide Storable, Leads, LoadEntries, IsLen, Alive, Part, Dropped, Expired;
    ghost var l, c;
    fp' := fp + [SELECTDB];
    fp', l := SaveLenOf(fp', j, dbnum, d, cfg);
    b := [SELECTDB] + l;
    Assoc(fp, [SELECTDB], l);
    SelectLeads(l, j, db, Part(Alive(d, now, lc), j, {}), lc);
    var rest := todo;
    assert todo - rest == {};
    while rest != {}
      invariant rest <= todo && fp' == fp + b
      invariant Leads(b, db, Part(Alive(d, now, lc), j, {}), j, Part(Alive(d, now, lc), j, todo - rest), lc)
      decreases rest
    {
      var l :| l in rest;
      ghost var before, was := Part(Alive(d, now, lc), j, todo - rest), b;
      PartNext(d, now, lc, j, todo - rest, l);
      StorableAt(d, dbnum, cfg, l);
      ghost var fp0 := fp';
      fp', c := SaveEntry(fp', l, d[l], now, cfg, before, lc);
      assert todo - (rest - {l}) == (todo - rest) + {l};
      LeadsOn(b, db, Part(Alive(d, now, lc), j, {}), j, before, c, j, Part(Alive(d, now, lc), j, todo - (rest - {l})), lc);
      Assoc(fp, b, c);
      b := b + c;
      rest := rest - {l};
    }
    assert todo - rest == todo;
  }

  method SaveLenOf(fp: seq<byte>, j: DbId, dbnum: DbId, ghost d: Data, ghost cfg: Config) returns (fp': seq<byte>, ghost l: seq<byte>)
    requires Storable(d, dbnum, cfg) && j < dbnum
    ensures fp' == fp + l && IsLen(l, j)
  {
    fp', l := SaveLen(fp, j);
  }

  /** rdbSave. Whenever it is loaded, the dump gives the keys that had not expired, with their values and expiries. */
  method RdbSave(d: Data, dbnum: DbId, now: Time, cfg: Config, ghost lc: LoadConfig) returns (file: seq<byte>)
    requires Storable(d, dbnum, cfg) && lc.dbnum == dbnum
    ensures LoadDump(file, lc) == Some(Alive(d, now, lc))
  {
    hide Storable, Leads, LoadEntries, Alive;
    ghost var all := Alive(d, now, lc);
    file := MAGIC + VERSION;
    ghost var body, c: seq<byte> := [], [];
    ghost var db: DbId := 0;
    assert file + [] == file;
    NoPart(all);
    LeadsNowhere(0, map[], lc);
    var j := 0;
    while j < dbnum
      invariant 0 <= j <= dbnum && file == MAGIC + VERSION + body
      invariant Leads(body, 0, map[], db, Part(all, j, {}), lc)
    {
      var todo := set l | l in d && l.db == j;
      if todo != {} {
        file, c := SaveDatabase(file, d, todo, j, dbnum, now, cfg, db, lc);
        LeadsOn(body, 0, map[], db, Part(all, j, {}), c, j, Part(all, j, todo), lc);
        Assoc(MAGIC + VERSION, body, c);
        body, db := body + c, j;
      }
      PartDone(d, now, lc, j, todo);
      j := j + 1;
    }
    AllParts(d, now, lc, dbnum, cfg);
    file := file + [EOF];
    DumpRead(body, db, all, lc);
    Assoc(MAGIC + VERSION, body, [EOF]);
  }

  lemma NoPart(all: Data)
    ensures Part(all, 0, {}) == map[]
  {}

  lemma PartDone(d: Data, now: Time, lc: LoadConfig, j: DbId, todo: set<Loc>)
    requires forall l :: l in todo <==> l in d && l.db == j
    ensures Part(Alive(d, now, lc), j + 1, {}) == Part(Alive(d, now, lc), j, todo)
    ensures todo == {} ==> Part(Alive(d, now, lc), j + 1, {}) == Part(Alive(d, now, lc), j, {})
  {}

  lemma AllParts(d: Data, now: Time, lc: LoadConfig, dbnum: DbId, cfg: Config)
    requires Storable(d, dbnum, cfg)
    ensures Part(Alive(d, now, lc), dbnum, {}) == Alive(d, now, lc)
  {}

  lemma DumpRead(body: seq<byte>, db: DbId, d: Data, lc: LoadConfig)
    requires Leads(body, 0, map[], db, d, lc)
    ensures LoadDump(MAGIC + VERSION + (body + [EOF]), lc) == Some(d)
  {
    var file := MAGIC + VERSION + (body + [EOF]);
    assert file[..5] == MAGIC && file[5..9] == VERSION && file[9..] == body + [EOF];
    VersionIs();
    assert LoadEntries(body + [EOF], 0, map[], lc) == LoadEntries([EOF], db, d, lc);
  }

  lemma VersionIs()
    ensures Decimal.Atoi(VERSION) == 2
  {
    hide *;
    VersionValue();
    Decimal.AtoiIs(VERSION);
  }

  lemma VersionValue()
    ensures Decimal.Strtol(VERSION) == 2
  {
    assert Decimal.AllDigits(VERSION);
    Decimal.DigitRunIs(VERSION, []);
    assert VERSION + [] == VERSION && VERSION[..4] == VERSION;
    assert VERSION[..3] == [48, 48, 48] && VERSION[..3][..2] == [48, 48] && VERSION[..3][..2][..1] == [48];
    assert Decimal.Value(VERSION[..3][..2][..1]) == 0;
    assert Decimal.Value(VERSION[..3][..2]) == 0;
    assert Decimal.Value(VERSION[..3]) == 0;
  }

  // ----- The loader

  /** One element more in an aggregate. */
  function AddElem(v: Value, e: Elem): Value {
    match v
    case List(xs) => List(xs + [e.first])
    case Set(m) => Set(m + {e.first})
    case ZSet(z) => ZSet(AddTo(z, e))
    case Hash(h) => Hash(AddTo(h, e))
    case Str(_) => v
  }

  lemma ValueSnoc(otype: nat, es: seq<Elem>, e: Elem)
    ensures ValueOf(otype, es + [e]) == AddElem(ValueOf(otype, es), e)
  {
    ElemsSnoc(es, e);
  }

  lemma ManyStep(kind: Kind, k: nat, b: seq<byte>)
    requires LoadMany(kind, k, b).Some?
    ensures var g := LoadMany(kind, k, b).value;
            LoadMany(kind, k + 1, b) == match LoadElem(kind, b[g.n..])
                                        case None => None
                                        case Some(h) => Some(Got(g.value + [h.value], g.n + h.n))
  {
    hide LoadElem;
  }

  lemma {:induction false} ManyFails(kind: Kind, k: nat, n: nat, b: seq<byte>)
    requires k <= n && LoadMany(kind, k, b) == None
    ensures LoadMany(kind, n, b) == None
  {
    if k < n {
      ManyFails(kind, k, n - 1, b);
    }
  }

  /** rdbLoadObject: the elements are put into the object as they are read. */
  method RdbLoadObject(otype: nat, b: seq<byte>) returns (r: Option<Got<Value>>)
    ensures r == LoadObject(otype, b)
  {
    hide LoadString, LoadLen, LoadElem, LoadMany;
    if otype == RDB_STRING {
      match LoadString(b)
      case None => return None;
      case Some(g) => return Some(Got(Str(g.value), g.n));
    }
    if otype == RDB_SET_INTSET {
      match LoadString(b) {
        case None => return None;
        case Some(g) =>
          var m := ReadIntset(g.value);
          return if m == None then None else Some(Got(Set(m.value), g.n));
      }
    }
    if otype > RDB_HASH {
      return None;
    }
    match LoadLen(b)
    case None => return None;
    case Some(g) => r := LoadAggregate(otype, b, g.n, g.value.len);
  }

  /** The integers of a block, one after the other (setTypeConvert reads them in this way). */
  method ReadIntset(blob: seq<byte>) returns (m: Option<set<Blob>>)
    ensures m == LoadIntset(blob)
  {
    if |blob| < 8 {
      return None;
    }
    var enc, n := Intset.Number(blob[..4]), Intset.Number(blob[4..8]);
    if !Intset.IsWidth(enc) || |blob| != 8 + Intset.Off(enc, n) {
      return None;
    }
    var block := blob[8..];
    var texts: set<Blob> := {};
    var i := 0;
    while i < n
      invariant 0 <= i <= n && Intset.Holds(block, enc, i) && texts == TextsOf(block, enc, i)
    {
      Intset.Offs(enc, i);
      texts := texts + {TextAt(block, enc, i)};
      i := i + 1;
    }
    return Some(texts);
  }

  method LoadAggregate(otype: nat, b: seq<byte>, start: nat, len: nat) returns (r: Option<Got<Value>>)
    requires RDB_LIST <= otype <= RDB_HASH && start <= |b|
    ensures r == match LoadMany(KindOf(otype), len, b[start..])
                 case None => None
                 case Some(h) => Some(Got(ValueOf(otype, h.value), start + h.n))
  {
    hide LoadElem, ValueOf, KindOf, AddElem;
    var kind := KindOf(otype);
    var o := ValueOf(otype, []);
    var i: nat, n: nat := 0, 0;
    ghost var es: seq<Elem> := [];
    while i < len
      invariant 0 <= i <= len && start + n <= |b|
      invariant LoadMany(kind, i, b[start..]) == Some(Got(es, n)) && o == ValueOf(otype, es)
    {
      ManyStep(kind, i, b[start..]);
      DropDrop(b, start, n);
      match LoadElem(kind, b[start + n..]) {
        case None =>
          ManyFails(kind, i + 1, len, b[start..]);
          return None;
        case Some(h) =>
          ValueSnoc(otype, es, h.value);
          o := AddElem(o, h.value);
          n := n + h.n;
          es := es + [h.value];
      }
      i := i + 1;
    }
    return Some(Got(o, start + n));
  }

  /** rdbLoad. */
  method RdbLoad(file: seq<byte>, cfg: LoadConfig) returns (r: Option<Data>)
    ensures r == LoadDump(file, cfg)
  {
    hide LoadString, LoadObject, LoadHead, LoadLen, Dropped;
    if |file| < 9 || file[..5] != MAGIC {
      return None;
    }
    var rdbver := Decimal.Atoi(file[5..9]);
    if rdbver < 1 || rdbver > 2 {
      return None;
    }
    var pos, db: DbId := 9, 0;
    var d: Data := map[];
    while true
      invariant 9 <= pos <= |file| && LoadEntries(file[9..], 0, map[], cfg) == LoadEntries(file[pos..], db, d, cfg)
      decreases |file| - pos
    {
      ghost var b := file[pos..];
      match LoadHead(file[pos..]) {
        case None => return None;
        case Some(h) =>
          if h.value.otype == EOF {
            return Some(d);
          }
          DropDrop(file, pos, h.n);
          if h.value.otype == SELECTDB {
            match LoadLen(file[pos + h.n..]) {
              case None => return None;
              case Some(g) =>
                if g.value.len >= cfg.dbnum {
                  return None;
                }
                DropDrop(file, pos, h.n + g.n);
                db := g.value.len;
                pos := pos + h.n + g.n;
            }
          } else {
            var kv := LoadPair(h.value.otype, file[pos + h.n..]);
            if kv == None {
              return None;
            }
            var l := Loc(db, kv.value.value.key);
            DropDrop(file, pos, h.n + kv.value.n);
            if !Dropped(h.value.expire, cfg) {
              if l in d {
                return None;
              }
              d := d[l := Item(kv.value.value.value, h.value.expire)];
            }
            pos := pos + h.n + kv.value.n;
          }
      }
    }
  }

  /** A key and its value. */
  method LoadPair(otype: nat, b: seq<byte>) returns (r: Option<Got<KeyValue>>)
    ensures r == LoadKeyValue(otype, b)
  {
    hide LoadString, LoadObject;
    match LoadString(b)
    case None => return None;
    case Some(k) =>
      var v := RdbLoadObject(otype, b[k.n..]);
      match v
      case None => return None;
      case Some(g) => return Some(Got(KeyValue(k.value, g.value), k.n + g.n));
  }

  /** Saving and loading: the keys that have not expired come back with their values and expiries. */
  method SaveAndLoad(d: Data, dbnum: DbId, now: Time, cfg: Config, lc: LoadConfig) returns (r: Option<Data>)
    requires Storable(d, dbnum, cfg) && lc.dbnum == dbnum && now <= lc.now
    ensures r == Some(Alive(d, now, lc))
    ensures !lc.slave ==> r == Some(map l | l in d && !Expired(d[l], lc.now) :: d[l])
  {
    var file := RdbSave(d, dbnum, now, cfg, lc);
    r := RdbLoad(file, lc);
    assert !lc.slave ==> Alive(d, now, lc) == map l | l in d && !Expired(d[l], lc.now) :: d[l];
  }
}
