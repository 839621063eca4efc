/**
 The dump file (rdb.c). Reading is given first, as functions that say for any bytes what is read and how many bytes it
 takes; the loader follows them, and what the writer appends is proved to be read back as what was written.
 */
module Rdb {
  import opened Bytes
  import opened Decimal
  import Lzf

  const SIX_BIT := 0
  const FOURTEEN_BIT := 64
  const THIRTY_TWO_BIT := 128
  const ENCVAL := 192
  const ENC_INT8 := 0
  const ENC_INT16 := 1
  const ENC_INT32 := 2
  const ENC_LZF := 3

  const EXPIRETIME := 253
  const SELECTDB := 254
  const EOF := 255

  const UINT_MAX: nat := 0xFFFF_FFFF

  /** Something read, and the number of bytes it takes. */
  datatype Got<T> = Got(value: T, n: nat)

  // ----- Reading lengths and strings

  function I(b: byte): nat { b }

  datatype Len = Len(encoded: bool, len: nat)

  /** rdbLoadLen; the largest length stands for an error. */
  function LoadLen(b: seq<byte>): (r: Option<Got<Len>>)
    ensures r.Some? ==> 0 < r.value.n <= |b| && r.value.value.len < UINT_MAX
  {
    if b == [] then None
    else
      var b0: int := b[0];
      if b0 / 64 == 0 then Some(Got(Len(false, b0 % 64), 1))
      else if b0 / 64 == 3 then Some(Got(Len(true, b0 % 64), 1))
      else if b0 / 64 == 1 then (if |b| < 2 then None else Some(Got(Len(false, b0 % 64 * 256 + I(b[1])), 2)))
      else if |b| < 5 then None
      else
        var len := ((I(b[1]) * 256 + I(b[2])) * 256 + I(b[3])) * 256 + I(b[4]);
        if len == UINT_MAX then None else Some(Got(Len(false, len), 5))
  }

  function Signed(u: int, half: int): int {
    if u >= half then u - 2 * half else u
  }

  /** rdbLoadIntegerObject. */
  function LoadInteger(enctype: nat, b: seq<byte>): (r: Option<Got<seq<byte>>>)
    ensures r.Some? ==> r.value.n <= |b| && |r.value.value| <= UINT_MAX
  {
    IntegerTexts(b);
    if enctype == ENC_INT8 then (if |b| < 1 then None else Some(Got(Text(Signed(b[0], 0x80)), 1)))
    else if enctype == ENC_INT16 then (if |b| < 2 then None else Some(Got(Text(Signed(I(b[0]) + I(b[1]) * 256, 0x8000)), 2)))
    else if |b| < 4 then None
    else Some(Got(Text(Signed(I(b[0]) + I(b[1]) * 256 + I(b[2]) * 0x1_0000 + I(b[3]) * 0x100_0000, 0x8000_0000)), 4))
  }

  lemma IntegerTexts(b: seq<byte>)
    ensures |b| >= 1 ==> |Text(Signed(b[0], 0x80))| <= 21
    ensures |b| >= 2 ==> |Text(Signed(I(b[0]) + I(b[1]) * 256, 0x8000))| <= 21
    ensures |b| >= 4 ==> |Text(Signed(I(b[0]) + I(b[1]) * 256 + I(b[2]) * 0x1_0000 + I(b[3]) * 0x100_0000, 0x8000_0000))| <= 21
  {
    if |b| >= 1 {
      TextShort(Signed(b[0], 0x80));
    }
    if |b| >= 2 {
      TextShort(Signed(I(b[0]) + I(b[1]) * 256, 0x8000));
    }
    if |b| >= 4 {
      TextShort(Signed(I(b[0]) + I(b[1]) * 256 + I(b[2]) * 0x1_0000 + I(b[3]) * 0x100_0000, 0x8000_0000));
    }
  }

  function Zeros(n: nat): (s: seq<byte>)
    ensures |s| == n
  {
    seq(n, _ => 0)
  }

  /** rdbLoadLzfStringObject, behind the type byte; a string longer than what is decompressed ends with zeros. */
  function LoadLzf(b: seq<byte>): (r: Option<Got<seq<byte>>>)
    ensures r.Some? ==> r.value.n <= |b| && |r.value.value| <= UINT_MAX
  {
    match LoadLen(b)
    case None => None
    case Some(clen) =>
      match LoadLen(b[clen.n..])
      case None => None
      case Some(len) =>
        LoadCompressed(b, clen.n + len.n, clen.value.len, len.value.len)
  }

  /** The compressed bytes, `clen` of them, which are to give `len`. */
  function LoadCompressed(b: seq<byte>, start: nat, clen: nat, len: nat): (r: Option<Got<seq<byte>>>)
    requires start <= |b|
    ensures r.Some? ==> r.value.n <= |b| && |r.value.value| == len
  {
    if clen == 0 || |b| - start < clen then None
    else
      match Lzf.Decode(b[start..start + clen], [], len)
      case Decoded(data) =>
        if data == [] || |data| > len then None else Some(Got(data + Zeros(len - |data|), start + clen))
      case _ => None
  }

  /** rdbGenericLoadStringObject; an unknown encoding ends the server. */
  function LoadString(b: seq<byte>): (r: Option<Got<seq<byte>>>)
    ensures r.Some? ==> 0 < r.value.n <= |b| && |r.value.value| <= UINT_MAX
  {
    match LoadLen(b)
    case None => None
    case Some(g) =>
      if g.value.encoded then
        if g.value.len <= ENC_INT32 then Shifted(LoadInteger(g.value.len, b[g.n..]), g.n)
        else if g.value.len == ENC_LZF then Shifted(LoadLzf(b[g.n..]), g.n)
        else None
      else if |b| - g.n < g.value.len then None
      else Some(Got(b[g.n..g.n + g.value.len], g.n + g.value.len))
  }

  function Shifted<T>(r: Option<Got<T>>, offset: nat): Option<Got<T>> {
    match r
    case None => None
    case Some(g) => Some(Got(g.value, g.n + offset))
  }

  // ----- What the writers append

  /** Read from the beginning of these bytes, whatever follows them, is this length; and so for a string. */
  ghost predicate IsLen(b: seq<byte>, len: nat) {
    forall rest {:trigger b + rest} :: LoadLen(b + rest) == Some(Got(Len(false, len), |b|))
  }

  ghost predicate IsString(b: seq<byte>, s: seq<byte>) {
    forall rest {:trigger b + rest} :: LoadString(b + rest) == Some(Got(s, |b|))
  }

  /** rdbSaveLen. */
  method SaveLen(fp: seq<byte>, len: nat) returns (fp': seq<byte>, ghost b: seq<byte>)
    requires len < UINT_MAX
    ensures fp' == fp + b && b != [] && IsLen(b, len)
  {
    if len < 64 {
      fp' := fp + [SIX_BIT + len];
      b := [SIX_BIT + len];
    } else if len < 16384 {
      fp' := fp + [FOURTEEN_BIT + len / 256, len % 256];
      b := [FOURTEEN_BIT + len / 256, len % 256];
    } else {
      var b3, b2, b1, b0 := len / 0x100_0000, len / 0x1_0000 % 256, len / 256 % 256, len % 256;
      fp' := fp + [THIRTY_TWO_BIT];
      fp' := fp' + [b3, b2, b1, b0];
      b := [THIRTY_TWO_BIT, b3, b2, b1, b0];
      assert ((b3 * 256 + b2) * 256 + b1) * 256 + b0 == len;
      assert fp' == fp + b;
    }
  }

  /** rdbEncodeInteger; empty when the value is out of range. */
  function EncodeInteger(value: int): seq<byte> {
    if -0x80 <= value <= 0x7F then [ENCVAL + ENC_INT8, value % 256]
    else if -0x8000 <= value <= 0x7FFF then [ENCVAL + ENC_INT16, value % 256, value / 256 % 256]
    else if -0x8000_0000 <= value <= 0x7FFF_FFFF then
      [ENCVAL + ENC_INT32, value % 256, value / 256 % 256, value / 0x1_0000 % 256, value / 0x100_0000 % 256]
    else []
  }

  lemma EncodeIntegerReads(value: int)
    requires EncodeInteger(value) != []
    ensures IsString(EncodeInteger(value), Text(value))
  {
    var b := EncodeInteger(value);
    forall rest ensures LoadString(b + rest) == Some(Got(Text(value), |b|)) {
      var all := b + rest;
      assert all[1..] == b[1..] + rest;
      SignedBytes(value);
    }
  }

  lemma SignedBytes(value: int)
    ensures -0x80 <= value <= 0x7F ==> Signed(value % 256, 0x80) == value
    ensures -0x8000 <= value <= 0x7FFF ==> Signed(value % 256 + value / 256 % 256 * 256, 0x8000) == value
    ensures -0x8000_0000 <= value <= 0x7FFF_FFFF ==>
              Signed(value % 256 + value / 256 % 256 * 256 + value / 0x1_0000 % 256 * 0x1_0000 + value / 0x100_0000 % 256 * 0x100_0000, 0x8000_0000) == value
  {
    SignedFour(value);
  }

  lemma SignedFour(value: int)
    ensures -0x8000_0000 <= value <= 0x7FFF_FFFF ==>
              Signed(value % 256 + value / 256 % 256 * 256 + value / 0x1_0000 % 256 * 0x1_0000 + value / 0x100_0000 % 256 * 0x100_0000, 0x8000_0000) == value
  {
    var q0 := value / 256;
    var q1 := q0 / 256;
    var q2 := q1 / 256;
    assert value == q0 * 256 + value % 256 && q0 == q1 * 256 + q0 % 256 && q1 == q2 * 256 + q1 % 256;
    assert value / 0x1_0000 == q1 && value / 0x100_0000 == q2;
    if -0x8000_0000 <= value <= 0x7FFF_FFFF {
      assert -0x80 <= q2 <= 0x7F;
      assert q2 % 256 == if q2 < 0 then q2 + 256 else q2;
    }
  }

  /** rdbTryIntegerEncoding: the string must be exactly the text the library's conversion and ll2string give. */
  method TryIntegerEncoding(s: seq<byte>) returns (enc: seq<byte>)
    ensures enc == match Parse(s) case None => [] case Some(v) => EncodeInteger(v)
  {
    var value := Strtol(s);
    StrtolRange(s);
    TextShort(value);
    var buf := Ll2string(32, value);
    if Parse(s).Some? {
      ParseExactlyTexts(s, Parse(s).value);
      StrtolText(Parse(s).value);
    }
    ParseExactlyTexts(s, value);
    if buf != s {
      return [];
    }
    return EncodeInteger(value);
  }

  /** The bytes lie where the compressor can address them. */
  predicate Addressable(s: seq<byte>, base: nat) {
    Lzf.MAX_OFF <= base && base + |s| <= 0x1_0000_0000_0000_0000
  }

  const LzfMark: seq<byte> := [ENCVAL + ENC_LZF]

  lemma LzfReads(l1: seq<byte>, l2: seq<byte>, z: seq<byte>, s: seq<byte>)
    requires z != [] && s != [] && IsLen(l1, |z|) && IsLen(l2, |s|)
    requires exists ts :: Lzf.Means(ts, z, s)
    ensures IsString(LzfMark + l1 + l2 + z, s)
  {
    hide LoadString, Lzf.Decode, Lzf.Means, IsLen;
    Lzf.DecodeExact(z, s, |s|);
    var b := LzfMark + l1 + l2 + z;
    forall rest ensures LoadString(b + rest) == Some(Got(s, |b|)) {
      LzfBody(l1, l2, z, s, rest);
      LzfMarked(b + rest, l1 + (l2 + (z + rest)));
      assert b + rest == LzfMark + (l1 + (l2 + (z + rest)));
    }
  }

  lemma LzfMarked(b: seq<byte>, body: seq<byte>)
    ensures b == LzfMark + body ==> LoadString(b) == Shifted(LoadLzf(body), 1)
  {
    if b == LzfMark + body {
      hide LoadLzf;
      assert b[0] == ENCVAL + ENC_LZF && b[1..] == body;
    }
  }

  lemma LzfBody(l1: seq<byte>, l2: seq<byte>, z: seq<byte>, s: seq<byte>, rest: seq<byte>)
    requires z != [] && s != [] && IsLen(l1, |z|) && IsLen(l2, |s|) && Lzf.Decode(z, [], |s|) == Lzf.Decoded(s)
    ensures LoadLzf(l1 + (l2 + (z + rest))) == Some(Got(s, |l1| + |l2| + |z|))
  {
    hide *;
    var u := l2 + (z + rest);
    LenRead(l1, |z|, u);
    LenRead(l2, |s|, z + rest);
    CompressedBody(l1, l2, z, s, rest);
    LzfParts(l1 + u, |l1|, |z|, |l2|, |s|);
  }

  lemma LenRead(l: seq<byte>, len: nat, rest: seq<byte>)
    requires IsLen(l, len)
    ensures LoadLen(l + rest) == Some(Got(Len(false, len), |l|)) && (l + rest)[|l|..] == rest
  {
    DropAppend(l, rest);
  }

  lemma LzfParts(t: seq<byte>, n1: nat, clen: nat, n2: nat, len: nat)
    requires n1 <= |t| && LoadLen(t) == Some(Got(Len(false, clen), n1)) && LoadLen(t[n1..]) == Some(Got(Len(false, len), n2))
    requires n1 + n2 <= |t|
    ensures LoadLzf(t) == LoadCompressed(t, n1 + n2, clen, len)
  {
    hide LoadLen, LoadCompressed;
  }

  lemma CompressedBody(l1: seq<byte>, l2: seq<byte>, z: seq<byte>, s: seq<byte>, rest: seq<byte>)
    requires z != [] && s != [] && Lzf.Decode(z, [], |s|) == Lzf.Decoded(s)
    ensures LoadCompressed(l1 + (l2 + (z + rest)), |l1| + |l2|, |z|, |s|) == Some(Got(s, |l1| + |l2| + |z|))
  {
    hide Lzf.Decode;
    Middle(l1, l2, z, rest);
    assert s + Zeros(0) == s;
  }

  lemma Middle(l1: seq<byte>, l2: seq<byte>, z: seq<byte>, rest: seq<byte>)
    ensures var t := l1 + (l2 + (z + rest)); t[|l1| + |l2|..|l1| + |l2| + |z|] == z
  {
    var t := l1 + (l2 + (z + rest));
    assert t[|l1| + |l2|..|l1| + |l2| + |z|] == z;
  }

  /** rdbSaveLzfStringObject: nothing is appended when at least four bytes cannot be saved. */
  method SaveLzfString(fp: seq<byte>, s: seq<byte>, base: nat) returns (saved: bool, fp': seq<byte>, ghost b: seq<byte>)
    requires |s| < UINT_MAX && Addressable(s, base)
    ensures fp' == fp + b && (if saved then b != [] && IsString(b, s) else b == [])
  {
    fp', b := fp, [];
    assert fp + [] == fp;
    if |s| <= 4 {
      return false, fp', b;
    }
    var outlen := |s| - 4;
    var out := new byte[outlen + 1];
    var comprlen := Lzf.Compress(s, base, out, outlen);
    if comprlen == 0 {
      return false, fp', b;
    }
    var z := out[..comprlen];
    assert out[..][..comprlen] == z;
    saved := true;
    fp', b := AppendLzf(fp, z, s);
  }

  /** The writing half of rdbSaveLzfStringObject. */
  method AppendLzf(fp: seq<byte>, z: seq<byte>, s: seq<byte>) returns (fp': seq<byte>, ghost b: seq<byte>)
    requires z != [] && s != [] && |z| < UINT_MAX && |s| < UINT_MAX
    requires exists ts :: Lzf.Means(ts, z, s)
    ensures fp' == fp + b && b != [] && IsString(b, s)
  {
    hide *;
    ghost var l1, l2;
    fp' := fp + [195];
    fp', l1 := SaveLen(fp', |z|);
    fp', l2 := SaveLen(fp', |s|);
    fp' := fp' + z;
    b := LzfMark + l1 + l2 + z;
    LzfReads(l1, l2, z, s);
    LzfMarkIs();
    AssocAll(fp, LzfMark, l1, l2, z);
  }

  lemma LzfMarkIs()
    ensures LzfMark == [195]
  {}

  lemma AssocAll(fp: seq<byte>, a: seq<byte>, b: seq<byte>, c: seq<byte>, d: seq<byte>)
    ensures fp + a + b + c + d == fp + (a + b + c + d)
  {
    Assoc(fp, a + b + c, d);
    Assoc(fp, a + b, c);
    Assoc(fp, a, b);
  }

  lemma VerbatimReads(l: seq<byte>, s: seq<byte>)
    requires IsLen(l, |s|)
    ensures IsString(l + s, s)
  {
    var b := l + s;
    forall rest ensures LoadString(b + rest) == Some(Got(s, |b|)) {
      assert b + rest == l + (s + rest);
      assert (l + (s + rest))[|l|..|l| + |s|] == s;
    }
  }

  /** rdbSaveRawString: as an integer, compressed, or verbatim; read back identically in every case. */
  method SaveRawString(fp: seq<byte>, s: seq<byte>, compression: bool, base: nat) returns (fp': seq<byte>, ghost b: seq<byte>)
    requires |s| < UINT_MAX && Addressable(s, base)
    ensures fp' == fp + b && b != [] && IsString(b, s)
  {
    if |s| <= 11 {
      var buf := TryIntegerEncoding(s);
      if buf != [] {
        var v := Parse(s).value;
        ParseExactlyTexts(s, v);
        EncodeIntegerReads(v);
        return fp + buf, buf;
      }
    }
    if compression && |s| > 20 {
      var saved;
      saved, fp', b := SaveLzfString(fp, s, base);
      if saved {
        return fp', b;
      }
    }
    fp', b := SaveVerbatim(fp, s);
  }

  /** A length and the bytes themselves. */
  method SaveVerbatim(fp: seq<byte>, s: seq<byte>) returns (fp': seq<byte>, ghost b: seq<byte>)
    requires |s| < UINT_MAX
    ensures fp' == fp + b && b != [] && IsString(b, s)
  {
    hide *;
    fp', b := SaveLen(fp, |s|);
    VerbatimReads(b, s);
    Assoc(fp, b, s);
    fp' := fp' + s;
    b := b + s;
  }

  /** rdbSaveLongLongAsStringObject, for a string object that is kept as an integer. */
  method SaveLongLongAsString(fp: seq<byte>, value: int) returns (fp': seq<byte>, ghost b: seq<byte>)
    requires IsInt64(value)
    ensures fp' == fp + b && b != [] && IsString(b, Text(value))
  {
    var enc := EncodeInteger(value);
    if enc != [] {
      EncodeIntegerReads(value);
      return fp + enc, enc;
    }
    TextShort(value);
    var buf := Ll2string(32, value);
    fp', b := SaveVerbatim(fp, buf);
  }

  /**
   How objects are kept, and whether compression is on; strings lie at `base`. A set may be kept as a block of integers,
   which is as wide as one that has `once` been in it requires.
   */
  datatype Config = Config(compression: bool, base: nat, asInteger: seq<byte> -> bool, asIntset: set<seq<byte>> -> bool, once: set<seq<byte>> -> int)

  predicate Fits(s: seq<byte>, cfg: Config) {
    |s| < UINT_MAX && Addressable(s, cfg.base) && (cfg.asInteger(s) ==> Parse(s).Some?)
  }

  /** rdbSaveStringObject. */
  method SaveStringObject(fp: seq<byte>, s: seq<byte>, cfg: Config) returns (fp': seq<byte>, ghost b: seq<byte>)
    requires Fits(s, cfg)
    ensures fp' == fp + b && b != [] && IsString(b, s)
  {
    if cfg.asInteger(s) {
      var v := Parse(s).value;
      ParseExactlyTexts(s, v);
      fp', b := SaveLongLongAsString(fp, v);
    } else {
      fp', b := SaveRawString(fp, s, cfg.compression, cfg.base);
    }
  }
}
