/**
 LZF compression (lzf_c.c, lzf_d.c).  The compressed format is first given as a list of tokens with a
 meaning; the compressor is proved to emit tokens that mean its input, and the decompressor to accept exactly
 the serialised token lists and to rebuild what they mean.
 */
module Lzf {
  import opened Bytes

  const MAX_LIT := 32
  const MAX_OFF := 8192
  const MAX_REF := 264
  const HSIZE := 65536

  /** An address of the 64-bit machine; the hash table stores addresses of input bytes. */
  newtype Address = x: int | 0 <= x < 0x1_0000_0000_0000_0000

  // ----- The format: a list of tokens and what it stands for

  datatype Token =
    | Literal(bytes: seq<byte>)
    | BackRef(off: nat, len: nat)  // copy len bytes starting off + 1 bytes back

  predicate ValidToken(t: Token) {
    match t
    case Literal(bytes) => 1 <= |bytes| <= MAX_LIT
    case BackRef(off, len) => off < MAX_OFF && 3 <= len <= MAX_REF
  }

  /** Does `t` only refer to bytes that `n` bytes of earlier output contain? */
  predicate Refers(t: Token, n: nat) {
    t.BackRef? ==> t.off < n
  }

  function Serialize(t: Token): seq<byte>
    requires ValidToken(t)
  {
    match t
    case Literal(bytes) => [|bytes| - 1] + bytes
    case BackRef(off, len) =>
      if len < 9 then [off / 256 + (len - 2) * 32, off % 256]
      else [off / 256 + 7 * 32, len - 9, off % 256]
  }

  /** The bytes `out` followed by `n` bytes, each equal to the one `off + 1` places before it. */
  function CopyBack(out: seq<byte>, off: nat, n: nat): (r: seq<byte>)
    requires off < |out|
    ensures |r| == |out| + n
  {
    if n == 0 then out
    else var p := CopyBack(out, off, n - 1); p + [p[|p| - off - 1]]
  }

  function Apply(out: seq<byte>, t: Token): seq<byte>
    requires Refers(t, |out|)
  {
    match t
    case Literal(bytes) => out + bytes
    case BackRef(off, len) => CopyBack(out, off, len)
  }

  /** Every token is well formed and refers only to what the tokens before it produce. */
  ghost predicate Legal(ts: seq<Token>)
    decreases |ts|, 0
  {
    ts == [] ||
    var k := |ts| - 1;
    Legal(ts[..k]) && ValidToken(ts[k]) && Refers(ts[k], |Meaning(ts[..k])|)
  }

  /** The bytes a legal token list stands for. */
  ghost function Meaning(ts: seq<Token>): seq<byte>
    requires Legal(ts)
    decreases |ts|, 1
  {
    if ts == [] then [] else Apply(Meaning(ts[..|ts| - 1]), ts[|ts| - 1])
  }

  ghost function SerializeAll(ts: seq<Token>): seq<byte>
    requires Legal(ts)
  {
    if ts == [] then [] else SerializeAll(ts[..|ts| - 1]) + Serialize(ts[|ts| - 1])
  }

  /** `z` is the serialisation of `ts`, which stands for `result`. */
  ghost predicate Means(ts: seq<Token>, z: seq<byte>, result: seq<byte>) {
    Legal(ts) && z == SerializeAll(ts) && result == Meaning(ts)
  }

  /** Appending one more token to a token list. */
  lemma MeansSnoc(ts: seq<Token>, z: seq<byte>, mid: seq<byte>, t: Token)
    requires Means(ts, z, mid)
    requires ValidToken(t) && Refers(t, |mid|)
    ensures Means(ts + [t], z + Serialize(t), Apply(mid, t))
  {
    assert (ts + [t])[..|ts|] == ts;
  }

  /** A copied byte equals the byte `off + 1` places before it, even where the copy overlaps itself. */
  lemma {:induction false} CopyBackIsPeriodic(out: seq<byte>, off: nat, n: nat)
    requires off < |out|
    ensures CopyBack(out, off, n)[..|out|] == out
    ensures forall k :: |out| <= k < |out| + n ==> CopyBack(out, off, n)[k] == CopyBack(out, off, n)[k - off - 1]
  {
    if n > 0 {
      CopyBackIsPeriodic(out, off, n - 1);
      var p := CopyBack(out, off, n - 1);
      assert CopyBack(out, off, n)[..|out|] == p[..|out|];
    }
  }

  /** The `len` bytes at `ref` and those at `ip` are the same; the two stretches may overlap. */
  ghost predicate Matches(s: seq<byte>, ref: nat, ip: nat, len: nat) {
    && ref < ip && ip + len <= |s|
    && forall k :: ref <= k < ref + len ==> s[k] == s[k + (ip - ref)]
  }

  /** A match found by the compressor is rebuilt by the overlapping copy. */
  lemma {:induction false} CopyBackRebuildsMatch(s: seq<byte>, ref: nat, ip: nat, len: nat)
    requires Matches(s, ref, ip, len)
    ensures CopyBack(s[..ip], ip - ref - 1, len) == s[..ip + len]
  {
    if len > 0 {
      CopyBackRebuildsMatch(s, ref, ip, len - 1);
      assert s[ref + len - 1] == s[ip + len - 1];
      assert s[..ip + len] == s[..ip + (len - 1)] + [s[ip + len - 1]];
    }
  }

  // ----- Decompression

  datatype Outcome = Decoded(data: seq<byte>) | TooBig | Invalid

  /** What reading the next token of `z` gives: the token and the number of bytes it takes. */
  datatype Step = Take(token: Token, size: nat) | StepTooBig | StepInvalid

  function ReadToken(z: seq<byte>, room: nat): (r: Step)
    requires |z| > 0
    ensures r.Take? ==> 0 < r.size <= |z| && ValidToken(r.token)
  {
    var ctrl: int := z[0];
    if ctrl < 32 then
      if ctrl + 1 > room then StepTooBig
      else if 1 + ctrl + 1 > |z| then StepInvalid
      else Take(Literal(z[1..ctrl + 2]), ctrl + 2)
    else if |z| < 2 then StepInvalid
    else if ctrl / 32 == 7 && |z| < 3 then StepInvalid
    else
      var hdr := if ctrl / 32 == 7 then 2 else 1;
      var len := ctrl / 32 + (if hdr == 2 then z[1] else 0) + 2;
      if len > room then StepTooBig
      else Take(BackRef(ctrl % 32 * 256 + z[hdr], len), hdr + 1)
  }

  /** The decoder's result on `z` when `out` has been written and `cap` bytes may be. */
  function Decode(z: seq<byte>, out: seq<byte>, cap: nat): Outcome
    requires |out| <= cap
    decreases |z|
  {
    if z == [] then Decoded(out)
    else match ReadToken(z, cap - |out|)
      case StepTooBig => TooBig
      case StepInvalid => Invalid
      case Take(t, size) =>
        if !Refers(t, |out|) then Invalid
        else if |Apply(out, t)| > cap then TooBig
        else Decode(z[size..], Apply(out, t), cap)
  }

  lemma ReadSerialized(t: Token, rest: seq<byte>, room: nat)
    requires ValidToken(t)
    ensures var need := if t.Literal? then |t.bytes| else t.len;
            ReadToken(Serialize(t) + rest, room)
            == if need <= room then Take(t, |Serialize(t)|) else StepTooBig
  {
    var z := Serialize(t) + rest;
    if t.Literal? {
      assert z[1..|t.bytes| + 1] == t.bytes;
    } else {
      assert (t.off / 256 + 224) / 32 == 7 && (t.off / 256 + 224) % 32 == t.off / 256;
      if t.len < 9 {
        assert (t.off / 256 + (t.len - 2) * 32) / 32 == t.len - 2;
        assert (t.off / 256 + (t.len - 2) * 32) % 32 == t.off / 256;
      }
    }
  }

  lemma SerializeRead(z: seq<byte>, room: nat)
    requires |z| > 0 && ReadToken(z, room).Take?
    ensures var s := ReadToken(z, room);
            && s.size == |Serialize(s.token)| && Serialize(s.token) == z[..s.size]
            && (if s.token.Literal? then |s.token.bytes| else s.token.len) <= room
  {
    var ctrl: int := z[0];
    if ctrl >= 32 {
      var hdr := if ctrl / 32 == 7 then 2 else 1;
      var off := ctrl % 32 * 256 + z[hdr];
      assert off / 256 == ctrl % 32 && off % 256 == z[hdr];
    }
  }

  /** Completeness: the decoder passes over the serialisation of tokens, having produced their meaning. */
  lemma {:induction false} DecodeAcceptsTokens(ts: seq<Token>, rest: seq<byte>, cap: nat)
    requires Legal(ts) && |Meaning(ts)| <= cap
    ensures Decode(SerializeAll(ts) + rest, [], cap) == Decode(rest, Meaning(ts), cap)
  {
    if ts == [] {
      assert [] + rest == rest;
    } else {
      hide ReadToken, Serialize;
      var init, t := ts[..|ts| - 1], ts[|ts| - 1];
      DecodeAcceptsTokens(init, Serialize(t) + rest, cap);
      Assoc(SerializeAll(init), Serialize(t), rest);
      ReadSerialized(t, rest, cap - |Meaning(init)|);
      DropAppend(Serialize(t), rest);
    }
  }

  lemma SoundStep(done: seq<Token>, z: seq<byte>, cap: nat) returns (t: Token, rest: seq<byte>)
    requires Legal(done) && |Meaning(done)| <= cap && z != [] && Decode(z, Meaning(done), cap).Decoded?
    ensures ValidToken(t) && Refers(t, |Meaning(done)|) && |Apply(Meaning(done), t)| <= cap
    ensures z == Serialize(t) + rest
    ensures Decode(z, Meaning(done), cap) == Decode(rest, Apply(Meaning(done), t), cap)
  {
    var out := Meaning(done);
    var Take(t', size) := ReadToken(z, cap - |out|);
    t, rest := t', z[size..];
    DecodeTake(z, out, cap, t, size);
    SerializeRead(z, cap - |out|);
  }

  /** Soundness: whatever the decoder accepts is the serialisation of tokens that mean its result. */
  lemma {:induction false} DecodeReadsTokens(done: seq<Token>, z: seq<byte>, cap: nat) returns (ts: seq<Token>)
    requires Legal(done) && |Meaning(done)| <= cap && Decode(z, Meaning(done), cap).Decoded?
    ensures Means(ts, SerializeAll(done) + z, Decode(z, Meaning(done), cap).data)
    ensures |Meaning(ts)| <= cap
    decreases |z|
  {
    if z == [] {
      ts := done;
      assert SerializeAll(done) + z == SerializeAll(done);
    } else {
      var t, rest := SoundStep(done, z, cap);
      var y := SerializeAll(done);
      MeansSnoc(done, y, Meaning(done), t);
      ts := DecodeReadsTokens(done + [t], rest, cap);
      Assoc(y, Serialize(t), rest);
    }
  }

  /** The decoder accepts exactly the serialised token lists whose meaning fits, and returns that meaning. */
  lemma DecodeExact(z: seq<byte>, result: seq<byte>, cap: nat)
    ensures Decode(z, [], cap) == Decoded(result)
       <==> |result| <= cap && exists ts :: Means(ts, z, result)
  {
    if Decode(z, [], cap) == Decoded(result) {
      var ts := DecodeReadsTokens([], z, cap);
      assert [] + z == z;
      assert Means(ts, z, result);
    }
    if |result| <= cap && exists ts :: Means(ts, z, result) {
      var ts :| Means(ts, z, result);
      DecodeAcceptsTokens(ts, [], cap);
      assert z + [] == z;
    }
  }

  /** Why a decompression failed, as `errno` reports it; `NoError` when it did not. */
  datatype Errno = NoError | E2BIG | EINVAL

  lemma DecodeTake(z: seq<byte>, out: seq<byte>, cap: nat, t: Token, size: nat)
    requires z != [] && |out| <= cap && ReadToken(z, cap - |out|) == Take(t, size)
    ensures !Refers(t, |out|) ==> Decode(z, out, cap) == Invalid
    ensures Refers(t, |out|) ==>
              && |Apply(out, t)| <= cap
              && Decode(z, out, cap) == Decode(z[size..], Apply(out, t), cap)
  {
    SerializeRead(z, cap - |out|);
  }

  lemma DecodeFails(z: seq<byte>, out: seq<byte>, cap: nat)
    requires z != [] && |out| <= cap && !ReadToken(z, cap - |out|).Take?
    ensures Decode(z, out, cap) == if ReadToken(z, cap - |out|).StepTooBig? then TooBig else Invalid
  {}

  lemma ReadLiteral(input: seq<byte>, ip: nat, room: nat)
    requires ip < |input| && input[ip] < 32
    ensures var count := input[ip] as int + 1;
            ReadToken(input[ip..], room)
            == if count > room then StepTooBig
               else if ip + 1 + count > |input| then StepInvalid
               else Take(Literal(input[ip + 1..ip + 1 + count]), count + 1)
  {
    var count := input[ip] as int + 1;
    if ip + 1 + count <= |input| {
      assert input[ip..][1..count + 1] == input[ip + 1..ip + 1 + count];
    }
  }

  lemma DecodeLiteral(input: seq<byte>, ip: nat, out: seq<byte>, cap: nat, count: nat)
    requires ip < |input| && count == input[ip] as int + 1 <= 32 && |out| <= cap
    ensures |out| + count > cap ==> Decode(input[ip..], out, cap) == TooBig
    ensures |out| + count <= cap && ip + 1 + count > |input| ==> Decode(input[ip..], out, cap) == Invalid
    ensures |out| + count <= cap && ip + 1 + count <= |input| ==>
              Decode(input[ip..], out, cap) == Decode(input[ip + 1 + count..], out + input[ip + 1..ip + 1 + count], cap)
  {
    hide Decode, ReadToken;
    ReadLiteral(input, ip, cap - |out|);
    if |out| + count <= cap && ip + 1 + count <= |input| {
      DecodeTake(input[ip..], out, cap, Literal(input[ip + 1..ip + 1 + count]), count + 1);
      DropDrop(input, ip, count + 1);
    } else {
      DecodeFails(input[ip..], out, cap);
    }
  }

  /** Reading a back reference in lzf_decompress: `ip` is behind the control byte `ctrl`. */
  method ReadBackRef(input: seq<byte>, ctrl: nat, ip: nat, op: nat, outLen: nat)
    returns (errno: Errno, ip': nat, ref: int, len: nat)
    requires 0 < ip <= |input| && ctrl == input[ip - 1] && ctrl >= 32 && op <= outLen
    ensures errno == match ReadToken(input[ip - 1..], outLen - op)
                     case Take(_, _) => NoError
                     case StepTooBig => E2BIG
                     case StepInvalid => EINVAL
    ensures errno == NoError ==>
              && ip <= ip' <= |input| && op + len <= outLen
              && ref < op && ReadToken(input[ip - 1..], outLen - op) == Take(BackRef(op - ref - 1, len), ip' - ip + 1)
  {
    ip', ref, len := ip, op - ctrl % 32 * 256 - 1, ctrl / 32;
    if ip' >= |input| {
      return EINVAL, ip', ref, len;
    }
    if len == 7 {
      len := len + input[ip'];
      ip' := ip' + 1;
      if ip' >= |input| {
        return EINVAL, ip', ref, len;
      }
    }
    ref := ref - input[ip'];
    ip' := ip' + 1;
    if op + len + 2 > outLen {
      return E2BIG, ip', ref, len;
    }
    return NoError, ip', ref, len + 2;
  }

  /** The literal loop of lzf_decompress. */
  method CopyLiteral(input: seq<byte>, ip: nat, output: array<byte>, op: nat, count: nat, outLen: nat)
    returns (op': nat)
    requires 0 < count && ip + count <= |input| && op + count <= outLen <= output.Length
    modifies output
    ensures op' == op + count
    ensures output[..op'] == old(output[..op]) + input[ip..ip + count]
    ensures output[outLen..] == old(output[outLen..])
  {
    var k := 0;
    while k < count
      invariant 0 <= k <= count
      invariant output[..op + k] == old(output[..op]) + input[ip..ip + k]
      invariant output[outLen..] == old(output[outLen..])
    {
      output[op + k] := input[ip + k];
      assert output[..op + k + 1] == output[..op + k] + [output[op + k]];
      k := k + 1;
    }
    return op + count;
  }

  /** The back-reference loop of lzf_decompress: byte by byte, so that `ref` may run into bytes just written. */
  method CopyReference(output: array<byte>, ref: nat, op: nat, count: nat, outLen: nat) returns (op': nat)
    requires ref < op && op + count <= outLen <= output.Length
    modifies output
    ensures op' == op + count
    ensures output[..op'] == CopyBack(old(output[..op]), op - ref - 1, count)
    ensures output[outLen..] == old(output[outLen..])
  {
    var k := 0;
    while k < count
      invariant 0 <= k <= count
      invariant output[..op + k] == CopyBack(old(output[..op]), op - ref - 1, k)
      invariant output[outLen..] == old(output[outLen..])
    {
      ghost var before := output[..op + k];
      assert output[ref + k] == before[ref + k];
      output[op + k] := output[ref + k];
      assert output[..op + (k + 1)] == before + [before[ref + k]];
      k := k + 1;
    }
    return op + count;
  }

  /** The literal-run branch of lzf_decompress, `ip` being at the control byte. */
  method ExpandLiteral(input: seq<byte>, ip: nat, output: array<byte>, op: nat, outLen: nat)
    returns (errno: Errno, ip': nat, op': nat)
    requires ip < |input| && input[ip] < 32 && op <= outLen <= output.Length
    modifies output
    ensures op' <= outLen && (errno == NoError ==> ip < ip' <= |input|)
    ensures errno == NoError ==> Decode(input[ip..], old(output[..op]), outLen) == Decode(input[ip'..], output[..op'], outLen)
    ensures errno == E2BIG ==> Decode(input[ip..], old(output[..op]), outLen) == TooBig
    ensures errno == EINVAL ==> Decode(input[ip..], old(output[..op]), outLen) == Invalid
    ensures output[outLen..] == old(output[outLen..])
  {
    hide *;
    var count: nat := input[ip] as int + 1;
    ip', op' := ip + 1, op;
    DecodeLiteral(input, ip, output[..op], outLen, count);
    if op + count > outLen {
      return E2BIG, ip', op';
    }
    if ip' + count > |input| {
      return EINVAL, ip', op';
    }
    op' := CopyLiteral(input, ip', output, op, count, outLen);
    ip' := ip' + count;
    return NoError, ip', op';
  }

  /** The back-reference branch of lzf_decompress, `ip` being at the control byte. */
  method ExpandBackRef(input: seq<byte>, ip: nat, output: array<byte>, op: nat, outLen: nat)
    returns (errno: Errno, ip': nat, op': nat)
    requires ip < |input| && input[ip] >= 32 && op <= outLen <= output.Length
    modifies output
    ensures op' <= outLen && (errno == NoError ==> ip < ip' <= |input|)
    ensures errno == NoError ==> Decode(input[ip..], old(output[..op]), outLen) == Decode(input[ip'..], output[..op'], outLen)
    ensures errno == E2BIG ==> Decode(input[ip..], old(output[..op]), outLen) == TooBig
    ensures errno == EINVAL ==> Decode(input[ip..], old(output[..op]), outLen) == Invalid
    ensures output[outLen..] == old(output[outLen..])
  {
    ghost var z, out := input[ip..], output[..op];
    hide Decode, ReadToken, CopyBack;
    var ref, len;
    errno, ip', ref, len := ReadBackRef(input, input[ip], ip + 1, op, outLen);
    op' := op;
    if errno != NoError {
      DecodeFails(z, out, outLen);
      return;
    }
    DecodeTake(z, out, outLen, BackRef(op - ref - 1, len), ip' - ip);
    if ref < 0 {
      return EINVAL, ip', op';
    }
    op' := CopyReference(output, ref, op, len, outLen);
    DropDrop(input, ip, ip' - ip);
  }

  /** lzf_decompress: fills `output[..outLen]`; the source reads a control byte before any test, hence `input != []`. */
  method Decompress(input: seq<byte>, output: array<byte>, outLen: nat) returns (n: nat, errno: Errno)
    requires input != [] && outLen <= output.Length
    modifies output
    ensures match Decode(input, [], outLen)
            case Decoded(data) => n == |data| <= outLen && output[..n] == data && errno == NoError
            case TooBig => n == 0 && errno == E2BIG
            case Invalid => n == 0 && errno == EINVAL
    ensures output[outLen..] == old(output[outLen..])
  {
    var ip: nat, op: nat := 0, 0;
    assert input[0..] == input && output[..0] == [];
    while ip < |input|
      invariant 0 <= ip <= |input| && 0 <= op <= outLen
      invariant Decode(input, [], outLen) == Decode(input[ip..], output[..op], outLen)
      invariant output[outLen..] == old(output[outLen..])
    {
      if input[ip] < 32 {
        errno, ip, op := ExpandLiteral(input, ip, output, op, outLen);
      } else {
        errno, ip, op := ExpandBackRef(input, ip, output, op, outLen);
      }
      if errno != NoError {
        return 0, errno;
      }
    }
    return op, NoError;
  }

  // ----- Compression

  function First(p: seq<byte>, ip: nat): nat
    requires ip + 1 < |p|
  {
    p[ip] as int * 256 + p[ip + 1]
  }

  function Next(v: nat, p: seq<byte>, ip: nat): nat
    requires ip + 2 < |p|
  {
    v * 256 % 0x1_0000_0000 + p[ip + 2]
  }

  function Index(h: nat): nat {
    (h / 256 - h * 5) % HSIZE
  }

  /** The match-extension loop of lzf_compress, entered once three bytes are known to match. */
  method MatchLength(input: seq<byte>, ref: nat, ip: nat) returns (len: nat)
    requires ip + 4 < |input| && Matches(input, ref, ip, 3)
    ensures 3 <= len <= MAX_REF && Matches(input, ref, ip, len)
    ensures len == MAX_REF || ip + len + 2 >= |input| || input[ref + len] != input[ip + len]
  {
    len := 2;
    var maxlen := |input| - ip - len;
    maxlen := if maxlen > MAX_REF then MAX_REF else maxlen;
    if maxlen > 16 {
      while len < 18
        invariant 2 <= len <= 18 && Matches(input, ref, ip, len + 1)
      {
        len := len + 1;
        if input[ref + len] != input[ip + len] {
          return;
        }
      }
    }
    len := len + 1;
    while len < maxlen && input[ref + len] == input[ip + len]
      invariant 3 <= len <= MAX_REF && Matches(input, ref, ip, len)
    {
      len := len + 1;
    }
  }

  /**
   What `op`, `lit` and the output hold between two steps of the compressor: the bytes before the open run
   are tokens that mean the input before the run, and the run itself is copied behind its length byte.
   */
  ghost predicate Progress(input: seq<byte>, ip: nat, out: seq<byte>, op: nat, lit: nat, ts: seq<Token>)
  {
    && lit <= ip <= |input|
    && lit < op <= |out|
    && lit <= MAX_LIT
    && Means(ts, out[..op - lit - 1], input[..ip - lit])
    && out[op - lit..op] == input[ip - lit..ip]
    && 32 * op <= 32 + 33 * ip - lit
  }

  /** Closing the open run turns it into one more literal token. */
  lemma RunIsToken(input: seq<byte>, ip: nat, ts: seq<Token>, z: seq<byte>, lit: nat)
    requires 0 < lit <= MAX_LIT && lit <= ip <= |input|
    requires Means(ts, z, input[..ip - lit])
    ensures Means(ts + [Literal(input[ip - lit..ip])], z + [lit - 1] + input[ip - lit..ip], input[..ip])
  {
    MeansSnoc(ts, z, input[..ip - lit], Literal(input[ip - lit..ip]));
    assert input[..ip] == input[..ip - lit] + input[ip - lit..ip];
    assert z + [lit - 1] + input[ip - lit..ip] == z + ([lit - 1] + input[ip - lit..ip]);
  }

  /** One more literal byte; a run of MAX_LIT bytes is closed and a new one wrapped. */
  method PutLiteral(input: seq<byte>, ip: nat, out: array<byte>, op: nat, lit: nat, ghost ts: seq<Token>)
    returns (ip': nat, op': nat, lit': nat, ghost ts': seq<Token>)
    requires Progress(input, ip, out[..], op, lit, ts) && lit < MAX_LIT
    requires ip < |input| && op + 1 < out.Length
    modifies out
    ensures Progress(input, ip', out[..], op', lit', ts')
    ensures ip' == ip + 1
    ensures if lit + 1 == MAX_LIT then lit' == 0 && op' == op + 2 else lit' == lit + 1 && op' == op + 1
  {
    hide Means;
    ghost var s := out[..];
    ip', op', lit', ts' := ip + 1, op + 1, lit + 1, ts;
    out[op] := input[ip];
    LongerRun(input, ip, s, out[..], op, lit, ts);
    if lit' == MAX_LIT {
      s := out[..];
      ts' := ts + [Literal(input[ip' - lit'..ip'])];
      out[op' - lit' - 1] := lit' - 1;
      EndRunMeans(input, ip', s, out[..], op', lit', ts);
      lit', op' := 0, op' + 1;
      OpenRun(input, ip', out[..], op', ts');
    }
  }

  lemma LongerRun(input: seq<byte>, ip: nat, s: seq<byte>, s': seq<byte>, op: nat, lit: nat, ts: seq<Token>)
    requires Progress(input, ip, s, op, lit, ts) && lit < MAX_LIT
    requires ip < |input| && op < |s| && s' == s[op := input[ip]]
    ensures Progress(input, ip + 1, s', op + 1, lit + 1, ts)
  {
    hide Means;
    assert s'[..op - lit - 1] == s[..op - lit - 1];
    assert s'[op - lit..op + 1] == s[op - lit..op] + [input[ip]];
    assert input[ip - lit..ip + 1] == input[ip - lit..ip] + [input[ip]];
  }

  lemma EndRunMeans(input: seq<byte>, ip: nat, s: seq<byte>, s': seq<byte>, op: nat, lit: nat, ts: seq<Token>)
    requires 0 < lit && Progress(input, ip, s, op, lit, ts) && s' == s[op - lit - 1 := lit - 1]
    ensures Means(ts + [Literal(input[ip - lit..ip])], s'[..op], input[..ip])
  {
    hide Means;
    var h := op - lit - 1;
    RunIsToken(input, ip, ts, s[..h], lit);
    assert s'[..op] == s[..h] + [lit - 1] + s[h + 1..op];
  }

  /** Ends the open run, which becomes a literal token unless it is empty. */
  method EndRun(input: seq<byte>, ip: nat, out: array<byte>, op: nat, lit: nat, ghost ts: seq<Token>)
    returns (op': nat, ghost ts': seq<Token>)
    requires Progress(input, ip, out[..], op, lit, ts)
    modifies out
    ensures op' == if lit == 0 then op - 1 else op
    ensures Means(ts', out[..][..op'], input[..ip])
  {
    ghost var s := out[..];
    ts' := ts;
    out[op - lit - 1] := (lit - 1) % 256;
    if lit == 0 {
      op' := op - 1;
      assert out[..][..op'] == s[..op'];
    } else {
      op' := op;
      EndRunMeans(input, ip, s, out[..], op, lit, ts);
      ts' := ts + [Literal(input[ip - lit..ip])];
    }
  }

  /** Writes a back reference and opens the next run behind it. */
  method PutBackRef(out: array<byte>, op: nat, off: nat, len: nat) returns (op': nat)
    requires off < MAX_OFF && 3 <= len <= MAX_REF && op + 4 <= out.Length
    modifies out
    ensures op' == op + |Serialize(BackRef(off, len))| + 1
    ensures out[..][..op' - 1] == old(out[..][..op]) + Serialize(BackRef(off, len))
  {
    op' := op;
    if len - 2 < 7 {
      out[op'] := off / 256 + (len - 2) * 32;
      op' := op' + 1;
    } else {
      out[op'] := off / 256 + 7 * 32;
      out[op' + 1] := len - 2 - 7;
      op' := op' + 2;
    }
    out[op'] := off % 256;
    op' := op' + 2;
  }

  /** A new, empty run behind tokens that mean the input so far. */
  lemma OpenRun(input: seq<byte>, ip: nat, s: seq<byte>, op: nat, ts: seq<Token>)
    requires ip <= |input| && 0 < op <= |s| && 32 * op <= 32 + 33 * ip
    requires Means(ts, s[..op - 1], input[..ip])
    ensures Progress(input, ip, s, op, 0, ts)
  {
    assert s[op - 0 - 1..] == s[op - 1..] && input[..ip - 0] == input[..ip];
    assert s[op..op] == [] == input[ip..ip];
  }

  /** Writes the longest match found at `ref` behind the closed run, and opens the next run. */
  method PutLongestMatch(input: seq<byte>, ref: nat, ip: nat, out: array<byte>, op: nat, ghost ts: seq<Token>)
    returns (ip': nat, op': nat, ghost ts': seq<Token>)
    requires ip + 4 < |input| && Matches(input, ref, ip, 3) && ip - ref <= MAX_OFF
    requires op + 4 <= out.Length && 32 * op <= 33 * ip + 31
    requires Means(ts, out[..][..op], input[..ip])
    modifies out
    ensures ip + 3 <= ip' && Progress(input, ip', out[..], op', 0, ts')
  {
    hide Means, Matches, CopyBack, Progress;
    var len := MatchLength(input, ref, ip);
    ghost var t, z := BackRef(ip - ref - 1, len), out[..][..op];
    CopyBackRebuildsMatch(input, ref, ip, len);
    MeansSnoc(ts, z, input[..ip], t);
    op' := PutBackRef(out, op, ip - ref - 1, len);
    ip', ts' := ip + len, ts + [t];
    OpenRun(input, ip', out[..], op', ts');
  }

  /** The match branch of lzf_compress: ends the run, and writes the match found at `ref`. */
  method PutMatch(input: seq<byte>, ref: nat, ip: nat, out: array<byte>, op: nat, lit: nat, outLen: nat, ghost ts: seq<Token>)
    returns (full: bool, ip': nat, op': nat, ghost ts': seq<Token>)
    requires ip + 4 < |input| && Matches(input, ref, ip, 3) && ip - ref <= MAX_OFF
    requires Progress(input, ip, out[..], op, lit, ts) && outLen < out.Length
    modifies out
    ensures full ==> 33 * |input| + 128 > 32 * outLen
    ensures !full ==> ip + 3 <= ip' && Progress(input, ip', out[..], op', 0, ts')
  {
    op', ts' := EndRun(input, ip, out, op, lit, ts);
    ip' := ip;
    full := op' + 3 + 1 >= outLen;
    if !full {
      ip', op', ts' := PutLongestMatch(input, ref, ip, out, op', ts');
    }
  }

  /** The test for a match at the address the hash table held. */
  predicate FoundMatch(input: seq<byte>, base: nat, ip: nat, ref: Address) {
    var off := (base + ip - ref as int - 1) % 0x1_0000_0000_0000_0000;
    && off < MAX_OFF
    && ip + 4 < |input|
    && MAX_OFF <= base && ref as int > base
    && input[ref as int - base] == input[ip]
    && input[ref as int - base + 1] == input[ip + 1]
    && input[ref as int - base + 2] == input[ip + 2]
  }

  /** An address that passes the test lies in the input before `ip`, although it may be any stale value. */
  lemma FoundMatchIsInside(input: seq<byte>, base: nat, ip: nat, ref: Address)
    requires MAX_OFF <= base && base + |input| <= 0x1_0000_0000_0000_0000
    requires FoundMatch(input, base, ip, ref)
    ensures Matches(input, ref as int - base, ip, 3) && base + ip - ref as int <= MAX_OFF
  {}

  /**
   lzf_compress.  `base` is the address of the input, which lies above the first MAX_OFF bytes of the address
   space; `htab` starts with arbitrary contents.  `out` has one cell more than `outLen`, as its callers allocate.
   */
  method Compress(input: seq<byte>, base: nat, out: array<byte>, outLen: nat) returns (n: nat)
    requires MAX_OFF <= base && base + |input| <= 0x1_0000_0000_0000_0000
    requires outLen < out.Length
    modifies out
    ensures n <= outLen
    ensures n > 0 ==> exists ts :: Means(ts, out[..][..n], input)
    ensures input != [] && 32 * outLen >= 33 * |input| + 128 ==> n > 0
  {
    if input == [] || outLen == 0 {
      return 0;
    }
    var htab := new Address[HSIZE];
    var ip: nat, op: nat, lit: nat := 0, 1, 0;
    ghost var ts: seq<Token> := [];
    // of a single byte the hash is not used
    var hval: nat := if |input| > 1 then First(input, ip) else 0;
    while ip < |input| - 2
      invariant Progress(input, ip, out[..], op, lit, ts) && lit < MAX_LIT
      decreases |input| - ip
    {
      hval := Next(hval, input, ip);
      var ref := htab[Index(hval)];
      htab[Index(hval)] := (base + ip) as Address;
      if FoundMatch(input, base, ip, ref) {
        FoundMatchIsInside(input, base, ip, ref);
        var full;
        full, ip, op, ts := PutMatch(input, ref as int - base, ip, out, op, lit, outLen, ts);
        if full {
          return 0;
        }
        lit := 0;
        if ip >= |input| - 2 {
          break;
        }
        hval := Rehash(input, base, ip, htab);
      } else {
        if op >= outLen {
          return 0;
        }
        ip, op, lit, ts := PutLiteral(input, ip, out, op, lit, ts);
      }
    }
    if op + 3 > outLen {
      return 0;
    }
    n := FinishRun(input, ip, out, op, lit, outLen, ts);
  }

  /** The last two bytes, at most, and the end of the last run. */
  method FinishRun(input: seq<byte>, ip0: nat, out: array<byte>, op0: nat, lit0: nat, outLen: nat, ghost ts0: seq<Token>)
    returns (n: nat)
    requires Progress(input, ip0, out[..], op0, lit0, ts0) && lit0 < MAX_LIT
    requires input != [] && ip0 + 2 >= |input| && op0 + 3 <= outLen < out.Length
    modifies out
    ensures 0 < n <= outLen
    ensures exists ts :: Means(ts, out[..][..n], input)
  {
    var ip: nat, op: nat, lit: nat := ip0, op0, lit0;
    ghost var ts := ts0;
    ghost var wrapped: nat := 0;
    while ip < |input|
      invariant ip0 <= ip <= |input| && op == op0 + (ip - ip0) + wrapped
      invariant (if wrapped == 0 then lit == lit0 + (ip - ip0) else wrapped == 1 && lit < ip - ip0)
      invariant Progress(input, ip, out[..], op, lit, ts) && lit < MAX_LIT
    {
      if lit == MAX_LIT - 1 {
        wrapped := wrapped + 1;
      }
      ip, op, lit, ts := PutLiteral(input, ip, out, op, lit, ts);
    }
    assert input[..ip] == input;
    n, ts := EndRun(input, ip, out, op, lit, ts);
  }

  /** The two table entries VERY_FAST makes behind a match. */
  method Rehash(input: seq<byte>, base: nat, ip: nat, htab: array<Address>) returns (hval: nat)
    requires 2 <= ip < |input| - 2 && base + |input| <= 0x1_0000_0000_0000_0000 && htab.Length == HSIZE
    modifies htab
  {
    hval := Next(First(input, ip - 2), input, ip - 2);
    htab[Index(hval)] := (base + ip - 2) as Address;
    hval := Next(hval, input, ip - 1);
    htab[Index(hval)] := (base + ip - 1) as Address;
  }

  /** Compressing and then decompressing gives back the input, whatever the hash table held at the start. */
  method RoundTrip(input: seq<byte>, base: nat, outLen: nat) returns (restored: Option<seq<byte>>)
    requires MAX_OFF <= base && base + |input| <= 0x1_0000_0000_0000_0000
    ensures restored.Some? ==> restored.value == input
    ensures input != [] && 32 * outLen >= 33 * |input| + 128 ==> restored.Some?
  {
    var z := new byte[outLen + 1];
    var n := Compress(input, base, z, outLen);
    if n == 0 {
      return None;
    }
    var back := new byte[|input|];
    assert 0 < n;
    DecodeExact(z[..n], input, |input|);
    var m, errno := Decompress(z[..n], back, |input|);
    return Some(back[..m]);
  }
}
