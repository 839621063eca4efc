/**
 Quoted strings (sds.c): sdscatrepr writes any bytes in quotes with escapes, and sdssplitargs splits a line of quoted
 and unquoted arguments.
 */
module Sds {
  import opened Bytes

  const QUOTE: byte := 34
  const APOSTROPHE: byte := 39
  const BACKSLASH: byte := 92
  const SPACE: byte := 32
  const LOWER_X: byte := 120

  predicate IsSpace(c: byte) { c == SPACE || 9 <= c <= 13 }

  predicate IsPrint(c: byte) { 32 <= c <= 126 }

  // ----- Writing

  function HexDigit(n: nat): byte
    requires n < 16
  {
    if n < 10 then 48 + n else 87 + n
  }

  /** The letter of an escape of two characters, for the bytes that have one. */
  function Escape(c: byte): Option<byte> {
    if c == BACKSLASH || c == QUOTE then Some(c)
    else if c == 10 then Some(110)
    else if c == 13 then Some(114)
    else if c == 9 then Some(116)
    else if c == 7 then Some(97)
    else if c == 8 then Some(98)
    else None
  }

  function ReprByte(c: byte): (r: seq<byte>)
    ensures |r| > 0 && forall i :: 0 <= i < |r| ==> r[i] != 0
  {
    if Escape(c).Some? then [BACKSLASH, Escape(c).value]
    else if IsPrint(c) then [c]
    else var v: int := c; [BACKSLASH, LOWER_X, HexDigit(v / 16), HexDigit(v % 16)]
  }

  function ReprBody(s: seq<byte>): (r: seq<byte>)
    ensures forall i :: 0 <= i < |r| ==> r[i] != 0
  {
    if s == [] then [] else ReprByte(s[0]) + ReprBody(s[1..])
  }

  function Repr(s: seq<byte>): seq<byte> {
    [QUOTE] + ReprBody(s) + [QUOTE]
  }

  lemma {:induction false} ReprBodySnoc(s: seq<byte>, c: byte)
    ensures ReprBody(s + [c]) == ReprBody(s) + ReprByte(c)
  {
    if s == [] {
      assert s + [c] == [c] && ReprBody([c]) == ReprByte(c) + ReprBody([]);
    } else {
      assert (s + [c])[1..] == s[1..] + [c];
      ReprBodySnoc(s[1..], c);
      Assoc(ReprByte(s[0]), ReprBody(s[1..]), ReprByte(c));
    }
  }

  /** sdscatrepr. */
  method SdsCatRepr(s: seq<byte>, p: seq<byte>) returns (out: seq<byte>)
    ensures out == s + Repr(p)
  {
    out := s + [QUOTE];
    var i := 0;
    assert p[..0] == [];
    while i < |p|
      invariant 0 <= i <= |p| && out == s + ([QUOTE] + ReprBody(p[..i]))
    {
      var c := p[i];
      assert p[..i + 1] == p[..i] + [c];
      ReprBodySnoc(p[..i], c);
      Assoc(s, [QUOTE] + ReprBody(p[..i]), ReprByte(c));
      Assoc([QUOTE], ReprBody(p[..i]), ReprByte(c));
      match c {
        case 92 => out := out + [BACKSLASH, c];
        case 34 => out := out + [BACKSLASH, c];
        case 10 => out := out + [BACKSLASH, 110];
        case 13 => out := out + [BACKSLASH, 114];
        case 9 => out := out + [BACKSLASH, 116];
        case 7 => out := out + [BACKSLASH, 97];
        case 8 => out := out + [BACKSLASH, 98];
        case _ =>
          if IsPrint(c) {
            out := out + [c];
          } else {
            var v: int := c;
            out := out + [BACKSLASH, LOWER_X, HexDigit(v / 16), HexDigit(v % 16)];
          }
      }
      i := i + 1;
    }
    assert p[..i] == p;
    out := out + [QUOTE];
  }

  // ----- Reading

  /** is_hex_digit. */
  predicate IsHexDigit(c: byte) {
    48 <= c <= 57 || 97 <= c <= 102 || 65 <= c <= 70
  }

  /** hex_digit_to_int. */
  function HexDigitToInt(c: byte): (n: nat)
    ensures n < 16
    ensures IsHexDigit(c) && !(65 <= c <= 70) ==> HexDigit(n) == c
  {
    if 48 <= c <= 57 then c - 48 else if 97 <= c <= 102 then c - 87 else if 65 <= c <= 70 then c - 55 else 0
  }

  /** The character at a place of a line, which ends with a zero byte. */
  function At(line: seq<byte>, p: nat): byte {
    if p < |line| then line[p] else 0
  }

  datatype Mode = Plain | InQuotes | InSingleQuotes

  function Unescape(c: byte): byte {
    if c == 110 then 10 else if c == 114 then 13 else if c == 116 then 9 else if c == 98 then 8 else if c == 97 then 7 else c
  }

  predicate Ends(c: byte) { c == SPACE || c == 10 || c == 13 || c == 9 || c == 0 }

  predicate IsHexEscape(line: seq<byte>, p: nat) {
    At(line, p) == BACKSLASH && At(line, p + 1) == LOWER_X && IsHexDigit(At(line, p + 2)) && IsHexDigit(At(line, p + 3))
  }

  datatype Scanned = Scanned(token: seq<byte>, next: nat)

  /** What one turn of the loop over a token does: end it, fail, or go on. */
  datatype Turn = Done(next: nat) | Error | More(mode: Mode, add: seq<byte>, next: nat)

  function TurnAt(line: seq<byte>, p: nat, mode: Mode): (t: Turn)
    requires p <= |line|
    ensures t.More? ==> p < t.next <= |line|
    ensures t.Done? ==> p <= t.next <= |line| && (mode != Plain || !Ends(At(line, p)) ==> p < t.next)
  {
    var c := At(line, p);
    match mode
    case InQuotes =>
      if IsHexEscape(line, p) then More(mode, [HexDigitToInt(At(line, p + 2)) * 16 + HexDigitToInt(At(line, p + 3))], p + 4)
      else if c == BACKSLASH && At(line, p + 1) != 0 then More(mode, [Unescape(At(line, p + 1))], p + 2)
      else if c == QUOTE then
        (if At(line, p + 1) != 0 && !IsSpace(At(line, p + 1)) then Error else Done(p + 1))
      else if c == 0 then Error
      else More(mode, [c], p + 1)
    case InSingleQuotes =>
      if c == BACKSLASH && At(line, p + 1) == APOSTROPHE then More(mode, [APOSTROPHE], p + 2)
      else if c == APOSTROPHE then
        (if At(line, p + 1) != 0 && !IsSpace(At(line, p + 1)) then Error else Done(p + 1))
      else if c == 0 then Error
      else More(mode, [c], p + 1)
    case Plain =>
      if Ends(c) then Done(if c != 0 then p + 1 else p)
      else if c == QUOTE then More(InQuotes, [], p + 1)
      else if c == APOSTROPHE then More(InSingleQuotes, [], p + 1)
      else More(mode, [c], p + 1)
  }

  /** The rest of a token. */
  function Scan(line: seq<byte>, p: nat, current: seq<byte>, mode: Mode): (r: Option<Scanned>)
    requires p <= |line|
    ensures r.Some? ==> p <= r.value.next <= |line| && (mode != Plain || !Ends(At(line, p)) ==> p < r.value.next)
    decreases |line| - p
  {
    match TurnAt(line, p, mode)
    case Done(next) => Some(Scanned(current, next))
    case Error => None
    case More(mode', add, next) => Scan(line, next, current + add, mode')
  }

  function SkipBlanks(line: seq<byte>, p: nat): (q: nat)
    requires p <= |line|
    ensures p <= q <= |line| && !IsSpace(At(line, q))
    decreases |line| - p
  {
    if IsSpace(At(line, p)) then SkipBlanks(line, p + 1) else p
  }

  function Split(line: seq<byte>, p: nat): Option<seq<seq<byte>>>
    requires p <= |line|
    decreases |line| - p
  {
    var q := SkipBlanks(line, p);
    if At(line, q) == 0 then Some([])
    else match Scan(line, q, [], Plain)
      case None => None
      case Some(s) =>
        match Split(line, s.next)
        case None => None
        case Some(rest) => Some([s.token] + rest)
  }

  function Prepend(vector: seq<seq<byte>>, r: Option<seq<seq<byte>>>): Option<seq<seq<byte>>> {
    match r
    case None => None
    case Some(rest) => Some(vector + rest)
  }

  lemma PrependNothing(r: Option<seq<seq<byte>>>)
    ensures Prepend([], r) == r
  {
    if r.Some? {
      assert [] + r.value == r.value;
    }
  }

  lemma PrependMore(vector: seq<seq<byte>>, token: seq<byte>, r: Option<seq<seq<byte>>>)
    ensures Prepend(vector, Prepend([token], r)) == Prepend(vector + [token], r)
    ensures Prepend(vector, Some([])) == Some(vector) && Prepend(vector, None) == None
  {
    if r.Some? {
      assert vector + ([token] + r.value) == vector + [token] + r.value;
    }
    assert vector + [] == vector;
  }

  lemma SplitStep(line: seq<byte>, p: nat)
    requires p <= |line|
    ensures var q := SkipBlanks(line, p);
            var s := Scan(line, q, [], Plain);
            Split(line, p) == if At(line, q) == 0 then Some([])
                              else if s == None then None
                              else Prepend([s.value.token], Split(line, s.value.next))
  {}

  /** The first loop of sdssplitargs. */
  method Skip(line: seq<byte>, start: nat) returns (p: nat)
    requires start <= |line|
    ensures p == SkipBlanks(line, start)
  {
    p := start;
    while At(line, p) != 0 && IsSpace(At(line, p))
      invariant start <= p <= |line| && SkipBlanks(line, start) == SkipBlanks(line, p)
      decreases |line| - p
    {
      p := p + 1;
    }
  }

  /** sdssplitargs. */
  method SdsSplitArgs(line: seq<byte>) returns (r: Option<seq<seq<byte>>>)
    ensures r == Split(line, 0)
  {
    hide Scan, Split, Prepend, SkipBlanks;
    var p := 0;
    var vector: seq<seq<byte>> := [];
    PrependNothing(Split(line, 0));
    while true
      invariant p <= |line| && Split(line, 0) == Prepend(vector, Split(line, p))
      decreases |line| - p
    {
      SplitStep(line, p);
      p := Skip(line, p);
      PrependMore(vector, [], None);
      if At(line, p) == 0 {
        return Some(vector);
      }
      var ok, current, next := GetToken(line, p);
      if !ok {
        return None;
      }
      PrependMore(vector, current, Split(line, next));
      p := next;
      vector := vector + [current];
    }
  }

  /** The loop over one token. */
  method GetToken(line: seq<byte>, start: nat) returns (ok: bool, current: seq<byte>, p: nat)
    requires start <= |line| && At(line, start) != 0 && !IsSpace(At(line, start))
    ensures ok <==> Scan(line, start, [], Plain).Some?
    ensures ok ==> Scan(line, start, [], Plain) == Some(Scanned(current, p)) && start < p <= |line|
  {
    var inq, insq, done := false, false, false;
    current, p := [], start;
    while !done
      invariant start <= p <= |line| && !(inq && insq)
      invariant !done ==> Scan(line, start, [], Plain) == Scan(line, p, current, if inq then InQuotes else if insq then InSingleQuotes else Plain)
      invariant done ==> Scan(line, start, [], Plain) == Some(Scanned(current, p))
      decreases !done, |line| - p
    {
      var c := At(line, p);
      if inq {
        if IsHexEscape(line, p) {
          var b: byte := HexDigitToInt(At(line, p + 2)) * 16 + HexDigitToInt(At(line, p + 3));
          current := current + [b];
          p := p + 3;
        } else if c == BACKSLASH && At(line, p + 1) != 0 {
          p := p + 1;
          current := current + [Unescape(At(line, p))];
        } else if c == QUOTE {
          if At(line, p + 1) != 0 && !IsSpace(At(line, p + 1)) {
            return false, [], p;
          }
          done := true;
        } else if c == 0 {
          return false, [], p;
        } else {
          current := current + [c];
        }
      } else if insq {
        if c == BACKSLASH && At(line, p + 1) == APOSTROPHE {
          p := p + 1;
          current := current + [APOSTROPHE];
        } else if c == APOSTROPHE {
          if At(line, p + 1) != 0 && !IsSpace(At(line, p + 1)) {
            return false, [], p;
          }
          done := true;
        } else if c == 0 {
          return false, [], p;
        } else {
          current := current + [c];
        }
      } else {
        if Ends(c) {
          done := true;
        } else if c == QUOTE {
          inq := true;
          assert current + [] == current;
        } else if c == APOSTROPHE {
          insq := true;
          assert current + [] == current;
        } else {
          current := current + [c];
        }
      }
      if At(line, p) != 0 {
        p := p + 1;
      }
    }
    ok := true;
  }

  // ----- The round trip

  /** The written form of one byte is read back as that byte. */
  lemma TurnReadsByte(line: seq<byte>, p: nat, c: byte)
    requires p + |ReprByte(c)| <= |line| && line[p..p + |ReprByte(c)|] == ReprByte(c)
    ensures TurnAt(line, p, InQuotes) == More(InQuotes, [c], p + |ReprByte(c)|)
  {
    var r := ReprByte(c);
    assert At(line, p) == r[0];
    assert |r| > 1 ==> At(line, p + 1) == r[1];
    if |r| > 2 {
      assert At(line, p + 2) == r[2] && At(line, p + 3) == r[3];
      HexReads(c);
    }
  }

  lemma HexReads(c: byte)
    ensures var v: int := c;
            var h, l := HexDigit(v / 16), HexDigit(v % 16);
            IsHexDigit(h) && IsHexDigit(l) && HexDigitToInt(h) * 16 + HexDigitToInt(l) == c
  {}

  lemma TurnCloses(line: seq<byte>, p: nat, rest: seq<byte>)
    requires p <= |line| && line[p..] == [QUOTE] + rest && (rest == [] || IsSpace(rest[0]))
    ensures TurnAt(line, p, InQuotes) == Done(p + 1)
  {
    assert line[p] == line[p..][0];
    if rest != [] {
      assert line[p + 1] == line[p..][1] == rest[0];
    }
  }

  lemma ScanMore(line: seq<byte>, p: nat, current: seq<byte>, mode: Mode)
    requires p <= |line| && TurnAt(line, p, mode).More?
    ensures var t := TurnAt(line, p, mode);
            Scan(line, p, current, mode) == Scan(line, t.next, current + t.add, t.mode)
  {}

  lemma ScanDone(line: seq<byte>, p: nat, current: seq<byte>, mode: Mode)
    requires p <= |line| && TurnAt(line, p, mode).Done?
    ensures Scan(line, p, current, mode) == Some(Scanned(current, TurnAt(line, p, mode).next))
  {}

  lemma BodyParts(s: seq<byte>, rest: seq<byte>)
    requires s != []
    ensures ReprBody(s) + [QUOTE] + rest == ReprByte(s[0]) + (ReprBody(s[1..]) + [QUOTE] + rest)
    ensures |ReprBody(s)| == |ReprByte(s[0])| + |ReprBody(s[1..])|
  {
    var r, b := ReprByte(s[0]), ReprBody(s[1..]);
    assert r + b + [QUOTE] + rest == r + (b + [QUOTE] + rest);
  }

  lemma Slices(line: seq<byte>, p: nat, a: seq<byte>, b: seq<byte>)
    requires p <= |line| && line[p..] == a + b
    ensures p + |a| <= |line| && line[p..p + |a|] == a && line[p + |a|..] == b
  {
    assert line[p..p + |a|] == line[p..][..|a|];
    assert line[p + |a|..] == line[p..][|a|..];
  }

  lemma {:induction false} ScanReadsBody(line: seq<byte>, p: nat, current: seq<byte>, s: seq<byte>, rest: seq<byte>)
    requires p <= |line| && line[p..] == ReprBody(s) + [QUOTE] + rest && (rest == [] || IsSpace(rest[0]))
    ensures Scan(line, p, current, InQuotes) == Some(Scanned(current + s, p + |ReprBody(s)| + 1))
    decreases |s|
  {
    hide TurnAt, ReprByte;
    if s == [] {
      assert current + s == current && ReprBody(s) + [QUOTE] + rest == [QUOTE] + rest;
      TurnCloses(line, p, rest);
      ScanDone(line, p, current, InQuotes);
    } else {
      var r := ReprByte(s[0]);
      BodyParts(s, rest);
      Slices(line, p, r, ReprBody(s[1..]) + [QUOTE] + rest);
      TurnReadsByte(line, p, s[0]);
      ScanMore(line, p, current, InQuotes);
      ScanReadsBody(line, p + |r|, current + [s[0]], s[1..], rest);
      assert current + [s[0]] + s[1..] == current + s;
    }
  }

  lemma ReprParts(s: seq<byte>, rest: seq<byte>)
    ensures Repr(s) + rest == [QUOTE] + (ReprBody(s) + [QUOTE] + rest) && |Repr(s)| == |ReprBody(s)| + 2
  {
    assert Repr(s) + rest == [QUOTE] + (ReprBody(s) + [QUOTE] + rest);
  }

  lemma TurnOpens(line: seq<byte>, p: nat, rest: seq<byte>)
    requires p <= |line| && line[p..] == [QUOTE] + rest
    ensures TurnAt(line, p, Plain) == More(InQuotes, [], p + 1) && At(line, p) == QUOTE && QUOTE != 0 && !IsSpace(QUOTE)
  {
    assert line[p] == line[p..][0];
  }

  lemma ScanReadsRepr(line: seq<byte>, p: nat, s: seq<byte>, rest: seq<byte>)
    requires p <= |line| && line[p..] == Repr(s) + rest && (rest == [] || IsSpace(rest[0]))
    ensures Scan(line, p, [], Plain) == Some(Scanned(s, p + |Repr(s)|))
    ensures At(line, p) != 0 && !IsSpace(At(line, p))
  {
    hide *;
    ReprParts(s, rest);
    TurnOpens(line, p, ReprBody(s) + [QUOTE] + rest);
    ScanMore(line, p, [], Plain);
    Slices(line, p, [QUOTE], ReprBody(s) + [QUOTE] + rest);
    var none: seq<byte> := [];
    assert none + none == none && none + s == s;
    ScanReadsBody(line, p + 1, [], s, rest);
  }

  /** The written forms of some arguments, joined by spaces. */
  function Joined(args: seq<seq<byte>>): seq<byte> {
    if args == [] then []
    else if |args| == 1 then Repr(args[0])
    else Repr(args[0]) + [SPACE] + Joined(args[1..])
  }

  lemma {:induction false} SplitReads(line: seq<byte>, p: nat, args: seq<seq<byte>>)
    requires p <= |line| && args != [] && (line[p..] == Joined(args) || line[p..] == [SPACE] + Joined(args))
    ensures Split(line, p) == Some(args)
    decreases |args|
  {
    hide *;
    var rest := if |args| == 1 then [] else [SPACE] + Joined(args[1..]);
    JoinedParts(args);
    var q := p;
    if line[p..] != Joined(args) {
      Slices(line, p, [SPACE], Joined(args));
      q := p + 1;
    }
    ScanReadsRepr(line, q, args[0], rest);
    SkipIs(line, p, q);
    var next := q + |Repr(args[0])|;
    Slices(line, q, Repr(args[0]), rest);
    SplitStep(line, p);
    if |args| > 1 {
      SplitReads(line, next, args[1..]);
    } else {
      SplitEnds(line, next);
    }
    PrependIs(args);
  }

  lemma JoinedParts(args: seq<seq<byte>>)
    requires args != []
    ensures Joined(args) == Repr(args[0]) + (if |args| == 1 then [] else [SPACE] + Joined(args[1..]))
    ensures IsSpace(SPACE)
  {
    hide Repr;
    if |args| == 1 {
      assert Repr(args[0]) + [] == Repr(args[0]);
    } else {
      Assoc(Repr(args[0]), [SPACE], Joined(args[1..]));
    }
  }

  lemma SkipIs(line: seq<byte>, p: nat, q: nat)
    requires p <= q <= |line| && !IsSpace(At(line, q)) && (q == p || (q == p + 1 && line[p..p + 1] == [SPACE]))
    ensures SkipBlanks(line, p) == q
  {
    if q != p {
      assert line[p] == line[p..p + 1][0];
    }
  }

  lemma SplitEnds(line: seq<byte>, p: nat)
    requires p <= |line| && line[p..] == []
    ensures Split(line, p) == Some([])
  {}

  lemma PrependIs(args: seq<seq<byte>>)
    requires args != []
    ensures Prepend([args[0]], Some(args[1..])) == Some(args) && (|args| == 1 ==> args[1..] == [])
  {
    assert [args[0]] + args[1..] == args;
  }

  /** Whatever the bytes are, arguments written by sdscatrepr and joined by spaces are split into those arguments. */
  lemma ReprRoundTrip(args: seq<seq<byte>>)
    ensures Split(Joined(args), 0) == Some(args)
  {
    var line := Joined(args);
    assert line[0..] == line;
    if args != [] {
      SplitReads(line, 0, args);
    }
  }
}
