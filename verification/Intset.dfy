/**
 Sorted sets of 64-bit integers in one block of bytes (intset.c). All integers have the same width, and the block is
 widened in place when an integer comes that does not fit.
 */
module Intset {
  import opened Bytes

  const INT16: nat := 2
  const INT32: nat := 4
  const INT64: nat := 8

  // ----- Integers as bytes

  predicate IsWidth(enc: nat) {
    enc == INT16 || enc == INT32 || enc == INT64
  }

  /** Half the number of values of a width: the first integer that does not fit any more. */
  function Half(enc: nat): nat {
    if enc == INT16 then 0x8000 else if enc == INT32 then 0x8000_0000 else 0x8000_0000_0000_0000
  }

  predicate Fits(v: int, enc: nat) {
    0 - Half(enc) <= v < Half(enc)
  }

  /** The n low bytes of a number, the lowest first. */
  function LowBytes(u: nat, n: nat): (s: seq<byte>)
    ensures |s| == n
  {
    if n == 0 then [] else [u % 256] + LowBytes(u / 256, n - 1)
  }

  function Number(s: seq<byte>): nat {
    if s == [] then 0 else s[0] as int + 256 * Number(s[1..])
  }

  /** The integer in two's complement. */
  function Load(s: seq<byte>, enc: nat): int {
    if Number(s) >= Half(enc) then Number(s) - 2 * Half(enc) else Number(s)
  }

  function Store(v: int, enc: nat): (s: seq<byte>)
    requires Fits(v, enc)
    ensures |s| == enc
  {
    LowBytes(if v < 0 then v + 2 * Half(enc) else v, enc)
  }

  function Power256(n: nat): nat {
    if n == 0 then 1 else 256 * Power256(n - 1)
  }

  lemma {:induction false} NumberOfLowBytes(u: nat, n: nat)
    requires u < Power256(n)
    ensures Number(LowBytes(u, n)) == u
  {
    if n > 0 {
      NumberOfLowBytes(u / 256, n - 1);
      assert LowBytes(u, n)[1..] == LowBytes(u / 256, n - 1);
    }
  }

  lemma {:induction false} NumberBound(s: seq<byte>)
    ensures Number(s) < Power256(|s|)
  {
    if s != [] {
      NumberBound(s[1..]);
    }
  }

  lemma Powers()
    ensures Power256(2) == 2 * Half(INT16) && Power256(4) == 2 * Half(INT32) && Power256(8) == 2 * Half(INT64)
  {
    assert Power256(2) == 0x1_0000;
    assert Power256(4) == 0x1_0000_0000;
    assert Power256(6) == 0x1_0000_0000_0000;
  }

  /** What is stored is loaded. */
  lemma LoadStore(v: int, enc: nat)
    requires IsWidth(enc) && Fits(v, enc)
    ensures Load(Store(v, enc), enc) == v
  {
    Powers();
    NumberOfLowBytes(if v < 0 then v + 2 * Half(enc) else v, enc);
  }

  /** What is loaded fits its width. */
  lemma LoadFits(s: seq<byte>, enc: nat)
    requires IsWidth(enc) && |s| == enc
    ensures Fits(Load(s, enc), enc)
  {
    Powers();
    NumberBound(s);
  }

  // ----- A block of bytes as an array of integers

  /** The place of element i; the width is spelled out to keep the arithmetic linear. */
  function Off(enc: nat, i: nat): (r: nat)
    ensures IsWidth(enc) ==> r == enc * i
    ensures i == 0 ==> r == 0
  {
    if enc == INT16 then 2 * i else if enc == INT32 then 4 * i else 8 * i
  }

  lemma Offs(enc: nat, i: nat)
    requires IsWidth(enc)
    ensures Off(enc, i + 1) == Off(enc, i) + enc
  {}

  function Get(s: seq<byte>, enc: nat, i: nat): int
    requires Off(enc, i) <= Off(enc, i + 1) <= |s|
  {
    Load(s[Off(enc, i)..Off(enc, i + 1)], enc)
  }

  predicate Holds(s: seq<byte>, enc: nat, n: nat) {
    IsWidth(enc) && Off(enc, n) <= |s|
  }

  /** The first n integers of a block. */
  ghost function Values(s: seq<byte>, enc: nat, n: nat): (r: seq<int>)
    requires Holds(s, enc, n)
    ensures |r| == n && forall i :: 0 <= i < n ==> r[i] == Get(s, enc, i)
  {
    seq(n, i requires 0 <= i < n => Get(s, enc, i))
  }

  /** A block with the bytes from `off` on replaced. */
  function Put(t: seq<byte>, off: nat, s: seq<byte>): (r: seq<byte>)
    requires off + |s| <= |t|
    ensures |r| == |t|
  {
    t[..off] + s + t[off + |s|..]
  }

  lemma GetPut(t: seq<byte>, enc: nat, i: nat, v: int)
    requires IsWidth(enc) && Fits(v, enc) && Off(enc, i + 1) <= |t|
    ensures Get(Put(t, Off(enc, i), Store(v, enc)), enc, i) == v
  {
    var r := Put(t, Off(enc, i), Store(v, enc));
    Offs(enc, i);
    assert r[Off(enc, i)..Off(enc, i + 1)] == Store(v, enc);
    LoadStore(v, enc);
  }

  /** Elements beside the bytes replaced stay, whatever width they are read with. */
  lemma GetBeside(t: seq<byte>, off: nat, s: seq<byte>, enc: nat, j: nat)
    requires IsWidth(enc) && off + |s| <= |t| && Off(enc, j + 1) <= |t|
    requires Off(enc, j + 1) <= off || off + |s| <= Off(enc, j)
    ensures Get(Put(t, off, s), enc, j) == Get(t, enc, j)
  {
    assert Put(t, off, s)[Off(enc, j)..Off(enc, j + 1)] == t[Off(enc, j)..Off(enc, j + 1)];
  }

  lemma SliceOfSlice(t: seq<byte>, a: nat, b: nat, c: nat, d: nat)
    requires a <= b <= |t| && c <= d <= b - a
    ensures t[a..b][c..d] == t[a + c..a + d]
  {
    var x, y := t[a..b][c..d], t[a + c..a + d];
    assert |x| == |y|;
    forall k | 0 <= k < |x| ensures x[k] == y[k] {
      assert x[k] == t[a..b][c + k];
    }
  }

  lemma PutSlice(t: seq<byte>, dst: nat, src: nat, n: nat, c: nat, d: nat)
    requires src + n <= |t| && dst + n <= |t| && c <= d <= n
    ensures Put(t, dst, t[src..src + n])[dst + c..dst + d] == t[src + c..src + d]
  {
    SliceOfSlice(t, src, src + n, c, d);
    assert Put(t, dst, t[src..src + n])[dst + c..dst + d] == t[src..src + n][c..d];
  }

  /** Elements whose bytes have been moved are the elements they were. */
  lemma GetMoved(t: seq<byte>, enc: nat, from: nat, to: nat, n: nat, j: nat)
    requires IsWidth(enc) && Off(enc, n) <= |t| && from <= n && Off(enc, to + (n - from)) <= |t| && j < n - from
    ensures Off(enc, to) + Off(enc, n) - Off(enc, from) <= |t|
    ensures Get(Put(t, Off(enc, to), t[Off(enc, from)..Off(enc, n)]), enc, to + j) == Get(t, enc, from + j)
  {
    hide Put;
    assert Off(enc, to + (n - from)) == Off(enc, to) + (Off(enc, n) - Off(enc, from));
    assert Off(enc, to + j) == Off(enc, to) + Off(enc, j) && Off(enc, from + j) == Off(enc, from) + Off(enc, j);
    assert Off(enc, to + j + 1) == Off(enc, to) + Off(enc, j + 1) && Off(enc, from + j + 1) == Off(enc, from) + Off(enc, j + 1);
    assert Off(enc, j) <= Off(enc, j + 1) <= Off(enc, n - from) == Off(enc, n) - Off(enc, from);
    PutSlice(t, Off(enc, to), Off(enc, from), Off(enc, n) - Off(enc, from), Off(enc, j), Off(enc, j + 1));
  }

  /** Only the bytes of an element count. */
  lemma GetPrefix(s: seq<byte>, t: seq<byte>, enc: nat, j: nat)
    requires IsWidth(enc) && Off(enc, j + 1) <= |s| <= |t| && t[..|s|] == s
    ensures Get(t, enc, j) == Get(s, enc, j)
  {
    SliceOfSlice(t, 0, |s|, Off(enc, j), Off(enc, j + 1));
  }

  lemma ValuesFit(s: seq<byte>, enc: nat, n: nat)
    requires Holds(s, enc, n)
    ensures forall i :: 0 <= i < n ==> Fits(Values(s, enc, n)[i], enc)
  {
    forall i | 0 <= i < n ensures Fits(Values(s, enc, n)[i], enc) {
      LoadFits(s[Off(enc, i)..Off(enc, i + 1)], enc);
    }
  }

  /** The encoding a value requires. */
  function ValueEncoding(v: int): (enc: nat)
    requires Fits(v, INT64)
    ensures IsWidth(enc) && Fits(v, enc)
    ensures forall e :: IsWidth(e) && Fits(v, e) ==> enc <= e
  {
    if v < -0x8000_0000 || v > 0x7FFF_FFFF then INT64
    else if v < -0x8000 || v > 0x7FFF then INT32
    else INT16
  }

  predicate StrictlySorted(s: seq<int>) {
    forall i, j :: 0 <= i < j < |s| ==> s[i] < s[j]
  }

  // ----- Insertion, removal and widening on blocks

  function InsertAt(es: seq<int>, pos: nat, v: int): (r: seq<int>)
    requires pos <= |es|
    ensures |r| == |es| + 1
  {
    es[..pos] + [v] + es[pos..]
  }

  function RemoveAt(es: seq<int>, pos: nat): (r: seq<int>)
    requires pos < |es|
    ensures |r| == |es| - 1
  {
    es[..pos] + es[pos + 1..]
  }

  /** The first |es| elements of a block. */
  ghost predicate Are(t: seq<byte>, enc: nat, es: seq<int>) {
    Holds(t, enc, |es|) && forall j :: 0 <= j < |es| ==> Get(t, enc, j) == es[j]
  }

  lemma AreValues(t: seq<byte>, enc: nat, es: seq<int>)
    requires Are(t, enc, es)
    ensures Values(t, enc, |es|) == es
  {}

  lemma AreInLonger(s: seq<byte>, t: seq<byte>, enc: nat, es: seq<int>)
    requires Are(s, enc, es) && |s| <= |t| && t[..|s|] == s
    ensures Are(t, enc, es)
  {
    forall j | 0 <= j < |es| ensures Get(t, enc, j) == es[j] {
      GetPrefix(s, t, enc, j);
    }
  }

  lemma AreInShorter(s: seq<byte>, t: seq<byte>, enc: nat, es: seq<int>)
    requires Are(t, enc, es) && Off(enc, |es|) <= |s| <= |t| && t[..|s|] == s
    ensures Are(s, enc, es)
  {
    forall j | 0 <= j < |es| ensures Get(s, enc, j) == es[j] {
      GetPrefix(s, t, enc, j);
    }
  }

  /** The tail is moved up by one place and the value stored in the gap. */
  lemma Inserted(t: seq<byte>, enc: nat, es: seq<int>, pos: nat, v: int)
    requires Are(t, enc, es) && Off(enc, |es| + 1) <= |t| && pos <= |es| && Fits(v, enc)
    ensures Off(enc, pos + 1) + Off(enc, |es|) - Off(enc, pos) <= |t|
    ensures var moved := if pos < |es| then Put(t, Off(enc, pos + 1), t[Off(enc, pos)..Off(enc, |es|)]) else t;
            Are(Put(moved, Off(enc, pos), Store(v, enc)), enc, InsertAt(es, pos, v))
  {
    hide Put, Get, Store;
    var n := |es|;
    Offs(enc, pos);
    Offs(enc, n);
    var part := t[Off(enc, pos)..Off(enc, n)];
    var moved := if pos < n then Put(t, Off(enc, pos + 1), part) else t;
    var done := Put(moved, Off(enc, pos), Store(v, enc));
    GetPut(moved, enc, pos, v);
    var r := InsertAt(es, pos, v);
    forall k | 0 <= k < n + 1 ensures Get(done, enc, k) == r[k] {
      Offs(enc, k);
      if k < pos {
        if pos < n {
          GetBeside(t, Off(enc, pos + 1), part, enc, k);
        }
        GetBeside(moved, Off(enc, pos), Store(v, enc), enc, k);
      } else if k > pos {
        GetBeside(moved, Off(enc, pos), Store(v, enc), enc, k);
        GetMoved(t, enc, pos, pos + 1, n, k - pos - 1);
      }
    }
  }

  /** The tail is moved down over a value. */
  lemma Removed(t: seq<byte>, enc: nat, es: seq<int>, pos: nat)
    requires Are(t, enc, es) && pos < |es|
    ensures pos < |es| - 1 ==> Off(enc, pos) + Off(enc, |es|) - Off(enc, pos + 1) <= |t|
    ensures var moved := if pos < |es| - 1 then Put(t, Off(enc, pos), t[Off(enc, pos + 1)..Off(enc, |es|)]) else t;
            Are(moved, enc, RemoveAt(es, pos))
  {
    hide Put, Get;
    var n := |es|;
    Offs(enc, pos);
    var part := t[Off(enc, pos + 1)..Off(enc, n)];
    var moved := if pos < n - 1 then Put(t, Off(enc, pos), part) else t;
    var r := RemoveAt(es, pos);
    forall k | 0 <= k < n - 1 ensures Get(moved, enc, k) == r[k] {
      Offs(enc, k);
      if k < pos {
        if pos < n - 1 {
          GetBeside(t, Off(enc, pos), part, enc, k);
        }
      } else {
        GetMoved(t, enc, pos + 1, pos, n, k - pos);
      }
    }
  }

  /** Widening from back to front: `len` elements still have the old width, the others have been widened and moved. */
  ghost predicate Widening(t: seq<byte>, cur: nat, wide: nat, prepend: nat, len: nat, es: seq<int>) {
    && IsWidth(cur) && IsWidth(wide) && cur < wide && prepend <= 1 && len <= |es|
    && |t| == Off(wide, |es| + 1)
    && (forall j :: 0 <= j < len ==> Get(t, cur, j) == es[j])
    && (forall j :: len <= j < |es| ==> Get(t, wide, j + prepend) == es[j])
  }

  /** The place an element is widened to holds no element that is still to be read. */
  lemma Widened(t: seq<byte>, cur: nat, wide: nat, prepend: nat, len: nat, es: seq<int>)
    requires Widening(t, cur, wide, prepend, len, es) && len > 0 && Fits(es[len - 1], wide)
    ensures Off(wide, len - 1 + prepend) + wide <= |t|
    ensures Widening(Put(t, Off(wide, len - 1 + prepend), Store(es[len - 1], wide)), cur, wide, prepend, len - 1, es)
  {
    hide Put, Get, Store;
    var i := len - 1 + prepend;
    Offs(wide, i);
    var bytes := Store(es[len - 1], wide);
    var r := Put(t, Off(wide, i), bytes);
    GetPut(t, wide, i, es[len - 1]);
    forall j | 0 <= j < len - 1 ensures Get(r, cur, j) == es[j] {
      GetBeside(t, Off(wide, i), bytes, cur, j);
    }
    forall j | len - 1 <= j < |es| ensures Get(r, wide, j + prepend) == es[j] {
      if j >= len {
        GetBeside(t, Off(wide, i), bytes, wide, j + prepend);
      }
    }
  }

  /** With all elements widened the new value goes to the end left free. */
  lemma WidenedAll(t: seq<byte>, cur: nat, wide: nat, prepend: nat, es: seq<int>, v: int)
    requires Widening(t, cur, wide, prepend, 0, es) && Fits(v, wide)
    ensures var i := if prepend == 1 then 0 else |es|;
            && Off(wide, i) + wide <= |t|
            && Are(Put(t, Off(wide, i), Store(v, wide)), wide, InsertAt(es, i, v))
  {
    hide Put, Get, Store;
    var i := if prepend == 1 then 0 else |es|;
    Offs(wide, i);
    var r := Put(t, Off(wide, i), Store(v, wide));
    GetPut(t, wide, i, v);
    forall k | 0 <= k < |es| + 1 ensures Get(r, wide, k) == InsertAt(es, i, v)[k] {
      if k != i {
        GetBeside(t, Off(wide, i), Store(v, wide), wide, k);
        assert Get(t, wide, (k - prepend) + prepend) == es[k - prepend];
      }
    }
  }

  // ----- Sorted sequences as sets

  function SetOf(es: seq<int>): set<int> {
    set x | x in es
  }

  lemma InsertSorted(es: seq<int>, pos: nat, v: int)
    requires StrictlySorted(es) && pos <= |es|
    requires (forall i :: 0 <= i < pos ==> es[i] < v) && (forall i :: pos <= i < |es| ==> v < es[i])
    ensures StrictlySorted(InsertAt(es, pos, v)) && SetOf(InsertAt(es, pos, v)) == SetOf(es) + {v} && v !in SetOf(es)
  {
    var r := InsertAt(es, pos, v);
    forall x ensures x in r <==> x in es || x == v {
      if x in es {
        var i :| 0 <= i < |es| && es[i] == x;
        assert r[if i < pos then i else i + 1] == x;
      }
      assert r[pos] == v;
    }
  }

  lemma RemoveSorted(es: seq<int>, pos: nat)
    requires StrictlySorted(es) && pos < |es|
    ensures StrictlySorted(RemoveAt(es, pos)) && SetOf(RemoveAt(es, pos)) == SetOf(es) - {es[pos]} && es[pos] in SetOf(es)
  {
    var r := RemoveAt(es, pos);
    forall x ensures x in r <==> x in es && x != es[pos] {
      if x in es && x != es[pos] {
        var i :| 0 <= i < |es| && es[i] == x;
        assert r[if i < pos then i else i - 1] == x;
      }
      if x in r {
        var i :| 0 <= i < |r| && r[i] == x;
        assert es[if i < pos then i else i + 1] == x;
      }
    }
  }

  // ----- memcpy and memmove

  method Copy(a: array<byte>, off: nat, s: seq<byte>)
    requires off + |s| <= a.Length
    modifies a
    ensures a[..] == Put(old(a[..]), off, s)
  {
    forall k | 0 <= k < |s| {
      a[off + k] := s[k];
    }
  }

  method MemMove(a: array<byte>, dst: nat, src: nat, n: nat)
    requires dst + n <= a.Length && src + n <= a.Length
    modifies a
    ensures a[..] == Put(old(a[..]), dst, old(a[src..src + n]))
  {
    forall k | 0 <= k < n {
      a[dst + k] := a[src + k];
    }
  }

  // ----- The set

  class Intset {
    var encoding: nat
    var length: nat
    var contents: array<byte>

    ghost predicate Valid()
      reads this, contents
    {
      IsWidth(encoding) && contents.Length == Off(encoding, length) && StrictlySorted(Elements())
    }

    /** The integers in the order in which they are stored. */
    ghost function Elements(): (r: seq<int>)
      reads this, contents
      requires IsWidth(encoding) && contents.Length == Off(encoding, length)
      ensures |r| == length
    {
      Values(contents[..], encoding, length)
    }

    /** The set of integers. */
    ghost function Model(): set<int>
      reads this, contents
      requires Valid()
    {
      SetOf(Elements())
    }

    constructor ()
      ensures Valid() && length == 0 && Model() == {} && fresh(contents)
    {
      encoding, length := INT16, 0;
      contents := new byte[0];
    }

    lemma Facts()
      requires Valid()
      ensures IsWidth(encoding) && contents.Length == |contents[..]| == Off(encoding, length) && Holds(contents[..], encoding, length)
      ensures Elements() == Values(contents[..], encoding, length) && |Elements()| == length
      ensures forall i, j :: 0 <= i < j < length ==> Elements()[i] < Elements()[j]
    {}

    /** _intsetGetEncoded. */
    method GetEncoded(pos: nat, enc: nat) returns (v: int)
      requires IsWidth(enc) && Off(enc, pos + 1) <= contents.Length
      ensures v == Get(contents[..], enc, pos)
    {
      var s := contents[Off(enc, pos)..Off(enc, pos + 1)];
      assert contents[..][Off(enc, pos)..Off(enc, pos + 1)] == s;
      v := Load(s, enc);
    }

    /** _intsetGet. */
    method GetAt(pos: nat) returns (v: int)
      requires Valid() && pos < length
      ensures v == Elements()[pos]
    {
      v := GetEncoded(pos, encoding);
    }

    /** _intsetSet. */
    method SetAt(pos: nat, value: int)
      requires IsWidth(encoding) && Off(encoding, pos + 1) <= contents.Length && Fits(value, encoding)
      modifies contents
      ensures contents[..] == Put(old(contents[..]), Off(encoding, pos), Store(value, encoding))
    {
      Offs(encoding, pos);
      Copy(contents, Off(encoding, pos), Store(value, encoding));
    }

    /** intsetResize: a block for `len` integers that begins with the old bytes, as many as there is room for. */
    method Resize(len: nat)
      requires IsWidth(encoding)
      modifies this`contents
      ensures fresh(contents) && contents.Length == Off(encoding, len)
      ensures contents.Length >= old(contents.Length) ==> contents[..old(contents.Length)] == old(contents[..])
      ensures contents.Length < old(contents.Length) ==> contents[..] == old(contents[..Off(encoding, len)])
    {
      var size := Off(encoding, len);
      var block := new byte[size];
      forall k | 0 <= k < size && k < contents.Length {
        block[k] := contents[k];
      }
      contents := block;
    }

    /** intsetMoveTail: the elements from `from` on are moved to begin at `to`. */
    method MoveTail(from: nat, to: nat)
      requires IsWidth(encoding) && from <= length && Off(encoding, length) <= contents.Length
      requires Off(encoding, to + (length - from)) <= contents.Length
      modifies contents
      ensures Off(encoding, to) + Off(encoding, length) - Off(encoding, from) <= contents.Length
      ensures contents[..] == Put(old(contents[..]), Off(encoding, to), old(contents[Off(encoding, from)..Off(encoding, length)]))
    {
      MemMove(contents, Off(encoding, to), Off(encoding, from), Off(encoding, length) - Off(encoding, from));
    }

    /** intsetSearch: where the value is, or where it belongs. */
    method Search(value: int) returns (found: bool, pos: nat)
      requires Valid()
      ensures found <==> value in Elements()
      ensures found ==> pos < length && Elements()[pos] == value
      ensures !found ==> pos <= length
      ensures !found ==> forall i :: 0 <= i < pos ==> Elements()[i] < value
      ensures !found ==> forall i :: pos <= i < length ==> value < Elements()[i]
    {
      hide *;
      Facts();
      if length == 0 {
        return false, 0;
      }
      ghost var es := Elements();
      var last := GetAt(length - 1);
      if value > last {
        return false, length;
      }
      var first := GetAt(0);
      if value < first {
        return false, 0;
      }
      var min, max, mid, cur := 0, length - 1, -1, -1;
      while max >= min
        invariant 0 <= min <= length && -1 <= max < length && min <= max + 1
        invariant forall i :: 0 <= i < min ==> es[i] < value
        invariant forall i :: max < i < length ==> value < es[i]
        decreases max - min
      {
        mid := (min + max) / 2;
        cur := GetAt(mid);
        if value > cur {
          min := mid + 1;
        } else if value < cur {
          max := mid - 1;
        } else {
          return true, mid;
        }
      }
      return false, min;
    }

    lemma IsValid(es: seq<int>)
      requires Are(contents[..], encoding, es) && StrictlySorted(es) && length == |es| && contents.Length == Off(encoding, length)
      ensures Valid() && Elements() == es && Model() == SetOf(es)
    {
      AreValues(contents[..], encoding, es);
    }

    lemma ElementsAre()
      requires Valid()
      ensures Are(contents[..], encoding, Elements()) && StrictlySorted(Elements()) && |Elements()| == length
      ensures Model() == SetOf(Elements())
      ensures forall i :: 0 <= i < length ==> Fits(Elements()[i], encoding)
    {
      ValuesFit(contents[..], encoding, length);
    }

    /** intsetUpgradeAndAdd: a value that needs a wider encoding lies outside the range of all others. */
    method UpgradeAndAdd(value: int)
      requires Valid() && Fits(value, INT64) && encoding < ValueEncoding(value)
      modifies this, contents
      ensures Valid() && Model() == old(Model()) + {value} && value !in old(Model())
      ensures length == old(length) + 1 && encoding == ValueEncoding(value) && fresh(contents)
    {
      hide *;
      Facts();
      ElementsAre();
      ghost var es := Elements();
      ghost var s := contents[..];
      var curenc, newenc, len := encoding, ValueEncoding(value), length;
      var prepend := if value < 0 then 1 else 0;
      WiderIsOutside(value, curenc, newenc, es);
      encoding := newenc;
      Resize(length + 1);
      StartWidening(s, contents[..], curenc, newenc, prepend, es);
      while len > 0
        invariant 0 <= len <= length == old(length) && encoding == newenc && contents.Length == Off(newenc, length + 1) && fresh(contents)
        invariant Widening(contents[..], curenc, newenc, prepend, len, es)
      {
        StillWidening(contents[..], curenc, newenc, prepend, len, es);
        len := len - 1;
        var v := GetEncoded(len, curenc);
        SetAt(len + prepend, v);
      }
      WidenedAll(contents[..], curenc, newenc, prepend, es, value);
      EndWidening(contents[..], curenc, newenc, prepend, es);
      if prepend == 1 {
        SetAt(0, value);
      } else {
        SetAt(length, value);
      }
      length := length + 1;
      InsertSorted(es, if prepend == 1 then 0 else |es|, value);
      InsertSize(es, if prepend == 1 then 0 else |es|, value);
      IsValid(InsertAt(es, if prepend == 1 then 0 else |es|, value));
    }

    /** intsetAdd. */
    method Add(value: int) returns (success: bool)
      requires Valid() && Fits(value, INT64)
      modifies this, contents
      ensures Valid() && Model() == old(Model()) + {value}
      ensures success <==> value !in old(Model())
      ensures length == old(length) + if success then 1 else 0
      ensures contents == old(contents) || fresh(contents)
      ensures encoding == if ValueEncoding(value) > old(encoding) then ValueEncoding(value) else old(encoding)
    {
      hide *;
      Facts();
      ElementsAre();
      ghost var es := Elements();
      ghost var s := contents[..];
      if ValueEncoding(value) > encoding {
        UpgradeAndAdd(value);
        return true;
      }
      NarrowFits(value, encoding);
      var found, pos := Search(value);
      InSet(es, value);
      if found {
        return false;
      }
      Resize(length + 1);
      OneMore(s, contents[..], encoding, es);
      Inserted(contents[..], encoding, es, pos, value);
      Room(encoding, pos, length);
      if pos < length {
        MoveTail(pos, pos + 1);
      }
      SetAt(pos, value);
      length := length + 1;
      InsertSorted(es, pos, value);
      InsertSize(es, pos, value);
      IsValid(InsertAt(es, pos, value));
      return true;
    }

    /** intsetRemove. */
    method Remove(value: int) returns (success: bool)
      requires Valid() && Fits(value, INT64)
      modifies this, contents
      ensures Valid() && Model() == old(Model()) - {value}
      ensures success <==> value in old(Model())
      ensures length == old(length) - (if success then 1 else 0) && encoding == old(encoding)
      ensures contents == old(contents) || fresh(contents)
    {
      hide *;
      Facts();
      ElementsAre();
      ghost var es := Elements();
      InSet(es, value);
      if ValueEncoding(value) > encoding {
        WiderIsAbsent(value, encoding, es);
        return false;
      }
      var found, pos := Search(value);
      if !found {
        return false;
      }
      Removed(contents[..], encoding, es, pos);
      Room(encoding, pos, length);
      if pos < length - 1 {
        MoveTail(pos + 1, pos);
      }
      ghost var t := contents[..];
      Shorter(encoding, length);
      Resize(length - 1);
      length := length - 1;
      RemoveSorted(es, pos);
      RemoveSize(es, pos);
      AreInShorter(contents[..], t, encoding, RemoveAt(es, pos));
      IsValid(RemoveAt(es, pos));
      return true;
    }

    /** intsetFind. */
    method Find(value: int) returns (found: bool)
      requires Valid() && Fits(value, INT64)
      ensures found <==> value in Model()
    {
      hide *;
      Facts();
      ElementsAre();
      InSet(Elements(), value);
      if ValueEncoding(value) > encoding {
        WiderIsAbsent(value, encoding, Elements());
        return false;
      }
      var pos;
      found, pos := Search(value);
    }
  }

  lemma InsertSize(es: seq<int>, pos: nat, v: int)
    requires pos <= |es|
    ensures |InsertAt(es, pos, v)| == |es| + 1
  {}

  /** An integer that does not fit a width is beyond all that do, on the side of its sign. */
  lemma WiderIsOutside(value: int, cur: nat, wide: nat, es: seq<int>)
    requires Fits(value, INT64) && IsWidth(cur) && cur < ValueEncoding(value) == wide
    requires forall i :: 0 <= i < |es| ==> Fits(es[i], cur)
    ensures IsWidth(wide) && Fits(value, wide)
    ensures forall i :: 0 <= i < |es| ==> Fits(es[i], wide)
    ensures if value < 0 then forall i :: 0 <= i < |es| ==> value < es[i] else forall i :: 0 <= i < |es| ==> es[i] < value
  {}

  lemma StartWidening(s: seq<byte>, t: seq<byte>, cur: nat, wide: nat, prepend: nat, es: seq<int>)
    requires Are(s, cur, es) && IsWidth(wide) && cur < wide && prepend <= 1
    requires |s| == Off(cur, |es|) && |t| == Off(wide, |es| + 1) && (|t| >= |s| ==> t[..|s|] == s)
    ensures Widening(t, cur, wide, prepend, |es|, es)
  {
    AreInLonger(s, t, cur, es);
  }

  lemma StillWidening(t: seq<byte>, cur: nat, wide: nat, prepend: nat, len: nat, es: seq<int>)
    requires Widening(t, cur, wide, prepend, len, es) && len > 0 && Fits(es[len - 1], wide)
    ensures Get(t, cur, len - 1) == es[len - 1] && Off(cur, len) <= |t| && Off(wide, len + prepend) <= |t| && IsWidth(cur) && IsWidth(wide)
    ensures Off(wide, len - 1 + prepend) + wide <= |t|
    ensures Widening(Put(t, Off(wide, len - 1 + prepend), Store(es[len - 1], wide)), cur, wide, prepend, len - 1, es)
  {
    Widened(t, cur, wide, prepend, len, es);
  }

  lemma EndWidening(t: seq<byte>, cur: nat, wide: nat, prepend: nat, es: seq<int>)
    requires Widening(t, cur, wide, prepend, 0, es)
    ensures Off(wide, 1) <= |t| && Off(wide, |es| + 1) <= |t|
  {}

  lemma NarrowFits(value: int, enc: nat)
    requires Fits(value, INT64) && IsWidth(enc) && ValueEncoding(value) <= enc
    ensures Fits(value, enc)
  {}

  lemma WiderIsAbsent(value: int, enc: nat, es: seq<int>)
    requires Fits(value, INT64) && IsWidth(enc) && ValueEncoding(value) > enc
    requires forall i :: 0 <= i < |es| ==> Fits(es[i], enc)
    ensures value !in es && value !in SetOf(es)
  {}

  lemma InSet(es: seq<int>, value: int)
    ensures value in SetOf(es) <==> value in es
    ensures value !in es ==> SetOf(es) - {value} == SetOf(es)
    ensures value in es ==> SetOf(es) + {value} == SetOf(es)
  {}

  lemma OneMore(s: seq<byte>, t: seq<byte>, enc: nat, es: seq<int>)
    requires Are(s, enc, es) && |s| == Off(enc, |es|) && |t| == Off(enc, |es| + 1) && (|t| >= |s| ==> t[..|s|] == s)
    ensures Are(t, enc, es)
  {
    AreInLonger(s, t, enc, es);
  }

  lemma Room(enc: nat, pos: nat, n: nat)
    requires IsWidth(enc) && pos <= n
    ensures Off(enc, n) == Off(enc, pos) + Off(enc, n - pos) && Off(enc, n + 1) == Off(enc, n) + enc
    ensures Off(enc, pos + 1 + (n - pos)) == Off(enc, n + 1) && Off(enc, pos + 1) == Off(enc, pos) + enc && Off(enc, pos + 1) <= Off(enc, n + 1)
    ensures pos < n ==> Off(enc, pos + (n - (pos + 1))) <= Off(enc, n) && Off(enc, pos + 1) <= Off(enc, n)
  {}

  lemma Shorter(enc: nat, n: nat)
    requires IsWidth(enc) && n > 0
    ensures Off(enc, n - 1) < Off(enc, n)
  {}

  lemma RemoveSize(es: seq<int>, pos: nat)
    requires pos < |es|
    ensures |RemoveAt(es, pos)| == |es| - 1
  {}
}
