/** The bytes of an append only file (aof.c): how commands are written, and the loop that loads them. */
module AofFile {
  import opened Bytes
  import opened Decimal
  import Networking

  /** A string in memory, and the arguments of a command: their sizes fit the C types. */
  type Blob = s: seq<byte> | |s| <= 0x7FFF_FFFF_FFFF_FFFF
  type Argv = seq<Blob>

  const STAR: byte := 42
  const DOLLAR: byte := 36

  // ----- Writing

  lemma {:induction false} EncodeArgsSnoc(args: seq<seq<byte>>, j: nat)
    requires j < |args|
    ensures Networking.EncodeArgs(args[..j + 1])
         == Networking.EncodeArgs(args[..j]) + Networking.Line(Networking.DOLLAR, |args[j]|) + args[j] + [Networking.CR, Networking.LF]
  {
    assert args[..j + 1] == args[..j] + [args[j]];
    Networking.EncodeArgsLast(args[..j], args[j]);
    assert Networking.EncodeArgs([args[j]]) == Networking.Line(Networking.DOLLAR, |args[j]|) + args[j] + [Networking.CR, Networking.LF] + Networking.EncodeArgs([]);
  }

  /** catAppendOnlyGenericCommand: a command is written as clients send it. */
  method CatAppendOnlyGenericCommand(dst: seq<byte>, argv: Argv) returns (out: seq<byte>)
    requires |argv| <= LLONG_MAX
    ensures out == dst + Networking.Encode(argv)
  {
    hide Text, Networking.EncodeArgs;
    var text := Ll2string(31, |argv|);
    TextShort(|argv|);
    var head := [Networking.STAR] + text + [Networking.CR, Networking.LF];
    out := dst + head;
    var j := 0;
    ghost var args: seq<byte> := [];
    Networking.NoArguments();
    assert argv[..0] == [];
    while j < |argv|
      invariant 0 <= j <= |argv| && args == Networking.EncodeArgs(argv[..j]) && out == dst + (head + args)
    {
      text := Ll2string(31, |argv[j]|);
      TextShort(|argv[j]|);
      EncodeArgsSnoc(argv, j);
      var arg := [Networking.DOLLAR] + text + [Networking.CR, Networking.LF] + argv[j] + [Networking.CR, Networking.LF];
      Assoc(dst, head + args, arg);
      Assoc(head, args, arg);
      args := args + arg;
      out := out + arg;
      j := j + 1;
    }
    assert argv[..j] == argv;
  }

  // ----- What loading makes of any bytes

  /** The length of what fgets takes: a line, or as much of one as fits. */
  function FgetsLength(s: seq<byte>, size: nat): (n: nat)
    requires s != [] && size >= 2
    ensures 0 < n <= |s| && n < size
  {
    if s[0] == 10 || |s| == 1 || size == 2 then 1 else 1 + FgetsLength(s[1..], size - 1)
  }

  /** Something read, and the bytes after it. */
  datatype Piece<T> = Piece(value: T, rest: seq<byte>)

  /** A line that begins with `mark`, without the mark. */
  function Line(s: seq<byte>, mark: byte): (r: Option<Piece<seq<byte>>>)
    ensures r.Some? ==> |r.value.rest| < |s|
  {
    if s == [] || s[0] != mark then None else Some(Piece(s[1..FgetsLength(s, 128)], s[FgetsLength(s, 128)..]))
  }

  /** One argument; a negative length is an impossible allocation. */
  function Argument(s: seq<byte>): (r: Option<Piece<Blob>>)
    ensures r.Some? ==> |r.value.rest| < |s|
  {
    match Line(s, DOLLAR)
    case None => None
    case Some(line) =>
      var len := Strtol(line.value);
      if len < 0 || |line.rest| < len + 2 then None
      else
        StrtolRange(line.value);
        var arg: Blob := line.rest[..len];
        Some(Piece(arg, line.rest[len + 2..]))
  }

  function Arguments(s: seq<byte>, n: nat): (r: Option<Piece<Argv>>)
    ensures r.Some? ==> |r.value.rest| <= |s| && |r.value.value| == n
    decreases n
  {
    if n == 0 then Some(Piece([], s))
    else match Argument(s)
      case None => None
      case Some(a) =>
        match Arguments(a.rest, n - 1)
        case None => None
        case Some(more) => Some(Piece([a.value] + more.value, more.rest))
  }

  function OneCommand(s: seq<byte>): (r: Option<Piece<Argv>>)
    ensures r.Some? ==> |r.value.rest| < |s| && 0 < |r.value.value| < 0x8000_0000
  {
    match Line(s, STAR)
    case None => None
    case Some(line) => if Atoi(line.value) < 1 then None else Arguments(line.rest, Atoi(line.value))
  }

  /** The commands of a file; none when the format is wrong or the end comes too soon, in which case the server exits. */
  function Load(s: seq<byte>): Option<seq<Argv>>
    decreases |s|
  {
    if s == [] then Some([])
    else match OneCommand(s)
      case None => None
      case Some(c) =>
        match Load(c.rest)
        case None => None
        case Some(more) => Some([c.value] + more)
  }

  // ----- The loop of loadAppendOnlyFile

  method Fgets(file: seq<byte>, pos: nat, size: nat) returns (next: nat)
    requires pos < |file| && size >= 2
    ensures next == pos + FgetsLength(file[pos..], size)
  {
    next := pos + 1;
    while next < |file| && next - pos < size - 1 && file[next - 1] != 10
      invariant pos < next <= |file| && next - pos < size
      invariant FgetsLength(file[pos..], size) == next - pos - 1 + FgetsLength(file[next - 1..], size - (next - pos - 1))
    {
      assert file[next - 1..][1..] == file[next..];
      next := next + 1;
    }
  }

  /** fgets and the test of the first byte. */
  method ReadLine(file: seq<byte>, pos: nat, mark: byte) returns (line: Option<seq<byte>>, next: nat)
    requires pos <= |file|
    ensures pos <= next <= |file|
    ensures match Line(file[pos..], mark) case None => line == None case Some(p) => line == Some(p.value) && p.rest == file[next..]
  {
    if pos == |file| {
      return None, pos;
    }
    next := Fgets(file, pos, 128);
    line := if file[pos] != mark then None else Some(file[pos + 1..next]);
    assert file[pos..][1..next - pos] == file[pos + 1..next];
    DropDrop(file, pos, next - pos);
  }

  method LoadArgument(file: seq<byte>, pos: nat) returns (r: Option<Blob>, next: nat)
    requires pos <= |file|
    ensures pos <= next <= |file|
    ensures match Argument(file[pos..]) case None => r == None case Some(p) => r == Some(p.value) && p.rest == file[next..]
  {
    hide Line, Strtol;
    var line;
    line, next := ReadLine(file, pos, DOLLAR);
    if line == None {
      return None, next;
    }
    var len := Strtol(line.value);
    if len < 0 || |file| - next < len + 2 {
      return None, next;
    }
    StrtolRange(line.value);
    assert file[next..][..len] == file[next..next + len];
    DropDrop(file, next, len + 2);
    return Some(file[next..next + len]), next + len + 2;
  }

  /** One command. */
  method LoadCommand(file: seq<byte>, pos: nat) returns (r: Option<Argv>, next: nat)
    requires pos <= |file|
    ensures pos <= next <= |file|
    ensures match OneCommand(file[pos..]) case None => r == None case Some(p) => r == Some(p.value) && p.rest == file[next..]
  {
    hide Line, Strtol, Atoi, Argument;
    var line;
    line, next := ReadLine(file, pos, STAR);
    if line == None {
      return None, next;
    }
    var argc := Atoi(line.value);
    if argc < 1 {
      return None, next;
    }
    var argv: Argv := [];
    ghost var start := next;
    assert forall more: Argv :: argv + more == more;
    while |argv| < argc
      invariant start <= next <= |file| && |argv| <= argc
      invariant match Arguments(file[next..], argc - |argv|)
                case None => Arguments(file[start..], argc) == None
                case Some(p) => Arguments(file[start..], argc) == Some(Piece(argv + p.value, p.rest))
    {
      var arg, after := LoadArgument(file, next);
      if arg == None {
        return None, after;
      }
      AppendOne(argv, arg.value);
      argv, next := argv + [arg.value], after;
    }
    assert argv + [] == argv;
    return Some(argv), next;
  }

  lemma AppendOne(argv: Argv, arg: Blob)
    ensures forall more: Argv :: argv + ([arg] + more) == argv + [arg] + more
  {}

  /** loadAppendOnlyFile, up to the execution of the commands. */
  method LoadAppendOnlyFile(file: seq<byte>) returns (r: Option<seq<Argv>>)
    ensures r == Load(file)
  {
    hide OneCommand;
    var out: seq<Argv> := [];
    var pos := 0;
    assert file[0..] == file && forall more: seq<Argv> :: out + more == more;
    while pos < |file|
      invariant pos <= |file|
      invariant match Load(file[pos..])
                case None => Load(file) == None
                case Some(more) => Load(file) == Some(out + more)
      decreases |file| - pos
    {
      ghost var before := file[pos..];
      var argv, next := LoadCommand(file, pos);
      if argv == None {
        return None;
      }
      Commands(out, argv.value);
      out := out + [argv.value];
      pos := next;
    }
    assert out + [] == out;
    return Some(out);
  }

  lemma Commands(out: seq<Argv>, c: Argv)
    ensures forall more: seq<Argv> :: out + ([c] + more) == out + [c] + more
  {}

  // ----- Loading what has been written

  /** The number of arguments is an int. */
  predicate Loadable(cmds: seq<Argv>) {
    forall i :: 0 <= i < |cmds| ==> 0 < |cmds[i]| < 0x8000_0000
  }

  lemma {:induction false} FgetsTakes(s: seq<byte>, size: nat, k: nat)
    requires 0 < k <= |s| && k < size && (forall i :: 0 <= i < k - 1 ==> s[i] != 10) && (k == |s| || s[k - 1] == 10)
    ensures FgetsLength(s, size) == k
  {
    if k > 1 {
      FgetsTakes(s[1..], size - 1, k - 1);
    }
  }

  lemma LineShape(mark: byte, n: nat)
    requires n <= LLONG_MAX && mark != 10
    ensures var l := Networking.Line(mark, n);
            && 4 <= |l| < 128 && l[0] == mark && l[|l| - 1] == 10 && (forall i :: 0 <= i < |l| - 1 ==> l[i] != 10)
            && l[1..] == Digits(n) + [13, 10]
  {
    TextShort(n);
    var l := Networking.Line(mark, n);
    assert forall i :: 1 <= i < |l| - 2 ==> l[i] == Digits(n)[i - 1];
  }

  lemma LineReads(mark: byte, n: nat, rest: seq<byte>)
    requires n <= LLONG_MAX && mark != 10
    ensures Line(Networking.Line(mark, n) + rest, mark) == Some(Piece(Digits(n) + [13, 10], rest))
  {
    hide Networking.Line;
    LineShape(mark, n);
    var l := Networking.Line(mark, n);
    FgetsTakes(l + rest, 128, |l|);
    DropAppend(l, rest);
    assert (l + rest)[1..|l|] == l[1..];
  }

  lemma ArgumentReads(arg: Blob, rest: seq<byte>)
    ensures Argument(Networking.Line(DOLLAR, |arg|) + arg + [13, 10] + rest) == Some(Piece(arg, rest))
  {
    hide Networking.Line, Strtol;
    var line, tail := Networking.Line(DOLLAR, |arg|), arg + [13, 10] + rest;
    assert line + arg + [13, 10] + rest == line + tail;
    LineReads(DOLLAR, |arg|, tail);
    StrtolReads(|arg|, [13, 10]);
    assert tail[..|arg|] == arg && tail[|arg| + 2..] == rest;
  }

  /** An argument that is not all there is not loaded. */
  lemma TornArgument(arg: Blob, k: nat)
    requires k < |Networking.Line(DOLLAR, |arg|)| + |arg| + 2
    ensures Argument((Networking.Line(DOLLAR, |arg|) + arg + [13, 10])[..k]) == None
  {
    hide Networking.Line, Strtol;
    var line := Networking.Line(DOLLAR, |arg|);
    var s := (line + arg + [13, 10])[..k];
    LineShape(DOLLAR, |arg|);
    if 0 < k < |line| {
      assert s == line[..k];
      FgetsTakes(s, 128, k);
      assert s[k..] == [];
    } else if k > 0 {
      var part := (arg + [13, 10])[..k - |line|];
      assert s == line + part;
      LineReads(DOLLAR, |arg|, part);
      StrtolReads(|arg|, [13, 10]);
    }
  }

  lemma {:induction false} ArgumentsRead(args: Argv, rest: seq<byte>)
    ensures Arguments(Networking.EncodeArgs(args) + rest, |args|) == Some(Piece(args, rest))
  {
    hide Networking.Line, Argument;
    if args == [] {
      assert Networking.EncodeArgs(args) + rest == rest;
    } else {
      var more := Networking.EncodeArgs(args[1..]);
      Assoc(Networking.Line(DOLLAR, |args[0]|) + args[0] + [13, 10], more, rest);
      ArgumentReads(args[0], more + rest);
      ArgumentsRead(args[1..], rest);
      assert [args[0]] + args[1..] == args;
    }
  }

  lemma {:induction false} TornArguments(args: Argv, k: nat)
    requires k < |Networking.EncodeArgs(args)|
    ensures Arguments(Networking.EncodeArgs(args)[..k], |args|) == None
  {
    hide Networking.Line, Argument;
    var first, more := Networking.Line(DOLLAR, |args[0]|) + args[0] + [13, 10], Networking.EncodeArgs(args[1..]);
    assert Networking.EncodeArgs(args) == first + more;
    if k < |first| {
      assert (first + more)[..k] == first[..k];
      TornArgument(args[0], k);
    } else {
      assert (first + more)[..k] == first + more[..k - |first|];
      ArgumentReads(args[0], more[..k - |first|]);
      TornArguments(args[1..], k - |first|);
    }
  }

  lemma CommandReads(cmd: Argv, rest: seq<byte>)
    requires 0 < |cmd| < 0x8000_0000
    ensures OneCommand(Networking.Encode(cmd) + rest) == Some(Piece(cmd, rest))
  {
    hide Networking.Line, Strtol, Atoi, Networking.EncodeArgs;
    Assoc(Networking.Line(STAR, |cmd|), Networking.EncodeArgs(cmd), rest);
    LineReads(STAR, |cmd|, Networking.EncodeArgs(cmd) + rest);
    StrtolReads(|cmd|, [13, 10]);
    ArgumentsRead(cmd, rest);
  }

  /** A command that is not all there is not loaded, wherever it ends. */
  lemma TornCommand(cmd: Argv, k: nat)
    requires 0 < |cmd| < 0x8000_0000 && 0 < k < |Networking.Encode(cmd)|
    ensures OneCommand(Networking.Encode(cmd)[..k]) == None
  {
    hide Networking.Line, Strtol, Atoi, Networking.EncodeArgs;
    var line, args := Networking.Line(STAR, |cmd|), Networking.EncodeArgs(cmd);
    LineShape(STAR, |cmd|);
    if k < |line| {
      var s := line[..k];
      assert (line + args)[..k] == s;
      FgetsTakes(s, 128, k);
      assert s[k..] == [] && Argument([]) == None;
      assert forall n: nat :: n > 0 ==> Arguments([], n) == None;
    } else {
      assert (line + args)[..k] == line + args[..k - |line|];
      LineReads(STAR, |cmd|, args[..k - |line|]);
      StrtolReads(|cmd|, [13, 10]);
      TornArguments(cmd, k - |line|);
    }
  }

  /** What has been written is loaded, with whatever comes after it. */
  lemma {:induction false} LoadReads(cmds: seq<Argv>, rest: seq<byte>)
    requires Loadable(cmds)
    ensures Load(Networking.EncodeAll(cmds) + rest) == match Load(rest) case None => None case Some(more) => Some(cmds + more)
  {
    hide Networking.Encode, OneCommand;
    if cmds == [] {
      assert Networking.EncodeAll(cmds) + rest == rest;
      assert forall more: seq<Argv> :: cmds + more == more;
    } else {
      Assoc(Networking.Encode(cmds[0]), Networking.EncodeAll(cmds[1..]), rest);
      NotEmpty(cmds[0]);
      CommandReads(cmds[0], Networking.EncodeAll(cmds[1..]) + rest);
      LoadReads(cmds[1..], rest);
      assert forall more: seq<Argv> :: [cmds[0]] + (cmds[1..] + more) == cmds + more;
    }
  }

  lemma NotEmpty(cmd: seq<seq<byte>>)
    ensures Networking.Encode(cmd) != []
  {}

  /** After `k` bytes a command has just ended. */
  ghost predicate AtBoundary(cmds: seq<Argv>, k: nat) {
    exists i: nat :: i <= |cmds| && k == |Networking.EncodeAll(cmds[..i])|
  }

  lemma {:induction false} EncodeAllAppend(a: seq<Networking.Argv>, b: seq<Networking.Argv>)
    ensures Networking.EncodeAll(a + b) == Networking.EncodeAll(a) + Networking.EncodeAll(b)
  {
    hide Networking.Encode;
    if a == [] {
      assert a + b == b;
    } else {
      EncodeAllAppend(a[1..], b);
      assert (a + b)[1..] == a[1..] + b;
      Assoc(Networking.Encode(a[0]), Networking.EncodeAll(a[1..]), Networking.EncodeAll(b));
    }
  }

  /** The position up to which the commands are complete after `k` bytes. */
  lemma {:induction false} CompleteUpTo(cmds: seq<Argv>, k: nat) returns (i: nat)
    requires k <= |Networking.EncodeAll(cmds)|
    ensures i <= |cmds| && |Networking.EncodeAll(cmds[..i])| <= k
    ensures i < |cmds| ==> k < |Networking.EncodeAll(cmds[..i])| + |Networking.Encode(cmds[i])|
    ensures i == |cmds| ==> k == |Networking.EncodeAll(cmds[..i])|
  {
    hide Networking.Encode;
    if cmds == [] || k < |Networking.Encode(cmds[0])| {
      i := 0;
    } else {
      i := CompleteUpTo(cmds[1..], k - |Networking.Encode(cmds[0])|);
      assert cmds[..i + 1][1..] == cmds[1..][..i];
      i := i + 1;
    }
  }

  /**
   A file whose last write has stopped after any number of bytes is loaded exactly when that is where a command ends, and
   is then loaded as the commands up to there.
   */
  lemma TornFile(cmds: seq<Argv>, k: nat) returns (i: nat)
    requires Loadable(cmds) && k <= |Networking.EncodeAll(cmds)|
    ensures Load(Networking.EncodeAll(cmds)[..k]).Some? <==> AtBoundary(cmds, k)
    ensures i < |cmds| ==> k < |Networking.EncodeAll(cmds[..i + 1])|
    ensures i <= |cmds| && (AtBoundary(cmds, k) ==> k == |Networking.EncodeAll(cmds[..i])| && Load(Networking.EncodeAll(cmds)[..k]) == Some(cmds[..i]))
  {
    hide Networking.Encode, Networking.EncodeAll, Load, OneCommand;
    i := CompleteUpTo(cmds, k);
    if i < |cmds| {
      NextEncoded(cmds, i);
    }
    var done, part := Networking.EncodeAll(cmds[..i]), k - |Networking.EncodeAll(cmds[..i])|;
    assert cmds == cmds[..i] + cmds[i..];
    EncodeAllAppend(cmds[..i], cmds[i..]);
    var rest := Networking.EncodeAll(cmds[i..]);
    assert (done + rest)[..k] == done + rest[..part];
    LoadReads(cmds[..i], rest[..part]);
    if part == 0 {
      LoadNothing();
      assert rest[..0] == [] && cmds[..i] + [] == cmds[..i];
    } else {
      TornRest(cmds[i..], part);
      BoundaryIs(cmds, k, i);
    }
  }

  lemma {:induction false} LoadLoadable(s: seq<byte>)
    ensures Load(s).Some? ==> Loadable(Load(s).value)
    decreases |s|
  {
    if s != [] && OneCommand(s).Some? {
      LoadLoadable(OneCommand(s).value.rest);
    }
  }

  lemma LoadNothing()
    ensures Load([]) == Some([])
  {}

  lemma TornRest(cmds: seq<Argv>, k: nat)
    requires Loadable(cmds) && cmds != [] && 0 < k < |Networking.Encode(cmds[0])|
    ensures k <= |Networking.EncodeAll(cmds)| && Load(Networking.EncodeAll(cmds)[..k]) == None
  {
    hide Networking.Encode, OneCommand;
    var s := Networking.EncodeAll(cmds)[..k];
    assert s == Networking.Encode(cmds[0])[..k];
    TornCommand(cmds[0], k);
  }

  lemma BoundaryIs(cmds: seq<Argv>, k: nat, i: nat)
    requires i < |cmds| && |Networking.EncodeAll(cmds[..i])| < k < |Networking.EncodeAll(cmds[..i])| + |Networking.Encode(cmds[i])|
    ensures !AtBoundary(cmds, k)
  {
    hide Networking.Encode, Networking.EncodeAll;
    if AtBoundary(cmds, k) {
      var j: nat :| j <= |cmds| && k == |Networking.EncodeAll(cmds[..j])|;
      if j <= i {
        LongerWithMore(cmds, j, i);
      } else {
        LongerWithMore(cmds, i + 1, j);
        NextEncoded(cmds, i);
      }
    }
  }

  lemma LongerWithMore(cmds: seq<Argv>, i: nat, j: nat)
    requires i <= j <= |cmds|
    ensures |Networking.EncodeAll(cmds[..i])| <= |Networking.EncodeAll(cmds[..j])|
  {
    assert cmds[..j] == cmds[..i] + cmds[i..j];
    EncodeAllAppend(cmds[..i], cmds[i..j]);
  }

  lemma NextEncoded(cmds: seq<Argv>, i: nat)
    requires i < |cmds|
    ensures |Networking.EncodeAll(cmds[..i + 1])| == |Networking.EncodeAll(cmds[..i])| + |Networking.Encode(cmds[i])|
  {
    hide Networking.Encode;
    assert cmds[..i + 1] == cmds[..i] + [cmds[i]];
    EncodeAllAppend(cmds[..i], [cmds[i]]);
    assert Networking.EncodeAll([cmds[i]]) == Networking.Encode(cmds[i]) + Networking.EncodeAll([cmds[i]][1..]);
  }
}
