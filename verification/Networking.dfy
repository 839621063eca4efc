/**
 The incremental command parser of a client connection (networking.c).  Its meaning is given by a machine that works
 on whole byte streams; the machine is proved independent of how a stream is cut into reads and exact on well-formed
 commands, and the client's methods are proved to carry on the run of that machine.
 */
module Networking {
  import opened Bytes
  import opened Decimal

  const REDIS_IOBUF_LEN := 1024 * 16           // the most that one read brings
  const REDIS_INLINE_MAX_SIZE := 1024 * 64
  const MAX_ARGUMENTS := 1024 * 1024
  const MAX_BULK := 512 * 1024 * 1024

  const CR: byte := 13
  const LF: byte := 10
  const STAR: byte := 42
  const DOLLAR: byte := 36
  const SPACE: byte := 32

  type Argv = seq<seq<byte>>

  // ----- Searching a buffer

  /** strchr(s, '\r'): the first carriage return, unless the string ends with a zero byte before it. */
  function FindCR(s: seq<byte>): (r: Option<nat>)
    ensures r.Some? ==> r.value < |s| && s[r.value] == CR && forall i :: 0 <= i < r.value ==> s[i] != CR && s[i] != 0
  {
    if s == [] || s[0] == 0 then None
    else if s[0] == CR then Some(0)
    else match FindCR(s[1..])
      case None => None
      case Some(i) => Some(i + 1)
  }

  /** strstr(s, "\r\n"). */
  function FindCRLF(s: seq<byte>): (r: Option<nat>)
    ensures r.Some? ==> r.value + 2 <= |s| && s[r.value] == CR && s[r.value + 1] == LF
  {
    if |s| < 2 || s[0] == 0 then None
    else if s[0] == CR && s[1] == LF then Some(0)
    else match FindCRLF(s[1..])
      case None => None
      case Some(i) => Some(i + 1)
  }

  lemma {:induction false} FindCRIs(s: seq<byte>, i: nat)
    requires i < |s| && s[i] == CR && forall j :: 0 <= j < i ==> s[j] != CR && s[j] != 0
    ensures FindCR(s) == Some(i)
  {
    if i > 0 {
      FindCRIs(s[1..], i - 1);
    }
  }

  lemma {:induction false} FindCRLFStable(s: seq<byte>, t: seq<byte>)
    requires FindCRLF(s).Some?
    ensures FindCRLF(s + t) == FindCRLF(s)
  {
    if !(s[0] == CR && s[1] == LF) {
      FindCRLFStable(s[1..], t);
      assert (s + t)[1..] == s[1..] + t;
    }
  }

  lemma FindCRStable(s: seq<byte>, t: seq<byte>)
    requires FindCR(s).Some?
    ensures FindCR(s + t) == FindCR(s)
  {
    FindCRIs(s + t, FindCR(s).value);
  }

  // ----- Inline commands

  /** sdssplitlen by a space, the empty words being dropped. */
  function Words(s: seq<byte>, word: seq<byte>): (r: Argv) {
    var done := if word == [] then [] else [word];
    if s == [] then done
    else if s[0] == SPACE then done + Words(s[1..], [])
    else Words(s[1..], word + [s[0]])
  }

  // ----- The machine on byte streams

  /** How far the current command has come: arguments still to come, the announced length of the next (or -1), those read. */
  datatype State = State(multibulklen: nat, bulklen: int, argv: Argv)

  const Idle := State(0, -1, [])

  datatype Progress =
    | Wait                                                // nothing can be done without more bytes
    | WaitLine                                            // the same, because a line is not finished
    | Fail                                                // protocol error
    | Go(st: State, n: nat, cmd: Option<Argv>)            // n bytes are used up; a command may be complete

  function CountHeader(buf: seq<byte>): (p: Progress)
    requires buf != []
    ensures p.Go? ==> 0 < p.n <= |buf|
  {
    match FindCR(buf)
    case None => WaitLine
    case Some(newline) =>
      if newline > |buf| - 2 then Wait
      else if newline == 0 then Fail
      else
        match Parse(buf[1..newline])
        case None => Fail
        case Some(ll) =>
          if ll > MAX_ARGUMENTS then Fail
          else if ll <= 0 then Go(Idle, newline + 2, None)
          else Go(State(ll, -1, []), newline + 2, None)
  }

  function BulkHeader(st: State, buf: seq<byte>): (p: Progress)
    ensures p.Go? ==> 0 < p.n <= |buf| && p.st == State(st.multibulklen, p.st.bulklen, st.argv) && 0 <= p.st.bulklen && p.cmd == None
  {
    match FindCR(buf)
    case None => WaitLine
    case Some(newline) =>
      if newline > |buf| - 2 then Wait
      else if buf[0] != DOLLAR then Fail
      else
        match Parse(buf[1..newline])
        case None => Fail
        case Some(ll) =>
          if ll < 0 || ll > MAX_BULK then Fail else Go(State(st.multibulklen, ll, st.argv), newline + 2, None)
  }

  function BulkData(st: State, buf: seq<byte>): (p: Progress)
    requires st.multibulklen > 0 && st.bulklen >= 0
    ensures p.Go? ==> 0 < p.n <= |buf|
  {
    if |buf| < st.bulklen + 2 then Wait
    else
      var argv := st.argv + [buf[..st.bulklen]];
      if st.multibulklen == 1 then Go(Idle, st.bulklen + 2, Some(argv))
      else Go(State(st.multibulklen - 1, -1, argv), st.bulklen + 2, None)
  }

  function InlineLine(buf: seq<byte>): (p: Progress)
    ensures p.Go? ==> 0 < p.n <= |buf|
  {
    match FindCRLF(buf)
    case None => WaitLine
    case Some(newline) =>
      var argv := Words(buf[..newline], []);
      Go(Idle, newline + 2, if argv == [] then None else Some(argv))
  }

  /** One unit of input: a line or the data of an argument. */
  function UnitStep(st: State, buf: seq<byte>): (p: Progress)
    ensures p.Go? ==> 0 < p.n <= |buf|
  {
    if st.multibulklen > 0 then (if st.bulklen < 0 then BulkHeader(st, buf) else BulkData(st, buf))
    else if buf == [] then Wait
    else if buf[0] == STAR then CountHeader(buf)
    else InlineLine(buf)
  }

  /** What a run over some bytes ends with: the state, the bytes left, the commands dispatched, and whether it failed. */
  datatype Outcome = Outcome(st: State, rest: seq<byte>, cmds: seq<Argv>, failed: bool)

  function Then(cmds: seq<Argv>, o: Outcome): Outcome {
    o.(cmds := cmds + o.cmds)
  }

  function ToSeq<T>(o: Option<T>): seq<T> {
    match o
    case None => []
    case Some(x) => [x]
  }

  function Run(st: State, buf: seq<byte>): Outcome
    decreases |buf|
  {
    match UnitStep(st, buf)
    case Go(st', n, cmd) => Then(ToSeq(cmd), Run(st', buf[n..]))
    case Fail => Outcome(st, buf, [], true)
    case _ => Outcome(st, buf, [], false)
  }

  lemma ThenThen(a: seq<Argv>, b: seq<Argv>, o: Outcome)
    ensures Then(a, Then(b, o)) == Then(a + b, o) && Then([], o) == o
  {}

  /** What can be done with some bytes is done in the same way when more bytes are there. */
  lemma UnitStable(st: State, a: seq<byte>, b: seq<byte>)
    requires UnitStep(st, a).Go? || UnitStep(st, a).Fail?
    ensures UnitStep(st, a + b) == UnitStep(st, a)
  {
    var ab := a + b;
    if FindCR(a).Some? {
      FindCRStable(a, b);
      assert FindCR(a).value > 0 ==> ab[1..FindCR(a).value] == a[1..FindCR(a).value];
    }
    if FindCRLF(a).Some? {
      FindCRLFStable(a, b);
      assert ab[..FindCRLF(a).value] == a[..FindCRLF(a).value];
    }
    if st.multibulklen > 0 && st.bulklen >= 0 {
      assert ab[..st.bulklen] == a[..st.bulklen];
    }
  }

  /** The run over a stream does not depend on where it is cut: run the first part, then go on with what it left. */
  lemma {:induction false} RunAppend(st: State, a: seq<byte>, b: seq<byte>)
    ensures var o := Run(st, a);
            Run(st, a + b) == Then(o.cmds, Run(o.st, o.rest + b))
    decreases |a|
  {
    var p := UnitStep(st, a);
    if p.Go? {
      UnitStable(st, a, b);
      RunAppend(p.st, a[p.n..], b);
      assert (a + b)[p.n..] == a[p.n..] + b;
      var o := Run(p.st, a[p.n..]);
      ThenThen(ToSeq(p.cmd), o.cmds, Run(o.st, o.rest + b));
    } else {
      ThenThen([], [], Run(st, a + b));
    }
  }

  /** A run stops only where no unit can be taken, so running on with what it left does nothing. */
  lemma {:induction false} RunStops(st: State, a: seq<byte>)
    ensures var o := Run(st, a);
            && !UnitStep(o.st, o.rest).Go? && (o.failed <==> UnitStep(o.st, o.rest).Fail?)
            && |o.rest| <= |a|
    decreases |a|
  {
    var p := UnitStep(st, a);
    if p.Go? {
      RunStops(p.st, a[p.n..]);
    }
  }

  // ----- The limit on unfinished lines

  /** The length of the buffer when the last command that was worked on was taken up (or gone on with). */
  function LastCall(st: State, buf: seq<byte>, start: nat): nat
    decreases |buf|
  {
    match UnitStep(st, buf)
    case Go(st', n, _) => LastCall(st', buf[n..], if st'.multibulklen == 0 then |buf| - n else start)
    case _ => start
  }

  /**
   The client is cut off, although its bytes are in order so far: a line is unfinished, and the buffer was longer than
   the limit when work on the current command began. Bytes of finished arguments count.
   */
  predicate CutOff(st: State, buf: seq<byte>) {
    var o := Run(st, buf);
    UnitStep(o.st, o.rest) == WaitLine && LastCall(st, buf, |buf|) > REDIS_INLINE_MAX_SIZE
  }

  lemma {:induction false} LastCallBound(st: State, buf: seq<byte>, start: nat)
    requires start >= |buf|
    ensures LastCall(st, buf, start) <= start
    decreases |buf|
  {
    var p := UnitStep(st, buf);
    if p.Go? {
      LastCallBound(p.st, buf[p.n..], if p.st.multibulklen == 0 then |buf| - p.n else start);
    }
  }

  /** As long as the buffer stays within the limit nobody is cut off. */
  lemma WithinLimit(st: State, buf: seq<byte>)
    requires |buf| <= REDIS_INLINE_MAX_SIZE
    ensures !CutOff(st, buf)
  {
    LastCallBound(st, buf, |buf|);
  }

  /** The runs from two points are the same, up to what is dispatched between them. */
  predicate Continues(st: State, buf: seq<byte>, start: nat, cmds: seq<Argv>, st': State, buf': seq<byte>, start': nat) {
    && Run(st, buf) == Then(cmds, Run(st', buf'))
    && LastCall(st, buf, start) == LastCall(st', buf', start')
  }

  lemma ContinuesHere(st: State, buf: seq<byte>, start: nat)
    ensures Continues(st, buf, start, [], st, buf, start)
  {}

  lemma ContinuesStep(st: State, buf: seq<byte>, start: nat, cmds: seq<Argv>, st': State, buf': seq<byte>, start': nat)
    requires Continues(st, buf, start, cmds, st', buf', start') && UnitStep(st', buf').Go?
    ensures var p := UnitStep(st', buf');
            Continues(st, buf, start, cmds + ToSeq(p.cmd), p.st, buf'[p.n..], if p.st.multibulklen == 0 then |buf'| - p.n else start')
  {
    var p := UnitStep(st', buf');
    ThenThen(cmds, ToSeq(p.cmd), Run(p.st, buf'[p.n..]));
  }

  // ----- Well-formed commands

  predicate WellFormed(argv: Argv) {
    0 < |argv| <= MAX_ARGUMENTS && forall i :: 0 <= i < |argv| ==> |argv[i]| <= MAX_BULK
  }

  function Line(mark: byte, n: nat): seq<byte> {
    [mark] + Text(n) + [CR, LF]
  }

  function EncodeArgs(argv: Argv): seq<byte> {
    if argv == [] then [] else Line(DOLLAR, |argv[0]|) + argv[0] + [CR, LF] + EncodeArgs(argv[1..])
  }

  function Encode(argv: Argv): seq<byte> {
    Line(STAR, |argv|) + EncodeArgs(argv)
  }

  function EncodeAll(cmds: seq<Argv>): seq<byte> {
    if cmds == [] then [] else Encode(cmds[0]) + EncodeAll(cmds[1..])
  }

  lemma LineFound(mark: byte, n: nat, rest: seq<byte>)
    requires mark != CR && mark != 0 && n <= LLONG_MAX
    ensures var buf := Line(mark, n) + rest;
            && FindCR(buf) == Some(|Line(mark, n)| - 2) && Parse(buf[1..|Line(mark, n)| - 2]) == Some(n)
            && buf[|Line(mark, n)|..] == rest && buf[0] == mark && |Line(mark, n)| >= 4
  {
    var buf, i := Line(mark, n) + rest, |Line(mark, n)| - 2;
    assert buf[1..i] == Text(n);
    ParseExactlyTexts(Text(n), n);
    assert forall j :: 1 <= j < i ==> buf[j] == Text(n)[j - 1];
    FindCRIs(buf, i);
  }

  lemma ReadCount(n: nat, rest: seq<byte>, start: nat)
    requires 0 < n <= MAX_ARGUMENTS
    ensures Continues(Idle, Line(STAR, n) + rest, start, [], State(n, -1, []), rest, start)
  {
    LineFound(STAR, n, rest);
    ContinuesHere(Idle, Line(STAR, n) + rest, start);
    ContinuesStep(Idle, Line(STAR, n) + rest, start, [], Idle, Line(STAR, n) + rest, start);
  }

  lemma LengthStep(st: State, n: nat, tail: seq<byte>)
    requires st.multibulklen > 0 && st.bulklen == -1 && n <= MAX_BULK
    ensures UnitStep(st, Line(DOLLAR, n) + tail) == Go(State(st.multibulklen, n, st.argv), |Line(DOLLAR, n)|, None)
    ensures (Line(DOLLAR, n) + tail)[|Line(DOLLAR, n)|..] == tail
  {
    LineFound(DOLLAR, n, tail);
  }

  lemma DataStep(st: State, arg: seq<byte>, rest: seq<byte>)
    requires st.multibulklen > 0 && st.bulklen == |arg|
    ensures UnitStep(st, arg + [CR, LF] + rest)
         == if st.multibulklen == 1 then Go(Idle, |arg| + 2, Some(st.argv + [arg]))
            else Go(State(st.multibulklen - 1, -1, st.argv + [arg]), |arg| + 2, None)
    ensures (arg + [CR, LF] + rest)[|arg| + 2..] == rest
  {
    var tail := arg + [CR, LF] + rest;
    assert tail[..|arg|] == arg && tail[|arg| + 2..] == rest;
  }

  /** One argument is read from its encoding. */
  lemma ReadArgument(st: State, arg: seq<byte>, rest: seq<byte>, start: nat)
    requires st.multibulklen > 0 && st.bulklen == -1 && |arg| <= MAX_BULK
    ensures var buf := Line(DOLLAR, |arg|) + arg + [CR, LF] + rest;
            if st.multibulklen == 1 then Continues(st, buf, start, [st.argv + [arg]], Idle, rest, |rest|)
            else Continues(st, buf, start, [], State(st.multibulklen - 1, -1, st.argv + [arg]), rest, start)
  {
    hide UnitStep, Continues, Line;
    var tail := arg + [CR, LF] + rest;
    var buf := Line(DOLLAR, |arg|) + tail;
    assert Line(DOLLAR, |arg|) + arg + [CR, LF] + rest == buf;
    var st' := State(st.multibulklen, |arg|, st.argv);
    ContinuesHere(st, buf, start);
    LengthStep(st, |arg|, tail);
    ContinuesStep(st, buf, start, [], st, buf, start);
    DataStep(st', arg, rest);
    assert [] + ToSeq<Argv>(None) == [] && [] + ToSeq(Some(st.argv + [arg])) == [st.argv + [arg]];
    ContinuesStep(st, buf, start, [], st', tail, start);
  }

  /** Some, but not all, of the arguments of a command. */
  lemma {:induction false} ReadSomeArguments(n: nat, before: Argv, args: Argv, rest: seq<byte>, start: nat)
    requires |args| < n && forall i :: 0 <= i < |args| ==> |args[i]| <= MAX_BULK
    ensures Continues(State(n, -1, before), EncodeArgs(args) + rest, start, [], State(n - |args|, -1, before + args), rest, start)
    decreases |args|
  {
    hide UnitStep, Line, Then;
    if args == [] {
      assert EncodeArgs(args) + rest == rest && before + args == before;
      ContinuesHere(State(n, -1, before), rest, start);
    } else {
      var after := EncodeArgs(args[1..]) + rest;
      Assoc(Line(DOLLAR, |args[0]|) + args[0] + [CR, LF], EncodeArgs(args[1..]), rest);
      ReadArgument(State(n, -1, before), args[0], after, start);
      ReadSomeArguments(n - 1, before + [args[0]], args[1..], rest, start);
      assert before + [args[0]] + args[1..] == before + args;
      assert [] + [] == EmptyCommands;
      hide Continues;
      ContinuesThen(State(n, -1, before), EncodeArgs(args) + rest, start, [], State(n - 1, -1, before + [args[0]]), after, start,
                    [], State(n - |args|, -1, before + args), rest, start);
    }
  }

  const EmptyCommands: seq<Argv> := []

  lemma ContinuesThen(st: State, buf: seq<byte>, start: nat, cmds: seq<Argv>, st1: State, buf1: seq<byte>, start1: nat,
                      cmds1: seq<Argv>, st2: State, buf2: seq<byte>, start2: nat)
    requires Continues(st, buf, start, cmds, st1, buf1, start1) && Continues(st1, buf1, start1, cmds1, st2, buf2, start2)
    ensures Continues(st, buf, start, cmds + cmds1, st2, buf2, start2)
  {
    ThenThen(cmds, cmds1, Run(st2, buf2));
  }

  lemma {:induction false} EncodeArgsLast(args: Argv, last: seq<byte>)
    ensures EncodeArgs(args + [last]) == EncodeArgs(args) + EncodeArgs([last])
  {
    if args == [] {
      assert args + [last] == [last];
    } else {
      EncodeArgsLast(args[1..], last);
      assert (args + [last])[1..] == args[1..] + [last];
      Assoc(Line(DOLLAR, |args[0]|) + args[0] + [CR, LF], EncodeArgs(args[1..]), EncodeArgs([last]));
    }
  }

  lemma ReadArguments(argv: Argv, rest: seq<byte>, start: nat)
    requires WellFormed(argv)
    ensures Continues(State(|argv|, -1, []), EncodeArgs(argv) + rest, start, [argv], Idle, rest, |rest|)
  {
    assert [] + argv == argv;
    ReadLastArguments(|argv|, [], argv, rest, start);
  }

  lemma SplitArguments(args: Argv, last: seq<byte>, rest: seq<byte>)
    ensures EncodeArgs(args + [last]) + rest == EncodeArgs(args) + (EncodeArgs([last]) + rest)
    ensures EncodeArgs([last]) + rest == Line(DOLLAR, |last|) + last + [CR, LF] + rest
  {
    hide Line;
    EncodeArgsLast(args, last);
    Assoc(EncodeArgs(args), EncodeArgs([last]), rest);
    assert EncodeArgs([last]) == Line(DOLLAR, |last|) + last + [CR, LF] + EncodeArgs([]);
  }

  lemma ReadCommand(argv: Argv, rest: seq<byte>)
    requires WellFormed(argv)
    ensures Run(Idle, Encode(argv) + rest) == Then([argv], Run(Idle, rest))
  {
    ReadCount(|argv|, EncodeArgs(argv) + rest, 0);
    Assoc(Line(STAR, |argv|), EncodeArgs(argv), rest);
    ReadArguments(argv, rest, 0);
    ThenThen([], [argv], Run(Idle, rest));
  }

  /** The commands dispatched from a stream of well-formed commands are those commands. */
  lemma {:induction false} ReadCommands(cmds: seq<Argv>, rest: seq<byte>)
    requires forall i :: 0 <= i < |cmds| ==> WellFormed(cmds[i])
    ensures Run(Idle, EncodeAll(cmds) + rest) == Then(cmds, Run(Idle, rest))
  {
    if cmds == [] {
      assert EncodeAll(cmds) + rest == rest;
    } else {
      Assoc(Encode(cmds[0]), EncodeAll(cmds[1..]), rest);
      ReadCommand(cmds[0], EncodeAll(cmds[1..]) + rest);
      ReadCommands(cmds[1..], rest);
      assert [cmds[0]] + cmds[1..] == cmds;
      ThenThen([cmds[0]], cmds[1..], Run(Idle, rest));
    }
  }

  /** What has been received of a stream of well-formed commands never fails and dispatches the first of them. */
  lemma PrefixRuns(cmds: seq<Argv>, received: seq<byte>, more: seq<byte>)
    requires (forall i :: 0 <= i < |cmds| ==> WellFormed(cmds[i])) && received + more == EncodeAll(cmds)
    ensures !Run(Idle, received).failed && Run(Idle, received).cmds <= cmds
    ensures more == [] ==> Run(Idle, received) == Outcome(Idle, [], cmds, false)
  {
    var o := Run(Idle, received);
    RunAppend(Idle, received, more);
    ReadCommands(cmds, []);
    assert EncodeAll(cmds) + [] == EncodeAll(cmds);
    assert cmds + [] == cmds;
    RunStops(Idle, received);
    if o.failed {
      UnitStable(o.st, o.rest, more);
    }
    assert more == [] ==> received + more == received;
  }

  /** No command waits once all its bytes are there. */
  lemma CompleteCommandsRun(cmds: seq<Argv>, part: seq<byte>)
    requires forall i :: 0 <= i < |cmds| ==> WellFormed(cmds[i])
    ensures cmds <= Run(Idle, EncodeAll(cmds) + part).cmds
  {
    ReadCommands(cmds, part);
  }

  /** The line that comes between two arguments, or between two commands. */
  function NextLine(finished: bool, m: nat): seq<byte> {
    Line(if finished then STAR else DOLLAR, m)
  }

  /**
   The limit meant for unfinished lines also cuts off a client that has broken no rule: the argument whose bytes it has
   been sending is finished, possibly with some more and `k` bytes of the line after them; the command is not finished,
   that line lacks more than its last byte, and all these bytes exceed the limit together.
   */
  lemma CutBetweenArguments(n: nat, before: Argv, arg: seq<byte>, args: Argv, m: nat, k: nat)
    requires |args| < n && |arg| <= MAX_BULK && forall i :: 0 <= i < |args| ==> |args[i]| <= MAX_BULK
    requires m <= MAX_BULK && k < |NextLine(|args| + 1 == n, m)|
    ensures var line := NextLine(|args| + 1 == n, m);
            var q := arg + [CR, LF] + (EncodeArgs(args) + line[..k]);
            CutOff(State(n, |arg|, before), q) <==> |args| + 1 < n && k + 1 < |line| && |q| > REDIS_INLINE_MAX_SIZE
  {
    hide EncodeArgs, Then, Line, Continues, CutOff;
    var part := NextLine(|args| + 1 == n, m)[..k];
    var tail := EncodeArgs(args) + part;
    var q, st := arg + [CR, LF] + tail, State(n, |arg|, before);
    DataStep(st, arg, tail);
    ContinuesHere(st, q, |q|);
    ContinuesStep(st, q, |q|, [], st, q, |q|);
    if n > 1 {
      var st' := State(n - 1, -1, before + [arg]);
      assert [] + ToSeq<Argv>(None) == [] && [] + EmptyCommands == [];
      if |args| < n - 1 {
        ReadSomeArguments(n - 1, before + [arg], args, part, |q|);
        ContinuesThen(st, q, |q|, [], st', tail, |q|, [], State(n - 1 - |args|, -1, before + [arg] + args), part, |q|);
        EndsInLine(st, q, [], State(n - 1 - |args|, -1, before + [arg] + args), false, m, k, |q|);
      } else {
        ReadLastArguments(n - 1, before + [arg], args, part, |q|);
        ContinuesThen(st, q, |q|, [], st', tail, |q|, [before + [arg] + args], Idle, part, |part|);
        assert [] + [before + [arg] + args] == [before + [arg] + args];
        EndsInLine(st, q, [before + [arg] + args], Idle, true, m, k, |part|);
      }
    } else {
      NoArguments();
      assert [] + part == part && [] + ToSeq(Some(before + [arg])) == [before + [arg]];
      EndsInLine(st, q, [before + [arg]], Idle, true, m, k, |part|);
    }
  }

  /** The same for a client whose bytes begin with a line between two arguments. */
  lemma CutFromLine(n: nat, before: Argv, args: Argv, m: nat, k: nat)
    requires 0 < |args| <= n && forall i :: 0 <= i < |args| ==> |args[i]| <= MAX_BULK
    requires m <= MAX_BULK && k < |NextLine(|args| == n, m)|
    ensures var line := NextLine(|args| == n, m);
            var q := EncodeArgs(args) + line[..k];
            CutOff(State(n, -1, before), q) <==> |args| < n && k + 1 < |line| && |q| > REDIS_INLINE_MAX_SIZE
  {
    hide EncodeArgs, Then, Line, Continues, CutOff;
    var part := NextLine(|args| == n, m)[..k];
    var q, st := EncodeArgs(args) + part, State(n, -1, before);
    if |args| < n {
      ReadSomeArguments(n, before, args, part, |q|);
      EndsInLine(st, q, [], State(n - |args|, -1, before + args), false, m, k, |q|);
    } else {
      ReadLastArguments(n, before, args, part, |q|);
      EndsInLine(st, q, [before + args], Idle, true, m, k, |part|);
    }
  }

  lemma {:induction false} NoCR(s: seq<byte>)
    requires CR !in s
    ensures FindCR(s) == None
  {
    if s != [] {
      NoCR(s[1..]);
    }
  }

  /** The first bytes of a line: they wait for the line to be finished, or for its last byte. */
  lemma PartOfLine(mark: byte, m: nat, k: nat)
    requires mark != CR && mark != 0 && m <= MAX_BULK && k < |Line(mark, m)|
    ensures |Line(mark, m)| <= 24
    ensures FindCR(Line(mark, m)[..k]) == if k + 1 < |Line(mark, m)| then None else Some(k - 1)
  {
    TextShort(m);
    var part := Line(mark, m)[..k];
    assert forall i :: 1 <= i < k && i < |Line(mark, m)| - 2 ==> part[i] == Text(m)[i - 1];
    if k + 1 < |Line(mark, m)| {
      NoCR(part);
    } else {
      FindCRIs(part, k - 1);
    }
  }

  /** Where the bytes end with a part of a line. */
  lemma EndsInLine(st: State, q: seq<byte>, cmds: seq<Argv>, st': State, finished: bool, m: nat, k: nat, start: nat)
    requires m <= MAX_BULK && k < |NextLine(finished, m)|
    requires Continues(st, q, |q|, cmds, st', NextLine(finished, m)[..k], start)
    requires if finished then st' == Idle && start == k else st'.multibulklen > 0 && st'.bulklen == -1
    ensures CutOff(st, q) <==> !finished && k + 1 < |NextLine(finished, m)| && start > REDIS_INLINE_MAX_SIZE
  {
    var line := NextLine(finished, m);
    PartOfLine(if finished then STAR else DOLLAR, m, k);
    assert k > 0 ==> line[..k][0] == line[0] == if finished then STAR else DOLLAR;
    hide Line, FindCR;
  }

  lemma NoArguments()
    ensures EncodeArgs([]) == []
  {}

  /** The arguments that were still to come, all of them. */
  lemma ReadLastArguments(n: nat, before: Argv, args: Argv, rest: seq<byte>, start: nat)
    requires |args| == n > 0 && forall i :: 0 <= i < |args| ==> |args[i]| <= MAX_BULK
    ensures Continues(State(n, -1, before), EncodeArgs(args) + rest, start, [before + args], Idle, rest, |rest|)
  {
    hide UnitStep, Line, Then, Continues;
    var most, last := args[..n - 1], args[n - 1];
    assert args == most + [last] && before + args == before + most + [last];
    SplitArguments(most, last, rest);
    var tail := EncodeArgs([last]) + rest;
    assert [] + [before + args] == [before + args];
    ReadSomeArguments(n, before, most, tail, start);
    ReadArgument(State(1, -1, before + most), last, rest, start);
    ContinuesThen(State(n, -1, before), EncodeArgs(args) + rest, start, [], State(1, -1, before + most), tail, start, [before + args], Idle, rest, |rest|);
  }

  /** The state inside processMultibulkBuffer, `pos` bytes being used up. */
  ghost predicate InProgress(st0: State, buf0: seq<byte>, pos: nat, st: State) {
    && pos <= |buf0| && st.bulklen >= -1
    && (st.multibulklen > 0 ==> Continues(st0, buf0, |buf0|, [], st, buf0[pos..], |buf0|))
    && (st.multibulklen == 0 ==> pos > 0 && st.bulklen == -1
                                 && Continues(st0, buf0, |buf0|, Complete(st.argv), Idle, buf0[pos..], |buf0| - pos))
  }

  function Complete(argv: Argv): seq<Argv> {
    if argv == [] then [] else [argv]
  }

  /** The unit taken from `st` leads to `st'`, in which a finished command is still to be dispatched. */
  predicate Takes(st: State, rest: seq<byte>, st': State, n: nat) {
    if st'.multibulklen > 0 then UnitStep(st, rest) == Go(st', n, None)
    else st'.bulklen == -1 && UnitStep(st, rest) == Go(Idle, n, if st'.argv == [] then None else Some(st'.argv))
  }

  lemma StillInProgress(st0: State, buf0: seq<byte>, pos: nat, st: State, st': State, next: nat)
    requires InProgress(st0, buf0, pos, st) && st.multibulklen > 0 && pos < next <= |buf0| && st'.bulklen >= -1
    requires Takes(st, buf0[pos..], st', next - pos)
    ensures InProgress(st0, buf0, next, st')
  {
    hide Continues, UnitStep;
    ContinuesStep(st0, buf0, |buf0|, [], st, buf0[pos..], |buf0|);
    DropDrop(buf0, pos, next - pos);
    if st'.multibulklen > 0 {
      assert [] + ToSeq<Argv>(None) == [];
    } else {
      assert Complete(st'.argv) == [] + ToSeq(if st'.argv == [] then None else Some(st'.argv));
      assert |buf0[pos..]| - (next - pos) == |buf0| - next;
    }
  }

  lemma StartInProgress(st0: State, buf0: seq<byte>, pos: nat, st: State)
    requires pos <= |buf0| && st.bulklen >= -1
    requires if pos == 0 then st0 == st && st.multibulklen > 0 else st0 == Idle && Takes(Idle, buf0, st, pos)
    ensures InProgress(st0, buf0, pos, st)
  {
    hide Continues, UnitStep;
    ContinuesHere(st0, buf0, |buf0|);
    assert buf0[0..] == buf0;
    if pos > 0 {
      ContinuesStep(st0, buf0, |buf0|, [], st0, buf0, |buf0|);
    }
    assert Complete(st.argv) == [] + ToSeq(if st.argv == [] then None else Some(st.argv));
  }

  lemma InProgressEnds(st0: State, buf0: seq<byte>, pos: nat, st: State)
    requires InProgress(st0, buf0, pos, st)
    ensures pos <= |buf0| && st.bulklen >= -1
  {}

  /** What ends the connection at a unit of input, in a call that began with `size` bytes in the buffer. */
  predicate LineFails(st: State, rest: seq<byte>, size: nat) {
    UnitStep(st, rest).Fail? || (UnitStep(st, rest).WaitLine? && size > REDIS_INLINE_MAX_SIZE)
  }

  lemma InlineContinues(buf: seq<byte>, argv: Argv)
    requires buf != [] && buf[0] != STAR
    ensures var p := UnitStep(Idle, buf);
            if p.Go? then p.cmd == (if argv == [] then None else Some(argv)) ==>
              Continues(Idle, buf, |buf|, Complete(argv), Idle, buf[p.n..], |buf| - p.n)
            else Continues(Idle, buf, |buf|, [], Idle, buf, |buf|)
  {
    ContinuesHere(Idle, buf, |buf|);
    if UnitStep(Idle, buf).Go? {
      ContinuesStep(Idle, buf, |buf|, [], Idle, buf, |buf|);
    }
  }

  lemma ContinuesRun(st: State, buf: seq<byte>, start: nat, cmds: seq<Argv>, st': State, buf': seq<byte>, start': nat, before: seq<Argv>)
    requires Continues(st, buf, start, cmds, st', buf', start')
    ensures Then(before, Run(st, buf)) == Then(before + cmds, Run(st', buf'))
  {
    ThenThen(before, cmds, Run(st', buf'));
  }

  /** Where no unit can be taken, the connection is to be closed exactly when the run failed or the client is cut off. */
  lemma Ending(st0: State, buf0: seq<byte>, cmds: seq<Argv>, st: State, buf: seq<byte>, size: nat)
    requires Continues(st0, buf0, |buf0|, cmds, st, buf, size) && !UnitStep(st, buf).Go?
    ensures LineFails(st, buf, size) <==> Run(st0, buf0).failed || CutOff(st0, buf0)
    ensures UnitStep(st, buf).Fail? ==> LineFails(st, buf, size)
  {}

  lemma NothingToDo(st: State)
    requires st.bulklen >= -1
    ensures UnitStep(st, []).Wait? || UnitStep(st, []).WaitLine?
    ensures !LineFails(st, [], 0)
  {}

  // ----- Reads

  /** The reads of a connection, one after the other. */
  function Concat(chunks: seq<seq<byte>>): seq<byte> {
    if chunks == [] then [] else Concat(chunks[..|chunks| - 1]) + chunks[|chunks| - 1]
  }

  /** Is a client that is sent these reads closed at one of them? */
  predicate CutShort(st: State, rest: seq<byte>, chunks: seq<seq<byte>>)
    decreases |chunks|
  {
    chunks != [] &&
    var q := rest + chunks[0];
    var o := Run(st, q);
    o.failed || CutOff(st, q) || CutShort(o.st, o.rest, chunks[1..])
  }

  lemma CutShortStep(st: State, rest: seq<byte>, chunks: seq<seq<byte>>, i: nat)
    requires i < |chunks|
    ensures var q := rest + chunks[i];
            CutShort(st, rest, chunks[i..]) <==>
              Run(st, q).failed || CutOff(st, q) || CutShort(Run(st, q).st, Run(st, q).rest, chunks[i + 1..])
  {
    assert chunks[i..][1..] == chunks[i + 1..];
  }

  lemma StartServing(chunks: seq<seq<byte>>)
    ensures chunks[0..] == chunks && Run(Idle, []) == Outcome(Idle, [], [], false) && Concat(chunks[..0]) == []
  {
    RunEnds(Idle, []);
  }

  lemma EndServing(chunks: seq<seq<byte>>)
    ensures forall st, q :: !CutShort(st, q, chunks[|chunks|..])
  {
    assert chunks[|chunks|..] == [];
  }

  lemma ServeStep(chunks: seq<seq<byte>>, i: nat, received: seq<byte>, st: State, q: seq<byte>, cmds: seq<Argv>, closing: bool, o: Outcome)
    requires i < |chunks| && Run(Idle, received) == Outcome(st, q, cmds, false)
    requires CutShort(Idle, [], chunks) <==> CutShort(st, q, chunks[i..])
    requires closing <==> Run(st, q + chunks[i]).failed || CutOff(st, q + chunks[i])
    requires !closing ==> Run(Idle, received + chunks[i]) == o
    ensures closing ==> CutShort(Idle, [], chunks)
    ensures !closing ==> (CutShort(Idle, [], chunks) <==> CutShort(o.st, o.rest, chunks[i + 1..]))
  {
    hide CutShort, CutOff, Run;
    CutShortStep(st, q, chunks, i);
    RunAppend(Idle, received, chunks[i]);
  }

  // ----- Who is cut off

  /** A unit of a well-formed stream: a line or an argument with its line end, and the state after it. */
  datatype Unit = Unit(bytes: seq<byte>, st: State)

  function Flat(us: seq<Unit>): seq<byte> {
    if us == [] then [] else us[0].bytes + Flat(us[1..])
  }

  /** The unit is taken from the state, whatever follows it. */
  ghost predicate IsTaken(st: State, u: Unit) {
    u.bytes != [] && forall rest: seq<byte> :: Reads(st, u, rest)
  }

  predicate Reads(st: State, u: Unit, rest: seq<byte>) {
    var p := UnitStep(st, u.bytes + rest);
    p.Go? && p.n == |u.bytes| && p.st == u.st
  }

  ghost predicate Chain(st: State, us: seq<Unit>)
    decreases |us|
  {
    us == [] || (IsTaken(st, us[0]) && Chain(us[0].st, us[1..]))
  }

  function End(st: State, us: seq<Unit>): State {
    if us == [] then st else us[|us| - 1].st
  }

  lemma {:induction false} ChainAppend(st: State, us: seq<Unit>, vs: seq<Unit>)
    requires Chain(st, us) && Chain(End(st, us), vs)
    ensures Chain(st, us + vs) && Flat(us + vs) == Flat(us) + Flat(vs)
    ensures End(st, us + vs) == End(End(st, us), vs)
    decreases |us|
  {
    hide IsTaken;
    if us == [] {
      assert us + vs == vs;
    } else {
      var all := us + vs;
      assert all[0] == us[0] && all[1..] == us[1..] + vs;
      ChainAppend(us[0].st, us[1..], vs);
      Assoc(us[0].bytes, Flat(us[1..]), Flat(vs));
      EndNext(st, us);
      EndNext(st, all);
    }
  }

  lemma EndNext(st: State, us: seq<Unit>)
    requires us != []
    ensures End(st, us) == End(us[0].st, us[1..])
  {}

  /** A run over some first bytes of a chain of units leaves less than one unit, and the rest of the chain. */
  lemma {:induction false} RunChain(st: State, us: seq<Unit>, a: seq<byte>, b: seq<byte>, m: nat) returns (us': seq<Unit>)
    requires Chain(st, us) && a + b == Flat(us) && forall i :: 0 <= i < |us| ==> |us[i].bytes| <= m
    ensures var o := Run(st, a);
            && !o.failed && |o.rest| <= m && Chain(o.st, us') && o.rest + b == Flat(us')
            && forall i :: 0 <= i < |us'| ==> |us'[i].bytes| <= m
    decreases |us|
  {
    us' := us;
    if us == [] {
      assert a == [];
    } else {
      var u := us[0];
      var k := |u.bytes|;
      assert Reads(st, u, Flat(us[1..]));
      if k <= |a| {
        assert a == u.bytes + a[k..] by {
          assert a == (a + b)[..|a|] && u.bytes == (a + b)[..k];
        }
        assert Reads(st, u, a[k..]);
        assert a[k..] + b == Flat(us[1..]) by {
          assert (a + b)[k..] == a[k..] + b;
        }
        us' := RunChain(u.st, us[1..], a[k..], b, m);
      } else {
        var p := UnitStep(st, a);
        if p.Go? || p.Fail? {
          UnitStable(st, a, b);
        }
        assert Run(st, a) == Outcome(st, a, [], false);
      }
    }
  }

  lemma LineIsTaken(n: nat)
    requires 0 < n <= MAX_ARGUMENTS
    ensures IsTaken(Idle, Unit(Line(STAR, n), State(n, -1, [])))
  {
    var u := Unit(Line(STAR, n), State(n, -1, []));
    forall rest: seq<byte> ensures Reads(Idle, u, rest) {
      LineFound(STAR, n, rest);
    }
  }

  lemma LengthIsTaken(st: State, n: nat)
    requires st.multibulklen > 0 && st.bulklen == -1 && n <= MAX_BULK
    ensures IsTaken(st, Unit(Line(DOLLAR, n), State(st.multibulklen, n, st.argv)))
  {
    var u := Unit(Line(DOLLAR, n), State(st.multibulklen, n, st.argv));
    forall rest: seq<byte> ensures Reads(st, u, rest) {
      LengthStep(st, n, rest);
    }
  }

  lemma DataIsTaken(st: State, arg: seq<byte>)
    requires st.multibulklen > 0 && st.bulklen == |arg|
    ensures IsTaken(st, Unit(arg + [CR, LF], if st.multibulklen == 1 then Idle else State(st.multibulklen - 1, -1, st.argv + [arg])))
  {
    var u := Unit(arg + [CR, LF], if st.multibulklen == 1 then Idle else State(st.multibulklen - 1, -1, st.argv + [arg]));
    forall rest: seq<byte> ensures Reads(st, u, rest) {
      DataStep(st, arg, rest);
    }
  }

  function ArgUnits(n: nat, before: Argv, args: Argv): seq<Unit>
    requires |args| <= n
  {
    if args == [] then []
    else
      [Unit(Line(DOLLAR, |args[0]|), State(n, |args[0]|, before)),
       Unit(args[0] + [CR, LF], if n == 1 then Idle else State(n - 1, -1, before + [args[0]]))]
      + ArgUnits(n - 1, before + [args[0]], args[1..])
  }

  /** The state between two arguments. */
  function Between(n: nat, before: Argv): State {
    if n == 0 then Idle else State(n, -1, before)
  }

  lemma PairChain(n: nat, before: Argv, arg: seq<byte>)
    requires n > 0 && |arg| <= MAX_BULK
    ensures var us := [Unit(Line(DOLLAR, |arg|), State(n, |arg|, before)), Unit(arg + [CR, LF], Between(n - 1, before + [arg]))];
            Chain(State(n, -1, before), us) && Flat(us) == Line(DOLLAR, |arg|) + arg + [CR, LF]
  {
    hide IsTaken, Line, UnitStep;
    var u, v := Unit(Line(DOLLAR, |arg|), State(n, |arg|, before)), Unit(arg + [CR, LF], Between(n - 1, before + [arg]));
    LengthIsTaken(State(n, -1, before), |arg|);
    DataIsTaken(State(n, |arg|, before), arg);
    assert [u, v][1..] == [v] && [v][1..] == [];
    assert Chain(v.st, []);
    assert Chain(u.st, [v]);
    assert Flat([v]) == arg + [CR, LF] + Flat([]);
    Assoc(Line(DOLLAR, |arg|), arg, [CR, LF]);
  }

  lemma {:induction false} ArgUnitsChain(n: nat, before: Argv, args: Argv)
    requires |args| <= n && forall i :: 0 <= i < |args| ==> |args[i]| <= MAX_BULK
    ensures var us := ArgUnits(n, before, args);
            && Chain(Between(n, before), us) && Flat(us) == EncodeArgs(args)
            && End(Between(n, before), us) == Between(n - |args|, before + args)
    decreases |args|
  {
    hide Line, Chain, Flat;
    if args == [] {
      assert before + args == before;
      NoUnits(Between(n, before));
    } else {
      var arg := args[0];
      PairChain(n, before, arg);
      ArgUnitsChain(n - 1, before + [arg], args[1..]);
      var us := [Unit(Line(DOLLAR, |arg|), State(n, |arg|, before)), Unit(arg + [CR, LF], Between(n - 1, before + [arg]))];
      ChainAppend(State(n, -1, before), us, ArgUnits(n - 1, before + [arg], args[1..]));
      assert before + [arg] + args[1..] == before + args;
    }
  }

  lemma NoUnits(st: State)
    ensures Chain(st, []) && Flat([]) == []
  {}

  lemma {:induction false} ArgUnitsShort(n: nat, before: Argv, args: Argv, m: nat)
    requires |args| <= n && m >= 24 && forall i :: 0 <= i < |args| ==> |args[i]| + 2 <= m && |args[i]| <= MAX_BULK
    ensures forall i :: 0 <= i < |ArgUnits(n, before, args)| ==> |ArgUnits(n, before, args)[i].bytes| <= m
    decreases |args|
  {
    if args != [] {
      TextShort(|args[0]|);
      ArgUnitsShort(n - 1, before + [args[0]], args[1..], m);
    }
  }

  function Units(cmds: seq<Argv>): seq<Unit> {
    if cmds == [] then []
    else [Unit(Line(STAR, |cmds[0]|), State(|cmds[0]|, -1, []))] + ArgUnits(|cmds[0]|, [], cmds[0]) + Units(cmds[1..])
  }

  lemma {:induction false} UnitsChain(cmds: seq<Argv>)
    requires forall i :: 0 <= i < |cmds| ==> WellFormed(cmds[i])
    ensures Chain(Idle, Units(cmds)) && Flat(Units(cmds)) == EncodeAll(cmds)
  {
    if cmds != [] {
      hide IsTaken, UnitStep, ArgUnits;
      var argv := cmds[0];
      assert argv == cmds[0] && WellFormed(cmds[0]);
      var first := Unit(Line(STAR, |argv|), State(|argv|, -1, []));
      LineIsTaken(|argv|);
      ArgUnitsChain(|argv|, [], argv);
      UnitsChain(cmds[1..]);
      assert [first][1..] == [] && Flat([first]) == Line(STAR, |argv|) + Flat([]);
      hide Line, Chain;
      FirstChain(first);
      ChainAppend(Idle, [first], ArgUnits(|argv|, [], argv));
      ChainAppend(Idle, [first] + ArgUnits(|argv|, [], argv), Units(cmds[1..]));
      Between0([] + argv);
    }
  }

  lemma FirstChain(u: Unit)
    requires IsTaken(Idle, u)
    ensures Chain(Idle, [u])
  {
    assert [u][1..] == [] && Chain(u.st, []);
  }

  lemma Between0(argv: Argv)
    ensures Between(0, argv) == Idle
  {}

  lemma {:induction false} UnitsShort(cmds: seq<Argv>, m: nat)
    requires forall i :: 0 <= i < |cmds| ==> WellFormed(cmds[i])
    requires m >= 24 && forall i, j :: 0 <= i < |cmds| && 0 <= j < |cmds[i]| ==> |cmds[i][j]| + 2 <= m
    ensures forall i :: 0 <= i < |Units(cmds)| ==> |Units(cmds)[i].bytes| <= m
  {
    if cmds != [] {
      TextShort(|cmds[0]|);
      ArgUnitsShort(|cmds[0]|, [], cmds[0], m);
      UnitsShort(cmds[1..], m);
    }
  }

  lemma {:induction false} ConcatFirst(chunks: seq<seq<byte>>)
    requires chunks != []
    ensures Concat(chunks) == chunks[0] + Concat(chunks[1..])
  {
    if |chunks| > 1 {
      var n := |chunks| - 1;
      ConcatFirst(chunks[..n]);
      assert chunks[..n][1..] == chunks[1..][..n - 1];
      Assoc(chunks[0], Concat(chunks[1..n]), chunks[n]);
    } else {
      assert chunks[1..] == [] && chunks[..0] == [];
    }
  }

  lemma {:induction false} ChainNotCut(st: State, q: seq<byte>, us: seq<Unit>, chunks: seq<seq<byte>>, m: nat)
    requires Chain(st, us) && q + Concat(chunks) == Flat(us) && |q| <= m && m + REDIS_IOBUF_LEN <= REDIS_INLINE_MAX_SIZE
    requires (forall i :: 0 <= i < |us| ==> |us[i].bytes| <= m) && forall i :: 0 <= i < |chunks| ==> |chunks[i]| <= REDIS_IOBUF_LEN
    ensures !CutShort(st, q, chunks)
    decreases |chunks|
  {
    hide Chain, Flat, CutOff, Run, Concat;
    if chunks != [] {
      var a, b := q + chunks[0], Concat(chunks[1..]);
      ConcatFirst(chunks);
      Assoc(q, chunks[0], b);
      var us' := RunChain(st, us, a, b, m);
      WithinLimit(st, a);
      ChainNotCut(Run(st, a).st, Run(st, a).rest, us', chunks[1..], m);
    }
  }

  /**
   A client that sends well-formed commands is never cut off, however they are cut into reads, as long as no argument is
   longer than what the limit leaves beside one read.
   */
  lemma SmallArguments(cmds: seq<Argv>, chunks: seq<seq<byte>>)
    requires (forall i :: 0 <= i < |cmds| ==> WellFormed(cmds[i])) && Concat(chunks) == EncodeAll(cmds)
    requires forall i, j :: 0 <= i < |cmds| && 0 <= j < |cmds[i]| ==> |cmds[i][j]| + 2 <= REDIS_INLINE_MAX_SIZE - REDIS_IOBUF_LEN
    requires forall i :: 0 <= i < |chunks| ==> |chunks[i]| <= REDIS_IOBUF_LEN
    ensures !CutShort(Idle, [], chunks)
  {
    var m := REDIS_INLINE_MAX_SIZE - REDIS_IOBUF_LEN;
    UnitsChain(cmds);
    UnitsShort(cmds, m);
    assert [] + Concat(chunks) == Concat(chunks);
    ChainNotCut(Idle, [], Units(cmds), chunks, m);
  }

  /** A client that is not closed at the first reads has come to where its run has come. */
  lemma {:induction false} CutShortAppend(received: seq<byte>, st: State, q: seq<byte>, cmds: seq<Argv>, chunks: seq<seq<byte>>, more: seq<seq<byte>>)
    requires Run(Idle, received) == Outcome(st, q, cmds, false)
    ensures CutShort(st, q, chunks + more) <==>
              CutShort(st, q, chunks) || CutShort(Run(Idle, received + Concat(chunks)).st, Run(Idle, received + Concat(chunks)).rest, more)
    decreases |chunks|
  {
    if chunks == [] {
      assert chunks + more == more && received + [] == received;
    } else {
      var a := q + chunks[0];
      assert (chunks + more)[1..] == chunks[1..] + more;
      ConcatFirst(chunks);
      Assoc(received, chunks[0], Concat(chunks[1..]));
      RunAppend(Idle, received, chunks[0]);
      if !Run(st, a).failed && !CutOff(st, a) {
        hide CutOff;
        CutShortAppend(received + chunks[0], Run(st, a).st, Run(st, a).rest, cmds + Run(st, a).cmds, chunks[1..], more);
      }
    }
  }

  lemma TwoParts(argv: Argv, k: nat)
    requires k <= |argv|
    ensures Encode(argv) == Line(STAR, |argv|) + EncodeArgs(argv[..k]) + EncodeArgs(argv[k..])
  {
    EncodeArgsAppend(argv[..k], argv[k..]);
    assert argv[..k] + argv[k..] == argv;
    Assoc(Line(STAR, |argv|), EncodeArgs(argv[..k]), EncodeArgs(argv[k..]));
  }

  lemma {:induction false} EncodeArgsAppend(a: Argv, b: Argv)
    ensures EncodeArgs(a + b) == EncodeArgs(a) + EncodeArgs(b)
  {
    if a == [] {
      assert a + b == b;
    } else {
      EncodeArgsAppend(a[1..], b);
      assert (a + b)[1..] == a[1..] + b;
      Assoc(Line(DOLLAR, |a[0]|) + a[0] + [CR, LF], EncodeArgs(a[1..]), EncodeArgs(b));
    }
  }

  /** The state while the last of some arguments is arriving. */
  lemma WaitsForArgument(argv: Argv, k: nat, part: seq<byte>)
    requires WellFormed(argv) && 0 < k <= |argv| && |part| < |argv[k - 1]| + 2
    ensures Run(Idle, Line(STAR, |argv|) + EncodeArgs(argv[..k - 1]) + Line(DOLLAR, |argv[k - 1]|) + part)
         == Outcome(State(|argv| - k + 1, |argv[k - 1]|, argv[..k - 1]), part, [], false)
  {
    hide Line, Continues, EncodeArgs, Run, UnitStep, Then;
    var n, arg, args := |argv|, argv[k - 1], argv[..k - 1];
    var tail := Line(DOLLAR, |arg|) + part;
    var st := State(n - k + 1, -1, args);
    var buf := Line(STAR, n) + (EncodeArgs(args) + tail);
    assert Line(STAR, n) + EncodeArgs(args) + Line(DOLLAR, |arg|) + part == buf by {
      Assoc(Line(STAR, n) + EncodeArgs(args), Line(DOLLAR, |arg|), part);
      Assoc(Line(STAR, n), EncodeArgs(args), tail);
    }
    assert [] + args == args;
    ReadCount(n, EncodeArgs(args) + tail, 0);
    ReadSomeArguments(n, [], args, tail, 0);
    ContinuesThen(Idle, buf, 0, [], State(n, -1, []), EncodeArgs(args) + tail, 0, [], st, tail, 0);
    HeaderThenPart(Idle, buf, st, |arg|, part);
  }

  lemma HeaderThenPart(st0: State, buf: seq<byte>, st: State, n: nat, part: seq<byte>)
    requires Continues(st0, buf, 0, [] + [], st, Line(DOLLAR, n) + part, 0) && st.multibulklen > 0 && st.bulklen == -1
    requires n <= MAX_BULK && |part| < n + 2
    ensures Run(st0, buf) == Outcome(State(st.multibulklen, n, st.argv), part, [], false)
  {
    hide Line;
    LengthStep(st, n, part);
    ContinuesStep(st0, buf, 0, [] + [], st, Line(DOLLAR, n) + part, 0);
    RunFrom(st0, buf, State(st.multibulklen, n, st.argv), part);
  }

  lemma RunFrom(st: State, buf: seq<byte>, st': State, buf': seq<byte>)
    requires Continues(st, buf, 0, [] + [] + [], st', buf', 0) && UnitStep(st', buf') == Wait
    ensures Run(st, buf) == Outcome(st', buf', [], false)
  {
    ThenThen([], [], Run(st', buf'));
  }

  /**
   One argument longer than the limit, with another one after it: the client is cut off when a read ends between the two,
   although no read is longer than the read buffer.
   */
  lemma LongArgumentCuts(argv: Argv, k: nat, chunks: seq<seq<byte>>, more: seq<seq<byte>>)
    requires WellFormed(argv) && 0 < k < |argv| && |argv[k - 1]| + 2 > REDIS_INLINE_MAX_SIZE
    requires Concat(chunks) == Line(STAR, |argv|) + EncodeArgs(argv[..k])
    requires forall i :: 0 <= i < |chunks| ==> 0 < |chunks[i]| <= REDIS_IOBUF_LEN
    ensures CutShort(Idle, [], chunks + more)
  {
    hide CutShort, Run, CutOff, EncodeArgs, Line;
    var n, arg, args := |argv|, argv[k - 1], argv[..k - 1];
    var st, all := State(n - k + 1, |arg|, args), arg + [CR, LF];
    assert chunks != [] by {
      LinesAreThere(|argv|);
    }
    var c := |chunks| - 1;
    var most, last := chunks[..c], chunks[c];
    assert chunks == most + [last];
    var part := LastRead(argv, k, Concat(most), last);
    EmptyRun();
    CutShortAppend([], Idle, [], [], most, [last]);
    assert [] + Concat(most) == Concat(most);
    NoArguments();
    NothingOfLine(0);
    assert all + ([] + []) == all;
    CutBetweenArguments(n - k + 1, args, arg, [], 0, 0);
    CutShortOne(st, part, last);
    CutShortAppend([], Idle, [], [], chunks, more);
  }

  lemma NothingOfLine(m: nat)
    ensures |NextLine(false, m)| > 1 && NextLine(false, m)[..0] == []
  {}

  lemma LinesAreThere(n: nat)
    ensures |Line(STAR, n)| > 0
  {}

  /** Before the read that ends a long argument, the client has a part of that argument. */
  lemma LastRead(argv: Argv, k: nat, r: seq<byte>, last: seq<byte>) returns (part: seq<byte>)
    requires WellFormed(argv) && 0 < k < |argv| && 0 < |last| <= |argv[k - 1]| + 2
    requires r + last == Line(STAR, |argv|) + EncodeArgs(argv[..k])
    ensures part + last == argv[k - 1] + [CR, LF]
    ensures Run(Idle, r) == Outcome(State(|argv| - k + 1, |argv[k - 1]|, argv[..k - 1]), part, [], false)
  {
    hide Run, EncodeArgs, Line;
    var arg := argv[k - 1];
    var head, all := Line(STAR, |argv|) + EncodeArgs(argv[..k - 1]) + Line(DOLLAR, |arg|), arg + [CR, LF];
    LongSplit(argv, k);
    var i := |all| - |last|;
    part := all[..i];
    assert all == part + all[i..];
    Assoc(head, part, all[i..]);
    SameEnds(r, last, head + part, all[i..]);
    WaitsForArgument(argv, k, part);
  }

  lemma EmptyRun()
    ensures Run(Idle, []) == Outcome(Idle, [], [], false)
  {}

  lemma CutShortOne(st: State, q: seq<byte>, last: seq<byte>)
    requires CutOff(st, q + last)
    ensures CutShort(st, q, [last])
  {}

  lemma SameEnds(a: seq<byte>, b: seq<byte>, c: seq<byte>, d: seq<byte>)
    requires a + b == c + d && |b| == |d|
    ensures a == c && b == d
  {
    assert a == (a + b)[..|a|] && c == (c + d)[..|a|];
    assert b == (a + b)[|a|..] && d == (c + d)[|a|..];
  }

  lemma LongSplit(argv: Argv, k: nat)
    requires 0 < k <= |argv|
    ensures var n, arg, args := |argv|, argv[k - 1], argv[..k - 1];
            Line(STAR, n) + EncodeArgs(argv[..k]) == Line(STAR, n) + EncodeArgs(args) + Line(DOLLAR, |arg|) + (arg + [CR, LF])
  {
    var n, arg, args := |argv|, argv[k - 1], argv[..k - 1];
    assert argv[..k] == args + [arg];
    EncodeArgsLast(args, arg);
    assert EncodeArgs([arg]) == Line(DOLLAR, |arg|) + arg + [CR, LF] + EncodeArgs([]);
    Assoc(Line(DOLLAR, |arg|), arg, [CR, LF]);
    Assoc(EncodeArgs(args), Line(DOLLAR, |arg|), arg + [CR, LF]);
    Assoc(Line(STAR, n), EncodeArgs(args) + Line(DOLLAR, |arg|), arg + [CR, LF]);
    Assoc(Line(STAR, n), EncodeArgs(args), Line(DOLLAR, |arg|));
  }

  /** Bytes that arrive in reads as long as possible. */
  function Pieces(s: seq<byte>): (r: seq<seq<byte>>)
    ensures forall i :: 0 <= i < |r| ==> 0 < |r[i]| <= REDIS_IOBUF_LEN
  {
    if s == [] then [] else if |s| <= REDIS_IOBUF_LEN then [s] else [s[..REDIS_IOBUF_LEN]] + Pieces(s[REDIS_IOBUF_LEN..])
  }

  lemma {:induction false} PiecesJoin(s: seq<byte>)
    ensures Concat(Pieces(s)) == s
    decreases |s|
  {
    var r := Pieces(s);
    if |s| > REDIS_IOBUF_LEN {
      ConcatFirst(r);
      assert r[1..] == Pieces(s[REDIS_IOBUF_LEN..]);
      PiecesJoin(s[REDIS_IOBUF_LEN..]);
    } else if s != [] {
      assert [s][..0] == [];
    }
  }

  lemma {:induction false} ConcatAppend(a: seq<seq<byte>>, b: seq<seq<byte>>)
    ensures Concat(a + b) == Concat(a) + Concat(b)
    decreases |b|
  {
    if b == [] {
      assert a + b == a;
    } else {
      var n := |b| - 1;
      ConcatAppend(a, b[..n]);
      assert (a + b)[..|a + b| - 1] == a + b[..n];
      Assoc(Concat(a), Concat(b[..n]), b[n]);
    }
  }

  // ----- Reads and wake-ups

  datatype Event = Read(data: seq<byte>) | Wake

  function Sent(events: seq<Event>): seq<byte> {
    if events == [] then []
    else Sent(events[..|events| - 1]) + (match events[|events| - 1] case Read(data) => data case Wake => [])
  }

  lemma NothingSent(events: seq<Event>)
    ensures Sent(events[..0]) == []
  {}

  lemma SentNext(events: seq<Event>, i: nat)
    requires i < |events|
    ensures Sent(events[..i + 1]) == Sent(events[..i]) + (match events[i] case Read(data) => data case Wake => [])
    ensures events[i].Wake? ==> Sent(events[..i + 1]) == Sent(events[..i])
  {
    assert events[..i + 1][..i] == events[..i];
    assert Sent(events[..i]) + [] == Sent(events[..i]);
  }

  lemma {:induction false} SentSplit(events: seq<Event>, i: nat) returns (more: seq<byte>)
    requires i <= |events|
    ensures Sent(events[..i]) + more == Sent(events)
    decreases |events| - i
  {
    if i == |events| {
      assert events[..i] == events;
      more := [];
    } else {
      var rest := SentSplit(events, i + 1);
      SentNext(events, i);
      more := match events[i] case Read(data) => data + rest case Wake => rest;
      match events[i]
      case Read(data) => Assoc(Sent(events[..i]), data, rest);
      case Wake =>
    }
  }

  /** More bytes after a stream whose run has come to `st` and `q`. */
  lemma FeedMore(received: seq<byte>, cmds: seq<Argv>, st: State, q: seq<byte>, data: seq<byte>)
    requires Run(Idle, received) == Then(cmds, Run(st, q))
    ensures Run(Idle, received + data) == Then(cmds, Run(st, q + data))
  {
    RunAppend(Idle, received, data);
    RunAppend(st, q, data);
    var o := Run(st, q);
    ThenThen(cmds, o.cmds, Run(o.st, o.rest + data));
  }

  lemma RunEnds(st: State, q: seq<byte>)
    requires UnitStep(st, q).Wait? || UnitStep(st, q).WaitLine?
    ensures Run(st, q) == Outcome(st, q, [], false)
  {}

  lemma ConcatNext(chunks: seq<seq<byte>>, i: nat)
    requires i < |chunks|
    ensures Concat(chunks[..i + 1]) == Concat(chunks[..i]) + chunks[i]
    ensures Concat(chunks) == Concat(chunks[..|chunks|])
  {
    assert chunks[..i + 1][..i] == chunks[..i];
    assert chunks[..|chunks|] == chunks;
  }

  lemma {:induction false} ConcatSplit(chunks: seq<seq<byte>>, i: nat) returns (more: seq<byte>)
    requires i <= |chunks|
    ensures Concat(chunks[..i]) + more == Concat(chunks)
    decreases |chunks| - i
  {
    if i == |chunks| {
      assert chunks[..i] == chunks;
      more := [];
    } else {
      var rest := ConcatSplit(chunks, i + 1);
      ConcatNext(chunks, i);
      Assoc(Concat(chunks[..i]), chunks[i], rest);
      more := chunks[i] + rest;
    }
  }

  // ----- The client

  datatype RequestType = Unknown | InlineRequest | MultibulkRequest

  class Client {
    var querybuf: seq<byte>
    var reqtype: RequestType
    var multibulklen: nat
    var bulklen: int
    var argv: Argv
    var closing: bool              // REDIS_CLOSE_AFTER_REPLY
    var blocked: bool              // REDIS_BLOCKED
    var dispatched: seq<Argv>      // the commands handed to processCommand
    ghost var received: seq<byte>  // all bytes read from the connection
    const blocks: seq<Argv> -> bool  // does the last of these commands block the client?

    constructor (blocks: seq<Argv> -> bool)
      ensures Valid() && querybuf == [] && Now() == Idle && !closing && !blocked && dispatched == [] && received == []
      ensures this.blocks == blocks
    {
      received := [];
      querybuf, reqtype, multibulklen, bulklen, argv := [], Unknown, 0, -1, [];
      closing, blocked, dispatched := false, false, [];
      this.blocks := blocks;
    }

    function Now(): State
      reads this
    {
      State(multibulklen, bulklen, argv)
    }

    /** The request type is known exactly as far as the buffer and the state tell it. */
    ghost predicate Ready()
      reads this
    {
      && bulklen >= -1
      && (multibulklen == 0 ==> Now() == Idle)
      && (multibulklen > 0 ==> reqtype == MultibulkRequest)
      && (multibulklen == 0 && reqtype != Unknown ==> querybuf != [] && (reqtype == MultibulkRequest <==> querybuf[0] == STAR))
    }

    /** Whatever the reads were, the client goes on with the run over all bytes received. */
    ghost predicate Valid()
      reads this
    {
      Ready() && Run(Idle, received) == Then(dispatched, Run(Now(), querybuf))
    }

    method ResetClient()
      modifies this`argv, this`reqtype, this`multibulklen, this`bulklen
      ensures Now() == Idle && reqtype == Unknown
    {
      argv, reqtype, multibulklen, bulklen := [], Unknown, 0, -1;
    }

    /** setProtocolError. */
    method SetProtocolError(pos: nat)
      requires pos <= |querybuf|
      modifies this`querybuf, this`closing
      ensures closing && querybuf == old(querybuf)[pos..]
    {
      closing, querybuf := true, querybuf[pos..];
    }

    /** processInlineBuffer. */
    method ProcessInlineBuffer() returns (ok: bool)
      requires Now() == Idle && querybuf != [] && querybuf[0] != STAR && !closing
      modifies this`querybuf, this`argv, this`closing
      ensures ok <==> UnitStep(Idle, old(querybuf)).Go?
      ensures ok ==> !closing && querybuf == old(querybuf)[UnitStep(Idle, old(querybuf)).n..]
      ensures ok ==> UnitStep(Idle, old(querybuf)).cmd == if argv == [] then None else Some(argv)
      ensures !ok ==> querybuf == old(querybuf) && Now() == Idle && UnitStep(Idle, querybuf) == WaitLine
      ensures !ok ==> (closing <==> |querybuf| > REDIS_INLINE_MAX_SIZE)
    {
      match FindCRLF(querybuf)
      case None =>
        if |querybuf| > REDIS_INLINE_MAX_SIZE {
          SetProtocolError(0);
        }
        return false;
      case Some(querylen) =>
        argv := Words(querybuf[..querylen], []);
        querybuf := querybuf[querylen + 2..];
        return true;
    }

    /** What processMultibulkBuffer does in either case, given where it started from. */
    ghost predicate Processed(st0: State, buf0: seq<byte>, ok: bool)
      reads this
    {
      if ok then
        && !closing && multibulklen == 0 && bulklen == -1 && |querybuf| < |buf0|
        && Continues(st0, buf0, |buf0|, Complete(argv), Idle, querybuf, |querybuf|)
      else
        && Continues(st0, buf0, |buf0|, [], Now(), querybuf, |buf0|)
        && !UnitStep(Now(), querybuf).Go? && bulklen >= -1
        && (multibulklen == 0 ==> st0 == Now() == Idle && querybuf == buf0)
        && (closing <==> LineFails(Now(), querybuf, |buf0|))
    }

    /** The first part of processMultibulkBuffer: the line with the number of arguments. */
    method ProcessCount() returns (ok: bool, pos: nat)
      requires Now() == Idle && querybuf != [] && querybuf[0] == STAR && !closing
      modifies this`querybuf, this`multibulklen, this`closing
      ensures ok <==> UnitStep(Idle, old(querybuf)).Go?
      ensures ok ==> !closing && querybuf == old(querybuf) && 0 < pos <= |querybuf| && Takes(Idle, querybuf, Now(), pos) && bulklen == -1
      ensures !ok ==> querybuf == old(querybuf) && Now() == Idle && (closing <==> LineFails(Idle, querybuf, |querybuf|))
    {
      pos := 0;
      match FindCR(querybuf)
      case None =>
        if |querybuf| > REDIS_INLINE_MAX_SIZE {
          SetProtocolError(0);
        }
        return false, 0;
      case Some(newline) =>
        if newline > |querybuf| - 2 {
          return false, 0;
        }
        var r := String2ll(querybuf[1..newline]);
        if r == None || r.value > MAX_ARGUMENTS {
          SetProtocolError(pos);
          return false, 0;
        }
        pos := newline + 2;
        if r.value > 0 {
          multibulklen := r.value;
        }
        return true, pos;
    }

    /**
     Reading a bulk length in the loop of processMultibulkBuffer, from the bytes at `pos`. On failure the buffer is
     trimmed at the end of processMultibulkBuffer in either case, so it is left alone here.
     */
    method ProcessBulkLength(pos: nat) returns (done: bool, next: nat)
      requires pos <= |querybuf| && multibulklen > 0 && bulklen == -1 && !closing
      modifies this`bulklen, this`closing
      ensures done <==> UnitStep(old(Now()), querybuf[pos..]).Go?
      ensures done ==> !closing && pos < next <= |querybuf| && Takes(old(Now()), querybuf[pos..], Now(), next - pos) && bulklen >= 0
      ensures !done ==> Now() == old(Now()) && (closing <==> LineFails(Now(), querybuf[pos..], |querybuf|))
    {
      next := pos;
      match FindCR(querybuf[pos..])
      case None =>
        closing := |querybuf| > REDIS_INLINE_MAX_SIZE;
        return false, pos;
      case Some(newline) =>
        if pos + newline > |querybuf| - 2 {
          return false, pos;
        }
        if querybuf[pos] != DOLLAR {
          closing := true;
          return false, pos;
        }
        assert querybuf[pos + 1..pos + newline] == querybuf[pos..][1..newline];
        var r := String2ll(querybuf[pos + 1..pos + newline]);
        if r == None || r.value < 0 || r.value > MAX_BULK {
          closing := true;
          return false, pos;
        }
        bulklen := r.value;
        return true, pos + newline + 2;
    }

    /** Reading the data of an argument in the loop of processMultibulkBuffer. */
    method ProcessBulk(pos: nat) returns (done: bool, next: nat)
      requires pos <= |querybuf| && multibulklen > 0 && bulklen >= 0
      modifies this`bulklen, this`multibulklen, this`argv
      ensures done <==> UnitStep(old(Now()), querybuf[pos..]).Go?
      ensures done ==> pos < next <= |querybuf| && bulklen == -1 && Takes(old(Now()), querybuf[pos..], Now(), next - pos)
      ensures !done ==> Now() == old(Now()) && !LineFails(Now(), querybuf[pos..], |querybuf|)
    {
      next := pos;
      if |querybuf| - pos < bulklen + 2 {
        return false, pos;
      }
      assert querybuf[pos..][..bulklen] == querybuf[pos..pos + bulklen];
      argv := argv + [querybuf[pos..pos + bulklen]];
      next := pos + bulklen + 2;
      bulklen := -1;
      multibulklen := multibulklen - 1;
      done := true;
    }

    /** processMultibulkBuffer. */
    method ProcessMultibulkBuffer() returns (ok: bool)
      requires Ready() && reqtype == MultibulkRequest && querybuf != [] && !closing
      modifies this`querybuf, this`multibulklen, this`bulklen, this`argv, this`closing
      ensures Processed(old(Now()), old(querybuf), ok)
    {
      ghost var st0, buf0 := Now(), querybuf;
      var pos := 0;
      if multibulklen == 0 {
        ContinuesHere(st0, buf0, |buf0|);
        ok, pos := ProcessCount();
        if !ok {
          return false;
        }
      }
      StartInProgress(st0, buf0, pos, Now());
      pos := ProcessArguments(st0, buf0, pos);
      querybuf := querybuf[pos..];
      return multibulklen == 0;
    }

    /** The loop of processMultibulkBuffer. */
    method ProcessArguments(ghost st0: State, ghost buf0: seq<byte>, start: nat) returns (pos: nat)
      requires InProgress(st0, buf0, start, Now()) && !closing && querybuf == buf0
      modifies this`multibulklen, this`bulklen, this`argv, this`closing
      ensures InProgress(st0, buf0, pos, Now()) && start <= pos
      ensures multibulklen == 0 ==> !closing
      ensures multibulklen > 0 ==> !UnitStep(Now(), buf0[pos..]).Go? && (closing <==> LineFails(Now(), buf0[pos..], |buf0|))
    {
      hide *;
      pos := start;
      InProgressEnds(st0, buf0, pos, Now());
      while multibulklen > 0
        invariant InProgress(st0, buf0, pos, Now()) && start <= pos <= |buf0| && !closing && querybuf == buf0 && Now().bulklen >= -1
        decreases |buf0| - pos
      {
        ghost var st := Now();
        var next, done;
        StateIs();
        if bulklen == -1 {
          done, next := ProcessBulkLength(pos);
          if !done {
            return;
          }
          StateIs();
          StillInProgress(st0, buf0, pos, st, Now(), next);
          pos := next;
          st := Now();
        }
        done, next := ProcessBulk(pos);
        if !done {
          return;
        }
        StateIs();
        StillInProgress(st0, buf0, pos, st, Now(), next);
        pos := next;
      }
    }

    lemma StateIs()
      ensures Now() == State(multibulklen, bulklen, argv)
    {}

    /** processCommand: the command is executed, which may block the client. */
    method ProcessCommand()
      modifies this`dispatched, this`blocked
      ensures dispatched == old(dispatched) + [argv] && blocked == blocks(dispatched)
    {
      dispatched := dispatched + [argv];
      blocked := blocks(dispatched);
    }

    /** The body of the loop of processInputBuffer, up to the execution of a command. */
    method ProcessRequest() returns (ok: bool)
      requires Ready() && querybuf != [] && !closing
      modifies this`querybuf, this`reqtype, this`multibulklen, this`bulklen, this`argv, this`closing
      ensures Processed(old(Now()), old(querybuf), ok)
      ensures !ok ==> Ready()
    {
      hide FindCR, FindCRLF, Parse, Words;
      if reqtype == Unknown {
        reqtype := if querybuf[0] == STAR then MultibulkRequest else InlineRequest;
      }
      if reqtype == InlineRequest {
        ghost var buf := querybuf;
        ok := ProcessInlineBuffer();
        InlineContinues(buf, argv);
      } else {
        ok := ProcessMultibulkBuffer();
      }
    }

    /** processInputBuffer. */
    method ProcessInputBuffer()
      requires Ready()
      modifies this`querybuf, this`reqtype, this`multibulklen, this`bulklen, this`argv, this`closing, this`blocked, this`dispatched
      ensures Ready()
      ensures Then(old(dispatched), Run(old(Now()), old(querybuf))) == Then(dispatched, Run(Now(), querybuf))
      ensures blocked || closing || UnitStep(Now(), querybuf).Wait? || UnitStep(Now(), querybuf).WaitLine?
      ensures old(blocked || closing) ==> querybuf == old(querybuf) && Now() == old(Now())
      ensures old(blocked || closing) ==> blocked == old(blocked) && closing == old(closing) && dispatched == old(dispatched)
      ensures blocked ==> old(blocked) || blocks(dispatched)
      ensures !old(blocked || closing) && !blocked ==>
                (closing <==> Run(old(Now()), old(querybuf)).failed || CutOff(old(Now()), old(querybuf)))
    {
      hide Continues, UnitStep, LineFails, CutOff;
      ghost var st0, buf0, d0 := Now(), querybuf, dispatched;
      ContinuesHere(st0, buf0, |buf0|);
      ghost var cmds: seq<Argv> := [];
      while querybuf != []
        invariant Ready() && dispatched == d0 + cmds
        invariant Continues(st0, buf0, |buf0|, cmds, Now(), querybuf, |querybuf|)
        invariant old(blocked || closing) ==> querybuf == buf0 && Now() == st0 && closing == old(closing) && blocked == old(blocked) && cmds == []
        invariant !old(blocked || closing) ==> !closing
        invariant blocked ==> old(blocked) || blocks(dispatched)
        decreases |querybuf|
      {
        if blocked || closing {
          ContinuesRun(st0, buf0, |buf0|, cmds, Now(), querybuf, |querybuf|, d0);
          return;
        }
        ghost var st, buf := Now(), querybuf;
        var ok := ProcessRequest();
        if !ok {
          ContinuesThen(st0, buf0, |buf0|, cmds, st, buf, |buf|, [], Now(), querybuf, |buf|);
          assert cmds + [] == cmds;
          ContinuesRun(st0, buf0, |buf0|, cmds, Now(), querybuf, |buf|, d0);
          Ending(st0, buf0, cmds, Now(), querybuf, |buf|);
          return;
        }
        ContinuesThen(st0, buf0, |buf0|, cmds, st, buf, |buf|, Complete(argv), Idle, querybuf, |querybuf|);
        cmds := cmds + Complete(argv);
        if argv == [] {
          ResetClient();
        } else {
          ProcessCommand();
          ResetClient();
        }
      }
      NothingToDo(Now());
      ContinuesRun(st0, buf0, |buf0|, cmds, Now(), querybuf, |querybuf|, d0);
      Ending(st0, buf0, cmds, Now(), querybuf, 0);
    }

    /** readQueryFromClient. */
    method Feed(data: seq<byte>)
      requires Valid()
      modifies this
      ensures Valid() && received == old(received) + data
      ensures !blocked && !closing ==> Run(Idle, received) == Outcome(Now(), querybuf, dispatched, false)
      ensures !old(blocked || closing) && !blocked ==>
                (closing <==> Run(old(Now()), old(querybuf) + data).failed || CutOff(old(Now()), old(querybuf) + data))
      ensures old(blocked || closing) ==> blocked == old(blocked) && closing == old(closing) && dispatched == old(dispatched)
      ensures blocked ==> old(blocked) || blocks(dispatched)
    {
      hide UnitStep, CutOff;
      FeedMore(received, dispatched, Now(), querybuf, data);
      received := received + data;
      querybuf := querybuf + data;
      label Read:
      ProcessInputBuffer();
      if !blocked && !closing {
        RunEnds(Now(), querybuf);
      }
    }

    /** The end of a blocking operation: what was read in the meantime is worked on. */
    method Unblock()
      requires Valid()
      modifies this
      ensures Valid() && received == old(received)
      ensures !blocked && !closing ==> Run(Idle, received) == Outcome(Now(), querybuf, dispatched, false)
    {
      hide UnitStep, CutOff;
      blocked := false;
      ProcessInputBuffer();
      if !blocked && !closing {
        RunEnds(Now(), querybuf);
      }
    }

    /**
     A connection on which well-formed commands arrive, cut into reads in any way: unless it is cut off it dispatches
     exactly those commands in order and keeps nothing; a connection cut off has dispatched the first of them.
     */
    method Serve(chunks: seq<seq<byte>>, ghost cmds: seq<Argv>)
      requires Valid() && received == [] && dispatched == [] && querybuf == [] && Now() == Idle && !blocked && !closing
      requires forall ds :: !blocks(ds)
      requires (forall i :: 0 <= i < |cmds| ==> WellFormed(cmds[i])) && Concat(chunks) == EncodeAll(cmds)
      modifies this
      ensures closing <==> CutShort(Idle, [], chunks)
      ensures !closing ==> dispatched == cmds && querybuf == [] && Now() == Idle
      ensures dispatched <= cmds
    {
      hide *;
      var i := 0;
      StartServing(chunks);
      while i < |chunks|
        invariant 0 <= i <= |chunks| && Valid() && !blocked && received == Concat(chunks[..i])
        invariant !closing ==> Run(Idle, received) == Outcome(Now(), querybuf, dispatched, false)
        invariant !closing ==> (CutShort(Idle, [], chunks) <==> CutShort(Now(), querybuf, chunks[i..]))
        invariant closing ==> CutShort(Idle, [], chunks)
        invariant dispatched <= cmds
      {
        ghost var st, q, r, d, before := Now(), querybuf, received, dispatched, closing;
        ConcatNext(chunks, i);
        Feed(chunks[i]);
        if !before {
          ServeStep(chunks, i, r, st, q, d, closing, Outcome(Now(), querybuf, dispatched, false));
        }
        i := i + 1;
        ghost var more := ConcatSplit(chunks, i);
        PrefixRuns(cmds, received, more);
        DispatchedPrefix(cmds);
      }
      assert chunks[..i] == chunks;
      PrefixRuns(cmds, received, []);
      EndServing(chunks);
    }

    /**
     The same with a client that its own commands may block: what arrives in the meantime waits in the buffer until it
     is woken up.
     */
    method Converse(events: seq<Event>, ghost cmds: seq<Argv>)
      requires Valid() && received == [] && dispatched == [] && querybuf == [] && Now() == Idle && !blocked && !closing
      requires (forall i :: 0 <= i < |cmds| ==> WellFormed(cmds[i])) && Sent(events) == EncodeAll(cmds)
      modifies this
      ensures dispatched <= cmds
      ensures !closing && !blocked ==> dispatched == cmds && querybuf == [] && Now() == Idle
    {
      hide *;
      var i := 0;
      StartServing([]);
      NothingSent(events);
      while i < |events|
        invariant 0 <= i <= |events| && Valid() && received == Sent(events[..i]) && dispatched <= cmds
        invariant !closing && !blocked ==> Run(Idle, received) == Outcome(Now(), querybuf, dispatched, false)
        decreases |events| - i
      {
        SentNext(events, i);
        match events[i] {
          case Read(data) => Feed(data);
          case Wake => if blocked { Unblock(); }
        }
        i := i + 1;
        ghost var more := SentSplit(events, i);
        PrefixRuns(cmds, received, more);
        DispatchedPrefix(cmds);
      }
      assert events[..i] == events;
      PrefixRuns(cmds, received, []);
    }

    lemma DispatchedPrefix(cmds: seq<Argv>)
      requires Valid() && Run(Idle, received).cmds <= cmds
      ensures dispatched <= cmds
    {
      assert Run(Idle, received).cmds == dispatched + Run(Now(), querybuf).cmds;
    }
  }

  /** A client that sends three arguments, the second a long one, is cut off when a read ends after that argument. */
  method LongArgumentIsCut(first: seq<byte>, long: seq<byte>, last: seq<byte>) returns (closed: bool)
    requires |first| <= MAX_BULK && REDIS_INLINE_MAX_SIZE - 2 < |long| <= MAX_BULK && |last| <= MAX_BULK
    ensures closed
  {
    ghost var argv := [first, long, last];
    var sent := Line(STAR, 3) + EncodeArgs([first, long]);
    var chunks, more := Pieces(sent), Pieces(EncodeArgs([last]));
    PiecesJoin(sent);
    PiecesJoin(EncodeArgs([last]));
    assert argv[..2] == [first, long] && argv[2..] == [last];
    TwoParts(argv, 2);
    ConcatAppend(chunks, more);
    assert EncodeAll([argv]) == Encode(argv) + EncodeAll([]);
    hide EncodeArgs, Line, WellFormed;
    LongArgumentCuts(argv, 2, chunks, more);
    var client := new Client(_ => false);
    client.Serve(chunks + more, [argv]);
    closed := client.closing;
  }
}
