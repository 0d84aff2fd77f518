/** The freestanding printf of printf.c as the code runs it: a cursor into
    the format string, a cursor into the variadic arguments, and putchar
    calls on an output device. Each method is proved to compute the
    functions of module FormatSpec. */
module Printf {
  import opened CTypes
  import opened Decimal
  import opened FormatSpec

  /** `EOF` of stdio.h. */
  const EOF: int := -1

  /** The device behind putchar: call number k fails when k is in refused;
      calls counts the calls so far and out holds the characters accepted. */
  class Sink {
    const refused: set<nat>
    var calls: nat
    var out: seq<char>

    function State(): SinkState
      reads this
    {
      SinkState(calls, out)
    }

    constructor (refused: set<nat>)
      ensures this.refused == refused && calls == 0 && out == []
    {
      this.refused := refused;
      calls := 0;
      out := [];
    }

    /** putchar: writes c and returns it, or returns EOF when the device
        refuses the call. */
    method Putchar(c: char) returns (r: int)
      modifies this
      ensures old(calls) in refused ==> r == EOF && State() == SinkState(old(calls) + 1, old(out))
      ensures old(calls) !in refused ==> r == c as int && State() == SinkState(old(calls) + 1, old(out) + [c])
    {
      if calls in refused {
        r := EOF;
      } else {
        out := out + [c];
        r := c as int;
      }
      calls := calls + 1;
    }
  }

  /** printf.c:45-54: one putchar per byte; -1 at the first EOF, else the
      length. */
  method Print(sink: Sink, data: seq<char>) returns (r: int)
    modifies sink
    ensures var (ok, st) := Emit(sink.refused, old(sink.State()), data);
      r == (if ok then |data| else -1) && sink.State() == st
  {
    var i := 0;
    while i < |data|
      invariant 0 <= i <= |data|
      invariant Emit(sink.refused, sink.State(), data[i..]) == Emit(sink.refused, old(sink.State()), data)
    {
      assert data[i..][1..] == data[i + 1..];
      var c := sink.Putchar(data[i]);
      if c == EOF {
        return -1;
      }
      i := i + 1;
    }
    r := |data|;
  }

  /** printf.c:56-72. The int argument is cut to a `char` and printed as
      an `unsigned char`, its value modulo 256. The result of print is 1 or
      -1, so `!print(...)` is never true and the result is 1 once the budget
      allows it. */
  method FormatC(sink: Sink, pos: nat, args: seq<Arg>, ai: nat, maxLen: int)
    returns (len: int, pos': nat, ai': nat)
    requires ai < |args| && args[ai].IntArg?
    requires maxLen >= 0
    modifies sink
    ensures (len, sink.State()) == Chunk(Directive(Formatter.FormatC), [ByteChar(args[ai].i)], maxLen, sink.refused, old(sink.State()))
    ensures pos' == pos + 2 && ai' == ai + 1
  {
    var c := ByteChar(args[ai].i);
    ai' := ai + 1;
    pos' := pos + 2;
    if maxLen == 0 {
      return -1, pos', ai';
    }
    var p := Print(sink, [c]);
    len := if p == 0 then -1 else 1;
  }

  /** printf.c:74-88. */
  method FormatS(sink: Sink, pos: nat, args: seq<Arg>, ai: nat, maxLen: int)
    returns (len: int, pos': nat, ai': nat)
    requires ai < |args| && args[ai].StrArg?
    requires maxLen >= 0
    modifies sink
    ensures (len, sink.State()) == Chunk(Directive(Formatter.FormatS), CString(args[ai].s, 0), maxLen, sink.refused, old(sink.State()))
    ensures pos' == pos + 2 && ai' == ai + 1
  {
    var str := args[ai].s;
    ai' := ai + 1;
    var n := Strlen(str, 0);
    pos' := pos + 2;
    if maxLen < n {
      return -1, pos', ai';
    }
    len := Print(sink, str[..n]);
  }

  /** printf.c:91-126: the digits and sign are built by
      DecimalRepresentation, then checked against the budget and printed. */
  method FormatD(sink: Sink, pos: nat, args: seq<Arg>, ai: nat, maxLen: int)
    returns (len: int, pos': nat, ai': nat)
    requires ai < |args| && args[ai].IntArg? && INT_MIN < args[ai].i <= INT_MAX
    requires maxLen >= 0
    modifies sink
    ensures (len, sink.State()) == Chunk(Directive(Formatter.FormatD), DecimalText(args[ai].i), maxLen, sink.refused, old(sink.State()))
    ensures pos' == pos + 2 && ai' == ai + 1
  {
    var value := args[ai].i;
    ai' := ai + 1;
    pos' := pos + 2;
    var representation := DecimalRepresentation(value);
    if maxLen < |representation| {
      return -1, pos', ai';
    }
    len := Print(sink, representation);
  }

  /** printf.c:128-145: prints the rest of the format string from the '%'
      and moves the cursor past it when that succeeded. */
  method FormatDefault(sink: Sink, fmt: seq<char>, pos: nat, ai: nat, maxLen: int)
    returns (len: int, pos': nat, ai': nat)
    requires pos <= |fmt|
    requires maxLen >= 0
    modifies sink
    ensures (len, sink.State()) == Chunk(Directive(Formatter.FormatDefault), CString(fmt, pos), maxLen, sink.refused, old(sink.State()))
    ensures pos' == (if len != -1 then pos + Strlen(fmt, pos) else pos) && ai' == ai
  {
    ai' := ai;
    pos' := pos;
    var n := Strlen(fmt, pos);
    if maxLen < n {
      return -1, pos', ai';
    }
    len := Print(sink, fmt[pos..pos + n]);
    if len != -1 {
      pos' := pos + len;
    }
  }

  /** printf.c:147-159: a linear search of formatter_ids that falls through
      to the extra last entry of formatters. */
  method FormatterId(c: char) returns (f: Formatter)
    ensures f == Selected(c)
  {
    var i := 0;
    while i < |FormatterIds| && FormatterIds[i] != c
      invariant 0 <= i <= |FormatterIds|
      invariant forall k :: 0 <= k < i ==> FormatterIds[k] != c
    {
      i := i + 1;
    }
    f := Formatters[i];
    if i == |FormatterIds| {
      assert c != FormatterIds[0] && c != FormatterIds[1] && c != FormatterIds[2] && c != FormatterIds[3];
    }
  }

  /** printf.c:161-166: dispatches on the character after the '%'. */
  method Format(sink: Sink, fmt: seq<char>, pos: nat, args: seq<Arg>, ai: nat, maxLen: int)
    returns (len: int, pos': nat, ai': nat)
    requires At(fmt, pos) == '%' && At(fmt, pos + 1) != '%'
    requires Uses(fmt, pos) == 1 ==> ai < |args| && Fits(PieceAt(fmt, pos).f, args[ai])
    requires maxLen >= 0
    modifies sink
    ensures (len, sink.State()) ==
      Chunk(PieceAt(fmt, pos), PieceText(fmt, pos, args, ai), maxLen, sink.refused, old(sink.State()))
    ensures len != -1 ==> pos' == NextPos(fmt, pos) && ai' == ai + Uses(fmt, pos)
  {
    var f := FormatterId(At(fmt, pos + 1));
    match f
    case FormatC => len, pos', ai' := FormatC(sink, pos, args, ai, maxLen);
    case FormatS => len, pos', ai' := FormatS(sink, pos, args, ai, maxLen);
    case FormatD => len, pos', ai' := FormatD(sink, pos, args, ai, maxLen);
    case FormatDefault => len, pos', ai' := FormatDefault(sink, fmt, pos, ai, maxLen);
  }

  /** printf.c:180-198, the literal branch of the printf loop: skips the
      first '%' of "%%", measures the run up to the next '%' or the end, and
      prints it within the budget; the cursor moves past it on success. */
  method PrintLiteral(sink: Sink, fmt: seq<char>, pos: nat, maxLen: int) returns (len: int, pos': nat)
    requires At(fmt, pos) != '\0' && StartsLiteral(fmt, pos) && maxLen >= 0
    modifies sink
    ensures (len, sink.State()) ==
      Chunk(PieceAt(fmt, pos), PieceText(fmt, pos, [], 0), maxLen, sink.refused, old(sink.State()))
    ensures len != -1 ==> pos' == NextPos(fmt, pos)
  {
    var start := pos;
    if At(fmt, start) == '%' {
      start := start + 1;
    }
    var n := 1;
    while At(fmt, start + n) != '\0' && At(fmt, start + n) != '%'
      invariant 1 <= n && RunEnd(fmt, start + n) == RunEnd(fmt, start + 1)
      decreases |fmt| - (start + n)
    {
      n := n + 1;
    }
    pos' := start;
    if maxLen < n {
      return -1, pos';
    }
    len := Print(sink, fmt[start..start + n]);
    if len != -1 {
      pos' := pos' + len;
    }
  }

  /** One pass of the printf loop body before the count is updated
      (printf.c:178-201): a literal run or a directive, printed with budget
      INT_MAX - written. */
  method PrintPiece(sink: Sink, fmt: seq<char>, pos: nat, args: seq<Arg>, ai: nat, written: int)
    returns (len: int, pos': nat, ai': nat)
    requires 0 <= written <= INT_MAX && At(fmt, pos) != '\0'
    requires Uses(fmt, pos) == 1 ==> ai < |args| && Fits(PieceAt(fmt, pos).f, args[ai])
    modifies sink
    ensures (len, sink.State()) ==
      Chunk(PieceAt(fmt, pos), PieceText(fmt, pos, args, ai), INT_MAX - written, sink.refused, old(sink.State()))
    ensures len != -1 ==> pos' == NextPos(fmt, pos) && ai' == ai + Uses(fmt, pos)
  {
    var maxLen := INT_MAX - written;
    if At(fmt, pos) != '%' || At(fmt, pos + 1) == '%' {
      len, pos' := PrintLiteral(sink, fmt, pos, maxLen);
      ai' := ai;
    } else {
      len, pos', ai' := Format(sink, fmt, pos, args, ai, maxLen);
    }
  }

  datatype Option<T> = None | Some(value: T)

  /** What the rest of the printf loop yields from cursor pos, argument
      index ai, count written and sink state st: the final count and sink
      state, or None when the arguments do not agree with the rest of the
      format. This is the loop invariant of printf. */
  ghost function Outcome(fmt: seq<char>, pos: nat, args: seq<Arg>, ai: nat, refused: set<nat>,
                         written: int, st: SinkState): Option<(int, SinkState)>
    requires 0 <= written <= INT_MAX
  {
    if ArgsFrom(fmt, pos, args, ai) then Some(Run(Items(fmt, pos, args, ai), refused, written, st)) else None
  }

  /** One pass of the printf loop (printf.c:177-209) as the rest of the
      scan sees it: either the call ends here with -1 and the outcome goal,
      or the count grows by len and the loop from the new cursor still ends
      with goal. */
  method Step(sink: Sink, fmt: seq<char>, pos: nat, args: seq<Arg>, ai: nat, written: int,
              ghost goal: (int, SinkState))
    returns (len: int, pos': nat, ai': nat)
    requires 0 <= written <= INT_MAX && At(fmt, pos) != '\0'
    requires Outcome(fmt, pos, args, ai, sink.refused, written, sink.State()) == Some(goal)
    modifies sink
    ensures len == -1 ==> goal == (-1, sink.State())
    ensures len != -1 ==> 0 <= written + len <= INT_MAX && pos < pos' <= |fmt|
    ensures len != -1 ==> Outcome(fmt, pos', args, ai', sink.refused, written + len, sink.State()) == Some(goal)
  {
    ArgsStep(fmt, pos, args, ai);
    len, pos', ai' := PrintPiece(sink, fmt, pos, args, ai, written);
    ScanStep(fmt, pos, args, ai, sink.refused, written, old(sink.State()), len, sink.State());
  }

  /** printf.c:168-215: copies literal runs and hands directives to the
      formatters while the count stays within INT_MAX; -1 on overflow or
      when the device fails. */
  method Printf(sink: Sink, fmt: seq<char>, args: seq<Arg>) returns (written: int)
    requires ArgsFrom(fmt, 0, args, 0)
    modifies sink
    ensures (written, sink.State()) == FormatSpec.Printf(fmt, args, sink.refused, old(sink.State()))
  {
    ghost var goal := FormatSpec.Printf(fmt, args, sink.refused, sink.State());
    var pos: nat, ai: nat := 0, 0;
    var writtenLen := 0;
    while At(fmt, pos) != '\0'
      invariant 0 <= writtenLen <= INT_MAX && pos <= |fmt|
      invariant Outcome(fmt, pos, args, ai, sink.refused, writtenLen, sink.State()) == Some(goal)
      decreases |fmt| - pos
    {
      var len;
      len, pos, ai := Step(sink, fmt, pos, args, ai, writtenLen, goal);
      if len == -1 {
        writtenLen := -1;
        break;
      }
      writtenLen := writtenLen + len;
    }
    written := writtenLen;
  }
}
